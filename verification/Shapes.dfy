/**
 What the stored tuples look like, over every run: what the generic write path demands of a subject
 (internal/service/authz.go) holds of every stored subject, so the engine never meets an anonymous one.
 */
module Shapes {
  import opened AuthzModel
  import opened TupleKeys
  import opened Store
  import opened Seats
  import opened Workspaces
  import opened Requests
  import opened SeatRuns
  import opened MembershipRuns
  import opened Outcomes
  import opened Provenance
  import opened ExpandMeaning

  /** Exactly one of a user, a userset with its namespace and object, and the wildcard. */
  predicate OneSubject(s: Subject) {
    if s.wildcard then s.userID == "" && s.userset.None?
    else if s.userset.Some? then s.userID == "" && s.userset.value.ns != "" && s.userset.value.obj != ""
    else s.userID != ""
  }

  /** A named condition is one the engine has a function for. */
  predicate KnownCondition(s: Subject) {
    s.condition.Some? && s.condition.value.name != "" ==>
      s.condition.value.name in {"consent_granted", "age_at_least", "ip_in_cidrs", "not_after", "scope_in"}
  }

  predicate WellShaped(s: Subject) {
    OneSubject(s) && KnownCondition(s)
  }

  /** Outside workspaces and seats, every stored subject is well shaped. */
  ghost predicate RawShaped(m: TupleTable) {
    forall t: Tuple :: Stored(m, t) && t.ns != WORKSPACE && t.ns != SEAT_NAMESPACE ==> WellShaped(t.subject)
  }

  predicate NamedRows(rows: MemberRows) {
    forall p | p in rows :: p.1 != ""
  }

  /** Every string of a tuple but the name of its condition. */
  function Texts(t: Tuple): set<string> {
    {t.ns, t.obj, t.rel, t.subject.userID} +
    if t.subject.userset.Some? then var n := t.subject.userset.value; {n.ns, n.obj, n.rel} else {}
  }

  predicate Printable(x: string) {
    forall i | 0 <= i < |x| :: x[i] >= ' '
  }

  lemma PrintableIff(x: string)
    ensures Printable(x) <==> !HasControlChar(x)
  {
    if !HasControlChar(x) {
      forall i | 0 <= i < |x| ensures x[i] >= ' ' { assert x[i] in x; }
    }
  }

  /** What the generic write path accepts. */
  lemma ValidIff(t: Tuple)
    ensures ValidTuple(t) <==>
              && WellShaped(t.subject) && "" !in {t.ns, t.obj, t.rel} && t.ns != SEAT_NAMESPACE
              && forall x | x in Texts(t) :: Printable(x)
  {
    forall x: string ensures Printable(x) <==> !HasControlChar(x) { PrintableIff(x); }
  }

  lemma {:induction false} LastWriteIsGiven(inserts: seq<Tuple>, t: Tuple)
    requires LastWrite(inserts, t)
    ensures t in inserts
    decreases |inserts|
  {
    if inserts != [] && LastWrite(inserts[1..], t) { LastWriteIsGiven(inserts[1..], t); }
  }

  lemma RawWriteShaped(sh: Shard, active: bool, model: Model, ops: seq<TupleOp>, t: Tuple)
    requires WellKeyed(sh.tuples) && Stored(WriteTuples(sh, active, model, ops).0.tuples, t)
    ensures Stored(sh.tuples, t) || exists op | op in ops :: op.tuple == t && ValidTuple(t)
  {
    var inserts, deletes := Picked(ops, false), Picked(ops, true);
    if !Stored(sh.tuples, t) {
      assert WriteTuples(sh, active, model, ops).0.tuples == Write(sh.tuples, inserts, deletes);
      WriteStores(sh.tuples, inserts, deletes);
      LastWriteIsGiven(inserts, t);
      PickedAreGiven(ops, false);
    }
  }

  lemma RawWritesShaped(sh: Shard, active: bool, model: Model, ops: seq<TupleOp>)
    requires WellKeyed(sh.tuples) && RawShaped(sh.tuples)
    ensures RawShaped(WriteTuples(sh, active, model, ops).0.tuples)
  {
    forall t: Tuple | Stored(WriteTuples(sh, active, model, ops).0.tuples, t) && !Stored(sh.tuples, t)
      ensures WellShaped(t.subject)
    {
      RawWriteShaped(sh, active, model, ops, t);
      ValidIff(t);
    }
  }

  lemma StepShaped(sh: Shard, sk: string, c: Call)
    requires WellKeyed(sh.tuples) && RawShaped(sh.tuples)
    ensures RawShaped(StepAt(sh, sk, c).tuples)
  {
    if c.Deprovision? {
      EraseStores(sh, c.user);
    } else if c.req.Raw? {
      RawWritesShaped(sh, c.active, c.e.model, c.req.ops);
    } else {
      forall t: Tuple | t.ns != WORKSPACE && t.ns != SEAT_NAMESPACE
        ensures Stored(Serve(sh, c).0.tuples, t) <==> Stored(sh.tuples, t)
      {
        OtherNamespacesAreKept(t.ns, sh, c);
      }
    }
  }

  lemma StepNamed(sh: Shard, sk: string, c: Call)
    requires Inv(sh) && (Addressed(c, sk) ==> Faithful(sh, c))
    requires NamedRows(sh.members) && (c.Call? ==> c.actor != "")
    ensures NamedRows(StepAt(sh, sk, c).members)
  {
    var sh' := StepAt(sh, sk, c);
    forall p | p in sh'.members ensures p.1 != "" {
      RoleFollows(sh, sk, c, p.0, p.1);
      assert p == (p.0, p.1);
    }
  }

  /** Every caller is somebody. */
  predicate Identified(calls: seq<Call>) {
    forall c | c in calls && c.Call? :: c.actor != ""
  }

  lemma {:induction false} ShapedThroughout(states: seq<Shard>, calls: seq<Call>, n: nat, sk: string)
    requires n <= |calls| && History(states, calls, sk)
    ensures RawShaped(states[n].tuples)
  {
    if n > 0 {
      ShapedThroughout(states, calls, n - 1, sk);
      InvThroughout(states, calls, n - 1, sk);
      StepShaped(states[n - 1], sk, calls[n - 1]);
    }
  }

  lemma {:induction false} NamedThroughout(states: seq<Shard>, calls: seq<Call>, n: nat, sk: string)
    requires n <= |calls| && History(states, calls, sk) && Identified(calls)
    ensures NamedRows(states[n].members)
  {
    if n > 0 {
      NamedThroughout(states, calls, n - 1, sk);
      InvThroughout(states, calls, n - 1, sk);
      StepNamed(states[n - 1], sk, calls[n - 1]);
    }
  }

  /** At every point of every run by identified callers, every stored subject is well shaped. */
  lemma StoredAreWellShaped(states: seq<Shard>, calls: seq<Call>, n: nat, sk: string, t: Tuple)
    requires n <= |calls| && History(states, calls, sk) && Identified(calls) && Stored(states[n].tuples, t)
    ensures WellShaped(t.subject)
  {
    ShapedThroughout(states, calls, n, sk);
    if t.ns == WORKSPACE {
      InvThroughout(states, calls, n, sk);
      NamedThroughout(states, calls, n, sk);
      assert RowBacks(states[n].members, t);
    } else if t.ns == SEAT_NAMESPACE {
      HistoryIsRun(states, calls, n, sk);
      SeatsAlwaysInStep(calls[..n], sk);
    }
  }

  /** So the hypothesis of the set checks holds of every engine that reads a reachable shard. */
  lemma ReachableIsNamed(states: seq<Shard>, calls: seq<Call>, n: nat, sk: string, e: Env, now: int, u: string)
    requires n <= |calls| && History(states, calls, sk) && Identified(calls) && Lists(e, states[n].tuples, now)
    ensures Named(e, u)
  {
    InvThroughout(states, calls, n, sk);
    forall v: Node, s: Subject | s in Subjects(e, v) ensures s.wildcard || s.userset.Some? || s.userID != "" {
      var t := ListedSubject(e, states[n].tuples, now, v, s);
      StoredAreWellShaped(states, calls, n, sk, t);
    }
  }
}
