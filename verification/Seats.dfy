/**
 Seats: a capped allocator whose rows and relation tuples stay in step (internal/service/seats.go,
 internal/service/authz.go, internal/repo/memory/memory.go).
 */
module Seats {
  import opened AuthzModel
  import opened VisitKeys
  import opened Evaluator
  import opened TupleKeys
  import opened Store
  import opened Inert

  const SEAT_NAMESPACE := "seat"
  const SEAT_RELATION := "holder"

  function UserOnly(u: string): Subject {
    Subject(u, None, false, None)
  }

  function SeatTuple(sku: string, u: string): Tuple {
    Tuple(SEAT_NAMESPACE, sku, SEAT_RELATION, UserOnly(u), None)
  }

  // ---- the operations; `active` is whether the project is active and served here ----

  function SetSeatLimit(sh: Shard, active: bool, sku: string, limit: Option<int>): (Shard, Reply) {
    if sku == "" || (limit.Some? && limit.value < 0) then (sh, Refused(InvalidArgument))
    else if !active then (sh, Refused(FailedPrecondition))
    else (SetSeatLimitRow(sh, sku, limit), Done)
  }

  function AssignSeat(sh: Shard, active: bool, sku: string, u: string): (Shard, Assigned) {
    if sku == "" || u == "" then (sh, SeatRefused(InvalidArgument))
    else if !active then (sh, SeatRefused(FailedPrecondition))
    else AssignSeatAndTuple(sh, sku, u, SeatTuple(sku, u))
  }

  function RevokeSeat(sh: Shard, active: bool, sku: string, u: string): (Shard, Reply) {
    if sku == "" || u == "" then (sh, Refused(InvalidArgument))
    else if !active then (sh, Refused(FailedPrecondition))
    else (RevokeSeatAndTuple(sh, sku, u, SeatTuple(sku, u)), Done)
  }

  predicate HasControlChar(s: string) {
    exists c | c in s :: c < ' '
  }

  /** The shape the generic write path demands; the seat namespace is reserved. */
  predicate ValidTuple(t: Tuple) {
    && t.ns != "" && t.obj != "" && t.rel != ""
    && t.ns != SEAT_NAMESPACE
    && !HasControlChar(t.ns) && !HasControlChar(t.obj) && !HasControlChar(t.rel) && !HasControlChar(t.subject.userID)
    && (t.subject.userset.Some? ==>
          var s := t.subject.userset.value; !HasControlChar(s.ns) && !HasControlChar(s.obj) && !HasControlChar(s.rel))
    && (if t.subject.userID != "" then 1 else 0) + (if t.subject.userset.Some? then 1 else 0)
       + (if t.subject.wildcard then 1 else 0) == 1
    && (t.subject.userset.Some? ==> t.subject.userset.value.ns != "" && t.subject.userset.value.obj != "")
    && (t.subject.condition.Some? && t.subject.condition.value.name != "" ==>
          t.subject.condition.value.name in RegisteredConditions)
  }

  datatype TupleOp = TupleOp(delete: bool, tuple: Tuple)

  /** The tuples to insert, or to delete, in the order of the batch. */
  function Picked(ops: seq<TupleOp>, delete: bool): seq<Tuple> {
    if ops == [] then [] else (if ops[0].delete == delete then [ops[0].tuple] else []) + Picked(ops[1..], delete)
  }

  lemma {:induction false} PickedAreGiven(ops: seq<TupleOp>, delete: bool)
    ensures forall t | t in Picked(ops, delete) :: exists op | op in ops :: op.tuple == t
    decreases |ops|
  {
    if ops != [] {
      assert ops == [ops[0]] + ops[1..];
      PickedAreGiven(ops[1..], delete);
    }
  }

  /** A raw write: every tuple valid, the project active, no insert on a computed-only relation. */
  function WriteTuples(sh: Shard, active: bool, model: Model, ops: seq<TupleOp>): (Shard, Reply) {
    var inserts, deletes := Picked(ops, false), Picked(ops, true);
    if exists op | op in ops :: !ValidTuple(op.tuple) then (sh, Refused(InvalidArgument))
    else if !active then (sh, Refused(FailedPrecondition))
    else if exists t | t in inserts :: !WritableRelation(model, t.ns, t.rel) then (sh, Refused(InvalidArgument))
    else (WriteIn(sh, inserts, deletes), Done)
  }

  // ---- rows and tuples in step ----

  /** Assigned (sku, user) pairs and stored seat tuples are the same thing. */
  ghost predicate SeatsInStep(sh: Shard) {
    && WellKeyed(sh.tuples)
    && (forall t: Tuple :: Stored(sh.tuples, t) && t.ns == SEAT_NAMESPACE ==>
          t == SeatTuple(t.obj, t.subject.userID) && t.subject.userID in Holders(sh, t.obj))
    && forall sku: string, u: string :: u in Holders(sh, sku) ==> u != "" && Stored(sh.tuples, SeatTuple(sku, u))
  }

  lemma WriteStores(m: TupleTable, inserts: seq<Tuple>, deletes: seq<Tuple>)
    requires WellKeyed(m)
    ensures WellKeyed(Write(m, inserts, deletes))
    ensures forall t: Tuple :: Stored(Write(m, inserts, deletes), t) <==>
              LastWrite(inserts, t) || (Stored(m, t) && !Mentions(deletes, t) && !Mentions(inserts, t))
  {
    RemoveStores(m, deletes);
    InsertStores(Remove(m, deletes), inserts);
  }

  lemma InsertOneStores(m: TupleTable, x: Tuple)
    requires WellKeyed(m)
    ensures WellKeyed(Write(m, [x], []))
    ensures forall t: Tuple ::
              Stored(Write(m, [x], []), t) <==> t == x || (Stored(m, t) && IdentityOf(t) != IdentityOf(x))
  {
    WriteStores(m, [x], []);
    forall t: Tuple
      ensures Stored(Write(m, [x], []), t) <==> t == x || (Stored(m, t) && IdentityOf(t) != IdentityOf(x))
    {
      MentionsFirst([x], t);
      assert [x][1..] == [];
      assert LastWrite([x], t) <==> x == t;
    }
  }

  lemma DeleteOneStores(m: TupleTable, x: Tuple)
    requires WellKeyed(m)
    ensures WellKeyed(Write(m, [], [x]))
    ensures forall t: Tuple :: Stored(Write(m, [], [x]), t) <==> Stored(m, t) && IdentityOf(t) != IdentityOf(x)
  {
    WriteStores(m, [], [x]);
    forall t: Tuple
      ensures Stored(Write(m, [], [x]), t) <==> Stored(m, t) && IdentityOf(t) != IdentityOf(x)
    {
      MentionsFirst([x], t);
    }
  }

  lemma SwapOneStores(m: TupleTable, x: Tuple, y: Tuple)
    requires WellKeyed(m)
    ensures WellKeyed(Write(m, [x], [y]))
    ensures forall t: Tuple :: Stored(Write(m, [x], [y]), t) <==>
              t == x || (Stored(m, t) && IdentityOf(t) != IdentityOf(x) && IdentityOf(t) != IdentityOf(y))
  {
    var m1 := Write(m, [], [y]);
    DeleteOneStores(m, y);
    InsertOneStores(m1, x);
    assert Write(m1, [x], []) == Write(m, [x], [y]);
  }

  lemma GrantedSeatInStep(sh: Shard, sh': Shard, sku: string, u: string)
    requires SeatsInStep(sh) && u != "" && WellKeyed(sh'.tuples)
    requires sh'.seats == sh.seats[sku := Holders(sh, sku) + {u}]
    requires forall t: Tuple :: Stored(sh'.tuples, t) <==>
               t == SeatTuple(sku, u) || (Stored(sh.tuples, t) && IdentityOf(t) != IdentityOf(SeatTuple(sku, u)))
    ensures SeatsInStep(sh')
  {
    forall s: string, v: string | v in Holders(sh', s)
      ensures v != "" && Stored(sh'.tuples, SeatTuple(s, v))
    {
      if s != sku || v != u { assert v in Holders(sh, s); }
    }
  }

  lemma AssignKeepsStep(sh: Shard, active: bool, sku: string, u: string)
    requires SeatsInStep(sh)
    ensures SeatsInStep(AssignSeat(sh, active, sku, u).0)
  {
    var (sh', reply) := AssignSeat(sh, active, sku, u);
    if !reply.SeatRefused? {
      InsertOneStores(sh.tuples, SeatTuple(sku, u));
      if reply.Newly? {
        GrantedSeatInStep(sh, sh', sku, u);
      } else {
        assert Stored(sh.tuples, SeatTuple(sku, u));
        ElsewhereKeepsStep(sh, sh');
      }
    }
  }

  lemma RevokedSeatInStep(sh: Shard, sh': Shard, sku: string, u: string)
    requires SeatsInStep(sh) && WellKeyed(sh'.tuples)
    requires sh'.seats == sh.seats[sku := Holders(sh, sku) - {u}]
    requires forall t: Tuple ::
               Stored(sh'.tuples, t) <==> Stored(sh.tuples, t) && IdentityOf(t) != IdentityOf(SeatTuple(sku, u))
    ensures SeatsInStep(sh')
  {
    forall s: string, v: string | v in Holders(sh', s)
      ensures v != "" && Stored(sh'.tuples, SeatTuple(s, v))
    {
      assert v in Holders(sh, s);
    }
  }

  lemma RevokeKeepsStep(sh: Shard, active: bool, sku: string, u: string)
    requires SeatsInStep(sh)
    ensures SeatsInStep(RevokeSeat(sh, active, sku, u).0)
  {
    var (sh', reply) := RevokeSeat(sh, active, sku, u);
    if reply.Done? {
      DeleteOneStores(sh.tuples, SeatTuple(sku, u));
      RevokedSeatInStep(sh, sh', sku, u);
    }
  }

  /** Whatever leaves the seat rows and the seat namespace alone keeps them in step. */
  lemma ElsewhereKeepsStep(sh: Shard, sh': Shard)
    requires SeatsInStep(sh) && WellKeyed(sh'.tuples) && sh'.seats == sh.seats
    requires forall t: Tuple | t.ns == SEAT_NAMESPACE :: Stored(sh'.tuples, t) <==> Stored(sh.tuples, t)
    ensures SeatsInStep(sh')
  {
    forall sku: string, u: string | u in Holders(sh', sku)
      ensures Stored(sh'.tuples, SeatTuple(sku, u))
    {
      assert u in Holders(sh, sku);
    }
  }

  lemma {:induction false} LastWriteIsAmong(ts: seq<Tuple>, t: Tuple)
    ensures LastWrite(ts, t) ==> t in ts
    decreases |ts|
  {
    if ts != [] { LastWriteIsAmong(ts[1..], t); }
  }

  predicate Off(ts: seq<Tuple>, ns: string) {
    forall t | t in ts :: t.ns != ns
  }

  /** The stored tuples of one namespace are the same. */
  ghost predicate SameIn(ns: string, m: TupleTable, m': TupleTable) {
    (WellKeyed(m) ==> WellKeyed(m')) && forall t: Tuple | t.ns == ns :: Stored(m', t) <==> Stored(m, t)
  }

  lemma WriteElsewhere(ns: string, m: TupleTable, inserts: seq<Tuple>, deletes: seq<Tuple>)
    requires WellKeyed(m) && Off(inserts, ns) && Off(deletes, ns)
    ensures SameIn(ns, m, Write(m, inserts, deletes))
  {
    WriteStores(m, inserts, deletes);
    forall t: Tuple | t.ns == ns
      ensures Stored(Write(m, inserts, deletes), t) <==> Stored(m, t)
    {
      LastWriteIsAmong(inserts, t);
      assert forall i | 0 <= i < |inserts| :: inserts[i] in inserts;
      assert forall i | 0 <= i < |deletes| :: deletes[i] in deletes;
    }
  }

  lemma EraseStores(sh: Shard, u: string)
    requires WellKeyed(sh.tuples)
    ensures WellKeyed(EraseUser(sh, u).tuples)
    ensures forall t: Tuple :: Stored(EraseUser(sh, u).tuples, t) <==> Stored(sh.tuples, t) && !NamesUser(t, u)
  {
  }

  lemma EraseKeepsStep(sh: Shard, u: string)
    requires SeatsInStep(sh)
    ensures SeatsInStep(EraseUser(sh, u))
  {
    EraseStores(sh, u);
    var sh' := EraseUser(sh, u);
    forall sku: string, v: string | v in Holders(sh', sku)
      ensures v != "" && Stored(sh'.tuples, SeatTuple(sku, v))
    {
      assert v in Holders(sh, sku);
    }
    forall t: Tuple | Stored(sh'.tuples, t) && t.ns == SEAT_NAMESPACE
      ensures t == SeatTuple(t.obj, t.subject.userID) && t.subject.userID in Holders(sh', t.obj)
    {
      assert Stored(sh.tuples, t);
    }
  }

  // ---- the cap ----

  predicate OverCap(sh: Shard, sku: string) {
    sku in sh.seatLimits && |Holders(sh, sku)| > sh.seatLimits[sku]
  }

  /** A new assignment fits under the cap and takes exactly one seat of one sku. */
  lemma NewSeatFits(sh: Shard, active: bool, sku: string, u: string)
    requires AssignSeat(sh, active, sku, u).1 == Newly
    ensures var sh' := AssignSeat(sh, active, sku, u).0;
            && !OverCap(sh', sku) && sh'.seatLimits == sh.seatLimits
            && u !in Holders(sh, sku) && Holders(sh', sku) == Holders(sh, sku) + {u}
            && forall other: string | other != sku :: Holders(sh', other) == Holders(sh, other)
  {
    assert |Holders(sh, sku) + {u}| == |Holders(sh, sku)| + 1;
  }

  /** The keys of a sku's stored holder tuples. */
  function HolderKeys(m: TupleTable, sku: string): set<string> {
    set k | k in m && m[k].ns == SEAT_NAMESPACE && m[k].obj == sku
  }

  lemma {:induction false} SeatKeysCount(sku: string, users: set<string>)
    ensures |set u | u in users :: TupleKey(SeatTuple(sku, u))| == |users|
    decreases users
  {
    if users != {} {
      var u :| u in users;
      var rest := users - {u};
      SeatKeysCount(sku, rest);
      forall v | v in rest ensures TupleKey(SeatTuple(sku, v)) != TupleKey(SeatTuple(sku, u)) {
        TupleKeyIff(SeatTuple(sku, v), SeatTuple(sku, u));
      }
      assert (set v | v in users :: TupleKey(SeatTuple(sku, v)))
          == (set v | v in rest :: TupleKey(SeatTuple(sku, v))) + {TupleKey(SeatTuple(sku, u))};
    }
  }

  /** Seats in use are the holder tuples stored. */
  lemma HoldersAreCounted(sh: Shard, sku: string)
    requires SeatsInStep(sh)
    ensures |HolderKeys(sh.tuples, sku)| == |Holders(sh, sku)|
  {
    SeatKeysCount(sku, Holders(sh, sku));
    forall k: string
      ensures k in HolderKeys(sh.tuples, sku) <==> k in set u | u in Holders(sh, sku) :: TupleKey(SeatTuple(sku, u))
    {
      if k in HolderKeys(sh.tuples, sku) {
        var t := sh.tuples[k];
        assert Stored(sh.tuples, t);
        assert t == SeatTuple(sku, t.subject.userID);
      }
    }
    assert HolderKeys(sh.tuples, sku) == set u | u in Holders(sh, sku) :: TupleKey(SeatTuple(sku, u));
  }

  /**
   Read off the tuples alone: a request for a seat is refused for lack of seats exactly when the user's own
   holder tuple is not stored and at least as many holder tuples are as the cap allows.
   */
  lemma RefusedAtCapIff(sh: Shard, active: bool, sku: string, u: string)
    requires SeatsInStep(sh)
    ensures AssignSeat(sh, active, sku, u).1 == SeatRefused(ResourceExhausted) <==>
              && active && sku != "" && u != "" && !Stored(sh.tuples, SeatTuple(sku, u))
              && sku in sh.seatLimits && |HolderKeys(sh.tuples, sku)| >= sh.seatLimits[sku]
  {
    HoldersAreCounted(sh, sku);
  }

  // ---- what Check answers for a seat ----

  /** Subjects that are all plain, unconditional users. */
  predicate PlainUsers(subjects: seq<Subject>) {
    forall s | s in subjects :: s == UserOnly(s.userID)
  }

  lemma {:induction false} PlainWalk(
      e: Env, u: string, subjects: seq<Subject>, neg: bool, path: set<string>, s: Scratch, depth: nat)
    requires depth <= e.maxDepth && PlainUsers(subjects)
    ensures EvalSubjects(e, ByUser(u), Direct, subjects, neg, path, s, depth)
         == Outcome(s, Ok(u != "" && UserOnly(u) in subjects))
    decreases |subjects|
  {
    if subjects != [] {
      assert subjects[0] == UserOnly(subjects[0].userID);
      PlainWalk(e, u, subjects[1..], neg, path, s, depth);
    }
  }

  lemma PlainRead(e: Env, n: Node, u: string, neg: bool, path: set<string>, s: Scratch, depth: nat)
    requires depth <= e.maxDepth && PlainUsers(Subjects(e, n)) && !OverBudget(e, Charge(s))
    ensures EvalRewrite(e, ByUser(u), n, ThisRewrite, neg, path, s, depth)
         == Outcome(Charge(s), Ok(u != "" && UserOnly(u) in Subjects(e, n)))
  {
    PlainWalk(e, u, Subjects(e, n), neg, path, Charge(s), depth);
    assert EvalRewrite(e, ByUser(u), n, ThisRewrite, neg, path, s, depth)
        == ReadAndWalk(e, ByUser(u), Direct, Subjects(e, n), neg, path, s, depth);
  }

  lemma ListedSubject(e: Env, m: TupleTable, now: int, n: Node, s: Subject) returns (t: Tuple)
    requires WellKeyed(m) && Lists(e, m, now) && s in Subjects(e, n)
    ensures Stored(m, t) && NodeOf(t) == n && t.subject == s
  {
    assert SubjectStored(m, n, s, now);
    var k :| k in m && NodeOf(m[k]) == n && m[k].subject == s && ActiveAt(m[k], now);
    t := m[k];
  }

  lemma StoredIsListed(e: Env, m: TupleTable, now: int, t: Tuple)
    requires Lists(e, m, now) && Stored(m, t) && ActiveAt(t, now)
    ensures t.subject in Subjects(e, NodeOf(t))
  {
    assert SubjectStored(m, NodeOf(t), t.subject, now);
  }

  /** Without a model for the seat namespace, Check on a seat is true exactly for its holders. */
  lemma SeatCheckIsExact(e: Env, sh: Shard, now: int, sku: string, u: string)
    requires SeatsInStep(sh) && Lists(e, sh.tuples, now) && SEAT_NAMESPACE !in e.model
    ensures TopCheck(e, ByUser(u), Node(SEAT_NAMESPACE, sku, SEAT_RELATION)).res == Ok(u in Holders(sh, sku))
  {
    var n := Node(SEAT_NAMESPACE, sku, SEAT_RELATION);
    forall s | s in Subjects(e, n)
      ensures s == UserOnly(s.userID) && s.userID in Holders(sh, sku)
    {
      var t := ListedSubject(e, sh.tuples, now, n, s);
      assert t == SeatTuple(t.obj, t.subject.userID);
    }
    if u in Holders(sh, sku) { StoredIsListed(e, sh.tuples, now, SeatTuple(sku, u)); }
    PlainRead(e, n, u, false, {} + {VisitKey(n)}, Fresh, 0);
  }
}
