/** ListObjects: one Check per candidate object over one shared read budget (pkg/authz/engine.go). */
module ListObjects {
  import opened AuthzModel
  import opened VisitKeys
  import opened Evaluator
  import opened Budget
  import opened Engine

  datatype Listing = Listed(ids: seq<string>) | TooManyObjects | ListBudgetExceeded

  /** A candidate's own unbudgeted Check, from fresh scratch state. */
  function Alone(e: Env, ns: string, id: string, rel: string, u: string): Outcome {
    TopCheck(Unbudgeted(e), ByUser(u), Node(ns, id, rel))
  }

  /** The candidates whose own Check answers yes, in order. */
  function Hits(e: Env, ns: string, ids: seq<string>, rel: string, u: string): seq<string> {
    if ids == [] then []
    else
      (if Alone(e, ns, ids[0], rel, u).res == Ok(true) then [ids[0]] else []) + Hits(e, ns, ids[1..], rel, u)
  }

  lemma {:induction false} HitsAreThoseAllowed(e: Env, ns: string, ids: seq<string>, rel: string, u: string)
    ensures forall id: string ::
              id in Hits(e, ns, ids, rel, u) <==> id in ids && Alone(e, ns, id, rel, u).res == Ok(true)
    decreases |ids|
  {
    if ids != [] { HitsAreThoseAllowed(e, ns, ids[1..], rel, u); }
  }

  /** The reads those Checks need altogether. */
  function TotalReads(e: Env, ns: string, ids: seq<string>, rel: string, u: string): nat {
    if ids == [] then 0
    else Alone(e, ns, ids[0], rel, u).st.readCount + TotalReads(e, ns, ids[1..], rel, u)
  }

  /** One Check inside a longer operation: visited and memo start over, the counters go on. */
  method CheckAfresh(e: Env, q: Query, n: Node, st: EvalState) returns (r: Result)
    requires st.maxReads == e.maxReads && WithinBudget(e, st.readCount)
    modifies st
    ensures var alone := TopCheck(Unbudgeted(e), q, n);
            && (r.Ok? <==> WithinBudget(e, old(st.readCount) + alone.st.readCount))
            && (r.Ok? ==> r == alone.res && st.readCount == old(st.readCount) + alone.st.readCount)
            && (r.BudgetExceeded? ==> st.readCount == e.maxReads + 1)
    ensures st.Owed() == old(st.Owed()) + if r.BudgetExceeded? then 1 else 0
  {
    st.visited, st.memo := {}, map[];
    CheckCut(e, q, n, false, {}, Fresh, st.Abs(), 0);
    r := CheckNode(e, q, n, false, st, 0);
  }

  /** What the candidates from position `i` on contribute, one more at a time. */
  lemma FromNext(e: Env, ns: string, ids: seq<string>, i: nat, rel: string, u: string, out: seq<string>)
    requires i < |ids|
    ensures var alone := Alone(e, ns, ids[i], rel, u);
            && TotalReads(e, ns, ids[i..], rel, u) == alone.st.readCount + TotalReads(e, ns, ids[i + 1..], rel, u)
            && out + Hits(e, ns, ids[i..], rel, u)
            == (if alone.res == Ok(true) then out + [ids[i]] else out) + Hits(e, ns, ids[i + 1..], rel, u)
  {
    assert ids[i..][0] == ids[i] && ids[i..][1..] == ids[i + 1..];
  }

  /** The loop over candidates: one shared budget, one fresh Check each. */
  method Scan(e: Env, ns: string, ids: seq<string>, rel: string, user: string)
      returns (r: Listing, ghost made: nat)
    ensures Frugal(e, made) && made == if r.Listed? then TotalReads(e, ns, ids, rel, user) else e.maxReads
    ensures if WithinBudget(e, TotalReads(e, ns, ids, rel, user))
            then r == Listed(Hits(e, ns, ids, rel, user))
            else r == ListBudgetExceeded
  {
    var st := new EvalState(e.maxReads);
    var out := [];
    var i := 0;
    while i < |ids|
      invariant 0 <= i <= |ids|
      invariant out + Hits(e, ns, ids[i..], rel, user) == Hits(e, ns, ids, rel, user)
      invariant st.readCount + TotalReads(e, ns, ids[i..], rel, user) == TotalReads(e, ns, ids, rel, user)
      invariant WithinBudget(e, st.readCount) && st.Owed() == 0
    {
      FromNext(e, ns, ids, i, rel, user, out);
      var ok := CheckAfresh(e, ByUser(user), Node(ns, ids[i], rel), st);
      if ok.BudgetExceeded? { return ListBudgetExceeded, st.listings; }
      if ok.allowed { out := out + [ids[i]]; }
      i := i + 1;
    }
    r, made := Listed(out), st.listings;
  }

  /**
   Sharing one scratch state changes no answer: the result is the hits, and it fails for lack of
   budget exactly when the candidates' own Checks need more reads altogether.
   */
  method ListObjectsWithModel(
      l: Limits, m: Model, tuples: map<Node, seq<Subject>>, nilContext: set<Condition>,
      ns: string, ids: seq<string>, rel: string, user: string, maxObjects: int, override: int)
      returns (r: Listing, ghost made: nat)
    ensures r.TooManyObjects? <==> maxObjects > 0 && |ids| > maxObjects
    ensures !r.TooManyObjects? ==>
              var candidates := if maxObjects <= 0 then |ids| else maxObjects;
              var budget := FanOutBudget(l, EffectiveMaxReads(l, override), candidates);
              var e := Env(m, tuples, nilContext, l.maxDepth, budget);
              if WithinBudget(e, TotalReads(e, ns, ids, rel, user))
              then r == Listed(Hits(e, ns, ids, rel, user))
              else r == ListBudgetExceeded
    ensures var candidates := if maxObjects <= 0 then |ids| else maxObjects;
            var budget := FanOutBudget(l, EffectiveMaxReads(l, override), candidates);
            var e := Env(m, tuples, nilContext, l.maxDepth, budget);
            && Frugal(e, made)
            && made == if r.TooManyObjects? then 0
                       else if r.Listed? then TotalReads(e, ns, ids, rel, user)
                       else budget
  {
    if maxObjects > 0 && |ids| > maxObjects { return TooManyObjects, 0; }
    var candidates := if maxObjects <= 0 then |ids| else maxObjects;
    var budget := FanOutBudget(l, EffectiveMaxReads(l, override), candidates);
    r, made := Scan(Env(m, tuples, nilContext, l.maxDepth, budget), ns, ids, rel, user);
  }

  // ---- pruning candidates to objects with a stored tuple loses nothing ----

  ghost predicate NoTuples(e: Env, ns: string, obj: string) {
    forall rel: string :: Subjects(e, Node(ns, obj, rel)) == []
  }

  predicate AllFalse(memo: map<string, bool>) {
    forall k | k in memo :: !memo[k]
  }

  predicate Denies(o: Outcome) {
    o.res == Ok(false) && AllFalse(o.st.memo)
  }

  lemma {:induction false} EmptyObjectDenied(
      e: Env, u: string, n: Node, path: set<string>, s: Scratch, depth: nat)
    requires e.maxReads <= 0 && NoTuples(e, n.ns, n.obj) && AllFalse(s.memo)
    ensures Denies(Check(e, ByUser(u), n, false, path, s, depth))
    decreases Room(e, depth), 3
  {
    if VisitKey(n) in path || depth > e.maxDepth || MemoKey(n, false) in s.memo {
    } else {
      EmptyRewriteDenied(e, u, n, RewriteOf(e.model, n), path + {VisitKey(n)}, s, depth);
    }
  }

  lemma {:induction false} EmptyRewriteDenied(
      e: Env, u: string, n: Node, rw: Rewrite, path: set<string>, s: Scratch, depth: nat)
    requires depth <= e.maxDepth && e.maxReads <= 0 && NoTuples(e, n.ns, n.obj) && AllFalse(s.memo)
    ensures Denies(EvalRewrite(e, ByUser(u), n, rw, false, path, s, depth))
    decreases Room(e, depth), 2, rw
  {
    match FormOf(rw)
    case This =>
      assert Subjects(e, Node(n.ns, n.obj, n.rel)) == [];
      assert Denies(ReadAndWalk(e, ByUser(u), Direct, [], false, path, s, depth));
    case AnyOf(children) => EmptyUnionDenied(e, u, n, children, path, s, depth);
    case AllOf(children) => EmptyRewriteDenied(e, u, n, children[0], path, s, depth);
    case Except(included, _) => EmptyRewriteDenied(e, u, n, included, path, s, depth);
    case Computed(rel) => EmptyObjectDenied(e, u, Node(n.ns, n.obj, rel), path, s, depth + 1);
    case Via(tupleset, rel) =>
      assert Subjects(e, Node(n.ns, n.obj, tupleset)) == [];
      assert Denies(ReadAndWalk(e, ByUser(u), Through(rel), [], false, path, s, depth));
  }

  lemma {:induction false} EmptyUnionDenied(
      e: Env, u: string, n: Node, children: seq<Rewrite>, path: set<string>, s: Scratch, depth: nat)
    requires depth <= e.maxDepth && e.maxReads <= 0 && NoTuples(e, n.ns, n.obj) && AllFalse(s.memo)
    ensures Denies(EvalList(e, ByUser(u), n, children, true, false, path, s, depth))
    decreases Room(e, depth), 2, children
  {
    if children != [] {
      EmptyRewriteDenied(e, u, n, children[0], path, s, depth);
      var head := EvalRewrite(e, ByUser(u), n, children[0], false, path, s, depth);
      EmptyUnionDenied(e, u, n, children[1..], path, head.st, depth);
    }
  }

  /** The ids a store lists for a namespace: the objects with any stored tuple in it. */
  ghost predicate Candidates(e: Env, ns: string, ids: seq<string>) {
    forall id: string :: id in ids <==> exists rel: string :: Subjects(e, Node(ns, id, rel)) != []
  }

  /** Over all object ids, not only the candidates: listed means exactly that its own Check is true. */
  lemma ListingIsComplete(e: Env, ns: string, ids: seq<string>, rel: string, u: string, id: string)
    requires Candidates(e, ns, ids)
    ensures id in Hits(e, ns, ids, rel, u) <==> Alone(e, ns, id, rel, u).res == Ok(true)
  {
    HitsAreThoseAllowed(e, ns, ids, rel, u);
    if id !in ids {
      var e0 := Unbudgeted(e);
      forall r: string
        ensures Subjects(e0, Node(ns, id, r)) == []
      {
        assert Subjects(e, Node(ns, id, r)) == Subjects(e0, Node(ns, id, r));
      }
      EmptyObjectDenied(e0, u, Node(ns, id, rel), {}, Fresh, 0);
    }
  }
}
