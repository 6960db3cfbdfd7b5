/**
 The imperative evaluator and the operations built on it (pkg/authz/engine.go). Every method is
 proved to perform the run that Evaluator.dfy describes, so what is proved there holds here.
 */
module Engine {
  import opened AuthzModel
  import opened VisitKeys
  import opened Evaluator
  import opened Budget

  const MAX_RECURSION_DEPTH := 32
  const MIN_MAX_CHECK_READS := 100
  const FAN_OUT_HEADROOM := 2
  const DEFAULT_CHECK_SET_CANDIDATES := 1000

  /** Per-operation scratch state. */
  class EvalState {
    var visited: set<string>
    var memo: map<string, bool>
    var cyclesSeen: nat
    var readCount: nat
    const maxReads: int

    /** How often the store has been asked for a list. */
    ghost var listings: nat

    constructor (maxReads: int)
      ensures visited == {} && Abs() == Fresh && this.maxReads == maxReads && listings == 0
    {
      visited, memo, cyclesSeen, readCount := {}, map[], 0, 0;
      this.maxReads := maxReads;
      listings := 0;
    }

    ghost function Abs(): Scratch
      reads this
    {
      Scratch(memo, cyclesSeen, readCount)
    }

    /** The reads charged that the store has not been asked for. */
    ghost function Owed(): int
      reads this
    {
      readCount - listings
    }

    /** Asks the store for the subjects of a node. */
    method List(e: Env, n: Node) returns (subjects: seq<Subject>)
      modifies this`listings
      ensures subjects == Subjects(e, n) && listings == old(listings) + 1
    {
      listings := listings + 1;
      subjects := Subjects(e, n);
    }

    /** Accounts one store read; false once the budget is exceeded. */
    method ChargeRead() returns (ok: bool)
      modifies this`readCount
      ensures readCount == old(readCount) + 1
      ensures ok <==> maxReads <= 0 || readCount <= maxReads
    {
      readCount := readCount + 1;
      ok := !(maxReads > 0 && readCount > maxReads);
    }
  }

  method CheckNode(e: Env, q: Query, n: Node, neg: bool, st: EvalState, depth: nat) returns (r: Result)
    requires st.maxReads == e.maxReads
    modifies st
    ensures Outcome(st.Abs(), r) == Check(e, q, n, neg, old(st.visited), old(st.Abs()), depth)
    ensures st.visited == old(st.visited)
    ensures st.Owed() == old(st.Owed()) + if r.BudgetExceeded? then 1 else 0
    decreases Room(e, depth), 3
  {
    var key := VisitKey(n);
    if key in st.visited {
      st.cyclesSeen := st.cyclesSeen + 1;
      return Ok(neg);
    }
    if depth > e.maxDepth {
      st.cyclesSeen := st.cyclesSeen + 1;
      return Ok(neg);
    }
    var mk := MemoKey(n, neg);
    if mk in st.memo {
      return Ok(st.memo[mk]);
    }
    st.visited := st.visited + {key};
    var before := st.cyclesSeen;
    r := RunRewrite(e, q, n, RewriteOf(e.model, n), neg, st, depth);
    st.visited := st.visited - {key};
    if r.Ok? && st.cyclesSeen == before {
      st.memo := st.memo[mk := r.allowed];
    }
  }

  method RunRewrite(
      e: Env, q: Query, n: Node, rw: Rewrite, neg: bool, st: EvalState, depth: nat) returns (r: Result)
    requires st.maxReads == e.maxReads && depth <= e.maxDepth
    modifies st
    ensures Outcome(st.Abs(), r) == EvalRewrite(e, q, n, rw, neg, old(st.visited), old(st.Abs()), depth)
    ensures st.visited == old(st.visited)
    ensures st.Owed() == old(st.Owed()) + if r.BudgetExceeded? then 1 else 0
    decreases Room(e, depth), 2, rw
  {
    if IsThis(rw) {
      r := RunThis(e, q, n, neg, st, depth);
    } else if |rw.union| > 0 {
      r := RunUnion(e, q, n, rw.union, neg, st, depth);
    } else if |rw.intersection| > 0 {
      if q.BySet? { return Ok(false); }
      r := RunIntersection(e, q, n, rw.intersection, neg, st, depth);
    } else if rw.exclusion.Some? {
      if q.BySet? { return Ok(false); }
      r := RunRewrite(e, q, n, rw.exclusion.value.included, neg, st, depth);
      if r != Ok(true) { return r; }
      r := RunRewrite(e, q, n, rw.exclusion.value.excluded, !neg, st, depth);
      if r.Ok? { r := Ok(!r.allowed); }
    } else if rw.computed != "" {
      r := CheckNode(e, q, Node(n.ns, n.obj, rw.computed), neg, st, depth + 1);
    } else {
      r := RunTupleToUserset(e, q, n, rw.tuplesetRelation, rw.computedRelation, neg, st, depth);
    }
  }

  method RunUnion(
      e: Env, q: Query, n: Node, children: seq<Rewrite>, neg: bool, st: EvalState, depth: nat) returns (r: Result)
    requires st.maxReads == e.maxReads && depth <= e.maxDepth
    modifies st
    ensures Outcome(st.Abs(), r) == EvalList(e, q, n, children, true, neg, old(st.visited), old(st.Abs()), depth)
    ensures st.visited == old(st.visited)
    ensures st.Owed() == old(st.Owed()) + if r.BudgetExceeded? then 1 else 0
    decreases Room(e, depth), 2, children
  {
    ghost var path, s := st.visited, st.Abs();
    var i := 0;
    while i < |children|
      invariant 0 <= i <= |children| && st.visited == path && st.Owed() == old(st.Owed())
      invariant EvalList(e, q, n, children, true, neg, path, s, depth)
             == EvalList(e, q, n, children[i..], true, neg, path, st.Abs(), depth)
    {
      assert children[i..][1..] == children[i + 1..];
      var ok := RunRewrite(e, q, n, children[i], neg, st, depth);
      if ok != Ok(false) { return ok; }
      i := i + 1;
    }
    r := Ok(false);
  }

  method RunIntersection(
      e: Env, q: Query, n: Node, children: seq<Rewrite>, neg: bool, st: EvalState, depth: nat) returns (r: Result)
    requires st.maxReads == e.maxReads && depth <= e.maxDepth
    modifies st
    ensures Outcome(st.Abs(), r) == EvalList(e, q, n, children, false, neg, old(st.visited), old(st.Abs()), depth)
    ensures st.visited == old(st.visited)
    ensures st.Owed() == old(st.Owed()) + if r.BudgetExceeded? then 1 else 0
    decreases Room(e, depth), 2, children
  {
    ghost var path, s := st.visited, st.Abs();
    var i := 0;
    while i < |children|
      invariant 0 <= i <= |children| && st.visited == path && st.Owed() == old(st.Owed())
      invariant EvalList(e, q, n, children, false, neg, path, s, depth)
             == EvalList(e, q, n, children[i..], false, neg, path, st.Abs(), depth)
    {
      assert children[i..][1..] == children[i + 1..];
      var ok := RunRewrite(e, q, n, children[i], neg, st, depth);
      if ok != Ok(true) { return ok; }
      i := i + 1;
    }
    r := Ok(true);
  }

  method RunThis(e: Env, q: Query, n: Node, neg: bool, st: EvalState, depth: nat) returns (r: Result)
    requires st.maxReads == e.maxReads && depth <= e.maxDepth
    modifies st
    ensures Outcome(st.Abs(), r)
         == ReadAndWalk(e, q, Direct, Subjects(e, n), neg, old(st.visited), old(st.Abs()), depth)
    ensures st.visited == old(st.visited)
    ensures st.Owed() == old(st.Owed()) + if r.BudgetExceeded? then 1 else 0
    decreases Room(e, depth), 1
  {
    var charged := st.ChargeRead();
    if !charged { return BudgetExceeded; }
    var subjects := st.List(e, n);
    ghost var path, s := st.visited, st.Abs();
    var i := 0;
    while i < |subjects|
      invariant 0 <= i <= |subjects| && st.visited == path && st.Owed() == old(st.Owed())
      invariant EvalSubjects(e, q, Direct, subjects, neg, path, s, depth)
             == EvalSubjects(e, q, Direct, subjects[i..], neg, path, st.Abs(), depth)
    {
      assert subjects[i..][1..] == subjects[i + 1..];
      var x := subjects[i];
      i := i + 1;
      if !EvalCondition(x.condition, e.holds) { continue; }
      if x.wildcard { return Ok(true); }
      if x.userset.None? {
        if q.ByUser? && q.user != "" && x.userID == q.user { return Ok(true); }
        continue;
      }
      if q.BySet? && x.userset.value == q.userset { return Ok(true); }
      var ok := CheckNode(e, q, x.userset.value, neg, st, depth + 1);
      if ok != Ok(false) { return ok; }
    }
    r := Ok(false);
  }

  method RunTupleToUserset(
      e: Env, q: Query, n: Node, tupleset: string, rel: string,
      neg: bool, st: EvalState, depth: nat) returns (r: Result)
    requires st.maxReads == e.maxReads && depth <= e.maxDepth
    modifies st
    ensures Outcome(st.Abs(), r)
         == ReadAndWalk(e, q, Through(rel), Subjects(e, Node(n.ns, n.obj, tupleset)), neg,
                        old(st.visited), old(st.Abs()), depth)
    ensures st.visited == old(st.visited)
    ensures st.Owed() == old(st.Owed()) + if r.BudgetExceeded? then 1 else 0
    decreases Room(e, depth), 1
  {
    var charged := st.ChargeRead();
    if !charged { return BudgetExceeded; }
    var subjects := st.List(e, Node(n.ns, n.obj, tupleset));
    ghost var path, s := st.visited, st.Abs();
    var i := 0;
    while i < |subjects|
      invariant 0 <= i <= |subjects| && st.visited == path && st.Owed() == old(st.Owed())
      invariant EvalSubjects(e, q, Through(rel), subjects, neg, path, s, depth)
             == EvalSubjects(e, q, Through(rel), subjects[i..], neg, path, st.Abs(), depth)
    {
      assert subjects[i..][1..] == subjects[i + 1..];
      var x := subjects[i];
      i := i + 1;
      if !EvalCondition(x.condition, e.holds) { continue; }
      if x.userset.None? { continue; }
      var ok := CheckNode(e, q, Node(x.userset.value.ns, x.userset.value.obj, rel), neg, st, depth + 1);
      if ok != Ok(false) { return ok; }
    }
    r := Ok(false);
  }

  // ---- budgets of whole operations ----

  /** The engine's configuration. */
  datatype Limits = Limits(maxDepth: nat, maxReads: int, maxListObjects: int)

  /** The limits of a new engine. */
  function NewLimits(maxReads: int, maxListObjects: int): Limits {
    Limits(MAX_RECURSION_DEPTH, maxReads, maxListObjects)
  }

  /** A budget the configuration accepts: none, or at least the floor. */
  predicate Configurable(maxReads: int) {
    maxReads <= 0 || maxReads >= MIN_MAX_CHECK_READS
  }

  function EffectiveMaxReads(l: Limits, override: int): int {
    if override > 0 then override else l.maxReads
  }

  /** A fan-out budget is never tighter than the single-Check budget it is based on. */
  function FanOutBudget(l: Limits, base: int, candidates: int): (budget: int)
    ensures base > 0 ==> budget >= base && budget >= candidates * l.maxDepth * FAN_OUT_HEADROOM
    ensures base > 0 ==> budget == base || budget == candidates * l.maxDepth * FAN_OUT_HEADROOM
    ensures base <= 0 <==> budget <= 0
  {
    if base <= 0 then 0
    else if candidates * l.maxDepth * FAN_OUT_HEADROOM > base then candidates * l.maxDepth * FAN_OUT_HEADROOM
    else base
  }

  function ExpandBudget(base: int, maxNodes: int): (budget: int)
    ensures base > 0 ==> budget >= base && budget >= maxNodes * FAN_OUT_HEADROOM
    ensures base > 0 ==> budget == base || budget == maxNodes * FAN_OUT_HEADROOM
    ensures base <= 0 <==> budget <= 0
  {
    if base <= 0 then 0
    else if maxNodes * FAN_OUT_HEADROOM > base then maxNodes * FAN_OUT_HEADROOM
    else base
  }

  function CheckSetCandidates(l: Limits): int {
    if l.maxListObjects > 0 then l.maxListObjects else DEFAULT_CHECK_SET_CANDIDATES
  }

  /**
   Check against an already-resolved model: the unbudgeted answer, unless it takes more reads than the project's own
   budget, or the engine's where the project has none.
   */
  method CheckWithModel(
      l: Limits, m: Model, tuples: map<Node, seq<Subject>>, holds: set<Condition>,
      n: Node, user: string, override: int) returns (r: Result, ghost made: nat)
    ensures r == TopCheck(Env(m, tuples, holds, l.maxDepth, EffectiveMaxReads(l, override)), ByUser(user), n).res
    ensures var e := Env(m, tuples, holds, l.maxDepth, EffectiveMaxReads(l, override));
            made == ReadsMade(TopCheck(e, ByUser(user), n).st.readCount, r.BudgetExceeded?) && Frugal(e, made)
    ensures var free := TopCheck(Env(m, tuples, holds, l.maxDepth, 0), ByUser(user), n);
            && (r.Ok? ==> r == free.res)
            && (override > 0 ==> (r.Ok? <==> free.st.readCount <= override))
            && (override <= 0 && l.maxReads > 0 ==> (r.Ok? <==> free.st.readCount <= l.maxReads))
            && (override <= 0 && l.maxReads <= 0 ==> r.Ok?)
  {
    var e := Env(m, tuples, holds, l.maxDepth, EffectiveMaxReads(l, override));
    var st := new EvalState(e.maxReads);
    TopCheckCut(e, ByUser(user), n);
    r := CheckNode(e, ByUser(user), n, false, st, 0);
    made := st.listings;
  }
}
