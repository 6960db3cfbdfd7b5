/**
 One evaluation as a function from scratch state to scratch state: what a run of the evaluator
 in pkg/authz/engine.go returns and leaves behind. The imperative evaluator in Engine.dfy is
 proved to perform exactly these runs.
 */
module Evaluator {
  import opened AuthzModel
  import opened VisitKeys

  /** The part of the scratch state that survives a call; the visited set is path-local. */
  datatype Scratch = Scratch(memo: map<string, bool>, cycles: nat, readCount: nat)

  datatype Result = Ok(allowed: bool) | BudgetExceeded

  datatype Outcome = Outcome(st: Scratch, res: Result)

  const Fresh := Scratch(map[], 0, 0)

  function Charge(s: Scratch): Scratch {
    s.(readCount := s.readCount + 1)
  }

  predicate OverBudget(e: Env, s: Scratch) {
    e.maxReads > 0 && s.readCount > e.maxReads
  }

  /** How many more levels a walk at `depth` may still enter. */
  function Room(e: Env, depth: nat): nat {
    if depth <= e.maxDepth then e.maxDepth + 1 - depth else 0
  }

  function Check(e: Env, q: Query, n: Node, neg: bool, path: set<string>, s: Scratch, depth: nat): Outcome
    decreases Room(e, depth), 3
  {
    if VisitKey(n) in path || depth > e.maxDepth then Outcome(s.(cycles := s.cycles + 1), Ok(neg))
    else if MemoKey(n, neg) in s.memo then Outcome(s, Ok(s.memo[MemoKey(n, neg)]))
    else
      var o := EvalRewrite(e, q, n, RewriteOf(e.model, n), neg, path + {VisitKey(n)}, s, depth);
      if o.res.Ok? && o.st.cycles == s.cycles
      then Outcome(o.st.(memo := o.st.memo[MemoKey(n, neg) := o.res.allowed]), o.res)
      else o
  }

  function EvalRewrite(
      e: Env, q: Query, n: Node, rw: Rewrite, neg: bool, path: set<string>, s: Scratch, depth: nat): Outcome
    requires depth <= e.maxDepth
    decreases Room(e, depth), 2, rw
  {
    match FormOf(rw)
    case This =>
      ReadAndWalk(e, q, Direct, Subjects(e, n), neg, path, s, depth)
    case AnyOf(children) => EvalList(e, q, n, children, true, neg, path, s, depth)
    case AllOf(children) =>
      if q.BySet? then Outcome(s, Ok(false)) else EvalList(e, q, n, children, false, neg, path, s, depth)
    case Except(included, excluded) =>
      if q.BySet? then Outcome(s, Ok(false))
      else
        var inc := EvalRewrite(e, q, n, included, neg, path, s, depth);
        if inc.res != Ok(true) then inc
        else
          var exc := EvalRewrite(e, q, n, excluded, !neg, path, inc.st, depth);
          if exc.res.Ok? then Outcome(exc.st, Ok(!exc.res.allowed)) else exc
    case Computed(rel) => Check(e, q, Node(n.ns, n.obj, rel), neg, path, s, depth + 1)
    case Via(tupleset, rel) =>
      ReadAndWalk(e, q, Through(rel), Subjects(e, Node(n.ns, n.obj, tupleset)), neg, path, s, depth)
  }

  /** Evaluates children in order until one answers `stop`. */
  function EvalList(
      e: Env, q: Query, n: Node, children: seq<Rewrite>, stop: bool,
      neg: bool, path: set<string>, s: Scratch, depth: nat): Outcome
    requires depth <= e.maxDepth
    decreases Room(e, depth), 2, children
  {
    if children == [] then Outcome(s, Ok(!stop))
    else
      var o := EvalRewrite(e, q, n, children[0], neg, path, s, depth);
      if o.res == Ok(!stop) then EvalList(e, q, n, children[1..], stop, neg, path, o.st, depth) else o
  }

  /** One store read and the walk over what it returned, unless the read exceeds the budget. */
  function ReadAndWalk(
      e: Env, q: Query, walk: Walk, subjects: seq<Subject>,
      neg: bool, path: set<string>, s: Scratch, depth: nat): Outcome
    requires depth <= e.maxDepth
    decreases Room(e, depth), 1, |subjects| + 1
  {
    if OverBudget(e, Charge(s)) then Outcome(Charge(s), BudgetExceeded)
    else EvalSubjects(e, q, walk, subjects, neg, path, Charge(s), depth)
  }

  /** Walks stored subjects in order until one grants. */
  function EvalSubjects(
      e: Env, q: Query, walk: Walk, subjects: seq<Subject>,
      neg: bool, path: set<string>, s: Scratch, depth: nat): Outcome
    requires depth <= e.maxDepth
    decreases Room(e, depth), 1, |subjects|
  {
    if subjects == [] then Outcome(s, Ok(false))
    else
      match TargetOf(e, q, walk, subjects[0])
      case Skip => EvalSubjects(e, q, walk, subjects[1..], neg, path, s, depth)
      case Grant => Outcome(s, Ok(true))
      case Follow(m) =>
        var o := Check(e, q, m, neg, path, s, depth + 1);
        if o.res == Ok(false) then EvalSubjects(e, q, walk, subjects[1..], neg, path, o.st, depth) else o
  }

  /** A whole request: Check from an empty scratch state. */
  function TopCheck(e: Env, q: Query, n: Node): Outcome {
    Check(e, q, n, false, {}, Fresh, 0)
  }
}
