/**
 The read budget (pkg/authz/engine.go): it only ever cuts a run short. A run that ends without
 an error is the run the unbudgeted evaluator would have made, and the error appears exactly when
 that run needs more reads than the budget has left.
 */
module Budget {
  import opened AuthzModel
  import opened VisitKeys
  import opened Evaluator

  function Unbudgeted(e: Env): Env {
    e.(maxReads := 0)
  }

  predicate WithinBudget(e: Env, readCount: nat) {
    e.maxReads <= 0 || readCount <= e.maxReads
  }

  /** The store reads made; a charge that is refused is not followed by a read. */
  function ReadsMade(charged: nat, refused: bool): nat {
    if refused && charged > 0 then charged - 1 else charged
  }

  /** At most the budget, if there is one. */
  predicate Frugal(e: Env, made: nat) {
    e.maxReads > 0 ==> made <= e.maxReads
  }

  /**
   `o` started at `s` under the budget of `e`; `free` started at `s0` without one. Counters may
   start anywhere: only their growth matters.
   */
  predicate SameUntilCut(e: Env, s0: Scratch, free: Outcome, s: Scratch, o: Outcome) {
    && free.res.Ok?
    && s0.readCount <= free.st.readCount && s0.cycles <= free.st.cycles
    && var total := s.readCount + (free.st.readCount - s0.readCount);
       if WithinBudget(e, total)
       then o == Outcome(Scratch(free.st.memo, s.cycles + (free.st.cycles - s0.cycles), total), free.res)
       else o.res == BudgetExceeded && o.st.readCount == e.maxReads + 1
  }

  lemma {:induction false} CheckCut(
      e: Env, q: Query, n: Node, neg: bool, path: set<string>, s0: Scratch, s: Scratch, depth: nat)
    requires s0.memo == s.memo && WithinBudget(e, s.readCount)
    ensures SameUntilCut(e, s0, Check(Unbudgeted(e), q, n, neg, path, s0, depth),
                         s, Check(e, q, n, neg, path, s, depth))
    decreases Room(e, depth), 3
  {
    if VisitKey(n) in path || depth > e.maxDepth || MemoKey(n, neg) in s.memo {
    } else {
      RewriteCut(e, q, n, RewriteOf(e.model, n), neg, path + {VisitKey(n)}, s0, s, depth);
    }
  }

  lemma {:induction false} RewriteCut(
      e: Env, q: Query, n: Node, rw: Rewrite, neg: bool, path: set<string>, s0: Scratch, s: Scratch, depth: nat)
    requires depth <= e.maxDepth && s0.memo == s.memo && WithinBudget(e, s.readCount)
    ensures SameUntilCut(e, s0, EvalRewrite(Unbudgeted(e), q, n, rw, neg, path, s0, depth),
                         s, EvalRewrite(e, q, n, rw, neg, path, s, depth))
    decreases Room(e, depth), 2, rw
  {
    match FormOf(rw)
    case This => ReadCut(e, q, Direct, Subjects(e, n), neg, path, s0, s, depth);
    case AnyOf(children) => ListCut(e, q, n, children, true, neg, path, s0, s, depth);
    case AllOf(children) =>
      if q.ByUser? { ListCut(e, q, n, children, false, neg, path, s0, s, depth); }
    case Except(_, _) =>
      if q.ByUser? { ExceptCut(e, q, n, rw, neg, path, s0, s, depth); }
    case Computed(rel) => CheckCut(e, q, Node(n.ns, n.obj, rel), neg, path, s0, s, depth + 1);
    case Via(tupleset, rel) =>
      ReadCut(e, q, Through(rel), Subjects(e, Node(n.ns, n.obj, tupleset)), neg, path, s0, s, depth);
  }

  lemma {:induction false} ExceptCut(
      e: Env, q: Query, n: Node, rw: Rewrite, neg: bool, path: set<string>, s0: Scratch, s: Scratch, depth: nat)
    requires depth <= e.maxDepth && s0.memo == s.memo && WithinBudget(e, s.readCount)
    requires q.ByUser? && FormOf(rw).Except?
    ensures SameUntilCut(e, s0, EvalRewrite(Unbudgeted(e), q, n, rw, neg, path, s0, depth),
                         s, EvalRewrite(e, q, n, rw, neg, path, s, depth))
    decreases Room(e, depth), 2, rw, 0
  {
    var Except(included, excluded) := FormOf(rw);
    var e0 := Unbudgeted(e);
    RewriteCut(e, q, n, included, neg, path, s0, s, depth);
    var free := EvalRewrite(e0, q, n, included, neg, path, s0, depth);
    var inc := EvalRewrite(e, q, n, included, neg, path, s, depth);
    if free.res == Ok(true) {
      if inc.res.Ok? {
        RewriteCut(e, q, n, excluded, !neg, path, free.st, inc.st, depth);
      } else {
        RewriteCut(e0, q, n, excluded, !neg, path, free.st, free.st, depth);
      }
    }
  }

  lemma {:induction false} ReadCut(
      e: Env, q: Query, walk: Walk, subjects: seq<Subject>,
      neg: bool, path: set<string>, s0: Scratch, s: Scratch, depth: nat)
    requires depth <= e.maxDepth && s0.memo == s.memo && WithinBudget(e, s.readCount)
    ensures SameUntilCut(e, s0, ReadAndWalk(Unbudgeted(e), q, walk, subjects, neg, path, s0, depth),
                         s, ReadAndWalk(e, q, walk, subjects, neg, path, s, depth))
    decreases Room(e, depth), 1, |subjects| + 1
  {
    if OverBudget(e, Charge(s)) {
      SubjectsCut(Unbudgeted(e), q, walk, subjects, neg, path, Charge(s0), Charge(s0), depth);
    } else {
      SubjectsCut(e, q, walk, subjects, neg, path, Charge(s0), Charge(s), depth);
    }
  }

  lemma {:induction false} ListCut(
      e: Env, q: Query, n: Node, children: seq<Rewrite>, stop: bool,
      neg: bool, path: set<string>, s0: Scratch, s: Scratch, depth: nat)
    requires depth <= e.maxDepth && s0.memo == s.memo && WithinBudget(e, s.readCount)
    ensures SameUntilCut(e, s0, EvalList(Unbudgeted(e), q, n, children, stop, neg, path, s0, depth),
                         s, EvalList(e, q, n, children, stop, neg, path, s, depth))
    decreases Room(e, depth), 2, children
  {
    if children != [] {
      var e0 := Unbudgeted(e);
      RewriteCut(e, q, n, children[0], neg, path, s0, s, depth);
      var free := EvalRewrite(e0, q, n, children[0], neg, path, s0, depth);
      var head := EvalRewrite(e, q, n, children[0], neg, path, s, depth);
      if free.res == Ok(!stop) {
        if head.res.Ok? {
          ListCut(e, q, n, children[1..], stop, neg, path, free.st, head.st, depth);
        } else {
          ListCut(e0, q, n, children[1..], stop, neg, path, free.st, free.st, depth);
        }
      }
    }
  }

  lemma {:induction false} SubjectsCut(
      e: Env, q: Query, walk: Walk, subjects: seq<Subject>,
      neg: bool, path: set<string>, s0: Scratch, s: Scratch, depth: nat)
    requires depth <= e.maxDepth && s0.memo == s.memo && WithinBudget(e, s.readCount)
    ensures SameUntilCut(e, s0, EvalSubjects(Unbudgeted(e), q, walk, subjects, neg, path, s0, depth),
                         s, EvalSubjects(e, q, walk, subjects, neg, path, s, depth))
    decreases Room(e, depth), 1, |subjects|
  {
    if subjects != [] {
      match TargetOf(e, q, walk, subjects[0])
      case Skip => SubjectsCut(e, q, walk, subjects[1..], neg, path, s0, s, depth);
      case Grant =>
      case Follow(_) => FollowCut(e, q, walk, subjects, neg, path, s0, s, depth);
    }
  }

  lemma {:induction false} FollowCut(
      e: Env, q: Query, walk: Walk, subjects: seq<Subject>,
      neg: bool, path: set<string>, s0: Scratch, s: Scratch, depth: nat)
    requires depth <= e.maxDepth && s0.memo == s.memo && WithinBudget(e, s.readCount)
    requires subjects != [] && TargetOf(e, q, walk, subjects[0]).Follow?
    ensures SameUntilCut(e, s0, EvalSubjects(Unbudgeted(e), q, walk, subjects, neg, path, s0, depth),
                         s, EvalSubjects(e, q, walk, subjects, neg, path, s, depth))
    decreases Room(e, depth), 1, |subjects|, 0
  {
    var e0 := Unbudgeted(e);
    var m := TargetOf(e, q, walk, subjects[0]).node;
    CheckCut(e, q, m, neg, path, s0, s, depth + 1);
    var free := Check(e0, q, m, neg, path, s0, depth + 1);
    var head := Check(e, q, m, neg, path, s, depth + 1);
    if free.res == Ok(false) {
      if head.res.Ok? {
        SubjectsCut(e, q, walk, subjects[1..], neg, path, free.st, head.st, depth);
      } else {
        SubjectsCut(e0, q, walk, subjects[1..], neg, path, free.st, free.st, depth);
      }
    }
  }

  /**
   A whole request under a budget: it fails exactly when the unbudgeted request reads more than
   the budget, charging at most one read past it, and otherwise it is the same run.
   */
  lemma TopCheckCut(e: Env, q: Query, n: Node)
    ensures var free := TopCheck(Unbudgeted(e), q, n);
            var o := TopCheck(e, q, n);
            && free.res.Ok?
            && (o.res.BudgetExceeded? <==> e.maxReads > 0 && free.st.readCount > e.maxReads)
            && (o.res.Ok? ==> o == free)
            && (o.res.BudgetExceeded? ==> o.st.readCount == e.maxReads + 1)
  {
    CheckCut(e, q, n, false, {}, Fresh, Fresh, 0);
  }
}
