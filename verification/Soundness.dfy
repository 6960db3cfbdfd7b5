/**
 The evaluator against the reference meaning: fail-closed soundness, memo exactness,
 and depth-bounded completeness, on every tuple graph.
 */
module Soundness {
  import opened AuthzModel
  import opened VisitKeys
  import opened Kleene
  import opened Evaluator

  // ---- the key hypothesis: every node a run can reach has an unambiguous key ----

  ghost predicate CleanRewrite(rw: Rewrite) {
    match FormOf(rw)
    case This => true
    case AnyOf(children) => forall c | c in children :: CleanRewrite(c)
    case AllOf(children) => forall c | c in children :: CleanRewrite(c)
    case Except(included, excluded) => CleanRewrite(included) && CleanRewrite(excluded)
    case Computed(rel) => '#' !in rel
    case Via(_, rel) => '#' !in rel
  }

  ghost predicate CleanSubject(s: Subject) {
    s.userset.Some? ==> CleanNode(s.userset.value)
  }

  ghost predicate Clean(e: Env) {
    && (forall n: Node :: CleanRewrite(RewriteOf(e.model, n)))
    && (forall n: Node, s: Subject | s in Subjects(e, n) :: CleanSubject(s))
  }

  // ---- soundness and memo exactness ----

  /** Every memo entry carries the settled value of its node, whatever path or polarity wrote it. */
  ghost predicate MemoExact(e: Env, u: string, memo: map<string, bool>) {
    forall n: Node, neg: bool :: CleanNode(n) && MemoKey(n, neg) in memo ==> Is(e, u, n, memo[MemoKey(n, neg)])
  }

  lemma MemoExactExtends(e: Env, u: string, memo: map<string, bool>, n: Node, neg: bool, v: bool)
    requires MemoExact(e, u, memo) && CleanNode(n) && Is(e, u, n, v)
    ensures MemoExact(e, u, memo[MemoKey(n, neg) := v])
  {
    forall m: Node, b: bool | CleanNode(m) && MemoKey(m, b) == MemoKey(n, neg)
      ensures m == n
    {
      MemoKeyInjective(m, b, n, neg);
    }
  }

  /** The answer must be the settled one unless it is the polarity default of a cut run. */
  predicate Binding(neg: bool, s: Scratch, o: Outcome) {
    o.res.Ok? && (o.res.allowed != neg || o.st.cycles == s.cycles)
  }

  /** What every step of a run keeps: an exact memo, and a cycle counter that never falls. */
  ghost predicate Kept(e: Env, u: string, s: Scratch, o: Outcome) {
    MemoExact(e, u, o.st.memo) && s.cycles <= o.st.cycles
  }

  lemma {:induction false} CheckSound(
      e: Env, u: string, n: Node, neg: bool, path: set<string>, s: Scratch, depth: nat)
    requires Clean(e) && CleanNode(n) && MemoExact(e, u, s.memo)
    ensures var o := Check(e, ByUser(u), n, neg, path, s, depth);
            Kept(e, u, s, o) && (Binding(neg, s, o) ==> Is(e, u, n, o.res.allowed))
    decreases Room(e, depth), 3
  {
    if VisitKey(n) in path || depth > e.maxDepth || MemoKey(n, neg) in s.memo {
    } else {
      var rw := RewriteOf(e.model, n);
      RewriteSound(e, u, n, rw, neg, path + {VisitKey(n)}, s, depth);
      var o := EvalRewrite(e, ByUser(u), n, rw, neg, path + {VisitKey(n)}, s, depth);
      if Binding(neg, s, o) {
        NodeFromRewrite(e, u, n, o.res.allowed);
        MemoExactExtends(e, u, o.st.memo, n, neg, o.res.allowed);
      }
    }
  }

  lemma {:induction false} RewriteSound(
      e: Env, u: string, n: Node, rw: Rewrite, neg: bool, path: set<string>, s: Scratch, depth: nat)
    requires depth <= e.maxDepth && Clean(e) && CleanNode(n) && CleanRewrite(rw) && MemoExact(e, u, s.memo)
    ensures var o := EvalRewrite(e, ByUser(u), n, rw, neg, path, s, depth);
            Kept(e, u, s, o) && (Binding(neg, s, o) ==> RewriteIs(e, u, n, rw, o.res.allowed))
    decreases Room(e, depth), 2, rw
  {
    var o := EvalRewrite(e, ByUser(u), n, rw, neg, path, s, depth);
    match FormOf(rw) {
      case This =>
        assert o == ReadAndWalk(e, ByUser(u), Direct, Subjects(e, n), neg, path, s, depth);
        if !OverBudget(e, Charge(s)) {
          SubjectsSound(e, u, Direct, Subjects(e, n), neg, path, Charge(s), depth);
        }
      case AnyOf(children) =>
        ListSound(e, u, n, children, true, neg, path, s, depth);
      case AllOf(children) =>
        ListSound(e, u, n, children, false, neg, path, s, depth);
      case Except(included, excluded) =>
        RewriteSound(e, u, n, included, neg, path, s, depth);
        var inc := EvalRewrite(e, ByUser(u), n, included, neg, path, s, depth);
        if inc.res == Ok(true) {
          RewriteSound(e, u, n, excluded, !neg, path, inc.st, depth);
        }
      case Computed(rel) =>
        CheckSound(e, u, Node(n.ns, n.obj, rel), neg, path, s, depth + 1);
      case Via(tupleset, rel) =>
        var subjects := Subjects(e, Node(n.ns, n.obj, tupleset));
        assert o == ReadAndWalk(e, ByUser(u), Through(rel), subjects, neg, path, s, depth);
        if !OverBudget(e, Charge(s)) {
          SubjectsSound(e, u, Through(rel), subjects, neg, path, Charge(s), depth);
        }
    }
    if Binding(neg, s, o) { RewriteFromParts(e, u, n, rw, o.res.allowed); }
  }

  lemma {:induction false} ListSound(
      e: Env, u: string, n: Node, children: seq<Rewrite>, stop: bool,
      neg: bool, path: set<string>, s: Scratch, depth: nat)
    requires depth <= e.maxDepth && Clean(e) && CleanNode(n) && MemoExact(e, u, s.memo)
    requires forall c | c in children :: CleanRewrite(c)
    ensures var o := EvalList(e, ByUser(u), n, children, stop, neg, path, s, depth);
            Kept(e, u, s, o) && (Binding(neg, s, o) ==> ListIs(e, u, n, children, stop, o.res.allowed))
    decreases Room(e, depth), 2, children
  {
    if children == [] {
      assert KList(e, u, n, children, stop, 0) == Known(!stop);
    } else {
      RewriteSound(e, u, n, children[0], neg, path, s, depth);
      var head := EvalRewrite(e, ByUser(u), n, children[0], neg, path, s, depth);
      if head.res == Ok(!stop) {
        ListSound(e, u, n, children[1..], stop, neg, path, head.st, depth);
      }
      var o := EvalList(e, ByUser(u), n, children, stop, neg, path, s, depth);
      if Binding(neg, s, o) { ListFromParts(e, u, n, children, stop, o.res.allowed); }
    }
  }

  lemma {:induction false} SubjectsSound(
      e: Env, u: string, walk: Walk, subjects: seq<Subject>,
      neg: bool, path: set<string>, s: Scratch, depth: nat)
    requires depth <= e.maxDepth && Clean(e) && MemoExact(e, u, s.memo)
    requires walk.Through? ==> '#' !in walk.rel
    requires forall x | x in subjects :: CleanSubject(x)
    ensures var o := EvalSubjects(e, ByUser(u), walk, subjects, neg, path, s, depth);
            Kept(e, u, s, o) && (Binding(neg, s, o) ==> SubjectsAre(e, u, walk, subjects, o.res.allowed))
    decreases Room(e, depth), 1, |subjects|
  {
    if subjects == [] {
      assert KSubjects(e, u, walk, subjects, 0) == Known(false);
    } else {
      assert CleanSubject(subjects[0]);
      var t := TargetOf(e, ByUser(u), walk, subjects[0]);
      var o := EvalSubjects(e, ByUser(u), walk, subjects, neg, path, s, depth);
      match t {
        case Skip => SubjectsSound(e, u, walk, subjects[1..], neg, path, s, depth);
        case Grant =>
        case Follow(m) =>
          CheckSound(e, u, m, neg, path, s, depth + 1);
          var c := Check(e, ByUser(u), m, neg, path, s, depth + 1);
          if c.res == Ok(false) { SubjectsSound(e, u, walk, subjects[1..], neg, path, c.st, depth); }
      }
      if Binding(neg, s, o) { SubjectsFromParts(e, u, walk, subjects, o.res.allowed); }
    }
  }

  /** A positive grant is always deserved, and an answer given without any cut is the exact meaning. */
  lemma CheckFailsClosed(e: Env, u: string, n: Node)
    requires Clean(e) && CleanNode(n)
    ensures var o := TopCheck(e, ByUser(u), n);
            && (o.res == Ok(true) ==> Is(e, u, n, true))
            && (o.res.Ok? && o.st.cycles == 0 ==> Is(e, u, n, o.res.allowed))
            && MemoExact(e, u, o.st.memo)
  {
    CheckSound(e, u, n, false, {}, Fresh, 0);
  }

  // ---- depth-bounded completeness ----

  /** No node on the evaluation path is settled within `f` levels. */
  ghost predicate PathUnsettled(e: Env, u: string, path: set<string>, f: nat) {
    forall m: Node :: CleanNode(m) && VisitKey(m) in path ==> K(e, u, m, f) == Unknown
  }

  lemma PathUnsettledBelow(e: Env, u: string, path: set<string>, f: nat)
    requires f > 0 && PathUnsettled(e, u, path, f)
    ensures PathUnsettled(e, u, path, f - 1)
  {
    forall m: Node | CleanNode(m) && VisitKey(m) in path
      ensures K(e, u, m, f - 1) == Unknown
    {
      if K(e, u, m, f - 1).Known? { KMonotone(e, u, m, f - 1, f); }
    }
  }

  lemma PathUnsettledEnter(e: Env, u: string, n: Node, path: set<string>, f: nat)
    requires CleanNode(n) && PathUnsettled(e, u, path, f) && K(e, u, n, f) == Unknown
    ensures PathUnsettled(e, u, path + {VisitKey(n)}, f)
  {
    forall m: Node | CleanNode(m) && VisitKey(m) in path + {VisitKey(n)}
      ensures K(e, u, m, f) == Unknown
    {
      if VisitKey(m) == VisitKey(n) { VisitKeyInjective(m, n); }
    }
  }

  /**
   A node settled within the levels still available is answered correctly at either polarity,
   whatever cycles lie elsewhere and whatever exact entries the memo holds.
   */
  lemma {:induction false} CheckComplete(
      e: Env, u: string, n: Node, neg: bool, path: set<string>, s: Scratch, depth: nat, f: nat)
    requires Clean(e) && CleanNode(n) && MemoExact(e, u, s.memo)
    requires f <= Room(e, depth) && PathUnsettled(e, u, path, f) && K(e, u, n, f).Known?
    ensures var o := Check(e, ByUser(u), n, neg, path, s, depth);
            o.res.Ok? ==> Known(o.res.allowed) == K(e, u, n, f)
    decreases Room(e, depth), 3, f
  {
    if K(e, u, n, f - 1).Known? {
      PathUnsettledBelow(e, u, path, f);
      KMonotone(e, u, n, f - 1, f);
      CheckComplete(e, u, n, neg, path, s, depth, f - 1);
    } else if MemoKey(n, neg) in s.memo {
      IsConsistent(e, u, n, f, s.memo[MemoKey(n, neg)]);
    } else {
      PathUnsettledBelow(e, u, path, f);
      PathUnsettledEnter(e, u, n, path, f - 1);
      RewriteComplete(e, u, n, RewriteOf(e.model, n), neg, path + {VisitKey(n)}, s, depth, f - 1);
    }
  }

  lemma {:induction false} RewriteComplete(
      e: Env, u: string, n: Node, rw: Rewrite, neg: bool, path: set<string>, s: Scratch, depth: nat, f: nat)
    requires depth <= e.maxDepth && Clean(e) && CleanNode(n) && CleanRewrite(rw) && MemoExact(e, u, s.memo)
    requires f < Room(e, depth) && PathUnsettled(e, u, path, f) && KRewrite(e, u, n, rw, f).Known?
    ensures var o := EvalRewrite(e, ByUser(u), n, rw, neg, path, s, depth);
            o.res.Ok? ==> Known(o.res.allowed) == KRewrite(e, u, n, rw, f)
    decreases Room(e, depth), 2, rw
  {
    match FormOf(rw)
    case This =>
      if !OverBudget(e, Charge(s)) {
        SubjectsComplete(e, u, Direct, Subjects(e, n), neg, path, Charge(s), depth, f);
      }
    case AnyOf(children) => ListComplete(e, u, n, children, true, neg, path, s, depth, f);
    case AllOf(children) => ListComplete(e, u, n, children, false, neg, path, s, depth, f);
    case Except(included, excluded) =>
      RewriteSound(e, u, n, included, neg, path, s, depth);
      if KRewrite(e, u, n, included, f).Known? { RewriteComplete(e, u, n, included, neg, path, s, depth, f); }
      var inc := EvalRewrite(e, ByUser(u), n, included, neg, path, s, depth);
      if inc.res == Ok(true) && KRewrite(e, u, n, excluded, f).Known? {
        RewriteComplete(e, u, n, excluded, !neg, path, inc.st, depth, f);
      }
    case Computed(rel) => CheckComplete(e, u, Node(n.ns, n.obj, rel), neg, path, s, depth + 1, f);
    case Via(tupleset, rel) =>
      if !OverBudget(e, Charge(s)) {
        SubjectsComplete(
          e, u, Through(rel), Subjects(e, Node(n.ns, n.obj, tupleset)), neg, path, Charge(s), depth, f);
      }
  }

  lemma {:induction false} ListComplete(
      e: Env, u: string, n: Node, children: seq<Rewrite>, stop: bool,
      neg: bool, path: set<string>, s: Scratch, depth: nat, f: nat)
    requires depth <= e.maxDepth && Clean(e) && CleanNode(n) && MemoExact(e, u, s.memo)
    requires forall c | c in children :: CleanRewrite(c)
    requires f < Room(e, depth) && PathUnsettled(e, u, path, f) && KList(e, u, n, children, stop, f).Known?
    ensures var o := EvalList(e, ByUser(u), n, children, stop, neg, path, s, depth);
            o.res.Ok? ==> Known(o.res.allowed) == KList(e, u, n, children, stop, f)
    decreases Room(e, depth), 2, children
  {
    if children != [] {
      RewriteSound(e, u, n, children[0], neg, path, s, depth);
      if KRewrite(e, u, n, children[0], f).Known? {
        RewriteComplete(e, u, n, children[0], neg, path, s, depth, f);
      }
      var head := EvalRewrite(e, ByUser(u), n, children[0], neg, path, s, depth);
      if head.res == Ok(!stop) && KList(e, u, n, children[1..], stop, f).Known? {
        ListComplete(e, u, n, children[1..], stop, neg, path, head.st, depth, f);
      }
    }
  }

  lemma {:induction false} SubjectsComplete(
      e: Env, u: string, walk: Walk, subjects: seq<Subject>,
      neg: bool, path: set<string>, s: Scratch, depth: nat, f: nat)
    requires depth <= e.maxDepth && Clean(e) && MemoExact(e, u, s.memo)
    requires walk.Through? ==> '#' !in walk.rel
    requires forall x | x in subjects :: CleanSubject(x)
    requires f < Room(e, depth) && PathUnsettled(e, u, path, f) && KSubjects(e, u, walk, subjects, f).Known?
    ensures var o := EvalSubjects(e, ByUser(u), walk, subjects, neg, path, s, depth);
            o.res.Ok? ==> Known(o.res.allowed) == KSubjects(e, u, walk, subjects, f)
    decreases Room(e, depth), 1, |subjects|
  {
    if subjects != [] {
      assert CleanSubject(subjects[0]);
      var rest := subjects[1..];
      match TargetOf(e, ByUser(u), walk, subjects[0])
      case Skip => SubjectsComplete(e, u, walk, rest, neg, path, s, depth, f);
      case Grant =>
      case Follow(m) =>
        CheckSound(e, u, m, neg, path, s, depth + 1);
        if K(e, u, m, f).Known? { CheckComplete(e, u, m, neg, path, s, depth + 1, f); }
        var c := Check(e, ByUser(u), m, neg, path, s, depth + 1);
        if c.res == Ok(false) && KSubjects(e, u, walk, rest, f).Known? {
          SubjectsComplete(e, u, walk, rest, neg, path, c.st, depth, f);
        }
    }
  }

  /** A request is answered exactly whenever maxDepth + 1 levels settle it, unless its budget runs out. */
  lemma TopCheckComplete(e: Env, u: string, n: Node)
    requires Clean(e) && CleanNode(n) && K(e, u, n, e.maxDepth + 1).Known?
    ensures var o := TopCheck(e, ByUser(u), n);
            o.res.Ok? ==> Known(o.res.allowed) == K(e, u, n, e.maxDepth + 1)
  {
    CheckComplete(e, u, n, false, {}, Fresh, 0, e.maxDepth + 1);
  }
}
