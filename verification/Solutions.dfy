/**
 Readings of the rewrite equations, for one user: sets of nodes that solve them, or that are merely closed
 under them, and pairs of bounds. Settled values are common to all solutions, and the reference
 meaning does not depend on the order in which a store lists subjects.
 */
module Solutions {
  import opened AuthzModel
  import opened Kleene

  ghost predicate TargetSat(I: iset<Node>, t: Target) {
    t.Grant? || (t.Follow? && t.node in I)
  }

  ghost predicate SubjectsSat(e: Env, u: string, I: iset<Node>, walk: Walk, subjects: seq<Subject>) {
    exists s | s in subjects :: TargetSat(I, TargetOf(e, ByUser(u), walk, s))
  }

  /**
   The rewrite grants `u` on node `n` when the user's nodes are those in `lo`; under an exclude side, those
   in `hi`.
   */
  ghost predicate Sat(e: Env, u: string, lo: iset<Node>, hi: iset<Node>, n: Node, rw: Rewrite)
    decreases rw
  {
    match FormOf(rw)
    case This => SubjectsSat(e, u, lo, Direct, Subjects(e, n))
    case AnyOf(children) => exists c | c in children :: Sat(e, u, lo, hi, n, c)
    case AllOf(children) => forall c | c in children :: Sat(e, u, lo, hi, n, c)
    case Except(included, excluded) => Sat(e, u, lo, hi, n, included) && !Sat(e, u, hi, lo, n, excluded)
    case Computed(rel) => Node(n.ns, n.obj, rel) in lo
    case Via(tupleset, rel) => SubjectsSat(e, u, lo, Through(rel), Subjects(e, Node(n.ns, n.obj, tupleset)))
  }

  /** A pair of bounds that the rewrite equations return, each computed from the other under exclude sides. */
  ghost predicate Balanced(e: Env, u: string, lo: iset<Node>, hi: iset<Node>) {
    forall n: Node ::
      && (n in lo <==> Sat(e, u, lo, hi, n, RewriteOf(e.model, n)))
      && (n in hi <==> Sat(e, u, hi, lo, n, RewriteOf(e.model, n)))
  }

  /** `I` is exactly what the rewrite equations say it is. */
  ghost predicate Solution(e: Env, u: string, I: iset<Node>) {
    Balanced(e, u, I, I)
  }

  /** `I` contains at least what the rewrite equations derive from it; the least such set is the fixpoint. */
  ghost predicate Closed(e: Env, u: string, I: iset<Node>) {
    forall n: Node :: Sat(e, u, I, I, n, RewriteOf(e.model, n)) ==> n in I
  }

  /** No exclusion is reachable through the operators the evaluator follows. */
  ghost predicate ExclusionFree(rw: Rewrite) {
    match FormOf(rw)
    case AnyOf(children) => forall c | c in children :: ExclusionFree(c)
    case AllOf(children) => forall c | c in children :: ExclusionFree(c)
    case Except(_, _) => false
    case _ => true
  }

  ghost predicate ExclusionFreeModel(e: Env) {
    forall n: Node :: ExclusionFree(RewriteOf(e.model, n))
  }

  // ---- the nodes settled true and those not settled false balance ----

  ghost function TrueNodes(e: Env, u: string): iset<Node> {
    iset n: Node | Is(e, u, n, true)
  }

  ghost function OpenNodes(e: Env, u: string): iset<Node> {
    iset n: Node | !Is(e, u, n, false)
  }

  /** What the bounds of settled nodes say of a rewrite when they settle it to `v`. */
  ghost predicate Decides(e: Env, u: string, n: Node, rw: Rewrite, v: bool) {
    var lo, hi := TrueNodes(e, u), OpenNodes(e, u);
    if v then Sat(e, u, lo, hi, n, rw) else !Sat(e, u, hi, lo, n, rw)
  }

  ghost predicate SubjectsDecide(e: Env, u: string, walk: Walk, subjects: seq<Subject>, v: bool) {
    if v then SubjectsSat(e, u, TrueNodes(e, u), walk, subjects)
    else !SubjectsSat(e, u, OpenNodes(e, u), walk, subjects)
  }

  lemma {:induction false} DecidedSettles(e: Env, u: string, n: Node, rw: Rewrite, v: bool)
    requires Decides(e, u, n, rw, v)
    ensures RewriteIs(e, u, n, rw, v)
    decreases rw
  {
    match FormOf(rw) {
      case This => DecidedSubjectsSettle(e, u, Direct, Subjects(e, n), v);
      case AnyOf(children) => DecidedListSettles(e, u, n, children, true, v);
      case AllOf(children) => DecidedListSettles(e, u, n, children, false, v);
      case Except(included, excluded) =>
        if v || Decides(e, u, n, included, v) { DecidedSettles(e, u, n, included, v); }
        if v || Decides(e, u, n, excluded, !v) { DecidedSettles(e, u, n, excluded, !v); }
      case Computed(_) =>
      case Via(tupleset, rel) =>
        DecidedSubjectsSettle(e, u, Through(rel), Subjects(e, Node(n.ns, n.obj, tupleset)), v);
    }
    RewriteFromParts(e, u, n, rw, v);
  }

  lemma {:induction false} DecidedListSettles(
      e: Env, u: string, n: Node, children: seq<Rewrite>, stop: bool, v: bool)
    requires if v == stop then exists c | c in children :: Decides(e, u, n, c, v)
             else forall c | c in children :: Decides(e, u, n, c, v)
    ensures ListIs(e, u, n, children, stop, v)
    decreases children
  {
    if children == [] {
      assert KList(e, u, n, children, stop, 0) == Known(!stop);
    } else {
      assert children == [children[0]] + children[1..];
      if v != stop || Decides(e, u, n, children[0], v) { DecidedSettles(e, u, n, children[0], v); }
      if v != stop || !Decides(e, u, n, children[0], v) { DecidedListSettles(e, u, n, children[1..], stop, v); }
      ListFromParts(e, u, n, children, stop, v);
    }
  }

  lemma {:induction false} DecidedSubjectsSettle(e: Env, u: string, walk: Walk, subjects: seq<Subject>, v: bool)
    requires SubjectsDecide(e, u, walk, subjects, v)
    ensures SubjectsAre(e, u, walk, subjects, v)
    decreases |subjects|
  {
    if subjects == [] {
      assert KSubjects(e, u, walk, subjects, 0) == Known(false);
    } else {
      assert subjects == [subjects[0]] + subjects[1..];
      var t := TargetOf(e, ByUser(u), walk, subjects[0]);
      if !(v && TargetSat(TrueNodes(e, u), t)) { DecidedSubjectsSettle(e, u, walk, subjects[1..], v); }
      SubjectsFromParts(e, u, walk, subjects, v);
    }
  }

  lemma {:induction false} SettledIsDecided(e: Env, u: string, n: Node, rw: Rewrite, f: nat)
    requires KRewrite(e, u, n, rw, f).Known?
    ensures Decides(e, u, n, rw, KRewrite(e, u, n, rw, f).value)
    decreases rw
  {
    match FormOf(rw)
    case This => SettledSubjectsDecided(e, u, Direct, Subjects(e, n), f);
    case AnyOf(children) => SettledListDecided(e, u, n, children, true, f);
    case AllOf(children) => SettledListDecided(e, u, n, children, false, f);
    case Except(included, excluded) =>
      if KRewrite(e, u, n, included, f).Known? { SettledIsDecided(e, u, n, included, f); }
      if KRewrite(e, u, n, excluded, f).Known? { SettledIsDecided(e, u, n, excluded, f); }
    case Computed(rel) =>
    case Via(tupleset, rel) =>
      SettledSubjectsDecided(e, u, Through(rel), Subjects(e, Node(n.ns, n.obj, tupleset)), f);
  }

  lemma {:induction false} SettledListDecided(
      e: Env, u: string, n: Node, children: seq<Rewrite>, stop: bool, f: nat)
    requires KList(e, u, n, children, stop, f).Known?
    ensures var v := KList(e, u, n, children, stop, f).value;
            if v == stop then exists c | c in children :: Decides(e, u, n, c, v)
            else forall c | c in children :: Decides(e, u, n, c, v)
    decreases children
  {
    if children != [] {
      var rest := children[1..];
      assert children == [children[0]] + rest;
      if KRewrite(e, u, n, children[0], f).Known? { SettledIsDecided(e, u, n, children[0], f); }
      if KList(e, u, n, rest, stop, f).Known? { SettledListDecided(e, u, n, rest, stop, f); }
    }
  }

  lemma SettledSubjectsDecided(e: Env, u: string, walk: Walk, subjects: seq<Subject>, f: nat)
    requires KSubjects(e, u, walk, subjects, f).Known?
    ensures SubjectsDecide(e, u, walk, subjects, KSubjects(e, u, walk, subjects, f).value)
  {
    KSubjectsByMembership(e, u, walk, subjects, f);
  }

  /** The settled nodes are bounds that the rewrite equations return, on every graph. */
  lemma SettledNodesBalance(e: Env, u: string)
    ensures Balanced(e, u, TrueNodes(e, u), OpenNodes(e, u))
  {
    forall n: Node, v: bool
      ensures Is(e, u, n, v) <==> Decides(e, u, n, RewriteOf(e.model, n), v)
    {
      if Decides(e, u, n, RewriteOf(e.model, n), v) {
        DecidedSettles(e, u, n, RewriteOf(e.model, n), v);
        NodeFromRewrite(e, u, n, v);
      }
      if f: nat :| K(e, u, n, f) == Known(v) { SettledIsDecided(e, u, n, RewriteOf(e.model, n), f - 1); }
    }
  }

  // ---- without exclusions, the nodes settled true are the least closed set ----

  lemma {:induction false} HighUnused(e: Env, u: string, I: iset<Node>, hi: iset<Node>, n: Node, rw: Rewrite)
    requires ExclusionFree(rw)
    ensures Sat(e, u, I, hi, n, rw) == Sat(e, u, I, I, n, rw)
    decreases rw
  {
    match FormOf(rw)
    case AnyOf(children) => forall c | c in children { HighUnused(e, u, I, hi, n, c); }
    case AllOf(children) => forall c | c in children { HighUnused(e, u, I, hi, n, c); }
    case _ =>
  }

  /** They solve the rewrite equations. */
  lemma TrueNodesSolve(e: Env, u: string)
    requires ExclusionFreeModel(e)
    ensures Solution(e, u, TrueNodes(e, u))
  {
    SettledNodesBalance(e, u);
    forall n: Node { HighUnused(e, u, TrueNodes(e, u), OpenNodes(e, u), n, RewriteOf(e.model, n)); }
  }

  lemma TrueNodesClosed(e: Env, u: string)
    requires ExclusionFreeModel(e)
    ensures Closed(e, u, TrueNodes(e, u))
  {
    TrueNodesSolve(e, u);
  }

  lemma {:induction false} TrueNodesLeast(e: Env, u: string, I: iset<Node>, n: Node, f: nat)
    requires ExclusionFreeModel(e) && Closed(e, u, I) && K(e, u, n, f) == Known(true)
    ensures n in I
    decreases f, 0
  {
    TrueRewriteLeast(e, u, I, n, RewriteOf(e.model, n), f - 1);
  }

  lemma {:induction false} TrueRewriteLeast(e: Env, u: string, I: iset<Node>, n: Node, rw: Rewrite, f: nat)
    requires ExclusionFreeModel(e) && ExclusionFree(rw) && Closed(e, u, I)
    requires KRewrite(e, u, n, rw, f) == Known(true)
    ensures Sat(e, u, I, I, n, rw)
    decreases f, 3, rw
  {
    match FormOf(rw)
    case This => TrueSubjectsLeast(e, u, I, Direct, Subjects(e, n), f);
    case AnyOf(children) => TrueListLeast(e, u, I, n, children, true, f);
    case AllOf(children) => TrueListLeast(e, u, I, n, children, false, f);
    case Except(_, _) =>
    case Computed(rel) => TrueNodesLeast(e, u, I, Node(n.ns, n.obj, rel), f);
    case Via(tupleset, rel) => TrueSubjectsLeast(e, u, I, Through(rel), Subjects(e, Node(n.ns, n.obj, tupleset)), f);
  }

  lemma {:induction false} TrueListLeast(
      e: Env, u: string, I: iset<Node>, n: Node, children: seq<Rewrite>, stop: bool, f: nat)
    requires ExclusionFreeModel(e) && Closed(e, u, I) && forall c | c in children :: ExclusionFree(c)
    requires KList(e, u, n, children, stop, f) == Known(true)
    ensures if stop then exists c | c in children :: Sat(e, u, I, I, n, c)
            else forall c | c in children :: Sat(e, u, I, I, n, c)
    decreases f, 3, children
  {
    if children != [] {
      var rest := children[1..];
      assert children == [children[0]] + rest;
      if KRewrite(e, u, n, children[0], f) == Known(true) { TrueRewriteLeast(e, u, I, n, children[0], f); }
      if KList(e, u, n, rest, stop, f) == Known(true) { TrueListLeast(e, u, I, n, rest, stop, f); }
    }
  }

  lemma {:induction false} TrueSubjectsLeast(
      e: Env, u: string, I: iset<Node>, walk: Walk, subjects: seq<Subject>, f: nat)
    requires ExclusionFreeModel(e) && Closed(e, u, I) && KSubjects(e, u, walk, subjects, f) == Known(true)
    ensures SubjectsSat(e, u, I, walk, subjects)
    decreases f, 2, |subjects|
  {
    KSubjectsByMembership(e, u, walk, subjects, f);
    var s :| s in subjects && KTarget(e, u, TargetOf(e, ByUser(u), walk, s), f) == Known(true);
    var t := TargetOf(e, ByUser(u), walk, s);
    if t.Follow? { TrueNodesLeast(e, u, I, t.node, f); }
    assert TargetSat(I, t);
  }

  // ---- settled values hold in every solution ----

  lemma {:induction false} SettledInSolutions(e: Env, u: string, I: iset<Node>, n: Node, f: nat)
    requires Solution(e, u, I) && K(e, u, n, f).Known?
    ensures n in I <==> K(e, u, n, f).value
    decreases f, 0
  {
    SettledRewrite(e, u, I, n, RewriteOf(e.model, n), f - 1);
  }

  lemma {:induction false} SettledRewrite(e: Env, u: string, I: iset<Node>, n: Node, rw: Rewrite, f: nat)
    requires Solution(e, u, I) && KRewrite(e, u, n, rw, f).Known?
    ensures Sat(e, u, I, I, n, rw) <==> KRewrite(e, u, n, rw, f).value
    decreases f, 3, rw
  {
    match FormOf(rw)
    case This => SettledSubjects(e, u, I, Direct, Subjects(e, n), f);
    case AnyOf(children) => SettledList(e, u, I, n, children, true, f);
    case AllOf(children) => SettledList(e, u, I, n, children, false, f);
    case Except(included, excluded) =>
      if KRewrite(e, u, n, included, f).Known? { SettledRewrite(e, u, I, n, included, f); }
      if KRewrite(e, u, n, excluded, f).Known? { SettledRewrite(e, u, I, n, excluded, f); }
    case Computed(rel) => SettledInSolutions(e, u, I, Node(n.ns, n.obj, rel), f);
    case Via(tupleset, rel) =>
      SettledSubjects(e, u, I, Through(rel), Subjects(e, Node(n.ns, n.obj, tupleset)), f);
  }

  lemma {:induction false} SettledList(
      e: Env, u: string, I: iset<Node>, n: Node, children: seq<Rewrite>, stop: bool, f: nat)
    requires Solution(e, u, I) && KList(e, u, n, children, stop, f).Known?
    ensures KList(e, u, n, children, stop, f).value == stop <==>
              exists c | c in children :: Sat(e, u, I, I, n, c) == stop
    decreases f, 3, children
  {
    if children != [] {
      var rest := children[1..];
      assert children == [children[0]] + rest;
      if KRewrite(e, u, n, children[0], f).Known? { SettledRewrite(e, u, I, n, children[0], f); }
      if KList(e, u, n, rest, stop, f).Known? { SettledList(e, u, I, n, rest, stop, f); }
    }
  }

  lemma {:induction false} SettledSubjects(
      e: Env, u: string, I: iset<Node>, walk: Walk, subjects: seq<Subject>, f: nat)
    requires Solution(e, u, I) && KSubjects(e, u, walk, subjects, f).Known?
    ensures SubjectsSat(e, u, I, walk, subjects) <==> KSubjects(e, u, walk, subjects, f).value
    decreases f, 2, |subjects|
  {
    if subjects != [] {
      var rest := subjects[1..];
      assert subjects == [subjects[0]] + rest;
      var t := TargetOf(e, ByUser(u), walk, subjects[0]);
      if t.Follow? && K(e, u, t.node, f).Known? { SettledInSolutions(e, u, I, t.node, f); }
      if KSubjects(e, u, walk, rest, f).Known? { SettledSubjects(e, u, I, walk, rest, f); }
    }
  }

  // ---- the order in which a store lists subjects is irrelevant ----

  ghost predicate SameSubjects(e1: Env, e2: Env) {
    && e1.model == e2.model && e1.holds == e2.holds
    && forall n: Node, s: Subject :: s in Subjects(e1, n) <==> s in Subjects(e2, n)
  }

  lemma {:induction false} KSubjectsByMembership(e: Env, u: string, walk: Walk, subjects: seq<Subject>, f: nat)
    ensures KSubjects(e, u, walk, subjects, f) == Known(true) <==>
              exists s | s in subjects :: KTarget(e, u, TargetOf(e, ByUser(u), walk, s), f) == Known(true)
    ensures KSubjects(e, u, walk, subjects, f) == Known(false) <==>
              forall s | s in subjects :: KTarget(e, u, TargetOf(e, ByUser(u), walk, s), f) == Known(false)
    decreases |subjects|
  {
    if subjects != [] {
      assert subjects == [subjects[0]] + subjects[1..];
      KSubjectsByMembership(e, u, walk, subjects[1..], f);
    }
  }

  lemma {:induction false} OrderIrrelevant(e1: Env, e2: Env, u: string, n: Node, f: nat)
    requires SameSubjects(e1, e2)
    ensures K(e1, u, n, f) == K(e2, u, n, f)
    decreases f, 0
  {
    if f > 0 { OrderIrrelevantRewrite(e1, e2, u, n, RewriteOf(e1.model, n), f - 1); }
  }

  lemma {:induction false} OrderIrrelevantRewrite(e1: Env, e2: Env, u: string, n: Node, rw: Rewrite, f: nat)
    requires SameSubjects(e1, e2)
    ensures KRewrite(e1, u, n, rw, f) == KRewrite(e2, u, n, rw, f)
    decreases f, 3, rw
  {
    match FormOf(rw)
    case This => OrderIrrelevantWalk(e1, e2, u, Direct, n, f);
    case AnyOf(children) => OrderIrrelevantList(e1, e2, u, n, children, true, f);
    case AllOf(children) => OrderIrrelevantList(e1, e2, u, n, children, false, f);
    case Except(included, excluded) =>
      OrderIrrelevantRewrite(e1, e2, u, n, included, f);
      OrderIrrelevantRewrite(e1, e2, u, n, excluded, f);
    case Computed(rel) => OrderIrrelevant(e1, e2, u, Node(n.ns, n.obj, rel), f);
    case Via(tupleset, rel) => OrderIrrelevantWalk(e1, e2, u, Through(rel), Node(n.ns, n.obj, tupleset), f);
  }

  lemma {:induction false} OrderIrrelevantList(
      e1: Env, e2: Env, u: string, n: Node, children: seq<Rewrite>, stop: bool, f: nat)
    requires SameSubjects(e1, e2)
    ensures KList(e1, u, n, children, stop, f) == KList(e2, u, n, children, stop, f)
    decreases f, 3, children
  {
    if children != [] {
      OrderIrrelevantRewrite(e1, e2, u, n, children[0], f);
      OrderIrrelevantList(e1, e2, u, n, children[1..], stop, f);
    }
  }

  lemma {:induction false} OrderIrrelevantWalk(e1: Env, e2: Env, u: string, walk: Walk, n: Node, f: nat)
    requires SameSubjects(e1, e2)
    ensures KSubjects(e1, u, walk, Subjects(e1, n), f) == KSubjects(e2, u, walk, Subjects(e2, n), f)
    decreases f, 2
  {
    forall s: Subject
      ensures KTarget(e1, u, TargetOf(e1, ByUser(u), walk, s), f) == KTarget(e2, u, TargetOf(e2, ByUser(u), walk, s), f)
    {
      var t := TargetOf(e1, ByUser(u), walk, s);
      if t.Follow? { OrderIrrelevant(e1, e2, u, t.node, f); }
    }
    KSubjectsByMembership(e1, u, walk, Subjects(e1, n), f);
    KSubjectsByMembership(e2, u, walk, Subjects(e2, n), f);
  }
}
