/**
 What a condition on a stored grant does (pkg/authz/conditions.go): Check sees exactly the grants whose condition
 the request meets, and Expand and member resolution see them all.
 */
module Conditions {
  import opened AuthzModel
  import opened VisitKeys
  import opened Kleene
  import opened Solutions
  import opened Evaluator
  import opened Expansion
  import opened Members
  import opened SameTree

  /** The grant without its condition. */
  function Freed(s: Subject): Subject {
    s.(condition := None)
  }

  /** The condition is absent, unnamed, or a registered one that the request meets. */
  predicate Met(s: Subject, holds: set<Condition>) {
    match s.condition
    case None => true
    case Some(c) => c.name == "" || (c.name in RegisteredConditions && c in holds)
  }

  /** The grants whose condition is met, as if they had none. */
  function LiveGrants(subjects: seq<Subject>, holds: set<Condition>): seq<Subject> {
    if subjects == [] then []
    else (if Met(subjects[0], holds) then [Freed(subjects[0])] else []) + LiveGrants(subjects[1..], holds)
  }

  function AllGrants(subjects: seq<Subject>): seq<Subject> {
    seq(|subjects|, i requires 0 <= i < |subjects| => Freed(subjects[i]))
  }

  /** The store without conditions that a request meeting `e.holds` is to see: unmet grants are gone. */
  function Live(e: Env): Env {
    e.(tuples := map n | n in e.tuples :: LiveGrants(e.tuples[n], e.holds), holds := {})
  }

  /** The store with every condition forgotten. */
  function Stripped(e: Env): Env {
    e.(tuples := map n | n in e.tuples :: AllGrants(e.tuples[n]), holds := {})
  }

  // ---- Check ----

  lemma {:induction false} LiveCheck(
      e: Env, q: Query, n: Node, neg: bool, path: set<string>, s: Scratch, depth: nat)
    ensures Check(e, q, n, neg, path, s, depth) == Check(Live(e), q, n, neg, path, s, depth)
    decreases Room(e, depth), 3
  {
    if VisitKey(n) in path || depth > e.maxDepth || MemoKey(n, neg) in s.memo {
    } else {
      LiveRewrite(e, q, n, RewriteOf(e.model, n), neg, path + {VisitKey(n)}, s, depth);
    }
  }

  lemma {:induction false} LiveRewrite(
      e: Env, q: Query, n: Node, rw: Rewrite, neg: bool, path: set<string>, s: Scratch, depth: nat)
    requires depth <= e.maxDepth
    ensures EvalRewrite(e, q, n, rw, neg, path, s, depth) == EvalRewrite(Live(e), q, n, rw, neg, path, s, depth)
    decreases Room(e, depth), 2, rw
  {
    match FormOf(rw)
    case This => LiveWalk(e, q, Direct, Subjects(e, n), neg, path, Charge(s), depth);
    case AnyOf(children) => LiveList(e, q, n, children, true, neg, path, s, depth);
    case AllOf(children) => LiveList(e, q, n, children, false, neg, path, s, depth);
    case Except(included, excluded) =>
      LiveRewrite(e, q, n, included, neg, path, s, depth);
      LiveRewrite(e, q, n, excluded, !neg, path, EvalRewrite(e, q, n, included, neg, path, s, depth).st, depth);
    case Computed(rel) => LiveCheck(e, q, Node(n.ns, n.obj, rel), neg, path, s, depth + 1);
    case Via(tupleset, rel) =>
      LiveWalk(e, q, Through(rel), Subjects(e, Node(n.ns, n.obj, tupleset)), neg, path, Charge(s), depth);
  }

  lemma {:induction false} LiveList(
      e: Env, q: Query, n: Node, children: seq<Rewrite>, stop: bool,
      neg: bool, path: set<string>, s: Scratch, depth: nat)
    requires depth <= e.maxDepth
    ensures EvalList(e, q, n, children, stop, neg, path, s, depth)
         == EvalList(Live(e), q, n, children, stop, neg, path, s, depth)
    decreases Room(e, depth), 2, children
  {
    if children != [] {
      LiveRewrite(e, q, n, children[0], neg, path, s, depth);
      var o := EvalRewrite(e, q, n, children[0], neg, path, s, depth);
      LiveList(e, q, n, children[1..], stop, neg, path, o.st, depth);
    }
  }

  lemma {:induction false} LiveWalk(
      e: Env, q: Query, walk: Walk, subjects: seq<Subject>, neg: bool, path: set<string>, s: Scratch, depth: nat)
    requires depth <= e.maxDepth
    ensures EvalSubjects(e, q, walk, subjects, neg, path, s, depth)
         == EvalSubjects(Live(e), q, walk, LiveGrants(subjects, e.holds), neg, path, s, depth)
    decreases Room(e, depth), 1, |subjects|
  {
    if subjects != [] {
      var x, rest := subjects[0], subjects[1..];
      if Met(x, e.holds) {
        assert LiveGrants(subjects, e.holds)[1..] == LiveGrants(rest, e.holds);
        assert TargetOf(Live(e), q, walk, Freed(x)) == TargetOf(e, q, walk, x);
      } else {
        assert LiveGrants(subjects, e.holds) == LiveGrants(rest, e.holds);
        assert TargetOf(e, q, walk, x) == Skip;
      }
      var t := TargetOf(e, q, walk, x);
      if t.Skip? {
        LiveWalk(e, q, walk, rest, neg, path, s, depth);
      } else if t.Follow? {
        LiveCheck(e, q, t.node, neg, path, s, depth + 1);
        LiveWalk(e, q, walk, rest, neg, path, Check(e, q, t.node, neg, path, s, depth + 1).st, depth);
      }
    }
  }

  /** A request is the run that it would be in a store of the grants it meets, none of them conditional. */
  lemma CheckSeesLiveGrants(e: Env, q: Query, n: Node)
    ensures TopCheck(e, q, n) == TopCheck(Live(e), q, n)
  {
    LiveCheck(e, q, n, false, {}, Fresh, 0);
  }

  // ---- the reference ----

  lemma {:induction false} LiveSettled(e: Env, u: string, n: Node, f: nat)
    ensures K(e, u, n, f) == K(Live(e), u, n, f)
    decreases f, 0
  {
    if f > 0 { LiveRewriteSettled(e, u, n, RewriteOf(e.model, n), f - 1); }
  }

  lemma {:induction false} LiveRewriteSettled(e: Env, u: string, n: Node, rw: Rewrite, f: nat)
    ensures KRewrite(e, u, n, rw, f) == KRewrite(Live(e), u, n, rw, f)
    decreases f, 3, rw
  {
    match FormOf(rw)
    case This => LiveSubjectsSettled(e, u, Direct, Subjects(e, n), f);
    case AnyOf(children) => LiveListSettled(e, u, n, children, true, f);
    case AllOf(children) => LiveListSettled(e, u, n, children, false, f);
    case Except(included, excluded) =>
      LiveRewriteSettled(e, u, n, included, f);
      LiveRewriteSettled(e, u, n, excluded, f);
    case Computed(rel) => LiveSettled(e, u, Node(n.ns, n.obj, rel), f);
    case Via(tupleset, rel) => LiveSubjectsSettled(e, u, Through(rel), Subjects(e, Node(n.ns, n.obj, tupleset)), f);
  }

  lemma {:induction false} LiveListSettled(e: Env, u: string, n: Node, children: seq<Rewrite>, stop: bool, f: nat)
    ensures KList(e, u, n, children, stop, f) == KList(Live(e), u, n, children, stop, f)
    decreases f, 3, children
  {
    if children != [] {
      LiveRewriteSettled(e, u, n, children[0], f);
      LiveListSettled(e, u, n, children[1..], stop, f);
    }
  }

  lemma {:induction false} LiveSubjectsSettled(e: Env, u: string, walk: Walk, subjects: seq<Subject>, f: nat)
    ensures KSubjects(e, u, walk, subjects, f) == KSubjects(Live(e), u, walk, LiveGrants(subjects, e.holds), f)
    decreases f, 2, |subjects|
  {
    if subjects != [] {
      var x, rest := subjects[0], subjects[1..];
      LiveSubjectsSettled(e, u, walk, rest, f);
      if Met(x, e.holds) {
        assert LiveGrants(subjects, e.holds)[1..] == LiveGrants(rest, e.holds);
        var t := TargetOf(e, ByUser(u), walk, x);
        assert TargetOf(Live(e), ByUser(u), walk, Freed(x)) == t;
        if t.Follow? { LiveSettled(e, u, t.node, f); }
      } else {
        assert LiveGrants(subjects, e.holds) == LiveGrants(rest, e.holds);
        assert TargetOf(e, ByUser(u), walk, x) == Skip;
      }
    }
  }

  // ---- Expand and member resolution ----

  lemma {:induction false} StrippedListsAgree(e: Env, n: Node, rw: Rewrite)
    ensures ListsAgree(e, Stripped(e), n, rw)
    decreases rw
  {
    match FormOf(rw)
    case AnyOf(children) => forall c | c in children { StrippedListsAgree(e, n, c); }
    case AllOf(children) => forall c | c in children { StrippedListsAgree(e, n, c); }
    case Except(included, excluded) =>
      StrippedListsAgree(e, n, included);
      StrippedListsAgree(e, n, excluded);
    case _ =>
  }

  /** Expand and member resolution are the runs that they would be with every condition forgotten. */
  lemma TreesIgnoreConditions(e: Env, n: Node, max: int)
    ensures TopExpand(e, n, max) == TopExpand(Stripped(e), n, max)
    ensures Resolve(e, n, {}, Tally(0, 0, 0), 0) == Resolve(Stripped(e), n, {}, Tally(0, 0, 0), 0)
  {
    forall m: Node ensures ListsAgree(e, Stripped(e), m, RewriteOf(e.model, m)) {
      StrippedListsAgree(e, m, RewriteOf(e.model, m));
    }
    SameExpand(e, Stripped(e), n, max, {}, Tally(0, 0, 0), 0);
    SameResolve(e, Stripped(e), n, {}, Tally(0, 0, 0), 0);
  }

  // ---- without exclusions, forgetting conditions settles more users in ----

  lemma {:induction false} StrippedSettlesMore(e: Env, u: string, n: Node, f: nat)
    requires ExclusionFreeModel(e) && K(e, u, n, f) == Known(true)
    ensures K(Stripped(e), u, n, f) == Known(true)
    decreases f, 0
  {
    StrippedRewriteSettlesMore(e, u, n, RewriteOf(e.model, n), f - 1);
  }

  lemma {:induction false} StrippedRewriteSettlesMore(e: Env, u: string, n: Node, rw: Rewrite, f: nat)
    requires ExclusionFreeModel(e) && ExclusionFree(rw) && KRewrite(e, u, n, rw, f) == Known(true)
    ensures KRewrite(Stripped(e), u, n, rw, f) == Known(true)
    decreases f, 3, rw
  {
    match FormOf(rw)
    case This => StrippedSubjectsSettleMore(e, u, Direct, Subjects(e, n), f);
    case AnyOf(children) => StrippedListSettlesMore(e, u, n, children, true, f);
    case AllOf(children) => StrippedListSettlesMore(e, u, n, children, false, f);
    case Except(_, _) =>
    case Computed(rel) => StrippedSettlesMore(e, u, Node(n.ns, n.obj, rel), f);
    case Via(tupleset, rel) =>
      StrippedSubjectsSettleMore(e, u, Through(rel), Subjects(e, Node(n.ns, n.obj, tupleset)), f);
  }

  lemma {:induction false} StrippedListSettlesMore(
      e: Env, u: string, n: Node, children: seq<Rewrite>, stop: bool, f: nat)
    requires ExclusionFreeModel(e) && (forall c | c in children :: ExclusionFree(c))
    requires KList(e, u, n, children, stop, f) == Known(true)
    ensures KList(Stripped(e), u, n, children, stop, f) == Known(true)
    decreases f, 3, children
  {
    if children != [] {
      if KRewrite(e, u, n, children[0], f) == Known(true) { StrippedRewriteSettlesMore(e, u, n, children[0], f); }
      if KList(e, u, n, children[1..], stop, f) == Known(true) {
        StrippedListSettlesMore(e, u, n, children[1..], stop, f);
      }
    }
  }

  lemma {:induction false} StrippedSubjectsSettleMore(e: Env, u: string, walk: Walk, subjects: seq<Subject>, f: nat)
    requires ExclusionFreeModel(e) && KSubjects(e, u, walk, subjects, f) == Known(true)
    ensures KSubjects(Stripped(e), u, walk, AllGrants(subjects), f) == Known(true)
    decreases f, 2, |subjects|
  {
    var x, rest := subjects[0], subjects[1..];
    assert AllGrants(subjects)[0] == Freed(x) && AllGrants(subjects)[1..] == AllGrants(rest);
    var t := TargetOf(e, ByUser(u), walk, x);
    if KTarget(e, u, t, f) == Known(true) {
      assert TargetOf(Stripped(e), ByUser(u), walk, Freed(x)) == t;
      if t.Follow? { StrippedSettlesMore(e, u, t.node, f); }
    } else {
      StrippedSubjectsSettleMore(e, u, walk, rest, f);
    }
  }
}
