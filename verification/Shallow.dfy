/**
 Graphs without cycles or over-deep chains, told by the stored tuples alone: on them everything is settled, no run is
 cut, and the memo keeps its bound (pkg/authz/engine.go, pkg/authz/expand.go).
 */
module Shallow {
  import opened AuthzModel
  import opened VisitKeys
  import opened Kleene
  import opened Evaluator
  import opened Soundness
  import opened Cost
  import opened Expansion

  /** Every walk from the node ends within `f` levels; `sets` is whether it also follows stored usersets. */
  ghost predicate Ends(e: Env, sets: bool, n: Node, f: nat)
    decreases f, 0
  {
    f > 0 && RuleEnds(e, sets, n, RewriteOf(e.model, n), f - 1)
  }

  ghost predicate RuleEnds(e: Env, sets: bool, n: Node, rw: Rewrite, f: nat)
    decreases f, 2, rw
  {
    match FormOf(rw)
    case This => sets ==> SubjectsEnd(e, sets, Direct, Subjects(e, n), f)
    case AnyOf(children) => forall c | c in children :: RuleEnds(e, sets, n, c, f)
    case AllOf(children) => forall c | c in children :: RuleEnds(e, sets, n, c, f)
    case Except(included, excluded) => RuleEnds(e, sets, n, included, f) && RuleEnds(e, sets, n, excluded, f)
    case Computed(rel) => Ends(e, sets, Node(n.ns, n.obj, rel), f)
    case Via(tupleset, rel) => SubjectsEnd(e, sets, Through(rel), Subjects(e, Node(n.ns, n.obj, tupleset)), f)
  }

  /** The node a stored userset leads to. */
  function Led(walk: Walk, s: Node): Node {
    if walk.Direct? then s else Node(s.ns, s.obj, walk.rel)
  }

  ghost predicate SubjectsEnd(e: Env, sets: bool, walk: Walk, subjects: seq<Subject>, f: nat)
    decreases f, 1
  {
    forall s | s in subjects && s.userset.Some? :: Ends(e, sets, Led(walk, s.userset.value), f)
  }

  lemma {:induction false} EndsMonotone(e: Env, sets: bool, n: Node, f: nat, g: nat)
    requires Ends(e, sets, n, f) && f <= g
    ensures Ends(e, sets, n, g)
    decreases f, 0
  {
    RuleEndsMonotone(e, sets, n, RewriteOf(e.model, n), f - 1, g - 1);
  }

  lemma {:induction false} RuleEndsMonotone(e: Env, sets: bool, n: Node, rw: Rewrite, f: nat, g: nat)
    requires RuleEnds(e, sets, n, rw, f) && f <= g
    ensures RuleEnds(e, sets, n, rw, g)
    decreases f, 2, rw
  {
    match FormOf(rw)
    case This => if sets { SubjectsEndMonotone(e, sets, Direct, Subjects(e, n), f, g); }
    case AnyOf(children) => forall c | c in children { RuleEndsMonotone(e, sets, n, c, f, g); }
    case AllOf(children) => forall c | c in children { RuleEndsMonotone(e, sets, n, c, f, g); }
    case Except(included, excluded) =>
      RuleEndsMonotone(e, sets, n, included, f, g);
      RuleEndsMonotone(e, sets, n, excluded, f, g);
    case Computed(rel) => EndsMonotone(e, sets, Node(n.ns, n.obj, rel), f, g);
    case Via(tupleset, rel) =>
      SubjectsEndMonotone(e, sets, Through(rel), Subjects(e, Node(n.ns, n.obj, tupleset)), f, g);
  }

  lemma {:induction false} SubjectsEndMonotone(
      e: Env, sets: bool, walk: Walk, subjects: seq<Subject>, f: nat, g: nat)
    requires SubjectsEnd(e, sets, walk, subjects, f) && f <= g
    ensures SubjectsEnd(e, sets, walk, subjects, g)
    decreases f, 1
  {
    forall s | s in subjects && s.userset.Some? { EndsMonotone(e, sets, Led(walk, s.userset.value), f, g); }
  }

  // ---- everything is settled ----

  lemma {:induction false} EndedIsSettled(e: Env, u: string, n: Node, f: nat)
    requires Ends(e, true, n, f)
    ensures K(e, u, n, f).Known?
    decreases f, 0
  {
    EndedRuleIsSettled(e, u, n, RewriteOf(e.model, n), f - 1);
  }

  lemma {:induction false} EndedRuleIsSettled(e: Env, u: string, n: Node, rw: Rewrite, f: nat)
    requires RuleEnds(e, true, n, rw, f)
    ensures KRewrite(e, u, n, rw, f).Known?
    decreases f, 3, rw
  {
    match FormOf(rw)
    case This => EndedSubjectsAreSettled(e, u, Direct, Subjects(e, n), f);
    case AnyOf(children) => EndedListIsSettled(e, u, n, children, true, f);
    case AllOf(children) => EndedListIsSettled(e, u, n, children, false, f);
    case Except(included, excluded) =>
      EndedRuleIsSettled(e, u, n, included, f);
      EndedRuleIsSettled(e, u, n, excluded, f);
    case Computed(rel) => EndedIsSettled(e, u, Node(n.ns, n.obj, rel), f);
    case Via(tupleset, rel) =>
      EndedSubjectsAreSettled(e, u, Through(rel), Subjects(e, Node(n.ns, n.obj, tupleset)), f);
  }

  lemma {:induction false} EndedListIsSettled(e: Env, u: string, n: Node, children: seq<Rewrite>, stop: bool, f: nat)
    requires forall c | c in children :: RuleEnds(e, true, n, c, f)
    ensures KList(e, u, n, children, stop, f).Known?
    decreases f, 3, children
  {
    if children != [] {
      EndedRuleIsSettled(e, u, n, children[0], f);
      EndedListIsSettled(e, u, n, children[1..], stop, f);
    }
  }

  lemma {:induction false} EndedSubjectsAreSettled(e: Env, u: string, walk: Walk, subjects: seq<Subject>, f: nat)
    requires SubjectsEnd(e, true, walk, subjects, f)
    ensures KSubjects(e, u, walk, subjects, f).Known?
    decreases f, 2, |subjects|
  {
    if subjects != [] {
      var t := TargetOf(e, ByUser(u), walk, subjects[0]);
      if t.Follow? { EndedIsSettled(e, u, t.node, f); }
      EndedSubjectsAreSettled(e, u, walk, subjects[1..], f);
    }
  }

  // ---- the path of a run ----

  ghost predicate PathOpen(e: Env, sets: bool, path: set<string>, f: nat) {
    forall m: Node :: CleanNode(m) && VisitKey(m) in path ==> !Ends(e, sets, m, f)
  }

  lemma PathOpenBelow(e: Env, sets: bool, path: set<string>, f: nat)
    requires f > 0 && PathOpen(e, sets, path, f)
    ensures PathOpen(e, sets, path, f - 1)
  {
    forall m: Node | CleanNode(m) && VisitKey(m) in path ensures !Ends(e, sets, m, f - 1) {
      if Ends(e, sets, m, f - 1) { EndsMonotone(e, sets, m, f - 1, f); }
    }
  }

  lemma PathOpenEnter(e: Env, sets: bool, n: Node, path: set<string>, f: nat)
    requires CleanNode(n) && PathOpen(e, sets, path, f) && !Ends(e, sets, n, f)
    ensures PathOpen(e, sets, path + {VisitKey(n)}, f)
  {
    forall m: Node | CleanNode(m) && VisitKey(m) in path + {VisitKey(n)} ensures !Ends(e, sets, m, f) {
      if VisitKey(m) == VisitKey(n) { VisitKeyInjective(m, n); }
    }
  }

  // ---- Check is not cut ----

  lemma {:induction false} CheckUncut(
      e: Env, q: Query, n: Node, neg: bool, path: set<string>, s: Scratch, depth: nat, f: nat)
    requires Clean(e) && CleanNode(n) && f <= Room(e, depth) && PathOpen(e, true, path, f) && Ends(e, true, n, f)
    ensures Check(e, q, n, neg, path, s, depth).st.cycles == s.cycles
    decreases Room(e, depth), 3, f
  {
    PathOpenBelow(e, true, path, f);
    if Ends(e, true, n, f - 1) {
      CheckUncut(e, q, n, neg, path, s, depth, f - 1);
    } else if MemoKey(n, neg) !in s.memo {
      PathOpenEnter(e, true, n, path, f - 1);
      RuleUncut(e, q, n, RewriteOf(e.model, n), neg, path + {VisitKey(n)}, s, depth, f - 1);
    }
  }

  lemma {:induction false} RuleUncut(
      e: Env, q: Query, n: Node, rw: Rewrite, neg: bool, path: set<string>, s: Scratch, depth: nat, f: nat)
    requires Clean(e) && CleanNode(n) && CleanRewrite(rw) && f < Room(e, depth) && PathOpen(e, true, path, f)
    requires RuleEnds(e, true, n, rw, f)
    ensures EvalRewrite(e, q, n, rw, neg, path, s, depth).st.cycles == s.cycles
    decreases Room(e, depth), 2, rw
  {
    match FormOf(rw)
    case This => WalkUncut(e, q, Direct, Subjects(e, n), neg, path, Charge(s), depth, f);
    case AnyOf(children) => ListUncut(e, q, n, children, true, neg, path, s, depth, f);
    case AllOf(children) => ListUncut(e, q, n, children, false, neg, path, s, depth, f);
    case Except(included, excluded) =>
      RuleUncut(e, q, n, included, neg, path, s, depth, f);
      var inc := EvalRewrite(e, q, n, included, neg, path, s, depth);
      RuleUncut(e, q, n, excluded, !neg, path, inc.st, depth, f);
    case Computed(rel) => CheckUncut(e, q, Node(n.ns, n.obj, rel), neg, path, s, depth + 1, f);
    case Via(tupleset, rel) =>
      WalkUncut(e, q, Through(rel), Subjects(e, Node(n.ns, n.obj, tupleset)), neg, path, Charge(s), depth, f);
  }

  lemma {:induction false} ListUncut(
      e: Env, q: Query, n: Node, children: seq<Rewrite>, stop: bool,
      neg: bool, path: set<string>, s: Scratch, depth: nat, f: nat)
    requires Clean(e) && CleanNode(n) && f < Room(e, depth) && PathOpen(e, true, path, f)
    requires forall c | c in children :: CleanRewrite(c) && RuleEnds(e, true, n, c, f)
    ensures EvalList(e, q, n, children, stop, neg, path, s, depth).st.cycles == s.cycles
    decreases Room(e, depth), 2, children
  {
    if children != [] {
      RuleUncut(e, q, n, children[0], neg, path, s, depth, f);
      var o := EvalRewrite(e, q, n, children[0], neg, path, s, depth);
      ListUncut(e, q, n, children[1..], stop, neg, path, o.st, depth, f);
    }
  }

  lemma {:induction false} WalkUncut(
      e: Env, q: Query, walk: Walk, subjects: seq<Subject>,
      neg: bool, path: set<string>, s: Scratch, depth: nat, f: nat)
    requires Clean(e) && f < Room(e, depth) && PathOpen(e, true, path, f) && SubjectsEnd(e, true, walk, subjects, f)
    requires walk.Through? ==> '#' !in walk.rel
    requires forall x | x in subjects :: CleanSubject(x)
    ensures EvalSubjects(e, q, walk, subjects, neg, path, s, depth).st.cycles == s.cycles
    decreases Room(e, depth), 1, |subjects|
  {
    if subjects != [] {
      var x, rest := subjects[0], subjects[1..];
      assert CleanSubject(x);
      match TargetOf(e, q, walk, x)
      case Skip => WalkUncut(e, q, walk, rest, neg, path, s, depth, f);
      case Grant =>
      case Follow(m) =>
        CheckUncut(e, q, m, neg, path, s, depth + 1, f);
        WalkUncut(e, q, walk, rest, neg, path, Check(e, q, m, neg, path, s, depth + 1).st, depth, f);
    }
  }

  /** On a graph that ends within the depth limit a request meets no cut, is exact, and reads each leaf at most once. */
  lemma EndedRequest(e: Env, q: Query, n: Node)
    requires Clean(e) && CleanNode(n) && Ends(e, true, n, e.maxDepth + 1)
    ensures var o := TopCheck(e, q, n);
            && o.st.cycles == 0
            && (o.res.Ok? ==> o.st.readCount <= TotalWeight(e, o.st.memo.Keys))
            && (o.res.Ok? && q.ByUser? ==> K(e, q.user, n, e.maxDepth + 1) == Known(o.res.allowed))
  {
    CheckUncut(e, q, n, false, {}, Fresh, 0, e.maxDepth + 1);
    CleanRequestCost(e, q, n);
    if q.ByUser? {
      EndedIsSettled(e, q.user, n, e.maxDepth + 1);
      TopCheckComplete(e, q.user, n);
    }
  }

  // ---- Expand is cut exactly where the graph goes on ----

  lemma {:induction false} UncutEnds(e: Env, n: Node, max: int, path: set<string>, t: Tally, depth: nat)
    ensures var r := Expand(e, n, max, path, t, depth);
            t.cuts <= r.st.cuts && (r.res.Got? && r.st.cuts == t.cuts ==> Ends(e, false, n, Room(e, depth)))
    decreases Room(e, depth), 3
  {
    if depth > e.maxDepth || VisitKey(n) in path {
    } else {
      UncutRuleEnds(e, n, RewriteOf(e.model, n), max, path + {VisitKey(n)}, t, depth);
    }
  }

  lemma {:induction false} UncutRuleEnds(
      e: Env, n: Node, rw: Rewrite, max: int, path: set<string>, t: Tally, depth: nat)
    requires depth <= e.maxDepth
    ensures var r := ExpandRewrite(e, n, rw, max, path, t, depth);
            t.cuts <= r.st.cuts && (r.res.Got? && r.st.cuts == t.cuts ==> RuleEnds(e, false, n, rw, Room(e, depth) - 1))
    decreases Room(e, depth), 2, rw
  {
    var t1 := t.(count := t.count + 1);
    match FormOf(rw)
    case This =>
    case AnyOf(children) => UncutListEnds(e, n, children, max, path, t1, depth);
    case AllOf(children) => UncutListEnds(e, n, children, max, path, t1, depth);
    case Except(included, excluded) =>
      UncutRuleEnds(e, n, included, max, path, t1, depth);
      UncutRuleEnds(e, n, excluded, max, path, ExpandRewrite(e, n, included, max, path, t1, depth).st, depth);
    case Computed(rel) => UncutEnds(e, Node(n.ns, n.obj, rel), max, path, t1, depth + 1);
    case Via(tupleset, rel) =>
      var t2 := t1.(readCount := t1.readCount + 1);
      UncutPointersEnd(e, rel, Subjects(e, Node(n.ns, n.obj, tupleset)), max, path, t2, depth);
  }

  lemma {:induction false} UncutListEnds(
      e: Env, n: Node, children: seq<Rewrite>, max: int, path: set<string>, t: Tally, depth: nat)
    requires depth <= e.maxDepth
    ensures var r := ExpandList(e, n, children, max, path, t, depth);
            && t.cuts <= r.st.cuts
            && (r.res.Got? && r.st.cuts == t.cuts ==>
                  forall c | c in children :: RuleEnds(e, false, n, c, Room(e, depth) - 1))
    decreases Room(e, depth), 2, children
  {
    if children != [] {
      assert children == [children[0]] + children[1..];
      UncutRuleEnds(e, n, children[0], max, path, t, depth);
      var head := ExpandRewrite(e, n, children[0], max, path, t, depth);
      UncutListEnds(e, n, children[1..], max, path, head.st, depth);
    }
  }

  lemma {:induction false} UncutPointersEnd(
      e: Env, rel: string, subjects: seq<Subject>, max: int, path: set<string>, t: Tally, depth: nat)
    requires depth <= e.maxDepth
    ensures var r := ExpandPointers(e, rel, subjects, max, path, t, depth);
            && t.cuts <= r.st.cuts
            && (r.res.Got? && r.st.cuts == t.cuts ==>
                  SubjectsEnd(e, false, Through(rel), subjects, Room(e, depth) - 1))
    decreases Room(e, depth), 1, |subjects|
  {
    if subjects != [] {
      var x := subjects[0].userset;
      assert subjects == [subjects[0]] + subjects[1..];
      if x.None? {
        UncutPointersEnd(e, rel, subjects[1..], max, path, t, depth);
      } else {
        var m := Node(x.value.ns, x.value.obj, rel);
        UncutEnds(e, m, max, path, t, depth + 1);
        UncutPointersEnd(e, rel, subjects[1..], max, path, Expand(e, m, max, path, t, depth + 1).st, depth);
      }
    }
  }

  lemma {:induction false} EndedExpands(
      e: Env, n: Node, max: int, path: set<string>, t: Tally, depth: nat, f: nat)
    requires Clean(e) && CleanNode(n) && f <= Room(e, depth) && PathOpen(e, false, path, f) && Ends(e, false, n, f)
    ensures Expand(e, n, max, path, t, depth).st.cuts == t.cuts
    decreases Room(e, depth), 3, f
  {
    PathOpenBelow(e, false, path, f);
    if Ends(e, false, n, f - 1) {
      EndedExpands(e, n, max, path, t, depth, f - 1);
    } else {
      PathOpenEnter(e, false, n, path, f - 1);
      EndedRuleExpands(e, n, RewriteOf(e.model, n), max, path + {VisitKey(n)}, t, depth, f - 1);
    }
  }

  lemma {:induction false} EndedRuleExpands(
      e: Env, n: Node, rw: Rewrite, max: int, path: set<string>, t: Tally, depth: nat, f: nat)
    requires Clean(e) && CleanNode(n) && CleanRewrite(rw) && f < Room(e, depth) && PathOpen(e, false, path, f)
    requires RuleEnds(e, false, n, rw, f)
    ensures ExpandRewrite(e, n, rw, max, path, t, depth).st.cuts == t.cuts
    decreases Room(e, depth), 2, rw
  {
    var t1 := t.(count := t.count + 1);
    match FormOf(rw)
    case This =>
    case AnyOf(children) => EndedListExpands(e, n, children, max, path, t1, depth, f);
    case AllOf(children) => EndedListExpands(e, n, children, max, path, t1, depth, f);
    case Except(included, excluded) =>
      EndedRuleExpands(e, n, included, max, path, t1, depth, f);
      EndedRuleExpands(e, n, excluded, max, path, ExpandRewrite(e, n, included, max, path, t1, depth).st, depth, f);
    case Computed(rel) => EndedExpands(e, Node(n.ns, n.obj, rel), max, path, t1, depth + 1, f);
    case Via(tupleset, rel) =>
      var t2 := t1.(readCount := t1.readCount + 1);
      EndedPointersExpand(e, rel, Subjects(e, Node(n.ns, n.obj, tupleset)), max, path, t2, depth, f);
  }

  lemma {:induction false} EndedListExpands(
      e: Env, n: Node, children: seq<Rewrite>, max: int, path: set<string>, t: Tally, depth: nat, f: nat)
    requires Clean(e) && CleanNode(n) && f < Room(e, depth) && PathOpen(e, false, path, f)
    requires forall c | c in children :: CleanRewrite(c) && RuleEnds(e, false, n, c, f)
    ensures ExpandList(e, n, children, max, path, t, depth).st.cuts == t.cuts
    decreases Room(e, depth), 2, children
  {
    if children != [] {
      EndedRuleExpands(e, n, children[0], max, path, t, depth, f);
      var head := ExpandRewrite(e, n, children[0], max, path, t, depth);
      EndedListExpands(e, n, children[1..], max, path, head.st, depth, f);
    }
  }

  lemma {:induction false} EndedPointersExpand(
      e: Env, rel: string, subjects: seq<Subject>, max: int, path: set<string>, t: Tally, depth: nat, f: nat)
    requires Clean(e) && '#' !in rel && f < Room(e, depth) && PathOpen(e, false, path, f)
    requires SubjectsEnd(e, false, Through(rel), subjects, f) && forall x | x in subjects :: CleanSubject(x)
    ensures ExpandPointers(e, rel, subjects, max, path, t, depth).st.cuts == t.cuts
    decreases Room(e, depth), 1, |subjects|
  {
    if subjects != [] {
      var x := subjects[0].userset;
      assert CleanSubject(subjects[0]);
      if x.None? {
        EndedPointersExpand(e, rel, subjects[1..], max, path, t, depth, f);
      } else {
        var m := Node(x.value.ns, x.value.obj, rel);
        EndedExpands(e, m, max, path, t, depth + 1, f);
        EndedPointersExpand(e, rel, subjects[1..], max, path, Expand(e, m, max, path, t, depth + 1).st, depth, f);
      }
    }
  }

  /** A returned tree is untruncated exactly when every walk from the node ends within the depth limit. */
  lemma ExpandUncutIff(e: Env, n: Node, max: int)
    requires Clean(e) && CleanNode(n) && TopExpand(e, n, max).res.Got?
    ensures TopExpand(e, n, max).st.cuts == 0 <==> Ends(e, false, n, e.maxDepth + 1)
  {
    UncutEnds(e, n, max, {}, Tally(0, 0, 0), 0);
    if Ends(e, false, n, e.maxDepth + 1) { EndedExpands(e, n, max, {}, Tally(0, 0, 0), 0, e.maxDepth + 1); }
  }
}
