/**
 Expand and member resolution show whatever is settled within the depth limit, wherever else they are cut
 (pkg/authz/expand.go, pkg/authz/checkset.go).
 */
module Completeness {
  import opened AuthzModel
  import opened VisitKeys
  import opened Kleene
  import opened Evaluator
  import opened Soundness
  import opened Solutions
  import opened Conditions
  import opened Expansion
  import opened Members
  import opened ExpandMeaning
  import opened MemberMeaning

  /** The bounds hold whatever is settled by `f` levels. */
  ghost predicate Bounds(e: Env, u: string, f: nat, lo: iset<Node>, hi: iset<Node>) {
    forall m: Node :: (K(e, u, m, f) == Known(true) ==> m in lo) && (K(e, u, m, f) == Known(false) ==> m !in hi)
  }

  ghost function TrueAt(e: Env, u: string, f: nat): iset<Node> {
    iset m: Node | K(e, u, m, f) == Known(true)
  }

  ghost function OpenAt(e: Env, u: string, f: nat): iset<Node> {
    iset m: Node | K(e, u, m, f) != Known(false)
  }

  lemma BoundsBelow(e: Env, u: string, f: nat, lo: iset<Node>, hi: iset<Node>)
    requires f > 0 && Bounds(e, u, f, lo, hi)
    ensures Bounds(e, u, f - 1, lo, hi)
  {
    forall m: Node
      ensures K(e, u, m, f - 1) == Known(true) ==> m in lo
      ensures K(e, u, m, f - 1) == Known(false) ==> m !in hi
    {
      if K(e, u, m, f - 1).Known? { KMonotone(e, u, m, f - 1, f); }
    }
  }

  /** The tree says `v` of the user, however the bounds leave open nodes. */
  ghost predicate Says(tree: Tree, u: string, lo: iset<Node>, hi: iset<Node>, v: bool) {
    if v then Denotes(tree, u, lo, hi) else !Denotes(tree, u, hi, lo)
  }

  /** One of the trees (any) or all of them say so. */
  ghost predicate ForestSays(trees: seq<Tree>, any: bool, u: string, lo: iset<Node>, hi: iset<Node>, v: bool) {
    if v == any then exists c | c in trees :: Says(c, u, lo, hi, v) else forall c | c in trees :: Says(c, u, lo, hi, v)
  }

  /** What is asked of the store and of the user. */
  ghost predicate Plain(e: Env, u: string) {
    Clean(e) && Named(e, u) && Unconditional(e)
  }

  // ---- Expand ----

  lemma LeafSays(e: Env, u: string, lo: iset<Node>, hi: iset<Node>, n: Node, f: nat)
    requires Plain(e, u) && Bounds(e, u, f, lo, hi) && KSubjects(e, u, Direct, Subjects(e, n), f).Known?
    ensures Says(Leaf(n, Subjects(e, n)), u, lo, hi, KSubjects(e, u, Direct, Subjects(e, n), f).value)
  {
    KSubjectsByMembership(e, u, Direct, Subjects(e, n), f);
    LeafMeaning(e, u, lo, hi, n, Subjects(e, n));
    LeafMeaning(e, u, hi, lo, n, Subjects(e, n));
  }

  lemma {:induction false} NodeSays(
      e: Env, u: string, lo: iset<Node>, hi: iset<Node>, n: Node,
      max: int, path: set<string>, t: Tally, depth: nat, f: nat)
    requires Plain(e, u) && CleanNode(n) && f <= Room(e, depth) && PathUnsettled(e, u, path, f)
    requires K(e, u, n, f).Known? && Bounds(e, u, f - 1, lo, hi)
    ensures var r := Expand(e, n, max, path, t, depth);
            r.res.Got? ==> Says(r.res.value, u, lo, hi, K(e, u, n, f).value)
    decreases Room(e, depth), 3, f
  {
    PathUnsettledBelow(e, u, path, f);
    if K(e, u, n, f - 1).Known? {
      KMonotone(e, u, n, f - 1, f);
      BoundsBelow(e, u, f - 1, lo, hi);
      NodeSays(e, u, lo, hi, n, max, path, t, depth, f - 1);
    } else {
      PathUnsettledEnter(e, u, n, path, f - 1);
      RuleSays(e, u, lo, hi, n, RewriteOf(e.model, n), max, path + {VisitKey(n)}, t, depth, f - 1);
    }
  }

  lemma {:induction false} RuleSays(
      e: Env, u: string, lo: iset<Node>, hi: iset<Node>, n: Node, rw: Rewrite,
      max: int, path: set<string>, t: Tally, depth: nat, f: nat)
    requires Plain(e, u) && CleanNode(n) && CleanRewrite(rw) && f < Room(e, depth) && PathUnsettled(e, u, path, f)
    requires KRewrite(e, u, n, rw, f).Known? && Bounds(e, u, f, lo, hi)
    ensures var r := ExpandRewrite(e, n, rw, max, path, t, depth);
            r.res.Got? ==> Says(r.res.value, u, lo, hi, KRewrite(e, u, n, rw, f).value)
    decreases Room(e, depth), 2, rw
  {
    var t1 := t.(count := t.count + 1);
    if OverCap(max, t1.count) {
    } else {
      match FormOf(rw)
      case This => LeafSays(e, u, lo, hi, n, f);
      case AnyOf(children) => ListSays(e, u, lo, hi, n, children, true, max, path, t1, depth, f);
      case AllOf(children) => ListSays(e, u, lo, hi, n, children, false, max, path, t1, depth, f);
      case Except(included, excluded) =>
        if KRewrite(e, u, n, included, f).Known? {
          RuleSays(e, u, lo, hi, n, included, max, path, t1, depth, f);
        }
        var inc := ExpandRewrite(e, n, included, max, path, t1, depth);
        if KRewrite(e, u, n, excluded, f).Known? {
          RuleSays(e, u, lo, hi, n, excluded, max, path, inc.st, depth, f);
        }
      case Computed(rel) =>
        BoundsBelow(e, u, f, lo, hi);
        NodeSays(e, u, lo, hi, Node(n.ns, n.obj, rel), max, path, t1, depth + 1, f);
      case Via(tupleset, rel) =>
        var t2 := t1.(readCount := t1.readCount + 1);
        PointersSay(e, u, lo, hi, rel, Subjects(e, Node(n.ns, n.obj, tupleset)), max, path, t2, depth, f);
    }
  }

  lemma {:induction false} ListSays(
      e: Env, u: string, lo: iset<Node>, hi: iset<Node>, n: Node, children: seq<Rewrite>, any: bool,
      max: int, path: set<string>, t: Tally, depth: nat, f: nat)
    requires Plain(e, u) && CleanNode(n) && f < Room(e, depth) && PathUnsettled(e, u, path, f)
    requires forall c | c in children :: CleanRewrite(c)
    requires KList(e, u, n, children, any, f).Known? && Bounds(e, u, f, lo, hi)
    ensures var r := ExpandList(e, n, children, max, path, t, depth);
            r.res.Got? ==> ForestSays(r.res.value, any, u, lo, hi, KList(e, u, n, children, any, f).value)
    decreases Room(e, depth), 2, children
  {
    if children != [] {
      if KRewrite(e, u, n, children[0], f).Known? {
        RuleSays(e, u, lo, hi, n, children[0], max, path, t, depth, f);
      }
      var head := ExpandRewrite(e, n, children[0], max, path, t, depth);
      if KList(e, u, n, children[1..], any, f).Known? {
        ListSays(e, u, lo, hi, n, children[1..], any, max, path, head.st, depth, f);
      }
    }
  }

  lemma {:induction false} PointersSay(
      e: Env, u: string, lo: iset<Node>, hi: iset<Node>, rel: string, subjects: seq<Subject>,
      max: int, path: set<string>, t: Tally, depth: nat, f: nat)
    requires Plain(e, u) && '#' !in rel && f < Room(e, depth) && PathUnsettled(e, u, path, f)
    requires forall s | s in subjects :: CleanSubject(s) && EvalCondition(s.condition, e.holds)
    requires KSubjects(e, u, Through(rel), subjects, f).Known? && Bounds(e, u, f, lo, hi)
    ensures var r := ExpandPointers(e, rel, subjects, max, path, t, depth);
            r.res.Got? ==> ForestSays(r.res.value, true, u, lo, hi, KSubjects(e, u, Through(rel), subjects, f).value)
    decreases Room(e, depth), 1, |subjects|
  {
    if subjects != [] {
      var x := subjects[0].userset;
      if x.None? {
        PointersSay(e, u, lo, hi, rel, subjects[1..], max, path, t, depth, f);
      } else {
        var m := Node(x.value.ns, x.value.obj, rel);
        assert CleanSubject(subjects[0]);
        assert KTarget(e, u, TargetOf(e, ByUser(u), Through(rel), subjects[0]), f) == K(e, u, m, f);
        if K(e, u, m, f).Known? {
          BoundsBelow(e, u, f, lo, hi);
          NodeSays(e, u, lo, hi, m, max, path, t, depth + 1, f);
        }
        var head := Expand(e, m, max, path, t, depth + 1);
        if KSubjects(e, u, Through(rel), subjects[1..], f).Known? {
          PointersSay(e, u, lo, hi, rel, subjects[1..], max, path, head.st, depth, f);
        }
      }
    }
  }

  // ---- the usersets in a tree are stored ones ----

  ghost predicate CleanTree(t: Tree)
    decreases t
  {
    && (forall s | s in t.sets :: CleanNode(s))
    && (forall c | c in t.union :: CleanTree(c))
    && (forall c | c in t.intersection :: CleanTree(c))
    && (t.exclude.Some? ==> CleanTree(t.exclude.value.included) && CleanTree(t.exclude.value.excluded))
  }

  lemma {:induction false} LeafClean(n: Node, subjects: seq<Subject>)
    requires forall s | s in subjects :: CleanSubject(s)
    ensures CleanTree(Leaf(n, subjects))
    decreases |subjects|
  {
    if subjects != [] {
      LeafClean(n, subjects[1..]);
      assert Leaf(n, subjects[1..]).sets == LeafSets(subjects[1..]);
      assert CleanSubject(subjects[0]);
    }
  }

  lemma {:induction false} NodeTreeClean(e: Env, n: Node, max: int, path: set<string>, t: Tally, depth: nat)
    requires Clean(e)
    ensures var r := Expand(e, n, max, path, t, depth);
            r.res.Got? ==> CleanTree(r.res.value)
    decreases Room(e, depth), 3
  {
    if depth > e.maxDepth || VisitKey(n) in path {
    } else {
      RuleTreeClean(e, n, RewriteOf(e.model, n), max, path + {VisitKey(n)}, t, depth);
    }
  }

  lemma {:induction false} RuleTreeClean(
      e: Env, n: Node, rw: Rewrite, max: int, path: set<string>, t: Tally, depth: nat)
    requires depth <= e.maxDepth && Clean(e)
    ensures var r := ExpandRewrite(e, n, rw, max, path, t, depth);
            r.res.Got? ==> CleanTree(r.res.value)
    decreases Room(e, depth), 2, rw
  {
    var t1 := t.(count := t.count + 1);
    if OverCap(max, t1.count) {
    } else {
      match FormOf(rw)
      case This => LeafClean(n, Subjects(e, n));
      case AnyOf(children) => ListTreesClean(e, n, children, max, path, t1, depth);
      case AllOf(children) => ListTreesClean(e, n, children, max, path, t1, depth);
      case Except(included, excluded) =>
        RuleTreeClean(e, n, included, max, path, t1, depth);
        RuleTreeClean(e, n, excluded, max, path, ExpandRewrite(e, n, included, max, path, t1, depth).st, depth);
      case Computed(rel) => NodeTreeClean(e, Node(n.ns, n.obj, rel), max, path, t1, depth + 1);
      case Via(tupleset, rel) =>
        var t2 := t1.(readCount := t1.readCount + 1);
        PointerTreesClean(e, rel, Subjects(e, Node(n.ns, n.obj, tupleset)), max, path, t2, depth);
    }
  }

  lemma {:induction false} ListTreesClean(
      e: Env, n: Node, children: seq<Rewrite>, max: int, path: set<string>, t: Tally, depth: nat)
    requires depth <= e.maxDepth && Clean(e)
    ensures var r := ExpandList(e, n, children, max, path, t, depth);
            r.res.Got? ==> forall c | c in r.res.value :: CleanTree(c)
    decreases Room(e, depth), 2, children
  {
    if children != [] {
      RuleTreeClean(e, n, children[0], max, path, t, depth);
      var head := ExpandRewrite(e, n, children[0], max, path, t, depth);
      ListTreesClean(e, n, children[1..], max, path, head.st, depth);
    }
  }

  lemma {:induction false} PointerTreesClean(
      e: Env, rel: string, subjects: seq<Subject>, max: int, path: set<string>, t: Tally, depth: nat)
    requires depth <= e.maxDepth && Clean(e)
    ensures var r := ExpandPointers(e, rel, subjects, max, path, t, depth);
            r.res.Got? ==> forall c | c in r.res.value :: CleanTree(c)
    decreases Room(e, depth), 1, |subjects|
  {
    if subjects != [] {
      var x := subjects[0].userset;
      if x.None? {
        PointerTreesClean(e, rel, subjects[1..], max, path, t, depth);
      } else {
        var m := Node(x.value.ns, x.value.obj, rel);
        NodeTreeClean(e, m, max, path, t, depth + 1);
        PointerTreesClean(e, rel, subjects[1..], max, path, Expand(e, m, max, path, t, depth + 1).st, depth);
      }
    }
  }

  // ---- member resolution ----

  /** Membership follows what is meant for sure. */
  predicate Follows(surely: bool, possibly: bool, found: bool) {
    (surely ==> found) && (found ==> possibly)
  }

  /** What resolving a tree finds of the user, against the nodes settled by `f` levels. */
  ghost predicate TreeFollows(e: Env, u: string, f: nat, tree: Tree, found: bool) {
    var lo, hi := TrueAt(e, u, f), OpenAt(e, u, f);
    Follows(Denotes(tree, u, lo, hi), Denotes(tree, u, hi, lo), found)
  }

  lemma {:induction false} ResolveSays(e: Env, u: string, n: Node, path: set<string>, t: Tally, depth: nat, f: nat)
    requires Plain(e, u) && CleanNode(n) && f <= Room(e, depth) && PathUnsettled(e, u, path, f)
    requires K(e, u, n, f).Known? && ResolveFair(e, n, path, t, depth)
    ensures var r := Resolve(e, n, path, t, depth);
            r.res.Got? ==> In(r.res.value, u) == K(e, u, n, f).value
    decreases Room(e, depth), 3, f
  {
    PathUnsettledBelow(e, u, path, f);
    if K(e, u, n, f - 1).Known? {
      KMonotone(e, u, n, f - 1, f);
      ResolveSays(e, u, n, path, t, depth, f - 1);
    } else {
      PathUnsettledEnter(e, u, n, path, f - 1);
      var t1 := t.(count := 0);
      NodeSays(e, u, TrueAt(e, u, f - 1), OpenAt(e, u, f - 1), n, 0, {}, t1, depth, f);
      NodeTreeClean(e, n, 0, {}, t1, depth);
      var x := Expand(e, n, 0, {}, t1, depth);
      if x.res.Got? {
        TreeMembersFollow(e, u, x.res.value, path + {VisitKey(n)}, x.st.(count := t.count), depth, f - 1);
      }
    }
  }

  lemma {:induction false} TreeMembersFollow(
      e: Env, u: string, tree: Tree, path: set<string>, t: Tally, depth: nat, f: nat)
    requires Plain(e, u) && f < Room(e, depth) && PathUnsettled(e, u, path, f)
    requires CleanTree(tree) && TreeFair(e, tree, path, t, depth)
    ensures var r := MembersOf(e, tree, path, t, depth);
            r.res.Got? ==> TreeFollows(e, u, f, tree, In(r.res.value, u))
    decreases Room(e, depth), 2, tree
  {
    if tree.union != [] {
      ForestMembersFollow(e, u, tree.union, true, path, t, depth, f);
    } else if tree.intersection != [] {
      ForestMembersFollow(e, u, tree.intersection, false, path, t, depth, f);
    } else if tree.exclude.Some? {
      var inc := MembersOf(e, tree.exclude.value.included, path, t, depth);
      TreeMembersFollow(e, u, tree.exclude.value.included, path, t, depth, f);
      if inc.res.Got? {
        TreeMembersFollow(e, u, tree.exclude.value.excluded, path, inc.st, depth, f);
        var exc := MembersOf(e, tree.exclude.value.excluded, path, inc.st, depth);
        if exc.res.Got? { SubtractIsExactIff(inc.res.value, exc.res.value); }
      }
    } else {
      SetsMembersFollow(e, u, tree.sets, path, t, depth, f);
    }
  }

  lemma {:induction false} ForestMembersFollow(
      e: Env, u: string, trees: seq<Tree>, any: bool, path: set<string>, t: Tally, depth: nat, f: nat)
    requires Plain(e, u) && f < Room(e, depth) && PathUnsettled(e, u, path, f)
    requires (forall c | c in trees :: CleanTree(c)) && ForestFair(e, trees, path, t, depth)
    ensures var r, lo, hi := MembersOfAll(e, trees, any, path, t, depth), TrueAt(e, u, f), OpenAt(e, u, f);
            r.res.Got? ==>
              Follows(ForestDenotes(trees, any, u, lo, hi), ForestDenotes(trees, any, u, hi, lo), In(r.res.value, u))
    decreases Room(e, depth), 2, trees
  {
    if trees != [] {
      assert trees == [trees[0]] + trees[1..];
      TreeMembersFollow(e, u, trees[0], path, t, depth, f);
      var head := MembersOf(e, trees[0], path, t, depth);
      if head.res.Got? { ForestMembersFollow(e, u, trees[1..], any, path, head.st, depth, f); }
    }
  }

  lemma FirstOrRest(sets: seq<Node>, I: iset<Node>)
    requires sets != []
    ensures (exists s | s in sets :: s in I) <==> sets[0] in I || exists s | s in sets[1..] :: s in I
  {
    assert sets == [sets[0]] + sets[1..];
  }

  lemma {:induction false} SetsMembersFollow(
      e: Env, u: string, sets: seq<Node>, path: set<string>, t: Tally, depth: nat, f: nat)
    requires Plain(e, u) && f < Room(e, depth) && PathUnsettled(e, u, path, f)
    requires (forall s | s in sets :: CleanNode(s)) && SetsFair(e, sets, path, t, depth)
    ensures var r, lo, hi := ResolveAll(e, sets, path, t, depth), TrueAt(e, u, f), OpenAt(e, u, f);
            r.res.Got? ==>
              Follows(exists s | s in sets :: s in lo, exists s | s in sets :: s in hi, In(r.res.value, u))
    decreases Room(e, depth), 1, |sets|
  {
    if sets != [] {
      assert sets == [sets[0]] + sets[1..];
      if K(e, u, sets[0], f).Known? {
        ResolveSays(e, u, sets[0], path, t, depth + 1, f);
      } else {
        assert sets[0] in OpenAt(e, u, f);
      }
      FirstOrRest(sets, TrueAt(e, u, f));
      FirstOrRest(sets, OpenAt(e, u, f));
      var head := Resolve(e, sets[0], path, t, depth + 1);
      if head.res.Got? { SetsMembersFollow(e, u, sets[1..], path, head.st, depth, f); }
    }
  }

  // ---- whole operations ----

  lemma StrippedIsPlain(e: Env, u: string)
    requires Clean(e) && Named(e, u)
    ensures Plain(Stripped(e), u)
  {
    StrippedIsUnconditional(e, u);
    forall n: Node, s: Subject | s in Subjects(Stripped(e), n) ensures CleanSubject(s) {
      var i :| 0 <= i < |Subjects(e, n)| && s == Freed(Subjects(e, n)[i]);
      assert CleanSubject(Subjects(e, n)[i]);
    }
  }

  /**
   Exclusions, cycles and truncations elsewhere notwithstanding: of a user settled within the depth limit the tree
   says what is settled, its leaves read by the nodes settled true and those not settled false.
   */
  lemma ExpandShowsSettled(e: Env, u: string, n: Node, max: int)
    requires Clean(e) && CleanNode(n) && Named(e, u) && K(Stripped(e), u, n, e.maxDepth + 1).Known?
    ensures var r, e1 := TopExpand(e, n, max), Stripped(e);
            r.res.Got? ==>
              Says(r.res.value, u, TrueNodes(e1, u), OpenNodes(e1, u), K(e1, u, n, e.maxDepth + 1).value)
  {
    var e1 := Stripped(e);
    var lo, hi := TrueNodes(e1, u), OpenNodes(e1, u);
    TreesIgnoreConditions(e, n, max);
    StrippedIsPlain(e, u);
    NodeSays(e1, u, lo, hi, n, max, {}, Tally(0, 0, 0), 0, e.maxDepth + 1);
  }

  /** Likewise of a user settled within the depth limit, where every subtraction met is exact. */
  lemma ResolutionShowsSettled(e: Env, u: string, n: Node)
    requires Clean(e) && CleanNode(n) && Named(e, u) && K(Stripped(e), u, n, e.maxDepth + 1).Known?
    requires ResolveFair(Stripped(e), n, {}, NoTally, 0)
    ensures var r := Resolve(e, n, {}, NoTally, 0);
            r.res.Got? ==> In(r.res.value, u) == K(Stripped(e), u, n, e.maxDepth + 1).value
  {
    TreesIgnoreConditions(e, n, 0);
    StrippedIsPlain(e, u);
    ResolveSays(Stripped(e), u, n, {}, NoTally, 0, e.maxDepth + 1);
  }

  /** In particular in every model without exclusions, and in every store without public grants. */
  lemma PlainResolutionShowsSettled(e: Env, u: string, n: Node, wildcardFree: bool)
    requires Clean(e) && CleanNode(n) && Named(e, u) && K(Stripped(e), u, n, e.maxDepth + 1).Known?
    requires PlainEnv(wildcardFree, Stripped(e))
    ensures var r := Resolve(e, n, {}, NoTally, 0);
            r.res.Got? ==> In(r.res.value, u) == K(Stripped(e), u, n, e.maxDepth + 1).value
  {
    PlainNodeFair(wildcardFree, Stripped(e), n, {}, NoTally, 0);
    ResolutionShowsSettled(e, u, n);
  }
}
