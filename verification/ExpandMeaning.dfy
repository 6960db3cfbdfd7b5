/** What an expanded tree means and how large it can be (pkg/authz/expand.go). */
module ExpandMeaning {
  import opened AuthzModel
  import opened VisitKeys
  import opened Kleene
  import opened Evaluator
  import opened Expansion
  import opened Solutions
  import opened Conditions

  /** The set algebra of a tree, with leaf usersets read from `lo`, and under an exclude side from `hi`. */
  ghost predicate Denotes(t: Tree, u: string, lo: iset<Node>, hi: iset<Node>)
    decreases t
  {
    if t.union != [] then exists c | c in t.union :: Denotes(c, u, lo, hi)
    else if t.intersection != [] then forall c | c in t.intersection :: Denotes(c, u, lo, hi)
    else if t.exclude.Some? then
      Denotes(t.exclude.value.included, u, lo, hi) && !Denotes(t.exclude.value.excluded, u, hi, lo)
    else t.wildcard || u in t.users || exists s | s in t.sets :: s in lo
  }

  /** Every stored condition holds for the request; in particular when nothing stored is conditional. */
  ghost predicate Unconditional(e: Env) {
    forall n: Node, s: Subject | s in Subjects(e, n) :: EvalCondition(s.condition, e.holds)
  }

  lemma {:induction false} LeafContents(subjects: seq<Subject>)
    ensures forall u: string :: u in LeafUsers(subjects) <==>
              exists s | s in subjects :: !s.wildcard && s.userset.None? && s.userID == u
    ensures forall m: Node :: m in LeafSets(subjects) <==>
              exists s | s in subjects :: !s.wildcard && s.userset == Some(m)
    decreases |subjects|
  {
    if subjects != [] {
      LeafContents(subjects[1..]);
      assert subjects == [subjects[0]] + subjects[1..];
    }
  }

  /** A user with a name, or a store in which every user subject has one (as tuple validation demands). */
  ghost predicate Named(e: Env, u: string) {
    u != "" || forall n: Node, s: Subject | s in Subjects(e, n) :: s.wildcard || s.userset.Some? || s.userID != ""
  }

  lemma StrippedFrom(e: Env, n: Node, s: Subject) returns (x: Subject)
    requires s in Subjects(Stripped(e), n)
    ensures x in Subjects(e, n) && s == Freed(x)
  {
    var i :| 0 <= i < |Subjects(e, n)| && s == Freed(Subjects(e, n)[i]);
    x := Subjects(e, n)[i];
  }

  lemma StrippedIsUnconditional(e: Env, u: string)
    ensures Unconditional(Stripped(e)) && (Named(e, u) ==> Named(Stripped(e), u))
    ensures ExclusionFreeModel(e) ==> ExclusionFreeModel(Stripped(e))
  {
    forall n: Node, s: Subject | s in Subjects(Stripped(e), n)
      ensures s.condition.None?
      ensures Named(e, u) ==> u != "" || s.wildcard || s.userset.Some? || s.userID != ""
    {
      var x := StrippedFrom(e, n, s);
    }
  }

  lemma {:induction false} AllLive(subjects: seq<Subject>, holds: set<Condition>)
    requires forall s | s in subjects :: EvalCondition(s.condition, holds)
    ensures LiveGrants(subjects, holds) == AllGrants(subjects)
    decreases |subjects|
  {
    if subjects != [] {
      assert subjects[0] in subjects;
      AllLive(subjects[1..], holds);
    }
  }

  /** Where every condition holds, forgetting them settles nothing else. */
  lemma UnconditionalSettles(e: Env)
    requires Unconditional(e)
    ensures forall u: string, n: Node, f: nat :: K(Stripped(e), u, n, f) == K(e, u, n, f)
    ensures forall u: string, n: Node, v: bool :: Is(Stripped(e), u, n, v) ==> Is(e, u, n, v)
  {
    forall n | n in e.tuples ensures LiveGrants(e.tuples[n], e.holds) == AllGrants(e.tuples[n]) {
      forall s | s in e.tuples[n] ensures EvalCondition(s.condition, e.holds) { assert s in Subjects(e, n); }
      AllLive(e.tuples[n], e.holds);
    }
    assert Live(e) == Stripped(e);
    forall u: string, n: Node, f: nat ensures K(Stripped(e), u, n, f) == K(e, u, n, f) { LiveSettled(e, u, n, f); }
    forall u: string, n: Node, v: bool | Is(Stripped(e), u, n, v) ensures Is(e, u, n, v) {
      var f: nat :| K(Stripped(e), u, n, f) == Known(v);
      assert K(e, u, n, f) == Known(v);
    }
  }

  lemma LeafMeaning(e: Env, u: string, lo: iset<Node>, hi: iset<Node>, n: Node, subjects: seq<Subject>)
    requires u != "" || forall s | s in subjects :: s.wildcard || s.userset.Some? || s.userID != ""
    requires forall s | s in subjects :: EvalCondition(s.condition, e.holds)
    ensures Denotes(Leaf(n, subjects), u, lo, hi) <==> SubjectsSat(e, u, lo, Direct, subjects)
  {
    LeafContents(subjects);
    var leaf := Leaf(n, subjects);
    if SubjectsSat(e, u, lo, Direct, subjects) {
      var s :| s in subjects && TargetSat(lo, TargetOf(e, ByUser(u), Direct, s));
      if !s.wildcard && s.userset.Some? { assert s.userset.value in leaf.sets; }
    }
    if Denotes(leaf, u, lo, hi) {
      if !leaf.wildcard && u !in leaf.users {
        var m :| m in leaf.sets && m in lo;
        var s :| s in subjects && !s.wildcard && s.userset == Some(m);
        assert TargetSat(lo, TargetOf(e, ByUser(u), Direct, s));
      } else if leaf.wildcard {
        var s :| s in subjects && s.wildcard;
        assert TargetSat(lo, TargetOf(e, ByUser(u), Direct, s));
      } else {
        var s :| s in subjects && !s.wildcard && s.userset.None? && s.userID == u;
        assert TargetSat(lo, TargetOf(e, ByUser(u), Direct, s));
      }
    }
  }

  // ---- an untruncated tree means what the relation means; a truncated one means no more ----

  /**
   How a tree is read: exactly, against balanced bounds; from below, against a closed set, in a model without
   exclusions; from below, against balanced bounds, where no cut fell under an exclude side.
   */
  datatype Reading = Exactly | FromBelow | WhereGuarded

  ghost predicate ReadAgainst(how: Reading, e: Env, u: string, lo: iset<Node>, hi: iset<Node>) {
    && Named(e, u) && Unconditional(e)
    && if how.FromBelow? then lo == hi && Closed(e, u, lo) && ExclusionFreeModel(e) else Balanced(e, u, lo, hi)
  }

  /** Equivalent if nothing was cut; read from below, an implication whatever was cut. */
  ghost predicate Agree(how: Reading, t: Tally, st: Tally, found: bool, meant: bool) {
    t.cuts <= st.cuts && if how.Exactly? then (st.cuts == t.cuts ==> (found <==> meant)) else (found ==> meant)
  }

  /** No cut falls under an exclude side. */
  ghost predicate NodeGuarded(e: Env, n: Node, max: int, path: set<string>, t: Tally, depth: nat)
    decreases Room(e, depth), 3
  {
    || depth > e.maxDepth || VisitKey(n) in path
    || RuleGuarded(e, n, RewriteOf(e.model, n), max, path + {VisitKey(n)}, t, depth)
  }

  ghost predicate RuleGuarded(e: Env, n: Node, rw: Rewrite, max: int, path: set<string>, t: Tally, depth: nat)
    requires depth <= e.maxDepth
    decreases Room(e, depth), 2, rw
  {
    var t1 := t.(count := t.count + 1);
    OverCap(max, t1.count) ||
    match FormOf(rw)
    case This => true
    case AnyOf(children) => ListGuarded(e, n, children, max, path, t1, depth)
    case AllOf(children) => ListGuarded(e, n, children, max, path, t1, depth)
    case Except(included, excluded) =>
      var inc := ExpandRewrite(e, n, included, max, path, t1, depth);
      && RuleGuarded(e, n, included, max, path, t1, depth)
      && (inc.res.Got? ==> ExpandRewrite(e, n, excluded, max, path, inc.st, depth).st.cuts == inc.st.cuts)
    case Computed(rel) => NodeGuarded(e, Node(n.ns, n.obj, rel), max, path, t1, depth + 1)
    case Via(tupleset, rel) =>
      var t2 := t1.(readCount := t1.readCount + 1);
      OverReads(e, t2) ||
      PointersGuarded(e, rel, Subjects(e, Node(n.ns, n.obj, tupleset)), max, path, t2, depth)
  }

  ghost predicate ListGuarded(
      e: Env, n: Node, children: seq<Rewrite>, max: int, path: set<string>, t: Tally, depth: nat)
    requires depth <= e.maxDepth
    decreases Room(e, depth), 2, children
  {
    children == [] ||
    (var head := ExpandRewrite(e, n, children[0], max, path, t, depth);
     && RuleGuarded(e, n, children[0], max, path, t, depth)
     && (head.res.Got? ==> ListGuarded(e, n, children[1..], max, path, head.st, depth)))
  }

  ghost predicate PointersGuarded(
      e: Env, rel: string, subjects: seq<Subject>, max: int, path: set<string>, t: Tally, depth: nat)
    requires depth <= e.maxDepth
    decreases Room(e, depth), 1, |subjects|
  {
    subjects == [] ||
    (if subjects[0].userset.None? then PointersGuarded(e, rel, subjects[1..], max, path, t, depth)
     else
       var m := Node(subjects[0].userset.value.ns, subjects[0].userset.value.obj, rel);
       var head := Expand(e, m, max, path, t, depth + 1);
       && NodeGuarded(e, m, max, path, t, depth + 1)
       && (head.res.Got? ==> PointersGuarded(e, rel, subjects[1..], max, path, head.st, depth)))
  }

  // ---- a run without cuts is guarded ----

  lemma {:induction false} UncutNode(e: Env, n: Node, max: int, path: set<string>, t: Tally, depth: nat)
    ensures var r := Expand(e, n, max, path, t, depth);
            t.cuts <= r.st.cuts && (r.st.cuts == t.cuts ==> NodeGuarded(e, n, max, path, t, depth))
    decreases Room(e, depth), 3
  {
    if depth > e.maxDepth || VisitKey(n) in path {
    } else {
      UncutRule(e, n, RewriteOf(e.model, n), max, path + {VisitKey(n)}, t, depth);
    }
  }

  lemma {:induction false} UncutRule(
      e: Env, n: Node, rw: Rewrite, max: int, path: set<string>, t: Tally, depth: nat)
    requires depth <= e.maxDepth
    ensures var r := ExpandRewrite(e, n, rw, max, path, t, depth);
            t.cuts <= r.st.cuts && (r.st.cuts == t.cuts ==> RuleGuarded(e, n, rw, max, path, t, depth))
    decreases Room(e, depth), 2, rw
  {
    var t1 := t.(count := t.count + 1);
    if OverCap(max, t1.count) {
    } else {
      match FormOf(rw)
      case This =>
      case AnyOf(children) => UncutList(e, n, children, max, path, t1, depth);
      case AllOf(children) => UncutList(e, n, children, max, path, t1, depth);
      case Except(included, excluded) =>
        UncutRule(e, n, included, max, path, t1, depth);
        var inc := ExpandRewrite(e, n, included, max, path, t1, depth);
        if inc.res.Got? { UncutRule(e, n, excluded, max, path, inc.st, depth); }
      case Computed(rel) => UncutNode(e, Node(n.ns, n.obj, rel), max, path, t1, depth + 1);
      case Via(tupleset, rel) =>
        var t2 := t1.(readCount := t1.readCount + 1);
        if !OverReads(e, t2) {
          UncutPointers(e, rel, Subjects(e, Node(n.ns, n.obj, tupleset)), max, path, t2, depth);
        }
    }
  }

  lemma {:induction false} UncutList(
      e: Env, n: Node, children: seq<Rewrite>, max: int, path: set<string>, t: Tally, depth: nat)
    requires depth <= e.maxDepth
    ensures var r := ExpandList(e, n, children, max, path, t, depth);
            t.cuts <= r.st.cuts && (r.st.cuts == t.cuts ==> ListGuarded(e, n, children, max, path, t, depth))
    decreases Room(e, depth), 2, children
  {
    if children != [] {
      UncutRule(e, n, children[0], max, path, t, depth);
      var head := ExpandRewrite(e, n, children[0], max, path, t, depth);
      if head.res.Got? { UncutList(e, n, children[1..], max, path, head.st, depth); }
    }
  }

  lemma {:induction false} UncutPointers(
      e: Env, rel: string, subjects: seq<Subject>, max: int, path: set<string>, t: Tally, depth: nat)
    requires depth <= e.maxDepth
    ensures var r := ExpandPointers(e, rel, subjects, max, path, t, depth);
            t.cuts <= r.st.cuts && (r.st.cuts == t.cuts ==> PointersGuarded(e, rel, subjects, max, path, t, depth))
    decreases Room(e, depth), 1, |subjects|
  {
    if subjects != [] {
      var x := subjects[0].userset;
      if x.None? {
        UncutPointers(e, rel, subjects[1..], max, path, t, depth);
      } else {
        var m := Node(x.value.ns, x.value.obj, rel);
        UncutNode(e, m, max, path, t, depth + 1);
        var head := Expand(e, m, max, path, t, depth + 1);
        if head.res.Got? { UncutPointers(e, rel, subjects[1..], max, path, head.st, depth); }
      }
    }
  }

  /** What a reading asks of the rule it reads. */
  ghost predicate RuleReadable(
      how: Reading, e: Env, n: Node, rw: Rewrite, max: int, path: set<string>, t: Tally, depth: nat)
    requires depth <= e.maxDepth
  {
    match how
    case Exactly => true
    case FromBelow => ExclusionFree(rw)
    case WhereGuarded => RuleGuarded(e, n, rw, max, path, t, depth)
  }

  /** Expanded children and the rewrites they came from agree one by one. */
  ghost predicate Paired(
      how: Reading, e: Env, u: string, lo: iset<Node>, hi: iset<Node>, n: Node,
      trees: seq<Tree>, children: seq<Rewrite>, t: Tally, st: Tally)
  {
    && t.cuts <= st.cuts && |trees| == |children|
    && forall i | 0 <= i < |trees| :: Agree(how, t, st, Denotes(trees[i], u, lo, hi), Sat(e, u, lo, hi, n, children[i]))
  }

  lemma SomePairAgrees(
      how: Reading, e: Env, u: string, lo: iset<Node>, hi: iset<Node>, n: Node,
      trees: seq<Tree>, children: seq<Rewrite>, t: Tally, st: Tally)
    requires Paired(how, e, u, lo, hi, n, trees, children, t, st)
    ensures Agree(how, t, st,
                  exists c | c in trees :: Denotes(c, u, lo, hi), exists c | c in children :: Sat(e, u, lo, hi, n, c))
  {
    if exists c | c in trees :: Denotes(c, u, lo, hi) {
      var i :| 0 <= i < |trees| && Denotes(trees[i], u, lo, hi);
      assert children[i] in children;
    }
    if exists c | c in children :: Sat(e, u, lo, hi, n, c) {
      var i :| 0 <= i < |children| && Sat(e, u, lo, hi, n, children[i]);
      assert trees[i] in trees;
    }
  }

  lemma AllPairsAgree(
      how: Reading, e: Env, u: string, lo: iset<Node>, hi: iset<Node>, n: Node,
      trees: seq<Tree>, children: seq<Rewrite>, t: Tally, st: Tally)
    requires Paired(how, e, u, lo, hi, n, trees, children, t, st)
    ensures Agree(how, t, st,
                  forall c | c in trees :: Denotes(c, u, lo, hi), forall c | c in children :: Sat(e, u, lo, hi, n, c))
  {
    if !forall c | c in children :: Sat(e, u, lo, hi, n, c) {
      var i :| 0 <= i < |children| && !Sat(e, u, lo, hi, n, children[i]);
      assert trees[i] in trees;
    }
    if !forall c | c in trees :: Denotes(c, u, lo, hi) {
      var i :| 0 <= i < |trees| && !Denotes(trees[i], u, lo, hi);
      assert children[i] in children;
    }
  }

  lemma {:induction false} NodeMeaning(
      how: Reading, e: Env, u: string, lo: iset<Node>, hi: iset<Node>, n: Node,
      max: int, path: set<string>, t: Tally, depth: nat)
    requires ReadAgainst(how, e, u, lo, hi) && (how.WhereGuarded? ==> NodeGuarded(e, n, max, path, t, depth))
    ensures var r := Expand(e, n, max, path, t, depth);
            r.res.Got? ==> Agree(how, t, r.st, Denotes(r.res.value, u, lo, hi), n in lo)
    decreases Room(e, depth), 3
  {
    if depth > e.maxDepth || VisitKey(n) in path {
    } else {
      RuleMeaning(how, e, u, lo, hi, n, RewriteOf(e.model, n), max, path + {VisitKey(n)}, t, depth);
    }
  }

  lemma {:induction false} RuleMeaning(
      how: Reading, e: Env, u: string, lo: iset<Node>, hi: iset<Node>, n: Node, rw: Rewrite,
      max: int, path: set<string>, t: Tally, depth: nat)
    requires depth <= e.maxDepth && ReadAgainst(how, e, u, lo, hi)
    requires RuleReadable(how, e, n, rw, max, path, t, depth)
    ensures var r := ExpandRewrite(e, n, rw, max, path, t, depth);
            r.res.Got? ==> Agree(how, t, r.st, Denotes(r.res.value, u, lo, hi), Sat(e, u, lo, hi, n, rw))
    decreases Room(e, depth), 2, rw
  {
    match FormOf(rw)
    case This => if !OverCap(max, t.count + 1) { LeafMeaning(e, u, lo, hi, n, Subjects(e, n)); }
    case AnyOf(_) => UnionRuleMeaning(how, e, u, lo, hi, n, rw, max, path, t, depth);
    case AllOf(_) => IntersectionRuleMeaning(how, e, u, lo, hi, n, rw, max, path, t, depth);
    case Except(_, _) => ExclusionRuleMeaning(how, e, u, lo, hi, n, rw, max, path, t, depth);
    case Computed(rel) =>
      NodeMeaning(how, e, u, lo, hi, Node(n.ns, n.obj, rel), max, path, t.(count := t.count + 1), depth + 1);
    case Via(_, _) => PointerRuleMeaning(how, e, u, lo, hi, n, rw, max, path, t, depth);
  }

  /** A union of paired trees reads as the union of the rewrites; an intersection likewise. */
  lemma UnionAgrees(
      how: Reading, e: Env, u: string, lo: iset<Node>, hi: iset<Node>, n: Node, rw: Rewrite,
      trees: seq<Tree>, t: Tally, st: Tally)
    requires FormOf(rw).AnyOf? && Paired(how, e, u, lo, hi, n, trees, FormOf(rw).children, t, st)
    ensures Agree(how, t, st, Denotes(Bare(n).(union := trees), u, lo, hi), Sat(e, u, lo, hi, n, rw))
  {
    SomePairAgrees(how, e, u, lo, hi, n, trees, FormOf(rw).children, t, st);
  }

  lemma IntersectionAgrees(
      how: Reading, e: Env, u: string, lo: iset<Node>, hi: iset<Node>, n: Node, rw: Rewrite,
      trees: seq<Tree>, t: Tally, st: Tally)
    requires FormOf(rw).AllOf? && Paired(how, e, u, lo, hi, n, trees, FormOf(rw).children, t, st)
    ensures Agree(how, t, st, Denotes(Bare(n).(intersection := trees), u, lo, hi), Sat(e, u, lo, hi, n, rw))
  {
    AllPairsAgree(how, e, u, lo, hi, n, trees, FormOf(rw).children, t, st);
  }

  lemma {:induction false} UnionRuleMeaning(
      how: Reading, e: Env, u: string, lo: iset<Node>, hi: iset<Node>, n: Node, rw: Rewrite,
      max: int, path: set<string>, t: Tally, depth: nat)
    requires depth <= e.maxDepth && ReadAgainst(how, e, u, lo, hi) && FormOf(rw).AnyOf?
    requires RuleReadable(how, e, n, rw, max, path, t, depth)
    ensures var r := ExpandRewrite(e, n, rw, max, path, t, depth);
            r.res.Got? ==> Agree(how, t, r.st, Denotes(r.res.value, u, lo, hi), Sat(e, u, lo, hi, n, rw))
    decreases Room(e, depth), 2, rw, 0
  {
    var t1 := t.(count := t.count + 1);
    if !OverCap(max, t1.count) {
      var children := FormOf(rw).children;
      ListMeaning(how, e, u, lo, hi, n, children, max, path, t1, depth);
      var f := ExpandList(e, n, children, max, path, t1, depth);
      if f.res.Got? { UnionAgrees(how, e, u, lo, hi, n, rw, f.res.value, t1, f.st); }
    }
  }

  lemma {:induction false} IntersectionRuleMeaning(
      how: Reading, e: Env, u: string, lo: iset<Node>, hi: iset<Node>, n: Node, rw: Rewrite,
      max: int, path: set<string>, t: Tally, depth: nat)
    requires depth <= e.maxDepth && ReadAgainst(how, e, u, lo, hi) && FormOf(rw).AllOf?
    requires RuleReadable(how, e, n, rw, max, path, t, depth)
    ensures var r := ExpandRewrite(e, n, rw, max, path, t, depth);
            r.res.Got? ==> Agree(how, t, r.st, Denotes(r.res.value, u, lo, hi), Sat(e, u, lo, hi, n, rw))
    decreases Room(e, depth), 2, rw, 0
  {
    var t1 := t.(count := t.count + 1);
    if !OverCap(max, t1.count) {
      var children := FormOf(rw).children;
      ListMeaning(how, e, u, lo, hi, n, children, max, path, t1, depth);
      var f := ExpandList(e, n, children, max, path, t1, depth);
      if f.res.Got? { IntersectionAgrees(how, e, u, lo, hi, n, rw, f.res.value, t1, f.st); }
    }
  }

  lemma {:induction false} ExclusionRuleMeaning(
      how: Reading, e: Env, u: string, lo: iset<Node>, hi: iset<Node>, n: Node, rw: Rewrite,
      max: int, path: set<string>, t: Tally, depth: nat)
    requires depth <= e.maxDepth && ReadAgainst(how, e, u, lo, hi) && FormOf(rw).Except?
    requires RuleReadable(how, e, n, rw, max, path, t, depth)
    ensures var r := ExpandRewrite(e, n, rw, max, path, t, depth);
            r.res.Got? ==> Agree(how, t, r.st, Denotes(r.res.value, u, lo, hi), Sat(e, u, lo, hi, n, rw))
    decreases Room(e, depth), 2, rw, 0
  {
    var t1 := t.(count := t.count + 1);
    if !OverCap(max, t1.count) {
      var included, excluded := FormOf(rw).included, FormOf(rw).excluded;
      RuleMeaning(how, e, u, lo, hi, n, included, max, path, t1, depth);
      var inc := ExpandRewrite(e, n, included, max, path, t1, depth);
      if inc.res.Got? { RuleMeaning(Exactly, e, u, hi, lo, n, excluded, max, path, inc.st, depth); }
    }
  }

  lemma {:induction false} PointerRuleMeaning(
      how: Reading, e: Env, u: string, lo: iset<Node>, hi: iset<Node>, n: Node, rw: Rewrite,
      max: int, path: set<string>, t: Tally, depth: nat)
    requires depth <= e.maxDepth && ReadAgainst(how, e, u, lo, hi) && FormOf(rw).Via?
    requires RuleReadable(how, e, n, rw, max, path, t, depth)
    ensures var r := ExpandRewrite(e, n, rw, max, path, t, depth);
            r.res.Got? ==> Agree(how, t, r.st, Denotes(r.res.value, u, lo, hi), Sat(e, u, lo, hi, n, rw))
    decreases Room(e, depth), 2, rw, 0
  {
    var t1 := t.(count := t.count + 1);
    if !OverCap(max, t1.count) {
      var t2 := t1.(readCount := t1.readCount + 1);
      var pointers := Subjects(e, Node(n.ns, n.obj, FormOf(rw).tupleset));
      if !OverReads(e, t2) { PointersMeaning(how, e, u, lo, hi, FormOf(rw).rel, pointers, max, path, t2, depth); }
    }
  }

  /** Agreement over a part of a run is agreement over the whole. */
  lemma AgreeWider(how: Reading, from: Tally, to: Tally, t: Tally, st: Tally, found: bool, meant: bool)
    requires Agree(how, from, to, found, meant) && t.cuts <= from.cuts && to.cuts <= st.cuts
    ensures Agree(how, t, st, found, meant)
  {
  }

  lemma PairedCons(
      how: Reading, e: Env, u: string, lo: iset<Node>, hi: iset<Node>, n: Node,
      head: Tree, rest: seq<Tree>, children: seq<Rewrite>, t: Tally, mid: Tally, st: Tally)
    requires children != [] && Agree(how, t, mid, Denotes(head, u, lo, hi), Sat(e, u, lo, hi, n, children[0]))
    requires Paired(how, e, u, lo, hi, n, rest, children[1..], mid, st)
    ensures Paired(how, e, u, lo, hi, n, [head] + rest, children, t, st)
  {
    forall i | 0 <= i < |children|
      ensures Agree(how, t, st, Denotes(([head] + rest)[i], u, lo, hi), Sat(e, u, lo, hi, n, children[i]))
    {
      var tree, rw := ([head] + rest)[i], children[i];
      var found, meant := Denotes(tree, u, lo, hi), Sat(e, u, lo, hi, n, rw);
      if i == 0 {
        AgreeWider(how, t, mid, t, st, found, meant);
      } else {
        assert tree == rest[i - 1] && rw == children[1..][i - 1];
        AgreeWider(how, mid, st, t, st, found, meant);
      }
    }
  }

  lemma {:induction false} ListMeaning(
      how: Reading, e: Env, u: string, lo: iset<Node>, hi: iset<Node>, n: Node, children: seq<Rewrite>,
      max: int, path: set<string>, t: Tally, depth: nat)
    requires depth <= e.maxDepth && ReadAgainst(how, e, u, lo, hi)
    requires how.FromBelow? ==> forall c | c in children :: ExclusionFree(c)
    requires how.WhereGuarded? ==> ListGuarded(e, n, children, max, path, t, depth)
    ensures var r := ExpandList(e, n, children, max, path, t, depth);
            r.res.Got? ==> Paired(how, e, u, lo, hi, n, r.res.value, children, t, r.st)
    decreases Room(e, depth), 2, children
  {
    if children != [] {
      RuleMeaning(how, e, u, lo, hi, n, children[0], max, path, t, depth);
      var head := ExpandRewrite(e, n, children[0], max, path, t, depth);
      if head.res.Got? {
        ListMeaning(how, e, u, lo, hi, n, children[1..], max, path, head.st, depth);
        var rest := ExpandList(e, n, children[1..], max, path, head.st, depth);
        if rest.res.Got? {
          PairedCons(how, e, u, lo, hi, n, head.res.value, rest.res.value, children, t, head.st, rest.st);
        }
      }
    }
  }

  lemma PointersSkip(e: Env, u: string, lo: iset<Node>, rel: string, subjects: seq<Subject>)
    requires subjects != [] && subjects[0].userset.None?
    ensures SubjectsSat(e, u, lo, Through(rel), subjects) == SubjectsSat(e, u, lo, Through(rel), subjects[1..])
  {
    assert subjects == [subjects[0]] + subjects[1..];
  }

  lemma PointersCons(
      how: Reading, e: Env, u: string, lo: iset<Node>, hi: iset<Node>, rel: string, subjects: seq<Subject>,
      m: Node, head: Tree, rest: seq<Tree>, t: Tally, mid: Tally, st: Tally)
    requires subjects != [] && TargetOf(e, ByUser(u), Through(rel), subjects[0]) == Follow(m)
    requires Agree(how, t, mid, Denotes(head, u, lo, hi), m in lo)
    requires Agree(how, mid, st, exists c | c in rest :: Denotes(c, u, lo, hi),
                   SubjectsSat(e, u, lo, Through(rel), subjects[1..]))
    ensures Agree(how, t, st, exists c | c in [head] + rest :: Denotes(c, u, lo, hi),
                  SubjectsSat(e, u, lo, Through(rel), subjects))
  {
    assert subjects == [subjects[0]] + subjects[1..];
  }

  lemma {:induction false} PointersMeaning(
      how: Reading, e: Env, u: string, lo: iset<Node>, hi: iset<Node>, rel: string, subjects: seq<Subject>,
      max: int, path: set<string>, t: Tally, depth: nat)
    requires depth <= e.maxDepth && ReadAgainst(how, e, u, lo, hi)
    requires how.WhereGuarded? ==> PointersGuarded(e, rel, subjects, max, path, t, depth)
    requires forall s | s in subjects :: EvalCondition(s.condition, e.holds)
    ensures var r := ExpandPointers(e, rel, subjects, max, path, t, depth);
            r.res.Got? ==>
              Agree(how, t, r.st,
                    exists c | c in r.res.value :: Denotes(c, u, lo, hi), SubjectsSat(e, u, lo, Through(rel), subjects))
    decreases Room(e, depth), 1, |subjects|
  {
    if subjects != [] {
      var x := subjects[0].userset;
      if x.None? {
        PointersSkip(e, u, lo, rel, subjects);
        PointersMeaning(how, e, u, lo, hi, rel, subjects[1..], max, path, t, depth);
      } else {
        var m := Node(x.value.ns, x.value.obj, rel);
        assert TargetOf(e, ByUser(u), Through(rel), subjects[0]) == Follow(m);
        NodeMeaning(how, e, u, lo, hi, m, max, path, t, depth + 1);
        var head := Expand(e, m, max, path, t, depth + 1);
        if head.res.Got? {
          PointersMeaning(how, e, u, lo, hi, rel, subjects[1..], max, path, head.st, depth);
          var rest := ExpandPointers(e, rel, subjects[1..], max, path, head.st, depth);
          if rest.res.Got? {
            PointersCons(how, e, u, lo, hi, rel, subjects, m, head.res.value, rest.res.value, t, head.st, rest.st);
          }
        }
      }
    }
  }

  /**
   An Expand that truncated nothing returns a tree equal to the relation with conditions forgotten, for every user
   and all balanced bounds, in particular in every solution.
   */
  lemma ExpandPreservesMeaning(e: Env, u: string, lo: iset<Node>, hi: iset<Node>, n: Node, max: int)
    requires Named(e, u) && Balanced(Stripped(e), u, lo, hi)
    ensures var r := TopExpand(e, n, max);
            r.res.Got? && r.st.cuts == 0 ==> (Denotes(r.res.value, u, lo, hi) <==> n in lo)
  {
    TreesIgnoreConditions(e, n, max);
    StrippedIsUnconditional(e, u);
    NodeMeaning(Exactly, Stripped(e), u, lo, hi, n, max, {}, Tally(0, 0, 0), 0);
  }

  /** Without exclusions even a truncated tree grants nothing outside the least fixpoint. */
  lemma ExpandIsSound(e: Env, u: string, I: iset<Node>, n: Node, max: int)
    requires Named(e, u) && ExclusionFreeModel(e) && Closed(Stripped(e), u, I)
    ensures var r := TopExpand(e, n, max);
            r.res.Got? && Denotes(r.res.value, u, I, I) ==> n in I
  {
    TreesIgnoreConditions(e, n, max);
    StrippedIsUnconditional(e, u);
    NodeMeaning(FromBelow, Stripped(e), u, I, I, n, max, {}, Tally(0, 0, 0), 0);
  }

  /** With exclusions likewise, where no cut falls under an exclude side. */
  lemma GuardedExpandIsSound(e: Env, u: string, lo: iset<Node>, hi: iset<Node>, n: Node, max: int)
    requires Named(e, u) && Balanced(Stripped(e), u, lo, hi)
    requires NodeGuarded(Stripped(e), n, max, {}, Tally(0, 0, 0), 0)
    ensures var r := TopExpand(e, n, max);
            r.res.Got? && Denotes(r.res.value, u, lo, hi) ==> n in lo
  {
    TreesIgnoreConditions(e, n, max);
    StrippedIsUnconditional(e, u);
    NodeMeaning(WhereGuarded, Stripped(e), u, lo, hi, n, max, {}, Tally(0, 0, 0), 0);
  }

  // ---- the node cap bounds the response ----

  function Size(t: Tree): nat
    decreases t
  {
    1 + |t.users| + |t.sets| + (if t.wildcard then 1 else 0) + Sizes(t.union) + Sizes(t.intersection)
    + (if t.exclude.Some? then Size(t.exclude.value.included) + Size(t.exclude.value.excluded) else 0)
  }

  function Sizes(ts: seq<Tree>): nat
    decreases ts
  {
    if ts == [] then 0 else Size(ts[0]) + Sizes(ts[1..])
  }

  /** The charge of a run covers a result of size `size`, truncation stubs aside, and respects the cap. */
  predicate Charged(max: int, t: Tally, st: Tally, size: nat) {
    t.cuts <= st.cuts && size + t.count <= st.count + (st.cuts - t.cuts)
        && (OverCap(max, st.count) ==> OverCap(max, t.count))
  }

  lemma {:induction false} LeafSize(subjects: seq<Subject>)
    ensures |LeafUsers(subjects)| + |LeafSets(subjects)| + (if LeafWildcard(subjects) then 1 else 0) <= |subjects|
    decreases |subjects|
  {
    if subjects != [] {
      LeafSize(subjects[1..]);
      assert subjects == [subjects[0]] + subjects[1..];
    }
  }

  lemma {:induction false} NodeSize(e: Env, n: Node, max: int, path: set<string>, t: Tally, depth: nat)
    ensures var r := Expand(e, n, max, path, t, depth);
            r.res.Got? ==> Charged(max, t, r.st, Size(r.res.value))
    decreases Room(e, depth), 3
  {
    if depth > e.maxDepth || VisitKey(n) in path {
    } else {
      RuleSize(e, n, RewriteOf(e.model, n), max, path + {VisitKey(n)}, t, depth);
    }
  }

  lemma {:induction false} RuleSize(
      e: Env, n: Node, rw: Rewrite, max: int, path: set<string>, t: Tally, depth: nat)
    requires depth <= e.maxDepth
    ensures var r := ExpandRewrite(e, n, rw, max, path, t, depth);
            r.res.Got? ==> Charged(max, t, r.st, Size(r.res.value))
    decreases Room(e, depth), 2, rw
  {
    var t1 := t.(count := t.count + 1);
    if OverCap(max, t1.count) {
    } else {
      match FormOf(rw)
      case This => LeafSize(Subjects(e, n));
      case AnyOf(children) => ListSize(e, n, children, max, path, t1, depth);
      case AllOf(children) => ListSize(e, n, children, max, path, t1, depth);
      case Except(included, excluded) =>
        RuleSize(e, n, included, max, path, t1, depth);
        var inc := ExpandRewrite(e, n, included, max, path, t1, depth);
        if inc.res.Got? { RuleSize(e, n, excluded, max, path, inc.st, depth); }
      case Computed(rel) => NodeSize(e, Node(n.ns, n.obj, rel), max, path, t1, depth + 1);
      case Via(tupleset, rel) =>
        var t2 := t1.(readCount := t1.readCount + 1);
        if !OverReads(e, t2) {
          PointersSize(e, rel, Subjects(e, Node(n.ns, n.obj, tupleset)), max, path, t2, depth);
        }
    }
  }

  lemma {:induction false} ListSize(
      e: Env, n: Node, children: seq<Rewrite>, max: int, path: set<string>, t: Tally, depth: nat)
    requires depth <= e.maxDepth
    ensures var r := ExpandList(e, n, children, max, path, t, depth);
            r.res.Got? ==> Charged(max, t, r.st, Sizes(r.res.value))
    decreases Room(e, depth), 2, children
  {
    if children != [] {
      RuleSize(e, n, children[0], max, path, t, depth);
      var head := ExpandRewrite(e, n, children[0], max, path, t, depth);
      if head.res.Got? { ListSize(e, n, children[1..], max, path, head.st, depth); }
    }
  }

  lemma {:induction false} PointersSize(
      e: Env, rel: string, subjects: seq<Subject>, max: int, path: set<string>, t: Tally, depth: nat)
    requires depth <= e.maxDepth
    ensures var r := ExpandPointers(e, rel, subjects, max, path, t, depth);
            r.res.Got? ==> Charged(max, t, r.st, Sizes(r.res.value))
    decreases Room(e, depth), 1, |subjects|
  {
    if subjects != [] {
      var x := subjects[0].userset;
      if x.None? {
        PointersSize(e, rel, subjects[1..], max, path, t, depth);
      } else {
        var m := Node(x.value.ns, x.value.obj, rel);
        NodeSize(e, m, max, path, t, depth + 1);
        var head := Expand(e, m, max, path, t, depth + 1);
        if head.res.Got? { PointersSize(e, rel, subjects[1..], max, path, head.st, depth); }
      }
    }
  }

  /** Nodes and leaf subjects of a response, truncation stubs aside, never exceed a positive cap. */
  lemma ExpandRespectsCap(e: Env, n: Node, max: int)
    ensures var r := TopExpand(e, n, max);
            r.res.Got? && max > 0 ==> Size(r.res.value) <= max + r.st.cuts
  {
    NodeSize(e, n, max, {}, Tally(0, 0, 0), 0);
  }
}
