/** What member resolution returns, against the rewrite equations (pkg/authz/checkset.go). */
module MemberMeaning {
  import opened AuthzModel
  import opened VisitKeys
  import opened Kleene
  import opened Evaluator
  import opened Expansion
  import opened ExpandMeaning
  import opened Solutions
  import opened Conditions
  import opened Members

  predicate In(m: Members, u: string) {
    m.everyone || u in m.users
  }

  /** A tree without public leaves (wildcardFree), or without exclusion nodes. */
  ghost predicate PlainTree(wildcardFree: bool, t: Tree)
    decreases t
  {
    && (if wildcardFree then !t.wildcard else t.exclude.None?)
    && (forall c | c in t.union :: PlainTree(wildcardFree, c))
    && (forall c | c in t.intersection :: PlainTree(wildcardFree, c))
    && (t.exclude.Some? ==>
          && PlainTree(wildcardFree, t.exclude.value.included)
          && PlainTree(wildcardFree, t.exclude.value.excluded))
  }

  /** Nothing is granted to the public, or no model rule excludes. */
  ghost predicate PlainEnv(wildcardFree: bool, e: Env) {
    if wildcardFree then forall n: Node, s: Subject | s in Subjects(e, n) :: !s.wildcard else ExclusionFreeModel(e)
  }

  // ---- expansion keeps trees plain ----

  lemma {:induction false} NodePlain(w: bool, e: Env, n: Node, max: int, path: set<string>, t: Tally, depth: nat)
    requires PlainEnv(w, e)
    ensures var r := Expand(e, n, max, path, t, depth);
            r.res.Got? ==> PlainTree(w, r.res.value)
    decreases Room(e, depth), 3
  {
    if depth > e.maxDepth || VisitKey(n) in path {
    } else {
      RulePlain(w, e, n, RewriteOf(e.model, n), max, path + {VisitKey(n)}, t, depth);
    }
  }

  lemma {:induction false} RulePlain(
      w: bool, e: Env, n: Node, rw: Rewrite, max: int, path: set<string>, t: Tally, depth: nat)
    requires depth <= e.maxDepth && PlainEnv(w, e) && (w || ExclusionFree(rw))
    ensures var r := ExpandRewrite(e, n, rw, max, path, t, depth);
            r.res.Got? ==> PlainTree(w, r.res.value)
    decreases Room(e, depth), 2, rw
  {
    var t1 := t.(count := t.count + 1);
    if OverCap(max, t1.count) {
    } else {
      match FormOf(rw)
      case This =>
      case AnyOf(children) => ListPlain(w, e, n, children, max, path, t1, depth);
      case AllOf(children) => ListPlain(w, e, n, children, max, path, t1, depth);
      case Except(included, excluded) =>
        RulePlain(w, e, n, included, max, path, t1, depth);
        var inc := ExpandRewrite(e, n, included, max, path, t1, depth);
        if inc.res.Got? { RulePlain(w, e, n, excluded, max, path, inc.st, depth); }
      case Computed(rel) => NodePlain(w, e, Node(n.ns, n.obj, rel), max, path, t1, depth + 1);
      case Via(tupleset, rel) =>
        var t2 := t1.(readCount := t1.readCount + 1);
        PointersPlain(w, e, rel, Subjects(e, Node(n.ns, n.obj, tupleset)), max, path, t2, depth);
    }
  }

  lemma {:induction false} ListPlain(
      w: bool, e: Env, n: Node, children: seq<Rewrite>, max: int, path: set<string>, t: Tally, depth: nat)
    requires depth <= e.maxDepth && PlainEnv(w, e) && (w || forall c | c in children :: ExclusionFree(c))
    ensures var r := ExpandList(e, n, children, max, path, t, depth);
            r.res.Got? ==> forall c | c in r.res.value :: PlainTree(w, c)
    decreases Room(e, depth), 2, children
  {
    if children != [] {
      RulePlain(w, e, n, children[0], max, path, t, depth);
      ListPlain(w, e, n, children[1..], max, path, ExpandRewrite(e, n, children[0], max, path, t, depth).st, depth);
    }
  }

  lemma {:induction false} PointersPlain(
      w: bool, e: Env, rel: string, subjects: seq<Subject>, max: int, path: set<string>, t: Tally, depth: nat)
    requires depth <= e.maxDepth && PlainEnv(w, e)
    ensures var r := ExpandPointers(e, rel, subjects, max, path, t, depth);
            r.res.Got? ==> forall c | c in r.res.value :: PlainTree(w, c)
    decreases Room(e, depth), 1, |subjects|
  {
    if subjects != [] {
      var x := subjects[0].userset;
      if x.None? {
        PointersPlain(w, e, rel, subjects[1..], max, path, t, depth);
      } else {
        var m := Node(x.value.ns, x.value.obj, rel);
        NodePlain(w, e, m, max, path, t, depth + 1);
        PointersPlain(w, e, rel, subjects[1..], max, path, Expand(e, m, max, path, t, depth + 1).st, depth);
      }
    }
  }

  // ---- when subtraction is exact ----

  /**
   Nothing unbounded is subtracted from, unless nothing is subtracted; and an unbounded set takes all or was
   named.
   */
  predicate Subtractable(a: Members, b: Members) {
    if a.everyone then b == Nobody else b.everyone ==> a.users <= b.users
  }

  /** The code's subtraction is set difference, for every user, exactly then. */
  lemma SubtractIsExactIff(a: Members, b: Members)
    ensures (forall u: string :: In(Subtract(a, b), u) <==> In(a, u) && !In(b, u)) <==> Subtractable(a, b)
  {
    if forall u: string :: In(Subtract(a, b), u) <==> In(a, u) && !In(b, u) {
      assert !In(b, "") || !In(Subtract(a, b), "");
      forall u | u in a.users && b.everyone ensures a.everyone || u in b.users { assert In(b, u); }
      forall u | u in b.users && a.everyone ensures false { assert In(Subtract(a, b), u) && In(b, u); }
    }
  }

  /** Every subtraction a resolution performs is exact. */
  ghost predicate ResolveFair(e: Env, n: Node, path: set<string>, t: Tally, depth: nat)
    decreases Room(e, depth), 3
  {
    depth > e.maxDepth || VisitKey(n) in path ||
    (var x := Expand(e, n, 0, {}, t.(count := 0), depth);
     x.res.Got? ==> TreeFair(e, x.res.value, path + {VisitKey(n)}, x.st.(count := t.count), depth))
  }

  ghost predicate TreeFair(e: Env, tree: Tree, path: set<string>, t: Tally, depth: nat)
    requires depth <= e.maxDepth
    decreases Room(e, depth), 2, tree
  {
    if tree.union != [] then ForestFair(e, tree.union, path, t, depth)
    else if tree.intersection != [] then ForestFair(e, tree.intersection, path, t, depth)
    else if tree.exclude.Some? then
      var inc := MembersOf(e, tree.exclude.value.included, path, t, depth);
      && TreeFair(e, tree.exclude.value.included, path, t, depth)
      && (inc.res.Got? ==>
            var exc := MembersOf(e, tree.exclude.value.excluded, path, inc.st, depth);
            && TreeFair(e, tree.exclude.value.excluded, path, inc.st, depth)
            && (exc.res.Got? ==> Subtractable(inc.res.value, exc.res.value)))
    else SetsFair(e, tree.sets, path, t, depth)
  }

  ghost predicate ForestFair(e: Env, trees: seq<Tree>, path: set<string>, t: Tally, depth: nat)
    requires depth <= e.maxDepth
    decreases Room(e, depth), 2, trees
  {
    trees == [] ||
    (var head := MembersOf(e, trees[0], path, t, depth);
     TreeFair(e, trees[0], path, t, depth) && (head.res.Got? ==> ForestFair(e, trees[1..], path, head.st, depth)))
  }

  ghost predicate SetsFair(e: Env, sets: seq<Node>, path: set<string>, t: Tally, depth: nat)
    requires depth <= e.maxDepth
    decreases Room(e, depth), 1, |sets|
  {
    sets == [] ||
    (var head := Resolve(e, sets[0], path, t, depth + 1);
     ResolveFair(e, sets[0], path, t, depth + 1) && (head.res.Got? ==> SetsFair(e, sets[1..], path, head.st, depth)))
  }

  // ---- where no cut falls under an exclude side ----

  /** Whom a cut exclude side may stand for: at least those it found. */
  predicate Hides(found: Members, b: Members) {
    found.users <= b.users && (found.everyone ==> b.everyone)
  }

  /** With an exclude side of which only a part was found, a subtraction is safe exactly when it leaves nobody. */
  lemma CutSubtractionIsSafeIff(a: Members, found: Members)
    ensures (forall b: Members, u: string | Hides(found, b) && In(Subtract(a, found), u) :: In(a, u) && !In(b, u)) <==>
              Subtract(a, found) == Nobody
  {
    if Subtract(a, found) != Nobody {
      var u: string := if a.everyone then "" else (var u :| u in a.users - found.users; u);
      assert In(Members(found.users, true), u) && Hides(found, Members(found.users, true));
    }
  }

  /**
   Every subtraction a resolution performs leaves nobody, or is exact and takes from an exclude side without
   a cut.
   */
  ghost predicate ResolveGuarded(e: Env, n: Node, path: set<string>, t: Tally, depth: nat)
    decreases Room(e, depth), 3
  {
    depth > e.maxDepth || VisitKey(n) in path ||
    (var x := Expand(e, n, 0, {}, t.(count := 0), depth);
     && NodeGuarded(e, n, 0, {}, t.(count := 0), depth)
     && (x.res.Got? ==> TreeGuarded(e, x.res.value, path + {VisitKey(n)}, x.st.(count := t.count), depth)))
  }

  ghost predicate TreeGuarded(e: Env, tree: Tree, path: set<string>, t: Tally, depth: nat)
    requires depth <= e.maxDepth
    decreases Room(e, depth), 2, tree
  {
    if tree.union != [] then ForestGuarded(e, tree.union, path, t, depth)
    else if tree.intersection != [] then ForestGuarded(e, tree.intersection, path, t, depth)
    else if tree.exclude.Some? then
      var inc := MembersOf(e, tree.exclude.value.included, path, t, depth);
      && TreeGuarded(e, tree.exclude.value.included, path, t, depth)
      && (inc.res.Got? ==>
            var exc := MembersOf(e, tree.exclude.value.excluded, path, inc.st, depth);
            exc.res.Got? ==>
              || Subtract(inc.res.value, exc.res.value) == Nobody
              || (&& Subtractable(inc.res.value, exc.res.value) && exc.st.cuts == inc.st.cuts
                  && TreeFair(e, tree.exclude.value.excluded, path, inc.st, depth)))
    else SetsGuarded(e, tree.sets, path, t, depth)
  }

  ghost predicate ForestGuarded(e: Env, trees: seq<Tree>, path: set<string>, t: Tally, depth: nat)
    requires depth <= e.maxDepth
    decreases Room(e, depth), 2, trees
  {
    trees == [] ||
    (var head := MembersOf(e, trees[0], path, t, depth);
     && TreeGuarded(e, trees[0], path, t, depth)
     && (head.res.Got? ==> ForestGuarded(e, trees[1..], path, head.st, depth)))
  }

  ghost predicate SetsGuarded(e: Env, sets: seq<Node>, path: set<string>, t: Tally, depth: nat)
    requires depth <= e.maxDepth
    decreases Room(e, depth), 1, |sets|
  {
    sets == [] ||
    (var head := Resolve(e, sets[0], path, t, depth + 1);
     && ResolveGuarded(e, sets[0], path, t, depth + 1)
     && (head.res.Got? ==> SetsGuarded(e, sets[1..], path, head.st, depth)))
  }

  /** A resolution without cuts whose subtractions are exact is guarded. */
  lemma {:induction false} UncutResolve(e: Env, n: Node, path: set<string>, t: Tally, depth: nat)
    ensures var r := Resolve(e, n, path, t, depth);
            && t.cuts <= r.st.cuts
            && (r.st.cuts == t.cuts && ResolveFair(e, n, path, t, depth) ==> ResolveGuarded(e, n, path, t, depth))
    decreases Room(e, depth), 3
  {
    if depth > e.maxDepth || VisitKey(n) in path {
    } else {
      UncutNode(e, n, 0, {}, t.(count := 0), depth);
      var x := Expand(e, n, 0, {}, t.(count := 0), depth);
      if x.res.Got? { UncutTree(e, x.res.value, path + {VisitKey(n)}, x.st.(count := t.count), depth); }
    }
  }

  lemma {:induction false} UncutTree(e: Env, tree: Tree, path: set<string>, t: Tally, depth: nat)
    requires depth <= e.maxDepth
    ensures var r := MembersOf(e, tree, path, t, depth);
            && t.cuts <= r.st.cuts
            && (r.st.cuts == t.cuts && TreeFair(e, tree, path, t, depth) ==> TreeGuarded(e, tree, path, t, depth))
    decreases Room(e, depth), 2, tree
  {
    if tree.union != [] {
      UncutForest(e, tree.union, true, path, t, depth);
    } else if tree.intersection != [] {
      UncutForest(e, tree.intersection, false, path, t, depth);
    } else if tree.exclude.Some? {
      UncutTree(e, tree.exclude.value.included, path, t, depth);
      var inc := MembersOf(e, tree.exclude.value.included, path, t, depth);
      if inc.res.Got? { UncutTree(e, tree.exclude.value.excluded, path, inc.st, depth); }
    } else {
      UncutSets(e, tree.sets, path, t, depth);
    }
  }

  lemma {:induction false} UncutForest(
      e: Env, trees: seq<Tree>, any: bool, path: set<string>, t: Tally, depth: nat)
    requires depth <= e.maxDepth
    ensures var r := MembersOfAll(e, trees, any, path, t, depth);
            && t.cuts <= r.st.cuts
            && (r.st.cuts == t.cuts && ForestFair(e, trees, path, t, depth) ==>
                  ForestGuarded(e, trees, path, t, depth))
    decreases Room(e, depth), 2, trees
  {
    if trees != [] {
      UncutTree(e, trees[0], path, t, depth);
      var head := MembersOf(e, trees[0], path, t, depth);
      if head.res.Got? { UncutForest(e, trees[1..], any, path, head.st, depth); }
    }
  }

  lemma {:induction false} UncutSets(e: Env, sets: seq<Node>, path: set<string>, t: Tally, depth: nat)
    requires depth <= e.maxDepth
    ensures var r := ResolveAll(e, sets, path, t, depth);
            && t.cuts <= r.st.cuts
            && (r.st.cuts == t.cuts && SetsFair(e, sets, path, t, depth) ==> SetsGuarded(e, sets, path, t, depth))
    decreases Room(e, depth), 1, |sets|
  {
    if sets != [] {
      UncutResolve(e, sets[0], path, t, depth + 1);
      var head := Resolve(e, sets[0], path, t, depth + 1);
      if head.res.Got? { UncutSets(e, sets[1..], path, head.st, depth); }
    }
  }

  // ---- resolution against solutions (exactly, or where guarded) and closed sets (from below) ----

  /** What a reading asks of the resolution it reads. */
  ghost predicate NodeReadable(how: Reading, e: Env, n: Node, path: set<string>, t: Tally, depth: nat) {
    match how
    case Exactly => ResolveFair(e, n, path, t, depth)
    case FromBelow => PlainEnv(false, e)
    case WhereGuarded => ResolveGuarded(e, n, path, t, depth)
  }

  ghost predicate TreeReadable(how: Reading, e: Env, tree: Tree, path: set<string>, t: Tally, depth: nat)
    requires depth <= e.maxDepth
  {
    match how
    case Exactly => TreeFair(e, tree, path, t, depth)
    case FromBelow => PlainEnv(false, e) && PlainTree(false, tree)
    case WhereGuarded => TreeGuarded(e, tree, path, t, depth)
  }

  ghost predicate ForestReadable(how: Reading, e: Env, trees: seq<Tree>, path: set<string>, t: Tally, depth: nat)
    requires depth <= e.maxDepth
  {
    match how
    case Exactly => ForestFair(e, trees, path, t, depth)
    case FromBelow => PlainEnv(false, e) && forall c | c in trees :: PlainTree(false, c)
    case WhereGuarded => ForestGuarded(e, trees, path, t, depth)
  }

  ghost predicate SetsReadable(how: Reading, e: Env, sets: seq<Node>, path: set<string>, t: Tally, depth: nat)
    requires depth <= e.maxDepth
  {
    match how
    case Exactly => SetsFair(e, sets, path, t, depth)
    case FromBelow => PlainEnv(false, e)
    case WhereGuarded => SetsGuarded(e, sets, path, t, depth)
  }

  lemma {:induction false} ResolveMeaning(
      how: Reading, e: Env, u: string, lo: iset<Node>, hi: iset<Node>, n: Node, path: set<string>, t: Tally, depth: nat)
    requires ReadAgainst(how, e, u, lo, hi) && NodeReadable(how, e, n, path, t, depth)
    ensures var r := Resolve(e, n, path, t, depth);
            r.res.Got? ==> Agree(how, t, r.st, In(r.res.value, u), n in lo)
    decreases Room(e, depth), 3
  {
    if depth > e.maxDepth || VisitKey(n) in path {
    } else {
      var t1 := t.(count := 0);
      NodeMeaning(how, e, u, lo, hi, n, 0, {}, t1, depth);
      if how.FromBelow? { NodePlain(false, e, n, 0, {}, t1, depth); }
      var x := Expand(e, n, 0, {}, t1, depth);
      if x.res.Got? {
        TreeMembersMeaning(how, e, u, lo, hi, x.res.value, path + {VisitKey(n)}, x.st.(count := t.count), depth);
      }
    }
  }

  lemma {:induction false} TreeMembersMeaning(
      how: Reading, e: Env, u: string, lo: iset<Node>, hi: iset<Node>, tree: Tree,
      path: set<string>, t: Tally, depth: nat)
    requires depth <= e.maxDepth && ReadAgainst(how, e, u, lo, hi)
    requires TreeReadable(how, e, tree, path, t, depth)
    ensures var r := MembersOf(e, tree, path, t, depth);
            r.res.Got? ==> Agree(how, t, r.st, In(r.res.value, u), Denotes(tree, u, lo, hi))
    decreases Room(e, depth), 2, tree
  {
    if tree.union != [] {
      ForestMembersMeaning(how, e, u, lo, hi, tree.union, true, path, t, depth);
    } else if tree.intersection != [] {
      ForestMembersMeaning(how, e, u, lo, hi, tree.intersection, false, path, t, depth);
    } else if tree.exclude.Some? {
      var inc := MembersOf(e, tree.exclude.value.included, path, t, depth);
      TreeMembersMeaning(how, e, u, lo, hi, tree.exclude.value.included, path, t, depth);
      if inc.res.Got? {
        var exc := MembersOf(e, tree.exclude.value.excluded, path, inc.st, depth);
        UncutTree(e, tree.exclude.value.excluded, path, inc.st, depth);
        if exc.res.Got? && (how.Exactly? || Subtract(inc.res.value, exc.res.value) != Nobody) {
          TreeMembersMeaning(Exactly, e, u, hi, lo, tree.exclude.value.excluded, path, inc.st, depth);
          SubtractIsExactIff(inc.res.value, exc.res.value);
        }
      }
    } else {
      SetsMembersMeaning(how, e, u, lo, hi, tree.sets, path, t, depth);
    }
  }

  ghost predicate ForestDenotes(trees: seq<Tree>, any: bool, u: string, lo: iset<Node>, hi: iset<Node>) {
    if any then exists c | c in trees :: Denotes(c, u, lo, hi) else forall c | c in trees :: Denotes(c, u, lo, hi)
  }

  lemma {:induction false} ForestMembersMeaning(
      how: Reading, e: Env, u: string, lo: iset<Node>, hi: iset<Node>, trees: seq<Tree>, any: bool,
      path: set<string>, t: Tally, depth: nat)
    requires depth <= e.maxDepth && ReadAgainst(how, e, u, lo, hi) && ForestReadable(how, e, trees, path, t, depth)
    ensures var r := MembersOfAll(e, trees, any, path, t, depth);
            r.res.Got? ==> Agree(how, t, r.st, In(r.res.value, u), ForestDenotes(trees, any, u, lo, hi))
    decreases Room(e, depth), 2, trees
  {
    if trees != [] {
      assert trees == [trees[0]] + trees[1..];
      TreeMembersMeaning(how, e, u, lo, hi, trees[0], path, t, depth);
      var head := MembersOf(e, trees[0], path, t, depth);
      if head.res.Got? {
        ForestMembersMeaning(how, e, u, lo, hi, trees[1..], any, path, head.st, depth);
      }
    }
  }

  lemma {:induction false} SetsMembersMeaning(
      how: Reading, e: Env, u: string, lo: iset<Node>, hi: iset<Node>, sets: seq<Node>,
      path: set<string>, t: Tally, depth: nat)
    requires depth <= e.maxDepth && ReadAgainst(how, e, u, lo, hi) && SetsReadable(how, e, sets, path, t, depth)
    ensures var r := ResolveAll(e, sets, path, t, depth);
            r.res.Got? ==> Agree(how, t, r.st, In(r.res.value, u), exists s | s in sets :: s in lo)
    decreases Room(e, depth), 1, |sets|
  {
    if sets != [] {
      assert sets == [sets[0]] + sets[1..];
      ResolveMeaning(how, e, u, lo, hi, sets[0], path, t, depth + 1);
      var head := Resolve(e, sets[0], path, t, depth + 1);
      if head.res.Got? { SetsMembersMeaning(how, e, u, lo, hi, sets[1..], path, head.st, depth); }
    }
  }

  const NoTally := Tally(0, 0, 0)

  /**
   On every graph, cyclic or deep: without exclusions, each resolved user is in every set closed
   under the rules, hence in the least fixpoint; a public result means every user is.
   */
  lemma ResolveIsSound(e: Env, u: string, I: iset<Node>, n: Node)
    requires Named(e, u) && ExclusionFreeModel(e) && Closed(Stripped(e), u, I)
    ensures var r := Resolve(e, n, {}, NoTally, 0);
            r.res.Got? && In(r.res.value, u) ==> n in I
  {
    TreesIgnoreConditions(e, n, 0);
    StrippedIsUnconditional(e, u);
    ResolveMeaning(FromBelow, Stripped(e), u, I, I, n, {}, NoTally, 0);
  }

  /**
   With exclusions, on every graph: each resolved user is settled true, hence in every solution, where no cut
   fell under an exclude side and every subtraction met was exact. Conditions are forgotten throughout.
   */
  lemma GuardedResolutionIsSound(e: Env, u: string, n: Node)
    requires Named(e, u) && ResolveGuarded(Stripped(e), n, {}, NoTally, 0)
    ensures var r := Resolve(e, n, {}, NoTally, 0);
            r.res.Got? && In(r.res.value, u) ==> Is(Stripped(e), u, n, true)
  {
    var e1 := Stripped(e);
    TreesIgnoreConditions(e, n, 0);
    StrippedIsUnconditional(e, u);
    SettledNodesBalance(e1, u);
    ResolveMeaning(WhereGuarded, e1, u, TrueNodes(e1, u), OpenNodes(e1, u), n, {}, NoTally, 0);
  }

  /**
   Untruncated, and with every subtraction it met exact, resolution settles every user: its members true and all
   others false; so it is exact in every solution.
   */
  lemma FairResolutionIsExact(e: Env, u: string, n: Node)
    requires Named(e, u) && ResolveFair(Stripped(e), n, {}, NoTally, 0)
    ensures var r := Resolve(e, n, {}, NoTally, 0);
            r.res.Got? && r.st.cuts == 0 ==>
              && Is(Stripped(e), u, n, In(r.res.value, u))
              && forall I: iset<Node> | Solution(Stripped(e), u, I) :: In(r.res.value, u) <==> n in I
  {
    var e1 := Stripped(e);
    var lo, hi := TrueNodes(e1, u), OpenNodes(e1, u);
    TreesIgnoreConditions(e, n, 0);
    StrippedIsUnconditional(e, u);
    SettledNodesBalance(e1, u);
    ResolveMeaning(Exactly, e1, u, lo, hi, n, {}, NoTally, 0);
    ResolveMeaning(Exactly, e1, u, hi, lo, n, {}, NoTally, 0);
    forall I: iset<Node> | Solution(e1, u, I) { ResolveMeaning(Exactly, e1, u, I, I, n, {}, NoTally, 0); }
  }

  // ---- plain stores and models subtract exactly ----

  lemma {:induction false} PlainNodeFair(w: bool, e: Env, n: Node, path: set<string>, t: Tally, depth: nat)
    requires PlainEnv(w, e)
    ensures var r := Resolve(e, n, path, t, depth);
            ResolveFair(e, n, path, t, depth) && (w && r.res.Got? ==> !r.res.value.everyone)
    decreases Room(e, depth), 3
  {
    if depth > e.maxDepth || VisitKey(n) in path {
    } else {
      var t1 := t.(count := 0);
      NodePlain(w, e, n, 0, {}, t1, depth);
      var x := Expand(e, n, 0, {}, t1, depth);
      if x.res.Got? { PlainTreeFair(w, e, x.res.value, path + {VisitKey(n)}, x.st.(count := t.count), depth); }
    }
  }

  lemma {:induction false} PlainTreeFair(w: bool, e: Env, tree: Tree, path: set<string>, t: Tally, depth: nat)
    requires depth <= e.maxDepth && PlainEnv(w, e) && PlainTree(w, tree)
    ensures var r := MembersOf(e, tree, path, t, depth);
            TreeFair(e, tree, path, t, depth) && (w && r.res.Got? ==> !r.res.value.everyone)
    decreases Room(e, depth), 2, tree
  {
    if tree.union != [] {
      PlainForestFair(w, e, tree.union, true, path, t, depth);
    } else if tree.intersection != [] {
      PlainForestFair(w, e, tree.intersection, false, path, t, depth);
    } else if tree.exclude.Some? {
      PlainTreeFair(w, e, tree.exclude.value.included, path, t, depth);
      var inc := MembersOf(e, tree.exclude.value.included, path, t, depth);
      if inc.res.Got? { PlainTreeFair(w, e, tree.exclude.value.excluded, path, inc.st, depth); }
    } else {
      PlainSetsFair(w, e, tree.sets, path, t, depth);
    }
  }

  lemma {:induction false} PlainForestFair(
      w: bool, e: Env, trees: seq<Tree>, any: bool, path: set<string>, t: Tally, depth: nat)
    requires depth <= e.maxDepth && PlainEnv(w, e) && forall c | c in trees :: PlainTree(w, c)
    ensures var r := MembersOfAll(e, trees, any, path, t, depth);
            && ForestFair(e, trees, path, t, depth)
            && (w && r.res.Got? && (any || trees != []) ==> !r.res.value.everyone)
    decreases Room(e, depth), 2, trees
  {
    if trees != [] {
      PlainTreeFair(w, e, trees[0], path, t, depth);
      var head := MembersOf(e, trees[0], path, t, depth);
      if head.res.Got? { PlainForestFair(w, e, trees[1..], any, path, head.st, depth); }
    }
  }

  lemma {:induction false} PlainSetsFair(w: bool, e: Env, sets: seq<Node>, path: set<string>, t: Tally, depth: nat)
    requires depth <= e.maxDepth && PlainEnv(w, e)
    ensures var r := ResolveAll(e, sets, path, t, depth);
            SetsFair(e, sets, path, t, depth) && (w && r.res.Got? ==> !r.res.value.everyone)
    decreases Room(e, depth), 1, |sets|
  {
    if sets != [] {
      PlainNodeFair(w, e, sets[0], path, t, depth + 1);
      var head := Resolve(e, sets[0], path, t, depth + 1);
      if head.res.Got? { PlainSetsFair(w, e, sets[1..], path, head.st, depth); }
    }
  }

  /** In particular without both exclusions and public grants. */
  lemma ResolveIsExact(e: Env, u: string, n: Node, wildcardFree: bool)
    requires Named(e, u) && PlainEnv(wildcardFree, Stripped(e))
    ensures var r := Resolve(e, n, {}, NoTally, 0);
            r.res.Got? && r.st.cuts == 0 ==>
              && Is(Stripped(e), u, n, In(r.res.value, u))
              && forall I: iset<Node> | Solution(Stripped(e), u, I) :: In(r.res.value, u) <==> n in I
  {
    PlainNodeFair(wildcardFree, Stripped(e), n, {}, NoTally, 0);
    FairResolutionIsExact(e, u, n);
  }
}
