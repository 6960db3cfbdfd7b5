/**
 Two stores that list the same grants, conditions aside, expand and resolve alike: Expand and member resolution
 never look at a condition (pkg/authz/expand.go, pkg/authz/checkset.go).
 */
module SameTree {
  import opened AuthzModel
  import opened VisitKeys
  import opened Evaluator
  import opened Expansion
  import opened Members

  /** The same users, usersets and public grants in the same order, whatever their conditions. */
  predicate SameGrants(xs: seq<Subject>, ys: seq<Subject>) {
    |xs| == |ys| && forall i | 0 <= i < |xs| :: xs[i] == ys[i].(condition := xs[i].condition)
  }

  /** Everything the rewrite lists on node `n` is granted alike in both stores. */
  predicate ListsAgree(a: Env, b: Env, n: Node, rw: Rewrite)
    decreases rw
  {
    match FormOf(rw)
    case This => SameGrants(Subjects(a, n), Subjects(b, n))
    case AnyOf(children) => forall c | c in children :: ListsAgree(a, b, n, c)
    case AllOf(children) => forall c | c in children :: ListsAgree(a, b, n, c)
    case Except(included, excluded) => ListsAgree(a, b, n, included) && ListsAgree(a, b, n, excluded)
    case Computed(_) => true
    case Via(tupleset, _) =>
      SameGrants(Subjects(a, Node(n.ns, n.obj, tupleset)), Subjects(b, Node(n.ns, n.obj, tupleset)))
  }

  ghost predicate StoresListAlike(a: Env, b: Env) {
    && a.model == b.model && a.maxDepth == b.maxDepth && a.maxReads == b.maxReads
    && forall n: Node :: ListsAgree(a, b, n, RewriteOf(a.model, n))
  }

  lemma {:induction false} SameLeaf(n: Node, xs: seq<Subject>, ys: seq<Subject>)
    requires SameGrants(xs, ys)
    ensures Leaf(n, xs) == Leaf(n, ys)
    decreases |xs|
  {
    if xs != [] {
      SameLeaf(n, xs[1..], ys[1..]);
      assert xs == [xs[0]] + xs[1..] && ys == [ys[0]] + ys[1..];
    }
  }

  // ---- the same expansion ----

  lemma {:induction false} SameExpand(
      a: Env, b: Env, n: Node, max: int, path: set<string>, t: Tally, depth: nat)
    requires StoresListAlike(a, b)
    ensures Expand(a, n, max, path, t, depth) == Expand(b, n, max, path, t, depth)
    decreases Room(a, depth), 3
  {
    if depth > a.maxDepth || VisitKey(n) in path {
    } else {
      SameExpandRewrite(a, b, n, RewriteOf(a.model, n), max, path + {VisitKey(n)}, t, depth);
    }
  }

  lemma {:induction false} SameExpandRewrite(
      a: Env, b: Env, n: Node, rw: Rewrite, max: int, path: set<string>, t: Tally, depth: nat)
    requires StoresListAlike(a, b) && ListsAgree(a, b, n, rw) && depth <= a.maxDepth
    ensures ExpandRewrite(a, n, rw, max, path, t, depth) == ExpandRewrite(b, n, rw, max, path, t, depth)
    decreases Room(a, depth), 2, rw
  {
    var t1 := t.(count := t.count + 1);
    match FormOf(rw)
    case This => SameLeaf(n, Subjects(a, n), Subjects(b, n));
    case AnyOf(children) => SameExpandList(a, b, n, children, max, path, t1, depth);
    case AllOf(children) => SameExpandList(a, b, n, children, max, path, t1, depth);
    case Except(included, excluded) =>
      SameExpandRewrite(a, b, n, included, max, path, t1, depth);
      SameExpandRewrite(a, b, n, excluded, max, path, ExpandRewrite(a, n, included, max, path, t1, depth).st, depth);
    case Computed(rel) => SameExpand(a, b, Node(n.ns, n.obj, rel), max, path, t1, depth + 1);
    case Via(tupleset, rel) =>
      var t2 := t1.(readCount := t1.readCount + 1);
      var pointers := Node(n.ns, n.obj, tupleset);
      SameExpandPointers(a, b, rel, Subjects(a, pointers), Subjects(b, pointers), max, path, t2, depth);
  }

  lemma {:induction false} SameExpandList(
      a: Env, b: Env, n: Node, children: seq<Rewrite>, max: int, path: set<string>, t: Tally, depth: nat)
    requires StoresListAlike(a, b) && depth <= a.maxDepth && forall c | c in children :: ListsAgree(a, b, n, c)
    ensures ExpandList(a, n, children, max, path, t, depth) == ExpandList(b, n, children, max, path, t, depth)
    decreases Room(a, depth), 2, children
  {
    if children != [] {
      SameExpandRewrite(a, b, n, children[0], max, path, t, depth);
      SameExpandList(a, b, n, children[1..], max, path, ExpandRewrite(a, n, children[0], max, path, t, depth).st,
          depth);
    }
  }

  lemma {:induction false} SameExpandPointers(
      a: Env, b: Env, rel: string, xs: seq<Subject>, ys: seq<Subject>,
      max: int, path: set<string>, t: Tally, depth: nat)
    requires StoresListAlike(a, b) && depth <= a.maxDepth && SameGrants(xs, ys)
    ensures ExpandPointers(a, rel, xs, max, path, t, depth) == ExpandPointers(b, rel, ys, max, path, t, depth)
    decreases Room(a, depth), 1, |xs|
  {
    if xs != [] {
      var x := xs[0].userset;
      if x.None? {
        SameExpandPointers(a, b, rel, xs[1..], ys[1..], max, path, t, depth);
      } else {
        var m := Node(x.value.ns, x.value.obj, rel);
        SameExpand(a, b, m, max, path, t, depth + 1);
        SameExpandPointers(a, b, rel, xs[1..], ys[1..], max, path, Expand(a, m, max, path, t, depth + 1).st, depth);
      }
    }
  }

  // ---- the same resolution ----

  lemma {:induction false} SameResolve(a: Env, b: Env, n: Node, path: set<string>, t: Tally, depth: nat)
    requires StoresListAlike(a, b)
    ensures Resolve(a, n, path, t, depth) == Resolve(b, n, path, t, depth)
    decreases Room(a, depth), 3
  {
    if depth > a.maxDepth || VisitKey(n) in path {
    } else {
      SameExpand(a, b, n, 0, {}, t.(count := 0), depth);
      var x := Expand(a, n, 0, {}, t.(count := 0), depth);
      if x.res.Got? { SameMembers(a, b, x.res.value, path + {VisitKey(n)}, x.st.(count := t.count), depth); }
    }
  }

  lemma {:induction false} SameMembers(a: Env, b: Env, tree: Tree, path: set<string>, t: Tally, depth: nat)
    requires StoresListAlike(a, b) && depth <= a.maxDepth
    ensures MembersOf(a, tree, path, t, depth) == MembersOf(b, tree, path, t, depth)
    decreases Room(a, depth), 2, tree
  {
    if tree.union != [] {
      SameForest(a, b, tree.union, true, path, t, depth);
    } else if tree.intersection != [] {
      SameForest(a, b, tree.intersection, false, path, t, depth);
    } else if tree.exclude.Some? {
      SameMembers(a, b, tree.exclude.value.included, path, t, depth);
      SameMembers(a, b, tree.exclude.value.excluded, path,
          MembersOf(a, tree.exclude.value.included, path, t, depth).st, depth);
    } else {
      SameSets(a, b, tree.sets, path, t, depth);
    }
  }

  lemma {:induction false} SameForest(
      a: Env, b: Env, trees: seq<Tree>, any: bool, path: set<string>, t: Tally, depth: nat)
    requires StoresListAlike(a, b) && depth <= a.maxDepth
    ensures MembersOfAll(a, trees, any, path, t, depth) == MembersOfAll(b, trees, any, path, t, depth)
    decreases Room(a, depth), 2, trees
  {
    if trees != [] {
      SameMembers(a, b, trees[0], path, t, depth);
      SameForest(a, b, trees[1..], any, path, MembersOf(a, trees[0], path, t, depth).st, depth);
    }
  }

  lemma {:induction false} SameSets(a: Env, b: Env, sets: seq<Node>, path: set<string>, t: Tally, depth: nat)
    requires StoresListAlike(a, b) && depth <= a.maxDepth
    ensures ResolveAll(a, sets, path, t, depth) == ResolveAll(b, sets, path, t, depth)
    decreases Room(a, depth), 1, |sets|
  {
    if sets != [] {
      SameResolve(a, b, sets[0], path, t, depth + 1);
      SameSets(a, b, sets[1..], path, Resolve(a, sets[0], path, t, depth + 1).st, depth);
    }
  }
}
