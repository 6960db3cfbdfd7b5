/**
 Expand: the userset tree of a relation (pkg/authz/expand.go), as a function from tallies to
 tallies and as the imperative walk that performs it.
 */
module Expansion {
  import opened AuthzModel
  import opened VisitKeys
  import opened Evaluator
  import opened Engine

  datatype ExcludeTree = ExcludeTree(included: Tree, excluded: Tree)

  /** An expanded userset: a union, intersection or exclusion of subtrees, or a leaf. */
  datatype Tree = Tree(
    expanded: Node,
    union: seq<Tree>,
    intersection: seq<Tree>,
    exclude: Option<ExcludeTree>,
    users: seq<string>,
    sets: seq<Node>,
    wildcard: bool)

  /** Charged nodes, charged reads, and the truncations met (the recorded backstops). */
  datatype Tally = Tally(count: nat, readCount: nat, cuts: nat)

  datatype Got<+T> = Got(value: T) | TooLarge | OutOfReads

  datatype Run<+T> = Run(st: Tally, res: Got<T>)

  function Bare(n: Node): Tree {
    Tree(n, [], [], None, [], [], false)
  }

  function LeafUsers(subjects: seq<Subject>): seq<string> {
    if subjects == [] then []
    else
      var s := subjects[0];
      (if !s.wildcard && s.userset.None? then [s.userID] else []) + LeafUsers(subjects[1..])
  }

  function LeafSets(subjects: seq<Subject>): seq<Node> {
    if subjects == [] then []
    else
      var s := subjects[0];
      (if !s.wildcard && s.userset.Some? then [s.userset.value] else []) + LeafSets(subjects[1..])
  }

  predicate LeafWildcard(subjects: seq<Subject>) {
    exists s | s in subjects :: s.wildcard
  }

  function Leaf(n: Node, subjects: seq<Subject>): Tree {
    Tree(n, [], [], None, LeafUsers(subjects), LeafSets(subjects), LeafWildcard(subjects))
  }

  /** A positive cap bounds the charged nodes; a non-positive one does not. */
  predicate OverCap(max: int, count: nat) {
    max > 0 && count > max
  }

  predicate OverReads(e: Env, t: Tally) {
    e.maxReads > 0 && t.readCount > e.maxReads
  }

  function Expand(e: Env, n: Node, max: int, path: set<string>, t: Tally, depth: nat): Run<Tree>
    decreases Room(e, depth), 3
  {
    if depth > e.maxDepth || VisitKey(n) in path then Run(t.(cuts := t.cuts + 1), Got(Bare(n)))
    else ExpandRewrite(e, n, RewriteOf(e.model, n), max, path + {VisitKey(n)}, t, depth)
  }

  function ExpandRewrite(
      e: Env, n: Node, rw: Rewrite, max: int, path: set<string>, t: Tally, depth: nat): Run<Tree>
    requires depth <= e.maxDepth
    decreases Room(e, depth), 2, rw
  {
    var t1 := t.(count := t.count + 1);
    if OverCap(max, t1.count) then Run(t1, TooLarge)
    else
      match FormOf(rw)
      case This =>
        var t2 := t1.(readCount := t1.readCount + 1);
        var subjects := Subjects(e, n);
        if OverReads(e, t2) then Run(t2, OutOfReads)
        else
          var t3 := t2.(count := t2.count + |subjects|);
          if OverCap(max, t3.count) then Run(t3, TooLarge) else Run(t3, Got(Leaf(n, subjects)))
      case AnyOf(children) =>
        var f := ExpandList(e, n, children, max, path, t1, depth);
        if f.res.Got? then Run(f.st, Got(Bare(n).(union := f.res.value))) else Fail(f)
      case AllOf(children) =>
        var f := ExpandList(e, n, children, max, path, t1, depth);
        if f.res.Got? then Run(f.st, Got(Bare(n).(intersection := f.res.value))) else Fail(f)
      case Except(included, excluded) =>
        var inc := ExpandRewrite(e, n, included, max, path, t1, depth);
        if !inc.res.Got? then inc
        else
          var exc := ExpandRewrite(e, n, excluded, max, path, inc.st, depth);
          if !exc.res.Got? then exc
          else Run(exc.st, Got(Bare(n).(exclude := Some(ExcludeTree(inc.res.value, exc.res.value)))))
      case Computed(rel) => Expand(e, Node(n.ns, n.obj, rel), max, path, t1, depth + 1)
      case Via(tupleset, rel) =>
        var t2 := t1.(readCount := t1.readCount + 1);
        if OverReads(e, t2) then Run(t2, OutOfReads)
        else
          var f := ExpandPointers(e, rel, Subjects(e, Node(n.ns, n.obj, tupleset)), max, path, t2, depth);
          if f.res.Got? then Run(f.st, Got(Bare(n).(union := f.res.value))) else Fail(f)
  }

  /** A failed run, at another result type. */
  function Fail<T, U>(r: Run<T>): Run<U>
    requires !r.res.Got?
  {
    Run(r.st, if r.res.TooLarge? then TooLarge else OutOfReads)
  }

  function ExpandList(
      e: Env, n: Node, children: seq<Rewrite>, max: int, path: set<string>, t: Tally, depth: nat): Run<seq<Tree>>
    requires depth <= e.maxDepth
    decreases Room(e, depth), 2, children
  {
    if children == [] then Run(t, Got([]))
    else
      var head := ExpandRewrite(e, n, children[0], max, path, t, depth);
      if !head.res.Got? then Fail(head)
      else
        var rest := ExpandList(e, n, children[1..], max, path, head.st, depth);
        if !rest.res.Got? then rest else Run(rest.st, Got([head.res.value] + rest.res.value))
  }

  /** Expands `rel` on every object a stored pointer names. */
  function ExpandPointers(
      e: Env, rel: string, subjects: seq<Subject>, max: int, path: set<string>, t: Tally, depth: nat): Run<seq<Tree>>
    requires depth <= e.maxDepth
    decreases Room(e, depth), 1, |subjects|
  {
    if subjects == [] then Run(t, Got([]))
    else if subjects[0].userset.None? then ExpandPointers(e, rel, subjects[1..], max, path, t, depth)
    else
      var s := subjects[0].userset.value;
      var head := Expand(e, Node(s.ns, s.obj, rel), max, path, t, depth + 1);
      if !head.res.Got? then Fail(head)
      else
        var rest := ExpandPointers(e, rel, subjects[1..], max, path, head.st, depth);
        if !rest.res.Got? then rest else Run(rest.st, Got([head.res.value] + rest.res.value))
  }

  /** A whole Expand request. */
  function TopExpand(e: Env, n: Node, max: int): Run<Tree> {
    Expand(e, n, max, {}, Tally(0, 0, 0), 0)
  }

  // ---- the imperative walk ----

  /** The node counter, cycle guard and backstop record one expansion shares. */
  class ExpandState {
    var count: nat
    var visited: set<string>
    var backstops: nat

    constructor ()
      ensures count == 0 && visited == {} && backstops == 0
    {
      count, visited, backstops := 0, {}, 0;
    }

    method Bump(max: int, n: nat) returns (ok: bool)
      modifies this`count
      ensures count == old(count) + n
      ensures ok <==> !OverCap(max, count)
    {
      count := count + n;
      ok := !(max > 0 && count > max);
    }
  }

  ghost function TallyOf(x: ExpandState, st: EvalState): Tally
    reads x, st
  {
    Tally(x.count, st.readCount, x.backstops)
  }

  method ExpandNode(e: Env, n: Node, max: int, x: ExpandState, st: EvalState, depth: nat) returns (r: Got<Tree>)
    requires st.maxReads == e.maxReads
    modifies x, st`readCount, st`listings
    ensures Run(TallyOf(x, st), r) == Expand(e, n, max, old(x.visited), old(TallyOf(x, st)), depth)
    ensures x.visited == old(x.visited)
    ensures st.Owed() == old(st.Owed()) + if r.OutOfReads? then 1 else 0
    decreases Room(e, depth), 3
  {
    if depth > e.maxDepth {
      x.backstops := x.backstops + 1;
      return Got(Bare(n));
    }
    var key := VisitKey(n);
    if key in x.visited {
      x.backstops := x.backstops + 1;
      return Got(Bare(n));
    }
    x.visited := x.visited + {key};
    r := ExpandRule(e, n, RewriteOf(e.model, n), max, x, st, depth);
    x.visited := x.visited - {key};
  }

  method ExpandRule(
      e: Env, n: Node, rw: Rewrite, max: int, x: ExpandState, st: EvalState, depth: nat) returns (r: Got<Tree>)
    requires st.maxReads == e.maxReads && depth <= e.maxDepth
    modifies x, st`readCount, st`listings
    ensures Run(TallyOf(x, st), r) == ExpandRewrite(e, n, rw, max, old(x.visited), old(TallyOf(x, st)), depth)
    ensures x.visited == old(x.visited)
    ensures st.Owed() == old(st.Owed()) + if r.OutOfReads? then 1 else 0
    decreases Room(e, depth), 2, rw
  {
    var ok := x.Bump(max, 1);
    if !ok { return TooLarge; }
    if IsThis(rw) {
      r := ExpandStored(e, n, max, x, st);
    } else if |rw.union| > 0 {
      var f := ExpandChildren(e, n, rw.union, max, x, st, depth);
      r := match f
        case Got(trees) => Got(Bare(n).(union := trees))
        case TooLarge => TooLarge
        case OutOfReads => OutOfReads;
    } else if |rw.intersection| > 0 {
      var f := ExpandChildren(e, n, rw.intersection, max, x, st, depth);
      r := match f
        case Got(trees) => Got(Bare(n).(intersection := trees))
        case TooLarge => TooLarge
        case OutOfReads => OutOfReads;
    } else if rw.exclusion.Some? {
      var inc := ExpandRule(e, n, rw.exclusion.value.included, max, x, st, depth);
      if !inc.Got? { return inc; }
      var exc := ExpandRule(e, n, rw.exclusion.value.excluded, max, x, st, depth);
      if !exc.Got? { return exc; }
      r := Got(Bare(n).(exclude := Some(ExcludeTree(inc.value, exc.value))));
    } else if rw.computed != "" {
      r := ExpandNode(e, Node(n.ns, n.obj, rw.computed), max, x, st, depth + 1);
    } else {
      ok := st.ChargeRead();
      if !ok { return OutOfReads; }
      var subjects := st.List(e, Node(n.ns, n.obj, rw.tuplesetRelation));
      var f := ExpandTargets(e, rw.computedRelation, subjects, max, x, st, depth);
      r := match f
        case Got(trees) => Got(Bare(n).(union := trees))
        case TooLarge => TooLarge
        case OutOfReads => OutOfReads;
    }
  }

  /** The leaf of a node's stored subjects: one read, and one node charged for each. */
  method ExpandStored(e: Env, n: Node, max: int, x: ExpandState, st: EvalState) returns (r: Got<Tree>)
    requires st.maxReads == e.maxReads
    modifies x`count, st`readCount, st`listings
    ensures var t := old(TallyOf(x, st)).(readCount := old(st.readCount) + 1);
            var full := t.(count := t.count + |Subjects(e, n)|);
            Run(TallyOf(x, st), r) ==
              if OverReads(e, t) then Run(t, OutOfReads)
              else if OverCap(max, full.count) then Run(full, TooLarge)
              else Run(full, Got(Leaf(n, Subjects(e, n))))
    ensures st.Owed() == old(st.Owed()) + if r.OutOfReads? then 1 else 0
  {
    var ok := st.ChargeRead();
    if !ok { return OutOfReads; }
    var subjects := st.List(e, n);
    ok := x.Bump(max, |subjects|);
    if !ok { return TooLarge; }
    var leaf := CollectLeaf(n, subjects);
    r := Got(leaf);
  }

  /** What the subjects from position `i` on contribute to a leaf, one more at a time. */
  lemma LeafNext(subjects: seq<Subject>, i: nat, users: seq<string>, sets: seq<Node>)
    requires i < |subjects|
    ensures var s := subjects[i];
            && users + LeafUsers(subjects[i..])
            == (if !s.wildcard && s.userset.None? then users + [s.userID] else users) + LeafUsers(subjects[i + 1..])
            && sets + LeafSets(subjects[i..])
            == (if !s.wildcard && s.userset.Some? then sets + [s.userset.value] else sets) + LeafSets(subjects[i + 1..])
  {
    assert subjects[i..][0] == subjects[i] && subjects[i..][1..] == subjects[i + 1..];
  }

  method CollectLeaf(n: Node, subjects: seq<Subject>) returns (leaf: Tree)
    ensures leaf == Leaf(n, subjects)
  {
    var users, sets, wildcard := [], [], false;
    var i := 0;
    while i < |subjects|
      invariant 0 <= i <= |subjects|
      invariant wildcard <==> exists k | 0 <= k < i :: subjects[k].wildcard
      invariant users + LeafUsers(subjects[i..]) == LeafUsers(subjects)
      invariant sets + LeafSets(subjects[i..]) == LeafSets(subjects)
    {
      LeafNext(subjects, i, users, sets);
      var s := subjects[i];
      if s.wildcard {
        wildcard := true;
      } else if s.userset.None? {
        users := users + [s.userID];
      } else {
        sets := sets + [s.userset.value];
      }
      i := i + 1;
    }
    leaf := Bare(n).(users := users, sets := sets, wildcard := wildcard);
  }

  /** Trees already collected, put in front of what the rest of the loop yields. */
  ghost function After(out: seq<Tree>, r: Run<seq<Tree>>): Run<seq<Tree>> {
    if r.res.Got? then Run(r.st, Got(out + r.res.value)) else r
  }

  lemma AfterNothing(r: Run<seq<Tree>>)
    ensures After([], r) == r
  {
    if r.res.Got? { assert [] + r.res.value == r.res.value; }
  }

  lemma AfterOneMore(out: seq<Tree>, tree: Tree, r: Run<seq<Tree>>)
    ensures After(out, After([tree], r)) == After(out + [tree], r)
  {
    if r.res.Got? { assert out + ([tree] + r.res.value) == out + [tree] + r.res.value; }
  }

  method ExpandChildren(
      e: Env, n: Node, children: seq<Rewrite>, max: int, x: ExpandState, st: EvalState, depth: nat)
      returns (r: Got<seq<Tree>>)
    requires st.maxReads == e.maxReads && depth <= e.maxDepth
    modifies x, st`readCount, st`listings
    ensures Run(TallyOf(x, st), r) == ExpandList(e, n, children, max, old(x.visited), old(TallyOf(x, st)), depth)
    ensures x.visited == old(x.visited)
    ensures st.Owed() == old(st.Owed()) + if r.OutOfReads? then 1 else 0
    decreases Room(e, depth), 2, children
  {
    ghost var path, t := x.visited, TallyOf(x, st);
    var out := [];
    var i := 0;
    AfterNothing(ExpandList(e, n, children, max, path, t, depth));
    while i < |children|
      invariant 0 <= i <= |children| && x.visited == path && st.Owed() == old(st.Owed())
      invariant ExpandList(e, n, children, max, path, t, depth)
             == After(out, ExpandList(e, n, children[i..], max, path, TallyOf(x, st), depth))
    {
      assert children[i..][1..] == children[i + 1..];
      var sub := ExpandRule(e, n, children[i], max, x, st, depth);
      if sub.TooLarge? { return TooLarge; }
      if sub.OutOfReads? { return OutOfReads; }
      AfterOneMore(out, sub.value, ExpandList(e, n, children[i + 1..], max, path, TallyOf(x, st), depth));
      out := out + [sub.value];
      i := i + 1;
    }
    assert out + [] == out;
    r := Got(out);
  }

  method ExpandTargets(
      e: Env, rel: string, subjects: seq<Subject>, max: int, x: ExpandState, st: EvalState, depth: nat)
      returns (r: Got<seq<Tree>>)
    requires st.maxReads == e.maxReads && depth <= e.maxDepth
    modifies x, st`readCount, st`listings
    ensures Run(TallyOf(x, st), r) == ExpandPointers(e, rel, subjects, max, old(x.visited), old(TallyOf(x, st)), depth)
    ensures x.visited == old(x.visited)
    ensures st.Owed() == old(st.Owed()) + if r.OutOfReads? then 1 else 0
    decreases Room(e, depth), 1
  {
    ghost var path, t := x.visited, TallyOf(x, st);
    var out := [];
    var i := 0;
    AfterNothing(ExpandPointers(e, rel, subjects, max, path, t, depth));
    while i < |subjects|
      invariant 0 <= i <= |subjects| && x.visited == path && st.Owed() == old(st.Owed())
      invariant ExpandPointers(e, rel, subjects, max, path, t, depth)
             == After(out, ExpandPointers(e, rel, subjects[i..], max, path, TallyOf(x, st), depth))
    {
      assert subjects[i..][1..] == subjects[i + 1..];
      var s := subjects[i];
      i := i + 1;
      if s.userset.None? { continue; }
      var sub := ExpandNode(e, Node(s.userset.value.ns, s.userset.value.obj, rel), max, x, st, depth + 1);
      if sub.TooLarge? { return TooLarge; }
      if sub.OutOfReads? { return OutOfReads; }
      AfterOneMore(out, sub.value, ExpandPointers(e, rel, subjects[i..], max, path, TallyOf(x, st), depth));
      out := out + [sub.value];
    }
    assert out + [] == out;
    r := Got(out);
  }
}
