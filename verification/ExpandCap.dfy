/**
 When an Expand fits its node cap (pkg/authz/expand.go): exactly when what it visits, one node for every rewrite and
 one for every stored subject of a leaf, is within it.
 */
module ExpandCap {
  import opened AuthzModel
  import opened VisitKeys
  import opened Evaluator
  import opened Expansion

  // ---- what is visited, counted without running anything ----

  function NodeCharge(e: Env, n: Node, path: set<string>, depth: nat): nat
    decreases Room(e, depth), 3
  {
    if depth > e.maxDepth || VisitKey(n) in path then 0
    else RuleCharge(e, n, RewriteOf(e.model, n), path + {VisitKey(n)}, depth)
  }

  function RuleCharge(e: Env, n: Node, rw: Rewrite, path: set<string>, depth: nat): nat
    requires depth <= e.maxDepth
    decreases Room(e, depth), 2, rw
  {
    1 + match FormOf(rw)
      case This => |Subjects(e, n)|
      case AnyOf(children) => ListCharge(e, n, children, path, depth)
      case AllOf(children) => ListCharge(e, n, children, path, depth)
      case Except(included, excluded) =>
        RuleCharge(e, n, included, path, depth) + RuleCharge(e, n, excluded, path, depth)
      case Computed(rel) => NodeCharge(e, Node(n.ns, n.obj, rel), path, depth + 1)
      case Via(tupleset, rel) => PointersCharge(e, rel, Subjects(e, Node(n.ns, n.obj, tupleset)), path, depth)
  }

  function ListCharge(e: Env, n: Node, children: seq<Rewrite>, path: set<string>, depth: nat): nat
    requires depth <= e.maxDepth
    decreases Room(e, depth), 2, children
  {
    if children == [] then 0
    else RuleCharge(e, n, children[0], path, depth) + ListCharge(e, n, children[1..], path, depth)
  }

  function PointersCharge(e: Env, rel: string, subjects: seq<Subject>, path: set<string>, depth: nat): nat
    requires depth <= e.maxDepth
    decreases Room(e, depth), 1, |subjects|
  {
    if subjects == [] then 0
    else
      var x := subjects[0].userset;
      (if x.None? then 0 else NodeCharge(e, Node(x.value.ns, x.value.obj, rel), path, depth + 1))
      + PointersCharge(e, rel, subjects[1..], path, depth)
  }

  // ---- the run ----

  /** With `charge` still to come: the run fits and has counted it, or it is refused. */
  predicate Weighed<T>(max: int, t: Tally, charge: nat, r: Run<T>) {
    if max <= 0 || t.count + charge <= max then r.res.Got? && r.st.count == t.count + charge else r.res.TooLarge?
  }

  lemma {:induction false} NodeWeighed(e: Env, n: Node, max: int, path: set<string>, t: Tally, depth: nat)
    requires e.maxReads <= 0 && (max > 0 ==> t.count <= max)
    ensures Weighed(max, t, NodeCharge(e, n, path, depth), Expand(e, n, max, path, t, depth))
    decreases Room(e, depth), 3
  {
    if depth > e.maxDepth || VisitKey(n) in path {
    } else {
      RuleWeighed(e, n, RewriteOf(e.model, n), max, path + {VisitKey(n)}, t, depth);
    }
  }

  lemma {:induction false} RuleWeighed(
      e: Env, n: Node, rw: Rewrite, max: int, path: set<string>, t: Tally, depth: nat)
    requires depth <= e.maxDepth && e.maxReads <= 0 && (max > 0 ==> t.count <= max)
    ensures Weighed(max, t, RuleCharge(e, n, rw, path, depth), ExpandRewrite(e, n, rw, max, path, t, depth))
    decreases Room(e, depth), 2, rw
  {
    var t1 := t.(count := t.count + 1);
    if !OverCap(max, t1.count) {
      match FormOf(rw)
      case This =>
      case AnyOf(children) => ListWeighed(e, n, children, max, path, t1, depth);
      case AllOf(children) => ListWeighed(e, n, children, max, path, t1, depth);
      case Except(included, excluded) =>
        RuleWeighed(e, n, included, max, path, t1, depth);
        var inc := ExpandRewrite(e, n, included, max, path, t1, depth);
        if inc.res.Got? { RuleWeighed(e, n, excluded, max, path, inc.st, depth); }
      case Computed(rel) => NodeWeighed(e, Node(n.ns, n.obj, rel), max, path, t1, depth + 1);
      case Via(tupleset, rel) =>
        var t2 := t1.(readCount := t1.readCount + 1);
        PointersWeighed(e, rel, Subjects(e, Node(n.ns, n.obj, tupleset)), max, path, t2, depth);
    }
  }

  lemma {:induction false} ListWeighed(
      e: Env, n: Node, children: seq<Rewrite>, max: int, path: set<string>, t: Tally, depth: nat)
    requires depth <= e.maxDepth && e.maxReads <= 0 && (max > 0 ==> t.count <= max)
    ensures Weighed(max, t, ListCharge(e, n, children, path, depth), ExpandList(e, n, children, max, path, t, depth))
    decreases Room(e, depth), 2, children
  {
    if children != [] {
      RuleWeighed(e, n, children[0], max, path, t, depth);
      var head := ExpandRewrite(e, n, children[0], max, path, t, depth);
      if head.res.Got? { ListWeighed(e, n, children[1..], max, path, head.st, depth); }
    }
  }

  lemma {:induction false} PointersWeighed(
      e: Env, rel: string, subjects: seq<Subject>, max: int, path: set<string>, t: Tally, depth: nat)
    requires depth <= e.maxDepth && e.maxReads <= 0 && (max > 0 ==> t.count <= max)
    ensures Weighed(max, t, PointersCharge(e, rel, subjects, path, depth),
                    ExpandPointers(e, rel, subjects, max, path, t, depth))
    decreases Room(e, depth), 1, |subjects|
  {
    if subjects != [] {
      var x := subjects[0].userset;
      if x.None? {
        PointersWeighed(e, rel, subjects[1..], max, path, t, depth);
      } else {
        var m := Node(x.value.ns, x.value.obj, rel);
        NodeWeighed(e, m, max, path, t, depth + 1);
        var head := Expand(e, m, max, path, t, depth + 1);
        if head.res.Got? { PointersWeighed(e, rel, subjects[1..], max, path, head.st, depth); }
      }
    }
  }

  /** An Expand without a read budget is refused as too large exactly when it visits more nodes than a positive cap. */
  lemma TooLargeIff(e: Env, n: Node, max: int)
    requires e.maxReads <= 0
    ensures TopExpand(e, n, max).res.TooLarge? <==> max > 0 && NodeCharge(e, n, {}, 0) > max
    ensures !TopExpand(e, n, max).res.TooLarge? ==> TopExpand(e, n, max).res.Got?
  {
    NodeWeighed(e, n, max, {}, Tally(0, 0, 0), 0);
  }
}
