/** The read budget of Expand and of member resolution only cuts their runs short, too. */
module FanOutCut {
  import opened AuthzModel
  import opened VisitKeys
  import opened Evaluator
  import opened Budget
  import opened Engine
  import opened Expansion
  import opened Members

  /** The runs start alike except for the reads already charged. */
  predicate Alike(e: Env, t0: Tally, t: Tally) {
    t0 == t.(readCount := t0.readCount) && WithinBudget(e, t.readCount)
  }

  /** `free` ran from `t0` without a budget, `r` from `t` under the budget of `e`. */
  ghost predicate SameRunUntilCut<T>(e: Env, t0: Tally, free: Run<T>, t: Tally, r: Run<T>) {
    && !free.res.OutOfReads?
    && t0.readCount <= free.st.readCount
    && var total := t.readCount + (free.st.readCount - t0.readCount);
       if WithinBudget(e, total) then r == Run(free.st.(readCount := total), free.res)
       else r.res == OutOfReads && r.st.readCount == e.maxReads + 1
  }

  lemma {:induction false} ExpandCut(
      e: Env, n: Node, max: int, path: set<string>, t0: Tally, t: Tally, depth: nat)
    requires Alike(e, t0, t)
    ensures SameRunUntilCut(e, t0, Expand(Unbudgeted(e), n, max, path, t0, depth), t, Expand(e, n, max, path, t, depth))
    ensures max <= 0 ==> Expand(Unbudgeted(e), n, max, path, t0, depth).res.Got?
    decreases Room(e, depth), 3
  {
    if depth > e.maxDepth || VisitKey(n) in path {
    } else {
      ExpandRewriteCut(e, n, RewriteOf(e.model, n), max, path + {VisitKey(n)}, t0, t, depth);
    }
  }

  lemma {:induction false} ExpandRewriteCut(
      e: Env, n: Node, rw: Rewrite, max: int, path: set<string>, t0: Tally, t: Tally, depth: nat)
    requires depth <= e.maxDepth && Alike(e, t0, t)
    ensures SameRunUntilCut(e, t0, ExpandRewrite(Unbudgeted(e), n, rw, max, path, t0, depth),
                            t, ExpandRewrite(e, n, rw, max, path, t, depth))
    ensures max <= 0 ==> ExpandRewrite(Unbudgeted(e), n, rw, max, path, t0, depth).res.Got?
    decreases Room(e, depth), 2, rw
  {
    var a, b := t0.(count := t0.count + 1), t.(count := t.count + 1);
    if OverCap(max, b.count) {
    } else {
      match FormOf(rw)
      case This =>
      case AnyOf(children) => ExpandListCut(e, n, children, max, path, a, b, depth);
      case AllOf(children) => ExpandListCut(e, n, children, max, path, a, b, depth);
      case Except(_, _) => ExpandExceptCut(e, n, rw, max, path, t0, t, depth);
      case Computed(rel) => ExpandCut(e, Node(n.ns, n.obj, rel), max, path, a, b, depth + 1);
      case Via(_, _) => ExpandViaCut(e, n, rw, max, path, t0, t, depth);
    }
  }

  lemma {:induction false} ExpandViaCut(
      e: Env, n: Node, rw: Rewrite, max: int, path: set<string>, t0: Tally, t: Tally, depth: nat)
    requires depth <= e.maxDepth && Alike(e, t0, t) && FormOf(rw).Via? && !OverCap(max, t.count + 1)
    ensures SameRunUntilCut(e, t0, ExpandRewrite(Unbudgeted(e), n, rw, max, path, t0, depth),
                            t, ExpandRewrite(e, n, rw, max, path, t, depth))
    ensures max <= 0 ==> ExpandRewrite(Unbudgeted(e), n, rw, max, path, t0, depth).res.Got?
    decreases Room(e, depth), 2, rw, 0
  {
    var Via(tupleset, rel) := FormOf(rw);
    var subjects := Subjects(e, Node(n.ns, n.obj, tupleset));
    var a := t0.(count := t0.count + 1, readCount := t0.readCount + 1);
    var b := t.(count := t.count + 1, readCount := t.readCount + 1);
    if OverReads(e, b) {
      ExpandPointersCut(Unbudgeted(e), rel, subjects, max, path, a, a, depth);
    } else {
      ExpandPointersCut(e, rel, subjects, max, path, a, b, depth);
    }
  }

  lemma {:induction false} ExpandExceptCut(
      e: Env, n: Node, rw: Rewrite, max: int, path: set<string>, t0: Tally, t: Tally, depth: nat)
    requires depth <= e.maxDepth && Alike(e, t0, t) && FormOf(rw).Except? && !OverCap(max, t.count + 1)
    ensures SameRunUntilCut(e, t0, ExpandRewrite(Unbudgeted(e), n, rw, max, path, t0, depth),
                            t, ExpandRewrite(e, n, rw, max, path, t, depth))
    ensures max <= 0 ==> ExpandRewrite(Unbudgeted(e), n, rw, max, path, t0, depth).res.Got?
    decreases Room(e, depth), 2, rw, 0
  {
    var Except(included, excluded) := FormOf(rw);
    var e0 := Unbudgeted(e);
    var a, b := t0.(count := t0.count + 1), t.(count := t.count + 1);
    ExpandRewriteCut(e, n, included, max, path, a, b, depth);
    var free := ExpandRewrite(e0, n, included, max, path, a, depth);
    var inc := ExpandRewrite(e, n, included, max, path, b, depth);
    if free.res.Got? {
      if inc.res.Got? {
        ExpandRewriteCut(e, n, excluded, max, path, free.st, inc.st, depth);
      } else {
        ExpandRewriteCut(e0, n, excluded, max, path, free.st, free.st, depth);
      }
    }
  }

  lemma {:induction false} ExpandListCut(
      e: Env, n: Node, children: seq<Rewrite>, max: int, path: set<string>, t0: Tally, t: Tally, depth: nat)
    requires depth <= e.maxDepth && Alike(e, t0, t)
    ensures SameRunUntilCut(e, t0, ExpandList(Unbudgeted(e), n, children, max, path, t0, depth),
                            t, ExpandList(e, n, children, max, path, t, depth))
    ensures max <= 0 ==> ExpandList(Unbudgeted(e), n, children, max, path, t0, depth).res.Got?
    decreases Room(e, depth), 2, children
  {
    if children != [] {
      ExpandRewriteCut(e, n, children[0], max, path, t0, t, depth);
      var free := ExpandRewrite(Unbudgeted(e), n, children[0], max, path, t0, depth);
      var head := ExpandRewrite(e, n, children[0], max, path, t, depth);
      if free.res.Got? {
        if head.res.Got? {
          ExpandListCut(e, n, children[1..], max, path, free.st, head.st, depth);
        } else {
          ExpandListCut(Unbudgeted(e), n, children[1..], max, path, free.st, free.st, depth);
        }
      }
    }
  }

  lemma {:induction false} ExpandPointersCut(
      e: Env, rel: string, subjects: seq<Subject>, max: int, path: set<string>, t0: Tally, t: Tally, depth: nat)
    requires depth <= e.maxDepth && Alike(e, t0, t)
    ensures SameRunUntilCut(e, t0, ExpandPointers(Unbudgeted(e), rel, subjects, max, path, t0, depth),
                            t, ExpandPointers(e, rel, subjects, max, path, t, depth))
    ensures max <= 0 ==> ExpandPointers(Unbudgeted(e), rel, subjects, max, path, t0, depth).res.Got?
    decreases Room(e, depth), 1, |subjects|
  {
    if subjects != [] {
      var x := subjects[0].userset;
      if x.None? {
        ExpandPointersCut(e, rel, subjects[1..], max, path, t0, t, depth);
      } else {
        var m := Node(x.value.ns, x.value.obj, rel);
        ExpandCut(e, m, max, path, t0, t, depth + 1);
        var free := Expand(Unbudgeted(e), m, max, path, t0, depth + 1);
        var head := Expand(e, m, max, path, t, depth + 1);
        if free.res.Got? {
          if head.res.Got? {
            ExpandPointersCut(e, rel, subjects[1..], max, path, free.st, head.st, depth);
          } else {
            ExpandPointersCut(Unbudgeted(e), rel, subjects[1..], max, path, free.st, free.st, depth);
          }
        }
      }
    }
  }

  /** A whole Expand fails for lack of reads exactly when the unbudgeted one reads more than the budget. */
  lemma TopExpandCut(e: Env, n: Node, max: int)
    ensures var free := TopExpand(Unbudgeted(e), n, max);
            var r := TopExpand(e, n, max);
            && !free.res.OutOfReads?
            && (r.res.OutOfReads? <==> e.maxReads > 0 && free.st.readCount > e.maxReads)
            && (!r.res.OutOfReads? ==> r == free)
            && (r.res.OutOfReads? ==> r.st.readCount == e.maxReads + 1)
  {
    ExpandCut(e, n, max, {}, Tally(0, 0, 0), Tally(0, 0, 0), 0);
  }

  // ---- member resolution; its expansions have no node cap, so it never fails otherwise ----

  lemma {:induction false} ResolveCut(e: Env, n: Node, path: set<string>, t0: Tally, t: Tally, depth: nat)
    requires Alike(e, t0, t)
    ensures SameRunUntilCut(e, t0, Resolve(Unbudgeted(e), n, path, t0, depth), t, Resolve(e, n, path, t, depth))
    ensures Resolve(Unbudgeted(e), n, path, t0, depth).res.Got?
    decreases Room(e, depth), 3
  {
    if depth > e.maxDepth || VisitKey(n) in path {
    } else {
      var e0, p := Unbudgeted(e), path + {VisitKey(n)};
      ExpandCut(e, n, 0, {}, t0.(count := 0), t.(count := 0), depth);
      var free := Expand(e0, n, 0, {}, t0.(count := 0), depth);
      var x := Expand(e, n, 0, {}, t.(count := 0), depth);
      var a := free.st.(count := t0.count);
      if x.res.Got? {
        MembersOfCut(e, free.res.value, p, a, x.st.(count := t.count), depth);
      } else {
        MembersOfCut(e0, free.res.value, p, a, a, depth);
      }
    }
  }

  lemma {:induction false} MembersOfCut(e: Env, tree: Tree, path: set<string>, t0: Tally, t: Tally, depth: nat)
    requires depth <= e.maxDepth && Alike(e, t0, t)
    ensures SameRunUntilCut(e, t0, MembersOf(Unbudgeted(e), tree, path, t0, depth), t,
              MembersOf(e, tree, path, t, depth))
    ensures MembersOf(Unbudgeted(e), tree, path, t0, depth).res.Got?
    decreases Room(e, depth), 2, tree
  {
    if tree.union != [] {
      MembersOfAllCut(e, tree.union, true, path, t0, t, depth);
    } else if tree.intersection != [] {
      MembersOfAllCut(e, tree.intersection, false, path, t0, t, depth);
    } else if tree.exclude.Some? {
      var e0, included, excluded := Unbudgeted(e), tree.exclude.value.included, tree.exclude.value.excluded;
      MembersOfCut(e, included, path, t0, t, depth);
      var free := MembersOf(e0, included, path, t0, depth);
      var inc := MembersOf(e, included, path, t, depth);
      if inc.res.Got? {
        MembersOfCut(e, excluded, path, free.st, inc.st, depth);
      } else {
        MembersOfCut(e0, excluded, path, free.st, free.st, depth);
      }
    } else {
      ResolveAllCut(e, tree.sets, path, t0, t, depth);
    }
  }

  lemma {:induction false} MembersOfAllCut(
      e: Env, trees: seq<Tree>, any: bool, path: set<string>, t0: Tally, t: Tally, depth: nat)
    requires depth <= e.maxDepth && Alike(e, t0, t)
    ensures SameRunUntilCut(e, t0, MembersOfAll(Unbudgeted(e), trees, any, path, t0, depth),
                            t, MembersOfAll(e, trees, any, path, t, depth))
    ensures MembersOfAll(Unbudgeted(e), trees, any, path, t0, depth).res.Got?
    decreases Room(e, depth), 2, trees
  {
    if trees != [] {
      MembersOfCut(e, trees[0], path, t0, t, depth);
      var free := MembersOf(Unbudgeted(e), trees[0], path, t0, depth);
      var head := MembersOf(e, trees[0], path, t, depth);
      if head.res.Got? {
        MembersOfAllCut(e, trees[1..], any, path, free.st, head.st, depth);
      } else {
        MembersOfAllCut(Unbudgeted(e), trees[1..], any, path, free.st, free.st, depth);
      }
    }
  }

  lemma {:induction false} ResolveAllCut(e: Env, sets: seq<Node>, path: set<string>, t0: Tally, t: Tally, depth: nat)
    requires depth <= e.maxDepth && Alike(e, t0, t)
    ensures SameRunUntilCut(e, t0, ResolveAll(Unbudgeted(e), sets, path, t0, depth), t,
              ResolveAll(e, sets, path, t, depth))
    ensures ResolveAll(Unbudgeted(e), sets, path, t0, depth).res.Got?
    decreases Room(e, depth), 1, |sets|
  {
    if sets != [] {
      ResolveCut(e, sets[0], path, t0, t, depth + 1);
      var free := Resolve(Unbudgeted(e), sets[0], path, t0, depth + 1);
      var head := Resolve(e, sets[0], path, t, depth + 1);
      if head.res.Got? {
        ResolveAllCut(e, sets[1..], path, free.st, head.st, depth);
      } else {
        ResolveAllCut(Unbudgeted(e), sets[1..], path, free.st, free.st, depth);
      }
    }
  }

  // ---- a whole Expand ----

  /** Expand against an already-resolved model, and the store reads it makes. */
  method ExpandWithModel(
      l: Limits, m: Model, tuples: map<Node, seq<Subject>>, n: Node, maxNodes: int, override: int)
      returns (r: Got<Tree>, ghost made: nat)
    ensures var budget := ExpandBudget(EffectiveMaxReads(l, override), maxNodes);
            r == TopExpand(Env(m, tuples, {}, l.maxDepth, budget), n, maxNodes).res
    ensures var e := Env(m, tuples, {}, l.maxDepth, ExpandBudget(EffectiveMaxReads(l, override), maxNodes));
            made == ReadsMade(TopExpand(e, n, maxNodes).st.readCount, r.OutOfReads?) && Frugal(e, made)
  {
    var e := Env(m, tuples, {}, l.maxDepth, ExpandBudget(EffectiveMaxReads(l, override), maxNodes));
    var x := new ExpandState();
    var st := new EvalState(e.maxReads);
    TopExpandCut(e, n, maxNodes);
    r := ExpandNode(e, n, maxNodes, x, st, 0);
    made := st.listings;
  }
}
