/**
 Member resolution: a userset's concrete users, found by expanding it and evaluating the tree's
 set algebra, following leaf usersets in turn (pkg/authz/checkset.go).
 */
module Members {
  import opened AuthzModel
  import opened VisitKeys
  import opened Evaluator
  import opened Expansion

  /** Enumerated users, and whether the unbounded public subject is a member too. */
  datatype Members = Members(users: set<string>, everyone: bool)

  const Nobody := Members({}, false)

  function Union(a: Members, b: Members): Members {
    Members(a.users + b.users, a.everyone || b.everyone)
  }

  /** An unbounded side does not restrict the other. */
  function Intersect(a: Members, b: Members): Members {
    if a.everyone then b else if b.everyone then a else Members(a.users * b.users, false)
  }

  /** The intersection over no bounded child at all. */
  const Everybody := Members({}, true)

  /** As the code subtracts: exclusions are enumerated users only. */
  function Subtract(a: Members, b: Members): Members {
    Members(a.users - b.users, a.everyone)
  }

  function Resolve(e: Env, n: Node, path: set<string>, t: Tally, depth: nat): Run<Members>
    decreases Room(e, depth), 3
  {
    if depth > e.maxDepth || VisitKey(n) in path then Run(t.(cuts := t.cuts + 1), Got(Nobody))
    else
      var x := Expand(e, n, 0, {}, t.(count := 0), depth);
      var t1 := x.st.(count := t.count);
      if !x.res.Got? then Fail(Run(t1, x.res)) else MembersOf(e, x.res.value, path + {VisitKey(n)}, t1, depth)
  }

  function MembersOf(e: Env, tree: Tree, path: set<string>, t: Tally, depth: nat): Run<Members>
    requires depth <= e.maxDepth
    decreases Room(e, depth), 2, tree
  {
    if tree.union != [] then MembersOfAll(e, tree.union, true, path, t, depth)
    else if tree.intersection != [] then MembersOfAll(e, tree.intersection, false, path, t, depth)
    else if tree.exclude.Some? then
      var inc := MembersOf(e, tree.exclude.value.included, path, t, depth);
      if !inc.res.Got? then inc
      else
        var exc := MembersOf(e, tree.exclude.value.excluded, path, inc.st, depth);
        if !exc.res.Got? then exc else Run(exc.st, Got(Subtract(inc.res.value, exc.res.value)))
    else
      var sets := ResolveAll(e, tree.sets, path, t, depth);
      if !sets.res.Got? then sets
      else Run(sets.st, Got(Union(Members((set u | u in tree.users), tree.wildcard), sets.res.value)))
  }

  function MembersOfAll(e: Env, trees: seq<Tree>, any: bool, path: set<string>, t: Tally, depth: nat): Run<Members>
    requires depth <= e.maxDepth
    decreases Room(e, depth), 2, trees
  {
    if trees == [] then Run(t, Got(if any then Nobody else Everybody))
    else
      var head := MembersOf(e, trees[0], path, t, depth);
      if !head.res.Got? then head
      else
        var rest := MembersOfAll(e, trees[1..], any, path, head.st, depth);
        if !rest.res.Got? then rest
        else Run(rest.st, Got(Combine(any, head.res.value, rest.res.value)))
  }

  function Combine(any: bool, a: Members, b: Members): Members {
    if any then Union(a, b) else Intersect(a, b)
  }

  function ResolveAll(e: Env, sets: seq<Node>, path: set<string>, t: Tally, depth: nat): Run<Members>
    requires depth <= e.maxDepth
    decreases Room(e, depth), 1, |sets|
  {
    if sets == [] then Run(t, Got(Nobody))
    else
      var head := Resolve(e, sets[0], path, t, depth + 1);
      if !head.res.Got? then head
      else
        var rest := ResolveAll(e, sets[1..], path, head.st, depth);
        if !rest.res.Got? then rest else Run(rest.st, Got(Union(head.res.value, rest.res.value)))
  }
}
