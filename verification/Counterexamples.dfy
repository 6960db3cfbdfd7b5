/** Why the hypotheses of the main theorems are there: concrete inputs on which the code misses without them. */
module Counterexamples {
  import opened AuthzModel
  import opened VisitKeys
  import opened Kleene
  import opened Soundness
  import opened Evaluator
  import opened Expansion
  import opened ExpandMeaning
  import opened Members
  import opened MemberMeaning

  function UserSubject(u: string): Subject {
    Subject(u, None, false, None)
  }

  function ParentLink(ns: string, obj: string): Subject {
    Subject("", Some(Node(ns, obj, "")), false, None)
  }

  const PublicSubject := Subject("", None, true, None)

  // ---- colliding keys: an object that needs both of its parents to grant, with one that does ----

  const FromP := ThisRewrite.(tuplesetRelation := "p", computedRelation := "x")
  const FromQ := ThisRewrite.(tuplesetRelation := "q", computedRelation := "x")
  const BothParents := ThisRewrite.(intersection := [FromP, FromQ])
  const Child := Node("t", "o", "r")
  const Granting := Node("a", "b:c", "x")
  const Empty := Node("a:b", "c", "x")

  const CollidingEnv := Env(
    map["t" := map["r" := BothParents]],
    map[Node("t", "o", "p") := [ParentLink("a", "b:c")],
        Node("t", "o", "q") := [ParentLink("a:b", "c")],
        Granting := [UserSubject("u")]],
    {}, 32, 0)

  const ChildPath := {} + {VisitKey(Child)}

  /** What is remembered once the granting parent has been visited. */
  const Remembered := Scratch(map[MemoKey(Granting, false) := true], 0, 2)

  lemma FirstParentIsRemembered()
    ensures EvalRewrite(CollidingEnv, ByUser("u"), Child, FromP, false, ChildPath, Fresh, 0)
              == Outcome(Remembered, Ok(true))
  {
    var e, q, s, p := CollidingEnv, ByUser("u"), Charge(Fresh), Node("t", "o", "p");
    assert VisitKey(Granting)[0] != VisitKey(Child)[0];
    var path := ChildPath + {VisitKey(Granting)};
    assert Subjects(e, Granting) == [UserSubject("u")] && Subjects(e, p) == [ParentLink("a", "b:c")];
    assert ReadAndWalk(e, q, Direct, Subjects(e, Granting), false, path, s, 1) == Outcome(Charge(s), Ok(true));
    assert EvalRewrite(e, q, Granting, ThisRewrite, false, path, s, 1) == Outcome(Charge(s), Ok(true));
    assert Check(e, q, Granting, false, ChildPath, s, 1) == Outcome(Remembered, Ok(true));
    assert TargetOf(e, q, Through("x"), ParentLink("a", "b:c")) == Follow(Granting);
    assert EvalSubjects(e, q, Through("x"), Subjects(e, p), false, ChildPath, s, 0) == Outcome(Remembered, Ok(true));
    assert ReadAndWalk(e, q, Through("x"), Subjects(e, p), false, ChildPath, Fresh, 0) == Outcome(Remembered, Ok(true));
  }

  lemma SecondParentHitsTheMemo()
    ensures EvalRewrite(CollidingEnv, ByUser("u"), Child, FromQ, false, ChildPath, Remembered, 0).res == Ok(true)
  {
    var e, q, s, p := CollidingEnv, ByUser("u"), Charge(Remembered), Node("t", "o", "q");
    VisitKeyCollision();
    assert VisitKey(Empty)[0] != VisitKey(Child)[0];
    assert Subjects(e, p) == [ParentLink("a:b", "c")];
    assert Check(e, q, Empty, false, ChildPath, s, 1).res == Ok(true);
    assert TargetOf(e, q, Through("x"), ParentLink("a:b", "c")) == Follow(Empty);
    assert EvalSubjects(e, q, Through("x"), Subjects(e, p), false, ChildPath, s, 0).res == Ok(true);
    assert ReadAndWalk(e, q, Through("x"), Subjects(e, p), false, ChildPath, Remembered, 0).res == Ok(true);
  }

  /** The request is granted although the second parent settles it to false. */
  lemma CollidingKeysGrantTooMuch()
    ensures TopCheck(CollidingEnv, ByUser("u"), Child).res == Ok(true)
    ensures Is(CollidingEnv, "u", Child, false)
  {
    var e, q := CollidingEnv, ByUser("u");
    FirstParentIsRemembered();
    SecondParentHitsTheMemo();
    var second := EvalRewrite(e, q, Child, FromQ, false, ChildPath, Remembered, 0);
    assert EvalList(e, q, Child, [FromQ][1..], false, false, ChildPath, second.st, 0).res == Ok(true);
    assert EvalList(e, q, Child, [FromQ], false, false, ChildPath, Remembered, 0).res == Ok(true);
    assert [FromP, FromQ][1..] == [FromQ];
    assert EvalList(e, q, Child, [FromP, FromQ], false, false, ChildPath, Fresh, 0).res == Ok(true);
    assert EvalRewrite(e, q, Child, BothParents, false, ChildPath, Fresh, 0).res == Ok(true);

    assert K(e, "u", Empty, 1) == Known(false);
    assert KSubjects(e, "u", Through("x"), [ParentLink("a:b", "c")], 1) == Known(false);
    assert KRewrite(e, "u", Child, FromQ, 1) == Known(false);
    assert KList(e, "u", Child, [FromQ], false, 1) == Known(false);
    assert K(e, "u", Child, 2) == Known(false);
  }

  // ---- a public exclusion: members minus everyone ----

  const Blocked := ThisRewrite.(computed := "b")
  const NotBlocked := ThisRewrite.(exclusion := Some(Exclusion(ThisRewrite, Blocked)))
  const Group := Node("g", "o", "m")
  const BlockList := Node("g", "o", "b")

  const PublicBlockEnv := Env(
    map["g" := map["m" := NotBlocked]],
    map[Group := [UserSubject("u")], BlockList := [PublicSubject]],
    {}, 32, 0)

  const GroupPath := {} + {VisitKey(Group)}
  const GroupTree :=
    Bare(Group).(exclude := Some(ExcludeTree(Leaf(Group, [UserSubject("u")]), Leaf(BlockList, [PublicSubject]))))

  lemma GroupExpands()
    ensures ExpandRewrite(PublicBlockEnv, Group, NotBlocked, 0, GroupPath, NoTally, 0)
              == Run(Tally(6, 2, 0), Got(GroupTree))
  {
    var e := PublicBlockEnv;
    var users, public := Leaf(Group, [UserSubject("u")]), Leaf(BlockList, [PublicSubject]);
    assert VisitKey(Group)[4] != VisitKey(BlockList)[4];
    assert ExpandRewrite(e, Group, ThisRewrite, 0, GroupPath, Tally(1, 0, 0), 0) == Run(Tally(3, 1, 0), Got(users));
    assert Expand(e, BlockList, 0, GroupPath, Tally(4, 1, 0), 1) == Run(Tally(6, 2, 0), Got(public));
    assert ExpandRewrite(e, Group, Blocked, 0, GroupPath, Tally(3, 1, 0), 0) == Run(Tally(6, 2, 0), Got(public));
  }

  lemma GroupResolves()
    ensures MembersOf(PublicBlockEnv, GroupTree, GroupPath, Tally(0, 2, 0), 0)
              == Run(Tally(0, 2, 0), Got(Members({"u"}, false)))
  {
    var e, t := PublicBlockEnv, Tally(0, 2, 0);
    var users, public := Leaf(Group, [UserSubject("u")]), Leaf(BlockList, [PublicSubject]);
    assert users.users == ["u"] && users.sets == [] && !users.wildcard;
    assert LeafUsers([PublicSubject]) == [] && LeafSets([PublicSubject]) == [] && PublicSubject in [PublicSubject];
    assert (set u | u in users.users) + {} == {"u"} && (set u | u in public.users) + {} == {};
    assert MembersOf(e, users, GroupPath, t, 0) == Run(t, Got(Members({"u"}, false)));
    assert MembersOf(e, public, GroupPath, t, 0) == Run(t, Got(Members({}, true)));
    assert {"u"} - {} == {"u"};
  }

  /** Member resolution returns the user, untruncated, although everyone is excluded. */
  lemma PublicExclusionIsNotSubtracted()
    ensures Resolve(PublicBlockEnv, Group, {}, NoTally, 0) == Run(Tally(0, 2, 0), Got(Members({"u"}, false)))
    ensures Is(PublicBlockEnv, "u", Group, false)
  {
    var e := PublicBlockEnv;
    GroupExpands();
    GroupResolves();
    assert KSubjects(e, "u", Direct, [PublicSubject], 0) == Known(true);
    assert K(e, "u", BlockList, 1) == Known(true);
    assert KRewrite(e, "u", Group, Blocked, 1) == Known(true);
    assert K(e, "u", Group, 2) == Known(false);
  }

  // ---- a deep exclude side: members minus a chain of usersets that goes on below the depth limit ----

  function Link(i: nat): Node {
    Node("g", seq(i + 1, _ => 'o'), "b")
  }

  function SetSubject(n: Node): Subject {
    Subject("", Some(n), false, None)
  }

  lemma LinksDiffer(i: nat, j: nat)
    requires i != j
    ensures Link(i) != Link(j) && VisitKey(Link(i)) != VisitKey(Link(j)) && VisitKey(Link(i)) != VisitKey(Group)
  {
    assert |Link(i).obj| != |Link(j).obj|;
    if VisitKey(Link(i)) == VisitKey(Link(j)) { VisitKeyInjective(Link(i), Link(j)); }
    if VisitKey(Link(i)) == VisitKey(Group) { VisitKeyInjective(Link(i), Group); }
  }

  /** What each link of the chain holds: the next link, and the last one the user. */
  function Held(depth: nat, i: nat): Subject {
    if i <= depth then SetSubject(Link(i + 1)) else UserSubject("u")
  }

  function LinkTuples(depth: nat, count: nat): map<Node, seq<Subject>> {
    if count == 0 then map[Group := [UserSubject("u")]]
    else LinkTuples(depth, count - 1)[Link(count - 1) := [Held(depth, count - 1)]]
  }

  function DeepEnv(depth: nat): Env {
    Env(map["g" := map["m" := NotBlocked]], LinkTuples(depth, depth + 2), {}, depth, 0)
  }

  lemma {:induction false} LinkHolds(depth: nat, count: nat, i: nat)
    requires i < count
    ensures Link(i) in LinkTuples(depth, count) && LinkTuples(depth, count)[Link(i)] == [Held(depth, i)]
    decreases count
  {
    if i + 1 < count {
      LinkHolds(depth, count - 1, i);
      LinksDiffer(i, count - 1);
    }
  }

  lemma {:induction false} GroupHolds(depth: nat, count: nat)
    ensures Group in LinkTuples(depth, count) && LinkTuples(depth, count)[Group] == [UserSubject("u")]
    decreases count
  {
    if count > 0 { GroupHolds(depth, count - 1); }
  }

  /** The chain settles the user into its first link. */
  lemma {:induction false} LinkSettles(depth: nat, i: nat)
    requires i <= depth + 1
    ensures K(DeepEnv(depth), "u", Link(i), depth + 2 - i) == Known(true)
    decreases depth + 2 - i
  {
    var e, f := DeepEnv(depth), depth + 1 - i;
    LinkHolds(depth, depth + 2, i);
    if i <= depth { LinkSettles(depth, i + 1); }
    assert KSubjects(e, "u", Direct, [Held(depth, i)], f) == Known(true);
  }

  /** A leaf that holds one userset of nobody holds nobody. */
  lemma OneEmptySet(e: Env, n: Node, next: Node, path: set<string>, t: Tally, depth: nat)
    requires depth <= e.maxDepth
    requires Resolve(e, next, path, t, depth + 1).res == Got(Nobody) && ResolveFair(e, next, path, t, depth + 1)
    ensures var leaf, st := Leaf(n, [SetSubject(next)]), Resolve(e, next, path, t, depth + 1).st;
            MembersOf(e, leaf, path, t, depth) == Run(st, Got(Nobody)) && TreeFair(e, leaf, path, t, depth)
  {
    var leaf, head := Leaf(n, [SetSubject(next)]), Resolve(e, next, path, t, depth + 1);
    assert [SetSubject(next)][1..] == [];
    assert leaf.sets == [next] + LeafSets([]) == [next] && !leaf.wildcard;
    assert leaf.users == [] + LeafUsers([]) == [];
    assert [next][0] == next && [next][1..] == [];
    assert ResolveAll(e, [next][1..], path, head.st, depth) == Run(head.st, Got(Nobody));
    assert ResolveAll(e, [next], path, t, depth) == Run(head.st, Got(Union(Nobody, Nobody)));
    assert (set u | u in leaf.users) + {} == {};
    assert SetsFair(e, [next], path, t, depth);
  }

  /** Resolved from its own depth on, the chain is cut and holds nobody. */
  lemma {:induction false} LinkResolvesToNobody(depth: nat, i: nat, path: set<string>, t: Tally)
    requires 1 <= i <= depth + 1 && forall j: nat | i <= j :: VisitKey(Link(j)) !in path
    ensures var r := Resolve(DeepEnv(depth), Link(i), path, t, i);
            r.res == Got(Nobody) && r.st.cuts > t.cuts && ResolveFair(DeepEnv(depth), Link(i), path, t, i)
    decreases depth + 2 - i
  {
    var e, n := DeepEnv(depth), Link(i);
    if i <= depth {
      var next, t1, path1 := Link(i + 1), t.(readCount := t.readCount + 1), path + {VisitKey(n)};
      LinkHolds(depth, depth + 2, i);
      assert Expand(e, n, 0, {}, t.(count := 0), i) == Run(t1.(count := 2), Got(Leaf(n, [SetSubject(next)])));
      forall j: nat | i + 1 <= j ensures VisitKey(Link(j)) !in path1 { LinksDiffer(i, j); }
      LinkResolvesToNobody(depth, i + 1, path1, t1);
      OneEmptySet(e, n, next, path1, t1, i);
    }
  }

  /** What the group expands to: its user, minus the first link. */
  const DeepTree :=
    Bare(Group).(exclude := Some(ExcludeTree(Leaf(Group, [UserSubject("u")]), Leaf(Link(0), [SetSubject(Link(1))]))))

  lemma DeepUsersExpand(depth: nat)
    ensures ExpandRewrite(DeepEnv(depth), Group, ThisRewrite, 0, GroupPath, Tally(1, 0, 0), 0)
              == Run(Tally(3, 1, 0), Got(Leaf(Group, [UserSubject("u")])))
  {
    GroupHolds(depth, depth + 2);
  }

  lemma DeepFirstExpands(depth: nat)
    requires depth >= 1
    ensures Expand(DeepEnv(depth), Link(0), 0, GroupPath, Tally(4, 1, 0), 1)
              == Run(Tally(6, 2, 0), Got(Leaf(Link(0), [SetSubject(Link(1))])))
  {
    LinkHolds(depth, depth + 2, 0);
    LinksDiffer(0, 1);
  }

  lemma DeepExpands(depth: nat)
    requires depth >= 1
    ensures ExpandRewrite(DeepEnv(depth), Group, NotBlocked, 0, GroupPath, NoTally, 0)
              == Run(Tally(6, 2, 0), Got(DeepTree))
  {
    var e := DeepEnv(depth);
    var users, first := Leaf(Group, [UserSubject("u")]), Leaf(Link(0), [SetSubject(Link(1))]);
    DeepUsersExpand(depth);
    DeepFirstExpands(depth);
    assert Link(0) == Node("g", "o", "b");
    assert ExpandRewrite(e, Group, Blocked, 0, GroupPath, Tally(3, 1, 0), 0) == Run(Tally(6, 2, 0), Got(first));
  }

  lemma DeepResolves(depth: nat)
    requires depth >= 1
    ensures var r := MembersOf(DeepEnv(depth), DeepTree, GroupPath, Tally(0, 2, 0), 0);
            r.res == Got(Members({"u"}, false)) && TreeFair(DeepEnv(depth), DeepTree, GroupPath, Tally(0, 2, 0), 0)
  {
    var e, t := DeepEnv(depth), Tally(0, 2, 0);
    var users := Leaf(Group, [UserSubject("u")]);
    forall j: nat | 1 <= j ensures VisitKey(Link(j)) !in GroupPath { LinksDiffer(j, 0); }
    LinkResolvesToNobody(depth, 1, GroupPath, t);
    OneEmptySet(e, Link(0), Link(1), GroupPath, t, 0);
    assert users.users == ["u"] && users.sets == [] && !users.wildcard;
    assert (set u | u in users.users) + {} == {"u"};
    assert MembersOf(e, users, GroupPath, t, 0) == Run(t, Got(Members({"u"}, false)));
    assert TreeFair(e, users, GroupPath, t, 0);
    assert {"u"} - {} == {"u"};
  }

  lemma DeepSettles(depth: nat)
    ensures Is(DeepEnv(depth), "u", Group, false)
  {
    var e := DeepEnv(depth);
    LinkSettles(depth, 0);
    assert Link(0) == BlockList;
    assert KRewrite(e, "u", Group, Blocked, depth + 2) == Known(true);
    assert K(e, "u", Group, depth + 3) == Known(false);
  }

  lemma {:induction false} LinksAreClean(depth: nat, count: nat)
    ensures forall n: Node, s: Subject | n in LinkTuples(depth, count) && s in LinkTuples(depth, count)[n] ::
              CleanSubject(s)
    decreases count
  {
    if count > 0 { LinksAreClean(depth, count - 1); }
  }

  lemma DeepDenied(depth: nat)
    ensures TopCheck(DeepEnv(depth), ByUser("u"), Group).res != Ok(true)
  {
    var e := DeepEnv(depth);
    DeepSettles(depth);
    LinksAreClean(depth, depth + 2);
    CheckFailsClosed(e, "u", Group);
    if f: nat :| K(e, "u", Group, f) == Known(true) { IsConsistent(e, "u", Group, f, false); }
  }

  /**
   At every depth limit: member resolution returns a user who is settled out, although nothing is public and
   every subtraction is exact, because the exclude side was cut. Check denies the same user.
   */
  lemma CutExclusionIsNotSubtracted(depth: nat)
    requires depth >= 1
    ensures Resolve(DeepEnv(depth), Group, {}, NoTally, 0).res == Got(Members({"u"}, false))
    ensures ResolveFair(DeepEnv(depth), Group, {}, NoTally, 0) && Is(DeepEnv(depth), "u", Group, false)
    ensures TopCheck(DeepEnv(depth), ByUser("u"), Group).res != Ok(true)
  {
    DeepExpands(depth);
    DeepResolves(depth);
    DeepSettles(depth);
    DeepDenied(depth);
  }

  // ---- the same in Expand: an exclude side that computes its way below the depth limit ----

  const Indirect := Node("g", "o", "c")

  const ShallowEnv := Env(
    map["g" := map["m" := NotBlocked, "b" := ComputedBy("c")]],
    map[Group := [UserSubject("u")], Indirect := [UserSubject("u")]],
    {}, 1, 0)

  const CutTree := Bare(Group).(exclude := Some(ExcludeTree(Leaf(Group, [UserSubject("u")]), Bare(Indirect))))

  lemma CutExpands()
    ensures ExpandRewrite(ShallowEnv, Group, NotBlocked, 0, GroupPath, NoTally, 0)
              == Run(Tally(5, 1, 1), Got(CutTree))
  {
    var e := ShallowEnv;
    var users, path := Leaf(Group, [UserSubject("u")]), GroupPath + {VisitKey(BlockList)};
    assert VisitKey(Group)[4] != VisitKey(BlockList)[4];
    assert ExpandRewrite(e, Group, ThisRewrite, 0, GroupPath, Tally(1, 0, 0), 0) == Run(Tally(3, 1, 0), Got(users));
    var stub := Run(Tally(5, 1, 1), Got(Bare(Indirect)));
    assert RewriteOf(e.model, BlockList) == ComputedBy("c") && FormOf(ComputedBy("c")) == Computed("c");
    assert Expand(e, Indirect, 0, path, Tally(5, 1, 0), 2) == stub;
    assert ExpandRewrite(e, BlockList, ComputedBy("c"), 0, path, Tally(4, 1, 0), 1) == stub;
    assert ExpandRewrite(e, Group, Blocked, 0, GroupPath, Tally(3, 1, 0), 0) == stub;
  }

  /** The tree grants a user who is settled out, however its leaves are read: the exclude side is a stub. */
  lemma CutExclusionIsNotExpanded()
    ensures TopExpand(ShallowEnv, Group, 0).res == Got(CutTree)
    ensures forall lo: iset<Node>, hi: iset<Node> :: Denotes(CutTree, "u", lo, hi)
    ensures Is(ShallowEnv, "u", Group, false)
  {
    var e := ShallowEnv;
    CutExpands();
    assert Leaf(Group, [UserSubject("u")]).users == ["u"];
    assert K(e, "u", Indirect, 1) == Known(true);
    assert K(e, "u", BlockList, 2) == Known(true);
    assert KRewrite(e, "u", Group, Blocked, 2) == Known(true);
    assert K(e, "u", Group, 3) == Known(false);
  }
}
