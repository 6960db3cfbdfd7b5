/**
 What the default model gives (pkg/authz/model.go): workspace editors are the admins and viewers the members, and a
 resource is shared with whoever holds a grant on it or on something up its chain of parents.
 */
module Inheritance {
  import opened AuthzModel
  import opened VisitKeys
  import opened Kleene
  import opened Solutions
  import opened Evaluator
  import opened Soundness
  import opened Conditions
  import opened Store
  import opened Seats
  import opened Workspaces
  import opened Grades

  const RESOURCE := "resource"

  /** The relations a resource passes down. */
  datatype Access = Editor | Viewer

  function NameOf(a: Access): string {
    match a
    case Editor => "editor"
    case Viewer => "viewer"
  }

  /** The relation on the same resource that contains it. */
  function Stronger(a: Access): string {
    match a
    case Editor => "owner"
    case Viewer => "editor"
  }

  /** The grade of a workspace that counts for it. */
  function GradeFor(a: Access): Role {
    match a
    case Editor => Admin
    case Viewer => Member
  }

  function ResourceNode(id: string, a: Access): Node {
    Node(RESOURCE, id, NameOf(a))
  }

  // ---- the rules, read off the settled nodes ----

  predicate Atomic(rw: Rewrite) {
    FormOf(rw).This? || FormOf(rw).Computed? || FormOf(rw).Via?
  }

  predicate UnionOfAtoms(rw: Rewrite) {
    Atomic(rw) || (FormOf(rw).AnyOf? && forall c | c in rw.union :: Atomic(c))
  }

  lemma DefaultRules(rel: string, rw: Rewrite)
    requires exists ns | ns in DefaultModel :: rel in DefaultModel[ns] && rw == DefaultModel[ns][rel]
    ensures UnionOfAtoms(rw)
  {
  }

  lemma NoExclusions(e: Env)
    requires e.model == DefaultModel
    ensures ExclusionFreeModel(e)
  {
    forall n: Node ensures ExclusionFree(RewriteOf(e.model, n)) {
      var rw := RewriteOf(e.model, n);
      if n.ns in e.model && n.rel in e.model[n.ns] { DefaultRules(n.rel, rw); }
      assert UnionOfAtoms(rw);
      forall c | c in rw.union && Atomic(c) ensures ExclusionFree(c) {}
    }
  }

  /** Someone a grant on the node names, as the settled nodes have it. */
  ghost predicate Granted(e: Env, u: string, n: Node) {
    SubjectsSat(e, u, TrueNodes(e, u), Direct, Subjects(e, n))
  }

  /** A stored parent pointer whose condition the request meets. */
  ghost predicate Parent(e: Env, id: string, p: Node) {
    exists s | s in Subjects(e, Node(RESOURCE, id, "parent")) :: Met(s, e.holds) && s.userset == Some(p)
  }

  lemma AliasRule(e: Env, u: string, ws: string, a: Access)
    requires e.model == DefaultModel
    ensures Is(e, u, Node(WORKSPACE, ws, NameOf(a)), true) <==> Is(e, u, GradeNode(ws, GradeFor(a)), true)
  {
    NoExclusions(e);
    TrueNodesSolve(e, u);
    var n := Node(WORKSPACE, ws, NameOf(a));
    assert RewriteOf(DefaultModel, n) == ComputedBy(RoleName(GradeFor(a)));
    assert n in TrueNodes(e, u) <==> Sat(e, u, TrueNodes(e, u), TrueNodes(e, u), n, RewriteOf(e.model, n));
  }

  lemma UnionSat(e: Env, u: string, I: iset<Node>, n: Node, x: Rewrite, y: Rewrite, z: Rewrite)
    ensures Sat(e, u, I, I, n, UnionOf([x, y, z])) <==>
              Sat(e, u, I, I, n, x) || Sat(e, u, I, I, n, y) || Sat(e, u, I, I, n, z)
  {
    var children := [x, y, z];
    assert FormOf(UnionOf(children)) == AnyOf(children);
    assert x in children && y in children && z in children;
  }

  lemma PointerSat(e: Env, u: string, I: iset<Node>, id: string, rel: string)
    ensures SubjectsSat(e, u, I, Through(rel), Subjects(e, Node(RESOURCE, id, "parent"))) <==>
              exists p: Node :: Parent(e, id, p) && Node(p.ns, p.obj, rel) in I
  {
    var subjects := Subjects(e, Node(RESOURCE, id, "parent"));
    if s :| s in subjects && TargetSat(I, TargetOf(e, ByUser(u), Through(rel), s)) {
      assert Parent(e, id, s.userset.value);
    }
    if p: Node :| Parent(e, id, p) && Node(p.ns, p.obj, rel) in I {
      var s :| s in subjects && Met(s, e.holds) && s.userset == Some(p);
      assert TargetSat(I, TargetOf(e, ByUser(u), Through(rel), s));
    }
  }

  /** The rule of a resource relation over any set of nodes. */
  lemma ResourceSat(e: Env, u: string, I: iset<Node>, id: string, a: Access)
    requires e.model == DefaultModel
    ensures var n := ResourceNode(id, a);
            Sat(e, u, I, I, n, RewriteOf(e.model, n)) <==>
              || SubjectsSat(e, u, I, Direct, Subjects(e, n))
              || Node(RESOURCE, id, Stronger(a)) in I
              || exists p: Node :: Parent(e, id, p) && Node(p.ns, p.obj, NameOf(a)) in I
  {
    var n := ResourceNode(id, a);
    var y, z := ComputedBy(Stronger(a)), TupleToUserset("parent", NameOf(a));
    assert RewriteOf(DefaultModel, n) == UnionOf([ThisRewrite, y, z]);
    UnionSat(e, u, I, n, ThisRewrite, y, z);
    assert FormOf(y) == Computed(Stronger(a)) && FormOf(z) == Via("parent", NameOf(a));
    PointerSat(e, u, I, id, NameOf(a));
  }

  // ---- chains of parents ----

  /** A grant on the resource itself: on the relation or on the stronger one. */
  ghost predicate Own(e: Env, u: string, a: Access, id: string) {
    Granted(e, u, ResourceNode(id, a)) || Is(e, u, Node(RESOURCE, id, Stronger(a)), true)
  }

  /** A grant of one's own on the resource or on something at most `k` parents up. */
  ghost predicate Inherits(e: Env, u: string, a: Access, id: string, k: nat)
    decreases k
  {
    || Own(e, u, a, id)
    || (k > 0 && exists p: Node ::
          && Parent(e, id, p)
          && if p.ns == RESOURCE then Inherits(e, u, a, p.obj, k - 1) else Is(e, u, Node(p.ns, p.obj, NameOf(a)), true))
  }

  /** A grant of one's own on the resource or on something up its chain of parents. */
  ghost predicate Heir(e: Env, u: string, a: Access, id: string) {
    exists k: nat :: Inherits(e, u, a, id, k)
  }

  lemma {:induction false} HeirsAreSettled(e: Env, u: string, a: Access, id: string, k: nat)
    requires e.model == DefaultModel && Inherits(e, u, a, id, k)
    ensures Is(e, u, ResourceNode(id, a), true)
    decreases k
  {
    var I, n := TrueNodes(e, u), ResourceNode(id, a);
    NoExclusions(e);
    TrueNodesSolve(e, u);
    ResourceSat(e, u, I, id, a);
    assert n in I <==> Sat(e, u, I, I, n, RewriteOf(e.model, n));
    if !Own(e, u, a, id) {
      var p: Node :| Parent(e, id, p) && if p.ns == RESOURCE then Inherits(e, u, a, p.obj, k - 1)
                                         else Is(e, u, Node(p.ns, p.obj, NameOf(a)), true);
      if p.ns == RESOURCE { HeirsAreSettled(e, u, a, p.obj, k - 1); }
      assert Node(p.ns, p.obj, NameOf(a)) in I;
    }
  }

  /** The settled nodes without the resources nobody up the chain has a grant on. */
  ghost function WithHeirs(e: Env, u: string, a: Access): iset<Node> {
    iset n: Node | n in TrueNodes(e, u)
      && (n == ResourceNode(n.obj, a) ==> Heir(e, u, a, n.obj))
  }

  lemma {:induction false} SatMonotone(e: Env, u: string, I: iset<Node>, J: iset<Node>, n: Node, rw: Rewrite)
    requires I <= J && ExclusionFree(rw) && Sat(e, u, I, I, n, rw)
    ensures Sat(e, u, J, J, n, rw)
    decreases rw
  {
    match FormOf(rw)
    case AnyOf(children) =>
      var c :| c in children && Sat(e, u, I, I, n, c);
      SatMonotone(e, u, I, J, n, c);
    case AllOf(children) => forall c | c in children ensures Sat(e, u, J, J, n, c) { SatMonotone(e, u, I, J, n, c); }
    case _ =>
  }

  /** One more rule gives one more link of the chain. */
  lemma RuleExtends(e: Env, u: string, a: Access, id: string)
    requires e.model == DefaultModel
    requires var n := ResourceNode(id, a); Sat(e, u, WithHeirs(e, u, a), WithHeirs(e, u, a), n, RewriteOf(e.model, n))
    ensures Heir(e, u, a, id)
  {
    var I := WithHeirs(e, u, a);
    ResourceSat(e, u, I, id, a);
    if SubjectsSat(e, u, I, Direct, Subjects(e, ResourceNode(id, a))) || Node(RESOURCE, id, Stronger(a)) in I {
      assert Inherits(e, u, a, id, 0);
    } else {
      var p: Node :| Parent(e, id, p) && Node(p.ns, p.obj, NameOf(a)) in I;
      if p.ns == RESOURCE {
        assert Node(p.ns, p.obj, NameOf(a)) == ResourceNode(p.obj, a);
        var k: nat :| Inherits(e, u, a, p.obj, k);
        assert Inherits(e, u, a, id, k + 1);
      } else {
        assert Inherits(e, u, a, id, 1);
      }
    }
  }

  lemma HeirsAreClosed(e: Env, u: string, a: Access)
    requires e.model == DefaultModel
    ensures Closed(e, u, WithHeirs(e, u, a))
  {
    NoExclusions(e);
    TrueNodesClosed(e, u);
    var I := WithHeirs(e, u, a);
    forall n: Node | Sat(e, u, I, I, n, RewriteOf(e.model, n)) ensures n in I {
      SatMonotone(e, u, I, TrueNodes(e, u), n, RewriteOf(e.model, n));
      if n == ResourceNode(n.obj, a) { RuleExtends(e, u, a, n.obj); }
    }
  }

  /** Whoever has access to a resource holds a grant on it or on something up its chain of parents, and conversely. */
  lemma AccessIsInherited(e: Env, u: string, a: Access, id: string)
    requires e.model == DefaultModel
    ensures Is(e, u, ResourceNode(id, a), true) <==> Heir(e, u, a, id)
  {
    if Is(e, u, ResourceNode(id, a), true) {
      NoExclusions(e);
      HeirsAreClosed(e, u, a);
      var f: nat :| K(e, u, ResourceNode(id, a), f) == Known(true);
      TrueNodesLeast(e, u, WithHeirs(e, u, a), ResourceNode(id, a), f);
    }
    if Heir(e, u, a, id) {
      var k: nat :| Inherits(e, u, a, id, k);
      HeirsAreSettled(e, u, a, id, k);
    }
  }

  /** So a yes of Check, at any depth, comes from such a grant. */
  lemma CheckIsInherited(e: Env, u: string, a: Access, id: string)
    requires e.model == DefaultModel && Clean(e) && CleanNode(ResourceNode(id, a))
    requires TopCheck(e, ByUser(u), ResourceNode(id, a)).res == Ok(true)
    ensures Heir(e, u, a, id)
  {
    CheckFailsClosed(e, u, ResourceNode(id, a));
    AccessIsInherited(e, u, a, id);
  }

  // ---- workspaces as parents ----

  lemma PlainSat(e: Env, u: string, I: iset<Node>, n: Node)
    requires PlainUsers(Subjects(e, n))
    ensures SubjectsSat(e, u, I, Direct, Subjects(e, n)) <==> u != "" && UserOnly(u) in Subjects(e, n)
  {
  }

  lemma PairSat(e: Env, u: string, I: iset<Node>, n: Node, rel: string)
    requires rel != ""
    ensures Sat(e, u, I, I, n, UnionOf([ThisRewrite, ComputedBy(rel)])) <==>
              SubjectsSat(e, u, I, Direct, Subjects(e, n)) || Node(n.ns, n.obj, rel) in I
  {
    var children := [ThisRewrite, ComputedBy(rel)];
    assert ThisRewrite in children && ComputedBy(rel) in children;
    assert FormOf(UnionOf(children)) == AnyOf(children) && FormOf(ComputedBy(rel)) == Computed(rel);
  }

  lemma GradeSat(e: Env, u: string, I: iset<Node>, ws: string, r: Role)
    requires PlainGrades(e, ws)
    ensures var n := GradeNode(ws, r);
            Sat(e, u, I, I, n, RewriteOf(e.model, n)) <==>
              || (u != "" && UserOnly(u) in Subjects(e, n))
              || (!r.Owner? && GradeNode(ws, Above(r)) in I)
  {
    GradeRule(ws, r);
    PlainSat(e, u, I, GradeNode(ws, r));
    if !r.Owner? { PairSat(e, u, I, GradeNode(ws, r), RoleName(Above(r))); }
  }

  lemma {:induction false} GradeIsReached(e: Env, u: string, ws: string, r: Role)
    requires PlainGrades(e, ws)
    ensures Is(e, u, GradeNode(ws, r), true) <==> Reaches(e, ws, u, r)
    decreases 4 - Grade(r)
  {
    var I, n := TrueNodes(e, u), GradeNode(ws, r);
    NoExclusions(e);
    TrueNodesSolve(e, u);
    GradeSat(e, u, I, ws, r);
    assert n in I <==> Sat(e, u, I, I, n, RewriteOf(e.model, n));
    if !r.Owner? { GradeIsReached(e, u, ws, Above(r)); }
  }

  /** A workspace passes editing on to its admins and viewing to its members, and to nobody else. */
  lemma WorkspacePassesOn(e: Env, sh: Shard, now: int, u: string, ws: string, a: Access)
    requires Reads(e, sh, now)
    ensures Is(e, u, Node(WORKSPACE, ws, NameOf(a)), true) <==>
              u != "" && Ranks(sh.members, ws, u, GradeFor(a)) && (ws, u) !in Lost(sh.tuples, sh.members)
  {
    AliasRule(e, u, ws, a);
    AllPlain(e, sh, now, ws);
    GradeIsReached(e, u, ws, GradeFor(a));
    ReachesIsHolds(e, sh, now, ws, u, GradeFor(a));
    HoldsIsRank(sh.tuples, sh.members, ws, u, GradeFor(a));
  }
}
