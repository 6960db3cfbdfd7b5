/**
 What Check answers about a workspace under the default model (pkg/authz/model.go), and the guard
 every workspace operation runs it through (internal/service/service.go).
 */
module Grades {
  import opened AuthzModel
  import opened VisitKeys
  import opened Evaluator
  import opened Engine
  import opened Inert
  import opened Store
  import opened Seats
  import opened Workspaces

  function GradeNode(ws: string, r: Role): Node {
    Node(WORKSPACE, ws, RoleName(r))
  }

  /** The next higher grade. */
  function Above(r: Role): Role
    requires !r.Owner?
    ensures Grade(Above(r)) == Grade(r) + 1
  {
    match r
    case Guest => Member
    case Member => Admin
    case Admin => Owner
  }

  lemma GradeRule(ws: string, r: Role)
    ensures RewriteOf(DefaultModel, GradeNode(ws, r))
         == if r.Owner? then ThisRewrite else UnionOf([ThisRewrite, ComputedBy(RoleName(Above(r)))])
  {
  }

  /** Every grade reads its own tuples, so raw writes to it are accepted. */
  lemma WritableGrade(r: Role)
    ensures WritableRelation(DefaultModel, WORKSPACE, RoleName(r))
  {
    GradeRule("", r);
    if !r.Owner? { assert ThisRewrite in UnionOf([ThisRewrite, ComputedBy(RoleName(Above(r)))]).union; }
  }

  lemma SameObjectKeys(ws: string, a: Role, b: Role)
    requires a != b
    ensures VisitKey(GradeNode(ws, a)) != VisitKey(GradeNode(ws, b))
  {
    var prefix := WORKSPACE + ":" + ws + "#";
    assert VisitKey(GradeNode(ws, a)) == prefix + RoleName(a) && VisitKey(GradeNode(ws, b)) == prefix + RoleName(b);
    RoleNamesDiffer(a, b);
    assert (prefix + RoleName(a))[|prefix|..] == RoleName(a) && (prefix + RoleName(b))[|prefix|..] == RoleName(b);
  }

  /** A direct tuple at the grade or at one above it. */
  predicate Reaches(e: Env, ws: string, u: string, r: Role)
    decreases 4 - Grade(r)
  {
    (u != "" && UserOnly(u) in Subjects(e, GradeNode(ws, r))) || (!r.Owner? && Reaches(e, ws, u, Above(r)))
  }

  ghost predicate PlainGrades(e: Env, ws: string) {
    e.model == DefaultModel && forall r: Role :: PlainUsers(Subjects(e, GradeNode(ws, r)))
  }

  /** Depth and reads for the whole chain of grades from the guest grade up. */
  predicate Ample(e: Env) {
    e.maxDepth >= 3 && (e.maxReads <= 0 || e.maxReads >= 4)
  }

  /** Every budget the configuration accepts, global or of a project, is enough for the chain of grades. */
  lemma ConfiguredIsAmple(l: Limits, override: int, m: Model, tuples: map<Node, seq<Subject>>, holds: set<Condition>)
    requires l == NewLimits(l.maxReads, l.maxListObjects) && Configurable(l.maxReads) && Configurable(override)
    ensures Ample(Env(m, tuples, holds, l.maxDepth, EffectiveMaxReads(l, override)))
  {
  }

  /** The visited keys are those of lower grades. */
  ghost predicate Climbed(path: set<string>, ws: string, r: Role) {
    forall k | k in path :: exists q: Role :: Grade(q) < Grade(r) && k == VisitKey(GradeNode(ws, q))
  }

  lemma ClimbOne(path: set<string>, ws: string, r: Role)
    requires Climbed(path, ws, r)
    ensures VisitKey(GradeNode(ws, r)) !in path
    ensures !r.Owner? ==> Climbed(path + {VisitKey(GradeNode(ws, r))}, ws, Above(r))
  {
    forall q: Role | Grade(q) < Grade(r) { SameObjectKeys(ws, q, r); }
  }

  /** The walk up the chain, entered at the guest grade or later with as much used as grades were passed. */
  lemma {:induction false} GradeCheck(e: Env, ws: string, u: string, r: Role, path: set<string>, s: Scratch, depth: nat)
    requires PlainGrades(e, ws) && Ample(e)
    requires depth < Grade(r) && s.readCount < Grade(r) && s.memo == map[]
    requires Climbed(path, ws, r)
    ensures Check(e, ByUser(u), GradeNode(ws, r), false, path, s, depth).res == Ok(Reaches(e, ws, u, r))
    decreases 4 - Grade(r)
  {
    var n := GradeNode(ws, r);
    var path1 := path + {VisitKey(n)};
    ClimbOne(path, ws, r);
    GradeRule(ws, r);
    PlainRead(e, n, u, false, path1, s, depth);
    if !r.Owner? {
      var up := Above(r);
      GradeCheck(e, ws, u, up, path1, Charge(s), depth + 1);
      UnionOfTwo(e, u, n, up, path1, s, depth);
    }
  }

  /** A grade's rule: its own tuples, then the grade above. */
  lemma UnionOfTwo(e: Env, u: string, n: Node, up: Role, path: set<string>, s: Scratch, depth: nat)
    requires depth <= e.maxDepth
    ensures var own := EvalRewrite(e, ByUser(u), n, ThisRewrite, false, path, s, depth);
            EvalRewrite(e, ByUser(u), n, UnionOf([ThisRewrite, ComputedBy(RoleName(up))]), false, path, s, depth).res ==
              if own.res != Ok(false) then own.res
              else Check(e, ByUser(u), Node(n.ns, n.obj, RoleName(up)), false, path, own.st, depth + 1).res
  {
    var children := [ThisRewrite, ComputedBy(RoleName(up))];
    var own := EvalRewrite(e, ByUser(u), n, ThisRewrite, false, path, s, depth);
    assert FormOf(UnionOf(children)) == AnyOf(children);
    assert children[1..] == [ComputedBy(RoleName(up))] && children[1..][1..] == [];
    assert RoleName(up) != "";
    assert FormOf(ComputedBy(RoleName(up))) == Computed(RoleName(up));
    if own.res == Ok(false) {
      var next := EvalRewrite(e, ByUser(u), n, children[1..][0], false, path, own.st, depth);
      assert next == Check(e, ByUser(u), Node(n.ns, n.obj, RoleName(up)), false, path, own.st, depth + 1);
      var rest := EvalList(e, ByUser(u), n, children[1..], true, false, path, own.st, depth);
      assert next.res == Ok(false) ==> rest == EvalList(e, ByUser(u), n, [], true, false, path, next.st, depth);
      assert EvalList(e, ByUser(u), n, children, true, false, path, s, depth) == rest;
    }
  }

  /** At any depth and under any budget, from an empty memo, a yes comes from a direct tuple at the grade or above. */
  lemma {:induction false} GradeCheckSound(
      e: Env, ws: string, u: string, r: Role, path: set<string>, s: Scratch, depth: nat)
    requires PlainGrades(e, ws) && s.memo == map[]
    ensures Check(e, ByUser(u), GradeNode(ws, r), false, path, s, depth).res == Ok(true) ==> Reaches(e, ws, u, r)
    decreases 4 - Grade(r)
  {
    var n := GradeNode(ws, r);
    if VisitKey(n) in path || depth > e.maxDepth || OverBudget(e, Charge(s)) {
      GradeRule(ws, r);
      if VisitKey(n) !in path && depth <= e.maxDepth { OverBudgetStops(e, u, n, r, path + {VisitKey(n)}, s, depth); }
    } else {
      var path1 := path + {VisitKey(n)};
      GradeRule(ws, r);
      PlainRead(e, n, u, false, path1, s, depth);
      if !r.Owner? {
        GradeCheckSound(e, ws, u, Above(r), path1, Charge(s), depth + 1);
        UnionOfTwo(e, u, n, Above(r), path1, s, depth);
      }
    }
  }

  lemma OverBudgetStops(e: Env, u: string, n: Node, r: Role, path: set<string>, s: Scratch, depth: nat)
    requires depth <= e.maxDepth && OverBudget(e, Charge(s))
    ensures var rw := if r.Owner? then ThisRewrite else UnionOf([ThisRewrite, ComputedBy(RoleName(Above(r)))]);
            EvalRewrite(e, ByUser(u), n, rw, false, path, s, depth).res == BudgetExceeded
  {
    assert EvalRewrite(e, ByUser(u), n, ThisRewrite, false, path, s, depth)
        == ReadAndWalk(e, ByUser(u), Direct, Subjects(e, n), false, path, s, depth);
    if !r.Owner? { UnionOfTwo(e, u, n, Above(r), path, s, depth); }
  }

  /** Under the invariant, the engine sees plain tuples only, and reaching a grade is holding it. */
  lemma {:induction false} ReachesIsHolds(e: Env, sh: Shard, now: int, ws: string, u: string, r: Role)
    requires Backed(sh.tuples, sh.members) && Lists(e, sh.tuples, now)
    ensures PlainUsers(Subjects(e, GradeNode(ws, r)))
    ensures Reaches(e, ws, u, r) <==> u != "" && Holds(sh.tuples, ws, u, r)
    decreases 4 - Grade(r)
  {
    var n := GradeNode(ws, r);
    forall s | s in Subjects(e, n)
      ensures s == UserOnly(s.userID) && Stored(sh.tuples, RoleTuple(ws, r, s.userID))
    {
      var t := ListedSubject(e, sh.tuples, now, n, s);
      assert RowBacks(sh.members, t);
    }
    if Stored(sh.tuples, RoleTuple(ws, r, u)) { StoredIsListed(e, sh.tuples, now, RoleTuple(ws, r, u)); }
    if !r.Owner? { ReachesIsHolds(e, sh, now, ws, u, Above(r)); }
  }

  /** What the engine reads of a shard in step, under the default model. */
  ghost predicate Reads(e: Env, sh: Shard, now: int) {
    Backed(sh.tuples, sh.members) && Lists(e, sh.tuples, now) && e.model == DefaultModel
  }

  lemma AllPlain(e: Env, sh: Shard, now: int, ws: string)
    requires Reads(e, sh, now)
    ensures PlainGrades(e, ws)
  {
    forall r: Role ensures PlainUsers(Subjects(e, GradeNode(ws, r))) { ReachesIsHolds(e, sh, now, ws, "", r); }
  }

  /**
   Check under the default model: exactly the active rows of at least the asked grade that have not lost their
   tuple.
   */
  lemma WorkspaceCheckIsExact(e: Env, sh: Shard, now: int, ws: string, u: string, asked: Role)
    requires Reads(e, sh, now) && Ample(e)
    ensures TopCheck(e, ByUser(u), GradeNode(ws, asked)).res == Ok(u != "" && Holds(sh.tuples, ws, u, asked))
    ensures TopCheck(e, ByUser(u), GradeNode(ws, asked)).res
         == Ok(u != "" && Ranks(sh.members, ws, u, asked) && (ws, u) !in Lost(sh.tuples, sh.members))
  {
    AllPlain(e, sh, now, ws);
    ReachesIsHolds(e, sh, now, ws, u, asked);
    GradeCheck(e, ws, u, asked, {}, Fresh, 0);
    HoldsIsRank(sh.tuples, sh.members, ws, u, asked);
  }

  /** Loads the workspace, then asks the engine. */
  function Guard(sh: Shard, e: Env, actor: string, ws: string, asked: Role): (denial: Option<Error>)
    ensures denial.None? ==> ws in sh.workspaces
  {
    if ws !in sh.workspaces then Some(NotFound)
    else match TopCheck(e, ByUser(actor), GradeNode(ws, asked)).res
      case Ok(allowed) => if allowed then None else Some(PermissionDenied)
      case BudgetExceeded => Some(ResourceExhausted)
  }

  /** With depth and reads enough, what the engine says to the guard is what the stored role tuples say. */
  lemma GuardIsDenial(e: Env, sh: Shard, now: int, actor: string, ws: string, asked: Role)
    requires Reads(e, sh, now) && Ample(e)
    ensures Guard(sh, e, actor, ws, asked) == Denial(sh, actor, ws, asked)
  {
    WorkspaceCheckIsExact(e, sh, now, ws, actor, asked);
  }

  /** With whatever depth and reads, the guard lets through only those whom the stored role tuples do. */
  lemma GuardIsSound(e: Env, sh: Shard, now: int, actor: string, ws: string, asked: Role)
    requires Reads(e, sh, now) && Guard(sh, e, actor, ws, asked).None?
    ensures Denial(sh, actor, ws, asked).None?
  {
    AllPlain(e, sh, now, ws);
    ReachesIsHolds(e, sh, now, ws, actor, asked);
    GradeCheckSound(e, ws, actor, asked, {}, Fresh, 0);
  }
}
