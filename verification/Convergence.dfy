/**
 One personal workspace per user (internal/service/workspaces.go): over every run of requests, and when any
 number of first calls interleave step by step with each other and with other requests.
 */
module Convergence {
  import opened AuthzModel
  import opened Store
  import opened Seats
  import opened Workspaces
  import opened Grades
  import opened Requests
  import opened SeatRuns

  type WorkspaceRows = map<string, Workspace>

  /** No user has two personal workspaces. */
  predicate OnePersonal(w: WorkspaceRows) {
    forall x, y | x in w && y in w && w[x].kind.Personal? && w[x] == w[y] :: x == y
  }

  predicate HasPersonal(w: WorkspaceRows, owner: string) {
    exists x | x in w :: w[x] == Workspace(Personal, owner)
  }

  /** Personal workspaces stay as they are, and nobody gets a second one. */
  predicate PersonalKept(w: WorkspaceRows, w': WorkspaceRows) {
    && (OnePersonal(w) ==> OnePersonal(w'))
    && forall x | x in w && w[x].kind.Personal? :: x in w' && w'[x] == w[x]
  }

  // ---- every request ----

  lemma RowKeepsPersonal(sh: Shard, id: string, row: Workspace)
    ensures PersonalKept(sh.workspaces, CreateWorkspaceRow(sh, id, row).0.workspaces)
  {
  }

  lemma CreateKeepsPersonal(sh: Shard, id: string, kind: WorkspaceType, owner: string, steps: nat)
    ensures PersonalKept(sh.workspaces, CreateWorkspaceWithOwner(sh, id, kind, owner, steps).0.workspaces)
  {
    RowKeepsPersonal(sh, id, Workspace(kind, owner));
  }

  lemma TransferKeepsPersonal(sh: Shard, ws: string, u: string, steps: nat)
    requires ws in sh.workspaces && sh.workspaces[ws].kind.Team?
    ensures PersonalKept(sh.workspaces, TransferSteps(sh, ws, u, steps).workspaces)
  {
    var sh1 := Promote(sh, ws, u);
    assert sh1.workspaces == sh.workspaces;
    var sh2 := RecordOwner(sh1, ws, u);
    assert sh2.workspaces == sh.workspaces[ws := Workspace(Team, u)];
    assert Demote(sh2, ws, sh.workspaces[ws].owner).workspaces == sh2.workspaces;
  }

  lemma DeleteKeepsPersonal(sh: Shard, ws: string)
    requires ws in sh.workspaces && sh.workspaces[ws].kind.Team?
    ensures PersonalKept(sh.workspaces, DeleteWorkspaceRow(sh, ws).0.workspaces)
  {
  }

  // requests that touch no workspace row

  lemma AddKeepsRows(sh: Shard, active: bool, denial: Option<Error>, ws: string, u: string, r: Role)
    requires denial.None? ==> ws in sh.workspaces
    ensures AddMember(sh, active, denial, ws, u, r).0.workspaces == sh.workspaces
  {
  }

  lemma MemberKeepsRows(sh: Shard, denial: Option<Error>, ws: string, u: string, r: Role)
    ensures UpdateMemberRole(sh, denial, ws, u, r).0.workspaces == sh.workspaces
    ensures RemoveMember(sh, denial, ws, u).0.workspaces == sh.workspaces
    ensures SuspendMember(sh, denial, ws, u).0.workspaces == sh.workspaces
    ensures ReinstateMember(sh, denial, ws, u).0.workspaces == sh.workspaces
  {
  }

  lemma InviteKeepsRows(
      sh: Shard, active: bool, denial: Option<Error>, ws: string, given: bool, r: Role, id: string, hash: string,
      now: int)
    requires denial.None? ==> ws in sh.workspaces
    ensures CreateInvitation(sh, active, denial, ws, given, r, id, hash, now).0.workspaces == sh.workspaces
  {
  }

  lemma AcceptKeepsRows(sh: Shard, active: bool, actor: string, id: string, now: int, steps: nat)
    ensures AcceptInvitation(sh, active, actor, id, now, steps).0.workspaces == sh.workspaces
  {
  }

  lemma SeatKeepsRows(sh: Shard, active: bool, sku: string, u: string)
    ensures AssignSeat(sh, active, sku, u).0.workspaces == RevokeSeat(sh, active, sku, u).0.workspaces == sh.workspaces
  {
  }

  lemma RawKeepsRows(sh: Shard, active: bool, model: Model, ops: seq<TupleOp>)
    ensures WriteTuples(sh, active, model, ops).0.workspaces == sh.workspaces
  {
  }

  lemma RevokeKeepsRows(sh: Shard, denial: Option<Error>, id: string)
    ensures RevokeInvitation(sh, denial, id).0.workspaces == sh.workspaces
  {
  }

  lemma MembersKeepRows(sh: Shard, c: Call)
    requires c.Call? && AboutMembers(c.req) && !c.req.Transfer?
    ensures Serve(sh, c).0.workspaces == sh.workspaces
  {
    match c.req
    case Add(ws, u, r) => AddKeepsRows(sh, c.active, Guard(sh, c.e, c.actor, ws, Admin), ws, u, r);
    case ChangeRole(ws, u, r) => MemberKeepsRows(sh, Guard(sh, c.e, c.actor, ws, Admin), ws, u, r);
    case RemoveUser(ws, u) => MemberKeepsRows(sh, Guard(sh, c.e, c.actor, ws, Admin), ws, u, Guest);
    case Suspend(ws, u) => MemberKeepsRows(sh, Guard(sh, c.e, c.actor, ws, Admin), ws, u, Guest);
    case Reinstate(ws, u) => MemberKeepsRows(sh, Guard(sh, c.e, c.actor, ws, Admin), ws, u, Guest);
  }

  lemma OthersKeepRows(sh: Shard, c: Call)
    requires c.Call? && (AboutSeats(c.req) || c.req.Raw? || c.req.Invite? || c.req.RevokeInvite? || c.req.Accept?)
    ensures Serve(sh, c).0.workspaces == sh.workspaces
  {
    match c.req
    case Invite(ws, given, r, id, hash) =>
      InviteKeepsRows(sh, c.active, Guard(sh, c.e, c.actor, ws, Admin), ws, given, r, id, hash, c.now);
    case Accept(id, steps) => AcceptKeepsRows(sh, c.active, c.actor, id, c.now, steps);
    case Assign(sku, u) => SeatKeepsRows(sh, c.active, sku, u);
    case Unassign(sku, u) => SeatKeepsRows(sh, c.active, sku, u);
    case Raw(ops) => RawKeepsRows(sh, c.active, c.e.model, ops);
    case RevokeInvite(id) => RevokeKeepsRows(sh, InviteGuard(sh, c.e, c.actor, id), id);
    case Limit(_, _) =>
  }

  lemma ServeKeepsPersonal(sh: Shard, c: Call)
    requires c.Call?
    ensures PersonalKept(sh.workspaces, Serve(sh, c).0.workspaces)
  {
    match c.req
    case NewTeam(id, _, steps) => CreateKeepsPersonal(sh, id, Team, c.actor, steps);
    case NewPersonal(id, steps) => CreateKeepsPersonal(sh, id, Personal, c.actor, steps);
    case Transfer(ws, u, steps) =>
      if ws in sh.workspaces && sh.workspaces[ws].kind.Team? { TransferKeepsPersonal(sh, ws, u, steps); }
    case Delete(ws) => if ws in sh.workspaces && sh.workspaces[ws].kind.Team? { DeleteKeepsPersonal(sh, ws); }
    case _ => if AboutMembers(c.req) { MembersKeepRows(sh, c); } else { OthersKeepRows(sh, c); }
  }

  lemma StepKeepsPersonal(sh: Shard, sk: string, c: Call)
    ensures PersonalKept(sh.workspaces, StepAt(sh, sk, c).workspaces)
  {
    if c.Call? { ServeKeepsPersonal(sh, c); }
  }

  /** After every run of any requests, no user has two personal workspaces. */
  lemma {:induction false} OnePersonalAlways(calls: seq<Call>, sk: string)
    ensures OnePersonal(At(Run(map[], calls), sk).workspaces)
    decreases |calls|
  {
    if calls != [] {
      var before, c := calls[..|calls| - 1], calls[|calls| - 1];
      OnePersonalAlways(before, sk);
      StepIsLocal(Run(map[], before), c, sk);
      StepKeepsPersonal(At(Run(map[], before), sk), sk, c);
    }
  }

  // ---- interleaved first calls ----

  /**
   Where a call stands between its repository steps. A refused creation looks again; `collided` is whether the
   new id itself was taken.
   */
  datatype Stage =
    | Looking
    | Creating
    | Owning
    | Again(collided: bool)
    | Ended(found: string)
    | Failed(collided: bool)

  datatype Visit = Visit(owner: string, newId: string, stage: Stage)

  datatype System = System(shard: Shard, visits: seq<Visit>)

  /** A lookup finds a personal workspace of the owner, whichever, or there is none. */
  predicate Looks(w: WorkspaceRows, owner: string, otherwise: Stage, next: Stage) {
    if next.Ended? then next.found in w && w[next.found] == Workspace(Personal, owner)
    else next == otherwise && !HasPersonal(w, owner)
  }

  /** One repository step of a call. */
  predicate Acts(sh: Shard, v: Visit, sh': Shard, next: Stage) {
    match v.stage
    case Looking => sh' == sh && Looks(sh.workspaces, v.owner, Creating, next)
    case Creating =>
      var (made, reply) := CreateWorkspaceRow(sh, v.newId, Workspace(Personal, v.owner));
      sh' == made && next == if reply.Done? then Owning else Again(v.newId in sh.workspaces)
    case Owning =>
      && sh' == PutMembershipAndTuples(sh, v.newId, v.owner, Membership(Owner, Active),
                                       [RoleTuple(v.newId, Owner, v.owner)], [])
      && next == Ended(v.newId)
    case Again(collided) => sh' == sh && Looks(sh.workspaces, v.owner, Failed(collided), next)
    case _ => false
  }

  /** A call that runs alone does what the whole operation does. */
  lemma AloneIsEnsure(sh: Shard, v: Visit, first: Stage, made: Shard, second: Stage, sh': Shard, third: Stage)
    requires v.stage.Looking? && Acts(sh, v, sh, first)
    requires first.Creating? ==>
               Acts(sh, v.(stage := first), made, second) && Acts(made, v.(stage := second), sh', third)
    ensures var last, after := if first.Creating? then third else first, if first.Creating? then sh' else sh;
            && after == EnsurePersonal(sh, v.newId, v.owner, 2).0
            && EnsurePersonal(sh, v.newId, v.owner, 2).1 == if last.Ended? then Done else Refused(NotFound)
  {
  }

  /** One call takes one step, or another request is served. */
  ghost predicate Next(s: System, s': System) {
    || (exists i: nat, next: Stage ::
          && i < |s.visits| && Acts(s.shard, s.visits[i], s'.shard, next)
          && s'.visits == s.visits[i := s.visits[i].(stage := next)])
    || (exists sk: string, c: Call :: s' == s.(shard := StepAt(s.shard, sk, c)))
  }

  /** What the stage of a call says about the rows. */
  predicate Witnessed(w: WorkspaceRows, v: Visit) {
    match v.stage
    case Looking => true
    case Creating => true
    case Owning => v.newId in w && w[v.newId] == Workspace(Personal, v.owner)
    case Again(collided) => collided || HasPersonal(w, v.owner)
    case Ended(x) => x in w && w[x] == Workspace(Personal, v.owner)
    case Failed(collided) => collided
  }

  predicate Good(s: System) {
    OnePersonal(s.shard.workspaces) && forall v | v in s.visits :: Witnessed(s.shard.workspaces, v)
  }

  lemma WitnessedStays(w: WorkspaceRows, w': WorkspaceRows, v: Visit)
    requires Witnessed(w, v) && PersonalKept(w, w')
    ensures Witnessed(w', v)
  {
    if v.stage.Again? && !v.stage.collided {
      var x :| x in w && w[x] == Workspace(Personal, v.owner);
      assert w'[x] == w[x];
    }
  }

  lemma ActKeeps(sh: Shard, v: Visit, sh': Shard, next: Stage)
    requires Acts(sh, v, sh', next) && Witnessed(sh.workspaces, v)
    ensures PersonalKept(sh.workspaces, sh'.workspaces) && Witnessed(sh'.workspaces, v.(stage := next))
  {
    if v.stage.Creating? { RowKeepsPersonal(sh, v.newId, Workspace(Personal, v.owner)); }
  }

  lemma NextKeeps(s: System, s': System)
    requires Good(s) && Next(s, s')
    ensures Good(s')
  {
    if i: nat, next: Stage :|
      && i < |s.visits| && Acts(s.shard, s.visits[i], s'.shard, next)
      && s'.visits == s.visits[i := s.visits[i].(stage := next)]
    {
      ActKeeps(s.shard, s.visits[i], s'.shard, next);
      forall v | v in s.visits { WitnessedStays(s.shard.workspaces, s'.shard.workspaces, v); }
    } else {
      var sk: string, c: Call :| s' == s.(shard := StepAt(s.shard, sk, c));
      StepKeepsPersonal(s.shard, sk, c);
      forall v | v in s.visits { WitnessedStays(s.shard.workspaces, s'.shard.workspaces, v); }
    }
  }

  ghost predicate Schedule(run: seq<System>) {
    && run != [] && OnePersonal(run[0].shard.workspaces) && (forall v | v in run[0].visits :: v.stage.Looking?)
    && forall k | 0 <= k < |run| - 1 :: Next(run[k], run[k + 1])
  }

  lemma {:induction false} ScheduleStaysGood(run: seq<System>, k: nat)
    requires Schedule(run) && k < |run|
    ensures Good(run[k])
    decreases k
  {
    if k > 0 {
      ScheduleStaysGood(run, k - 1);
      NextKeeps(run[k - 1], run[k]);
    }
  }

  /**
   However first calls interleave with each other and with other requests: at every point all calls of a user that
   have ended hold the same workspace, which is there and theirs; and a call fails only if its new id was taken.
   */
  lemma FirstCallsConverge(run: seq<System>, k: nat, a: Visit, b: Visit)
    requires Schedule(run) && k < |run| && a in run[k].visits && b in run[k].visits
    ensures a.stage.Ended? && b.stage.Ended? && a.owner == b.owner ==>
              && a.stage.found == b.stage.found && a.stage.found in run[k].shard.workspaces
              && run[k].shard.workspaces[a.stage.found] == Workspace(Personal, a.owner)
    ensures a.stage.Failed? ==> a.stage.collided
  {
    ScheduleStaysGood(run, k);
  }
}
