/**
 The service as a state machine: every request it serves, on every (project, tenant) shard, in any
 order, with crashes between repository steps; and what holds over all its runs.
 */
module Requests {
  import opened AuthzModel
  import opened TupleKeys
  import opened Store
  import opened Seats
  import opened Workspaces
  import opened Grades

  datatype Request =
    | NewTeam(id: string, named: bool, steps: nat)
    | NewPersonal(id: string, steps: nat)
    | Add(ws: string, user: string, role: Role)
    | ChangeRole(ws: string, user: string, role: Role)
    | RemoveUser(ws: string, user: string)
    | Suspend(ws: string, user: string)
    | Reinstate(ws: string, user: string)
    | Transfer(ws: string, user: string, steps: nat)
    | Delete(ws: string)
    | Invite(ws: string, emailGiven: bool, role: Role, id: string, tokenHash: string)
    | Accept(id: string, steps: nat)
    | RevokeInvite(id: string)
    | Limit(sku: string, limit: Option<int>)
    | Assign(sku: string, user: string)
    | Unassign(sku: string, user: string)
    | Raw(ops: seq<TupleOp>)

  /**
   One request. `active` is whether the project is active and served here, `e` what the engine reads
   during the call, `now` the clock.
   */
  datatype Call =
    | Call(project: string, tenant: string, actor: string, active: bool, e: Env, now: int, req: Request)
    | Deprovision(project: string, user: string)

  function SeatReply(a: Assigned): Reply {
    if a.SeatRefused? then Refused(a.error) else Done
  }

  function Serve(sh: Shard, c: Call): (Shard, Reply)
    requires c.Call?
  {
    match c.req
    case NewTeam(id, named, steps) => CreateTeam(sh, c.active, named, id, c.actor, steps)
    case NewPersonal(id, steps) => EnsurePersonal(sh, id, c.actor, steps)
    case Add(ws, u, r) => AddMember(sh, c.active, Guard(sh, c.e, c.actor, ws, Admin), ws, u, r)
    case ChangeRole(ws, u, r) => UpdateMemberRole(sh, Guard(sh, c.e, c.actor, ws, Admin), ws, u, r)
    case RemoveUser(ws, u) => RemoveMember(sh, Guard(sh, c.e, c.actor, ws, Admin), ws, u)
    case Suspend(ws, u) => SuspendMember(sh, Guard(sh, c.e, c.actor, ws, Admin), ws, u)
    case Reinstate(ws, u) => ReinstateMember(sh, Guard(sh, c.e, c.actor, ws, Admin), ws, u)
    case Transfer(ws, u, steps) => TransferOwnership(sh, c.active, Guard(sh, c.e, c.actor, ws, Owner), ws, u, steps)
    case Delete(ws) => DeleteWorkspace(sh, Guard(sh, c.e, c.actor, ws, Owner), ws)
    case Invite(ws, emailGiven, r, id, tokenHash) =>
      CreateInvitation(sh, c.active, Guard(sh, c.e, c.actor, ws, Admin), ws, emailGiven, r, id, tokenHash, c.now)
    case Accept(id, steps) => AcceptInvitation(sh, c.active, c.actor, id, c.now, steps)
    case RevokeInvite(id) => RevokeInvitation(sh, InviteGuard(sh, c.e, c.actor, id), id)
    case Limit(sku, limit) => SetSeatLimit(sh, c.active, sku, limit)
    case Assign(sku, u) => var r := AssignSeat(sh, c.active, sku, u); (r.0, SeatReply(r.1))
    case Unassign(sku, u) => RevokeSeat(sh, c.active, sku, u)
    case Raw(ops) => WriteTuples(sh, c.active, c.e.model, ops)
  }

  /** The guard of the workspace an invitation is for. */
  function InviteGuard(sh: Shard, e: Env, actor: string, id: string): Option<Error> {
    if id in sh.invitations then Guard(sh, e, actor, sh.invitations[id].ws, Admin) else Some(NotFound)
  }

  function Step(shards: Shards, c: Call): Shards {
    match c
    case Call(project, tenant, _, _, _, _, _) =>
      shards[Scope(project, tenant) := Serve(At(shards, Scope(project, tenant)), c).0]
    case Deprovision(project, u) => if u == "" then shards else EraseUserInProject(shards, project, u)
  }

  function Run(shards: Shards, calls: seq<Call>): Shards
    decreases |calls|
  {
    if calls == [] then shards else Step(Run(shards, calls[..|calls| - 1]), calls[|calls| - 1])
  }

  /** What a call does to one shard. */
  function StepAt(sh: Shard, sk: string, c: Call): Shard {
    match c
    case Call(project, tenant, _, _, _, _, _) => if sk == Scope(project, tenant) then Serve(sh, c).0 else sh
    case Deprovision(project, u) => if u != "" && InProject(sk, project) then EraseUser(sh, u) else sh
  }

  /** A call acts on each shard by itself. */
  lemma StepIsLocal(shards: Shards, c: Call, sk: string)
    ensures At(Step(shards, c), sk) == StepAt(At(shards, sk), sk, c)
  {
    if c.Deprovision? && sk !in shards {
      assert EraseUser(EmptyShard, c.user).tuples == map[] && EraseUser(EmptyShard, c.user).seats == map[];
    }
  }
}
