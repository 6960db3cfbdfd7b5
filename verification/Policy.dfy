/**
 Who may make which request and when it is accepted, said in terms of the stored rows (internal/service). The
 service itself decides by asking the engine.
 */
module Policy {
  import opened AuthzModel
  import opened Store
  import opened Inert
  import opened Seats
  import opened Workspaces
  import opened Grades
  import opened Requests
  import opened SeatRuns
  import opened MembershipRuns

  // ---- who ----

  /** An active row of at least the asked grade that has not lost its tuple. */
  predicate Entitled(sh: Shard, actor: string, ws: string, asked: Role) {
    actor != "" && Ranks(sh.members, ws, actor, asked) && (ws, actor) !in Lost(sh.tuples, sh.members)
  }

  /** The workspace a request is about and the grade it takes; requests open to every caller name none. */
  function Asks(sh: Shard, req: Request): Option<(string, Role)> {
    match req
    case Transfer(ws, _, _) => Some((ws, Owner))
    case Delete(ws) => Some((ws, Owner))
    case Add(ws, _, _) => Some((ws, Admin))
    case ChangeRole(ws, _, _) => Some((ws, Admin))
    case RemoveUser(ws, _) => Some((ws, Admin))
    case Suspend(ws, _) => Some((ws, Admin))
    case Reinstate(ws, _) => Some((ws, Admin))
    case Invite(ws, _, _, _, _) => Some((ws, Admin))
    case RevokeInvite(id) => if id in sh.invitations then Some((sh.invitations[id].ws, Admin)) else None
    case _ => None
  }

  predicate Permitted(sh: Shard, c: Call)
    requires c.Call?
  {
    var asks := Asks(sh, c.req);
    asks.None? || Entitled(sh, c.actor, asks.value.0, asks.value.1)
  }

  /** The guard lets nobody else through. */
  lemma GuardIsStrict(sh: Shard, c: Call, ws: string, asked: Role)
    requires Inv(sh) && c.Call? && Faithful(sh, c)
    ensures Guard(sh, c.e, c.actor, ws, asked).None? ==> Entitled(sh, c.actor, ws, asked)
  {
    if Guard(sh, c.e, c.actor, ws, asked).None? { GuardIsSound(c.e, sh, c.now, c.actor, ws, asked); }
    HoldsIsRank(sh.tuples, sh.members, ws, c.actor, asked);
  }

  /** And with depth and reads enough it turns nobody else away. */
  lemma GuardIsFair(sh: Shard, c: Call, ws: string, asked: Role)
    requires Inv(sh) && c.Call? && Faithful(sh, c) && Ample(c.e)
    ensures Guard(sh, c.e, c.actor, ws, asked) ==
              if ws !in sh.workspaces then Some(NotFound)
              else if Entitled(sh, c.actor, ws, asked) then None
              else Some(PermissionDenied)
  {
    GuardIsDenial(c.e, sh, c.now, c.actor, ws, asked);
    HoldsIsRank(sh.tuples, sh.members, ws, c.actor, asked);
  }

  /** What the engine answers to the guard of a request. */
  function GuardOf(sh: Shard, c: Call): Option<Error>
    requires c.Call?
  {
    var asks := Asks(sh, c.req);
    if asks.None? then None else Guard(sh, c.e, c.actor, asks.value.0, asks.value.1)
  }

  lemma DeniedMember(sh: Shard, c: Call)
    requires c.Call? && AboutMembers(c.req) && GuardOf(sh, c).Some?
    ensures Serve(sh, c).0 == sh && Serve(sh, c).1.Refused?
  {
  }

  lemma DeniedOther(sh: Shard, c: Call)
    requires c.Call? && (c.req.Delete? || c.req.Invite? || c.req.RevokeInvite?) && GuardOf(sh, c).Some?
    ensures Serve(sh, c).0 == sh && Serve(sh, c).1.Refused?
  {
  }

  /**
   Whatever the depth and the budget: whoever lacks the standing a request takes is refused, and the request changes
   nothing.
   */
  lemma OnlyThePermittedAct(sh: Shard, c: Call)
    requires Inv(sh) && c.Call? && Faithful(sh, c) && !Permitted(sh, c)
    ensures Serve(sh, c).0 == sh && Serve(sh, c).1.Refused?
  {
    var asks := Asks(sh, c.req).value;
    GuardIsStrict(sh, c, asks.0, asks.1);
    if AboutMembers(c.req) { DeniedMember(sh, c); } else { DeniedOther(sh, c); }
  }

  // ---- when ----

  predicate WellFormed(req: Request) {
    match req
    case NewTeam(_, named, _) => named
    case Add(_, u, r) => u != "" && !r.Owner?
    case ChangeRole(_, _, r) => !r.Owner?
    case Transfer(_, u, _) => u != ""
    case Invite(_, emailGiven, r, _, _) => emailGiven && !r.Owner?
    case Limit(sku, limit) => sku != "" && (limit.None? || limit.value >= 0)
    case Assign(sku, u) => sku != "" && u != ""
    case Unassign(sku, u) => sku != "" && u != ""
    case Raw(ops) => forall op | op in ops :: ValidTuple(op.tuple)
    case _ => true
  }

  /** The workspace, the member and the invitation the request names are there. */
  predicate Present(sh: Shard, req: Request) {
    && (Asks(sh, req).Some? ==> Asks(sh, req).value.0 in sh.workspaces)
    && match req
       case ChangeRole(ws, u, _) => (ws, u) in sh.members
       case RemoveUser(ws, u) => (ws, u) in sh.members
       case Suspend(ws, u) => (ws, u) in sh.members
       case Reinstate(ws, u) => (ws, u) in sh.members
       case Accept(id, _) => id in sh.invitations
       case RevokeInvite(id) => id in sh.invitations
       case _ => true
  }

  predicate HasPersonal(sh: Shard, u: string) {
    exists x | x in sh.workspaces :: sh.workspaces[x] == Workspace(Personal, u)
  }

  /** The state the request finds does not stand in its way. */
  predicate Possible(sh: Shard, c: Call)
    requires c.Call? && Present(sh, c.req)
  {
    match c.req
    case NewTeam(id, _, _) => id !in sh.workspaces
    case NewPersonal(id, _) => HasPersonal(sh, c.actor) || id !in sh.workspaces
    case Add(ws, u, _) => sh.workspaces[ws].kind.Team? && (ws, u) !in sh.members
    case ChangeRole(ws, u, _) => !sh.members[(ws, u)].role.Owner? && sh.members[(ws, u)].status.Active?
    case RemoveUser(ws, u) => !sh.members[(ws, u)].role.Owner?
    case Suspend(ws, u) => !sh.members[(ws, u)].role.Owner?
    case Transfer(ws, _, _) => sh.workspaces[ws].kind.Team?
    case Delete(ws) => sh.workspaces[ws].kind.Team?
    case Invite(ws, _, _, id, _) => sh.workspaces[ws].kind.Team? && id !in sh.invitations
    case Accept(id, _) => sh.invitations[id].status.Pending? && c.now <= sh.invitations[id].expiresAt
    case Assign(sku, u) =>
      u in Holders(sh, sku) || sku !in sh.seatLimits || |Holders(sh, sku)| < sh.seatLimits[sku]
    case Raw(ops) => forall t | t in Picked(ops, false) :: WritableRelation(c.e.model, t.ns, t.rel)
    case _ => true
  }

  /** Requests that a suspended project does not serve; an invitation only takes one if it adds a member. */
  predicate TakesProject(sh: Shard, c: Call)
    requires c.Call? && Present(sh, c.req)
  {
    match c.req
    case Accept(id, _) => (sh.invitations[id].ws, c.actor) !in sh.members
    case _ =>
      || c.req.NewTeam? || c.req.Add? || c.req.Transfer? || c.req.Invite? || c.req.Limit? || c.req.Assign?
      || c.req.Unassign? || c.req.Raw?
  }

  predicate Acceptable(sh: Shard, c: Call)
    requires c.Call?
  {
    && WellFormed(c.req) && Permitted(sh, c) && Present(sh, c.req) && Possible(sh, c)
    && (TakesProject(sh, c) ==> c.active)
  }

  /** No crash cuts the request short. */
  predicate Whole(req: Request) {
    match req
    case NewTeam(_, _, steps) => steps >= 2
    case NewPersonal(_, steps) => steps >= 2
    case Transfer(_, _, steps) => steps >= 3
    case Accept(_, steps) => steps >= 2
    case _ => true
  }

  /** Why a request is refused; of several reasons the service names one. */
  predicate Reason(sh: Shard, c: Call, error: Error)
    requires c.Call?
  {
    var held := Present(sh, c.req) && TakesProject(sh, c) && !c.active;
    var hindered := Present(sh, c.req) && !Possible(sh, c);
    match error
    case InvalidArgument => !WellFormed(c.req) || (c.req.Raw? && hindered)
    case PermissionDenied => !Permitted(sh, c)
    case NotFound => !Present(sh, c.req) || (c.req.NewPersonal? && hindered)
    case AlreadyExists => hindered
    case FailedPrecondition => held || hindered || (c.req.Invite? && !c.active)
    case ResourceExhausted => c.req.Assign? && hindered
  }

  predicate Decided(sh: Shard, c: Call, reply: Reply)
    requires c.Call?
  {
    && (reply.Done? <==> Acceptable(sh, c))
    && (reply.Refused? ==> Reason(sh, c, reply.error))
  }

  /** The guard of the request tells the caller's standing. */
  predicate Tells(sh: Shard, c: Call, denial: Option<Error>)
    requires c.Call? && Asks(sh, c.req).Some?
  {
    denial ==
      if Asks(sh, c.req).value.0 !in sh.workspaces then Some(NotFound)
      else if Permitted(sh, c) then None
      else Some(PermissionDenied)
  }

  lemma AddDecided(sh: Shard, c: Call, denial: Option<Error>)
    requires c.Call? && c.req.Add? && Tells(sh, c, denial)
    ensures Decided(sh, c, AddMember(sh, c.active, denial, c.req.ws, c.req.user, c.req.role).1)
  {
  }

  lemma ChangeRoleDecided(sh: Shard, c: Call, denial: Option<Error>)
    requires c.Call? && c.req.ChangeRole? && Tells(sh, c, denial)
    ensures Decided(sh, c, UpdateMemberRole(sh, denial, c.req.ws, c.req.user, c.req.role).1)
  {
  }

  lemma RemoveUserDecided(sh: Shard, c: Call, denial: Option<Error>)
    requires c.Call? && c.req.RemoveUser? && Tells(sh, c, denial)
    ensures Decided(sh, c, RemoveMember(sh, denial, c.req.ws, c.req.user).1)
  {
  }

  lemma SuspendDecided(sh: Shard, c: Call, denial: Option<Error>)
    requires c.Call? && c.req.Suspend? && Tells(sh, c, denial)
    ensures Decided(sh, c, SuspendMember(sh, denial, c.req.ws, c.req.user).1)
  {
  }

  lemma ReinstateDecided(sh: Shard, c: Call, denial: Option<Error>)
    requires c.Call? && c.req.Reinstate? && Tells(sh, c, denial)
    ensures Decided(sh, c, ReinstateMember(sh, denial, c.req.ws, c.req.user).1)
  {
  }

  lemma TransferDecided(sh: Shard, c: Call, denial: Option<Error>)
    requires c.Call? && c.req.Transfer? && Tells(sh, c, denial) && Whole(c.req)
    ensures Decided(sh, c, TransferOwnership(sh, c.active, denial, c.req.ws, c.req.user, c.req.steps).1)
  {
  }

  lemma DeleteDecided(sh: Shard, c: Call, denial: Option<Error>)
    requires c.Call? && c.req.Delete? && Tells(sh, c, denial)
    ensures Decided(sh, c, DeleteWorkspace(sh, denial, c.req.ws).1)
  {
  }

  lemma InviteDecided(sh: Shard, c: Call, denial: Option<Error>)
    requires c.Call? && c.req.Invite? && Tells(sh, c, denial)
    ensures var q := c.req;
            var reply := CreateInvitation(sh, c.active, denial, q.ws, q.emailGiven, q.role, q.id, q.tokenHash, c.now).1;
            Decided(sh, c, reply)
  {
  }

  lemma RevokeInviteDecided(sh: Shard, c: Call, denial: Option<Error>)
    requires c.Call? && c.req.RevokeInvite? && (c.req.id in sh.invitations ==> Tells(sh, c, denial))
    ensures Decided(sh, c, RevokeInvitation(sh, denial, c.req.id).1)
  {
  }

  lemma MemberDecided(sh: Shard, c: Call, denial: Option<Error>)
    requires c.Call? && AboutMembers(c.req) && denial == GuardOf(sh, c) && Tells(sh, c, denial) && Whole(c.req)
    ensures Decided(sh, c, Serve(sh, c).1)
  {
    match c.req
    case Add(_, _, _) => AddDecided(sh, c, denial);
    case ChangeRole(_, _, _) => ChangeRoleDecided(sh, c, denial);
    case RemoveUser(_, _) => RemoveUserDecided(sh, c, denial);
    case Suspend(_, _) => SuspendDecided(sh, c, denial);
    case Reinstate(_, _) => ReinstateDecided(sh, c, denial);
    case Transfer(_, _, _) => TransferDecided(sh, c, denial);
  }

  lemma DeleteServeDecided(sh: Shard, c: Call, denial: Option<Error>)
    requires c.Call? && c.req.Delete? && denial == GuardOf(sh, c) && Asks(sh, c.req).Some? && Tells(sh, c, denial)
    ensures Decided(sh, c, Serve(sh, c).1)
  {
    assert Serve(sh, c) == DeleteWorkspace(sh, denial, c.req.ws);
    DeleteDecided(sh, c, denial);
  }

  lemma InviteServeDecided(sh: Shard, c: Call, denial: Option<Error>)
    requires c.Call? && c.req.Invite? && denial == GuardOf(sh, c) && Asks(sh, c.req).Some? && Tells(sh, c, denial)
    ensures Decided(sh, c, Serve(sh, c).1)
  {
    assert Serve(sh, c) == CreateInvitation(
             sh, c.active, denial, c.req.ws, c.req.emailGiven, c.req.role, c.req.id, c.req.tokenHash, c.now);
    InviteDecided(sh, c, denial);
  }

  lemma RevokeServeDecided(sh: Shard, c: Call, denial: Option<Error>)
    requires c.Call? && c.req.RevokeInvite? && denial == GuardOf(sh, c) && Asks(sh, c.req).Some? && Tells(sh, c, denial)
    ensures Decided(sh, c, Serve(sh, c).1)
  {
    assert Serve(sh, c) == RevokeInvitation(sh, denial, c.req.id);
    RevokeInviteDecided(sh, c, denial);
  }

  lemma NewDecided(sh: Shard, c: Call)
    requires c.Call? && Whole(c.req) && (c.req.NewTeam? || c.req.NewPersonal?)
    ensures Decided(sh, c, Serve(sh, c).1)
  {
  }

  lemma AcceptDecided(sh: Shard, c: Call)
    requires c.Call? && Whole(c.req) && c.req.Accept?
    ensures Decided(sh, c, Serve(sh, c).1)
  {
  }

  lemma OpenDecided(sh: Shard, c: Call)
    requires c.Call? && (AboutSeats(c.req) || c.req.Raw? || (c.req.RevokeInvite? && Asks(sh, c.req).None?))
    ensures Decided(sh, c, Serve(sh, c).1)
  {
  }

  /**
   A request that no crash cuts short is accepted exactly when it is well formed, the caller has the standing it takes,
   what it names is there and the state allows it; and every refusal names a true reason.
   */
  lemma AcceptedIff(sh: Shard, c: Call)
    requires Inv(sh) && c.Call? && Faithful(sh, c) && Ample(c.e) && Whole(c.req)
    ensures Decided(sh, c, Serve(sh, c).1)
  {
    if Asks(sh, c.req).Some? {
      var asks := Asks(sh, c.req).value;
      GuardIsFair(sh, c, asks.0, asks.1);
      if AboutMembers(c.req) {
        MemberDecided(sh, c, GuardOf(sh, c));
      } else if c.req.Delete? {
        DeleteServeDecided(sh, c, GuardOf(sh, c));
      } else if c.req.Invite? {
        InviteServeDecided(sh, c, GuardOf(sh, c));
      } else {
        RevokeServeDecided(sh, c, GuardOf(sh, c));
      }
    } else if c.req.NewTeam? || c.req.NewPersonal? {
      NewDecided(sh, c);
    } else if c.req.Accept? {
      AcceptDecided(sh, c);
    } else {
      OpenDecided(sh, c);
    }
  }
}
