/**
 What an accepted request has achieved, and that no request touches a row it does not name (internal/service).
 */
module Outcomes {
  import opened AuthzModel
  import opened TupleKeys
  import opened Store
  import opened Seats
  import opened Workspaces
  import opened Grades
  import opened MembershipSteps
  import opened Requests
  import opened SeatRuns
  import opened MembershipRuns
  import opened Policy

  // ---- what a request is for ----

  /** What an accepted request has achieved. */
  predicate Achieved(sh: Shard, sh': Shard, c: Call)
    requires c.Call? && Present(sh, c.req)
  {
    match c.req
    case NewTeam(id, _, _) =>
      id in sh'.workspaces && sh'.workspaces[id] == Workspace(Team, c.actor) && Has(sh', id, c.actor, Owner)
    case NewPersonal(id, _) =>
      if HasPersonal(sh, c.actor) then sh' == sh
      else id in sh'.workspaces && sh'.workspaces[id] == Workspace(Personal, c.actor) && Has(sh', id, c.actor, Owner)
    case Add(ws, u, r) => Has(sh', ws, u, r)
    case ChangeRole(ws, u, r) => Has(sh', ws, u, r)
    case RemoveUser(ws, u) => (ws, u) !in sh'.members
    case Suspend(ws, u) =>
      (ws, u) in sh'.members && sh'.members[(ws, u)] == Membership(sh.members[(ws, u)].role, Suspended)
    case Reinstate(ws, u) => Has(sh', ws, u, sh.members[(ws, u)].role)
    case Transfer(ws, u, _) =>
      && ws in sh'.workspaces && sh'.workspaces[ws] == Workspace(Team, u) && Has(sh', ws, u, Owner)
      && (sh.workspaces[ws].owner != u ==> Has(sh', ws, sh.workspaces[ws].owner, Admin))
    case Delete(ws) =>
      && ws !in sh'.workspaces && (forall p | p in sh'.members :: p.0 != ws)
      && forall i | i in sh'.invitations :: sh'.invitations[i].ws != ws
    case Invite(ws, _, r, id, hash) =>
      id in sh'.invitations && sh'.invitations[id] == Invitation(ws, r, Pending, hash, c.now + 7 * 24 * 3600)
    case Accept(id, _) =>
      var inv := sh.invitations[id];
      && id in sh'.invitations && sh'.invitations[id].status.Accepted?
      && if (inv.ws, c.actor) in sh.members then sh'.members == sh.members else Has(sh', inv.ws, c.actor, inv.role)
    case RevokeInvite(id) => id in sh'.invitations && !sh'.invitations[id].status.Pending?
    case Limit(sku, limit) => if limit.Some? then sku in sh'.seatLimits && sh'.seatLimits[sku] == limit.value
                              else sku !in sh'.seatLimits
    case Assign(sku, u) => u in Holders(sh', sku)
    case Unassign(sku, u) => u !in Holders(sh', sku)
    case Raw(ops) => sh'.tuples == Write(sh.tuples, Picked(ops, false), Picked(ops, true))
  }

  predicate Has(sh: Shard, ws: string, u: string, r: Role) {
    (ws, u) in sh.members && sh.members[(ws, u)] == Membership(r, Active)
  }

  /** Done, on what is there, and achieved. */
  predicate Settled(sh: Shard, c: Call, o: (Shard, Reply))
    requires c.Call?
  {
    o.1.Done? ==> Present(sh, c.req) && Achieved(sh, o.0, c)
  }

  lemma AddSettled(sh: Shard, c: Call, denial: Option<Error>)
    requires c.Call? && c.req.Add? && (denial.None? ==> c.req.ws in sh.workspaces)
    ensures Settled(sh, c, AddMember(sh, c.active, denial, c.req.ws, c.req.user, c.req.role))
  {
  }

  lemma ChangeRoleSettled(sh: Shard, c: Call, denial: Option<Error>)
    requires c.Call? && c.req.ChangeRole? && (denial.None? ==> c.req.ws in sh.workspaces)
    ensures Settled(sh, c, UpdateMemberRole(sh, denial, c.req.ws, c.req.user, c.req.role))
  {
  }

  lemma RemoveUserSettled(sh: Shard, c: Call, denial: Option<Error>)
    requires c.Call? && c.req.RemoveUser? && (denial.None? ==> c.req.ws in sh.workspaces)
    ensures Settled(sh, c, RemoveMember(sh, denial, c.req.ws, c.req.user))
  {
  }

  lemma SuspendSettled(sh: Shard, c: Call, denial: Option<Error>)
    requires c.Call? && c.req.Suspend? && (denial.None? ==> c.req.ws in sh.workspaces)
    ensures Settled(sh, c, SuspendMember(sh, denial, c.req.ws, c.req.user))
  {
  }

  lemma ReinstateSettled(sh: Shard, c: Call, denial: Option<Error>)
    requires c.Call? && c.req.Reinstate? && (denial.None? ==> c.req.ws in sh.workspaces)
    ensures Settled(sh, c, ReinstateMember(sh, denial, c.req.ws, c.req.user))
  {
  }

  lemma DeleteSettled(sh: Shard, c: Call, denial: Option<Error>)
    requires c.Call? && c.req.Delete? && (denial.None? ==> c.req.ws in sh.workspaces)
    ensures Settled(sh, c, DeleteWorkspace(sh, denial, c.req.ws))
  {
  }

  lemma MemberSettled(sh: Shard, c: Call)
    requires c.Call? && AboutMembers(c.req) && !c.req.Transfer?
    ensures Settled(sh, c, Serve(sh, c))
  {
    var denial := Guard(sh, c.e, c.actor, c.req.ws, Admin);
    match c.req
    case Add(_, _, _) => AddSettled(sh, c, denial);
    case ChangeRole(_, _, _) => ChangeRoleSettled(sh, c, denial);
    case RemoveUser(_, _) => RemoveUserSettled(sh, c, denial);
    case Suspend(_, _) => SuspendSettled(sh, c, denial);
    case Reinstate(_, _) => ReinstateSettled(sh, c, denial);
  }

  lemma RowsTransferred(sh: Shard, ws: string, u: string)
    requires Inv(sh) && HasOwner(sh, ws) && sh.workspaces[ws].kind.Team? && u != sh.workspaces[ws].owner
    ensures var sh' := TransferSteps(sh, ws, u, 3);
            && ws in sh'.workspaces && sh'.workspaces[ws] == Workspace(Team, u)
            && Has(sh', ws, u, Owner) && Has(sh', ws, sh.workspaces[ws].owner, Admin)
  {
    AllStepsKeep(sh, ws, u);
  }

  lemma TransferSettled(sh: Shard, c: Call)
    requires Inv(sh) && c.Call? && Faithful(sh, c) && c.req.Transfer?
    ensures Settled(sh, c, Serve(sh, c))
  {
    GuardFindsOwner(sh, c, c.req.ws, Owner);
    if Serve(sh, c).1.Done? && c.req.user != sh.workspaces[c.req.ws].owner {
      RowsTransferred(sh, c.req.ws, c.req.user);
      assert Serve(sh, c).0 == TransferSteps(sh, c.req.ws, c.req.user, 3);
    }
  }

  lemma CreateSettled(sh: Shard, id: string, kind: WorkspaceType, owner: string, steps: nat)
    ensures var (sh', reply) := CreateWorkspaceWithOwner(sh, id, kind, owner, steps);
            reply.Done? ==>
              id in sh'.workspaces && sh'.workspaces[id] == Workspace(kind, owner) && Has(sh', id, owner, Owner)
  {
  }

  lemma NewSettled(sh: Shard, c: Call)
    requires c.Call? && (c.req.NewTeam? || c.req.NewPersonal?)
    ensures Settled(sh, c, Serve(sh, c))
  {
    CreateSettled(sh, c.req.id, if c.req.NewTeam? then Team else Personal, c.actor, c.req.steps);
  }

  lemma InviteSettled(sh: Shard, c: Call, denial: Option<Error>)
    requires c.Call? && c.req.Invite? && (denial.None? ==> c.req.ws in sh.workspaces)
    ensures var q := c.req;
            Settled(sh, c, CreateInvitation(sh, c.active, denial, q.ws, q.emailGiven, q.role, q.id, q.tokenHash, c.now))
  {
  }

  lemma AcceptSettled(sh: Shard, c: Call)
    requires c.Call? && c.req.Accept?
    ensures Settled(sh, c, AcceptInvitation(sh, c.active, c.actor, c.req.id, c.now, c.req.steps))
  {
  }

  lemma RevokeInviteSettled(sh: Shard, c: Call, denial: Option<Error>)
    requires c.Call? && c.req.RevokeInvite?
    requires c.req.id in sh.invitations && denial.None? ==> sh.invitations[c.req.id].ws in sh.workspaces
    ensures Settled(sh, c, RevokeInvitation(sh, denial, c.req.id))
  {
  }

  lemma LimitSettled(sh: Shard, c: Call)
    requires c.Call? && c.req.Limit?
    ensures Settled(sh, c, SetSeatLimit(sh, c.active, c.req.sku, c.req.limit))
  {
  }

  lemma AssignSettled(sh: Shard, c: Call)
    requires c.Call? && c.req.Assign?
    ensures var r := AssignSeat(sh, c.active, c.req.sku, c.req.user);
            Settled(sh, c, (r.0, SeatReply(r.1)))
  {
  }

  lemma UnassignSettled(sh: Shard, c: Call)
    requires c.Call? && c.req.Unassign?
    ensures Settled(sh, c, RevokeSeat(sh, c.active, c.req.sku, c.req.user))
  {
  }

  lemma RawSettled(sh: Shard, c: Call)
    requires c.Call? && c.req.Raw?
    ensures Settled(sh, c, WriteTuples(sh, c.active, c.e.model, c.req.ops))
  {
  }

  lemma SeatSettled(sh: Shard, c: Call)
    requires c.Call? && (AboutSeats(c.req) || c.req.Raw?)
    ensures Settled(sh, c, Serve(sh, c))
  {
    match c.req
    case Limit(_, _) => LimitSettled(sh, c);
    case Assign(_, _) => AssignSettled(sh, c);
    case Unassign(_, _) => UnassignSettled(sh, c);
    case Raw(_) => RawSettled(sh, c);
  }

  lemma OtherSettled(sh: Shard, c: Call)
    requires c.Call? && (c.req.Delete? || c.req.Invite? || c.req.Accept? || c.req.RevokeInvite?)
    ensures Settled(sh, c, Serve(sh, c))
  {
    match c.req
    case Delete(ws) => DeleteSettled(sh, c, Guard(sh, c.e, c.actor, ws, Owner));
    case Invite(ws, _, _, _, _) => InviteSettled(sh, c, Guard(sh, c.e, c.actor, ws, Admin));
    case Accept(_, _) => AcceptSettled(sh, c);
    case RevokeInvite(id) => RevokeInviteSettled(sh, c, InviteGuard(sh, c.e, c.actor, id));
  }

  /** Every accepted request, no-ops included, has achieved what it is for. */
  lemma AcceptedAchieves(sh: Shard, c: Call)
    requires Inv(sh) && c.Call? && Faithful(sh, c) && Serve(sh, c).1.Done?
    ensures Present(sh, c.req) && Achieved(sh, Serve(sh, c).0, c)
  {
    if c.req.Transfer? {
      TransferSettled(sh, c);
    } else if AboutMembers(c.req) {
      MemberSettled(sh, c);
    } else if c.req.NewTeam? || c.req.NewPersonal? {
      NewSettled(sh, c);
    } else if AboutSeats(c.req) || c.req.Raw? {
      SeatSettled(sh, c);
    } else {
      OtherSettled(sh, c);
    }
  }

  // ---- and nothing else ----

  /** The row under a key is as it was. */
  predicate Same<K, V(==)>(rows: map<K, V>, rows': map<K, V>, k: K) {
    (k in rows' <==> k in rows) && (k in rows ==> rows'[k] == rows[k])
  }

  predicate NamesWorkspace(req: Request, ws: string) {
    match req
    case NewTeam(id, _, _) => id == ws
    case NewPersonal(id, _) => id == ws
    case Transfer(w, _, _) => w == ws
    case Delete(w) => w == ws
    case _ => false
  }

  predicate NamesPair(sh: Shard, c: Call, ws: string, u: string)
    requires c.Call?
  {
    match c.req
    case NewTeam(id, _, _) => id == ws && c.actor == u
    case NewPersonal(id, _) => id == ws && c.actor == u
    case Add(w, v, _) => w == ws && v == u
    case ChangeRole(w, v, _) => w == ws && v == u
    case RemoveUser(w, v) => w == ws && v == u
    case Suspend(w, v) => w == ws && v == u
    case Reinstate(w, v) => w == ws && v == u
    case Transfer(w, v, _) => w == ws && (v == u || (w in sh.workspaces && sh.workspaces[w].owner == u))
    case Delete(w) => w == ws
    case Accept(id, _) => id in sh.invitations && sh.invitations[id].ws == ws && c.actor == u
    case _ => false
  }

  predicate NamesInvitation(sh: Shard, req: Request, id: string) {
    match req
    case Invite(_, _, _, i, _) => i == id
    case Accept(i, _) => i == id
    case RevokeInvite(i) => i == id
    case Delete(ws) => id in sh.invitations && sh.invitations[id].ws == ws
    case _ => false
  }

  predicate NamesSku(req: Request, sku: string) {
    (req.Assign? || req.Unassign? || req.Limit?) && req.sku == sku
  }

  /** Every row the request does not name is as it was. */
  ghost predicate Apart(sh: Shard, sh': Shard, c: Call)
    requires c.Call?
  {
    && (forall ws: string | !NamesWorkspace(c.req, ws) :: Same(sh.workspaces, sh'.workspaces, ws))
    && (forall ws: string, u: string | !NamesPair(sh, c, ws, u) :: Same(sh.members, sh'.members, (ws, u)))
    && (forall id: string | !NamesInvitation(sh, c.req, id) :: Same(sh.invitations, sh'.invitations, id))
    && (forall sku: string | !NamesSku(c.req, sku) ::
          Holders(sh', sku) == Holders(sh, sku) && Same(sh.seatLimits, sh'.seatLimits, sku))
  }

  /** Rows outside these workspaces, pairs and invitations are as they were, and so are seats and limits. */
  ghost predicate Within(sh: Shard, sh': Shard, wss: set<string>, pairs: set<Pair>, ids: set<string>) {
    && (forall x: string | x !in wss :: Same(sh.workspaces, sh'.workspaces, x))
    && (forall p: Pair | p !in pairs :: Same(sh.members, sh'.members, p))
    && (forall i: string | i !in ids :: Same(sh.invitations, sh'.invitations, i))
    && sh'.seats == sh.seats && sh'.seatLimits == sh.seatLimits
  }

  lemma WithinThen(
      a: Shard, b: Shard, c: Shard, wss: set<string>, pairs: set<Pair>, ids: set<string>,
      wss': set<string>, pairs': set<Pair>, ids': set<string>)
    requires Within(a, b, wss, pairs, ids) && Within(b, c, wss', pairs', ids')
    ensures Within(a, c, wss + wss', pairs + pairs', ids + ids')
  {
  }

  lemma NothingWithin(sh: Shard, wss: set<string>, pairs: set<Pair>, ids: set<string>)
    ensures Within(sh, sh, wss, pairs, ids)
  {
  }

  lemma PutWithin(sh: Shard, ws: string, u: string, row: Membership, inserts: seq<Tuple>, deletes: seq<Tuple>)
    ensures Within(sh, PutMembershipAndTuples(sh, ws, u, row, inserts, deletes), {}, {(ws, u)}, {})
  {
  }

  lemma AddWithin(sh: Shard, active: bool, denial: Option<Error>, ws: string, u: string, r: Role)
    requires denial.None? ==> ws in sh.workspaces
    ensures Within(sh, AddMember(sh, active, denial, ws, u, r).0, {}, {(ws, u)}, {})
  {
    NothingWithin(sh, {}, {(ws, u)}, {});
    PutWithin(sh, ws, u, Membership(r, Active), [RoleTuple(ws, r, u)], []);
  }

  lemma RoleWithin(sh: Shard, denial: Option<Error>, ws: string, u: string, r: Role)
    ensures Within(sh, UpdateMemberRole(sh, denial, ws, u, r).0, {}, {(ws, u)}, {})
  {
    NothingWithin(sh, {}, {(ws, u)}, {});
    if (ws, u) in sh.members {
      var row := sh.members[(ws, u)];
      PutWithin(sh, ws, u, row.(role := r), [RoleTuple(ws, r, u)], [RoleTuple(ws, row.role, u)]);
    }
  }

  lemma RemoveWithin(sh: Shard, denial: Option<Error>, ws: string, u: string)
    ensures Within(sh, RemoveMember(sh, denial, ws, u).0, {}, {(ws, u)}, {})
  {
  }

  lemma SuspendWithin(sh: Shard, denial: Option<Error>, ws: string, u: string)
    ensures Within(sh, SuspendMember(sh, denial, ws, u).0, {}, {(ws, u)}, {})
  {
    NothingWithin(sh, {}, {(ws, u)}, {});
    if (ws, u) in sh.members {
      var row := sh.members[(ws, u)];
      PutWithin(sh, ws, u, row.(status := Suspended), [], [RoleTuple(ws, row.role, u)]);
    }
  }

  lemma ReinstateWithin(sh: Shard, denial: Option<Error>, ws: string, u: string)
    ensures Within(sh, ReinstateMember(sh, denial, ws, u).0, {}, {(ws, u)}, {})
  {
    NothingWithin(sh, {}, {(ws, u)}, {});
    if (ws, u) in sh.members {
      var row := sh.members[(ws, u)];
      PutWithin(sh, ws, u, row.(status := Active), [RoleTuple(ws, row.role, u)], []);
    }
  }

  lemma CreateWithin(sh: Shard, id: string, kind: WorkspaceType, owner: string, steps: nat)
    ensures Within(sh, CreateWorkspaceWithOwner(sh, id, kind, owner, steps).0, {id}, {(id, owner)}, {})
  {
    NothingWithin(sh, {id}, {(id, owner)}, {});
    var sh1 := CreateWorkspaceRow(sh, id, Workspace(kind, owner)).0;
    RowWithin(sh, sh1, id);
    var sh2 := PutMembershipAndTuples(sh1, id, owner, Membership(Owner, Active), [RoleTuple(id, Owner, owner)], []);
    PutWithin(sh1, id, owner, Membership(Owner, Active), [RoleTuple(id, Owner, owner)], []);
    WithinThen(sh, sh1, sh2, {id}, {}, {}, {}, {(id, owner)}, {});
    var sh' := CreateWorkspaceWithOwner(sh, id, kind, owner, steps).0;
    assert sh' == sh || sh' == sh1 || sh' == sh2;
  }

  lemma RowWithin(sh: Shard, sh': Shard, ws: string)
    requires sh' == sh.(workspaces := sh'.workspaces)
    requires forall x: string | x != ws :: Same(sh.workspaces, sh'.workspaces, x)
    ensures Within(sh, sh', {ws}, {}, {})
  {
  }

  lemma PromoteWithin(sh: Shard, ws: string, u: string)
    ensures Within(sh, Promote(sh, ws, u), {}, {(ws, u)}, {})
  {
  }

  lemma DemoteWithin(sh: Shard, ws: string, u: string)
    ensures Within(sh, Demote(sh, ws, u), {}, {(ws, u)}, {})
  {
  }

  lemma TransferWithin(sh: Shard, ws: string, u: string, steps: nat)
    requires ws in sh.workspaces
    ensures Within(sh, TransferSteps(sh, ws, u, steps), {ws}, {(ws, u), (ws, sh.workspaces[ws].owner)}, {})
  {
    var former := sh.workspaces[ws].owner;
    var sh1 := Promote(sh, ws, u);
    PromoteWithin(sh, ws, u);
    var sh2 := RecordOwner(sh1, ws, u);
    RowWithin(sh1, sh2, ws);
    WithinThen(sh, sh1, sh2, {}, {(ws, u)}, {}, {ws}, {}, {});
    var sh3 := Demote(sh2, ws, former);
    DemoteWithin(sh2, ws, former);
    WithinThen(sh, sh2, sh3, {ws}, {(ws, u)}, {}, {}, {(ws, former)}, {});
    NothingWithin(sh, {ws}, {(ws, u), (ws, former)}, {});
    assert {(ws, u)} + {(ws, former)} == {(ws, u), (ws, former)};
  }

  lemma DeleteWithin(sh: Shard, denial: Option<Error>, ws: string)
    requires denial.None? ==> ws in sh.workspaces
    ensures Within(sh, DeleteWorkspace(sh, denial, ws).0, {ws}, (set p | p in sh.members && p.0 == ws),
                   set i | i in sh.invitations && sh.invitations[i].ws == ws)
  {
  }

  lemma InviteWithin(
      sh: Shard, active: bool, denial: Option<Error>, ws: string, given: bool, r: Role, id: string, hash: string,
      now: int)
    requires denial.None? ==> ws in sh.workspaces
    ensures Within(sh, CreateInvitation(sh, active, denial, ws, given, r, id, hash, now).0, {}, {}, {id})
  {
  }

  lemma UpdateWithin(sh: Shard, id: string, inv: Invitation)
    ensures Within(sh, UpdateInvitationRow(sh, id, inv).0, {}, {}, {id})
  {
  }

  lemma AcceptWithin(sh: Shard, active: bool, actor: string, id: string, now: int, steps: nat)
    requires id in sh.invitations
    ensures Within(sh, AcceptInvitation(sh, active, actor, id, now, steps).0, {},
                   {(sh.invitations[id].ws, actor)}, {id})
  {
    var inv, pair := sh.invitations[id], (sh.invitations[id].ws, actor);
    var sh1 := PutMember(sh, active, inv.ws, actor, inv.role).0;
    NothingWithin(sh, {}, {pair}, {id});
    PutWithin(sh, inv.ws, actor, Membership(inv.role, Active), [RoleTuple(inv.ws, inv.role, actor)], []);
    UpdateWithin(sh, id, inv.(status := Expired));
    UpdateWithin(sh, id, inv.(status := Accepted));
    UpdateWithin(sh1, id, inv.(status := Accepted));
    var sh2 := UpdateInvitationRow(sh1, id, inv.(status := Accepted)).0;
    if active { WithinThen(sh, sh1, sh2, {}, {pair}, {}, {}, {}, {id}); }
  }

  lemma RevokeWithin(sh: Shard, denial: Option<Error>, id: string)
    ensures Within(sh, RevokeInvitation(sh, denial, id).0, {}, {}, {id})
  {
  }

  /** The rows named are the only ones touched. */
  lemma WithinIsApart(sh: Shard, sh': Shard, c: Call, wss: set<string>, pairs: set<Pair>, ids: set<string>)
    requires c.Call? && Within(sh, sh', wss, pairs, ids)
    requires (forall x | x in wss :: NamesWorkspace(c.req, x)) && (forall p | p in pairs :: NamesPair(sh, c, p.0, p.1))
    requires forall i | i in ids :: NamesInvitation(sh, c.req, i)
    ensures Apart(sh, sh', c)
  {
  }

  lemma MemberApart(sh: Shard, c: Call)
    requires c.Call? && AboutMembers(c.req) && !c.req.Transfer?
    ensures Apart(sh, Serve(sh, c).0, c)
  {
    var ws, u, denial := c.req.ws, c.req.user, Guard(sh, c.e, c.actor, c.req.ws, Admin);
    match c.req {
      case Add(_, _, r) => AddWithin(sh, c.active, denial, ws, u, r);
      case ChangeRole(_, _, r) => RoleWithin(sh, denial, ws, u, r);
      case RemoveUser(_, _) => RemoveWithin(sh, denial, ws, u);
      case Suspend(_, _) => SuspendWithin(sh, denial, ws, u);
      case Reinstate(_, _) => ReinstateWithin(sh, denial, ws, u);
    }
    WithinIsApart(sh, Serve(sh, c).0, c, {}, {(ws, u)}, {});
  }

  lemma TransferApart(sh: Shard, c: Call)
    requires c.Call? && c.req.Transfer?
    ensures Apart(sh, Serve(sh, c).0, c)
  {
    var ws, u, sh' := c.req.ws, c.req.user, Serve(sh, c).0;
    if ws in sh.workspaces && sh' == TransferSteps(sh, ws, u, c.req.steps) {
      TransferWithin(sh, ws, u, c.req.steps);
      WithinIsApart(sh, sh', c, {ws}, {(ws, u), (ws, sh.workspaces[ws].owner)}, {});
    } else {
      assert sh' == sh;
    }
  }

  lemma NewApart(sh: Shard, c: Call)
    requires c.Call? && (c.req.NewTeam? || c.req.NewPersonal?)
    ensures Apart(sh, Serve(sh, c).0, c)
  {
    var id, kind, sh' := c.req.id, if c.req.NewTeam? then Team else Personal, Serve(sh, c).0;
    if sh' == CreateWorkspaceWithOwner(sh, id, kind, c.actor, c.req.steps).0 {
      CreateWithin(sh, id, kind, c.actor, c.req.steps);
      WithinIsApart(sh, sh', c, {id}, {(id, c.actor)}, {});
    } else {
      assert sh' == sh;
    }
  }

  lemma DeleteApart(sh: Shard, c: Call)
    requires c.Call? && c.req.Delete?
    ensures Apart(sh, Serve(sh, c).0, c)
  {
    var ws := c.req.ws;
    DeleteWithin(sh, Guard(sh, c.e, c.actor, ws, Owner), ws);
    WithinIsApart(sh, Serve(sh, c).0, c, {ws}, set p | p in sh.members && p.0 == ws,
                  set i | i in sh.invitations && sh.invitations[i].ws == ws);
  }

  lemma InvitationApart(sh: Shard, c: Call)
    requires c.Call? && (c.req.Invite? || c.req.Accept? || c.req.RevokeInvite?)
    ensures Apart(sh, Serve(sh, c).0, c)
  {
    var sh', id := Serve(sh, c).0, c.req.id;
    match c.req
    case Invite(ws, given, r, _, hash) =>
      InviteWithin(sh, c.active, Guard(sh, c.e, c.actor, ws, Admin), ws, given, r, id, hash, c.now);
      WithinIsApart(sh, sh', c, {}, {}, {id});
    case Accept(_, steps) =>
      if id in sh.invitations {
        AcceptWithin(sh, c.active, c.actor, id, c.now, steps);
        WithinIsApart(sh, sh', c, {}, {(sh.invitations[id].ws, c.actor)}, {id});
      } else {
        assert sh' == sh;
      }
    case RevokeInvite(_) =>
      RevokeWithin(sh, InviteGuard(sh, c.e, c.actor, id), id);
      WithinIsApart(sh, sh', c, {}, {}, {id});
  }

  /** Only the seats and the limit of one sku differ. */
  ghost predicate OnlySku(sh: Shard, sh': Shard, sku: string) {
    && sh' == sh.(tuples := sh'.tuples, writes := sh'.writes, seats := sh'.seats, seatLimits := sh'.seatLimits)
    && forall x: string | x != sku :: Holders(sh', x) == Holders(sh, x) && Same(sh.seatLimits, sh'.seatLimits, x)
  }

  lemma SkuApart(sh: Shard, sh': Shard, c: Call, sku: string)
    requires c.Call? && NamesSku(c.req, sku) && OnlySku(sh, sh', sku)
    ensures Apart(sh, sh', c)
  {
  }

  lemma LimitOnlySku(sh: Shard, active: bool, sku: string, limit: Option<int>)
    ensures OnlySku(sh, SetSeatLimit(sh, active, sku, limit).0, sku)
  {
  }

  lemma AssignOnlySku(sh: Shard, active: bool, sku: string, u: string)
    ensures OnlySku(sh, AssignSeat(sh, active, sku, u).0, sku)
  {
  }

  lemma UnassignOnlySku(sh: Shard, active: bool, sku: string, u: string)
    ensures OnlySku(sh, RevokeSeat(sh, active, sku, u).0, sku)
  {
  }

  lemma RawApart(sh: Shard, sh': Shard, c: Call)
    requires c.Call? && sh' == sh.(tuples := sh'.tuples, writes := sh'.writes)
    ensures Apart(sh, sh', c)
  {
  }

  lemma SeatApart(sh: Shard, c: Call)
    requires c.Call? && (AboutSeats(c.req) || c.req.Raw?)
    ensures Apart(sh, Serve(sh, c).0, c)
  {
    var sh' := Serve(sh, c).0;
    match c.req
    case Limit(sku, limit) =>
      LimitOnlySku(sh, c.active, sku, limit);
      SkuApart(sh, sh', c, sku);
    case Assign(sku, u) =>
      AssignOnlySku(sh, c.active, sku, u);
      SkuApart(sh, sh', c, sku);
    case Unassign(sku, u) =>
      UnassignOnlySku(sh, c.active, sku, u);
      SkuApart(sh, sh', c, sku);
    case Raw(ops) =>
      assert sh' == WriteTuples(sh, c.active, c.e.model, ops).0;
      RawApart(sh, sh', c);
  }

  /** Whatever a request answers and wherever a crash cuts it, it touches no row it does not name. */
  lemma OnlyTheNamedChange(sh: Shard, c: Call)
    requires c.Call?
    ensures Apart(sh, Serve(sh, c).0, c)
  {
    if c.req.Transfer? {
      TransferApart(sh, c);
    } else if AboutMembers(c.req) {
      MemberApart(sh, c);
    } else if c.req.NewTeam? || c.req.NewPersonal? {
      NewApart(sh, c);
    } else if c.req.Delete? {
      DeleteApart(sh, c);
    } else if AboutSeats(c.req) || c.req.Raw? {
      SeatApart(sh, c);
    } else {
      InvitationApart(sh, c);
    }
  }

  lemma AssignElsewhere(ns: string, sh: Shard, active: bool, sku: string, u: string)
    requires ns != SEAT_NAMESPACE && WellKeyed(sh.tuples)
    ensures SameIn(ns, sh.tuples, AssignSeat(sh, active, sku, u).0.tuples)
  {
    var m := AssignSeat(sh, active, sku, u).0.tuples;
    assert m == sh.tuples || m == Write(sh.tuples, [SeatTuple(sku, u)], []);
    WriteElsewhere(ns, sh.tuples, [SeatTuple(sku, u)], []);
  }

  lemma UnassignElsewhere(ns: string, sh: Shard, active: bool, sku: string, u: string)
    requires ns != SEAT_NAMESPACE && WellKeyed(sh.tuples)
    ensures SameIn(ns, sh.tuples, RevokeSeat(sh, active, sku, u).0.tuples)
  {
    var m := RevokeSeat(sh, active, sku, u).0.tuples;
    assert m == sh.tuples || m == Write(sh.tuples, [], [SeatTuple(sku, u)]);
    WriteElsewhere(ns, sh.tuples, [], [SeatTuple(sku, u)]);
  }

  lemma SeatElsewhere(ns: string, sh: Shard, c: Call)
    requires ns != SEAT_NAMESPACE && c.Call? && WellKeyed(sh.tuples) && AboutSeats(c.req)
    ensures SameIn(ns, sh.tuples, Serve(sh, c).0.tuples)
  {
    var m := Serve(sh, c).0.tuples;
    match c.req
    case Limit(sku, limit) => assert m == SetSeatLimit(sh, c.active, sku, limit).0.tuples == sh.tuples;
    case Assign(sku, u) =>
      assert m == AssignSeat(sh, c.active, sku, u).0.tuples;
      AssignElsewhere(ns, sh, c.active, sku, u);
    case Unassign(sku, u) =>
      assert m == RevokeSeat(sh, c.active, sku, u).0.tuples;
      UnassignElsewhere(ns, sh, c.active, sku, u);
  }

  /** Only raw writes reach a namespace that is neither the workspaces' nor the seats'. */
  lemma OtherNamespacesAreKept(ns: string, sh: Shard, c: Call)
    requires c.Call? && WellKeyed(sh.tuples) && !c.req.Raw? && ns != WORKSPACE && ns != SEAT_NAMESPACE
    ensures SameIn(ns, sh.tuples, Serve(sh, c).0.tuples)
  {
    if AboutSeats(c.req) { SeatElsewhere(ns, sh, c); } else { ServeAside(ns, sh, c); }
  }
}
