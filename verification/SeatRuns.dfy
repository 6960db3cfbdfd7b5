/** Seats over every run of the service: rows and tuples in step, and the cap respected. */
module SeatRuns {
  import opened AuthzModel
  import opened Evaluator
  import opened TupleKeys
  import opened Store
  import opened Seats
  import opened Workspaces
  import opened Grades
  import opened Requests

  /** Seats, limits and the tuples of a namespace are as they were. */
  ghost predicate Aside(ns: string, sh: Shard, sh': Shard) {
    sh'.seats == sh.seats && sh'.seatLimits == sh.seatLimits && SameIn(ns, sh.tuples, sh'.tuples)
  }

  lemma RolesOffSeats()
    ensures WORKSPACE != SEAT_NAMESPACE
  {
    assert WORKSPACE[0] != SEAT_NAMESPACE[0];
  }

  lemma WriteInAside(ns: string, sh: Shard, inserts: seq<Tuple>, deletes: seq<Tuple>)
    requires WellKeyed(sh.tuples) && Off(inserts, ns) && Off(deletes, ns)
    ensures Aside(ns, sh, WriteIn(sh, inserts, deletes))
  {
    WriteElsewhere(ns, sh.tuples, inserts, deletes);
  }

  lemma PutAside(
      ns: string, sh: Shard, ws: string, u: string, row: Membership, inserts: seq<Tuple>, deletes: seq<Tuple>)
    requires WellKeyed(sh.tuples) && Off(inserts, ns) && Off(deletes, ns)
    ensures Aside(ns, sh, PutMembershipAndTuples(sh, ws, u, row, inserts, deletes))
  {
    WriteElsewhere(ns, sh.tuples, inserts, deletes);
  }

  lemma TablesAside(ns: string, sh: Shard, sh': Shard)
    requires sh'.tuples == sh.tuples && sh'.seats == sh.seats && sh'.seatLimits == sh.seatLimits
    ensures Aside(ns, sh, sh')
  {
  }

  lemma AsideThen(ns: string, a: Shard, b: Shard, c: Shard)
    requires Aside(ns, a, b) && Aside(ns, b, c)
    ensures Aside(ns, a, c)
  {
    forall t: Tuple | t.ns == ns
      ensures Stored(c.tuples, t) <==> Stored(a.tuples, t)
    {
      assert Stored(b.tuples, t) <==> Stored(a.tuples, t);
    }
  }

  // ---- the operations that are not about seats, whatever the guard said ----

  lemma CreateAside(ns: string, sh: Shard, id: string, kind: WorkspaceType, owner: string, steps: nat)
    requires ns != WORKSPACE && WellKeyed(sh.tuples)
    ensures Aside(ns, sh, CreateWorkspaceWithOwner(sh, id, kind, owner, steps).0)
  {
    var (sh1, reply) := CreateWorkspaceRow(sh, id, Workspace(kind, owner));
    TablesAside(ns, sh, sh1);
    if reply.Done? && steps > 1 {
      var grant := [RoleTuple(id, Owner, owner)];
      PutAside(ns, sh1, id, owner, Membership(Owner, Active), grant, []);
      AsideThen(ns, sh, sh1, PutMembershipAndTuples(sh1, id, owner, Membership(Owner, Active), grant, []));
    }
  }

  lemma PutMemberAside(ns: string, sh: Shard, active: bool, ws: string, u: string, r: Role)
    requires ns != WORKSPACE && WellKeyed(sh.tuples)
    ensures Aside(ns, sh, PutMember(sh, active, ws, u, r).0)
  {
    PutAside(ns, sh, ws, u, Membership(r, Active), [RoleTuple(ws, r, u)], []);
  }

  lemma ChangeRoleAside(ns: string, sh: Shard, denial: Option<Error>, ws: string, u: string, r: Role)
    requires ns != WORKSPACE && WellKeyed(sh.tuples)
    ensures Aside(ns, sh, UpdateMemberRole(sh, denial, ws, u, r).0)
  {
    if (ws, u) in sh.members {
      var row := sh.members[(ws, u)];
      PutAside(ns, sh, ws, u, row.(role := r), [RoleTuple(ws, r, u)], [RoleTuple(ws, row.role, u)]);
    }
  }

  lemma RemoveAside(ns: string, sh: Shard, denial: Option<Error>, ws: string, u: string)
    requires ns != WORKSPACE && WellKeyed(sh.tuples)
    ensures Aside(ns, sh, RemoveMember(sh, denial, ws, u).0)
  {
    if (ws, u) in sh.members {
      WriteInAside(ns, sh.(members := sh.members - {(ws, u)}), [], [RoleTuple(ws, sh.members[(ws, u)].role, u)]);
    }
  }

  lemma SuspendAside(ns: string, sh: Shard, denial: Option<Error>, ws: string, u: string)
    requires ns != WORKSPACE && WellKeyed(sh.tuples)
    ensures Aside(ns, sh, SuspendMember(sh, denial, ws, u).0) && Aside(ns, sh, ReinstateMember(sh, denial, ws, u).0)
  {
    if (ws, u) in sh.members {
      var row := sh.members[(ws, u)];
      PutAside(ns, sh, ws, u, row.(status := Suspended), [], [RoleTuple(ws, row.role, u)]);
      PutAside(ns, sh, ws, u, row.(status := Active), [RoleTuple(ws, row.role, u)], []);
    }
  }

  lemma PromoteAside(ns: string, sh: Shard, ws: string, u: string)
    requires ns != WORKSPACE && WellKeyed(sh.tuples)
    ensures Aside(ns, sh, Promote(sh, ws, u)) && WellKeyed(Promote(sh, ws, u).tuples)
  {
    var deletes := if (ws, u) in sh.members && !sh.members[(ws, u)].role.Owner?
                   then [RoleTuple(ws, sh.members[(ws, u)].role, u)] else [];
    PutAside(ns, sh, ws, u, Membership(Owner, Active), [RoleTuple(ws, Owner, u)], deletes);
  }

  lemma DemoteAside(ns: string, sh: Shard, ws: string, u: string)
    requires ns != WORKSPACE && WellKeyed(sh.tuples)
    ensures Aside(ns, sh, Demote(sh, ws, u))
  {
    if (ws, u) in sh.members {
      var row := sh.members[(ws, u)].(role := Admin);
      PutAside(ns, sh, ws, u, row, [RoleTuple(ws, Admin, u)], [RoleTuple(ws, Owner, u)]);
    } else {
      WriteInAside(ns, sh, [RoleTuple(ws, Admin, u)], [RoleTuple(ws, Owner, u)]);
    }
  }

  lemma TransferAside(ns: string, sh: Shard, ws: string, u: string, steps: nat)
    requires ns != WORKSPACE && WellKeyed(sh.tuples) && ws in sh.workspaces
    ensures Aside(ns, sh, TransferSteps(sh, ws, u, steps))
  {
    if steps > 0 {
      PromoteAside(ns, sh, ws, u);
      var sh1 := Promote(sh, ws, u);
      if steps > 1 {
        var sh2 := RecordOwner(sh1, ws, u);
        assert Aside(ns, sh, sh2);
        if steps > 2 {
          DemoteAside(ns, sh2, ws, sh.workspaces[ws].owner);
          AsideThen(ns, sh, sh2, Demote(sh2, ws, sh.workspaces[ws].owner));
        }
      }
    }
  }

  lemma TransferOwnershipAside(
      ns: string, sh: Shard, active: bool, denial: Option<Error>, ws: string, u: string, steps: nat)
    requires ns != WORKSPACE && WellKeyed(sh.tuples) && (denial.None? ==> ws in sh.workspaces)
    ensures Aside(ns, sh, TransferOwnership(sh, active, denial, ws, u, steps).0)
  {
    if denial.None? { TransferAside(ns, sh, ws, u, steps); }
  }

  lemma AddAside(ns: string, sh: Shard, active: bool, denial: Option<Error>, ws: string, u: string, r: Role)
    requires ns != WORKSPACE && WellKeyed(sh.tuples) && (denial.None? ==> ws in sh.workspaces)
    ensures Aside(ns, sh, AddMember(sh, active, denial, ws, u, r).0)
  {
    var sh' := AddMember(sh, active, denial, ws, u, r).0;
    if sh' != sh {
      assert sh' == PutMember(sh, active, ws, u, r).0;
      PutMemberAside(ns, sh, active, ws, u, r);
    }
  }

  lemma EnsurePersonalAside(ns: string, sh: Shard, id: string, actor: string, steps: nat)
    requires ns != WORKSPACE && WellKeyed(sh.tuples)
    ensures Aside(ns, sh, EnsurePersonal(sh, id, actor, steps).0)
  {
    CreateAside(ns, sh, id, Personal, actor, steps);
  }

  lemma CascadeElsewhere(ns: string, m: TupleTable, ws: string)
    requires ns != WORKSPACE
    ensures SameIn(ns, m, map k | k in m && !(m[k].ns == WORKSPACE && m[k].obj == ws) :: m[k])
  {
  }

  lemma DeleteAside(ns: string, sh: Shard, denial: Option<Error>, ws: string)
    requires ns != WORKSPACE && WellKeyed(sh.tuples) && (denial.None? ==> ws in sh.workspaces)
    ensures Aside(ns, sh, DeleteWorkspace(sh, denial, ws).0)
  {
    var sh' := DeleteWorkspace(sh, denial, ws).0;
    if sh' == sh { TablesAside(ns, sh, sh); } else { CascadeElsewhere(ns, sh.tuples, ws); }
  }

  lemma CreateTeamAside(ns: string, sh: Shard, active: bool, named: bool, id: string, actor: string, steps: nat)
    requires ns != WORKSPACE && WellKeyed(sh.tuples)
    ensures Aside(ns, sh, CreateTeam(sh, active, named, id, actor, steps).0)
  {
    CreateAside(ns, sh, id, Team, actor, steps);
  }

  lemma AcceptAside(ns: string, sh: Shard, active: bool, actor: string, id: string, now: int, steps: nat)
    requires ns != WORKSPACE && WellKeyed(sh.tuples)
    ensures Aside(ns, sh, AcceptInvitation(sh, active, actor, id, now, steps).0)
  {
    var sh' := AcceptInvitation(sh, active, actor, id, now, steps).0;
    if id in sh.invitations {
      var inv := sh.invitations[id];
      if inv.status.Pending? && steps > 0 && now <= inv.expiresAt && (inv.ws, actor) !in sh.members {
        var sh1 := PutMember(sh, active, inv.ws, actor, inv.role).0;
        assert sh' == sh1.(invitations := sh'.invitations);
        PutMemberAside(ns, sh, active, inv.ws, actor, inv.role);
      } else {
        assert sh' == sh.(invitations := sh'.invitations);
      }
    }
  }

  lemma InviteAside(
      ns: string, sh: Shard, active: bool, denial: Option<Error>, ws: string, emailGiven: bool, r: Role, id: string,
      tokenHash: string, now: int)
    requires denial.None? ==> ws in sh.workspaces
    ensures Aside(ns, sh, CreateInvitation(sh, active, denial, ws, emailGiven, r, id, tokenHash, now).0)
  {
    TablesAside(ns, sh, CreateInvitation(sh, active, denial, ws, emailGiven, r, id, tokenHash, now).0);
  }

  lemma RevokeInviteAside(ns: string, sh: Shard, denial: Option<Error>, id: string)
    ensures Aside(ns, sh, RevokeInvitation(sh, denial, id).0)
  {
    TablesAside(ns, sh, RevokeInvitation(sh, denial, id).0);
  }

  lemma RawAside(sh: Shard, active: bool, model: Model, ops: seq<TupleOp>)
    requires WellKeyed(sh.tuples)
    ensures Aside(SEAT_NAMESPACE, sh, WriteTuples(sh, active, model, ops).0)
  {
    if WriteTuples(sh, active, model, ops).1.Done? {
      PickedAreGiven(ops, false);
      PickedAreGiven(ops, true);
      WriteInAside(SEAT_NAMESPACE, sh, Picked(ops, false), Picked(ops, true));
    }
  }

  predicate AboutSeats(req: Request) {
    req.Limit? || req.Assign? || req.Unassign?
  }

  predicate AboutMembers(req: Request) {
    req.Add? || req.ChangeRole? || req.RemoveUser? || req.Suspend? || req.Reinstate? || req.Transfer?
  }

  lemma ServeMembersAside(ns: string, sh: Shard, c: Call)
    requires ns != WORKSPACE && c.Call? && WellKeyed(sh.tuples) && AboutMembers(c.req)
    ensures Aside(ns, sh, Serve(sh, c).0)
  {
    match c.req
    case Add(ws, u, r) => AddAside(ns, sh, c.active, Guard(sh, c.e, c.actor, ws, Admin), ws, u, r);
    case ChangeRole(ws, u, r) => ChangeRoleAside(ns, sh, Guard(sh, c.e, c.actor, ws, Admin), ws, u, r);
    case RemoveUser(ws, u) => RemoveAside(ns, sh, Guard(sh, c.e, c.actor, ws, Admin), ws, u);
    case Suspend(ws, u) => SuspendAside(ns, sh, Guard(sh, c.e, c.actor, ws, Admin), ws, u);
    case Reinstate(ws, u) => SuspendAside(ns, sh, Guard(sh, c.e, c.actor, ws, Admin), ws, u);
    case Transfer(ws, u, steps) =>
      TransferOwnershipAside(ns, sh, c.active, Guard(sh, c.e, c.actor, ws, Owner), ws, u, steps);
    case _ =>
  }

  lemma ServeAside(ns: string, sh: Shard, c: Call)
    requires ns != WORKSPACE && c.Call? && WellKeyed(sh.tuples) && !AboutSeats(c.req)
    requires c.req.Raw? ==> ns == SEAT_NAMESPACE
    ensures Aside(ns, sh, Serve(sh, c).0)
  {
    match c.req
    case NewTeam(id, named, steps) => CreateTeamAside(ns, sh, c.active, named, id, c.actor, steps);
    case NewPersonal(id, steps) => EnsurePersonalAside(ns, sh, id, c.actor, steps);
    case Delete(ws) => DeleteAside(ns, sh, Guard(sh, c.e, c.actor, ws, Owner), ws);
    case Invite(ws, given, r, id, hash) =>
      InviteAside(ns, sh, c.active, Guard(sh, c.e, c.actor, ws, Admin), ws, given, r, id, hash, c.now);
    case Accept(id, steps) => AcceptAside(ns, sh, c.active, c.actor, id, c.now, steps);
    case RevokeInvite(id) => RevokeInviteAside(ns, sh, InviteGuard(sh, c.e, c.actor, id), id);
    case Raw(ops) => RawAside(sh, c.active, c.e.model, ops);
    case _ => ServeMembersAside(ns, sh, c);
  }

  // ---- every run ----

  lemma AsideKeepsSeats(sh: Shard, sh': Shard)
    requires SeatsInStep(sh) && Aside(SEAT_NAMESPACE, sh, sh')
    ensures SeatsInStep(sh')
  {
    ElsewhereKeepsStep(sh, sh');
  }

  lemma LimitKeepsSeats(sh: Shard, active: bool, sku: string, limit: Option<int>)
    requires SeatsInStep(sh)
    ensures SeatsInStep(SetSeatLimit(sh, active, sku, limit).0)
  {
    var sh' := SetSeatLimit(sh, active, sku, limit).0;
    assert sh'.tuples == sh.tuples && sh'.seats == sh.seats;
    ElsewhereKeepsStep(sh, sh');
  }

  lemma ServeSeatsInStep(sh: Shard, c: Call)
    requires c.Call? && AboutSeats(c.req) && SeatsInStep(sh)
    ensures SeatsInStep(Serve(sh, c).0)
  {
    match c.req
    case Limit(sku, limit) =>
      assert Serve(sh, c).0 == SetSeatLimit(sh, c.active, sku, limit).0;
      LimitKeepsSeats(sh, c.active, sku, limit);
    case Assign(sku, u) =>
      assert Serve(sh, c).0 == AssignSeat(sh, c.active, sku, u).0;
      AssignKeepsStep(sh, c.active, sku, u);
    case Unassign(sku, u) =>
      assert Serve(sh, c).0 == RevokeSeat(sh, c.active, sku, u).0;
      RevokeKeepsStep(sh, c.active, sku, u);
  }

  lemma ServeKeepsSeats(sh: Shard, c: Call)
    requires c.Call? && SeatsInStep(sh)
    ensures SeatsInStep(Serve(sh, c).0)
  {
    if AboutSeats(c.req) {
      ServeSeatsInStep(sh, c);
    } else {
      RolesOffSeats();
      ServeAside(SEAT_NAMESPACE, sh, c);
      AsideKeepsSeats(sh, Serve(sh, c).0);
    }
  }

  /**
   After any run of any requests, crashes and deprovisionings included, seats and seat tuples agree in every
   shard.
   */
  lemma {:induction false} SeatsAlwaysInStep(calls: seq<Call>, sk: string)
    ensures SeatsInStep(At(Run(map[], calls), sk))
    decreases |calls|
  {
    if calls != [] {
      var before, c := calls[..|calls| - 1], calls[|calls| - 1];
      SeatsAlwaysInStep(before, sk);
      StepIsLocal(Run(map[], before), c, sk);
      var sh := At(Run(map[], before), sk);
      if c.Deprovision? { EraseKeepsStep(sh, c.user); }
      if c.Call? { ServeKeepsSeats(sh, c); }
    }
  }

  /** So Check on a seat, after any run, is true exactly for its holders. */
  lemma SeatCheckAfterAnyRun(calls: seq<Call>, sk: string, e: Env, now: int, sku: string, u: string)
    requires Lists(e, At(Run(map[], calls), sk).tuples, now) && SEAT_NAMESPACE !in e.model
    ensures TopCheck(e, ByUser(u), Node(SEAT_NAMESPACE, sku, SEAT_RELATION)).res
              == Ok(u in Holders(At(Run(map[], calls), sk), sku))
  {
    SeatsAlwaysInStep(calls, sk);
    SeatCheckIsExact(e, At(Run(map[], calls), sk), now, sku, u);
  }

  /** The accepted setting of a limit below the seats in use. */
  predicate Lowers(sh: Shard, sk: string, c: Call, sku: string) {
    && c.Call? && sk == Scope(c.project, c.tenant) && c.active && c.req.Limit? && c.req.sku == sku && sku != ""
    && c.req.limit.Some? && 0 <= c.req.limit.value < |Holders(sh, sku)|
  }

  lemma FewerHolders(sh: Shard, sh': Shard, sku: string, u: string)
    requires Holders(sh', sku) == Holders(sh, sku) - {u} && sh'.seatLimits == sh.seatLimits && !OverCap(sh, sku)
    ensures !OverCap(sh', sku)
  {
    assert Holders(sh, sku) == (Holders(sh, sku) - {u}) + (Holders(sh, sku) * {u});
  }

  lemma AssignCap(sh: Shard, active: bool, sku: string, u: string, other: string)
    requires !OverCap(sh, other)
    ensures !OverCap(AssignSeat(sh, active, sku, u).0, other)
  {
    if AssignSeat(sh, active, sku, u).1.Newly? { NewSeatFits(sh, active, sku, u); }
  }

  lemma UnassignCap(sh: Shard, active: bool, sku: string, u: string, other: string)
    requires !OverCap(sh, other)
    ensures !OverCap(RevokeSeat(sh, active, sku, u).0, other)
  {
    var sh' := RevokeSeat(sh, active, sku, u).0;
    if sh' != sh && other == sku { FewerHolders(sh, sh', sku, u); }
  }

  lemma EraseCap(sh: Shard, u: string, sku: string)
    requires !OverCap(sh, sku)
    ensures !OverCap(EraseUser(sh, u), sku)
  {
    assert Holders(EraseUser(sh, u), sku) == Holders(sh, sku) - {u};
    FewerHolders(sh, EraseUser(sh, u), sku, u);
  }

  lemma LimitCap(sh: Shard, active: bool, sku: string, limit: Option<int>, other: string)
    requires !OverCap(sh, other)
    ensures OverCap(SetSeatLimit(sh, active, sku, limit).0, other) <==>
              active && sku == other != "" && limit.Some? && 0 <= limit.value < |Holders(sh, sku)|
  {
  }

  lemma AsideCap(sh: Shard, sh': Shard, sku: string)
    requires Aside(SEAT_NAMESPACE, sh, sh')
    ensures OverCap(sh', sku) <==> OverCap(sh, sku)
  {
  }

  /** The seats in use exceed the limit only after the limit was lowered below them. */
  lemma OverCapIffLowered(sh: Shard, sk: string, c: Call, sku: string)
    requires WellKeyed(sh.tuples) && !OverCap(sh, sku)
    ensures OverCap(StepAt(sh, sk, c), sku) <==> Lowers(sh, sk, c, sku)
  {
    if c.Deprovision? {
      EraseCap(sh, c.user, sku);
    } else if sk == Scope(c.project, c.tenant) {
      match c.req
      case Assign(other, u) => AssignCap(sh, c.active, other, u, sku);
      case Unassign(other, u) => UnassignCap(sh, c.active, other, u, sku);
      case Limit(other, limit) => LimitCap(sh, c.active, other, limit, sku);
      case _ =>
        RolesOffSeats();
        ServeAside(SEAT_NAMESPACE, sh, c);
        AsideCap(sh, Serve(sh, c).0, sku);
    }
  }

  predicate NeverLowered(calls: seq<Call>, sk: string, sku: string)
    decreases |calls|
  {
    calls == [] ||
    (var before := calls[..|calls| - 1];
     NeverLowered(before, sk, sku) && !Lowers(At(Run(map[], before), sk), sk, calls[|calls| - 1], sku))
  }

  /** Over a run that never lowers a limit below the seats in use, no assignment leads above a limit. */
  lemma {:induction false} NeverOverCap(calls: seq<Call>, sk: string, sku: string)
    requires NeverLowered(calls, sk, sku)
    ensures !OverCap(At(Run(map[], calls), sk), sku)
    decreases |calls|
  {
    if calls != [] {
      var before, c := calls[..|calls| - 1], calls[|calls| - 1];
      NeverOverCap(before, sk, sku);
      SeatsAlwaysInStep(before, sk);
      StepIsLocal(Run(map[], before), c, sk);
      OverCapIffLowered(At(Run(map[], before), sk), sk, c, sku);
    }
  }
}
