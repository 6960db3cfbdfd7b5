/**
 The service operations in place, over the in-memory driver (internal/service). Each method performs
 the complete call that the request machine describes; `e` is what the engine reads during the call.
 */
module Service {
  import opened AuthzModel
  import opened Engine
  import opened TupleKeys
  import opened Store
  import opened MemoryDriver
  import opened Seats
  import opened Inert
  import opened Workspaces
  import opened Grades
  import opened MembershipSteps
  import opened Requests
  import opened SeatRuns
  import opened MembershipRuns
  import opened Sequence

  datatype Principal = Principal(project: string, tenant: string, user: string)

  // ---- what a call keeps ----

  /** In every shard, seats and seat tuples are in step. */
  ghost predicate SeatsSound(shards: Shards) {
    forall sk: string :: SeatsInStep(At(shards, sk))
  }

  /** In every shard, the membership invariant holds. */
  ghost predicate MembersSound(shards: Shards) {
    forall sk: string :: Inv(At(shards, sk))
  }

  ghost predicate Safe(before: Shards, after: Shards, c: Call)
    requires c.Call?
  {
    && (SeatsSound(before) ==> SeatsSound(after))
    && (MembersSound(before) && Faithful(At(before, Scope(c.project, c.tenant)), c) ==> MembersSound(after))
  }

  /** The new shards and the reply are those of the request machine. */
  ghost predicate Performs(before: Shards, after: Shards, c: Call, reply: Reply)
    requires c.Call?
  {
    var sk := Scope(c.project, c.tenant);
    var (sh, answer) := Serve(At(before, sk), c);
    Became(before, after, sk, sh) && reply == answer
  }

  /** The call was performed and kept what it found sound. */
  ghost predicate Served(before: Shards, after: Shards, c: Call, reply: Reply)
    requires c.Call?
  {
    Performs(before, after, c, reply) && Safe(before, after, c)
  }

  lemma PerformedIsSafe(before: Shards, after: Shards, c: Call, reply: Reply)
    requires c.Call? && Performs(before, after, c, reply)
    ensures Safe(before, after, c)
  {
    var sk := Scope(c.project, c.tenant);
    var sh := At(before, sk);
    if SeatsSound(before) { ServeKeepsSeats(sh, c); }
    if MembersSound(before) && Faithful(sh, c) { ServeSteps(sh, c); }
  }

  lemma CallIsSafe(before: Shards, c: Call)
    requires c.Call?
    ensures forall after: Shards, reply: Reply | Performs(before, after, c, reply) :: Served(before, after, c, reply)
  {
    forall after: Shards, reply: Reply | Performs(before, after, c, reply)
      ensures Served(before, after, c, reply)
    {
      PerformedIsSafe(before, after, c, reply);
    }
  }

  lemma EraseIsSafe(before: Shards, project: string, u: string)
    ensures SeatsSound(before) ==> SeatsSound(Step(before, Deprovision(project, u)))
    ensures MembersSound(before) ==> MembersSound(Step(before, Deprovision(project, u)))
  {
    var c := Deprovision(project, u);
    forall sk: string
      ensures SeatsInStep(At(before, sk)) ==> SeatsInStep(At(Step(before, c), sk))
      ensures Inv(At(before, sk)) ==> Inv(At(Step(before, c), sk))
    {
      StepIsLocal(before, c, sk);
      if SeatsInStep(At(before, sk)) { EraseKeepsStep(At(before, sk), u); }
      if Inv(At(before, sk)) { EraseKeeps(At(before, sk), u); }
    }
  }

  lemma NothingIsSound()
    ensures SeatsSound(map[]) && MembersSound(map[])
  {
  }

  // ---- batches ----

  /** What the operations from position `i` on contribute, one more at a time. */
  lemma PickedNext(ops: seq<TupleOp>, i: nat, delete: bool, picked: seq<Tuple>)
    requires i < |ops|
    ensures picked + Picked(ops[i..], delete)
         == (if ops[i].delete == delete then picked + [ops[i].tuple] else picked) + Picked(ops[i + 1..], delete)
  {
    assert ops[i..][0] == ops[i] && ops[i..][1..] == ops[i + 1..];
  }

  /** Validates a batch and separates it, stopping at the first invalid tuple. */
  method SplitOps(ops: seq<TupleOp>) returns (valid: bool, inserts: seq<Tuple>, deletes: seq<Tuple>)
    ensures valid <==> forall op | op in ops :: ValidTuple(op.tuple)
    ensures valid ==> inserts == Picked(ops, false) && deletes == Picked(ops, true)
  {
    inserts, deletes := [], [];
    var i := 0;
    while i < |ops|
      invariant 0 <= i <= |ops|
      invariant forall k | 0 <= k < i :: ValidTuple(ops[k].tuple)
      invariant inserts + Picked(ops[i..], false) == Picked(ops, false)
      invariant deletes + Picked(ops[i..], true) == Picked(ops, true)
    {
      if !ValidTuple(ops[i].tuple) { return false, inserts, deletes; }
      PickedNext(ops, i, false, inserts);
      PickedNext(ops, i, true, deletes);
      if ops[i].delete { deletes := deletes + [ops[i].tuple]; } else { inserts := inserts + [ops[i].tuple]; }
      i := i + 1;
    }
    valid := true;
  }

  method AllWritable(model: Model, inserts: seq<Tuple>) returns (ok: bool)
    ensures ok <==> forall t | t in inserts :: WritableRelation(model, t.ns, t.rel)
  {
    var i := 0;
    while i < |inserts|
      invariant 0 <= i <= |inserts|
      invariant forall k | 0 <= k < i :: WritableRelation(model, inserts[k].ns, inserts[k].rel)
    {
      if !WritableRelation(model, inserts[i].ns, inserts[i].rel) { return false; }
      i := i + 1;
    }
    ok := true;
  }

  /** The verdicts of the two loops decide a raw write. */
  lemma RawOutcome(sh: Shard, active: bool, model: Model, ops: seq<TupleOp>, valid: bool, writable: bool)
    requires valid <==> forall op | op in ops :: ValidTuple(op.tuple)
    requires writable <==> forall t | t in Picked(ops, false) :: WritableRelation(model, t.ns, t.rel)
    ensures Seats.WriteTuples(sh, active, model, ops) ==
              if !valid then (sh, Refused(InvalidArgument))
              else if !active then (sh, Refused(FailedPrecondition))
              else if !writable then (sh, Refused(InvalidArgument))
              else (WriteIn(sh, Picked(ops, false), Picked(ops, true)), Done)
  {
  }

  class Gateway {
    const repo: MemoryStore

    constructor (repo: MemoryStore)
      ensures this.repo == repo && (repo.shards == map[] ==> SeatsValid() && Valid())
    {
      this.repo := repo;
      NothingIsSound();
    }

    /** What every method keeps, whatever it is given. */
    ghost predicate SeatsValid()
      reads repo
    {
      SeatsSound(repo.shards)
    }

    /** What every method keeps when its engine reads its shard under the default model. */
    ghost predicate Valid()
      reads repo
    {
      SeatsSound(repo.shards) && MembersSound(repo.shards)
    }

    function Here(p: Principal): Shard
      reads repo
    {
      At(repo.shards, Scope(p.project, p.tenant))
    }

    /** Loads the workspace and asks the engine whether the caller holds the grade. */
    method RequireWorkspace(p: Principal, e: Env, ws: string, asked: Role) returns (denial: Option<Error>)
      ensures denial == Guard(Here(p), e, p.user, ws, asked)
    {
      if ws !in Here(p).workspaces { return Some(NotFound); }
      var limits := Limits(e.maxDepth, e.maxReads, 0);
      var r, _ := CheckWithModel(limits, e.model, e.tuples, e.holds, GradeNode(ws, asked), p.user, 0);
      match r
      case BudgetExceeded => return Some(ResourceExhausted);
      case Ok(allowed) => denial := if allowed then None else Some(PermissionDenied);
    }

    // ---- workspaces ----

    method CreateWorkspaceWithOwner(p: Principal, id: string, w: Workspace) returns (reply: Reply)
      modifies repo
      ensures var sk := Scope(p.project, p.tenant);
              var (sh, answer) := Workspaces.CreateWorkspaceWithOwner(At(old(repo.shards), sk), id, w.kind, w.owner, 2);
              Became(old(repo.shards), repo.shards, sk, sh) && reply == answer
    {
      reply := repo.CreateWorkspace(p.project, p.tenant, id, w);
      if reply.Done? {
        repo.PutMembershipAndTuples(
          p.project, p.tenant, id, w.owner, Membership(Owner, Active), [RoleTuple(id, Owner, w.owner)], []);
      }
    }

    method CreateWorkspace(p: Principal, e: Env, active: bool, named: bool, id: string, now: int) returns (reply: Reply)
      modifies repo
      ensures Served(old(repo.shards), repo.shards,
                     Call(p.project, p.tenant, p.user, active, e, now, NewTeam(id, named, 2)), reply)
    {
      CallIsSafe(repo.shards, Call(p.project, p.tenant, p.user, active, e, now, NewTeam(id, named, 2)));
      if !active { return Refused(FailedPrecondition); }
      if !named { return Refused(InvalidArgument); }
      reply := CreateWorkspaceWithOwner(p, id, Workspace(Team, p.user));
    }

    method EnsurePersonalWorkspace(p: Principal, e: Env, active: bool, id: string, now: int) returns (reply: Reply)
      modifies repo
      ensures Served(old(repo.shards), repo.shards,
                     Call(p.project, p.tenant, p.user, active, e, now, NewPersonal(id, 2)), reply)
    {
      CallIsSafe(repo.shards, Call(p.project, p.tenant, p.user, active, e, now, NewPersonal(id, 2)));
      var found := repo.PersonalWorkspace(p.project, p.tenant, p.user);
      if found.Some? { return Done; }
      reply := CreateWorkspaceWithOwner(p, id, Workspace(Personal, p.user));
      if reply == Refused(AlreadyExists) {
        found := repo.PersonalWorkspace(p.project, p.tenant, p.user);
        reply := if found.Some? then Done else Refused(NotFound);
      }
    }

    method DeleteWorkspace(p: Principal, e: Env, active: bool, ws: string, now: int) returns (reply: Reply)
      modifies repo
      ensures Served(old(repo.shards), repo.shards,
                     Call(p.project, p.tenant, p.user, active, e, now, Delete(ws)), reply)
    {
      CallIsSafe(repo.shards, Call(p.project, p.tenant, p.user, active, e, now, Delete(ws)));
      var denial := RequireWorkspace(p, e, ws, Owner);
      if denial.Some? { return Refused(denial.value); }
      if Here(p).workspaces[ws].kind.Personal? { return Refused(FailedPrecondition); }
      reply := repo.DeleteWorkspace(p.project, p.tenant, ws);
    }

    // ---- members ----

    method PutMember(p: Principal, active: bool, ws: string, u: string, r: Role) returns (reply: Reply)
      modifies repo
      ensures var sk := Scope(p.project, p.tenant);
              var (sh, answer) := Workspaces.PutMember(At(old(repo.shards), sk), active, ws, u, r);
              Became(old(repo.shards), repo.shards, sk, sh) && reply == answer
    {
      if !active { return Refused(FailedPrecondition); }
      repo.PutMembershipAndTuples(p.project, p.tenant, ws, u, Membership(r, Active), [RoleTuple(ws, r, u)], []);
      reply := Done;
    }

    method AddMember(p: Principal, e: Env, active: bool, ws: string, u: string, r: Role, now: int)
        returns (reply: Reply)
      modifies repo
      ensures Served(old(repo.shards), repo.shards,
                     Call(p.project, p.tenant, p.user, active, e, now, Add(ws, u, r)), reply)
    {
      CallIsSafe(repo.shards, Call(p.project, p.tenant, p.user, active, e, now, Add(ws, u, r)));
      if r.Owner? || u == "" { return Refused(InvalidArgument); }
      var denial := RequireWorkspace(p, e, ws, Admin);
      if denial.Some? { return Refused(denial.value); }
      if Here(p).workspaces[ws].kind.Personal? { return Refused(FailedPrecondition); }
      if (ws, u) in Here(p).members { return Refused(AlreadyExists); }
      reply := PutMember(p, active, ws, u, r);
    }

    method UpdateMemberRole(p: Principal, e: Env, active: bool, ws: string, u: string, r: Role, now: int)
        returns (reply: Reply)
      modifies repo
      ensures Served(old(repo.shards), repo.shards,
                     Call(p.project, p.tenant, p.user, active, e, now, ChangeRole(ws, u, r)), reply)
    {
      CallIsSafe(repo.shards, Call(p.project, p.tenant, p.user, active, e, now, ChangeRole(ws, u, r)));
      if r.Owner? { return Refused(InvalidArgument); }
      var denial := RequireWorkspace(p, e, ws, Admin);
      if denial.Some? { return Refused(denial.value); }
      if (ws, u) !in Here(p).members { return Refused(NotFound); }
      var row := Here(p).members[(ws, u)];
      if row.role.Owner? { return Refused(FailedPrecondition); }
      if row.status.Suspended? { return Refused(FailedPrecondition); }
      if row.role == r { return Done; }
      var former := row.role;
      row := row.(role := r);
      repo.PutMembershipAndTuples(p.project, p.tenant, ws, u, row, [RoleTuple(ws, r, u)], [RoleTuple(ws, former, u)]);
      reply := Done;
    }

    method RemoveMember(p: Principal, e: Env, active: bool, ws: string, u: string, now: int) returns (reply: Reply)
      modifies repo
      ensures Served(old(repo.shards), repo.shards,
                     Call(p.project, p.tenant, p.user, active, e, now, RemoveUser(ws, u)), reply)
    {
      CallIsSafe(repo.shards, Call(p.project, p.tenant, p.user, active, e, now, RemoveUser(ws, u)));
      var denial := RequireWorkspace(p, e, ws, Admin);
      if denial.Some? { return Refused(denial.value); }
      if (ws, u) !in Here(p).members { return Refused(NotFound); }
      var row := Here(p).members[(ws, u)];
      if row.role.Owner? { return Refused(FailedPrecondition); }
      reply := repo.DeleteMembershipAndTuples(p.project, p.tenant, ws, u, [RoleTuple(ws, row.role, u)]);
    }

    method SuspendMember(p: Principal, e: Env, active: bool, ws: string, u: string, now: int) returns (reply: Reply)
      modifies repo
      ensures Served(old(repo.shards), repo.shards,
                     Call(p.project, p.tenant, p.user, active, e, now, Suspend(ws, u)), reply)
    {
      CallIsSafe(repo.shards, Call(p.project, p.tenant, p.user, active, e, now, Suspend(ws, u)));
      var denial := RequireWorkspace(p, e, ws, Admin);
      if denial.Some? { return Refused(denial.value); }
      if (ws, u) !in Here(p).members { return Refused(NotFound); }
      var row := Here(p).members[(ws, u)];
      if row.role.Owner? { return Refused(FailedPrecondition); }
      if row.status.Suspended? { return Done; }
      row := row.(status := Suspended);
      repo.PutMembershipAndTuples(p.project, p.tenant, ws, u, row, [], [RoleTuple(ws, row.role, u)]);
      reply := Done;
    }

    method ReinstateMember(p: Principal, e: Env, active: bool, ws: string, u: string, now: int) returns (reply: Reply)
      modifies repo
      ensures Served(old(repo.shards), repo.shards,
                     Call(p.project, p.tenant, p.user, active, e, now, Reinstate(ws, u)), reply)
    {
      CallIsSafe(repo.shards, Call(p.project, p.tenant, p.user, active, e, now, Reinstate(ws, u)));
      var denial := RequireWorkspace(p, e, ws, Admin);
      if denial.Some? { return Refused(denial.value); }
      if (ws, u) !in Here(p).members { return Refused(NotFound); }
      var row := Here(p).members[(ws, u)];
      if !row.status.Suspended? { return Done; }
      row := row.(status := Active);
      repo.PutMembershipAndTuples(p.project, p.tenant, ws, u, row, [RoleTuple(ws, row.role, u)], []);
      reply := Done;
    }

    /** Promote the new owner, record them, demote the former one. */
    method TransferOwnership(p: Principal, e: Env, active: bool, ws: string, u: string, now: int) returns (reply: Reply)
      modifies repo
      ensures Served(old(repo.shards), repo.shards,
                     Call(p.project, p.tenant, p.user, active, e, now, Transfer(ws, u, 3)), reply)
    {
      CallIsSafe(repo.shards, Call(p.project, p.tenant, p.user, active, e, now, Transfer(ws, u, 3)));
      if u == "" { return Refused(InvalidArgument); }
      var denial := RequireWorkspace(p, e, ws, Owner);
      if denial.Some? { return Refused(denial.value); }
      if !active { return Refused(FailedPrecondition); }
      var w := Here(p).workspaces[ws];
      if w.kind.Personal? { return Refused(FailedPrecondition); }
      if u == w.owner { return Done; }
      RunTransfer(p, ws, u);
      reply := Done;
    }

    /** The three repository steps. */
    method RunTransfer(p: Principal, ws: string, u: string)
      requires ws in Here(p).workspaces
      modifies repo
      ensures var sk := Scope(p.project, p.tenant);
              Became(old(repo.shards), repo.shards, sk, TransferSteps(At(old(repo.shards), sk), ws, u, 3))
    {
      var w := Here(p).workspaces[ws];
      PromoteNew(p, ws, u);
      var _ := repo.UpdateWorkspace(p.project, p.tenant, ws, w.(owner := u));
      DemoteFormer(p, ws, w.owner);
    }

    method PromoteNew(p: Principal, ws: string, u: string)
      modifies repo
      ensures var sk := Scope(p.project, p.tenant);
              Became(old(repo.shards), repo.shards, sk, Promote(At(old(repo.shards), sk), ws, u))
    {
      var deletes := [];
      if (ws, u) in Here(p).members && !Here(p).members[(ws, u)].role.Owner? {
        deletes := [RoleTuple(ws, Here(p).members[(ws, u)].role, u)];
      }
      repo.PutMembershipAndTuples(p.project, p.tenant, ws, u, Membership(Owner, Active), [RoleTuple(ws, Owner, u)],
          deletes);
    }

    method DemoteFormer(p: Principal, ws: string, former: string)
      modifies repo
      ensures var sk := Scope(p.project, p.tenant);
              Became(old(repo.shards), repo.shards, sk, Demote(At(old(repo.shards), sk), ws, former))
    {
      var grant, revoke := [RoleTuple(ws, Admin, former)], [RoleTuple(ws, Owner, former)];
      if (ws, former) in Here(p).members {
        repo.PutMembershipAndTuples(
          p.project, p.tenant, ws, former, Here(p).members[(ws, former)].(role := Admin), grant, revoke);
      } else {
        repo.WriteTuples(p.project, p.tenant, grant, revoke);
      }
    }

    // ---- invitations ----

    method CreateInvitation(
        p: Principal, e: Env, active: bool, ws: string, emailGiven: bool, r: Role, id: string, hash: string, now: int)
        returns (reply: Reply)
      modifies repo
      ensures Served(old(repo.shards), repo.shards,
                     Call(p.project, p.tenant, p.user, active, e, now, Invite(ws, emailGiven, r, id, hash)), reply)
    {
      CallIsSafe(repo.shards, Call(p.project, p.tenant, p.user, active, e, now, Invite(ws, emailGiven, r, id, hash)));
      if !active { return Refused(FailedPrecondition); }
      if r.Owner? { return Refused(InvalidArgument); }
      if !emailGiven { return Refused(InvalidArgument); }
      var denial := RequireWorkspace(p, e, ws, Admin);
      if denial.Some? { return Refused(denial.value); }
      if Here(p).workspaces[ws].kind.Personal? { return Refused(FailedPrecondition); }
      reply := repo.CreateInvitation(p.project, p.tenant, id, Invitation(ws, r, Pending, hash, now + INVITATION_TTL));
    }

    /** Accepts an invitation stored under the token's hash; `found` is the one it takes. */
    method AcceptInvitation(p: Principal, e: Env, active: bool, tokenGiven: bool, hash: string, now: int)
        returns (reply: Reply, found: Option<string>)
      modifies repo
      ensures var sh := At(old(repo.shards), Scope(p.project, p.tenant));
              if !tokenGiven then reply == Refused(InvalidArgument) && repo.shards == old(repo.shards)
              else if found.None? then
                && (forall x | x in sh.invitations :: sh.invitations[x].tokenHash != hash)
                && reply == Refused(NotFound) && repo.shards == old(repo.shards)
              else
                && found.value in sh.invitations && sh.invitations[found.value].tokenHash == hash
                && Served(old(repo.shards), repo.shards,
                          Call(p.project, p.tenant, p.user, active, e, now, Accept(found.value, 2)), reply)
    {
      if !tokenGiven { return Refused(InvalidArgument), None; }
      found := repo.GetInvitationByTokenHash(p.project, p.tenant, hash);
      if found.None? { return Refused(NotFound), None; }
      CallIsSafe(repo.shards, Call(p.project, p.tenant, p.user, active, e, now, Accept(found.value, 2)));
      reply := TakeInvitation(p, active, found.value, now);
    }

    method TakeInvitation(p: Principal, active: bool, id: string, now: int) returns (reply: Reply)
      requires id in Here(p).invitations
      modifies repo
      ensures var sk := Scope(p.project, p.tenant);
              var (sh, answer) := Workspaces.AcceptInvitation(At(old(repo.shards), sk), active, p.user, id, now, 2);
              Became(old(repo.shards), repo.shards, sk, sh) && reply == answer
    {
      var inv := Here(p).invitations[id];
      if !inv.status.Pending? { return Refused(FailedPrecondition); }
      if now > inv.expiresAt {
        reply := repo.UpdateInvitation(p.project, p.tenant, id, inv.(status := Expired));
        return Refused(FailedPrecondition);
      }
      if (inv.ws, p.user) !in Here(p).members {
        reply := PutMember(p, active, inv.ws, p.user, inv.role);
        if reply.Refused? { return; }
      }
      reply := repo.UpdateInvitation(p.project, p.tenant, id, inv.(status := Accepted));
    }

    method RevokeInvitation(p: Principal, e: Env, active: bool, id: string, now: int) returns (reply: Reply)
      modifies repo
      ensures Served(old(repo.shards), repo.shards,
                     Call(p.project, p.tenant, p.user, active, e, now, RevokeInvite(id)), reply)
    {
      CallIsSafe(repo.shards, Call(p.project, p.tenant, p.user, active, e, now, RevokeInvite(id)));
      if id !in Here(p).invitations { return Refused(NotFound); }
      var inv := Here(p).invitations[id];
      var denial := RequireWorkspace(p, e, inv.ws, Admin);
      if denial.Some? { return Refused(denial.value); }
      if !inv.status.Pending? { return Done; }
      reply := repo.UpdateInvitation(p.project, p.tenant, id, inv.(status := Revoked));
    }

    // ---- seats ----

    method SetSeatLimit(p: Principal, e: Env, active: bool, sku: string, limit: Option<int>, now: int)
        returns (reply: Reply)
      modifies repo
      ensures Served(old(repo.shards), repo.shards,
                     Call(p.project, p.tenant, p.user, active, e, now, Limit(sku, limit)), reply)
    {
      CallIsSafe(repo.shards, Call(p.project, p.tenant, p.user, active, e, now, Limit(sku, limit)));
      if sku == "" { return Refused(InvalidArgument); }
      if limit.Some? && limit.value < 0 { return Refused(InvalidArgument); }
      if !active { return Refused(FailedPrecondition); }
      repo.SetSeatLimit(p.project, p.tenant, sku, limit);
      reply := Done;
    }

    method AssignSeat(p: Principal, e: Env, active: bool, sku: string, u: string, now: int) returns (reply: Assigned)
      modifies repo
      ensures Served(old(repo.shards), repo.shards,
                     Call(p.project, p.tenant, p.user, active, e, now, Assign(sku, u)), SeatReply(reply))
      ensures reply == Seats.AssignSeat(At(old(repo.shards), Scope(p.project, p.tenant)), active, sku, u).1
    {
      CallIsSafe(repo.shards, Call(p.project, p.tenant, p.user, active, e, now, Assign(sku, u)));
      if sku == "" || u == "" { return SeatRefused(InvalidArgument); }
      if !active { return SeatRefused(FailedPrecondition); }
      reply := repo.AssignSeatAndTuple(p.project, p.tenant, sku, u, SeatTuple(sku, u));
    }

    method RevokeSeat(p: Principal, e: Env, active: bool, sku: string, u: string, now: int) returns (reply: Reply)
      modifies repo
      ensures Served(old(repo.shards), repo.shards,
                     Call(p.project, p.tenant, p.user, active, e, now, Unassign(sku, u)), reply)
    {
      CallIsSafe(repo.shards, Call(p.project, p.tenant, p.user, active, e, now, Unassign(sku, u)));
      if sku == "" || u == "" { return Refused(InvalidArgument); }
      if !active { return Refused(FailedPrecondition); }
      repo.RevokeSeatAndTuple(p.project, p.tenant, sku, u, SeatTuple(sku, u));
      reply := Done;
    }

    // ---- raw tuples and deprovisioning ----

    /** Validates the whole batch, then writes it. */
    method ApplyBatch(p: Principal, model: Model, active: bool, ops: seq<TupleOp>) returns (reply: Reply)
      modifies repo
      ensures var sk := Scope(p.project, p.tenant);
              var (sh, answer) := Seats.WriteTuples(At(old(repo.shards), sk), active, model, ops);
              Became(old(repo.shards), repo.shards, sk, sh) && reply == answer
    {
      ghost var allowed := forall t | t in Picked(ops, false) :: WritableRelation(model, t.ns, t.rel);
      var valid, inserts, deletes := SplitOps(ops);
      RawOutcome(Here(p), active, model, ops, valid, allowed);
      if !valid { return Refused(InvalidArgument); }
      if !active { return Refused(FailedPrecondition); }
      var writable := AllWritable(model, inserts);
      if !writable { return Refused(InvalidArgument); }
      repo.WriteTuples(p.project, p.tenant, inserts, deletes);
      reply := Done;
    }

    method WriteTuples(p: Principal, e: Env, active: bool, ops: seq<TupleOp>, now: int)
        returns (reply: Reply, token: Token)
      modifies repo
      ensures token == if reply.Done? then Token(p.project, p.tenant, Here(p).writes) else Blank
      ensures Served(old(repo.shards), repo.shards,
                     Call(p.project, p.tenant, p.user, active, e, now, Raw(ops)), reply)
    {
      CallIsSafe(repo.shards, Call(p.project, p.tenant, p.user, active, e, now, Raw(ops)));
      reply := ApplyBatch(p, e.model, active, ops);
      token := if reply.Done? then Token(p.project, p.tenant, Here(p).writes) else Blank;
    }

    /** Erases a user's grants in every tenant of the project and counts the tuples erased. */
    method DeprovisionUser(p: Principal, served: bool, u: string) returns (n: nat, reply: Reply)
      modifies repo
      ensures repo.shards == if served then Step(old(repo.shards), Deprovision(p.project, u)) else old(repo.shards)
      ensures if u == "" then reply == Refused(InvalidArgument) && n == 0
              else if !served then reply == Refused(FailedPrecondition) && n == 0
              else reply == Done && n == |Doomed(old(repo.shards), old(repo.shards).Keys, p.project, u)|
      ensures (old(SeatsValid()) ==> SeatsValid()) && (old(Valid()) ==> Valid())
    {
      if u == "" { return 0, Refused(InvalidArgument); }
      if !served { return 0, Refused(FailedPrecondition); }
      EraseIsSafe(repo.shards, p.project, u);
      n := repo.DeleteAllSubjectTuplesInProject(p.project, u);
      reply := Done;
    }

    // ---- consistency tokens ----

    /** Whether the store has reached the state a token demands. */
    method EnsureConsistency(p: Principal, token: Token) returns (reply: Reply)
      ensures reply == Consistency(Here(p), p.project, p.tenant, token)
    {
      if token.Blank? { return Done; }
      if token.Garbled? { return Refused(InvalidArgument); }
      if token.project != p.project || token.tenant != p.tenant { return Refused(InvalidArgument); }
      if Here(p).writes < token.seqNo { return Refused(FailedPrecondition); }
      reply := Done;
    }
  }
}
