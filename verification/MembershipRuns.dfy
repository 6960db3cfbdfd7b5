/**
 The membership machine over every run: rows, role tuples and owners, and what Check answers about
 them under the default model.
 */
module MembershipRuns {
  import opened AuthzModel
  import opened Evaluator
  import opened TupleKeys
  import opened Store
  import opened Inert
  import opened Seats
  import opened Workspaces
  import opened Grades
  import opened MembershipSteps
  import opened Requests
  import opened SeatRuns

  /**
   What the call's engine reads is what its shard stores, under the default model, at whatever depth and
   budget; raw writes stay off workspaces.
   */
  ghost predicate Faithful(sh: Shard, c: Call) {
    c.Call? ==>
      && Lists(c.e, sh.tuples, c.now) && c.e.model == DefaultModel
      && (c.req.Raw? ==> forall op | op in c.req.ops :: op.tuple.ns != WORKSPACE)
  }

  /** The pairs a request is about, and the standing it gives them if it writes anything. */
  function MovesOf(sh: Shard, c: Call): Moves
    requires c.Call?
  {
    match c.req
    case NewTeam(id, _, _) => map[(id, c.actor) := Some(Owner)]
    case NewPersonal(id, _) => map[(id, c.actor) := Some(Owner)]
    case Add(ws, u, r) => map[(ws, u) := Some(r)]
    case ChangeRole(ws, u, r) => map[(ws, u) := Some(r)]
    case RemoveUser(ws, u) => map[(ws, u) := None]
    case Suspend(ws, u) => map[(ws, u) := None]
    case Reinstate(ws, u) => map[(ws, u) := RowRole(sh.members, (ws, u))]
    case Transfer(ws, u, steps) => TransferMoves(ws, u, OwnerOf(sh, ws), steps)
    case Delete(ws) => Emptied(sh.members, ws)
    case Accept(id, _) => JoinMoves(sh, c.actor, id)
    case _ => map[]
  }

  /** What the request did move: nothing unless it wrote. */
  function MovesBy(sh: Shard, c: Call): Moves
    requires c.Call?
  {
    if Serve(sh, c).0.writes == sh.writes then map[] else MovesOf(sh, c)
  }

  /** A creation that will be cut between its two repository steps. */
  predicate CutCreation(sh: Shard, c: Call, ws: string) {
    && c.Call? && ws !in sh.workspaces
    && match c.req
       case NewTeam(id, named, steps) => c.active && named && id == ws && steps == 1
       case NewPersonal(id, steps) =>
         id == ws && steps == 1 && forall x | x in sh.workspaces :: sh.workspaces[x] != Workspace(Personal, c.actor)
       case _ => false
  }

  ghost predicate OrphansGrow(sh: Shard, sh': Shard, c: Call) {
    forall x: string :: Orphan(sh', x) <==> Orphan(sh, x) || CutCreation(sh, c, x)
  }

  /**
   The invariant is kept, only a creation cut short leaves a new ownerless workspace, and exactly `moves`
   happened.
   */
  ghost predicate Stepped(sh: Shard, sh': Shard, c: Call, moves: Moves) {
    Inv(sh') && OrphansGrow(sh, sh', c) && Moved(sh, sh', moves)
  }

  // ---- one request ----

  lemma TeamSteps(sh: Shard, c: Call)
    requires Inv(sh) && c.Call? && c.req.NewTeam?
    ensures var sh' := CreateTeam(sh, c.active, c.req.named, c.req.id, c.actor, c.req.steps).0;
            Stepped(sh, sh', c, if sh'.writes == sh.writes then map[] else map[(c.req.id, c.actor) := Some(Owner)])
  {
    if c.active && c.req.named { CreateKeeps(sh, c.req.id, Team, c.actor, c.req.steps); } else { Unchanged(sh); }
  }

  lemma PersonalSteps(sh: Shard, c: Call)
    requires Inv(sh) && c.Call? && c.req.NewPersonal?
    ensures var sh' := EnsurePersonal(sh, c.req.id, c.actor, c.req.steps).0;
            Stepped(sh, sh', c, if sh'.writes == sh.writes then map[] else map[(c.req.id, c.actor) := Some(Owner)])
  {
    var sh' := EnsurePersonal(sh, c.req.id, c.actor, c.req.steps).0;
    if forall x | x in sh.workspaces :: sh.workspaces[x] != Workspace(Personal, c.actor) {
      assert sh' == CreateWorkspaceWithOwner(sh, c.req.id, Personal, c.actor, c.req.steps).0;
      CreateKeeps(sh, c.req.id, Personal, c.actor, c.req.steps);
    } else {
      assert sh' == sh;
      Unchanged(sh);
    }
  }

  /** Whatever leaves rows and workspace tuples alone. */
  lemma RowsKept(sh: Shard, sh': Shard)
    requires Inv(sh) && SameIn(WORKSPACE, sh.tuples, sh'.tuples)
    requires sh' == sh.(tuples := sh'.tuples, writes := sh'.writes, seats := sh'.seats, seatLimits := sh'.seatLimits)
    ensures Kept(sh, sh', map[])
  {
  }

  lemma RawKeeps(sh: Shard, active: bool, model: Model, ops: seq<TupleOp>)
    requires Inv(sh) && forall op | op in ops :: op.tuple.ns != WORKSPACE
    ensures Kept(sh, WriteTuples(sh, active, model, ops).0, map[])
  {
    var sh' := WriteTuples(sh, active, model, ops).0;
    if sh' == sh {
      Unchanged(sh);
    } else {
      PickedAreGiven(ops, false);
      PickedAreGiven(ops, true);
      WriteElsewhere(WORKSPACE, sh.tuples, Picked(ops, false), Picked(ops, true));
      RowsKept(sh, sh');
    }
  }

  lemma SeatsOffWorkspaces(sku: string, u: string)
    ensures Off([SeatTuple(sku, u)], WORKSPACE)
  {
    assert WORKSPACE[0] != SEAT_NAMESPACE[0];
  }

  lemma AssignKeeps(sh: Shard, active: bool, sku: string, u: string)
    requires Inv(sh)
    ensures Kept(sh, AssignSeat(sh, active, sku, u).0, map[])
  {
    var sh' := AssignSeat(sh, active, sku, u).0;
    if sh' == sh {
      Unchanged(sh);
    } else {
      SeatsOffWorkspaces(sku, u);
      WriteElsewhere(WORKSPACE, sh.tuples, [SeatTuple(sku, u)], []);
      RowsKept(sh, sh');
    }
  }

  lemma UnassignKeeps(sh: Shard, active: bool, sku: string, u: string)
    requires Inv(sh)
    ensures Kept(sh, RevokeSeat(sh, active, sku, u).0, map[])
  {
    var sh' := RevokeSeat(sh, active, sku, u).0;
    if sh' == sh {
      Unchanged(sh);
    } else {
      SeatsOffWorkspaces(sku, u);
      WriteElsewhere(WORKSPACE, sh.tuples, [], [SeatTuple(sku, u)]);
      RowsKept(sh, sh');
    }
  }

  lemma LimitKeeps(sh: Shard, active: bool, sku: string, limit: Option<int>)
    requires Inv(sh)
    ensures Kept(sh, SetSeatLimit(sh, active, sku, limit).0, map[])
  {
    RowsKept(sh, SetSeatLimit(sh, active, sku, limit).0);
  }

  /** A guard that passes finds the workspace owned. */
  lemma GuardFindsOwner(sh: Shard, c: Call, ws: string, asked: Role)
    requires Inv(sh) && c.Call? && Faithful(sh, c)
    ensures Guard(sh, c.e, c.actor, ws, asked).None? ==> HasOwner(sh, ws)
  {
    if Guard(sh, c.e, c.actor, ws, asked).None? {
      GuardIsSound(c.e, sh, c.now, c.actor, ws, asked);
      HolderHasOwner(sh, c.actor, ws, asked);
    }
  }

  lemma MemberServeKeeps(sh: Shard, c: Call)
    requires Inv(sh) && Faithful(sh, c) && c.Call? && AboutMembers(c.req)
    ensures KeptIf(sh, Serve(sh, c).0, MovesOf(sh, c))
  {
    var sh' := Serve(sh, c).0;
    match c.req
    case Add(ws, u, r) =>
      var denial := Guard(sh, c.e, c.actor, ws, Admin);
      GuardFindsOwner(sh, c, ws, Admin);
      assert sh' == AddMember(sh, c.active, denial, ws, u, r).0;
      AddKeeps(sh, c.active, denial, ws, u, r);
    case ChangeRole(ws, u, r) =>
      var denial := Guard(sh, c.e, c.actor, ws, Admin);
      assert sh' == UpdateMemberRole(sh, denial, ws, u, r).0;
      UpdateKeeps(sh, denial, ws, u, r);
    case RemoveUser(ws, u) =>
      var denial := Guard(sh, c.e, c.actor, ws, Admin);
      assert sh' == RemoveMember(sh, denial, ws, u).0;
      RemoveKeeps(sh, denial, ws, u);
    case Suspend(ws, u) =>
      var denial := Guard(sh, c.e, c.actor, ws, Admin);
      assert sh' == SuspendMember(sh, denial, ws, u).0;
      SuspendKeeps(sh, denial, ws, u);
    case Reinstate(ws, u) =>
      var denial := Guard(sh, c.e, c.actor, ws, Admin);
      assert sh' == ReinstateMember(sh, denial, ws, u).0;
      ReinstateKeeps(sh, denial, ws, u);
    case Transfer(ws, u, steps) =>
      var denial := Guard(sh, c.e, c.actor, ws, Owner);
      GuardFindsOwner(sh, c, ws, Owner);
      assert sh' == TransferOwnership(sh, c.active, denial, ws, u, steps).0;
      TransferKeeps(sh, c.active, denial, ws, u, steps);
  }

  lemma SeatServeKeeps(sh: Shard, c: Call)
    requires Inv(sh) && c.Call? && AboutSeats(c.req)
    ensures Kept(sh, Serve(sh, c).0, map[])
  {
    var sh' := Serve(sh, c).0;
    match c.req
    case Limit(sku, limit) =>
      assert sh' == SetSeatLimit(sh, c.active, sku, limit).0;
      LimitKeeps(sh, c.active, sku, limit);
    case Assign(sku, u) =>
      assert sh' == AssignSeat(sh, c.active, sku, u).0;
      AssignKeeps(sh, c.active, sku, u);
    case Unassign(sku, u) =>
      assert sh' == RevokeSeat(sh, c.active, sku, u).0;
      UnassignKeeps(sh, c.active, sku, u);
  }

  lemma InviteServeKeeps(sh: Shard, c: Call)
    requires Inv(sh) && Faithful(sh, c) && c.Call? && (c.req.Invite? || c.req.RevokeInvite?)
    ensures Kept(sh, Serve(sh, c).0, map[])
  {
    var sh' := Serve(sh, c).0;
    match c.req
    case Invite(ws, given, r, id, hash) =>
      var denial := Guard(sh, c.e, c.actor, ws, Admin);
      GuardFindsOwner(sh, c, ws, Admin);
      assert sh' == CreateInvitation(sh, c.active, denial, ws, given, r, id, hash, c.now).0;
      InviteKeeps(sh, c.active, denial, ws, given, r, id, hash, c.now);
    case RevokeInvite(id) =>
      var denial := InviteGuard(sh, c.e, c.actor, id);
      assert sh' == RevokeInvitation(sh, denial, id).0;
      RevokeInvitationKeeps(sh, denial, id);
  }

  /** Seats, raw writes elsewhere, and invitations that add nobody move nobody. */
  lemma OtherServeKeeps(sh: Shard, c: Call)
    requires Inv(sh) && Faithful(sh, c) && c.Call?
    requires AboutSeats(c.req) || c.req.Raw? || c.req.Invite? || c.req.RevokeInvite?
    ensures Kept(sh, Serve(sh, c).0, map[])
  {
    if c.req.Raw? {
      RawKeeps(sh, c.active, c.e.model, c.req.ops);
    } else if AboutSeats(c.req) {
      SeatServeKeeps(sh, c);
    } else {
      InviteServeKeeps(sh, c);
    }
  }

  lemma ServeKeeps(sh: Shard, c: Call)
    requires Inv(sh) && Faithful(sh, c) && c.Call? && !c.req.NewTeam? && !c.req.NewPersonal?
    ensures KeptIf(sh, Serve(sh, c).0, MovesOf(sh, c))
  {
    if AboutMembers(c.req) {
      MemberServeKeeps(sh, c);
    } else if c.req.Delete? {
      GuardFindsOwner(sh, c, c.req.ws, Owner);
      DeleteKeeps(sh, Guard(sh, c.e, c.actor, c.req.ws, Owner), c.req.ws);
    } else if c.req.Accept? {
      AcceptKeeps(sh, c.active, c.actor, c.req.id, c.now, c.req.steps);
    } else {
      OtherServeKeeps(sh, c);
    }
  }

  lemma ServeSteps(sh: Shard, c: Call)
    requires Inv(sh) && Faithful(sh, c) && c.Call?
    ensures Stepped(sh, Serve(sh, c).0, c, MovesBy(sh, c))
  {
    match c.req
    case NewTeam(_, _, _) => TeamSteps(sh, c);
    case NewPersonal(_, _) => PersonalSteps(sh, c);
    case _ => ServeKeeps(sh, c);
  }

  // ---- every run, seen from one shard ----

  predicate Addressed(c: Call, sk: string) {
    c.Call? && sk == Scope(c.project, c.tenant)
  }

  /** The call is a deprovisioning that reaches the shard. */
  predicate Reaching(c: Call, sk: string) {
    c.Deprovision? && c.user != "" && InProject(sk, c.project)
  }

  ghost predicate FaithfulRun(calls: seq<Call>, sk: string)
    decreases |calls|
  {
    calls == [] ||
    (var before, c := calls[..|calls| - 1], calls[|calls| - 1];
     FaithfulRun(before, sk) && (Addressed(c, sk) ==> Faithful(At(Run(map[], before), sk), c)))
  }

  /** The pairs without their tuple after one more call: an erase adds the user's active rows, a written row is out. */
  function LostBy(sh: Shard, sk: string, lost: set<Pair>, c: Call): set<Pair> {
    if Addressed(c, sk) then lost - MovesBy(sh, c).Keys
    else if Reaching(c, sk) then lost + ActivePairs(sh.members, c.user)
    else lost
  }

  /** The pairs that lost their tuple in a run and have not been written since. */
  function LostAt(calls: seq<Call>, sk: string): set<Pair>
    decreases |calls|
  {
    if calls == [] then {}
    else
      var before := calls[..|calls| - 1];
      LostBy(At(Run(map[], before), sk), sk, LostAt(before, sk), calls[|calls| - 1])
  }

  /** The run cut the creation of `ws` between its two repository steps. */
  predicate WasCut(calls: seq<Call>, sk: string, ws: string)
    decreases |calls|
  {
    calls != [] &&
    (var before, c := calls[..|calls| - 1], calls[|calls| - 1];
     WasCut(before, sk, ws) || (Addressed(c, sk) && CutCreation(At(Run(map[], before), sk), c, ws)))
  }

  /** One step of any kind: the invariant, the ownerless workspaces and the lost pairs after it. */
  ghost predicate SteppedAt(sh: Shard, sh': Shard, sk: string, c: Call) {
    && Inv(sh')
    && (forall x: string :: Orphan(sh', x) <==> Orphan(sh, x) || (Addressed(c, sk) && CutCreation(sh, c, x)))
    && Lost(sh'.tuples, sh'.members) == LostBy(sh, sk, Lost(sh.tuples, sh.members), c)
  }

  lemma ServeStepsAt(sh: Shard, sk: string, c: Call)
    requires Inv(sh) && Addressed(c, sk) && Faithful(sh, c)
    ensures SteppedAt(sh, Serve(sh, c).0, sk, c)
  {
    ServeSteps(sh, c);
    LostAfterMoves(sh, Serve(sh, c).0, MovesBy(sh, c));
  }

  lemma EraseStepsAt(sh: Shard, sk: string, c: Call)
    requires Inv(sh) && Reaching(c, sk)
    ensures SteppedAt(sh, EraseUser(sh, c.user), sk, c)
  {
    EraseKeeps(sh, c.user);
  }

  lemma StepKeepsInv(sh: Shard, sk: string, c: Call)
    requires Inv(sh) && (Addressed(c, sk) ==> Faithful(sh, c))
    ensures SteppedAt(sh, StepAt(sh, sk, c), sk, c)
  {
    if Addressed(c, sk) {
      ServeStepsAt(sh, sk, c);
    } else if Reaching(c, sk) {
      EraseStepsAt(sh, sk, c);
    }
  }

  /**
   After every run: stored role tuples are those of active rows, an active row lacks its tuple exactly when
   an erase took it and no later request wrote the row, and a workspace lacks its owner exactly when a crash
   cut its creation.
   */
  lemma {:induction false} InvAlways(calls: seq<Call>, sk: string)
    requires FaithfulRun(calls, sk)
    ensures var sh := At(Run(map[], calls), sk);
            Inv(sh) && Lost(sh.tuples, sh.members) == LostAt(calls, sk)
    ensures forall ws: string :: Orphan(At(Run(map[], calls), sk), ws) <==> WasCut(calls, sk, ws)
    decreases |calls|
  {
    if calls != [] {
      var before, c := calls[..|calls| - 1], calls[|calls| - 1];
      InvAlways(before, sk);
      StepIsLocal(Run(map[], before), c, sk);
      StepKeepsInv(At(Run(map[], before), sk), sk, c);
    }
  }

  /**
   After every run, for every user: Check under the default model is the active row's grade, unless the pair is
   lost.
   */
  lemma WorkspaceCheckAfterAnyRun(calls: seq<Call>, sk: string, e: Env, now: int, ws: string, u: string, asked: Role)
    requires FaithfulRun(calls, sk) && e.model == DefaultModel && Ample(e)
    requires Lists(e, At(Run(map[], calls), sk).tuples, now)
    ensures TopCheck(e, ByUser(u), GradeNode(ws, asked)).res
         == Ok(u != "" && Ranks(At(Run(map[], calls), sk).members, ws, u, asked) && (ws, u) !in LostAt(calls, sk))
  {
    InvAlways(calls, sk);
    WorkspaceCheckIsExact(e, At(Run(map[], calls), sk), now, ws, u, asked);
  }

  /** After every run the recorded owner of an owned workspace passes the owner guard, unless their pair is lost. */
  lemma OwnerPassesIff(calls: seq<Call>, sk: string, e: Env, now: int, ws: string)
    requires FaithfulRun(calls, sk) && e.model == DefaultModel && Ample(e)
    requires Lists(e, At(Run(map[], calls), sk).tuples, now) && HasOwner(At(Run(map[], calls), sk), ws)
    ensures var sh := At(Run(map[], calls), sk);
            var owner := sh.workspaces[ws].owner;
            Guard(sh, e, owner, ws, Owner).None? <==> owner != "" && (ws, owner) !in LostAt(calls, sk)
  {
    WorkspaceCheckAfterAnyRun(calls, sk, e, now, ws, At(Run(map[], calls), sk).workspaces[ws].owner, Owner);
  }

  // ---- where the invariant does not reach ----

  lemma InsertRoleKeepsIff(sh: Shard, ws: string, r: Role, u: string)
    requires Inv(sh)
    ensures Inv(WriteIn(sh, [RoleTuple(ws, r, u)], [])) <==> Standing(sh.members, (ws, u)) == Some(r)
  {
    var t := RoleTuple(ws, r, u);
    InsertOneStores(sh.tuples, t);
    var sh' := WriteIn(sh, [t], []);
    if Standing(sh.members, (ws, u)) == Some(r) {
      forall x: Tuple | Stored(sh'.tuples, x) && x.ns == WORKSPACE
        ensures RowBacks(sh.members, x)
      {
        if x != t { assert Stored(sh.tuples, x); }
      }
    } else if RowBacks(sh.members, t) {
      RoleNamesDiffer(r, sh.members[(ws, u)].role);
    }
  }

  lemma InsertOneOp(sh: Shard, model: Model, t: Tuple)
    requires ValidTuple(t) && WritableRelation(model, t.ns, t.rel)
    ensures WriteTuples(sh, true, model, [TupleOp(false, t)]) == (WriteIn(sh, [t], []), Done)
  {
    var ops := [TupleOp(false, t)];
    assert ops[1..] == [];
    assert Picked(ops, false) == [t] + Picked(ops[1..], false) == [t];
    assert Picked(ops, true) == [] + Picked(ops[1..], true) == [];
  }

  /**
   A raw write may insert a role tuple, and keeps rows and tuples in step exactly when the tuple is already
   the role of an active row.
   */
  lemma RawRoleKeepsIff(sh: Shard, ws: string, r: Role, u: string)
    requires Inv(sh) && ValidTuple(RoleTuple(ws, r, u))
    ensures var (sh', reply) := WriteTuples(sh, true, DefaultModel, [TupleOp(false, RoleTuple(ws, r, u))]);
            reply.Done? && (Inv(sh') <==> Standing(sh.members, (ws, u)) == Some(r))
  {
    WritableGrade(r);
    InsertOneOp(sh, DefaultModel, RoleTuple(ws, r, u));
    InsertRoleKeepsIff(sh, ws, r, u);
  }

  /**
   A personal workspace whose creation was cut is handed out again as it is, and nobody may act on it:
   a crash between the two steps does leave a workspace without an owner.
   */
  lemma CutPersonalStaysOrphaned(
      sh: Shard, id: string, actor: string, id': string, steps: nat, u: string, asked: Role)
    requires Inv(sh) && id !in sh.workspaces
    requires forall x | x in sh.workspaces :: sh.workspaces[x] != Workspace(Personal, actor)
    ensures var sh1 := EnsurePersonal(sh, id, actor, 1).0;
            && Orphan(sh1, id) && EnsurePersonal(sh1, id', actor, steps) == (sh1, Done)
            && Denial(sh1, u, id, asked) == Some(PermissionDenied)
  {
    var sh1 := EnsurePersonal(sh, id, actor, 1).0;
    CreateKeeps(sh, id, Personal, actor, 1);
    assert sh1.workspaces[id] == Workspace(Personal, actor);
    HoldsIsRank(sh1.tuples, sh1.members, id, u, asked);
    assert (id, u) in sh1.members ==> OwnerRow(sh1.workspaces, sh1.members, (id, u).0);
  }
}
