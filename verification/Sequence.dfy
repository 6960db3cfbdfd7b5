/**
 The shard's write sequence (internal/repo/memory/memory.go): it never falls, and it advances with every
 change of the tuple table but one, the project-wide erase.
 */
module Sequence {
  import opened AuthzModel
  import opened TupleKeys
  import opened Store
  import opened Seats
  import opened Workspaces
  import opened Grades
  import opened Requests
  import opened SeatRuns

  /** The sequence has advanced, or nothing was written. */
  predicate Sequenced(sh: Shard, sh': Shard) {
    sh.writes < sh'.writes || (sh.writes == sh'.writes && sh.tuples == sh'.tuples)
  }

  // ---- the requests ----

  lemma CreateSequenced(sh: Shard, id: string, kind: WorkspaceType, owner: string, steps: nat)
    ensures Sequenced(sh, CreateWorkspaceWithOwner(sh, id, kind, owner, steps).0)
  {
  }

  lemma TeamSequenced(sh: Shard, active: bool, named: bool, id: string, actor: string, steps: nat)
    ensures Sequenced(sh, CreateTeam(sh, active, named, id, actor, steps).0)
    ensures Sequenced(sh, EnsurePersonal(sh, id, actor, steps).0)
  {
    CreateSequenced(sh, id, Team, actor, steps);
    CreateSequenced(sh, id, Personal, actor, steps);
  }

  lemma AddSequenced(sh: Shard, active: bool, denial: Option<Error>, ws: string, u: string, r: Role)
    requires denial.None? ==> ws in sh.workspaces
    ensures Sequenced(sh, AddMember(sh, active, denial, ws, u, r).0)
  {
  }

  lemma RoleSequenced(sh: Shard, denial: Option<Error>, ws: string, u: string, r: Role)
    ensures Sequenced(sh, UpdateMemberRole(sh, denial, ws, u, r).0)
  {
  }

  lemma RemoveSequenced(sh: Shard, denial: Option<Error>, ws: string, u: string)
    ensures Sequenced(sh, RemoveMember(sh, denial, ws, u).0)
  {
  }

  lemma StatusSequenced(sh: Shard, denial: Option<Error>, ws: string, u: string)
    ensures Sequenced(sh, SuspendMember(sh, denial, ws, u).0)
    ensures Sequenced(sh, ReinstateMember(sh, denial, ws, u).0)
  {
  }

  lemma TransferSequenced(sh: Shard, ws: string, u: string, steps: nat)
    requires ws in sh.workspaces
    ensures Sequenced(sh, TransferSteps(sh, ws, u, steps))
  {
    var sh1 := Promote(sh, ws, u);
    assert sh1.writes == sh.writes + 1 && sh1.workspaces == sh.workspaces;
    var sh2 := RecordOwner(sh1, ws, u);
    assert sh2.writes == sh1.writes;
    assert Demote(sh2, ws, sh.workspaces[ws].owner).writes == sh2.writes + 1;
  }

  lemma AcceptSequenced(sh: Shard, active: bool, actor: string, id: string, now: int, steps: nat)
    ensures Sequenced(sh, AcceptInvitation(sh, active, actor, id, now, steps).0)
  {
  }

  lemma SeatSequenced(sh: Shard, active: bool, sku: string, u: string)
    ensures Sequenced(sh, AssignSeat(sh, active, sku, u).0) && Sequenced(sh, RevokeSeat(sh, active, sku, u).0)
  {
  }

  lemma DeleteSequenced(sh: Shard, denial: Option<Error>, ws: string)
    requires denial.None? ==> ws in sh.workspaces
    ensures Sequenced(sh, DeleteWorkspace(sh, denial, ws).0)
  {
  }

  lemma RawSequenced(sh: Shard, active: bool, model: Model, ops: seq<TupleOp>)
    ensures Sequenced(sh, WriteTuples(sh, active, model, ops).0)
  {
  }

  lemma InviteSequenced(
      sh: Shard, active: bool, denial: Option<Error>, ws: string, given: bool, r: Role, id: string, hash: string,
      now: int)
    requires denial.None? ==> ws in sh.workspaces
    ensures Sequenced(sh, CreateInvitation(sh, active, denial, ws, given, r, id, hash, now).0)
  {
  }

  lemma RowsSequenced(sh: Shard, active: bool, denial: Option<Error>, id: string, sku: string, limit: Option<int>)
    ensures Sequenced(sh, RevokeInvitation(sh, denial, id).0) && Sequenced(sh, SetSeatLimit(sh, active, sku, limit).0)
  {
  }

  lemma ServeMembersSequenced(sh: Shard, c: Call)
    requires c.Call? && AboutMembers(c.req)
    ensures Sequenced(sh, Serve(sh, c).0)
  {
    var sh' := Serve(sh, c).0;
    match c.req
    case Add(ws, u, r) =>
      var denial := Guard(sh, c.e, c.actor, ws, Admin);
      assert sh' == AddMember(sh, c.active, denial, ws, u, r).0;
      AddSequenced(sh, c.active, denial, ws, u, r);
    case ChangeRole(ws, u, r) =>
      var denial := Guard(sh, c.e, c.actor, ws, Admin);
      assert sh' == UpdateMemberRole(sh, denial, ws, u, r).0;
      RoleSequenced(sh, denial, ws, u, r);
    case RemoveUser(ws, u) =>
      var denial := Guard(sh, c.e, c.actor, ws, Admin);
      assert sh' == RemoveMember(sh, denial, ws, u).0;
      RemoveSequenced(sh, denial, ws, u);
    case Suspend(ws, u) =>
      var denial := Guard(sh, c.e, c.actor, ws, Admin);
      assert sh' == SuspendMember(sh, denial, ws, u).0;
      StatusSequenced(sh, denial, ws, u);
    case Reinstate(ws, u) =>
      var denial := Guard(sh, c.e, c.actor, ws, Admin);
      assert sh' == ReinstateMember(sh, denial, ws, u).0;
      StatusSequenced(sh, denial, ws, u);
    case Transfer(ws, u, steps) =>
      if ws in sh.workspaces { TransferSequenced(sh, ws, u, steps); }
      assert sh' == sh || sh' == TransferSteps(sh, ws, u, steps);
  }

  lemma ServeOthersSequenced(sh: Shard, c: Call)
    requires c.Call? && (AboutSeats(c.req) || c.req.Raw? || c.req.RevokeInvite? || c.req.Invite?)
    ensures Sequenced(sh, Serve(sh, c).0)
  {
    match c.req
    case Invite(ws, given, r, id, hash) =>
      InviteSequenced(sh, c.active, Guard(sh, c.e, c.actor, ws, Admin), ws, given, r, id, hash, c.now);
    case Assign(sku, u) => SeatSequenced(sh, c.active, sku, u);
    case Unassign(sku, u) => SeatSequenced(sh, c.active, sku, u);
    case Raw(ops) => RawSequenced(sh, c.active, c.e.model, ops);
    case RevokeInvite(id) => RowsSequenced(sh, c.active, InviteGuard(sh, c.e, c.actor, id), id, "", None);
    case Limit(sku, limit) => RowsSequenced(sh, c.active, None, "", sku, limit);
    case _ =>
  }

  lemma ServeSequenced(sh: Shard, c: Call)
    requires c.Call?
    ensures Sequenced(sh, Serve(sh, c).0)
  {
    if AboutMembers(c.req) {
      ServeMembersSequenced(sh, c);
    } else {
      match c.req
      case NewTeam(id, named, steps) => TeamSequenced(sh, c.active, named, id, c.actor, steps);
      case NewPersonal(id, steps) => TeamSequenced(sh, c.active, true, id, c.actor, steps);
      case Delete(ws) => DeleteSequenced(sh, Guard(sh, c.e, c.actor, ws, Owner), ws);
      case Accept(id, steps) => AcceptSequenced(sh, c.active, c.actor, id, c.now, steps);
      case _ => ServeOthersSequenced(sh, c);
    }
  }

  // ---- the erase ----

  /** A deprovisioning that takes tuples from the shard. */
  ghost predicate Silent(sh: Shard, sk: string, c: Call) {
    && c.Deprovision? && c.user != "" && InProject(sk, c.project)
    && exists k | k in sh.tuples :: NamesUser(sh.tuples[k], c.user)
  }

  lemma EraseChangesIff(sh: Shard, u: string)
    ensures EraseUser(sh, u).tuples != sh.tuples <==> exists k | k in sh.tuples :: NamesUser(sh.tuples[k], u)
  {
    if k :| k in sh.tuples && NamesUser(sh.tuples[k], u) { assert k !in EraseUser(sh, u).tuples; }
  }

  /** A step changes the table without advancing the sequence exactly when it is an erase that takes tuples. */
  lemma UnsequencedIffSilent(sh: Shard, sk: string, c: Call)
    ensures sh.writes <= StepAt(sh, sk, c).writes
    ensures StepAt(sh, sk, c).tuples != sh.tuples && StepAt(sh, sk, c).writes == sh.writes <==> Silent(sh, sk, c)
  {
    if c.Deprovision? {
      EraseChangesIff(sh, c.user);
    } else {
      ServeSequenced(sh, c);
    }
  }

  /** A store where it happens: the only tuple goes, the sequence stays. */
  lemma EraseSkipsSequence()
    ensures var t := RoleTuple("w", Owner, "u");
            var sh := WriteIn(EmptyShard, [t], []);
            var sh' := StepAt(sh, Scope("p", "t"), Deprovision("p", "u"));
            TupleKey(t) in sh.tuples && TupleKey(t) !in sh'.tuples && sh'.writes == sh.writes == 1
  {
    var t := RoleTuple("w", Owner, "u");
    assert [t][1..] == [];
    assert Insert(map[], [t]) == Insert(map[TupleKey(t) := t], []);
    assert "p" + [NUL] <= Scope("p", "t");
  }

  // ---- every run ----

  /** What a shard holds after the first `n` calls of a run. */
  function StateAt(calls: seq<Call>, n: nat, sk: string): Shard
    requires n <= |calls|
  {
    if n == 0 then EmptyShard else StepAt(StateAt(calls, n - 1, sk), sk, calls[n - 1])
  }

  lemma {:induction false} StateIsRun(calls: seq<Call>, n: nat, sk: string)
    requires n <= |calls|
    ensures StateAt(calls, n, sk) == At(Run(map[], calls[..n]), sk)
  {
    if n > 0 {
      StateIsRun(calls, n - 1, sk);
      assert calls[..n][..n - 1] == calls[..n - 1];
      StepIsLocal(Run(map[], calls[..n - 1]), calls[n - 1], sk);
    }
  }

  /** Some step from point `i` to point `j` of the run was silent. */
  ghost predicate SilentBetween(calls: seq<Call>, i: nat, j: nat, sk: string)
    requires i <= j <= |calls|
    decreases j - i
  {
    i < j && (SilentBetween(calls, i, j - 1, sk) || Silent(StateAt(calls, j - 1, sk), sk, calls[j - 1]))
  }

  predicate Shrunk(m: TupleTable, m': TupleTable) {
    forall k | k in m' :: k in m && m'[k] == m[k]
  }

  /**
   The sequence has not fallen; and where it stands still, tuples have at most gone, and none has if and only if
   nothing silent happened.
   */
  predicate Tells(a: Shard, b: Shard, silent: bool) {
    && a.writes <= b.writes
    && (a.writes == b.writes ==> Shrunk(a.tuples, b.tuples) && (a.tuples == b.tuples <==> !silent))
  }

  lemma TellsTransitive(a: Shard, mid: Shard, b: Shard, x: bool, y: bool, z: bool)
    requires Tells(a, mid, x) && Tells(mid, b, y) && (z <==> x || y)
    ensures Tells(a, b, z)
  {
    if a.writes == b.writes && a.tuples == b.tuples { assert mid.tuples == a.tuples; }
  }

  lemma StepTells(sh: Shard, sk: string, c: Call)
    ensures Tells(sh, StepAt(sh, sk, c), Silent(sh, sk, c))
  {
    UnsequencedIffSilent(sh, sk, c);
  }

  lemma TellsSame(a: Shard)
    ensures Tells(a, a, false)
  {
  }

  lemma TellsStep(a: Shard, mid: Shard, b: Shard, sk: string, c: Call, x: bool, z: bool)
    requires Tells(a, mid, x) && b == StepAt(mid, sk, c) && (z <==> x || Silent(mid, sk, c))
    ensures Tells(a, b, z)
  {
    StepTells(mid, sk, c);
    TellsTransitive(a, mid, b, x, Silent(mid, sk, c), z);
  }

  /** Between any two points of any run the sequence tells what happened to the table, but for silent erases. */
  lemma {:induction false} SequenceTellsIff(calls: seq<Call>, i: nat, j: nat, sk: string)
    requires i <= j <= |calls|
    ensures Tells(StateAt(calls, i, sk), StateAt(calls, j, sk), SilentBetween(calls, i, j, sk))
    decreases j - i
  {
    if i == j {
      TellsSame(StateAt(calls, i, sk));
    } else {
      SequenceTellsIff(calls, i, j - 1, sk);
      TellsStep(StateAt(calls, i, sk), StateAt(calls, j - 1, sk), StateAt(calls, j, sk), sk, calls[j - 1],
                SilentBetween(calls, i, j - 1, sk), SilentBetween(calls, i, j, sk));
    }
  }

  // ---- consistency tokens ----

  /** A caller's token, decoded; a token names a shard and the write sequence it demands. */
  datatype Token = Blank | Garbled | Token(project: string, tenant: string, seqNo: int)

  /** The read demands the state the token names, of the shard it was issued for. */
  function Consistency(sh: Shard, project: string, tenant: string, token: Token): Reply {
    match token
    case Blank => Done
    case Garbled => Refused(InvalidArgument)
    case Token(p, t, seqNo) =>
      if p != project || t != tenant then Refused(InvalidArgument)
      else if sh.writes < seqNo then Refused(FailedPrecondition)
      else Done
  }

  /**
   A token issued at one point of a run is honoured by its own shard only: at that point, at every later one, and at
   those earlier ones since which nothing was written.
   */
  lemma TokenIsHonoured(calls: seq<Call>, i: nat, j: nat, project: string, tenant: string, p: string, t: string)
    requires i <= |calls| && j <= |calls|
    ensures var issued, read := StateAt(calls, i, Scope(project, tenant)), StateAt(calls, j, Scope(p, t));
            Consistency(read, p, t, Token(project, tenant, issued.writes)).Done? <==>
              p == project && t == tenant && (i <= j || issued.writes == read.writes)
  {
    if i <= j {
      SequenceTellsIff(calls, i, j, Scope(project, tenant));
    } else {
      SequenceTellsIff(calls, j, i, Scope(project, tenant));
    }
  }
}
