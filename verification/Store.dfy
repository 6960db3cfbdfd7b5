/**
 The in-memory repository (internal/repo/memory/memory.go). Everything it keeps for one
 (project, tenant) is one Shard; a missing shard reads as an empty one.
 */
module Store {
  import opened AuthzModel
  import opened TupleKeys

  // ---- tuple tables ----

  type TupleTable = map<string, Tuple>

  predicate WellKeyed(m: TupleTable) {
    forall k | k in m :: TupleKey(m[k]) == k
  }

  predicate Stored(m: TupleTable, t: Tuple) {
    TupleKey(t) in m && m[TupleKey(t)] == t
  }

  function Remove(m: TupleTable, ts: seq<Tuple>): TupleTable
    decreases |ts|
  {
    if ts == [] then m else Remove(m - {TupleKey(ts[0])}, ts[1..])
  }

  function Insert(m: TupleTable, ts: seq<Tuple>): TupleTable
    decreases |ts|
  {
    if ts == [] then m else Insert(m[TupleKey(ts[0]) := ts[0]], ts[1..])
  }

  /** Deletes come before inserts. */
  function Write(m: TupleTable, inserts: seq<Tuple>, deletes: seq<Tuple>): TupleTable {
    Insert(Remove(m, deletes), inserts)
  }

  ghost predicate Mentions(ts: seq<Tuple>, t: Tuple) {
    exists i | 0 <= i < |ts| :: IdentityOf(ts[i]) == IdentityOf(t)
  }

  lemma {:induction false} RemoveStores(m: TupleTable, ts: seq<Tuple>)
    requires WellKeyed(m)
    ensures WellKeyed(Remove(m, ts))
    ensures forall t: Tuple :: Stored(Remove(m, ts), t) <==> Stored(m, t) && !Mentions(ts, t)
    decreases |ts|
  {
    if ts != [] {
      var x, m1 := ts[0], m - {TupleKey(ts[0])};
      RemoveStores(m1, ts[1..]);
      forall t: Tuple
        ensures Stored(Remove(m, ts), t) <==> Stored(m, t) && !Mentions(ts, t)
      {
        TupleKeyIff(x, t);
        MentionsFirst(ts, t);
      }
    }
  }

  lemma MentionsFirst(ts: seq<Tuple>, t: Tuple)
    requires ts != []
    ensures Mentions(ts, t) <==> IdentityOf(ts[0]) == IdentityOf(t) || Mentions(ts[1..], t)
  {
    if Mentions(ts[1..], t) {
      var i :| 0 <= i < |ts[1..]| && IdentityOf(ts[1..][i]) == IdentityOf(t);
      assert IdentityOf(ts[i + 1]) == IdentityOf(t);
    }
    if Mentions(ts, t) {
      var i :| 0 <= i < |ts| && IdentityOf(ts[i]) == IdentityOf(t);
      if i > 0 { assert IdentityOf(ts[1..][i - 1]) == IdentityOf(t); }
    }
  }

  /** `t` is written by `ts` and not overwritten by a later element. */
  predicate LastWrite(ts: seq<Tuple>, t: Tuple)
    decreases |ts|
  {
    ts != [] && (LastWrite(ts[1..], t) || (ts[0] == t && forall x | x in ts[1..] :: IdentityOf(x) != IdentityOf(t)))
  }

  lemma {:induction false} InsertStores(m: TupleTable, ts: seq<Tuple>)
    requires WellKeyed(m)
    ensures WellKeyed(Insert(m, ts))
    ensures forall t: Tuple :: Stored(Insert(m, ts), t) <==> LastWrite(ts, t) || (Stored(m, t) && !Mentions(ts, t))
    decreases |ts|
  {
    if ts != [] {
      var x, m1 := ts[0], m[TupleKey(ts[0]) := ts[0]];
      InsertStores(m1, ts[1..]);
      forall t: Tuple
        ensures Stored(Insert(m, ts), t) <==> LastWrite(ts, t) || (Stored(m, t) && !Mentions(ts, t))
      {
        TupleKeyIff(x, t);
        MentionsFirst(ts, t);
      }
    }
  }

  // ---- rows ----

  datatype WorkspaceType = Personal | Team
  datatype Workspace = Workspace(kind: WorkspaceType, owner: string)

  datatype Role = Owner | Admin | Member | Guest
  datatype Status = Active | Suspended
  datatype Membership = Membership(role: Role, status: Status)

  datatype InviteStatus = Pending | Accepted | Revoked | Expired
  datatype Invitation = Invitation(ws: string, role: Role, status: InviteStatus, tokenHash: string, expiresAt: int)

  /** Everything stored for one (project, tenant); `members` is keyed by (workspace, user). */
  datatype Shard = Shard(
    tuples: TupleTable,
    writes: nat,
    workspaces: map<string, Workspace>,
    members: map<(string, string), Membership>,
    invitations: map<string, Invitation>,
    seatLimits: map<string, int>,
    seats: map<string, set<string>>)

  const EmptyShard := Shard(map[], 0, map[], map[], map[], map[], map[])

  type Shards = map<string, Shard>

  function At(shards: Shards, scope: string): Shard {
    if scope in shards then shards[scope] else EmptyShard
  }

  datatype Error =
    | InvalidArgument
    | NotFound
    | AlreadyExists
    | PermissionDenied
    | FailedPrecondition
    | ResourceExhausted

  /** What a call answers; a crashed call answers nothing. */
  datatype Reply = Done | Refused(error: Error) | Crashed

  // ---- repository steps on a shard ----

  /** Any tuple write advances the shard's consistency sequence. */
  function WriteIn(sh: Shard, inserts: seq<Tuple>, deletes: seq<Tuple>): Shard {
    sh.(tuples := Write(sh.tuples, inserts, deletes), writes := sh.writes + 1)
  }

  function PutMembershipAndTuples(
      sh: Shard, ws: string, u: string, row: Membership, inserts: seq<Tuple>, deletes: seq<Tuple>): Shard
  {
    WriteIn(sh.(members := sh.members[(ws, u) := row]), inserts, deletes)
  }

  function DeleteMembershipAndTuples(sh: Shard, ws: string, u: string, deletes: seq<Tuple>): (Shard, Reply) {
    if (ws, u) !in sh.members then (sh, Refused(NotFound))
    else (WriteIn(sh.(members := sh.members - {(ws, u)}), [], deletes), Done)
  }

  /** One personal workspace per owner. */
  function CreateWorkspaceRow(sh: Shard, id: string, w: Workspace): (Shard, Reply) {
    if id in sh.workspaces then (sh, Refused(AlreadyExists))
    else if w.kind.Personal? && exists x | x in sh.workspaces :: sh.workspaces[x] == w then (sh, Refused(AlreadyExists))
    else (sh.(workspaces := sh.workspaces[id := w]), Done)
  }

  function UpdateWorkspaceRow(sh: Shard, id: string, w: Workspace): (Shard, Reply) {
    if id !in sh.workspaces then (sh, Refused(NotFound)) else (sh.(workspaces := sh.workspaces[id := w]), Done)
  }

  /** Removes the workspace with its memberships, its tuples and its invitations. */
  function DeleteWorkspaceRow(sh: Shard, id: string): (Shard, Reply) {
    if id !in sh.workspaces then (sh, Refused(NotFound))
    else
      (sh.(workspaces := sh.workspaces - {id},
           members := map p | p in sh.members && p.0 != id :: sh.members[p],
           tuples :=
             map k | k in sh.tuples && !(sh.tuples[k].ns == "workspace" && sh.tuples[k].obj == id) :: sh.tuples[k],
           invitations := map i | i in sh.invitations && sh.invitations[i].ws != id :: sh.invitations[i],
           writes := sh.writes + 1), Done)
  }

  function CreateInvitationRow(sh: Shard, id: string, inv: Invitation): (Shard, Reply) {
    if id in sh.invitations then (sh, Refused(AlreadyExists)) else (sh.(invitations := sh.invitations[id := inv]), Done)
  }

  function UpdateInvitationRow(sh: Shard, id: string, inv: Invitation): (Shard, Reply) {
    if id !in sh.invitations then (sh, Refused(NotFound)) else (sh.(invitations := sh.invitations[id := inv]), Done)
  }

  function Holders(sh: Shard, sku: string): set<string> {
    if sku in sh.seats then sh.seats[sku] else {}
  }

  /** No limit clears the cap. */
  function SetSeatLimitRow(sh: Shard, sku: string, limit: Option<int>): Shard {
    sh.(seatLimits := if limit.Some? then sh.seatLimits[sku := limit.value] else sh.seatLimits - {sku})
  }

  datatype Assigned = AlreadyHeld | Newly | SeatRefused(error: Error)

  /** A held seat only re-asserts its tuple; a new one is refused once the cap is reached. */
  function AssignSeatAndTuple(sh: Shard, sku: string, u: string, t: Tuple): (Shard, Assigned) {
    var held := Holders(sh, sku);
    if u in held then (WriteIn(sh, [t], []), AlreadyHeld)
    else if sku in sh.seatLimits && |held| >= sh.seatLimits[sku] then (sh, SeatRefused(ResourceExhausted))
    else (WriteIn(sh.(seats := sh.seats[sku := held + {u}]), [t], []), Newly)
  }

  function RevokeSeatAndTuple(sh: Shard, sku: string, u: string, t: Tuple): Shard {
    WriteIn(sh.(seats := sh.seats[sku := Holders(sh, sku) - {u}]), [], [t])
  }

  predicate NamesUser(t: Tuple, u: string) {
    t.subject.userset.None? && !t.subject.wildcard && t.subject.userID == u
  }

  /** Every tuple naming the user and every seat the user holds; the sequence does not advance. */
  function EraseUser(sh: Shard, u: string): Shard {
    sh.(tuples := map k | k in sh.tuples && !NamesUser(sh.tuples[k], u) :: sh.tuples[k],
        seats := map sku | sku in sh.seats :: sh.seats[sku] - {u})
  }

  function EraseUserInProject(shards: Shards, project: string, u: string): Shards {
    map sk | sk in shards :: if InProject(sk, project) then EraseUser(shards[sk], u) else shards[sk]
  }

  // ---- what the engine reads ----

  /** The engine sees, in any order, the subjects of the active tuples of a table. */
  ghost predicate Lists(e: Env, m: TupleTable, now: int) {
    forall n: Node, s: Subject :: s in Subjects(e, n) <==> SubjectStored(m, n, s, now)
  }

  ghost predicate SubjectStored(m: TupleTable, n: Node, s: Subject, now: int) {
    exists k | k in m :: NodeOf(m[k]) == n && m[k].subject == s && ActiveAt(m[k], now)
  }
}
