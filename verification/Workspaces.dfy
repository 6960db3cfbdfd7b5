/**
 The membership machine: workspaces, roles, suspension, invitations and ownership transfer, with a
 crash possible between any two repository steps (internal/service/members.go, ownership.go,
 workspaces.go, invitations.go). `denial` is what the permission guard said, if it was no.
 */
module Workspaces {
  import opened AuthzModel
  import opened TupleKeys
  import opened Store
  import opened Seats

  const WORKSPACE := "workspace"

  function RoleName(r: Role): string {
    match r
    case Owner => "owner"
    case Admin => "admin"
    case Member => "member"
    case Guest => "guest"
  }

  /** owner above admin above member above guest. */
  function Grade(r: Role): nat {
    match r
    case Owner => 4
    case Admin => 3
    case Member => 2
    case Guest => 1
  }

  lemma RoleNamesDiffer(r: Role, s: Role)
    ensures RoleName(r) == RoleName(s) <==> r == s
  {
    assert RoleName(r)[0] == RoleName(s)[0] <==> r == s;
  }

  function RoleTuple(ws: string, r: Role, u: string): Tuple {
    Tuple(WORKSPACE, ws, RoleName(r), UserOnly(u), None)
  }

  // ---- the operations; `steps` is how many repository steps complete before a crash ----

  /** Persists the workspace row, then the owner's row and tuple. */
  function CreateWorkspaceWithOwner(
      sh: Shard, id: string, kind: WorkspaceType, owner: string, steps: nat): (Shard, Reply)
  {
    var (sh1, reply) := CreateWorkspaceRow(sh, id, Workspace(kind, owner));
    if steps == 0 then (sh, Crashed)
    else if reply.Refused? then (sh1, reply)
    else if steps == 1 then (sh1, Crashed)
    else (PutMembershipAndTuples(sh1, id, owner, Membership(Owner, Active), [RoleTuple(id, Owner, owner)], []), Done)
  }

  /** `named` is whether a display name is left after trimming. */
  function CreateTeam(sh: Shard, active: bool, named: bool, id: string, actor: string, steps: nat): (Shard, Reply) {
    if !active then (sh, Refused(FailedPrecondition))
    else if !named then (sh, Refused(InvalidArgument))
    else CreateWorkspaceWithOwner(sh, id, Team, actor, steps)
  }

  /** An existing personal workspace is returned as it is. */
  function EnsurePersonal(sh: Shard, id: string, actor: string, steps: nat): (Shard, Reply) {
    if exists x | x in sh.workspaces :: sh.workspaces[x] == Workspace(Personal, actor) then (sh, Done)
    else
      var r := CreateWorkspaceWithOwner(sh, id, Personal, actor, steps);
      // the id is taken: the caller looks for a personal workspace again and finds none
      if r.1 == Refused(AlreadyExists) then (r.0, Refused(NotFound)) else r
  }

  function PutMember(sh: Shard, active: bool, ws: string, u: string, r: Role): (Shard, Reply) {
    if !active then (sh, Refused(FailedPrecondition))
    else (PutMembershipAndTuples(sh, ws, u, Membership(r, Active), [RoleTuple(ws, r, u)], []), Done)
  }

  function AddMember(sh: Shard, active: bool, denial: Option<Error>, ws: string, u: string, r: Role): (Shard, Reply)
    requires denial.None? ==> ws in sh.workspaces
  {
    if r.Owner? || u == "" then (sh, Refused(InvalidArgument))
    else if denial.Some? then (sh, Refused(denial.value))
    else if sh.workspaces[ws].kind.Personal? then (sh, Refused(FailedPrecondition))
    else if (ws, u) in sh.members then (sh, Refused(AlreadyExists))
    else PutMember(sh, active, ws, u, r)
  }

  function UpdateMemberRole(sh: Shard, denial: Option<Error>, ws: string, u: string, r: Role): (Shard, Reply) {
    if r.Owner? then (sh, Refused(InvalidArgument))
    else if denial.Some? then (sh, Refused(denial.value))
    else if (ws, u) !in sh.members then (sh, Refused(NotFound))
    else
      var row := sh.members[(ws, u)];
      if row.role.Owner? || row.status.Suspended? then (sh, Refused(FailedPrecondition))
      else if row.role == r then (sh, Done)
      else
        var inserts, deletes := [RoleTuple(ws, r, u)], [RoleTuple(ws, row.role, u)];
        (PutMembershipAndTuples(sh, ws, u, row.(role := r), inserts, deletes), Done)
  }

  function RemoveMember(sh: Shard, denial: Option<Error>, ws: string, u: string): (Shard, Reply) {
    if denial.Some? then (sh, Refused(denial.value))
    else if (ws, u) !in sh.members then (sh, Refused(NotFound))
    else if sh.members[(ws, u)].role.Owner? then (sh, Refused(FailedPrecondition))
    else DeleteMembershipAndTuples(sh, ws, u, [RoleTuple(ws, sh.members[(ws, u)].role, u)])
  }

  function SuspendMember(sh: Shard, denial: Option<Error>, ws: string, u: string): (Shard, Reply) {
    if denial.Some? then (sh, Refused(denial.value))
    else if (ws, u) !in sh.members then (sh, Refused(NotFound))
    else
      var row := sh.members[(ws, u)];
      if row.role.Owner? then (sh, Refused(FailedPrecondition))
      else if row.status.Suspended? then (sh, Done)
      else (PutMembershipAndTuples(sh, ws, u, row.(status := Suspended), [], [RoleTuple(ws, row.role, u)]), Done)
  }

  function ReinstateMember(sh: Shard, denial: Option<Error>, ws: string, u: string): (Shard, Reply) {
    if denial.Some? then (sh, Refused(denial.value))
    else if (ws, u) !in sh.members then (sh, Refused(NotFound))
    else
      var row := sh.members[(ws, u)];
      if !row.status.Suspended? then (sh, Done)
      else (PutMembershipAndTuples(sh, ws, u, row.(status := Active), [RoleTuple(ws, row.role, u)], []), Done)
  }

  /** Step one of a transfer: the new owner's row and tuple, replacing any lesser role. */
  function Promote(sh: Shard, ws: string, u: string): Shard {
    var deletes := if (ws, u) in sh.members && !sh.members[(ws, u)].role.Owner?
                   then [RoleTuple(ws, sh.members[(ws, u)].role, u)] else [];
    PutMembershipAndTuples(sh, ws, u, Membership(Owner, Active), [RoleTuple(ws, Owner, u)], deletes)
  }

  /** Step three: the former owner's owner tuple becomes an admin tuple. */
  function Demote(sh: Shard, ws: string, u: string): Shard {
    var inserts, deletes := [RoleTuple(ws, Admin, u)], [RoleTuple(ws, Owner, u)];
    if (ws, u) in sh.members
    then PutMembershipAndTuples(sh, ws, u, sh.members[(ws, u)].(role := Admin), inserts, deletes)
    else WriteIn(sh, inserts, deletes)
  }

  /** Step two: the workspace row names its new owner. */
  function RecordOwner(sh: Shard, ws: string, u: string): Shard
    requires ws in sh.workspaces
  {
    UpdateWorkspaceRow(sh, ws, sh.workspaces[ws].(owner := u)).0
  }

  /** Promote, record, demote: as many steps as complete. */
  function TransferSteps(sh: Shard, ws: string, u: string, steps: nat): Shard
    requires ws in sh.workspaces
  {
    if steps == 0 then sh
    else if steps == 1 then Promote(sh, ws, u)
    else if steps == 2 then RecordOwner(Promote(sh, ws, u), ws, u)
    else Demote(RecordOwner(Promote(sh, ws, u), ws, u), ws, sh.workspaces[ws].owner)
  }

  function TransferOwnership(
      sh: Shard, active: bool, denial: Option<Error>, ws: string, u: string, steps: nat): (Shard, Reply)
    requires denial.None? ==> ws in sh.workspaces
  {
    if u == "" then (sh, Refused(InvalidArgument))
    else if denial.Some? then (sh, Refused(denial.value))
    else if !active || sh.workspaces[ws].kind.Personal? then (sh, Refused(FailedPrecondition))
    else if u == sh.workspaces[ws].owner then (sh, Done)
    else (TransferSteps(sh, ws, u, steps), if steps < 3 then Crashed else Done)
  }

  function DeleteWorkspace(sh: Shard, denial: Option<Error>, ws: string): (Shard, Reply)
    requires denial.None? ==> ws in sh.workspaces
  {
    if denial.Some? then (sh, Refused(denial.value))
    else if sh.workspaces[ws].kind.Personal? then (sh, Refused(FailedPrecondition))
    else DeleteWorkspaceRow(sh, ws)
  }

  const INVITATION_TTL := 7 * 24 * 3600

  function CreateInvitation(
      sh: Shard, active: bool, denial: Option<Error>, ws: string, emailGiven: bool, r: Role, id: string,
      tokenHash: string, now: int)
      : (Shard, Reply)
    requires denial.None? ==> ws in sh.workspaces
  {
    if !active then (sh, Refused(FailedPrecondition))
    else if r.Owner? || !emailGiven then (sh, Refused(InvalidArgument))
    else if denial.Some? then (sh, Refused(denial.value))
    else if sh.workspaces[ws].kind.Personal? then (sh, Refused(FailedPrecondition))
    else CreateInvitationRow(sh, id, Invitation(ws, r, Pending, tokenHash, now + INVITATION_TTL))
  }

  /** Accepting the invitation found under a presented token: membership first, then the invitation row. */
  function AcceptInvitation(sh: Shard, active: bool, actor: string, id: string, now: int, steps: nat): (Shard, Reply) {
    if id !in sh.invitations then (sh, Refused(NotFound))
    else
      var inv := sh.invitations[id];
      if !inv.status.Pending? then (sh, Refused(FailedPrecondition))
      else if steps == 0 then (sh, Crashed)
      else if now > inv.expiresAt then
        (UpdateInvitationRow(sh, id, inv.(status := Expired)).0, Refused(FailedPrecondition))
      else if (inv.ws, actor) in sh.members then UpdateInvitationRow(sh, id, inv.(status := Accepted))
      else
        var (sh1, reply) := PutMember(sh, active, inv.ws, actor, inv.role);
        if reply.Refused? then (sh1, reply)
        else if steps == 1 then (sh1, Crashed)
        else UpdateInvitationRow(sh1, id, inv.(status := Accepted))
  }

  function RevokeInvitation(sh: Shard, denial: Option<Error>, id: string): (Shard, Reply) {
    if id !in sh.invitations then (sh, Refused(NotFound))
    else
      var inv := sh.invitations[id];
      if denial.Some? then (sh, Refused(denial.value))
      else if inv.status.Pending? then UpdateInvitationRow(sh, id, inv.(status := Revoked))
      else (sh, Done)
  }

  // ---- permission, read off the stored tuples ----

  /** A stored role tuple of at least the asked grade. */
  predicate Holds(m: TupleTable, ws: string, u: string, asked: Role) {
    || Stored(m, RoleTuple(ws, Owner, u))
    || (Grade(asked) <= 3 && Stored(m, RoleTuple(ws, Admin, u)))
    || (Grade(asked) <= 2 && Stored(m, RoleTuple(ws, Member, u)))
    || (Grade(asked) <= 1 && Stored(m, RoleTuple(ws, Guest, u)))
  }

  /** An active row of at least the asked grade. */
  predicate Ranks(rows: MemberRows, ws: string, u: string, asked: Role) {
    (ws, u) in rows && rows[(ws, u)].status.Active? && Grade(rows[(ws, u)].role) >= Grade(asked)
  }

  /** Why a caller may not act on a workspace, if so. */
  function Denial(sh: Shard, actor: string, ws: string, asked: Role): Option<Error> {
    if ws !in sh.workspaces then Some(NotFound)
    else if actor == "" || !Holds(sh.tuples, ws, actor, asked) then Some(PermissionDenied)
    else None
  }

  // ---- the invariant: rows and role tuples in step, every workspace with members owned ----

  type WorkspaceRows = map<string, Workspace>
  type Pair = (string, string)
  type MemberRows = map<Pair, Membership>
  type InvitationRows = map<string, Invitation>

  predicate RowBacks(rows: MemberRows, t: Tuple) {
    var p := (t.obj, t.subject.userID);
    p in rows && rows[p].status.Active? && t == RoleTuple(p.0, rows[p].role, p.1)
  }

  /** Every stored workspace tuple is the role tuple of an active row. */
  ghost predicate Backed(m: TupleTable, rows: MemberRows) {
    WellKeyed(m) && forall t: Tuple :: Stored(m, t) && t.ns == WORKSPACE ==> RowBacks(rows, t)
  }

  /** The active rows whose role tuple is not stored. */
  function Lost(m: TupleTable, rows: MemberRows): set<Pair> {
    set p | p in rows && rows[p].status.Active? && !Stored(m, RoleTuple(p.0, rows[p].role, p.1))
  }

  /** The recorded owner of a workspace holds an active owner row. */
  predicate OwnerRow(w: WorkspaceRows, m: MemberRows, ws: string) {
    ws in w && (ws, w[ws].owner) in m && m[(ws, w[ws].owner)] == Membership(Owner, Active)
  }

  /**
   Every workspace with members or invitations has its owner; owners are never suspended; personal workspaces
   are unique.
   */
  predicate OwnedRows(w: WorkspaceRows, m: MemberRows, inv: InvitationRows) {
    && (forall p | p in m :: OwnerRow(w, m, p.0) && (m[p].status.Suspended? ==> !m[p].role.Owner?))
    && (forall i | i in inv :: OwnerRow(w, m, inv[i].ws) && !inv[i].role.Owner?)
    && forall x, y | x in w && y in w && w[x] == w[y] && w[x].kind.Personal? :: x == y
  }

  predicate HasOwner(sh: Shard, ws: string) {
    OwnerRow(sh.workspaces, sh.members, ws)
  }

  predicate Owned(sh: Shard) {
    OwnedRows(sh.workspaces, sh.members, sh.invitations)
  }

  /** The membership invariant. */
  ghost predicate Inv(sh: Shard) {
    Backed(sh.tuples, sh.members) && Owned(sh)
  }

  // ---- what the invariant says about one (workspace, user) ----

  /** The stored role tuples of (ws, u) are exactly the role of an active row that has not lost its tuple. */
  lemma RolesAreExact(m: TupleTable, rows: MemberRows, ws: string, u: string, r: Role)
    requires Backed(m, rows)
    ensures Stored(m, RoleTuple(ws, r, u)) <==>
              (ws, u) in rows && rows[(ws, u)] == Membership(r, Active) && (ws, u) !in Lost(m, rows)
  {
    if Stored(m, RoleTuple(ws, r, u)) {
      assert RowBacks(rows, RoleTuple(ws, r, u));
      RoleNamesDiffer(r, rows[(ws, u)].role);
    }
  }

  /** Holding a grade is having an active row of at least that grade that has not lost its tuple. */
  lemma HoldsIsRank(m: TupleTable, rows: MemberRows, ws: string, u: string, asked: Role)
    requires Backed(m, rows)
    ensures Holds(m, ws, u, asked) <==> Ranks(rows, ws, u, asked) && (ws, u) !in Lost(m, rows)
  {
    forall r: Role {
      RolesAreExact(m, rows, ws, u, r);
    }
  }

  // ---- writes about one (workspace, user) ----

  /** A tuple about one user's standing in one workspace. */
  predicate About(t: Tuple, ws: string, u: string) {
    t.ns == WORKSPACE && t.obj == ws && t.subject.userID == u
  }

  /** The table after a write about (ws, u): the row's tuple if active, and all that is not about them. */
  ghost predicate TuplesFollow(m: TupleTable, m': TupleTable, ws: string, u: string, row: Membership) {
    && WellKeyed(m')
    && forall t: Tuple :: Stored(m', t) <==>
         (row.status.Active? && t == RoleTuple(ws, row.role, u)) || (Stored(m, t) && !About(t, ws, u))
  }

  /** Before a write about (ws, u): the only tuple about them is their role's. */
  ghost predicate OnlyRole(m: TupleTable, ws: string, u: string, r: Role) {
    WellKeyed(m) && forall t: Tuple :: Stored(m, t) && About(t, ws, u) ==> t == RoleTuple(ws, r, u)
  }

  lemma RoleOfRow(m: TupleTable, rows: MemberRows, ws: string, u: string, r: Role)
    requires Backed(m, rows) && ((ws, u) in rows && rows[(ws, u)].status.Active? ==> rows[(ws, u)].role == r)
    ensures OnlyRole(m, ws, u, r)
  {
    forall t: Tuple | Stored(m, t) && About(t, ws, u)
      ensures t == RoleTuple(ws, r, u)
    {
      assert RowBacks(rows, t);
    }
  }

  lemma GrantFollows(m: TupleTable, ws: string, u: string, r: Role)
    requires OnlyRole(m, ws, u, r)
    ensures TuplesFollow(m, Write(m, [RoleTuple(ws, r, u)], []), ws, u, Membership(r, Active))
  {
    InsertOneStores(m, RoleTuple(ws, r, u));
  }

  lemma RevokeFollows(m: TupleTable, ws: string, u: string, r: Role)
    requires OnlyRole(m, ws, u, r)
    ensures TuplesFollow(m, Write(m, [], [RoleTuple(ws, r, u)]), ws, u, Membership(r, Suspended))
  {
    DeleteOneStores(m, RoleTuple(ws, r, u));
  }

  lemma SwapFollows(m: TupleTable, ws: string, u: string, from: Role, r: Role)
    requires OnlyRole(m, ws, u, from) && from != r
    ensures TuplesFollow(m, Write(m, [RoleTuple(ws, r, u)], [RoleTuple(ws, from, u)]), ws, u, Membership(r, Active))
  {
    SwapOneStores(m, RoleTuple(ws, r, u), RoleTuple(ws, from, u));
  }

  lemma PutInStep(m: TupleTable, m': TupleTable, rows: MemberRows, ws: string, u: string, row: Membership)
    requires Backed(m, rows) && TuplesFollow(m, m', ws, u, row)
    ensures Backed(m', rows[(ws, u) := row])
    ensures row.status.Suspended? ==> Backed(m', rows - {(ws, u)})
  {
    forall t: Tuple | Stored(m', t) && t.ns == WORKSPACE
      ensures RowBacks(rows[(ws, u) := row], t) && (row.status.Suspended? ==> RowBacks(rows - {(ws, u)}, t))
    {
      if !About(t, ws, u) { assert RowBacks(rows, t); }
    }
  }

  // ---- which pairs move, and to which role ----

  /** What a request makes of the standing of some pairs: a role, or none. */
  type Moves = map<Pair, Option<Role>>

  /** The role of an active row. */
  function Standing(rows: MemberRows, p: Pair): Option<Role> {
    if p in rows && rows[p].status.Active? then Some(rows[p].role) else None
  }

  ghost predicate RowsMoved(rows: MemberRows, rows': MemberRows, moves: Moves) {
    forall p: Pair :: Standing(rows', p) == if p in moves then moves[p] else Standing(rows, p)
  }

  /** Exactly the moved pairs change their stored role, each to the role named. */
  ghost predicate TuplesMoved(m: TupleTable, m': TupleTable, moves: Moves) {
    forall ws: string, r: Role, u: string ::
      Stored(m', RoleTuple(ws, r, u)) <==>
        if (ws, u) in moves then moves[(ws, u)] == Some(r) else Stored(m, RoleTuple(ws, r, u))
  }

  ghost predicate Moved(sh: Shard, sh': Shard, moves: Moves) {
    RowsMoved(sh.members, sh'.members, moves) && TuplesMoved(sh.tuples, sh'.tuples, moves)
  }

  lemma FollowMoves(m: TupleTable, m': TupleTable, ws: string, u: string, row: Membership)
    requires TuplesFollow(m, m', ws, u, row)
    ensures TuplesMoved(m, m', map[(ws, u) := if row.status.Active? then Some(row.role) else None])
  {
    forall w: string, r: Role, v: string
      ensures Stored(m', RoleTuple(w, r, v)) <==>
                if (w, v) == (ws, u) then row == Membership(r, Active) else Stored(m, RoleTuple(w, r, v))
    {
      RoleNamesDiffer(r, row.role);
    }
  }

  lemma MovedThen(a: Shard, b: Shard, c: Shard, first: Moves, second: Moves)
    requires Moved(a, b, first) && Moved(b, c, second)
    ensures Moved(a, c, first + second)
  {
    forall ws: string, r: Role, u: string
      ensures Stored(c.tuples, RoleTuple(ws, r, u)) <==>
                if (ws, u) in first + second then (first + second)[(ws, u)] == Some(r)
                else Stored(a.tuples, RoleTuple(ws, r, u))
    {
      assert Stored(b.tuples, RoleTuple(ws, r, u)) <==>
               if (ws, u) in first then first[(ws, u)] == Some(r) else Stored(a.tuples, RoleTuple(ws, r, u));
    }
    assert forall p: Pair :: Standing(b.members, p) == if p in first then first[p] else Standing(a.members, p);
  }

  /** A pair that moves has its row and its tuple in step again; no other pair gains or loses a tuple. */
  lemma LostAfterMoves(sh: Shard, sh': Shard, moves: Moves)
    requires Moved(sh, sh', moves)
    ensures Lost(sh'.tuples, sh'.members) == Lost(sh.tuples, sh.members) - moves.Keys
  {
    forall p: Pair
      ensures p in Lost(sh'.tuples, sh'.members) <==> p in Lost(sh.tuples, sh.members) - moves.Keys
    {
      assert Standing(sh'.members, p) == if p in moves then moves[p] else Standing(sh.members, p);
    }
  }
}
