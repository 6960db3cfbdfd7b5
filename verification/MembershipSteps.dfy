/**
 Every workspace operation, complete or cut short by a crash, keeps the membership invariant, leaves the
 same workspaces ownerless, and moves exactly the pairs it is about; only a creation cut short makes a
 new ownerless workspace.
 */
module MembershipSteps {
  import opened AuthzModel
  import opened TupleKeys
  import opened Store
  import opened Seats
  import opened Workspaces

  /** A workspace row whose recorded owner has no active owner row. */
  predicate OrphanRow(w: WorkspaceRows, m: MemberRows, ws: string) {
    ws in w && !OwnerRow(w, m, ws)
  }

  predicate Orphan(sh: Shard, ws: string) {
    OrphanRow(sh.workspaces, sh.members, ws)
  }

  ghost predicate SameOrphans(w: WorkspaceRows, m: MemberRows, w': WorkspaceRows, m': MemberRows) {
    forall x: string :: OrphanRow(w', m', x) <==> OrphanRow(w, m, x)
  }

  /** The invariant holds after, no workspace lost or regained an owner, and exactly `moves` happened. */
  ghost predicate Kept(sh: Shard, sh': Shard, moves: Moves) {
    Inv(sh') && SameOrphans(sh.workspaces, sh.members, sh'.workspaces, sh'.members) && Moved(sh, sh', moves)
  }

  /** `moves` if the operation wrote anything, nothing otherwise. */
  ghost predicate KeptIf(sh: Shard, sh': Shard, moves: Moves) {
    Kept(sh, sh', if sh'.writes == sh.writes then map[] else moves)
  }

  lemma Unchanged(sh: Shard)
    requires Inv(sh)
    ensures Kept(sh, sh, map[])
  {
  }

  lemma KeptThen(a: Shard, b: Shard, c: Shard, first: Moves, second: Moves)
    requires Kept(a, b, first) && Kept(b, c, second)
    ensures Kept(a, c, first + second)
  {
    MovedThen(a, b, c, first, second);
    forall x: string
      ensures OrphanRow(c.workspaces, c.members, x) <==> OrphanRow(a.workspaces, a.members, x)
    {
      assert OrphanRow(b.workspaces, b.members, x) <==> OrphanRow(a.workspaces, a.members, x);
    }
  }

  lemma KeptStill(a: Shard, b: Shard, c: Shard, moves: Moves)
    requires Kept(a, b, moves) && Kept(b, c, map[])
    ensures Kept(a, c, moves)
  {
    KeptThen(a, b, c, moves, map[]);
    assert moves + map[] == moves;
  }

  /** Only rows that carry no standing changed. */
  lemma KeptTables(sh: Shard, sh': Shard)
    requires sh'.tuples == sh.tuples && sh'.members == sh.members && Inv(sh) && Owned(sh')
    requires SameOrphans(sh.workspaces, sh.members, sh'.workspaces, sh'.members)
    ensures Kept(sh, sh', map[])
  {
  }

  /** Whoever holds a grade on a workspace finds it owned. */
  lemma HolderHasOwner(sh: Shard, actor: string, ws: string, asked: Role)
    requires Inv(sh) && Holds(sh.tuples, ws, actor, asked)
    ensures HasOwner(sh, ws)
  {
    HoldsIsRank(sh.tuples, sh.members, ws, actor, asked);
    assert OwnerRow(sh.workspaces, sh.members, (ws, actor).0);
  }

  // ---- the row maps alone ----

  lemma PutOwned(w: WorkspaceRows, m: MemberRows, inv: InvitationRows, ws: string, u: string, row: Membership)
    requires OwnedRows(w, m, inv) && OwnerRow(w, m, ws)
    requires u == w[ws].owner ==> row == Membership(Owner, Active)
    requires row.status.Suspended? ==> !row.role.Owner?
    ensures OwnedRows(w, m[(ws, u) := row], inv) && SameOrphans(w, m, w, m[(ws, u) := row])
  {
    var m' := m[(ws, u) := row];
    forall x: string ensures OwnerRow(w, m', x) <==> OwnerRow(w, m, x) {}
  }

  lemma CreateOwned(w: WorkspaceRows, m: MemberRows, inv: InvitationRows, id: string, new': Workspace)
    requires OwnedRows(w, m, inv) && id !in w
    requires new'.kind.Personal? ==> forall x | x in w :: w[x] != new'
    ensures OwnedRows(w[id := new'], m, inv)
    ensures forall x: string :: OrphanRow(w[id := new'], m, x) <==> x == id || OrphanRow(w, m, x)
    ensures var m' := m[(id, new'.owner) := Membership(Owner, Active)];
            OwnedRows(w[id := new'], m', inv) && SameOrphans(w, m, w[id := new'], m')
  {
    var w', m', p := w[id := new'], m[(id, new'.owner) := Membership(Owner, Active)], (id, new'.owner);
    assert p in m ==> OwnerRow(w, m, p.0);
    assert !OwnerRow(w', m, id) && OwnerRow(w', m', id);
    forall x: string ensures OrphanRow(w', m, x) <==> x == id || OrphanRow(w, m, x) {}
    forall x: string ensures OrphanRow(w', m', x) <==> OrphanRow(w, m, x) {}
  }

  lemma RemoveOwned(w: WorkspaceRows, m: MemberRows, inv: InvitationRows, ws: string, u: string)
    requires OwnedRows(w, m, inv) && (ws, u) in m && !m[(ws, u)].role.Owner?
    ensures OwnedRows(w, m - {(ws, u)}, inv) && SameOrphans(w, m, w, m - {(ws, u)})
  {
    forall x: string ensures OwnerRow(w, m - {(ws, u)}, x) <==> OwnerRow(w, m, x) {}
  }

  lemma RecordOwned(w: WorkspaceRows, m: MemberRows, inv: InvitationRows, ws: string, u: string)
    requires OwnedRows(w, m, inv) && OwnerRow(w, m, ws) && w[ws].kind.Team?
    requires (ws, u) in m && m[(ws, u)] == Membership(Owner, Active)
    ensures var w' := w[ws := w[ws].(owner := u)];
            OwnedRows(w', m, inv) && OwnerRow(w', m, ws) && SameOrphans(w, m, w', m)
  {
    var w' := w[ws := w[ws].(owner := u)];
    forall x: string ensures OwnerRow(w', m, x) <==> OwnerRow(w, m, x) {}
  }

  lemma DeleteOwned(w: WorkspaceRows, m: MemberRows, inv: InvitationRows, ws: string)
    requires OwnedRows(w, m, inv) && OwnerRow(w, m, ws)
    ensures var m' := map p | p in m && p.0 != ws :: m[p];
            && OwnedRows(w - {ws}, m', map i | i in inv && inv[i].ws != ws :: inv[i])
            && SameOrphans(w, m, w - {ws}, m')
  {
    var w', m' := w - {ws}, map p | p in m && p.0 != ws :: m[p];
    forall x: string | x != ws ensures OwnerRow(w', m', x) <==> OwnerRow(w, m, x) {}
  }

  lemma InviteOwned(w: WorkspaceRows, m: MemberRows, inv: InvitationRows, id: string, i: Invitation)
    requires OwnedRows(w, m, inv) && OwnerRow(w, m, i.ws) && !i.role.Owner?
    ensures OwnedRows(w, m, inv[id := i])
  {
  }

  // ---- rows and tuples together; a guard that passes finds the workspace owned ----

  /** Writing one row of a workspace that has an owner, without unseating that owner. */
  lemma PutKeeps(sh: Shard, sh': Shard, ws: string, u: string, row: Membership)
    requires Inv(sh) && HasOwner(sh, ws)
    requires sh' == sh.(members := sh.members[(ws, u) := row], tuples := sh'.tuples, writes := sh'.writes)
    requires TuplesFollow(sh.tuples, sh'.tuples, ws, u, row)
    requires u == sh.workspaces[ws].owner ==> row == Membership(Owner, Active)
    requires row.status.Suspended? ==> !row.role.Owner?
    ensures Kept(sh, sh', map[(ws, u) := if row.status.Active? then Some(row.role) else None])
  {
    PutInStep(sh.tuples, sh'.tuples, sh.members, ws, u, row);
    PutOwned(sh.workspaces, sh.members, sh.invitations, ws, u, row);
    FollowMoves(sh.tuples, sh'.tuples, ws, u, row);
  }

  /** The first step of a creation: a row, and with it an ownerless workspace. */
  lemma CreateRowKeeps(sh: Shard, id: string, w: Workspace)
    requires Inv(sh) && id !in sh.workspaces
    requires w.kind.Personal? ==> forall x | x in sh.workspaces :: sh.workspaces[x] != w
    ensures var sh1 := sh.(workspaces := sh.workspaces[id := w]);
            Inv(sh1) && (forall x: string :: Orphan(sh1, x) <==> x == id || Orphan(sh, x)) && Moved(sh, sh1, map[])
  {
    CreateOwned(sh.workspaces, sh.members, sh.invitations, id, w);
  }

  lemma FoundKeeps(sh: Shard, id: string, w: Workspace)
    requires Inv(sh) && id !in sh.workspaces
    requires w.kind.Personal? ==> forall x | x in sh.workspaces :: sh.workspaces[x] != w
    ensures var sh1, row := sh.(workspaces := sh.workspaces[id := w]), Membership(Owner, Active);
            Kept(sh, PutMembershipAndTuples(sh1, id, w.owner, row, [RoleTuple(id, Owner, w.owner)], []),
                 map[(id, w.owner) := Some(Owner)])
  {
    var row, m := Membership(Owner, Active), Write(sh.tuples, [RoleTuple(id, Owner, w.owner)], []);
    assert (id, w.owner) in sh.members ==> OwnerRow(sh.workspaces, sh.members, (id, w.owner).0);
    RoleOfRow(sh.tuples, sh.members, id, w.owner, Owner);
    GrantFollows(sh.tuples, id, w.owner, Owner);
    PutInStep(sh.tuples, m, sh.members, id, w.owner, row);
    FollowMoves(sh.tuples, m, id, w.owner, row);
    CreateOwned(sh.workspaces, sh.members, sh.invitations, id, w);
  }

  /** A creation leaves its workspace ownerless exactly when it is cut between its two steps. */
  lemma CreateKeeps(sh: Shard, id: string, kind: WorkspaceType, owner: string, steps: nat)
    requires Inv(sh)
    requires kind.Personal? ==> forall x | x in sh.workspaces :: sh.workspaces[x] != Workspace(Personal, owner)
    ensures var sh' := CreateWorkspaceWithOwner(sh, id, kind, owner, steps).0;
            && Inv(sh')
            && (forall x: string ::
                  Orphan(sh', x) <==> Orphan(sh, x) || (x == id && id !in sh.workspaces && steps == 1))
            && Moved(sh, sh', if sh'.writes == sh.writes then map[] else map[(id, owner) := Some(Owner)])
  {
    if id in sh.workspaces || steps == 0 {
      Unchanged(sh);
    } else if steps == 1 {
      CreateRowKeeps(sh, id, Workspace(kind, owner));
    } else {
      FoundKeeps(sh, id, Workspace(kind, owner));
    }
  }

  /** A new row for a user who had none. */
  lemma PutMemberKeeps(sh: Shard, active: bool, ws: string, u: string, r: Role)
    requires Inv(sh) && HasOwner(sh, ws) && (ws, u) !in sh.members
    ensures KeptIf(sh, PutMember(sh, active, ws, u, r).0, map[(ws, u) := Some(r)])
  {
    if active {
      RoleOfRow(sh.tuples, sh.members, ws, u, r);
      GrantFollows(sh.tuples, ws, u, r);
      PutKeeps(sh, PutMember(sh, active, ws, u, r).0, ws, u, Membership(r, Active));
    } else {
      Unchanged(sh);
    }
  }

  lemma AddKeeps(sh: Shard, active: bool, denial: Option<Error>, ws: string, u: string, r: Role)
    requires Inv(sh) && (denial.None? ==> HasOwner(sh, ws))
    ensures KeptIf(sh, AddMember(sh, active, denial, ws, u, r).0, map[(ws, u) := Some(r)])
  {
    if AddMember(sh, active, denial, ws, u, r).0 == sh {
      Unchanged(sh);
    } else {
      PutMemberKeeps(sh, active, ws, u, r);
    }
  }

  lemma UpdateKeeps(sh: Shard, denial: Option<Error>, ws: string, u: string, r: Role)
    requires Inv(sh)
    ensures KeptIf(sh, UpdateMemberRole(sh, denial, ws, u, r).0, map[(ws, u) := Some(r)])
  {
    var sh' := UpdateMemberRole(sh, denial, ws, u, r).0;
    if sh' == sh {
      Unchanged(sh);
    } else {
      var row := sh.members[(ws, u)];
      RoleOfRow(sh.tuples, sh.members, ws, u, row.role);
      SwapFollows(sh.tuples, ws, u, row.role, r);
      PutKeeps(sh, sh', ws, u, row.(role := r));
    }
  }

  lemma SuspendKeeps(sh: Shard, denial: Option<Error>, ws: string, u: string)
    requires Inv(sh)
    ensures KeptIf(sh, SuspendMember(sh, denial, ws, u).0, map[(ws, u) := None])
  {
    var sh' := SuspendMember(sh, denial, ws, u).0;
    if sh' == sh {
      Unchanged(sh);
    } else {
      var row := sh.members[(ws, u)];
      RoleOfRow(sh.tuples, sh.members, ws, u, row.role);
      RevokeFollows(sh.tuples, ws, u, row.role);
      PutKeeps(sh, sh', ws, u, row.(status := Suspended));
    }
  }

  /** The role kept in a row, active or not. */
  function RowRole(rows: MemberRows, p: Pair): Option<Role> {
    if p in rows then Some(rows[p].role) else None
  }

  lemma ReinstateKeeps(sh: Shard, denial: Option<Error>, ws: string, u: string)
    requires Inv(sh)
    ensures KeptIf(sh, ReinstateMember(sh, denial, ws, u).0, map[(ws, u) := RowRole(sh.members, (ws, u))])
  {
    var sh' := ReinstateMember(sh, denial, ws, u).0;
    if sh' == sh {
      Unchanged(sh);
    } else {
      var row := sh.members[(ws, u)];
      RoleOfRow(sh.tuples, sh.members, ws, u, row.role);
      GrantFollows(sh.tuples, ws, u, row.role);
      PutKeeps(sh, sh', ws, u, row.(status := Active));
    }
  }

  lemma RemoveKeeps(sh: Shard, denial: Option<Error>, ws: string, u: string)
    requires Inv(sh)
    ensures KeptIf(sh, RemoveMember(sh, denial, ws, u).0, map[(ws, u) := None])
  {
    var sh' := RemoveMember(sh, denial, ws, u).0;
    if sh' == sh {
      Unchanged(sh);
    } else {
      var row := sh.members[(ws, u)].(status := Suspended);
      RoleOfRow(sh.tuples, sh.members, ws, u, row.role);
      RevokeFollows(sh.tuples, ws, u, row.role);
      PutInStep(sh.tuples, sh'.tuples, sh.members, ws, u, row);
      FollowMoves(sh.tuples, sh'.tuples, ws, u, row);
      RemoveOwned(sh.workspaces, sh.members, sh.invitations, ws, u);
    }
  }

  // ---- transfer, step by step ----

  lemma PromoteKeeps(sh: Shard, ws: string, u: string)
    requires Inv(sh) && HasOwner(sh, ws)
    ensures var sh1 := Promote(sh, ws, u);
            && Kept(sh, sh1, map[(ws, u) := Some(Owner)]) && HasOwner(sh1, ws)
            && sh1.workspaces == sh.workspaces && sh1.members == sh.members[(ws, u) := Membership(Owner, Active)]
  {
    if (ws, u) in sh.members && !sh.members[(ws, u)].role.Owner? {
      RoleOfRow(sh.tuples, sh.members, ws, u, sh.members[(ws, u)].role);
      SwapFollows(sh.tuples, ws, u, sh.members[(ws, u)].role, Owner);
    } else {
      RoleOfRow(sh.tuples, sh.members, ws, u, Owner);
      GrantFollows(sh.tuples, ws, u, Owner);
    }
    PutKeeps(sh, Promote(sh, ws, u), ws, u, Membership(Owner, Active));
  }

  lemma RecordOwnerKeeps(sh: Shard, ws: string, u: string)
    requires Inv(sh) && HasOwner(sh, ws) && sh.workspaces[ws].kind.Team?
    requires (ws, u) in sh.members && sh.members[(ws, u)] == Membership(Owner, Active)
    ensures var sh2 := RecordOwner(sh, ws, u);
            && Kept(sh, sh2, map[]) && HasOwner(sh2, ws)
            && sh2.workspaces == sh.workspaces[ws := Workspace(Team, u)] && sh2.members == sh.members
  {
    RecordOwned(sh.workspaces, sh.members, sh.invitations, ws, u);
    KeptTables(sh, RecordOwner(sh, ws, u));
  }

  lemma DemoteKeeps(sh: Shard, ws: string, former: string)
    requires Inv(sh) && HasOwner(sh, ws) && former != sh.workspaces[ws].owner
    requires (ws, former) in sh.members && sh.members[(ws, former)] == Membership(Owner, Active)
    ensures var sh3 := Demote(sh, ws, former);
            && Kept(sh, sh3, map[(ws, former) := Some(Admin)])
            && sh3.workspaces == sh.workspaces && sh3.members == sh.members[(ws, former) := Membership(Admin, Active)]
  {
    RoleOfRow(sh.tuples, sh.members, ws, former, Owner);
    SwapFollows(sh.tuples, ws, former, Owner, Admin);
    PutKeeps(sh, Demote(sh, ws, former), ws, former, Membership(Admin, Active));
  }

  lemma FirstTwoStepsKeep(sh: Shard, ws: string, u: string)
    requires Inv(sh) && HasOwner(sh, ws) && sh.workspaces[ws].kind.Team?
    ensures ws in Promote(sh, ws, u).workspaces
    ensures var sh2 := RecordOwner(Promote(sh, ws, u), ws, u);
            && Kept(sh, sh2, map[(ws, u) := Some(Owner)]) && HasOwner(sh2, ws)
            && sh2.workspaces == sh.workspaces[ws := Workspace(Team, u)]
            && sh2.members == sh.members[(ws, u) := Membership(Owner, Active)]
  {
    PromoteKeeps(sh, ws, u);
    RecordOwnerKeeps(Promote(sh, ws, u), ws, u);
    KeptStill(sh, Promote(sh, ws, u), RecordOwner(Promote(sh, ws, u), ws, u), map[(ws, u) := Some(Owner)]);
  }

  /** What the completed steps of a transfer move. */
  function TransferMoves(ws: string, u: string, former: string, steps: nat): Moves {
    if steps == 0 then map[]
    else if steps <= 2 then map[(ws, u) := Some(Owner)]
    else map[(ws, u) := Some(Owner), (ws, former) := Some(Admin)]
  }

  lemma BothMove(sh: Shard, sh2: Shard, sh3: Shard, ws: string, u: string, former: string)
    requires Kept(sh, sh2, map[(ws, u) := Some(Owner)]) && Kept(sh2, sh3, map[(ws, former) := Some(Admin)])
    ensures Kept(sh, sh3, TransferMoves(ws, u, former, 3))
  {
    var first, second: Moves := map[(ws, u) := Some(Owner)], map[(ws, former) := Some(Admin)];
    KeptThen(sh, sh2, sh3, first, second);
    assert first + second == TransferMoves(ws, u, former, 3);
  }

  /** A completed transfer: the new owner owns, the former one is an active admin, no other row changed. */
  lemma AllStepsKeep(sh: Shard, ws: string, u: string)
    requires Inv(sh) && HasOwner(sh, ws) && sh.workspaces[ws].kind.Team? && u != sh.workspaces[ws].owner
    ensures var sh', former := TransferSteps(sh, ws, u, 3), sh.workspaces[ws].owner;
            && Kept(sh, sh', TransferMoves(ws, u, former, 3))
            && sh'.workspaces == sh.workspaces[ws := Workspace(Team, u)]
            && sh'.members
            == sh.members[(ws, u) := Membership(Owner, Active)][(ws, former) := Membership(Admin, Active)]
  {
    var former := sh.workspaces[ws].owner;
    assert ws in Promote(sh, ws, u).workspaces;
    var sh2 := RecordOwner(Promote(sh, ws, u), ws, u);
    var sh3 := Demote(sh2, ws, former);
    assert TransferSteps(sh, ws, u, 3) == sh3;
    FirstTwoStepsKeep(sh, ws, u);
    DemoteKeeps(sh2, ws, former);
    BothMove(sh, sh2, sh3, ws, u, former);
  }

  /** However many of the three steps complete. */
  lemma TransferStepsKeep(sh: Shard, ws: string, u: string, steps: nat)
    requires Inv(sh) && HasOwner(sh, ws) && sh.workspaces[ws].kind.Team? && u != sh.workspaces[ws].owner
    ensures Kept(sh, TransferSteps(sh, ws, u, steps), TransferMoves(ws, u, sh.workspaces[ws].owner, steps))
  {
    var sh', former := TransferSteps(sh, ws, u, steps), sh.workspaces[ws].owner;
    if steps == 0 {
      assert sh' == sh && TransferMoves(ws, u, former, steps) == map[];
      Unchanged(sh);
    } else if steps == 1 {
      assert sh' == Promote(sh, ws, u) && TransferMoves(ws, u, former, steps) == map[(ws, u) := Some(Owner)];
      PromoteKeeps(sh, ws, u);
    } else if steps == 2 {
      assert sh' == TransferSteps(sh, ws, u, 2) && TransferMoves(ws, u, former, steps) == map[(ws, u) := Some(Owner)];
      FirstTwoStepsKeep(sh, ws, u);
    } else {
      assert sh' == TransferSteps(sh, ws, u, 3);
      assert TransferMoves(ws, u, former, steps) == TransferMoves(ws, u, former, 3);
      AllStepsKeep(sh, ws, u);
    }
  }

  lemma TransferWrites(sh: Shard, ws: string, u: string, steps: nat)
    requires ws in sh.workspaces
    ensures TransferSteps(sh, ws, u, steps).writes == sh.writes <==> steps == 0
  {
    var sh1 := Promote(sh, ws, u);
    assert sh1.writes == sh.writes + 1 && sh1.workspaces == sh.workspaces;
    var sh2 := RecordOwner(sh1, ws, u);
    assert sh2.writes == sh1.writes;
    assert Demote(sh2, ws, sh.workspaces[ws].owner).writes == sh2.writes + 1;
  }

  function OwnerOf(sh: Shard, ws: string): string {
    if ws in sh.workspaces then sh.workspaces[ws].owner else ""
  }

  lemma TransferKeeps(sh: Shard, active: bool, denial: Option<Error>, ws: string, u: string, steps: nat)
    requires Inv(sh) && (denial.None? ==> HasOwner(sh, ws))
    ensures KeptIf(sh, TransferOwnership(sh, active, denial, ws, u, steps).0,
              TransferMoves(ws, u, OwnerOf(sh, ws), steps))
  {
    if TransferOwnership(sh, active, denial, ws, u, steps).0 == sh {
      Unchanged(sh);
    } else {
      TransferStepsKeep(sh, ws, u, steps);
      TransferWrites(sh, ws, u, steps);
    }
  }

  // ---- deletion ----

  /** Everybody in a workspace moves to no standing at all. */
  function Emptied(rows: MemberRows, ws: string): Moves {
    map p | p in rows && p.0 == ws :: None
  }

  lemma DeleteInStep(m: TupleTable, rows: MemberRows, ws: string)
    requires Backed(m, rows)
    ensures var m' := map k | k in m && !(m[k].ns == WORKSPACE && m[k].obj == ws) :: m[k];
            var rows' := map p | p in rows && p.0 != ws :: rows[p];
            Backed(m', rows') && RowsMoved(rows, rows', Emptied(rows, ws)) && TuplesMoved(m, m', Emptied(rows, ws))
  {
    var m' := map k | k in m && !(m[k].ns == WORKSPACE && m[k].obj == ws) :: m[k];
    var rows' := map p | p in rows && p.0 != ws :: rows[p];
    forall t: Tuple | Stored(m', t) && t.ns == WORKSPACE ensures RowBacks(rows', t) { assert RowBacks(rows, t); }
    forall w: string, r: Role, u: string
      ensures Stored(m', RoleTuple(w, r, u)) <==>
                if (w, u) in Emptied(rows, ws) then false else Stored(m, RoleTuple(w, r, u))
    {
      if Stored(m, RoleTuple(w, r, u)) { assert RowBacks(rows, RoleTuple(w, r, u)); }
    }
  }

  lemma DeleteKeeps(sh: Shard, denial: Option<Error>, ws: string)
    requires Inv(sh) && (denial.None? ==> HasOwner(sh, ws))
    ensures KeptIf(sh, DeleteWorkspace(sh, denial, ws).0, Emptied(sh.members, ws))
  {
    if DeleteWorkspace(sh, denial, ws).0 == sh {
      Unchanged(sh);
    } else {
      DeleteInStep(sh.tuples, sh.members, ws);
      DeleteOwned(sh.workspaces, sh.members, sh.invitations, ws);
    }
  }

  // ---- invitations ----

  lemma InviteKeeps(
      sh: Shard, active: bool, denial: Option<Error>, ws: string, emailGiven: bool, r: Role, id: string,
      tokenHash: string, now: int)
    requires Inv(sh) && (denial.None? ==> HasOwner(sh, ws))
    ensures Kept(sh, CreateInvitation(sh, active, denial, ws, emailGiven, r, id, tokenHash, now).0, map[])
  {
    var sh' := CreateInvitation(sh, active, denial, ws, emailGiven, r, id, tokenHash, now).0;
    if sh' == sh {
      Unchanged(sh);
    } else {
      InviteOwned(sh.workspaces, sh.members, sh.invitations, id, sh'.invitations[id]);
      assert sh' == sh.(invitations := sh'.invitations);
      KeptTables(sh, sh');
    }
  }

  lemma UpdateInvitationKeeps(sh: Shard, id: string, status: InviteStatus)
    requires Inv(sh) && id in sh.invitations
    ensures Kept(sh, UpdateInvitationRow(sh, id, sh.invitations[id].(status := status)).0, map[])
  {
    InviteOwned(sh.workspaces, sh.members, sh.invitations, id, sh.invitations[id].(status := status));
    KeptTables(sh, UpdateInvitationRow(sh, id, sh.invitations[id].(status := status)).0);
  }

  lemma JoinKeeps(sh: Shard, active: bool, actor: string, id: string)
    requires Inv(sh) && id in sh.invitations && (sh.invitations[id].ws, actor) !in sh.members
    ensures var inv := sh.invitations[id];
            var sh1 := PutMember(sh, active, inv.ws, actor, inv.role).0;
            var moves := map[(inv.ws, actor) := Some(inv.role)];
            KeptIf(sh, sh1, moves) && KeptIf(sh, UpdateInvitationRow(sh1, id, inv.(status := Accepted)).0, moves)
  {
    var inv := sh.invitations[id];
    var moves: Moves := map[(inv.ws, actor) := Some(inv.role)];
    PutMemberKeeps(sh, active, inv.ws, actor, inv.role);
    var sh1 := PutMember(sh, active, inv.ws, actor, inv.role).0;
    UpdateInvitationKeeps(sh1, id, Accepted);
    KeptStill(sh, sh1, UpdateInvitationRow(sh1, id, inv.(status := Accepted)).0,
              if sh1.writes == sh.writes then map[] else moves);
  }

  /** What accepting an invitation moves, if it writes anything. */
  function JoinMoves(sh: Shard, actor: string, id: string): Moves {
    if id in sh.invitations then map[(sh.invitations[id].ws, actor) := Some(sh.invitations[id].role)] else map[]
  }

  lemma AcceptKeeps(sh: Shard, active: bool, actor: string, id: string, now: int, steps: nat)
    requires Inv(sh)
    ensures KeptIf(sh, AcceptInvitation(sh, active, actor, id, now, steps).0, JoinMoves(sh, actor, id))
  {
    var sh' := AcceptInvitation(sh, active, actor, id, now, steps).0;
    if sh' == sh {
      Unchanged(sh);
    } else if now > sh.invitations[id].expiresAt {
      assert sh'.writes == sh.writes;
      UpdateInvitationKeeps(sh, id, Expired);
    } else if (sh.invitations[id].ws, actor) in sh.members {
      assert sh'.writes == sh.writes;
      UpdateInvitationKeeps(sh, id, Accepted);
    } else {
      var inv := sh.invitations[id];
      var sh1 := PutMember(sh, active, inv.ws, actor, inv.role).0;
      assert sh' == sh1 || sh' == UpdateInvitationRow(sh1, id, inv.(status := Accepted)).0;
      JoinKeeps(sh, active, actor, id);
    }
  }

  lemma RevokeInvitationKeeps(sh: Shard, denial: Option<Error>, id: string)
    requires Inv(sh)
    ensures Kept(sh, RevokeInvitation(sh, denial, id).0, map[])
  {
    if RevokeInvitation(sh, denial, id).0 == sh {
      Unchanged(sh);
    } else {
      UpdateInvitationKeeps(sh, id, Revoked);
    }
  }

  // ---- deprovisioning ----

  /** The pairs of a user whose rows are active. */
  function ActivePairs(rows: MemberRows, u: string): set<Pair> {
    set p | p in rows && p.1 == u && rows[p].status.Active?
  }

  /** Erasing a user takes tuples only: exactly the user's active rows lose theirs. */
  lemma EraseKeeps(sh: Shard, u: string)
    requires Inv(sh)
    ensures var sh' := EraseUser(sh, u);
            && Inv(sh') && sh'.members == sh.members
            && SameOrphans(sh.workspaces, sh.members, sh'.workspaces, sh'.members)
            && Lost(sh'.tuples, sh'.members) == Lost(sh.tuples, sh.members) + ActivePairs(sh.members, u)
  {
    EraseStores(sh, u);
    var sh' := EraseUser(sh, u);
    forall p: Pair
      ensures p in Lost(sh'.tuples, sh'.members) <==> p in Lost(sh.tuples, sh.members) + ActivePairs(sh.members, u)
    {
      if p in sh.members {
        var t := RoleTuple(p.0, sh.members[p].role, p.1);
        assert Stored(sh'.tuples, t) <==> Stored(sh.tuples, t) && !NamesUser(t, u);
      }
    }
  }
}
