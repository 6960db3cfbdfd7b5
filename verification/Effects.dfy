/**
 What a request does to every later Check on a workspace: exactly the pairs it is about change, and how;
 what a refused request leaves alone; and which requests undo which.
 */
module Effects {
  import opened AuthzModel
  import opened Evaluator
  import opened TupleKeys
  import opened Store
  import opened Seats
  import opened Workspaces
  import opened Grades
  import opened Requests
  import opened SeatRuns
  import opened MembershipRuns

  /** A standing of at least the asked grade. */
  predicate Suffices(standing: Option<Role>, asked: Role) {
    standing.Some? && Grade(standing.value) >= Grade(asked)
  }

  lemma HoldsAfterMoves(m: TupleTable, m': TupleTable, moves: Moves, ws: string, u: string, asked: Role)
    requires TuplesMoved(m, m', moves)
    ensures Holds(m', ws, u, asked) <==>
              if (ws, u) in moves then Suffices(moves[(ws, u)], asked) else Holds(m, ws, u, asked)
  {
    forall r: Role
      ensures Stored(m', RoleTuple(ws, r, u)) <==>
                if (ws, u) in moves then moves[(ws, u)] == Some(r) else Stored(m, RoleTuple(ws, r, u))
    {
    }
  }

  /**
   Whatever a request answers, and wherever a crash cuts it: for every workspace, user and grade, Check answers
   afterwards as before, but for the pairs the request moved, and for those by the role it moved them to.
   */
  lemma CheckAfterRequest(
      sh: Shard, c: Call, e: Env, now: int, e': Env, now': int, ws: string, u: string, asked: Role)
    requires Inv(sh) && c.Call? && Faithful(sh, c) && Ample(e) && Ample(e')
    requires Lists(e, sh.tuples, now) && Lists(e', Serve(sh, c).0.tuples, now') && e.model == e'.model == DefaultModel
    ensures TopCheck(e', ByUser(u), GradeNode(ws, asked)).res ==
              if (ws, u) in MovesBy(sh, c) then Ok(u != "" && Suffices(MovesBy(sh, c)[(ws, u)], asked))
              else TopCheck(e, ByUser(u), GradeNode(ws, asked)).res
  {
    var sh' := Serve(sh, c).0;
    ServeSteps(sh, c);
    HoldsAfterMoves(sh.tuples, sh'.tuples, MovesBy(sh, c), ws, u, asked);
    WorkspaceCheckIsExact(e, sh, now, ws, u, asked);
    WorkspaceCheckIsExact(e', sh', now', ws, u, asked);
  }

  /** Deprovisioning keeps every row and takes every grade from that user alone. */
  lemma DeprovisionedHoldsNothing(sh: Shard, ws: string, u: string, v: string, asked: Role)
    requires Inv(sh)
    ensures EraseUser(sh, u).members == sh.members
    ensures Holds(EraseUser(sh, u).tuples, ws, v, asked) <==> v != u && Holds(sh.tuples, ws, v, asked)
  {
    EraseStores(sh, u);
    forall r: Role
      ensures Stored(EraseUser(sh, u).tuples, RoleTuple(ws, r, v)) <==> v != u && Stored(sh.tuples, RoleTuple(ws, r, v))
    {
      assert NamesUser(RoleTuple(ws, r, v), u) <==> v == u;
    }
  }

  // ---- refusals ----

  lemma RefusedMembers(sh: Shard, c: Call)
    requires c.Call? && AboutMembers(c.req) && Serve(sh, c).1.Refused?
    ensures Serve(sh, c).0 == sh
  {
  }

  lemma RefusedOthers(sh: Shard, c: Call)
    requires c.Call? && (AboutSeats(c.req) || c.req.Raw? || c.req.Invite? || c.req.RevokeInvite?)
    requires Serve(sh, c).1.Refused?
    ensures Serve(sh, c).0 == sh
  {
  }

  /** A refused request changes nothing but, at most, the status of the invitation it found expired. */
  lemma RefusedChangesNothing(sh: Shard, c: Call)
    requires c.Call? && Serve(sh, c).1.Refused?
    ensures
      || Serve(sh, c).0 == sh
      || (&& c.req.Accept? && c.req.id in sh.invitations
          && var expired := sh.invitations[c.req.id].(status := Expired);
             Serve(sh, c).0 == sh.(invitations := sh.invitations[c.req.id := expired]))
  {
    if AboutMembers(c.req) {
      RefusedMembers(sh, c);
    } else if AboutSeats(c.req) || c.req.Raw? || c.req.Invite? || c.req.RevokeInvite? {
      RefusedOthers(sh, c);
    }
  }

  // ---- requests that undo others ----

  lemma WriteOne(m: TupleTable, t: Tuple)
    ensures Write(m, [t], []) == m[TupleKey(t) := t] && Write(m, [], [t]) == m - {TupleKey(t)}
  {
    assert [t][1..] == [];
    assert Insert(m, [t]) == Insert(m[TupleKey(t) := t], []);
    assert Remove(m, [t]) == Remove(m - {TupleKey(t)}, []);
  }

  lemma DeleteThenInsert(m: TupleTable, t: Tuple)
    requires Stored(m, t)
    ensures Write(Write(m, [], [t]), [t], []) == m
  {
    WriteOne(m, t);
    WriteOne(m - {TupleKey(t)}, t);
  }

  lemma InsertThenDelete(m: TupleTable, t: Tuple)
    requires TupleKey(t) !in m
    ensures Write(Write(m, [t], []), [], [t]) == m
  {
    WriteOne(m, t);
    WriteOne(m[TupleKey(t) := t], t);
  }

  lemma RowRestored(rows: MemberRows, p: Pair, row: Membership)
    requires p in rows
    ensures rows[p := row][p := rows[p]] == rows
  {
  }

  /** Reinstating a member just suspended restores the shard; only the write sequence has moved. */
  lemma ReinstateUndoesSuspend(sh: Shard, ws: string, u: string)
    requires (ws, u) in sh.members && (ws, u) !in Lost(sh.tuples, sh.members)
    requires sh.members[(ws, u)].status.Active? && !sh.members[(ws, u)].role.Owner?
    ensures ReinstateMember(SuspendMember(sh, None, ws, u).0, None, ws, u) == (sh.(writes := sh.writes + 2), Done)
  {
    var p, row := (ws, u), sh.members[(ws, u)];
    var t := RoleTuple(p.0, row.role, p.1);
    assert Stored(sh.tuples, t);
    DeleteThenInsert(sh.tuples, t);
    RowRestored(sh.members, p, row.(status := Suspended));
    var sh1 := WriteIn(sh.(members := sh.members[p := row.(status := Suspended)]), [], [t]);
    assert SuspendMember(sh, None, ws, u).0 == sh1;
    assert ReinstateMember(sh1, None, ws, u).0 == WriteIn(sh1.(members := sh.members), [t], []);
  }

  lemma NewcomerHasNoTuple(sh: Shard, ws: string, u: string, r: Role)
    requires Inv(sh) && (ws, u) !in sh.members
    ensures TupleKey(RoleTuple(ws, r, u)) !in sh.tuples
  {
    var k := TupleKey(RoleTuple(ws, r, u));
    if k in sh.tuples {
      TupleKeyIff(sh.tuples[k], RoleTuple(ws, r, u));
    }
  }

  /** Removing a member just added restores the shard likewise. */
  lemma RemoveUndoesAdd(sh: Shard, ws: string, u: string, r: Role)
    requires Inv(sh) && ws in sh.workspaces && sh.workspaces[ws].kind.Team? && (ws, u) !in sh.members
    requires u != "" && !r.Owner?
    ensures RemoveMember(AddMember(sh, true, None, ws, u, r).0, None, ws, u) == (sh.(writes := sh.writes + 2), Done)
  {
    NewcomerHasNoTuple(sh, ws, u, r);
    InsertThenDelete(sh.tuples, RoleTuple(ws, r, u));
    var sh1 := AddMember(sh, true, None, ws, u, r).0;
    var sh2 := RemoveMember(sh1, None, ws, u).0;
    assert sh2.members == sh.members;
  }

  lemma UnseatedHasNoTuple(sh: Shard, sku: string, u: string)
    requires SeatsInStep(sh) && u !in Holders(sh, sku)
    ensures TupleKey(SeatTuple(sku, u)) !in sh.tuples
  {
    var k := TupleKey(SeatTuple(sku, u));
    if k in sh.tuples {
      TupleKeyIff(sh.tuples[k], SeatTuple(sku, u));
      assert Stored(sh.tuples, sh.tuples[k]);
    }
  }

  /** Revoking a seat just assigned gives back the seats, the limits and the tuples there were. */
  lemma RevokeUndoesAssign(sh: Shard, sku: string, u: string)
    requires SeatsInStep(sh) && AssignSeat(sh, true, sku, u).1.Newly?
    ensures var sh2 := RevokeSeat(AssignSeat(sh, true, sku, u).0, true, sku, u).0;
            && sh2 == sh.(seats := sh2.seats, writes := sh.writes + 2)
            && forall other: string :: Holders(sh2, other) == Holders(sh, other)
  {
    UnseatedHasNoTuple(sh, sku, u);
    InsertThenDelete(sh.tuples, SeatTuple(sku, u));
    var sh1 := AssignSeat(sh, true, sku, u).0;
    var sh2 := RevokeSeat(sh1, true, sku, u).0;
    assert sh2.tuples == sh.tuples;
    assert Holders(sh1, sku) - {u} == Holders(sh, sku);
  }
}
