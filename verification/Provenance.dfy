/**
 Where standing comes from, over every run: nobody acts on a workspace without the standing it takes, and every role
 and every invitation goes back to a caller who had it (internal/service).
 */
module Provenance {
  import opened AuthzModel
  import opened Store
  import opened Workspaces
  import opened Grades
  import opened MembershipSteps
  import opened Requests
  import opened SeatRuns
  import opened MembershipRuns
  import opened Sequence
  import opened Policy
  import opened Outcomes

  /**
   The shard before every call of a run, and after the last. Every call's engine reads it under the default model,
   and raw writes stay off workspaces.
   */
  ghost predicate History(states: seq<Shard>, calls: seq<Call>, sk: string) {
    && |states| == |calls| + 1 && states[0] == EmptyShard
    && (forall k {:trigger calls[k]} | 0 <= k < |calls| ::
          && states[k + 1] == StepAt(states[k], sk, calls[k])
          && (Addressed(calls[k], sk) ==> Faithful(states[k], calls[k])))
  }

  lemma {:induction false} HistoryIsRun(states: seq<Shard>, calls: seq<Call>, n: nat, sk: string)
    requires n <= |calls| && History(states, calls, sk)
    ensures states[n] == StateAt(calls, n, sk) == At(Run(map[], calls[..n]), sk)
  {
    StateIsRun(calls, n, sk);
    if n > 0 {
      HistoryIsRun(states, calls, n - 1, sk);
      assert states[n] == StepAt(states[n - 1], sk, calls[n - 1]);
    }
  }

  lemma EmptyInv()
    ensures Inv(EmptyShard)
  {
  }

  lemma InvKept(states: seq<Shard>, calls: seq<Call>, k: nat, sk: string)
    requires k < |calls| && History(states, calls, sk) && Inv(states[k])
    ensures Inv(states[k + 1])
  {
    StepKeepsInv(states[k], sk, calls[k]);
  }

  lemma {:induction false} InvThroughout(states: seq<Shard>, calls: seq<Call>, n: nat, sk: string)
    requires n <= |calls| && History(states, calls, sk)
    ensures Inv(states[n])
  {
    if n == 0 {
      EmptyInv();
    } else {
      InvThroughout(states, calls, n - 1, sk);
      InvKept(states, calls, n - 1, sk);
    }
  }

  /** At every point of every run: whoever may not make a request is refused, and nothing changes. */
  lemma EveryActIsPermitted(states: seq<Shard>, calls: seq<Call>, k: nat, sk: string)
    requires k < |calls| && History(states, calls, sk) && Addressed(calls[k], sk) && !Permitted(states[k], calls[k])
    ensures states[k + 1] == states[k] && Serve(states[k], calls[k]).1.Refused?
  {
    InvThroughout(states, calls, k, sk);
    OnlyThePermittedAct(states[k], calls[k]);
  }

  /** And, with depth and reads enough, whoever may is accepted unless what it names or the state forbids it. */
  lemma EveryAnswerIsDecided(states: seq<Shard>, calls: seq<Call>, k: nat, sk: string)
    requires k < |calls| && History(states, calls, sk) && Addressed(calls[k], sk)
    requires Ample(calls[k].e) && Policy.Whole(calls[k].req)
    ensures Decided(states[k], calls[k], Serve(states[k], calls[k]).1)
  {
    InvThroughout(states, calls, k, sk);
    AcceptedIff(states[k], calls[k]);
  }

  // ---- invitations ----

  /** The call is an admin's, and makes this invitation, good for seven days. */
  predicate Issues(sh: Shard, sk: string, c: Call, id: string, inv: Invitation) {
    && Addressed(c, sk) && c.req.Invite?
    && c.req.ws == inv.ws && c.req.role == inv.role && c.req.id == id && c.req.tokenHash == inv.tokenHash
    && inv.expiresAt == c.now + 7 * 24 * 3600
    && Entitled(sh, c.actor, inv.ws, Admin)
  }

  /** What an invitation offers, whatever has become of it. */
  function Offer(inv: Invitation): Invitation {
    inv.(status := Pending)
  }

  /** An invitation is new and pending, or what it was; only a pending one changes, and only in its status. */
  predicate Follows(sh: Shard, sh': Shard, sk: string, c: Call, id: string) {
    id in sh'.invitations ==>
      var inv := sh'.invitations[id];
      if id in sh.invitations then
        inv == sh.invitations[id] || (sh.invitations[id].status.Pending? && Offer(inv) == sh.invitations[id])
      else
        inv.status.Pending? && Issues(sh, sk, c, id, inv)
  }

  lemma InviteFollows(sh: Shard, sk: string, c: Call, id: string)
    requires Addressed(c, sk) && c.req.Invite? && Permitted(sh, c)
    ensures Follows(sh, Serve(sh, c).0, sk, c, id)
  {
  }

  lemma PutMemberMarksNone(sh: Shard, active: bool, ws: string, u: string, r: Role)
    ensures PutMember(sh, active, ws, u, r).0.invitations == sh.invitations
  {
  }

  lemma AcceptMarks(sh: Shard, active: bool, actor: string, id: string, now: int, steps: nat, x: string)
    ensures var was, after := sh.invitations, AcceptInvitation(sh, active, actor, id, now, steps).0.invitations;
            x in after ==> x in was && (after[x] == was[x] || (was[x].status.Pending? && Offer(after[x]) == was[x]))
  {
    if id in sh.invitations && sh.invitations[id].status.Pending? && steps > 0 {
      var inv := sh.invitations[id];
      if now <= inv.expiresAt && (inv.ws, actor) !in sh.members {
        var (sh1, reply) := PutMember(sh, active, inv.ws, actor, inv.role);
        PutMemberMarksNone(sh, active, inv.ws, actor, inv.role);
        assert sh1.invitations == sh.invitations;
      }
    }
  }

  lemma AcceptFollows(sh: Shard, sk: string, c: Call, id: string)
    requires Addressed(c, sk) && c.req.Accept?
    ensures Follows(sh, Serve(sh, c).0, sk, c, id)
  {
    AcceptMarks(sh, c.active, c.actor, c.req.id, c.now, c.req.steps, id);
  }

  lemma EndFollows(sh: Shard, sk: string, c: Call, id: string)
    requires Addressed(c, sk) && (c.req.RevokeInvite? || c.req.Delete?)
    ensures Follows(sh, Serve(sh, c).0, sk, c, id)
  {
  }

  lemma InvitationFollows(sh: Shard, sk: string, c: Call, id: string)
    requires Inv(sh) && (Addressed(c, sk) ==> Faithful(sh, c))
    ensures Follows(sh, StepAt(sh, sk, c), sk, c, id)
  {
    if Addressed(c, sk) {
      OnlyTheNamedChange(sh, c);
      if !NamesInvitation(sh, c.req, id) {
        assert Same(sh.invitations, Serve(sh, c).0.invitations, id);
      } else if !Permitted(sh, c) {
        OnlyThePermittedAct(sh, c);
      } else if c.req.Invite? {
        InviteFollows(sh, sk, c, id);
      } else if c.req.Accept? {
        AcceptFollows(sh, sk, c, id);
      } else {
        EndFollows(sh, sk, c, id);
      }
    }
  }

  /** Some call before point `n` made this invitation. */
  ghost predicate Issued(states: seq<Shard>, calls: seq<Call>, n: nat, sk: string, id: string, inv: Invitation)
    requires n <= |calls| < |states|
  {
    exists k | 0 <= k < n :: Issues(states[k], sk, calls[k], id, inv)
  }

  ghost predicate AllFollow(states: seq<Shard>, calls: seq<Call>, sk: string, id: string)
    requires |calls| < |states|
  {
    forall k {:trigger calls[k]} | 0 <= k < |calls| :: Follows(states[k], states[k + 1], sk, calls[k], id)
  }

  /** Every invitation stored at point `n` had been made. */
  ghost predicate AllIssued(states: seq<Shard>, calls: seq<Call>, n: nat, sk: string, id: string)
    requires n <= |calls| < |states|
  {
    id in states[n].invitations ==> Issued(states, calls, n, sk, id, Offer(states[n].invitations[id]))
  }

  lemma {:induction false} FollowedAreIssued(states: seq<Shard>, calls: seq<Call>, n: nat, sk: string, id: string)
    requires n <= |calls| < |states| && states[0] == EmptyShard && AllFollow(states, calls, sk, id)
    ensures AllIssued(states, calls, n, sk, id)
  {
    if n > 0 {
      FollowedAreIssued(states, calls, n - 1, sk, id);
      assert Follows(states[n - 1], states[n], sk, calls[n - 1], id);
    }
  }

  lemma StateFollows(states: seq<Shard>, calls: seq<Call>, k: nat, sk: string, id: string)
    requires k < |calls| && History(states, calls, sk)
    ensures Follows(states[k], states[k + 1], sk, calls[k], id)
  {
    InvThroughout(states, calls, k, sk);
    InvitationFollows(states[k], sk, calls[k], id);
  }

  lemma HistoryFollows(states: seq<Shard>, calls: seq<Call>, sk: string, id: string)
    requires History(states, calls, sk)
    ensures AllFollow(states, calls, sk, id)
  {
    forall k {:trigger calls[k]} | 0 <= k < |calls| ensures Follows(states[k], states[k + 1], sk, calls[k], id) {
      StateFollows(states, calls, k, sk, id);
    }
  }

  /** At every point of every run: every stored invitation was made by someone then an admin of its workspace. */
  lemma InvitationsAreIssued(states: seq<Shard>, calls: seq<Call>, n: nat, sk: string, id: string)
    requires n <= |calls| && History(states, calls, sk)
    ensures AllIssued(states, calls, n, sk, id)
  {
    HistoryFollows(states, calls, sk, id);
    FollowedAreIssued(states, calls, n, sk, id);
  }

  // ---- roles ----

  /** The call gives the user this role: by creation, by someone entitled to, or by an open invitation. */
  predicate Gives(sh: Shard, sk: string, c: Call, ws: string, u: string, r: Role) {
    && Addressed(c, sk)
    && match c.req
       case NewTeam(id, _, _) => id == ws && c.actor == u && r.Owner?
       case NewPersonal(id, _) => id == ws && c.actor == u && r.Owner?
       case Add(w, v, given) => w == ws && v == u != "" && given == r && Entitled(sh, c.actor, ws, Admin)
       case ChangeRole(w, v, given) =>
         w == ws && v == u && given == r && (ws, u) in sh.members && Entitled(sh, c.actor, ws, Admin)
       case Transfer(w, v, _) =>
         && w == ws && Entitled(sh, c.actor, ws, Owner)
         && ((v == u != "" && r.Owner?) || (OwnerOf(sh, ws) == u && (ws, u) in sh.members && r.Admin?))
       case Accept(id, _) =>
         && c.actor == u && id in sh.invitations && sh.invitations[id].status.Pending?
         && sh.invitations[id].ws == ws && sh.invitations[id].role == r && c.now <= sh.invitations[id].expiresAt
       case _ => false
  }

  /** The role a row shows. */
  function RoleIn(rows: MemberRows, p: Pair): Option<Role> {
    if p in rows then Some(rows[p].role) else None
  }

  /** The pair shows the role it showed, or none, or the one given. */
  predicate Shows(rows: MemberRows, rows': MemberRows, p: Pair, given: Role) {
    RoleIn(rows', p) == RoleIn(rows, p) || RoleIn(rows', p) == None || RoleIn(rows', p) == Some(given)
  }

  lemma AddShows(sh: Shard, active: bool, denial: Option<Error>, ws: string, u: string, r: Role)
    requires denial.None? ==> ws in sh.workspaces
    ensures Shows(sh.members, AddMember(sh, active, denial, ws, u, r).0.members, (ws, u), r)
    ensures u == "" ==> AddMember(sh, active, denial, ws, u, r).0 == sh
  {
  }

  lemma ChangeRoleShows(sh: Shard, denial: Option<Error>, ws: string, u: string, r: Role)
    ensures Shows(sh.members, UpdateMemberRole(sh, denial, ws, u, r).0.members, (ws, u), r)
    ensures (ws, u) !in sh.members ==> UpdateMemberRole(sh, denial, ws, u, r).0 == sh
  {
  }

  lemma RemoveShows(sh: Shard, denial: Option<Error>, ws: string, u: string)
    ensures var role := RoleIn(RemoveMember(sh, denial, ws, u).0.members, (ws, u));
            role == None || role == RoleIn(sh.members, (ws, u))
  {
  }

  lemma SuspendShows(sh: Shard, denial: Option<Error>, ws: string, u: string)
    ensures RoleIn(SuspendMember(sh, denial, ws, u).0.members, (ws, u)) == RoleIn(sh.members, (ws, u))
  {
  }

  lemma ReinstateShows(sh: Shard, denial: Option<Error>, ws: string, u: string)
    ensures RoleIn(ReinstateMember(sh, denial, ws, u).0.members, (ws, u)) == RoleIn(sh.members, (ws, u))
  {
  }

  lemma CreateShows(sh: Shard, id: string, kind: WorkspaceType, owner: string, steps: nat)
    ensures Shows(sh.members, CreateWorkspaceWithOwner(sh, id, kind, owner, steps).0.members, (id, owner), Owner)
  {
  }

  lemma PromoteShows(sh: Shard, ws: string, u: string)
    ensures Promote(sh, ws, u).members == sh.members[(ws, u) := Membership(Owner, Active)]
  {
  }

  lemma DemoteShows(sh: Shard, ws: string, u: string)
    ensures Shows(sh.members, Demote(sh, ws, u).members, (ws, u), Admin)
    ensures (ws, u) !in sh.members ==> (ws, u) !in Demote(sh, ws, u).members
    ensures forall p | p != (ws, u) :: RoleIn(Demote(sh, ws, u).members, p) == RoleIn(sh.members, p)
  {
  }

  lemma TransferShows(sh: Shard, ws: string, u: string, steps: nat)
    requires ws in sh.workspaces && u != sh.workspaces[ws].owner
    ensures var sh', former := TransferSteps(sh, ws, u, steps), sh.workspaces[ws].owner;
            && Shows(sh.members, sh'.members, (ws, u), Owner) && Shows(sh.members, sh'.members, (ws, former), Admin)
            && ((ws, former) !in sh.members ==> (ws, former) !in sh'.members)
  {
    PromoteShows(sh, ws, u);
    if steps >= 2 { DemoteShows(RecordOwner(Promote(sh, ws, u), ws, u), ws, sh.workspaces[ws].owner); }
  }

  lemma AcceptShows(sh: Shard, active: bool, actor: string, id: string, now: int, steps: nat)
    requires id in sh.invitations
    ensures var inv, sh' := sh.invitations[id], AcceptInvitation(sh, active, actor, id, now, steps).0;
            RoleIn(sh'.members, (inv.ws, actor)) == RoleIn(sh.members, (inv.ws, actor))
            || (inv.status.Pending? && now <= inv.expiresAt && RoleIn(sh'.members, (inv.ws, actor)) == Some(inv.role))
  {
  }

  /** A role that is new or other than it was after a request is one the request gives. */
  predicate Explained(sh: Shard, sh': Shard, sk: string, c: Call, ws: string, u: string) {
    RoleIn(sh'.members, (ws, u)).Some? && RoleIn(sh'.members, (ws, u)) != RoleIn(sh.members, (ws, u)) ==>
      Gives(sh, sk, c, ws, u, RoleIn(sh'.members, (ws, u)).value)
  }

  lemma MemberExplained(sh: Shard, sk: string, c: Call, ws: string, u: string)
    requires Addressed(c, sk) && AboutMembers(c.req) && !c.req.Transfer? && Permitted(sh, c)
    requires NamesPair(sh, c, ws, u)
    ensures Explained(sh, Serve(sh, c).0, sk, c, ws, u)
  {
    var denial := Guard(sh, c.e, c.actor, ws, Admin);
    match c.req
    case Add(_, _, r) => AddShows(sh, c.active, denial, ws, u, r);
    case ChangeRole(_, _, r) => ChangeRoleShows(sh, denial, ws, u, r);
    case RemoveUser(_, _) => RemoveShows(sh, denial, ws, u);
    case Suspend(_, _) => SuspendShows(sh, denial, ws, u);
    case Reinstate(_, _) => ReinstateShows(sh, denial, ws, u);
  }

  lemma TransferExplained(sh: Shard, sk: string, c: Call, ws: string, u: string)
    requires Addressed(c, sk) && c.req.Transfer? && Permitted(sh, c) && NamesPair(sh, c, ws, u)
    ensures Explained(sh, Serve(sh, c).0, sk, c, ws, u)
  {
    var sh', v := Serve(sh, c).0, c.req.user;
    if ws in sh.workspaces && v != sh.workspaces[ws].owner && sh' == TransferSteps(sh, ws, v, c.req.steps) {
      TransferShows(sh, ws, v, c.req.steps);
    } else {
      assert sh' == sh;
    }
  }

  lemma OpenExplained(sh: Shard, sk: string, c: Call, ws: string, u: string)
    requires Addressed(c, sk) && (c.req.NewTeam? || c.req.NewPersonal? || c.req.Accept?) && NamesPair(sh, c, ws, u)
    ensures Explained(sh, Serve(sh, c).0, sk, c, ws, u)
  {
    match c.req
    case NewTeam(id, _, steps) => CreateShows(sh, id, Team, c.actor, steps);
    case NewPersonal(id, steps) => CreateShows(sh, id, Personal, c.actor, steps);
    case Accept(id, steps) => AcceptShows(sh, c.active, c.actor, id, c.now, steps);
  }

  lemma DeleteExplained(sh: Shard, sk: string, c: Call, ws: string, u: string)
    requires Addressed(c, sk) && c.req.Delete?
    ensures Explained(sh, Serve(sh, c).0, sk, c, ws, u)
  {
  }

  lemma RoleIsExplained(sh: Shard, sk: string, c: Call, ws: string, u: string)
    requires Inv(sh) && Addressed(c, sk) && Faithful(sh, c)
    ensures Explained(sh, Serve(sh, c).0, sk, c, ws, u)
  {
    OnlyTheNamedChange(sh, c);
    if !Permitted(sh, c) {
      OnlyThePermittedAct(sh, c);
    } else if NamesPair(sh, c, ws, u) {
      if c.req.Transfer? {
        TransferExplained(sh, sk, c, ws, u);
      } else if AboutMembers(c.req) {
        MemberExplained(sh, sk, c, ws, u);
      } else if c.req.Delete? {
        DeleteExplained(sh, sk, c, ws, u);
      } else {
        OpenExplained(sh, sk, c, ws, u);
      }
    } else {
      assert Same(sh.members, Serve(sh, c).0.members, (ws, u));
    }
  }

  lemma RoleFollows(sh: Shard, sk: string, c: Call, ws: string, u: string)
    requires Inv(sh) && (Addressed(c, sk) ==> Faithful(sh, c))
    ensures Explained(sh, StepAt(sh, sk, c), sk, c, ws, u)
  {
    if Addressed(c, sk) { RoleIsExplained(sh, sk, c, ws, u); }
  }

  /** The call at `k` gives the role; an invitation it rests on had itself been made by an admin. */
  ghost predicate GivenAt(states: seq<Shard>, calls: seq<Call>, k: nat, sk: string, ws: string, u: string, r: Role)
    requires k < |calls| < |states|
  {
    var sh, c := states[k], calls[k];
    && Gives(sh, sk, c, ws, u, r)
    && (c.req.Accept? ==> Issued(states, calls, k, sk, c.req.id, Offer(sh.invitations[c.req.id])))
  }

  ghost predicate AllExplained(states: seq<Shard>, calls: seq<Call>, sk: string, ws: string, u: string)
    requires |calls| < |states|
  {
    forall k {:trigger calls[k]} | 0 <= k < |calls| :: Explained(states[k], states[k + 1], sk, calls[k], ws, u)
  }

  /** Whoever shows a role at point `n` was given it. */
  ghost predicate AllGiven(states: seq<Shard>, calls: seq<Call>, n: nat, sk: string, ws: string, u: string)
    requires n <= |calls| < |states|
  {
    (ws, u) in states[n].members ==>
      exists k | 0 <= k < n :: GivenAt(states, calls, k, sk, ws, u, states[n].members[(ws, u)].role)
  }

  lemma GivesIsGiven(
      states: seq<Shard>, calls: seq<Call>, k: nat, sk: string, ws: string, u: string, r: Role)
    requires k < |calls| < |states| && states[0] == EmptyShard && forall id: string :: AllFollow(states, calls, sk, id)
    requires Gives(states[k], sk, calls[k], ws, u, r)
    ensures GivenAt(states, calls, k, sk, ws, u, r)
  {
    if calls[k].req.Accept? { FollowedAreIssued(states, calls, k, sk, calls[k].req.id); }
  }

  lemma {:induction false} ExplainedAreGiven(
      states: seq<Shard>, calls: seq<Call>, n: nat, sk: string, ws: string, u: string)
    requires n <= |calls| < |states| && states[0] == EmptyShard && AllExplained(states, calls, sk, ws, u)
    requires forall id: string :: AllFollow(states, calls, sk, id)
    ensures AllGiven(states, calls, n, sk, ws, u)
  {
    if n > 0 {
      ExplainedAreGiven(states, calls, n - 1, sk, ws, u);
      assert Explained(states[n - 1], states[n], sk, calls[n - 1], ws, u);
      var role := RoleIn(states[n].members, (ws, u));
      if role.Some? && role != RoleIn(states[n - 1].members, (ws, u)) {
        GivesIsGiven(states, calls, n - 1, sk, ws, u, role.value);
      }
    }
  }

  lemma StateExplained(states: seq<Shard>, calls: seq<Call>, k: nat, sk: string, ws: string, u: string)
    requires k < |calls| && History(states, calls, sk)
    ensures Explained(states[k], states[k + 1], sk, calls[k], ws, u)
  {
    InvThroughout(states, calls, k, sk);
    RoleFollows(states[k], sk, calls[k], ws, u);
  }

  lemma HistoryExplained(states: seq<Shard>, calls: seq<Call>, sk: string, ws: string, u: string)
    requires History(states, calls, sk)
    ensures AllExplained(states, calls, sk, ws, u)
  {
    forall k {:trigger calls[k]} | 0 <= k < |calls| ensures Explained(states[k], states[k + 1], sk, calls[k], ws, u) {
      StateExplained(states, calls, k, sk, ws, u);
    }
  }

  /** At every point of every run: every role goes back to a creation, an entitled caller or an admin's invitation. */
  lemma RolesAreGiven(states: seq<Shard>, calls: seq<Call>, n: nat, sk: string, ws: string, u: string)
    requires n <= |calls| && History(states, calls, sk)
    ensures AllGiven(states, calls, n, sk, ws, u)
  {
    HistoryExplained(states, calls, sk, ws, u);
    forall id: string ensures AllFollow(states, calls, sk, id) { HistoryFollows(states, calls, sk, id); }
    ExplainedAreGiven(states, calls, n, sk, ws, u);
  }
}
