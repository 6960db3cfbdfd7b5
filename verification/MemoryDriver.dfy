/** The in-memory driver in place (internal/repo/memory/memory.go): each method performs one repository step. */
module MemoryDriver {
  import opened AuthzModel
  import opened TupleKeys
  import opened Store

  /** One shard changed; a missing shard is an empty one. */
  ghost predicate Became(before: Shards, after: Shards, sk: string, sh: Shard) {
    At(after, sk) == sh && forall other: string | other != sk :: At(after, other) == At(before, other)
  }

  /** Every tuple of every shard is stored under its own key. */
  ghost predicate Keyed(shards: Shards) {
    forall sk: string :: WellKeyed(At(shards, sk).tuples)
  }

  /** No two subjects are the same to the store. */
  ghost predicate EachOnce(subjects: seq<Subject>) {
    forall i, j | 0 <= i < j < |subjects| :: WhoOf(subjects[i]) != WhoOf(subjects[j])
  }

  /** `keys` are the keys, each once, under which a table holds `subjects` for one node. */
  ghost predicate HeldUnder(m: TupleTable, n: Node, keys: seq<string>, subjects: seq<Subject>) {
    && |keys| == |subjects|
    && (forall i | 0 <= i < |keys| :: keys[i] in m && NodeOf(m[keys[i]]) == n && m[keys[i]].subject == subjects[i])
    && (forall i, j | 0 <= i < j < |keys| :: keys[i] != keys[j])
  }

  lemma KeyedIsEachOnce(m: TupleTable, n: Node, keys: seq<string>, subjects: seq<Subject>)
    requires HeldUnder(m, n, keys, subjects) && WellKeyed(m)
    ensures EachOnce(subjects)
  {
    forall i, j | 0 <= i < j < |subjects| ensures WhoOf(subjects[i]) != WhoOf(subjects[j]) {
      TupleKeyIff(m[keys[i]], m[keys[j]]);
    }
  }

  lemma WriteKeepsKeys(m: TupleTable, inserts: seq<Tuple>, deletes: seq<Tuple>)
    ensures WellKeyed(m) ==> WellKeyed(Write(m, inserts, deletes))
  {
    if WellKeyed(m) {
      RemoveStores(m, deletes);
      InsertStores(Remove(m, deletes), inserts);
    }
  }

  /** Replacing one shard by a well-keyed one. */
  lemma PutKeyed(before: Shards, sk: string, sh: Shard)
    requires WellKeyed(At(before, sk).tuples) ==> WellKeyed(sh.tuples)
    ensures Keyed(before) ==> Keyed(before[sk := sh])
  {
    if Keyed(before) {
      var after := before[sk := sh];
      forall other: string ensures WellKeyed(At(after, other).tuples) {
        assert WellKeyed(At(before, other).tuples);
      }
    }
  }

  class MemoryStore {
    var shards: Shards

    /** What every method keeps. */
    ghost predicate Valid()
      reads this
    {
      Keyed(shards)
    }

    constructor ()
      ensures shards == map[] && Valid()
    {
      shards := map[];
    }

    method Put(sk: string, sh: Shard)
      requires WellKeyed(At(shards, sk).tuples) ==> WellKeyed(sh.tuples)
      modifies this
      ensures shards == old(shards)[sk := sh] && (old(Valid()) ==> Valid())
    {
      PutKeyed(shards, sk, sh);
      shards := shards[sk := sh];
    }

    method WriteTuples(project: string, tenant: string, inserts: seq<Tuple>, deletes: seq<Tuple>)
      modifies this
      ensures old(Valid()) ==> Valid()
      ensures var sk := Scope(project, tenant);
              shards == old(shards)[sk := WriteIn(At(old(shards), sk), inserts, deletes)]
    {
      var sk := Scope(project, tenant);
      var sh := At(shards, sk);
      var m := RemoveEach(sh.tuples, deletes);
      m := InsertEach(m, inserts);
      var next := sh.(tuples := m, writes := sh.writes + 1);
      assert next == WriteIn(sh, inserts, deletes);
      WriteKeepsKeys(sh.tuples, inserts, deletes);
      Put(sk, next);
    }

    /** The subjects stored for one node, in whatever order the table yields them. */
    method ListSubjects(project: string, tenant: string, n: Node, now: int) returns (out: seq<Subject>)
      ensures forall s: Subject :: s in out <==>
                var m := At(shards, Scope(project, tenant)).tuples;
                SubjectStored(m, n, s, now)
      ensures Valid() ==> EachOnce(out)
    {
      var m := At(shards, Scope(project, tenant)).tuples;
      out := [];
      ghost var keys := [];
      var rest := m.Keys;
      while rest != {}
        invariant rest <= m.Keys && HeldUnder(m, n, keys, out) && forall k | k in keys :: k !in rest
        invariant forall s: Subject :: s in out <==>
                    exists k | k in m && k !in rest :: NodeOf(m[k]) == n && m[k].subject == s && ActiveAt(m[k], now)
        decreases rest
      {
        var k :| k in rest;
        rest := rest - {k};
        var t := m[k];
        if t.ns == n.ns && t.obj == n.obj && t.rel == n.rel && ActiveAt(t, now) {
          out, keys := out + [t.subject], keys + [k];
        }
      }
      if Valid() { KeyedIsEachOnce(m, n, keys, out); }
    }

    /** All an engine can read from a shard at one instant. */
    method ReadShard(
        project: string, tenant: string, now: int, model: Model, holds: set<Condition>, maxDepth: nat, maxReads: int)
        returns (e: Env)
      ensures Lists(e, At(shards, Scope(project, tenant)).tuples, now)
      ensures e == Env(model, e.tuples, holds, maxDepth, maxReads)
      ensures Valid() ==> forall n: Node :: EachOnce(Subjects(e, n))
    {
      var m := At(shards, Scope(project, tenant)).tuples;
      var listed: map<Node, seq<Subject>> := map[];
      var rest := m.Keys;
      while rest != {}
        invariant rest <= m.Keys
        invariant forall k | k in m && k !in rest :: NodeOf(m[k]) in listed
        invariant forall n: Node, s: Subject | n in listed :: s in listed[n] <==> SubjectStored(m, n, s, now)
        invariant Valid() ==> forall n: Node | n in listed :: EachOnce(listed[n])
        decreases rest
      {
        var k :| k in rest;
        rest := rest - {k};
        var subjects := ListSubjects(project, tenant, NodeOf(m[k]), now);
        listed := listed[NodeOf(m[k]) := subjects];
      }
      e := Env(model, listed, holds, maxDepth, maxReads);
    }

    /** The objects with an active tuple in a namespace, each once, in ascending order. */
    method ListObjectIDs(project: string, tenant: string, ns: string, now: int) returns (out: seq<string>)
      ensures forall id: string :: id in out <==>
                var m := At(shards, Scope(project, tenant)).tuples;
                exists k | k in m :: m[k].ns == ns && m[k].obj == id && ActiveAt(m[k], now)
      ensures Ascending(out)
    {
      var m := At(shards, Scope(project, tenant)).tuples;
      out := [];
      var rest := m.Keys;
      while rest != {}
        invariant rest <= m.Keys
        invariant forall id: string :: id in out <==>
                    exists k | k in m && k !in rest :: m[k].ns == ns && m[k].obj == id && ActiveAt(m[k], now)
        invariant forall i, j | 0 <= i < j < |out| :: out[i] != out[j]
        decreases rest
      {
        var k :| k in rest;
        rest := rest - {k};
        if m[k].ns == ns && ActiveAt(m[k], now) && m[k].obj !in out { out := out + [m[k].obj]; }
      }
      out := SortStrings(out);
    }

    /** The project-wide erase, with the number of tuples it deleted. */
    method DeleteAllSubjectTuplesInProject(project: string, u: string) returns (n: nat)
      modifies this
      ensures old(Valid()) ==> Valid()
      ensures shards == EraseUserInProject(old(shards), project, u)
      ensures n == |Doomed(old(shards), old(shards).Keys, project, u)|
    {
      EraseKeepsKeys(shards, project, u);
      n := EraseEach(project, u);
    }

    /** Visits every shard, erasing in those of the project. */
    method EraseEach(project: string, u: string) returns (n: nat)
      modifies this
      ensures shards == EraseUserInProject(old(shards), project, u)
      ensures n == |Doomed(old(shards), old(shards).Keys, project, u)|
    {
      n := 0;
      var rest := shards.Keys;
      ghost var was, done := shards, {};
      assert Doomed(was, done, project, u) == {} && Erased(was, done, project, u) == was;
      while rest != {}
        invariant rest <= was.Keys && done == was.Keys - rest
        invariant shards == Erased(was, done, project, u)
        invariant n == |Doomed(was, done, project, u)|
        decreases rest
      {
        var sk :| sk in rest;
        DoomedOneMore(was, done, sk, project, u);
        ErasedOneMore(was, done, sk, project, u);
        rest := rest - {sk};
        done := done + {sk};
        if InProject(sk, project) {
          var sh, gone := EraseFromShard(shards[sk], u);
          n := n + gone;
          shards := shards[sk := sh];
        }
      }
      assert done == was.Keys;
    }

    // ---- workspaces ----

    method CreateWorkspace(project: string, tenant: string, id: string, w: Workspace) returns (reply: Reply)
      modifies this
      ensures old(Valid()) ==> Valid()
      ensures var sk := Scope(project, tenant);
              var (sh, answer) := CreateWorkspaceRow(At(old(shards), sk), id, w);
              Became(old(shards), shards, sk, sh) && reply == answer
    {
      var sk := Scope(project, tenant);
      var sh := At(shards, sk);
      if id in sh.workspaces { return Refused(AlreadyExists); }
      if w.kind.Personal? {
        var rest := sh.workspaces.Keys;
        while rest != {}
          invariant rest <= sh.workspaces.Keys && shards == old(shards)
          invariant forall x | x in sh.workspaces && x !in rest :: sh.workspaces[x] != w
          decreases rest
        {
          var x :| x in rest;
          if sh.workspaces[x].kind.Personal? && sh.workspaces[x].owner == w.owner { return Refused(AlreadyExists); }
          rest := rest - {x};
        }
      }
      Put(sk, sh.(workspaces := sh.workspaces[id := w]));
      reply := Done;
    }

    method UpdateWorkspace(project: string, tenant: string, id: string, w: Workspace) returns (reply: Reply)
      modifies this
      ensures old(Valid()) ==> Valid()
      ensures var sk := Scope(project, tenant);
              var (sh, answer) := UpdateWorkspaceRow(At(old(shards), sk), id, w);
              Became(old(shards), shards, sk, sh) && reply == answer
    {
      var sk := Scope(project, tenant);
      var sh := At(shards, sk);
      if id !in sh.workspaces { return Refused(NotFound); }
      Put(sk, sh.(workspaces := sh.workspaces[id := w]));
      reply := Done;
    }

    /** The caller's personal workspace, whichever the table yields first. */
    method PersonalWorkspace(project: string, tenant: string, user: string) returns (id: Option<string>)
      ensures var rows := At(shards, Scope(project, tenant)).workspaces;
              if id.Some? then id.value in rows && rows[id.value] == Workspace(Personal, user)
              else forall x | x in rows :: rows[x] != Workspace(Personal, user)
    {
      var rows := At(shards, Scope(project, tenant)).workspaces;
      var rest := rows.Keys;
      while rest != {}
        invariant rest <= rows.Keys
        invariant forall x | x in rows && x !in rest :: rows[x] != Workspace(Personal, user)
        decreases rest
      {
        var x :| x in rest;
        if rows[x].kind.Personal? && rows[x].owner == user { return Some(x); }
        rest := rest - {x};
      }
      id := None;
    }

    /** Cascades to memberships, tuples and invitations. */
    method DeleteWorkspace(project: string, tenant: string, id: string) returns (reply: Reply)
      modifies this
      ensures old(Valid()) ==> Valid()
      ensures var sk := Scope(project, tenant);
              var (sh, answer) := DeleteWorkspaceRow(At(old(shards), sk), id);
              Became(old(shards), shards, sk, sh) && reply == answer
    {
      var sk := Scope(project, tenant);
      var sh := At(shards, sk);
      if id !in sh.workspaces { return Refused(NotFound); }
      var tuples := CascadeTuples(sh.tuples, id);
      var invitations := CascadeInvitations(sh.invitations, id);
      var members := map p | p in sh.members && p.0 != id :: sh.members[p];
      Put(sk, sh.(workspaces := sh.workspaces - {id}, members := members, tuples := tuples,
                  invitations := invitations, writes := sh.writes + 1));
      reply := Done;
    }

    // ---- memberships and invitations ----

    method PutMembershipAndTuples(
        project: string, tenant: string, ws: string, u: string, row: Membership,
        inserts: seq<Tuple>, deletes: seq<Tuple>)
      modifies this
      ensures old(Valid()) ==> Valid()
      ensures var sk := Scope(project, tenant);
              Became(old(shards), shards, sk,
                  Store.PutMembershipAndTuples(At(old(shards), sk), ws, u, row, inserts, deletes))
    {
      var sk := Scope(project, tenant);
      var sh := At(shards, sk);
      Put(sk, sh.(members := sh.members[(ws, u) := row]));
      WriteTuples(project, tenant, inserts, deletes);
    }

    method DeleteMembershipAndTuples(project: string, tenant: string, ws: string, u: string, deletes: seq<Tuple>)
        returns (reply: Reply)
      modifies this
      ensures old(Valid()) ==> Valid()
      ensures var sk := Scope(project, tenant);
              var (sh, answer) := Store.DeleteMembershipAndTuples(At(old(shards), sk), ws, u, deletes);
              Became(old(shards), shards, sk, sh) && reply == answer
    {
      var sk := Scope(project, tenant);
      var sh := At(shards, sk);
      if (ws, u) !in sh.members { return Refused(NotFound); }
      Put(sk, sh.(members := sh.members - {(ws, u)}));
      WriteTuples(project, tenant, [], deletes);
      reply := Done;
    }

    method CreateInvitation(project: string, tenant: string, id: string, inv: Invitation) returns (reply: Reply)
      modifies this
      ensures old(Valid()) ==> Valid()
      ensures var sk := Scope(project, tenant);
              var (sh, answer) := CreateInvitationRow(At(old(shards), sk), id, inv);
              Became(old(shards), shards, sk, sh) && reply == answer
    {
      var sk := Scope(project, tenant);
      var sh := At(shards, sk);
      if id in sh.invitations { return Refused(AlreadyExists); }
      Put(sk, sh.(invitations := sh.invitations[id := inv]));
      reply := Done;
    }

    method UpdateInvitation(project: string, tenant: string, id: string, inv: Invitation) returns (reply: Reply)
      modifies this
      ensures old(Valid()) ==> Valid()
      ensures var sk := Scope(project, tenant);
              var (sh, answer) := UpdateInvitationRow(At(old(shards), sk), id, inv);
              Became(old(shards), shards, sk, sh) && reply == answer
    {
      var sk := Scope(project, tenant);
      var sh := At(shards, sk);
      if id !in sh.invitations { return Refused(NotFound); }
      Put(sk, sh.(invitations := sh.invitations[id := inv]));
      reply := Done;
    }

    /** An invitation stored under a token hash, if any. */
    method GetInvitationByTokenHash(project: string, tenant: string, hash: string) returns (id: Option<string>)
      ensures var rows := At(shards, Scope(project, tenant)).invitations;
              if id.Some? then id.value in rows && rows[id.value].tokenHash == hash
              else forall x | x in rows :: rows[x].tokenHash != hash
    {
      var rows := At(shards, Scope(project, tenant)).invitations;
      var rest := rows.Keys;
      while rest != {}
        invariant rest <= rows.Keys
        invariant forall x | x in rows && x !in rest :: rows[x].tokenHash != hash
        decreases rest
      {
        var x :| x in rest;
        if rows[x].tokenHash == hash { return Some(x); }
        rest := rest - {x};
      }
      id := None;
    }

    // ---- seats ----

    method SetSeatLimit(project: string, tenant: string, sku: string, limit: Option<int>)
      modifies this
      ensures old(Valid()) ==> Valid()
      ensures var sk := Scope(project, tenant);
              Became(old(shards), shards, sk, SetSeatLimitRow(At(old(shards), sk), sku, limit))
    {
      var sk := Scope(project, tenant);
      var sh := At(shards, sk);
      var limits := sh.seatLimits;
      if limit.None? { limits := limits - {sku}; } else { limits := limits[sku := limit.value]; }
      Put(sk, sh.(seatLimits := limits));
    }

    method AssignSeatAndTuple(project: string, tenant: string, sku: string, u: string, t: Tuple)
        returns (reply: Assigned)
      modifies this
      ensures old(Valid()) ==> Valid()
      ensures var sk := Scope(project, tenant);
              var (sh, answer) := Store.AssignSeatAndTuple(At(old(shards), sk), sku, u, t);
              Became(old(shards), shards, sk, sh) && reply == answer
    {
      var sk := Scope(project, tenant);
      var sh := At(shards, sk);
      var held := Holders(sh, sku);
      if u in held {
        WriteTuples(project, tenant, [t], []);
        assert At(shards, sk) == Store.AssignSeatAndTuple(sh, sku, u, t).0;
        return AlreadyHeld;
      }
      if sku in sh.seatLimits && |held| >= sh.seatLimits[sku] { return SeatRefused(ResourceExhausted); }
      Put(sk, sh.(seats := sh.seats[sku := held + {u}]));
      WriteTuples(project, tenant, [t], []);
      assert At(shards, sk) == Store.AssignSeatAndTuple(sh, sku, u, t).0;
      reply := Newly;
    }

    method RevokeSeatAndTuple(project: string, tenant: string, sku: string, u: string, t: Tuple)
      modifies this
      ensures old(Valid()) ==> Valid()
      ensures var sk := Scope(project, tenant);
              Became(old(shards), shards, sk, Store.RevokeSeatAndTuple(At(old(shards), sk), sku, u, t))
    {
      var sk := Scope(project, tenant);
      var sh := At(shards, sk);
      Put(sk, sh.(seats := sh.seats[sku := Holders(sh, sku) - {u}]));
      WriteTuples(project, tenant, [], [t]);
    }
  }

  // ---- ordering ids ----

  predicate Before(a: string, b: string) {
    b != "" && (a == "" || a[0] < b[0] || (a[0] == b[0] && Before(a[1..], b[1..])))
  }

  /** In order, hence each id once. */
  predicate Ascending(ids: seq<string>) {
    forall i, j | 0 <= i < j < |ids| :: Before(ids[i], ids[j]) && ids[i] != ids[j]
  }

  lemma {:induction false} BeforeIsTransitive(a: string, b: string, c: string)
    requires Before(a, b) && Before(b, c)
    ensures Before(a, c) && a != c
    decreases |b|
  {
    if a != "" && a[0] == b[0] == c[0] { BeforeIsTransitive(a[1..], b[1..], c[1..]); }
  }

  lemma {:induction false} BeforeIsTotal(a: string, b: string)
    ensures a == b || Before(a, b) || Before(b, a)
    decreases |a|
  {
    if a != "" && b != "" && a[0] == b[0] {
      BeforeIsTotal(a[1..], b[1..]);
      assert a == [a[0]] + a[1..] && b == [b[0]] + b[1..];
    }
  }

  lemma InsertedAscends(ids: seq<string>, id: string, i: nat)
    requires Ascending(ids) && id !in ids && i <= |ids|
    requires (i > 0 ==> Before(ids[i - 1], id)) && (i < |ids| ==> Before(id, ids[i]))
    ensures Ascending(ids[..i] + [id] + ids[i..])
  {
    forall k | 0 <= k < i ensures Before(ids[k], id) {
      if k < i - 1 { BeforeIsTransitive(ids[k], ids[i - 1], id); }
    }
    forall k | i <= k < |ids| ensures Before(id, ids[k]) {
      if k > i { BeforeIsTransitive(id, ids[i], ids[k]); }
    }
  }

  method InsertSorted(ids: seq<string>, id: string) returns (out: seq<string>)
    requires Ascending(ids) && id !in ids
    ensures Ascending(out) && forall x: string :: x in out <==> x == id || x in ids
  {
    var i := 0;
    while i < |ids| && !Before(id, ids[i])
      invariant 0 <= i <= |ids|
      invariant i > 0 ==> Before(ids[i - 1], id)
    {
      BeforeIsTotal(id, ids[i]);
      i := i + 1;
    }
    InsertedAscends(ids, id, i);
    out := ids[..i] + [id] + ids[i..];
    assert ids == ids[..i] + ids[i..];
  }

  /** Distinct ids in ascending order. */
  method SortStrings(ids: seq<string>) returns (out: seq<string>)
    requires forall i, j | 0 <= i < j < |ids| :: ids[i] != ids[j]
    ensures Ascending(out) && forall x: string :: x in out <==> x in ids
  {
    out := [];
    var i := 0;
    while i < |ids|
      invariant 0 <= i <= |ids| && Ascending(out)
      invariant forall x: string :: x in out <==> x in ids[..i]
    {
      assert ids[..i + 1] == ids[..i] + [ids[i]];
      out := InsertSorted(out, ids[i]);
      i := i + 1;
    }
  }

  lemma EraseKeepsKeys(shards: Shards, project: string, u: string)
    ensures Keyed(shards) ==> Keyed(EraseUserInProject(shards, project, u))
  {
    if Keyed(shards) {
      forall sk: string ensures WellKeyed(At(EraseUserInProject(shards, project, u), sk).tuples) {
        assert WellKeyed(At(shards, sk).tuples);
      }
    }
  }

  method CascadeTuples(m: TupleTable, ws: string) returns (r: TupleTable)
    ensures r == map k | k in m && !(m[k].ns == "workspace" && m[k].obj == ws) :: m[k]
  {
    r := m;
    var rest := m.Keys;
    while rest != {}
      invariant rest <= m.Keys
      invariant r == map k | k in m && (k in rest || !(m[k].ns == "workspace" && m[k].obj == ws)) :: m[k]
      decreases rest
    {
      var k :| k in rest;
      rest := rest - {k};
      if m[k].ns == "workspace" && m[k].obj == ws { r := r - {k}; }
    }
  }

  method CascadeInvitations(m: map<string, Invitation>, ws: string) returns (r: map<string, Invitation>)
    ensures r == map i | i in m && m[i].ws != ws :: m[i]
  {
    r := m;
    var rest := m.Keys;
    while rest != {}
      invariant rest <= m.Keys
      invariant r == map i | i in m && (i in rest || m[i].ws != ws) :: m[i]
      decreases rest
    {
      var i :| i in rest;
      rest := rest - {i};
      if m[i].ws == ws { r := r - {i}; }
    }
  }

  method RemoveEach(m: TupleTable, deletes: seq<Tuple>) returns (r: TupleTable)
    ensures r == Remove(m, deletes)
  {
    r := m;
    var i := 0;
    while i < |deletes|
      invariant 0 <= i <= |deletes|
      invariant Remove(r, deletes[i..]) == Remove(m, deletes)
    {
      assert deletes[i..][1..] == deletes[i + 1..];
      r := r - {TupleKey(deletes[i])};
      i := i + 1;
    }
  }

  method InsertEach(m: TupleTable, inserts: seq<Tuple>) returns (r: TupleTable)
    ensures r == Insert(m, inserts)
  {
    r := m;
    var i := 0;
    while i < |inserts|
      invariant 0 <= i <= |inserts|
      invariant Insert(r, inserts[i..]) == Insert(m, inserts)
    {
      assert inserts[i..][1..] == inserts[i + 1..];
      r := r[TupleKey(inserts[i]) := inserts[i]];
      i := i + 1;
    }
  }

  /** The tuples of the given shards that an erase deletes, as (scope, key) pairs. */
  ghost function Doomed(shards: Shards, scopes: set<string>, project: string, u: string): set<(string, string)> {
    set sk, k | sk in scopes && sk in shards && InProject(sk, project) && k in DoomedKeys(shards[sk].tuples, u) ::
        (sk, k)
  }

  function DoomedKeys(m: TupleTable, u: string): set<string> {
    set k | k in m && NamesUser(m[k], u)
  }

  /** The shards after the erase has visited the given scopes. */
  ghost function Erased(shards: Shards, scopes: set<string>, project: string, u: string): Shards {
    map sk | sk in shards :: if sk in scopes && InProject(sk, project) then EraseUser(shards[sk], u) else shards[sk]
  }

  lemma ErasedOneMore(shards: Shards, scopes: set<string>, sk: string, project: string, u: string)
    requires sk in shards && sk !in scopes
    ensures var before := Erased(shards, scopes, project, u);
            && before[sk] == shards[sk]
            && Erased(shards, scopes + {sk}, project, u)
            == if InProject(sk, project) then before[sk := EraseUser(shards[sk], u)] else before
  {
  }

  lemma DoomedOneMore(shards: Shards, scopes: set<string>, sk: string, project: string, u: string)
    requires sk in shards && sk !in scopes
    ensures |Doomed(shards, scopes + {sk}, project, u)|
         == |Doomed(shards, scopes, project, u)|
            + if InProject(sk, project) then |DoomedKeys(shards[sk].tuples, u)| else 0
  {
    var before, after := Doomed(shards, scopes, project, u), Doomed(shards, scopes + {sk}, project, u);
    if InProject(sk, project) {
      var ks := DoomedKeys(shards[sk].tuples, u);
      var here := set k | k in ks :: (sk, k);
      PairsCount(sk, ks);
      assert after == before + here && before !! here;
    } else {
      assert after == before;
    }
  }

  lemma {:induction false} PairsCount(sk: string, ks: set<string>)
    ensures |set k | k in ks :: (sk, k)| == |ks|
    decreases ks
  {
    var pairs := set k | k in ks :: (sk, k);
    if ks != {} {
      var k :| k in ks;
      PairsCount(sk, ks - {k});
      assert pairs == (set x | x in ks - {k} :: (sk, x)) + {(sk, k)};
    }
  }

  method EraseFromShard(sh: Shard, u: string) returns (r: Shard, gone: nat)
    ensures r == EraseUser(sh, u) && gone == |DoomedKeys(sh.tuples, u)|
  {
    var m;
    m, gone := EraseFromTable(sh.tuples, u);
    r := sh.(tuples := m, seats := map sku | sku in sh.seats :: sh.seats[sku] - {u});
  }

  method EraseFromTable(m: TupleTable, u: string) returns (r: TupleTable, gone: nat)
    ensures r == map k | k in m && !NamesUser(m[k], u) :: m[k]
    ensures gone == |DoomedKeys(m, u)|
  {
    r, gone := m, 0;
    ghost var deleted: set<string> := {};
    var rest := m.Keys;
    while rest != {}
      invariant rest <= m.Keys
      invariant deleted == set k | k in m && k !in rest && NamesUser(m[k], u)
      invariant r == m - deleted && gone == |deleted|
      decreases rest
    {
      var k :| k in rest;
      rest := rest - {k};
      if NamesUser(m[k], u) {
        r, gone := r - {k}, gone + 1;
        deleted := deleted + {k};
      }
    }
    assert deleted == DoomedKeys(m, u);
  }
}
