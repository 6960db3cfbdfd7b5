/** Shards do not interfere, and deprovisioning makes a user anonymous in all of a project's shards. */
module Isolation {
  import opened AuthzModel
  import opened VisitKeys
  import opened Kleene
  import opened Evaluator
  import opened Budget
  import opened Soundness
  import opened Solutions
  import opened ListObjects
  import opened TupleKeys
  import opened Store
  import opened Seats
  import opened SameRun
  import opened Requests
  import opened SeatRuns

  /** The calls that concern one tenant of one project. */
  predicate Concerns(c: Call, project: string, tenant: string) {
    c.project == project && (c.Call? ==> c.tenant == tenant)
  }

  function Own(calls: seq<Call>, project: string, tenant: string): seq<Call>
    decreases |calls|
  {
    if calls == [] then []
    else
      var c := calls[|calls| - 1];
      Own(calls[..|calls| - 1], project, tenant) + if Concerns(c, project, tenant) then [c] else []
  }

  predicate CleanProjects(calls: seq<Call>) {
    forall c | c in calls :: NUL !in c.project
  }

  lemma OthersPassBy(sh: Shard, c: Call, project: string, tenant: string)
    requires NUL !in project && NUL !in c.project && !Concerns(c, project, tenant)
    ensures StepAt(sh, Scope(project, tenant), c) == sh
  {
    ScopeInProjectIff(project, tenant, c.project);
    if c.Call? && Scope(project, tenant) == Scope(c.project, c.tenant) {
      ScopeInjective(project, tenant, c.project, c.tenant);
    }
  }

  /**
   What a shard holds after a run depends only on its own calls: the rest of the run could as well not have
   happened.
   */
  lemma {:induction false} ShardsAreIsolated(shards: Shards, calls: seq<Call>, project: string, tenant: string)
    requires NUL !in project && CleanProjects(calls)
    ensures At(Run(shards, calls), Scope(project, tenant))
              == At(Run(shards, Own(calls, project, tenant)), Scope(project, tenant))
    decreases |calls|
  {
    if calls != [] {
      var before, c, sk := calls[..|calls| - 1], calls[|calls| - 1], Scope(project, tenant);
      ShardsAreIsolated(shards, before, project, tenant);
      StepIsLocal(Run(shards, before), c, sk);
      var own := Own(before, project, tenant);
      if Concerns(c, project, tenant) {
        StepIsLocal(Run(shards, own), c, sk);
        assert (own + [c])[..|own + [c]| - 1] == own;
      } else {
        OthersPassBy(At(Run(shards, before), sk), c, project, tenant);
        assert Own(calls, project, tenant) == own + [] == own;
      }
    }
  }

  /** A settled Check depends on the stored tuples alone, not on the order in which the driver lists them. */
  lemma SameTableSameCheck(e1: Env, e2: Env, m: TupleTable, now: int, u: string, n: Node)
    requires Lists(e1, m, now) && Lists(e2, m, now)
    requires e1.model == e2.model && e1.holds == e2.holds && e1.maxDepth == e2.maxDepth
    requires Clean(e1) && CleanNode(n) && K(e1, u, n, e1.maxDepth + 1).Known?
    ensures var r1, r2 := TopCheck(e1, ByUser(u), n).res, TopCheck(e2, ByUser(u), n).res;
            r1.Ok? && r2.Ok? ==> r1 == r2
  {
    assert SameSubjects(e1, e2);
    OrderIrrelevant(e1, e2, u, n, e1.maxDepth + 1);
    TopCheckComplete(e1, u, n);
    TopCheckComplete(e2, u, n);
  }

  /** The tuples whose expiry lies after `now` or that have none, kept for good. */
  function Unexpired(m: TupleTable, now: int): TupleTable {
    map k | k in m && (m[k].expiresAt == None || now < m[k].expiresAt.value) :: m[k].(expiresAt := None)
  }

  /** Reading a table at an instant is reading, at any time, what is left of it at that instant. */
  lemma ExpiredIsUnseen(e: Env, m: TupleTable, now: int, later: int)
    ensures Lists(e, m, now) <==> Lists(e, Unexpired(m, now), later)
  {
    forall n: Node, s: Subject
      ensures SubjectStored(m, n, s, now) <==> SubjectStored(Unexpired(m, now), n, s, later)
    {
      if k :| k in m && NodeOf(m[k]) == n && m[k].subject == s && ActiveAt(m[k], now) {
        assert k in Unexpired(m, now);
      }
      if k :| k in Unexpired(m, now) && NodeOf(Unexpired(m, now)[k]) == n && Unexpired(m, now)[k].subject == s {
        assert NodeOf(m[k]) == n && m[k].subject == s && ActiveAt(m[k], now);
      }
    }
  }

  /** The object ids the driver lists are all that ListObjects needs to scan: listed means allowed, over every id. */
  lemma DriverListsEnough(
      e: Env, m: TupleTable, now: int, ns: string, ids: seq<string>, rel: string, u: string, id: string)
    requires Lists(e, m, now)
    requires forall x: string ::
               x in ids <==> exists k | k in m :: m[k].ns == ns && m[k].obj == x && ActiveAt(m[k], now)
    ensures id in Hits(e, ns, ids, rel, u) <==> TopCheck(Unbudgeted(e), ByUser(u), Node(ns, id, rel)).res == Ok(true)
  {
    forall x: string
      ensures x in ids <==> exists r: string :: Subjects(e, Node(ns, x, r)) != []
    {
      if x in ids {
        var k :| k in m && m[k].ns == ns && m[k].obj == x && ActiveAt(m[k], now);
        assert SubjectStored(m, Node(ns, x, m[k].rel), m[k].subject, now);
      }
      if r: string :| Subjects(e, Node(ns, x, r)) != [] {
        assert SubjectStored(m, Node(ns, x, r), Subjects(e, Node(ns, x, r))[0], now);
      }
    }
    ListingIsComplete(e, ns, ids, rel, u, id);
  }

  /** The project-wide erase reaches every tenant of the project and no shard of another. */
  lemma EraseReachesExactly(shards: Shards, project: string, u: string, q: string, tenant: string)
    requires NUL !in project && NUL !in q
    ensures At(EraseUserInProject(shards, project, u), Scope(q, tenant)) ==
              if q == project then EraseUser(At(shards, Scope(q, tenant)), u) else At(shards, Scope(q, tenant))
  {
    ScopeInProjectIff(q, tenant, project);
    StepIsLocal(shards, Deprovision(project, u), Scope(q, tenant));
    assert EraseUser(EmptyShard, u).tuples == map[] && EraseUser(EmptyShard, u).seats == map[];
  }

  lemma ErasedIsUnnamed(sh: Shard, u: string, e: Env, now: int)
    requires WellKeyed(sh.tuples) && Lists(e, EraseUser(sh, u).tuples, now)
    ensures Unnamed(e, u)
  {
    EraseStores(sh, u);
    forall n: Node, s: Subject | s in Subjects(e, n) && s.userset.None? && !s.wildcard
      ensures s.userID != u
    {
      var t := ListedSubject(e, EraseUser(sh, u).tuples, now, n, s);
      assert !NamesUser(t, u);
    }
  }

  /**
   After any run and then an erase, in every tenant of the project, whatever is asked, the erased user is like
   any user no tuple names.
   */
  lemma DeprovisionedIsAnonymous(
      calls: seq<Call>, project: string, u: string, tenant: string, e: Env, now: int, v: string, n: Node)
    requires NUL !in project
    requires Lists(e, At(EraseUserInProject(Run(map[], calls), project, u), Scope(project, tenant)).tuples, now)
               && Unnamed(e, v)
    ensures TopCheck(e, ByUser(u), n) == TopCheck(e, ByUser(v), n)
    ensures forall sku: string ::
              u !in Holders(At(EraseUserInProject(Run(map[], calls), project, u), Scope(project, tenant)), sku)
  {
    EraseReachesExactly(Run(map[], calls), project, u, project, tenant);
    SeatsAlwaysInStep(calls, Scope(project, tenant));
    ErasedIsUnnamed(At(Run(map[], calls), Scope(project, tenant)), u, e, now);
    UnnamedUsersAreIndistinguishable(e, u, v, n, false, {}, Fresh, 0);
  }
}
