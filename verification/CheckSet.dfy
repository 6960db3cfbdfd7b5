/**
 The imperative member resolution and CheckSet (pkg/authz/checkset.go): does a queried userset
 have a relation, structurally or through one of its members.
 */
module CheckSet {
  import opened AuthzModel
  import opened VisitKeys
  import opened Kleene
  import opened Evaluator
  import opened Soundness
  import opened Solutions
  import opened Conditions
  import opened SetQueries
  import opened Completeness
  import opened Budget
  import opened Engine
  import opened ListObjects
  import opened Expansion
  import opened ExpandMeaning
  import opened Members
  import opened MemberMeaning
  import opened FanOutCut

  /** The cycle guard and backstop record one resolution shares. */
  class ResolveState {
    var visited: set<string>
    var backstops: nat

    constructor ()
      ensures visited == {} && backstops == 0
    {
      visited, backstops := {}, 0;
    }
  }

  ghost function ResolveTally(rs: ResolveState, st: EvalState): Tally
    reads rs, st
  {
    Tally(0, st.readCount, rs.backstops)
  }

  method ResolveMembers(e: Env, n: Node, rs: ResolveState, st: EvalState, depth: nat) returns (r: Got<Members>)
    requires st.maxReads == e.maxReads
    modifies rs, st`readCount, st`listings
    ensures Run(ResolveTally(rs, st), r) == Resolve(e, n, old(rs.visited), old(ResolveTally(rs, st)), depth)
    ensures rs.visited == old(rs.visited)
    ensures st.Owed() == old(st.Owed()) + if r.OutOfReads? then 1 else 0
    decreases Room(e, depth), 3
  {
    if depth > e.maxDepth {
      rs.backstops := rs.backstops + 1;
      return Got(Nobody);
    }
    var key := VisitKey(n);
    if key in rs.visited {
      rs.backstops := rs.backstops + 1;
      return Got(Nobody);
    }
    rs.visited := rs.visited + {key};
    var x := new ExpandState();
    x.backstops := rs.backstops;
    var tree := ExpandNode(e, n, 0, x, st, depth);
    rs.backstops := x.backstops;
    if tree.Got? {
      r := MembersOfTree(e, tree.value, rs, st, depth);
    } else {
      r := if tree.TooLarge? then TooLarge else OutOfReads;
    }
    rs.visited := rs.visited - {key};
  }

  method MembersOfTree(e: Env, tree: Tree, rs: ResolveState, st: EvalState, depth: nat) returns (r: Got<Members>)
    requires st.maxReads == e.maxReads && depth <= e.maxDepth
    modifies rs, st`readCount, st`listings
    ensures Run(ResolveTally(rs, st), r) == MembersOf(e, tree, old(rs.visited), old(ResolveTally(rs, st)), depth)
    ensures rs.visited == old(rs.visited)
    ensures st.Owed() == old(st.Owed()) + if r.OutOfReads? then 1 else 0
    decreases Room(e, depth), 2, tree
  {
    if tree.union != [] {
      r := UnionOfTrees(e, tree.union, rs, st, depth);
    } else if tree.intersection != [] {
      r := IntersectionOfTrees(e, tree.intersection, rs, st, depth);
    } else if tree.exclude.Some? {
      var inc := MembersOfTree(e, tree.exclude.value.included, rs, st, depth);
      if !inc.Got? { return inc; }
      var exc := MembersOfTree(e, tree.exclude.value.excluded, rs, st, depth);
      if !exc.Got? { return exc; }
      r := Got(Members(inc.value.users - exc.value.users, inc.value.everyone));
    } else {
      r := MembersOfLeaf(e, tree, rs, st, depth);
    }
  }

  /** What is collected so far, combined with what the rest of the loop yields. */
  ghost function Ahead(any: bool, acc: Members, r: Run<Members>): Run<Members> {
    if r.res.Got? then Run(r.st, Got(Combine(any, acc, r.res.value))) else r
  }

  lemma AheadOfAll(any: bool, r: Run<Members>)
    ensures Ahead(any, if any then Nobody else Everybody, r) == r
  {
    if r.res.Got? { assert {} + r.res.value.users == r.res.value.users; }
  }

  lemma AheadAssociates(any: bool, acc: Members, m: Members, r: Run<Members>)
    ensures Ahead(any, acc, Ahead(any, m, r)) == Ahead(any, Combine(any, acc, m), r)
  {
    if r.res.Got? {
      var rest := r.res.value;
      assert acc.users + (m.users + rest.users) == acc.users + m.users + rest.users;
      assert acc.users * (m.users * rest.users) == acc.users * m.users * rest.users;
    }
  }

  method UnionOfTrees(e: Env, trees: seq<Tree>, rs: ResolveState, st: EvalState, depth: nat) returns (r: Got<Members>)
    requires st.maxReads == e.maxReads && depth <= e.maxDepth
    modifies rs, st`readCount, st`listings
    ensures Run(ResolveTally(rs, st), r)
              == MembersOfAll(e, trees, true, old(rs.visited), old(ResolveTally(rs, st)), depth)
    ensures rs.visited == old(rs.visited)
    ensures st.Owed() == old(st.Owed()) + if r.OutOfReads? then 1 else 0
    decreases Room(e, depth), 2, trees
  {
    ghost var path, t := rs.visited, ResolveTally(rs, st);
    AheadOfAll(true, MembersOfAll(e, trees, true, path, t, depth));
    var out, everyone := {}, false;
    var i := 0;
    while i < |trees|
      invariant 0 <= i <= |trees| && rs.visited == path && st.Owed() == old(st.Owed())
      invariant MembersOfAll(e, trees, true, path, t, depth)
             == Ahead(true, Members(out, everyone),
                 MembersOfAll(e, trees[i..], true, path, ResolveTally(rs, st), depth))
    {
      assert trees[i..][1..] == trees[i + 1..];
      var c := MembersOfTree(e, trees[i], rs, st, depth);
      if !c.Got? { return c; }
      AheadAssociates(true, Members(out, everyone), c.value,
                      MembersOfAll(e, trees[i + 1..], true, path, ResolveTally(rs, st), depth));
      out, everyone := out + c.value.users, everyone || c.value.everyone;
      i := i + 1;
    }
    assert out + {} == out;
    r := Got(Members(out, everyone));
  }

  method IntersectionOfTrees(
      e: Env, trees: seq<Tree>, rs: ResolveState, st: EvalState, depth: nat) returns (r: Got<Members>)
    requires st.maxReads == e.maxReads && depth <= e.maxDepth
    modifies rs, st`readCount, st`listings
    ensures Run(ResolveTally(rs, st), r)
              == MembersOfAll(e, trees, false, old(rs.visited), old(ResolveTally(rs, st)), depth)
    ensures rs.visited == old(rs.visited)
    ensures st.Owed() == old(st.Owed()) + if r.OutOfReads? then 1 else 0
    decreases Room(e, depth), 2, trees
  {
    ghost var path, t := rs.visited, ResolveTally(rs, st);
    AheadOfAll(false, MembersOfAll(e, trees, false, path, t, depth));
    var acc: set<string>, bounded := {}, false;
    var i := 0;
    while i < |trees|
      invariant 0 <= i <= |trees| && rs.visited == path && st.Owed() == old(st.Owed())
      invariant !bounded ==> acc == {}
      invariant MembersOfAll(e, trees, false, path, t, depth)
             == Ahead(false, Members(acc, !bounded),
                 MembersOfAll(e, trees[i..], false, path, ResolveTally(rs, st), depth))
    {
      assert trees[i..][1..] == trees[i + 1..];
      var c := MembersOfTree(e, trees[i], rs, st, depth);
      if !c.Got? { return c; }
      AheadAssociates(false, Members(acc, !bounded), c.value,
                      MembersOfAll(e, trees[i + 1..], false, path, ResolveTally(rs, st), depth));
      i := i + 1;
      if c.value.everyone {
        EveryoneDoesNotRestrict(acc, bounded, c.value,
                                MembersOfAll(e, trees[i..], false, path, ResolveTally(rs, st), depth));
        continue;
      }
      if !bounded {
        acc, bounded := c.value.users, true;
      } else {
        acc := IntersectUsers(acc, c.value.users);
      }
    }
    r := if !bounded then Got(Everybody) else Got(Members(acc, false));
  }

  lemma EveryoneDoesNotRestrict(acc: set<string>, bounded: bool, m: Members, r: Run<Members>)
    requires m.everyone
    ensures Ahead(false, Combine(false, Members(acc, !bounded), m), r) == Ahead(false, Members(acc, !bounded), r)
  {
  }

  /** Walks the smaller set and keeps what the other one has. */
  method IntersectUsers(a: set<string>, b: set<string>) returns (out: set<string>)
    ensures out == a * b
  {
    var small, large := a, b;
    if |b| < |a| { small, large := b, a; }
    out := {};
    var rest := small;
    while rest != {}
      invariant rest <= small && out == (small - rest) * large
      decreases rest
    {
      var u :| u in rest;
      if u in large { out := out + {u}; }
      rest := rest - {u};
    }
  }

  method MembersOfLeaf(e: Env, tree: Tree, rs: ResolveState, st: EvalState, depth: nat) returns (r: Got<Members>)
    requires st.maxReads == e.maxReads && depth <= e.maxDepth
    requires tree.union == [] && tree.intersection == [] && tree.exclude.None?
    modifies rs, st`readCount, st`listings
    ensures Run(ResolveTally(rs, st), r) == MembersOf(e, tree, old(rs.visited), old(ResolveTally(rs, st)), depth)
    ensures rs.visited == old(rs.visited)
    ensures st.Owed() == old(st.Owed()) + if r.OutOfReads? then 1 else 0
    decreases Room(e, depth), 1
  {
    ghost var path, t := rs.visited, ResolveTally(rs, st);
    var out, everyone := (set u | u in tree.users), tree.wildcard;
    ghost var direct := Members(out, everyone);
    var i := 0;
    while i < |tree.sets|
      invariant 0 <= i <= |tree.sets| && rs.visited == path && st.Owed() == old(st.Owed())
      invariant Ahead(true, direct, ResolveAll(e, tree.sets, path, t, depth))
             == Ahead(true, Members(out, everyone), ResolveAll(e, tree.sets[i..], path, ResolveTally(rs, st), depth))
    {
      assert tree.sets[i..][1..] == tree.sets[i + 1..];
      var c := ResolveMembers(e, tree.sets[i], rs, st, depth + 1);
      if !c.Got? { return c; }
      AheadAssociates(true, Members(out, everyone), c.value,
                      ResolveAll(e, tree.sets[i + 1..], path, ResolveTally(rs, st), depth));
      out, everyone := out + c.value.users, everyone || c.value.everyone;
      i := i + 1;
    }
    assert out + {} == out;
    r := Got(Members(out, everyone));
  }

  // ---- CheckSet ----

  /** The three questions, each from fresh state and without a budget. */
  function Structural(e: Env, from: Node, n: Node): Outcome {
    TopCheck(Unbudgeted(e), BySet(from), n)
  }

  function ByMember(e: Env, u: string, n: Node): Outcome {
    TopCheck(Unbudgeted(e), ByUser(u), n)
  }

  function Resolution(e: Env, n: Node): (r: Run<Members>)
    ensures r.res.Got?
  {
    ResolveCut(e, n, {}, NoTally, NoTally, 0);
    Resolve(Unbudgeted(e), n, {}, NoTally, 0)
  }

  predicate SomeMemberHas(e: Env, users: set<string>, n: Node) {
    exists u | u in users :: ByMember(e, u, n).res == Ok(true)
  }

  /** The order-free answer CheckSet is meant to give. */
  predicate Answer(e: Env, from: Node, n: Node) {
    || Structural(e, from, n).res == Ok(true)
    || SomeMemberHas(e, Resolution(e, from).res.value.users, n)
    || (Resolution(e, from).res.value.everyone && Resolution(e, n).res.value != Nobody)
  }

  /** The reads of checking members in a given order until one has the relation. */
  function MemberReads(e: Env, order: seq<string>, n: Node): nat {
    if order == [] then 0
    else
      var o := ByMember(e, order[0], n);
      o.st.readCount + (if o.res == Ok(true) then 0 else MemberReads(e, order[1..], n))
  }

  /** The reads of a whole CheckSet that meets the members in `order`. */
  function Need(e: Env, from: Node, n: Node, order: seq<string>): nat {
    var s, m := Structural(e, from, n), Resolution(e, from);
    if s.res == Ok(true) then s.st.readCount
    else
      var upTo := s.st.readCount + m.st.readCount + MemberReads(e, order, n);
      if !SomeMemberHas(e, m.res.value.users, n) && m.res.value.everyone
      then upTo + Resolution(e, n).st.readCount else upTo
  }

  /** `order` lists exactly `users`, each once. */
  ghost predicate Enumerates(order: seq<string>, users: set<string>) {
    && (forall u :: u in order <==> u in users)
    && (forall i, j | 0 <= i < j < |order| :: order[i] != order[j])
  }

  /** Some iteration order of a set; nothing says which. */
  method RangeOver(users: set<string>) returns (order: seq<string>)
    ensures Enumerates(order, users)
  {
    order := [];
    var rest := users;
    while rest != {}
      invariant rest <= users && Enumerates(order, users - rest)
      decreases rest
    {
      var u :| u in rest;
      order, rest := order + [u], rest - {u};
    }
  }

  lemma SomeOrder(users: set<string>) returns (order: seq<string>)
    ensures Enumerates(order, users)
  {
    if users == {} {
      order := [];
    } else {
      var u :| u in users;
      order := SomeOrder(users - {u});
      order := order + [u];
    }
  }

  method CheckMembers(e: Env, order: seq<string>, n: Node, st: EvalState) returns (r: Result)
    requires st.maxReads == e.maxReads && WithinBudget(e, st.readCount)
    modifies st
    ensures var total := old(st.readCount) + MemberReads(e, order, n);
            if WithinBudget(e, total)
            then r == Ok(exists u | u in order :: ByMember(e, u, n).res == Ok(true)) && st.readCount == total
            else r == BudgetExceeded && st.readCount == e.maxReads + 1
    ensures st.Owed() == old(st.Owed()) + if r.BudgetExceeded? then 1 else 0
  {
    var i := 0;
    while i < |order|
      invariant 0 <= i <= |order| && WithinBudget(e, st.readCount) && st.Owed() == old(st.Owed())
      invariant forall j | 0 <= j < i :: ByMember(e, order[j], n).res != Ok(true)
      invariant st.readCount + MemberReads(e, order[i..], n) == old(st.readCount) + MemberReads(e, order, n)
    {
      assert order[i..][1..] == order[i + 1..];
      var ok := CheckAfresh(e, ByUser(order[i]), n, st);
      if ok.BudgetExceeded? { return BudgetExceeded; }
      if ok.allowed { return Ok(true); }
      i := i + 1;
    }
    r := Ok(false);
  }

  /** One resolution inside a longer operation: its guard starts over, the read counter goes on. */
  method ResolveAfresh(e: Env, n: Node, st: EvalState) returns (r: Got<Members>)
    requires st.maxReads == e.maxReads && WithinBudget(e, st.readCount)
    modifies st`readCount, st`listings
    ensures var total := old(st.readCount) + Resolution(e, n).st.readCount;
            if WithinBudget(e, total) then r == Resolution(e, n).res && st.readCount == total
            else r == OutOfReads && st.readCount == e.maxReads + 1
    ensures st.Owed() == old(st.Owed()) + if r.OutOfReads? then 1 else 0
  {
    var rs := new ResolveState();
    ResolveCut(e, n, {}, NoTally, ResolveTally(rs, st), 0);
    r := ResolveMembers(e, n, rs, st, 0);
  }

  /**
   The whole operation over one shared budget. Whatever order the members come in, a result is the
   order-free answer, and the budget error appears exactly when that order needs more reads.
   */
  method RunCheckSet(e: Env, from: Node, n: Node) returns (r: Result, ghost order: seq<string>, ghost made: nat)
    ensures r.Ok? ==> r.allowed == Answer(e, from, n)
    ensures Enumerates(order, Resolution(e, from).res.value.users)
    ensures if WithinBudget(e, Need(e, from, n, order)) then r == Ok(Answer(e, from, n)) else r == BudgetExceeded
    ensures Frugal(e, made) && made == if r.Ok? then Need(e, from, n, order) else e.maxReads
  {
    order := SomeOrder(Resolution(e, from).res.value.users);
    var st := new EvalState(e.maxReads);
    r := CheckAfresh(e, BySet(from), n, st);
    made := st.listings;
    if r != Ok(false) { return; }
    var members := ResolveAfresh(e, from, st);
    if !members.Got? { return BudgetExceeded, order, st.listings; }
    var users := RangeOver(members.value.users);
    order := users;
    r := CheckMembers(e, users, n, st);
    assert (exists u | u in users :: ByMember(e, u, n).res == Ok(true)) == SomeMemberHas(e, members.value.users, n);
    made := st.listings;
    if r != Ok(false) { return; }
    if members.value.everyone {
      var tgt := ResolveAfresh(e, n, st);
      if !tgt.Got? { return BudgetExceeded, order, st.listings; }
      r, made := Ok(tgt.value.everyone || tgt.value.users != {}), st.listings;
    }
  }

  method CheckSetWithModel(
      l: Limits, m: Model, tuples: map<Node, seq<Subject>>, holds: set<Condition>,
      n: Node, from: Node, override: int) returns (r: Result, ghost order: seq<string>, ghost made: nat)
    ensures r.Ok? ==> r.allowed == Answer(Env(m, tuples, holds, l.maxDepth, 0), from, n)
    ensures var budget := FanOutBudget(l, EffectiveMaxReads(l, override), CheckSetCandidates(l));
            var e := Env(m, tuples, holds, l.maxDepth, budget);
            && Enumerates(order, Resolution(e, from).res.value.users)
            && Frugal(e, made) && made == (if r.Ok? then Need(e, from, n, order) else budget)
            && if WithinBudget(e, Need(e, from, n, order)) then r == Ok(Answer(e, from, n)) else r == BudgetExceeded
  {
    var budget := FanOutBudget(l, EffectiveMaxReads(l, override), CheckSetCandidates(l));
    r, order, made := RunCheckSet(Env(m, tuples, holds, l.maxDepth, budget), from, n);
  }

  // ---- what a yes means ----

  /**
   A user of the queried set, conditions forgotten, who has the target; or, if the queried set is public, any user
   who has the target, conditions forgotten there too.
   */
  ghost predicate ShareMember(e: Env, from: Node, n: Node) {
    exists u: string ::
      && Is(Stripped(e), u, from, true)
      && (Is(e, u, n, true) || (Resolution(e, from).res.value.everyone && Is(Stripped(e), u, n, true)))
  }

  /** No cut of the resolution falls under an exclude side, and every subtraction it meets is set difference. */
  ghost predicate Guarded(e: Env, n: Node) {
    ResolveGuarded(Stripped(Unbudgeted(e)), n, {}, NoTally, 0)
  }

  /** What a sound resolution needs: a model without exclusions, or guarded ones. */
  ghost predicate Trusted(e: Env, n: Node) {
    ExclusionFreeModel(e) || Guarded(e, n)
  }

  lemma ResolvedAreMembers(e: Env, n: Node, u: string)
    requires e.maxReads == 0 && Named(e, "") && Trusted(e, n)
    requires In(Resolution(e, n).res.value, u)
    ensures Is(Stripped(e), u, n, true)
  {
    assert Unbudgeted(e) == e;
    if Guarded(e, n) {
      GuardedResolutionIsSound(e, u, n);
    } else {
      StrippedIsUnconditional(e, u);
      TrueNodesClosed(Stripped(e), u);
      ResolveIsSound(e, u, TrueNodes(Stripped(e), u), n);
    }
  }

  lemma UnbudgetedAnswerIsSound(e: Env, from: Node, n: Node)
    requires e.maxReads == 0 && Clean(e) && CleanNode(n) && Named(e, "")
    requires Trusted(e, from) && (Resolution(e, from).res.value.everyone ==> Trusted(e, n))
    requires Answer(e, from, n)
    ensures (SetReaches(e, from, n, e.maxDepth + 1) && Included(e, from, n)) || ShareMember(e, from, n)
  {
    assert Unbudgeted(e) == e;
    var members, target := Resolution(e, from).res.value, Resolution(e, n).res.value;
    if Structural(e, from, n).res == Ok(true) {
      SetQueryIff(e, from, n);
      StructuralMatchIsInclusion(e, from, n);
    } else if SomeMemberHas(e, members.users, n) {
      var u :| u in members.users && ByMember(e, u, n).res == Ok(true);
      ResolvedAreMembers(e, from, u);
      CheckFailsClosed(e, u, n);
    } else {
      var u :| target.everyone || u in target.users;
      ResolvedAreMembers(e, from, u);
      ResolvedAreMembers(e, n, u);
    }
  }

  /** Settled values do not depend on the budget. */
  lemma SettledWithoutBudget(e: Env)
    ensures forall u: string, n: Node, f: nat :: K(Unbudgeted(e), u, n, f) == K(e, u, n, f)
    ensures forall u: string, n: Node, v: bool :: Is(Unbudgeted(e), u, n, v) <==> Is(e, u, n, v)
  {
    var e0 := Unbudgeted(e);
    forall m: Node ensures Subjects(e0, m) == Subjects(e, m) {}
    forall u: string, n: Node, f: nat ensures K(e0, u, n, f) == K(e, u, n, f) { OrderIrrelevant(e0, e, u, n, f); }
    forall u: string, n: Node, v: bool ensures Is(e0, u, n, v) <==> Is(e, u, n, v) {
      if f: nat :| K(e0, u, n, f) == Known(v) { assert K(e, u, n, f) == Known(v); }
      if f: nat :| K(e, u, n, f) == Known(v) { assert K(e0, u, n, f) == Known(v); }
    }
  }

  /** Nor does anything else that is said about a store. */
  lemma WithoutBudget(e: Env, u: string)
    ensures Clean(e) ==> Clean(Unbudgeted(e))
    ensures Named(e, u) ==> Named(Unbudgeted(e), u)
    ensures ExclusionFreeModel(e) <==> ExclusionFreeModel(Unbudgeted(e))
    ensures Stripped(Unbudgeted(e)) == Unbudgeted(Stripped(e))
  {
    forall m: Node ensures Subjects(Unbudgeted(e), m) == Subjects(e, m) {}
  }

  /**
   A yes is deserved: the queried userset is itself found in the target, which then includes it, or the two share a
   user, exclusions included. The hypotheses are those member resolution needs.
   */
  lemma CheckSetIsSound(e: Env, from: Node, n: Node)
    requires Clean(e) && CleanNode(n) && Named(e, "")
    requires Trusted(e, from) && (Resolution(e, from).res.value.everyone ==> Trusted(e, n))
    requires Answer(e, from, n)
    ensures (SetReaches(Unbudgeted(e), from, n, e.maxDepth + 1) && Included(e, from, n)) || ShareMember(e, from, n)
  {
    var e0 := Unbudgeted(e);
    assert Unbudgeted(e0) == e0;
    WithoutBudget(e, "");
    SettledWithoutBudget(e);
    SettledWithoutBudget(Stripped(e));
    UnbudgetedAnswerIsSound(e0, from, n);
  }

  /** Where nothing is conditional, sharing a user is just that. */
  lemma UnconditionalSharers(e: Env, from: Node, n: Node)
    requires Unconditional(e) && ShareMember(e, from, n)
    ensures exists u: string :: Is(e, u, from, true) && Is(e, u, n, true)
  {
    UnconditionalSettles(e);
  }

  // ---- what a no means ----

  /** A userset found in the target within the depth makes the answer yes. */
  lemma CheckSetFindsSet(e: Env, from: Node, n: Node)
    requires Clean(e) && CleanNode(n) && SetReaches(Unbudgeted(e), from, n, e.maxDepth + 1)
    ensures Answer(e, from, n)
  {
    WithoutBudget(e, "");
    TopCheckCut(e, BySet(from), n);
    SetQueryIff(Unbudgeted(e), from, n);
  }

  /** Every subtraction the resolution meets is set difference. */
  ghost predicate Fair(e: Env, n: Node) {
    ResolveFair(Stripped(Unbudgeted(e)), n, {}, NoTally, 0)
  }

  /** The user is settled into the node within the depth limit, with conditions as they are or forgotten. */
  ghost predicate Settled(e: Env, u: string, n: Node) {
    K(e, u, n, e.maxDepth + 1) == Known(true)
  }

  lemma UnbudgetedFindsShared(e: Env, from: Node, n: Node, u: string)
    requires e.maxReads == 0 && Clean(e) && CleanNode(n) && CleanNode(from) && Named(e, u)
    requires Fair(e, from) && (Resolution(e, from).res.value.everyone ==> Fair(e, n) && Settled(Stripped(e), u, n))
    requires Settled(Stripped(e), u, from) && Settled(e, u, n)
    ensures Answer(e, from, n)
  {
    assert Unbudgeted(e) == e;
    ResolutionShowsSettled(e, u, from);
    if u in Resolution(e, from).res.value.users {
      TopCheckCut(e, ByUser(u), n);
      TopCheckComplete(e, u, n);
    } else {
      ResolutionShowsSettled(e, u, n);
    }
  }

  /**
   A user settled into the queried set and into the target within the depth limit is found, whatever is cut
   elsewhere: the answer is yes.
   */
  lemma CheckSetFindsShared(e: Env, from: Node, n: Node, u: string)
    requires Clean(e) && CleanNode(n) && CleanNode(from) && Named(e, u)
    requires Fair(e, from) && (Resolution(e, from).res.value.everyone ==> Fair(e, n) && Settled(Stripped(e), u, n))
    requires Settled(Stripped(e), u, from) && Settled(e, u, n)
    ensures Answer(e, from, n)
  {
    var e0 := Unbudgeted(e);
    assert Unbudgeted(e0) == e0;
    WithoutBudget(e, u);
    SettledWithoutBudget(e);
    SettledWithoutBudget(Stripped(e));
    UnbudgetedFindsShared(e0, from, n, u);
  }

  /** In a model without exclusions nothing is asked but that the user is settled into both. */
  lemma SharedUserIsFound(e: Env, from: Node, n: Node, u: string)
    requires Clean(e) && CleanNode(n) && CleanNode(from) && Named(e, u) && ExclusionFreeModel(e)
    requires Settled(Stripped(e), u, from) && Settled(e, u, n)
    ensures Answer(e, from, n)
  {
    var e1 := Stripped(Unbudgeted(e));
    WithoutBudget(e, u);
    StrippedIsUnconditional(Unbudgeted(e), u);
    PlainNodeFair(false, e1, from, {}, NoTally, 0);
    PlainNodeFair(false, e1, n, {}, NoTally, 0);
    StrippedSettlesMore(e, u, n, e.maxDepth + 1);
    CheckSetFindsShared(e, from, n, u);
  }

  /** The resolution met no cut and no subtraction that is not set difference. */
  ghost predicate Whole(e: Env, n: Node) {
    Resolution(e, n).st.cuts == 0 && Fair(e, n)
  }

  /** Whole resolutions can be trusted: whatever finds a shared user also answers yes only to one. */
  lemma WholeIsTrusted(e: Env, n: Node)
    requires Whole(e, n)
    ensures Trusted(e, n)
  {
    TreesIgnoreConditions(Unbudgeted(e), n, 0);
    UncutResolve(Stripped(Unbudgeted(e)), n, {}, NoTally, 0);
  }

  lemma UnbudgetedWholeFindsShared(e: Env, from: Node, n: Node, u: string)
    requires e.maxReads == 0 && Clean(e) && CleanNode(n) && Named(e, u)
    requires Whole(e, from) && (Resolution(e, from).res.value.everyone ==> Whole(e, n) && !Is(Stripped(e), u, n, false))
    requires !Is(Stripped(e), u, from, false) && Settled(e, u, n)
    ensures Answer(e, from, n)
  {
    assert Unbudgeted(e) == e;
    FairResolutionIsExact(e, u, from);
    if u in Resolution(e, from).res.value.users {
      TopCheckCut(e, ByUser(u), n);
      TopCheckComplete(e, u, n);
    } else {
      FairResolutionIsExact(e, u, n);
    }
  }

  /** Where resolution meets no cut, a user need only not be settled out of the queried set, at whatever depth. */
  lemma WholeFindsShared(e: Env, from: Node, n: Node, u: string)
    requires Clean(e) && CleanNode(n) && Named(e, u)
    requires Whole(e, from) && (Resolution(e, from).res.value.everyone ==> Whole(e, n) && !Is(Stripped(e), u, n, false))
    requires !Is(Stripped(e), u, from, false) && Settled(e, u, n)
    ensures Answer(e, from, n)
  {
    var e0 := Unbudgeted(e);
    assert Unbudgeted(e0) == e0;
    WithoutBudget(e, u);
    SettledWithoutBudget(e);
    SettledWithoutBudget(Stripped(e));
    UnbudgetedWholeFindsShared(e0, from, n, u);
  }
}
