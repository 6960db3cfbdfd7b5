/**
 Computed-only relations (pkg/authz/model.go): a tuple stored on one is never read, so it cannot
 change any decision -- provided no rule walks the relation as a tupleset.
 */
module Inert {
  import opened AuthzModel
  import opened VisitKeys
  import opened Kleene
  import opened Soundness
  import opened Evaluator
  import opened Budget
  import opened SameRun
  import opened SameTree
  import opened ListObjects
  import opened Expansion
  import opened MemberMeaning
  import opened CheckSet

  /** A `this` leaf is reachable through the same-relation operators. */
  predicate ReadsStoredTuples(rw: Rewrite)
    decreases rw
  {
    || IsThis(rw)
    || (exists c | c in rw.union :: ReadsStoredTuples(c))
    || (exists c | c in rw.intersection :: ReadsStoredTuples(c))
    || (rw.exclusion.Some?
        && (ReadsStoredTuples(rw.exclusion.value.included) || ReadsStoredTuples(rw.exclusion.value.excluded)))
  }

  /** What the write path accepts: undeclared relations and those that read their own tuples. */
  predicate WritableRelation(m: Model, ns: string, rel: string) {
    ns !in m || rel !in m[ns] || ReadsStoredTuples(m[ns][rel])
  }

  predicate WalksTupleset(rw: Rewrite, rel: string)
    decreases rw
  {
    match FormOf(rw)
    case This => false
    case AnyOf(children) => exists c | c in children :: WalksTupleset(c, rel)
    case AllOf(children) => exists c | c in children :: WalksTupleset(c, rel)
    case Except(included, excluded) => WalksTupleset(included, rel) || WalksTupleset(excluded, rel)
    case Computed(_) => false
    case Via(tupleset, _) => tupleset == rel
  }

  predicate InertRelation(m: Model, ns: string, rel: string) {
    !WritableRelation(m, ns, rel) && forall r | r in m[ns] :: !WalksTupleset(m[ns][r], rel)
  }

  /** The stores agree everywhere but on one relation of one namespace. */
  ghost predicate DifferOnlyOn(a: Env, b: Env, ns: string, rel: string) {
    && b == a.(tuples := b.tuples)
    && forall n: Node | n.ns != ns || n.rel != rel :: Subjects(a, n) == Subjects(b, n)
  }

  /** Everything the rewrite reads on node `n` is the same in both stores. */
  predicate ReadsAgree(a: Env, b: Env, n: Node, rw: Rewrite)
    decreases rw
  {
    match FormOf(rw)
    case This => Subjects(a, n) == Subjects(b, n)
    case AnyOf(children) => forall c | c in children :: ReadsAgree(a, b, n, c)
    case AllOf(children) => forall c | c in children :: ReadsAgree(a, b, n, c)
    case Except(included, excluded) => ReadsAgree(a, b, n, included) && ReadsAgree(a, b, n, excluded)
    case Computed(_) => true
    case Via(tupleset, _) => Subjects(a, Node(n.ns, n.obj, tupleset)) == Subjects(b, Node(n.ns, n.obj, tupleset))
  }

  ghost predicate StoresReadAlike(a: Env, b: Env) {
    && b == a.(tuples := b.tuples)
    && forall n: Node :: ReadsAgree(a, b, n, RewriteOf(a.model, n))
  }

  lemma {:induction false} RewriteSkipsInert(a: Env, b: Env, n: Node, rw: Rewrite, ns: string, rel: string)
    requires DifferOnlyOn(a, b, ns, rel)
    requires n.ns == ns && n.rel == rel ==> !ReadsStoredTuples(rw)
    requires n.ns == ns ==> !WalksTupleset(rw, rel)
    ensures ReadsAgree(a, b, n, rw)
    decreases rw
  {
    match FormOf(rw)
    case This =>
    case AnyOf(children) => forall c | c in children { RewriteSkipsInert(a, b, n, c, ns, rel); }
    case AllOf(children) => forall c | c in children { RewriteSkipsInert(a, b, n, c, ns, rel); }
    case Except(included, excluded) =>
      RewriteSkipsInert(a, b, n, included, ns, rel);
      RewriteSkipsInert(a, b, n, excluded, ns, rel);
    case Computed(_) =>
    case Via(_, _) =>
  }

  lemma InertStoresReadAlike(a: Env, b: Env, ns: string, rel: string)
    requires InertRelation(a.model, ns, rel) && DifferOnlyOn(a, b, ns, rel)
    ensures StoresReadAlike(a, b)
  {
    forall n: Node
      ensures ReadsAgree(a, b, n, RewriteOf(a.model, n))
    {
      RewriteSkipsInert(a, b, n, RewriteOf(a.model, n), ns, rel);
    }
  }

  // ---- the same Check ----

  lemma {:induction false} ReadsAgreeAlike(a: Env, b: Env, q: Query, n: Node, rw: Rewrite)
    requires b == a.(tuples := b.tuples) && ReadsAgree(a, b, n, rw)
    ensures Alike(Side(a, q), Side(b, q), n, rw, rw)
    decreases rw
  {
    match FormOf(rw)
    case AnyOf(children) => AllReadsAgreeAlike(a, b, q, n, children);
    case AllOf(children) => AllReadsAgreeAlike(a, b, q, n, children);
    case Except(included, excluded) =>
      ReadsAgreeAlike(a, b, q, n, included);
      ReadsAgreeAlike(a, b, q, n, excluded);
    case _ =>
  }

  lemma {:induction false} AllReadsAgreeAlike(a: Env, b: Env, q: Query, n: Node, children: seq<Rewrite>)
    requires b == a.(tuples := b.tuples) && forall c | c in children :: ReadsAgree(a, b, n, c)
    ensures AllAlike(Side(a, q), Side(b, q), n, children, children)
    decreases children
  {
    if children != [] {
      ReadsAgreeAlike(a, b, q, n, children[0]);
      AllReadsAgreeAlike(a, b, q, n, children[1..]);
    }
  }

  lemma SameTopCheck(a: Env, b: Env, q: Query, n: Node)
    requires StoresReadAlike(a, b)
    ensures TopCheck(a, q, n) == TopCheck(b, q, n)
  {
    forall m: Node
      ensures Alike(Side(a, q), Side(b, q), m, RewriteOf(a.model, m), RewriteOf(b.model, m))
    {
      ReadsAgreeAlike(a, b, q, m, RewriteOf(a.model, m));
    }
    SameCheck(Side(a, q), Side(b, q), n, false, {}, Fresh, 0);
  }

  // ---- the same expansion and resolution ----

  lemma {:induction false} ReadsAgreeList(a: Env, b: Env, n: Node, rw: Rewrite)
    requires ReadsAgree(a, b, n, rw)
    ensures ListsAgree(a, b, n, rw)
    decreases rw
  {
    match FormOf(rw)
    case AnyOf(children) => forall c | c in children { ReadsAgreeList(a, b, n, c); }
    case AllOf(children) => forall c | c in children { ReadsAgreeList(a, b, n, c); }
    case Except(included, excluded) =>
      ReadsAgreeList(a, b, n, included);
      ReadsAgreeList(a, b, n, excluded);
    case _ =>
  }

  lemma ReadAlikeListAlike(a: Env, b: Env)
    requires StoresReadAlike(a, b)
    ensures StoresListAlike(a, b)
  {
    forall n: Node ensures ListsAgree(a, b, n, RewriteOf(a.model, n)) {
      ReadsAgreeList(a, b, n, RewriteOf(a.model, n));
    }
  }

  lemma {:induction false} SameMemberReads(a: Env, b: Env, order: seq<string>, n: Node)
    requires StoresReadAlike(Unbudgeted(a), Unbudgeted(b))
    ensures MemberReads(a, order, n) == MemberReads(b, order, n)
    decreases |order|
  {
    if order != [] {
      SameTopCheck(Unbudgeted(a), Unbudgeted(b), ByUser(order[0]), n);
      SameMemberReads(a, b, order[1..], n);
    }
  }

  lemma SameCheckSet(a: Env, b: Env, from: Node, n: Node, order: seq<string>)
    requires StoresReadAlike(Unbudgeted(a), Unbudgeted(b))
    ensures Answer(a, from, n) == Answer(b, from, n) && Need(a, from, n, order) == Need(b, from, n, order)
  {
    ReadAlikeListAlike(Unbudgeted(a), Unbudgeted(b));
    SameTopCheck(Unbudgeted(a), Unbudgeted(b), BySet(from), n);
    SameResolve(Unbudgeted(a), Unbudgeted(b), from, {}, NoTally, 0);
    SameResolve(Unbudgeted(a), Unbudgeted(b), n, {}, NoTally, 0);
    SameMemberReads(a, b, order, n);
    forall u ensures ByMember(a, u, n) == ByMember(b, u, n) {
      SameTopCheck(Unbudgeted(a), Unbudgeted(b), ByUser(u), n);
    }
  }

  /** Tuples on an inert relation change no Check, no Expand, and no CheckSet answer or cost. */
  lemma InertTuplesChangeNothing(
      a: Env, b: Env, ns: string, rel: string, q: Query, n: Node, max: int, from: Node, order: seq<string>)
    requires InertRelation(a.model, ns, rel) && DifferOnlyOn(a, b, ns, rel)
    ensures TopCheck(a, q, n) == TopCheck(b, q, n)
    ensures TopExpand(a, n, max) == TopExpand(b, n, max)
    ensures Answer(a, from, n) == Answer(b, from, n) && Need(a, from, n, order) == Need(b, from, n, order)
  {
    InertStoresReadAlike(a, b, ns, rel);
    ReadAlikeListAlike(a, b);
    SameTopCheck(a, b, q, n);
    SameExpand(a, b, n, max, {}, NoTally, 0);
    var a0, b0 := Unbudgeted(a), Unbudgeted(b);
    assert DifferOnlyOn(a0, b0, ns, rel) by {
      forall m: Node | m.ns != ns || m.rel != rel ensures Subjects(a0, m) == Subjects(b0, m) {
        assert Subjects(a, m) == Subjects(b, m);
      }
    }
    InertStoresReadAlike(a0, b0, ns, rel);
    SameCheckSet(a, b, from, n, order);
  }

  // ---- the proviso is needed: a walked tupleset is read whatever its own rule says ----

  lemma FreeExpandSucceeds(e: Env, n: Node, rw: Rewrite, path: set<string>, t: Tally, depth: nat)
    requires depth <= e.maxDepth && e.maxReads == 0
    ensures ExpandRewrite(e, n, rw, 0, path, t, depth).res.Got?
  {
    assert Unbudgeted(e) == e;
    FanOutCut.ExpandRewriteCut(e, n, rw, 0, path, t, t, depth);
  }

  lemma FreeExpandListSucceeds(e: Env, n: Node, children: seq<Rewrite>, path: set<string>, t: Tally, depth: nat)
    requires depth <= e.maxDepth && e.maxReads == 0
    ensures ExpandList(e, n, children, 0, path, t, depth).res.Got?
  {
    assert Unbudgeted(e) == e;
    FanOutCut.ExpandListCut(e, n, children, 0, path, t, t, depth);
  }

  /** On an object with one pointer in one store and none in the other, a rule that walks it expands differently. */
  lemma {:induction false} WalkShows(
      a: Env, b: Env, n: Node, rw: Rewrite, rel: string, p: Subject, path: set<string>, s: Tally, t: Tally, depth: nat)
    requires depth <= a.maxDepth && a.maxReads == 0 && b == a.(tuples := b.tuples)
    requires Subjects(a, Node(n.ns, n.obj, rel)) == [] && Subjects(b, Node(n.ns, n.obj, rel)) == [p] && p.userset.Some?
    requires WalksTupleset(rw, rel)
    ensures ExpandRewrite(a, n, rw, 0, path, s, depth).res != ExpandRewrite(b, n, rw, 0, path, t, depth).res
    decreases rw
  {
    FreeExpandSucceeds(a, n, rw, path, s, depth);
    FreeExpandSucceeds(b, n, rw, path, t, depth);
    var s1, t1 := s.(count := s.count + 1), t.(count := t.count + 1);
    match FormOf(rw)
    case AnyOf(children) => WalkShowsInList(a, b, n, children, rel, p, path, s1, t1, depth);
    case AllOf(children) => WalkShowsInList(a, b, n, children, rel, p, path, s1, t1, depth);
    case Except(included, excluded) =>
      FreeExpandSucceeds(a, n, included, path, s1, depth);
      FreeExpandSucceeds(b, n, included, path, t1, depth);
      if WalksTupleset(included, rel) {
        WalkShows(a, b, n, included, rel, p, path, s1, t1, depth);
      } else {
        WalkShows(a, b, n, excluded, rel, p, path, ExpandRewrite(a, n, included, 0, path, s1, depth).st,
                  ExpandRewrite(b, n, included, 0, path, t1, depth).st, depth);
      }
    case Via(_, x) =>
      var t2 := t1.(readCount := t1.readCount + 1);
      assert ExpandPointers(b, x, [], 0, path, t2, depth).res == Got([]);
      assert ExpandRewrite(a, n, rw, 0, path, s, depth).res == Got(Bare(n));
  }

  lemma {:induction false} WalkShowsInList(
      a: Env, b: Env, n: Node, children: seq<Rewrite>, rel: string, p: Subject,
      path: set<string>, s: Tally, t: Tally, depth: nat)
    requires depth <= a.maxDepth && a.maxReads == 0 && b == a.(tuples := b.tuples)
    requires Subjects(a, Node(n.ns, n.obj, rel)) == [] && Subjects(b, Node(n.ns, n.obj, rel)) == [p] && p.userset.Some?
    requires exists c | c in children :: WalksTupleset(c, rel)
    ensures ExpandList(a, n, children, 0, path, s, depth).res != ExpandList(b, n, children, 0, path, t, depth).res
    decreases children
  {
    var x, y := ExpandRewrite(a, n, children[0], 0, path, s, depth),
        ExpandRewrite(b, n, children[0], 0, path, t, depth);
    FreeExpandSucceeds(a, n, children[0], path, s, depth);
    FreeExpandSucceeds(b, n, children[0], path, t, depth);
    FreeExpandListSucceeds(a, n, children[1..], path, x.st, depth);
    FreeExpandListSucceeds(b, n, children[1..], path, y.st, depth);
    var xs := ExpandList(a, n, children[1..], 0, path, x.st, depth).res.value;
    var ys := ExpandList(b, n, children[1..], 0, path, y.st, depth).res.value;
    if WalksTupleset(children[0], rel) {
      WalkShows(a, b, n, children[0], rel, p, path, s, t, depth);
      assert ([x.res.value] + xs)[0] != ([y.res.value] + ys)[0];
    } else {
      WalkShowsInList(a, b, n, children[1..], rel, p, path, x.st, y.st, depth);
      assert ([x.res.value] + xs)[1..] == xs && ([y.res.value] + ys)[1..] == ys;
    }
  }

  ghost predicate ExpandIgnores(m: Model, ns: string, rel: string, depth: nat) {
    forall a: Env, b: Env, n: Node | a.model == m && a.maxDepth == depth && a.maxReads == 0
        && DifferOnlyOn(a, b, ns, rel) ::
      TopExpand(a, n, 0).res == TopExpand(b, n, 0).res
  }

  /** For a computed-only relation: its tuples never show in an Expand exactly when no rule beside it walks it. */
  lemma ComputedOnlyIsInertIff(m: Model, ns: string, rel: string, depth: nat)
    requires !WritableRelation(m, ns, rel)
    ensures InertRelation(m, ns, rel) <==> ExpandIgnores(m, ns, rel, depth)
  {
    if InertRelation(m, ns, rel) {
      forall a: Env, b: Env, n: Node | a.model == m && a.maxDepth == depth && a.maxReads == 0
          && DifferOnlyOn(a, b, ns, rel)
        ensures TopExpand(a, n, 0).res == TopExpand(b, n, 0).res
      {
        InertStoresReadAlike(a, b, ns, rel);
        ReadAlikeListAlike(a, b);
        SameExpand(a, b, n, 0, {}, NoTally, 0);
      }
    } else {
      var r :| r in m[ns] && WalksTupleset(m[ns][r], rel);
      var n, pointer := Node(ns, "o", r), Subject("", Some(Node(ns, "p", "")), false, None);
      var a := Env(m, map[], {}, depth, 0);
      var b := a.(tuples := map[Node(ns, "o", rel) := [pointer]]);
      WalkShows(a, b, n, m[ns][r], rel, pointer, {VisitKey(n)}, NoTally, NoTally, 0);
      assert {} + {VisitKey(n)} == {VisitKey(n)};
      assert TopExpand(a, n, 0).res != TopExpand(b, n, 0).res;
      assert DifferOnlyOn(a, b, ns, rel);
    }
  }

  // ---- the same on decisions ----

  /** A rule that grants whatever it finds by walking `rel` and following `x`. */
  predicate WalksOpenly(rw: Rewrite, rel: string, x: string)
    decreases rw
  {
    match FormOf(rw)
    case AnyOf(children) => exists c | c in children :: WalksOpenly(c, rel, x)
    case Via(tupleset, y) => tupleset == rel && y == x
    case _ => false
  }

  /** No rule of the namespace walks the relation, or some rule walks it openly. */
  ghost predicate HidesNoWalk(m: Model, ns: string, rel: string)
    requires ns in m
  {
    (exists r | r in m[ns] :: WalksTupleset(m[ns][r], rel)) ==>
      exists r: string, x: string :: r in m[ns] && WalksOpenly(m[ns][r], rel, x)
  }

  ghost predicate CleanModel(m: Model) {
    forall ns: string, r: string | ns in m && r in m[ns] :: CleanNode(Node(ns, "", r)) && CleanRewrite(m[ns][r])
  }

  ghost predicate CheckIgnores(m: Model, ns: string, rel: string, depth: nat) {
    forall a: Env, b: Env, q: Query, n: Node | a.model == m && a.maxDepth == depth && DifferOnlyOn(a, b, ns, rel) ::
      TopCheck(a, q, n).res == TopCheck(b, q, n).res
  }

  /** A namespace the model does not declare. */
  lemma {:induction false} Undeclared(declared: set<string>) returns (ns: string)
    ensures ':' !in ns && forall d | d in declared :: |d| < |ns|
    decreases declared
  {
    if declared == {} {
      ns := "";
    } else {
      var d :| d in declared;
      ns := Undeclared(declared - {d});
      ns := ns + seq(|d| + 1, _ => 'n');
      assert forall x | x in declared :: x == d || x in declared - {d};
    }
  }

  lemma {:induction false} OpenWalkSettles(
      e: Env, u: string, n: Node, rw: Rewrite, rel: string, x: string, p: Subject, f: nat)
    requires WalksOpenly(rw, rel, x) && Subjects(e, Node(n.ns, n.obj, rel)) == [p]
    requires p.userset.Some? && p.condition.None?
    requires K(e, u, Node(p.userset.value.ns, p.userset.value.obj, x), f) == Known(true)
    ensures KRewrite(e, u, n, rw, f) == Known(true)
    decreases rw
  {
    match FormOf(rw)
    case AnyOf(children) => OpenWalkSettlesList(e, u, n, children, rel, x, p, f);
    case Via(_, _) => assert KSubjects(e, u, Through(x), [p], f) == Known(true);
  }

  lemma {:induction false} OpenWalkSettlesList(
      e: Env, u: string, n: Node, children: seq<Rewrite>, rel: string, x: string, p: Subject, f: nat)
    requires exists c | c in children :: WalksOpenly(c, rel, x)
    requires Subjects(e, Node(n.ns, n.obj, rel)) == [p] && p.userset.Some? && p.condition.None?
    requires K(e, u, Node(p.userset.value.ns, p.userset.value.obj, x), f) == Known(true)
    ensures KList(e, u, n, children, true, f) == Known(true)
    decreases children
  {
    if WalksOpenly(children[0], rel, x) {
      OpenWalkSettles(e, u, n, children[0], rel, x, p, f);
    } else {
      OpenWalkSettlesList(e, u, n, children[1..], rel, x, p, f);
    }
  }

  /** One pointer on an openly walked relation turns a no into a yes. */
  lemma OpenWalkDecides(m: Model, ns: string, rel: string, depth: nat, r: string, x: string)
    requires CleanModel(m) && ns in m && r in m[ns] && WalksOpenly(m[ns][r], rel, x) && depth >= 1
    ensures !CheckIgnores(m, ns, rel, depth)
  {
    var other := Undeclared(m.Keys);
    var n, held := Node(ns, "o", r), Node(other, "p", x);
    var user, pointer := Subject("u", None, false, None), Subject("", Some(Node(other, "p", "")), false, None);
    var a := Env(m, map[held := [user]], {}, depth, 0);
    var b := a.(tuples := map[held := [user], Node(ns, "o", rel) := [pointer]]);
    assert other != ns && other !in m;
    assert DifferOnlyOn(a, b, ns, rel);
    EmptyObjectDenied(a, "u", n, {}, Fresh, 0);
    OpenWalkGrants(b, n, rel, x, other, depth);
    assert TopCheck(a, ByUser("u"), n).res != TopCheck(b, ByUser("u"), n).res;
  }

  lemma OpenWalkGrants(b: Env, n: Node, rel: string, x: string, other: string, depth: nat)
    requires CleanModel(b.model) && CleanNode(n) && WalksOpenly(RewriteOf(b.model, n), rel, x) && depth >= 1
    requires other !in b.model && ':' !in other && other != n.ns
    requires var user, pointer := Subject("u", None, false, None), Subject("", Some(Node(other, "p", "")), false, None);
             b == Env(b.model, map[Node(other, "p", x) := [user], Node(n.ns, n.obj, rel) := [pointer]], {}, depth, 0)
    ensures TopCheck(b, ByUser("u"), n).res == Ok(true)
  {
    var user, pointer := Subject("u", None, false, None), Subject("", Some(Node(other, "p", "")), false, None);
    var held := Node(other, "p", x);
    assert Subjects(b, held) == [user] && Subjects(b, Node(n.ns, n.obj, rel)) == [pointer];
    assert KSubjects(b, "u", Direct, [user], 0) == Known(true);
    assert K(b, "u", held, 1) == Known(true);
    OpenWalkSettles(b, "u", n, RewriteOf(b.model, n), rel, x, pointer, 1);
    KMonotone(b, "u", n, 2, depth + 1);
    assert Clean(b);
    assert Unbudgeted(b) == b;
    TopCheckCut(b, ByUser("u"), n);
    TopCheckComplete(b, "u", n);
  }

  /**
   For a computed-only relation whose walks, if there are any, are not all hidden: its tuples never change a Check
   exactly when no rule beside it walks it.
   */
  lemma CheckIgnoresIff(m: Model, ns: string, rel: string, depth: nat)
    requires !WritableRelation(m, ns, rel) && CleanModel(m) && HidesNoWalk(m, ns, rel) && depth >= 1
    ensures InertRelation(m, ns, rel) <==> CheckIgnores(m, ns, rel, depth)
  {
    if InertRelation(m, ns, rel) {
      forall a: Env, b: Env, q: Query, n: Node | a.model == m && a.maxDepth == depth && DifferOnlyOn(a, b, ns, rel)
        ensures TopCheck(a, q, n).res == TopCheck(b, q, n).res
      {
        InertStoresReadAlike(a, b, ns, rel);
        SameTopCheck(a, b, q, n);
      }
    } else {
      var r: string, x: string :| r in m[ns] && WalksOpenly(m[ns][r], rel, x);
      OpenWalkDecides(m, ns, rel, depth, r, x);
    }
  }

  /** Built from unions, stored tuples, computed relations and tupleset walks only. */
  ghost predicate Additive(rw: Rewrite)
    decreases rw
  {
    match FormOf(rw)
    case AnyOf(children) => forall c | c in children :: Additive(c)
    case AllOf(_) => false
    case Except(_, _) => false
    case _ => true
  }

  lemma {:induction false} AdditiveWalksOpenly(rw: Rewrite, rel: string) returns (x: string)
    requires Additive(rw) && WalksTupleset(rw, rel)
    ensures WalksOpenly(rw, rel, x)
    decreases rw
  {
    match FormOf(rw)
    case AnyOf(children) =>
      var c :| c in children && WalksTupleset(c, rel);
      x := AdditiveWalksOpenly(c, rel);
    case Via(_, y) => x := y;
  }

  /** In particular in a namespace of additive rules, such as any of the default model. */
  lemma AdditiveCheckIgnoresIff(m: Model, ns: string, rel: string, depth: nat)
    requires !WritableRelation(m, ns, rel) && CleanModel(m) && depth >= 1
    requires forall r | r in m[ns] :: Additive(m[ns][r])
    ensures InertRelation(m, ns, rel) <==> CheckIgnores(m, ns, rel, depth)
  {
    if r :| r in m[ns] && WalksTupleset(m[ns][r], rel) {
      var x := AdditiveWalksOpenly(m[ns][r], rel);
      assert HidesNoWalk(m, ns, rel);
    }
    CheckIgnoresIff(m, ns, rel, depth);
  }

  /** An instance: a tuple on a computed-only relation opens access through a rule that walks it. */
  lemma WalkedTuplesetDecides()
    ensures exists a: Env, b: Env ::
              && !WritableRelation(a.model, "d", "parent") && DifferOnlyOn(a, b, "d", "parent")
              && TopCheck(a, ByUser("u"), Node("d", "o", "view")).res
              != TopCheck(b, ByUser("u"), Node("d", "o", "view")).res
  {
    var view := ThisRewrite.(tuplesetRelation := "parent", computedRelation := "own");
    var m: Model := map["d" := map["parent" := ThisRewrite.(computed := "home"), "view" := view]];
    var user, pointer := Subject("u", None, false, None), Subject("", Some(Node("d", "p", "")), false, None);
    var top, own, parent := Node("d", "o", "view"), Node("d", "p", "own"), Node("d", "o", "parent");
    var a := Env(m, map[own := [user]], {}, 32, 0);
    var b := a.(tuples := map[own := [user], parent := [pointer]]);
    var q, path, s := ByUser("u"), {} + {VisitKey(top)}, Charge(Fresh);
    assert VisitKey(own)[2] != VisitKey(top)[2];
    assert Subjects(a, parent) == [] && Subjects(b, parent) == [pointer];
    assert ReadAndWalk(b, q, Direct, [user], false, path + {VisitKey(own)}, s, 1).res == Ok(true);
    assert EvalRewrite(b, q, own, ThisRewrite, false, path + {VisitKey(own)}, s, 1).res == Ok(true);
    assert Check(b, q, own, false, path, s, 1).res == Ok(true);
    assert TargetOf(b, q, Through("own"), pointer) == Follow(own);
    assert EvalSubjects(b, q, Through("own"), [pointer], false, path, s, 0).res == Ok(true);
    assert EvalRewrite(b, q, top, view, false, path, Fresh, 0).res == Ok(true);
    assert EvalSubjects(a, q, Through("own"), [], false, path, s, 0).res == Ok(false);
    assert EvalRewrite(a, q, top, view, false, path, Fresh, 0).res == Ok(false);
    assert DifferOnlyOn(a, b, "d", "parent");
  }
}
