/**
 What memoization saves (pkg/authz/engine.go): in a run that meets no cycle or depth cut, every
 (node, polarity) pair is evaluated at most once, so reads are bounded by the read leaves of the
 pairs newly entered in the memo.
 */
module Cost {
  import opened AuthzModel
  import opened VisitKeys
  import opened Evaluator
  import opened Soundness

  /** The store reads written out in a rewrite: its `this` and tuple-to-userset leaves. */
  function Leaves(rw: Rewrite): nat
    decreases rw
  {
    match FormOf(rw)
    case This => 1
    case AnyOf(children) => ListLeaves(children)
    case AllOf(children) => ListLeaves(children)
    case Except(included, excluded) => Leaves(included) + Leaves(excluded)
    case Computed(_) => 0
    case Via(_, _) => 1
  }

  function ListLeaves(children: seq<Rewrite>): nat
    decreases children
  {
    if children == [] then 0 else Leaves(children[0]) + ListLeaves(children[1..])
  }

  // ---- the total cost of a set of memo keys ----

  ghost predicate KeyOf(k: string, n: Node) {
    CleanNode(n) && exists neg: bool :: MemoKey(n, neg) == k
  }

  ghost function Weight(e: Env, k: string): nat {
    if exists n: Node :: KeyOf(k, n) then (var n: Node :| KeyOf(k, n); Leaves(RewriteOf(e.model, n))) else 0
  }

  lemma WeightOfKey(e: Env, n: Node, neg: bool)
    requires CleanNode(n)
    ensures Weight(e, MemoKey(n, neg)) == Leaves(RewriteOf(e.model, n))
  {
    var k := MemoKey(n, neg);
    assert KeyOf(k, n);
    forall m: Node | KeyOf(k, m)
      ensures m == n
    {
      var b: bool :| MemoKey(m, b) == k;
      MemoKeyInjective(m, b, n, neg);
    }
  }

  ghost function TotalWeight(e: Env, ks: set<string>): nat {
    if ks == {} then 0 else var k :| k in ks; Weight(e, k) + TotalWeight(e, ks - {k})
  }

  lemma {:induction false} TotalWeightRemove(e: Env, ks: set<string>, k: string)
    requires k in ks
    ensures TotalWeight(e, ks) == Weight(e, k) + TotalWeight(e, ks - {k})
    decreases ks
  {
    var j :| j in ks && TotalWeight(e, ks) == Weight(e, j) + TotalWeight(e, ks - {j});
    if j != k {
      TotalWeightRemove(e, ks - {j}, k);
      TotalWeightRemove(e, ks - {k}, j);
      assert ks - {j} - {k} == ks - {k} - {j};
    }
  }

  lemma {:induction false} TotalWeightUnion(e: Env, a: set<string>, b: set<string>)
    requires a !! b
    ensures TotalWeight(e, a + b) == TotalWeight(e, a) + TotalWeight(e, b)
    decreases a
  {
    if a == {} {
      assert a + b == b;
    } else {
      var k :| k in a;
      TotalWeightRemove(e, a, k);
      TotalWeightRemove(e, a + b, k);
      assert a + b - {k} == (a - {k}) + b;
      TotalWeightUnion(e, a - {k}, b);
    }
  }

  // ---- the bound ----

  ghost function NewKeys(s: Scratch, t: Scratch): set<string> {
    t.memo.Keys - s.memo.Keys
  }

  /** A run only adds memo keys, and never one of a node on its own path. */
  ghost predicate Grows(path: set<string>, s: Scratch, t: Scratch) {
    && s.memo.Keys <= t.memo.Keys && s.cycles <= t.cycles
    && forall m: Node, b: bool :: CleanNode(m) && VisitKey(m) in path && MemoKey(m, b) in t.memo
        ==> MemoKey(m, b) in s.memo
  }

  /** Reads of the run from `s` to `o`, if it was clean, are at most `extra` plus its new entries' leaves. */
  ghost predicate Bounded(e: Env, s: Scratch, o: Outcome, extra: nat) {
    o.res.Ok? && o.st.cycles == s.cycles ==> o.st.readCount <= s.readCount + extra + TotalWeight(e, NewKeys(s, o.st))
  }

  lemma GrowsThen(e: Env, path: set<string>, s: Scratch, t: Scratch, u: Scratch)
    requires Grows(path, s, t) && Grows(path, t, u)
    ensures Grows(path, s, u)
    ensures TotalWeight(e, NewKeys(s, u)) == TotalWeight(e, NewKeys(s, t)) + TotalWeight(e, NewKeys(t, u))
  {
    assert NewKeys(s, u) == NewKeys(s, t) + NewKeys(t, u);
    TotalWeightUnion(e, NewKeys(s, t), NewKeys(t, u));
  }

  lemma {:induction false} CheckCost(
      e: Env, q: Query, n: Node, neg: bool, path: set<string>, s: Scratch, depth: nat)
    requires Clean(e) && CleanNode(n)
    ensures var o := Check(e, q, n, neg, path, s, depth);
            Grows(path, s, o.st) && Bounded(e, s, o, 0)
    decreases Room(e, depth), 3
  {
    if VisitKey(n) in path || depth > e.maxDepth || MemoKey(n, neg) in s.memo {
    } else {
      var rw, k := RewriteOf(e.model, n), MemoKey(n, neg);
      RewriteCost(e, q, n, rw, neg, path + {VisitKey(n)}, s, depth);
      var inner := EvalRewrite(e, q, n, rw, neg, path + {VisitKey(n)}, s, depth);
      var o := Check(e, q, n, neg, path, s, depth);
      forall m: Node, b: bool | CleanNode(m) && VisitKey(m) in path && MemoKey(m, b) in o.st.memo
        ensures MemoKey(m, b) in s.memo
      {
        if MemoKey(m, b) == k { MemoKeyInjective(m, b, n, neg); }
      }
      if inner.res.Ok? && inner.st.cycles == s.cycles {
        assert VisitKey(n) in path + {VisitKey(n)};
        assert NewKeys(s, o.st) - {k} == NewKeys(s, inner.st);
        TotalWeightRemove(e, NewKeys(s, o.st), k);
        WeightOfKey(e, n, neg);
      }
    }
  }

  lemma {:induction false} RewriteCost(
      e: Env, q: Query, n: Node, rw: Rewrite, neg: bool, path: set<string>, s: Scratch, depth: nat)
    requires depth <= e.maxDepth && Clean(e) && CleanNode(n) && CleanRewrite(rw)
    ensures var o := EvalRewrite(e, q, n, rw, neg, path, s, depth);
            Grows(path, s, o.st) && Bounded(e, s, o, Leaves(rw))
    decreases Room(e, depth), 2, rw
  {
    match FormOf(rw)
    case This => ReadCost(e, q, Direct, Subjects(e, n), neg, path, s, depth);
    case AnyOf(children) => ListCost(e, q, n, children, true, neg, path, s, depth);
    case AllOf(children) => if q.ByUser? { ListCost(e, q, n, children, false, neg, path, s, depth); }
    case Except(_, _) => if q.ByUser? { ExceptCost(e, q, n, rw, neg, path, s, depth); }
    case Computed(rel) => CheckCost(e, q, Node(n.ns, n.obj, rel), neg, path, s, depth + 1);
    case Via(tupleset, rel) =>
      ReadCost(e, q, Through(rel), Subjects(e, Node(n.ns, n.obj, tupleset)), neg, path, s, depth);
  }

  lemma {:induction false} ExceptCost(
      e: Env, q: Query, n: Node, rw: Rewrite, neg: bool, path: set<string>, s: Scratch, depth: nat)
    requires depth <= e.maxDepth && Clean(e) && CleanNode(n) && CleanRewrite(rw)
    requires q.ByUser? && FormOf(rw).Except?
    ensures var o := EvalRewrite(e, q, n, rw, neg, path, s, depth);
            Grows(path, s, o.st) && Bounded(e, s, o, Leaves(rw))
    decreases Room(e, depth), 2, rw, 0
  {
    var Except(included, excluded) := FormOf(rw);
    RewriteCost(e, q, n, included, neg, path, s, depth);
    var inc := EvalRewrite(e, q, n, included, neg, path, s, depth);
    if inc.res == Ok(true) {
      RewriteCost(e, q, n, excluded, !neg, path, inc.st, depth);
      var exc := EvalRewrite(e, q, n, excluded, !neg, path, inc.st, depth);
      GrowsThen(e, path, s, inc.st, exc.st);
    }
  }

  lemma {:induction false} ListCost(
      e: Env, q: Query, n: Node, children: seq<Rewrite>, stop: bool,
      neg: bool, path: set<string>, s: Scratch, depth: nat)
    requires depth <= e.maxDepth && Clean(e) && CleanNode(n)
    requires forall c | c in children :: CleanRewrite(c)
    ensures var o := EvalList(e, q, n, children, stop, neg, path, s, depth);
            Grows(path, s, o.st) && Bounded(e, s, o, ListLeaves(children))
    decreases Room(e, depth), 2, children
  {
    if children != [] {
      RewriteCost(e, q, n, children[0], neg, path, s, depth);
      var head := EvalRewrite(e, q, n, children[0], neg, path, s, depth);
      if head.res == Ok(!stop) {
        ListCost(e, q, n, children[1..], stop, neg, path, head.st, depth);
        var rest := EvalList(e, q, n, children[1..], stop, neg, path, head.st, depth);
        GrowsThen(e, path, s, head.st, rest.st);
      }
    }
  }

  lemma {:induction false} ReadCost(
      e: Env, q: Query, walk: Walk, subjects: seq<Subject>,
      neg: bool, path: set<string>, s: Scratch, depth: nat)
    requires depth <= e.maxDepth && Clean(e)
    requires walk.Through? ==> '#' !in walk.rel
    requires forall x | x in subjects :: CleanSubject(x)
    ensures var o := ReadAndWalk(e, q, walk, subjects, neg, path, s, depth);
            Grows(path, s, o.st) && Bounded(e, s, o, 1)
    decreases Room(e, depth), 1, |subjects| + 1
  {
    if !OverBudget(e, Charge(s)) {
      SubjectsCost(e, q, walk, subjects, neg, path, Charge(s), depth);
      var o := EvalSubjects(e, q, walk, subjects, neg, path, Charge(s), depth);
      assert NewKeys(Charge(s), o.st) == NewKeys(s, o.st);
    }
  }

  lemma {:induction false} SubjectsCost(
      e: Env, q: Query, walk: Walk, subjects: seq<Subject>,
      neg: bool, path: set<string>, s: Scratch, depth: nat)
    requires depth <= e.maxDepth && Clean(e)
    requires walk.Through? ==> '#' !in walk.rel
    requires forall x | x in subjects :: CleanSubject(x)
    ensures var o := EvalSubjects(e, q, walk, subjects, neg, path, s, depth);
            Grows(path, s, o.st) && Bounded(e, s, o, 0)
    decreases Room(e, depth), 1, |subjects|
  {
    if subjects != [] {
      assert CleanSubject(subjects[0]);
      match TargetOf(e, q, walk, subjects[0])
      case Skip => SubjectsCost(e, q, walk, subjects[1..], neg, path, s, depth);
      case Grant =>
      case Follow(m) =>
        CheckCost(e, q, m, neg, path, s, depth + 1);
        var head := Check(e, q, m, neg, path, s, depth + 1);
        if head.res == Ok(false) {
          SubjectsCost(e, q, walk, subjects[1..], neg, path, head.st, depth);
          var rest := EvalSubjects(e, q, walk, subjects[1..], neg, path, head.st, depth);
          GrowsThen(e, path, s, head.st, rest.st);
        }
    }
  }

  /** A clean request reads at most once per read leaf of each pair it memoized. */
  lemma CleanRequestCost(e: Env, q: Query, n: Node)
    requires Clean(e) && CleanNode(n)
    ensures var o := TopCheck(e, q, n);
            o.res.Ok? && o.st.cycles == 0 ==> o.st.readCount <= TotalWeight(e, o.st.memo.Keys)
  {
    CheckCost(e, q, n, false, {}, Fresh, 0);
    var o := TopCheck(e, q, n);
    assert NewKeys(Fresh, o.st) == o.st.memo.Keys;
  }
}
