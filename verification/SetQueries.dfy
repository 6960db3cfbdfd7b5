/**
 What Check answers when it is asked about a whole userset (pkg/authz/engine.go): whether the userset itself, or the
 public, is stored somewhere along unions, computed relations and tupleset walks within the depth limit.
 */
module SetQueries {
  import opened AuthzModel
  import opened VisitKeys
  import opened Kleene
  import opened Evaluator
  import opened Soundness
  import opened Solutions
  import opened Conditions

  /** The userset is found within `f` levels. */
  ghost predicate SetReaches(e: Env, from: Node, n: Node, f: nat)
    decreases f, 0
  {
    f > 0 && RuleReaches(e, from, n, RewriteOf(e.model, n), f - 1)
  }

  ghost predicate RuleReaches(e: Env, from: Node, n: Node, rw: Rewrite, f: nat)
    decreases f, 2, rw
  {
    match FormOf(rw)
    case This => exists s | s in Subjects(e, n) :: GrantReaches(e, from, s, f)
    case AnyOf(children) => exists c | c in children :: RuleReaches(e, from, n, c, f)
    case Computed(rel) => SetReaches(e, from, Node(n.ns, n.obj, rel), f)
    case Via(tupleset, rel) =>
      exists s | s in Subjects(e, Node(n.ns, n.obj, tupleset)) :: PointerReaches(e, from, rel, s, f)
    case _ => false
  }

  /** A grant whose condition is met names the userset, or the public, or a userset that finds it. */
  ghost predicate GrantReaches(e: Env, from: Node, s: Subject, f: nat)
    decreases f, 1
  {
    && Met(s, e.holds)
    && (s.wildcard || s.userset == Some(from) || (s.userset.Some? && SetReaches(e, from, s.userset.value, f)))
  }

  /** A pointer whose condition is met leads to an object whose `rel` finds it. */
  ghost predicate PointerReaches(e: Env, from: Node, rel: string, s: Subject, f: nat)
    decreases f, 1
  {
    Met(s, e.holds) && s.userset.Some? && SetReaches(e, from, Node(s.userset.value.ns, s.userset.value.obj, rel), f)
  }

  ghost predicate SubjectReaches(e: Env, from: Node, walk: Walk, s: Subject, f: nat) {
    match walk
    case Direct => GrantReaches(e, from, s, f)
    case Through(rel) => PointerReaches(e, from, rel, s, f)
  }

  lemma {:induction false} ReachesMonotone(e: Env, from: Node, n: Node, f: nat, g: nat)
    requires SetReaches(e, from, n, f) && f <= g
    ensures SetReaches(e, from, n, g)
    decreases f, 0
  {
    RuleReachesMonotone(e, from, n, RewriteOf(e.model, n), f - 1, g - 1);
  }

  lemma {:induction false} RuleReachesMonotone(e: Env, from: Node, n: Node, rw: Rewrite, f: nat, g: nat)
    requires RuleReaches(e, from, n, rw, f) && f <= g
    ensures RuleReaches(e, from, n, rw, g)
    decreases f, 2, rw
  {
    match FormOf(rw)
    case This =>
      var s :| s in Subjects(e, n) && GrantReaches(e, from, s, f);
      SubjectReachesMonotone(e, from, Direct, s, f, g);
    case AnyOf(children) =>
      var c :| c in children && RuleReaches(e, from, n, c, f);
      RuleReachesMonotone(e, from, n, c, f, g);
    case Computed(rel) => ReachesMonotone(e, from, Node(n.ns, n.obj, rel), f, g);
    case Via(tupleset, rel) =>
      var s :| s in Subjects(e, Node(n.ns, n.obj, tupleset)) && PointerReaches(e, from, rel, s, f);
      SubjectReachesMonotone(e, from, Through(rel), s, f, g);
  }

  lemma {:induction false} SubjectReachesMonotone(e: Env, from: Node, walk: Walk, s: Subject, f: nat, g: nat)
    requires SubjectReaches(e, from, walk, s, f) && f <= g
    ensures SubjectReaches(e, from, walk, s, g)
    decreases f, 1
  {
    var t := TargetOf(e, BySet(from), walk, s);
    if t.Follow? && SetReaches(e, from, t.node, f) { ReachesMonotone(e, from, t.node, f, g); }
  }

  // ---- a yes ----

  /** The userset is found nowhere, however far one looks. */
  ghost predicate Never(e: Env, from: Node, n: Node) {
    forall f: nat :: !SetReaches(e, from, n, f)
  }

  ghost predicate RuleNever(e: Env, from: Node, n: Node, rw: Rewrite) {
    forall f: nat :: !RuleReaches(e, from, n, rw, f)
  }

  ghost predicate ListNever(e: Env, from: Node, n: Node, children: seq<Rewrite>) {
    forall c | c in children :: RuleNever(e, from, n, c)
  }

  ghost predicate SomeReaches(e: Env, from: Node, n: Node, children: seq<Rewrite>, f: nat) {
    exists c | c in children :: RuleReaches(e, from, n, c, f)
  }

  ghost predicate SubjectNever(e: Env, from: Node, walk: Walk, s: Subject) {
    forall f: nat :: !SubjectReaches(e, from, walk, s, f)
  }

  ghost predicate WalkNever(e: Env, from: Node, walk: Walk, subjects: seq<Subject>) {
    forall s | s in subjects :: SubjectNever(e, from, walk, s)
  }

  ghost predicate WalkReaches(e: Env, from: Node, walk: Walk, subjects: seq<Subject>, f: nat) {
    exists s | s in subjects :: SubjectReaches(e, from, walk, s, f)
  }

  lemma RuleNeverFromParts(e: Env, from: Node, n: Node, rw: Rewrite)
    requires match FormOf(rw)
             case This => WalkNever(e, from, Direct, Subjects(e, n))
             case AnyOf(children) => ListNever(e, from, n, children)
             case Computed(rel) => Never(e, from, Node(n.ns, n.obj, rel))
             case Via(tupleset, rel) => WalkNever(e, from, Through(rel), Subjects(e, Node(n.ns, n.obj, tupleset)))
             case _ => true
    ensures RuleNever(e, from, n, rw)
  {
    match FormOf(rw)
    case This =>
      forall s, f: nat | s in Subjects(e, n) ensures !GrantReaches(e, from, s, f) {
        assert SubjectNever(e, from, Direct, s) && !SubjectReaches(e, from, Direct, s, f);
      }
    case Via(tupleset, rel) =>
      forall s, f: nat | s in Subjects(e, Node(n.ns, n.obj, tupleset)) ensures !PointerReaches(e, from, rel, s, f) {
        assert SubjectNever(e, from, Through(rel), s) && !SubjectReaches(e, from, Through(rel), s, f);
      }
    case _ =>
  }

  /** A run that goes on remembers only nodes that never find the userset. */
  ghost predicate MemoNever(e: Env, from: Node, memo: map<string, bool>) {
    forall n: Node :: CleanNode(n) && MemoKey(n, false) in memo ==> !memo[MemoKey(n, false)] && Never(e, from, n)
  }

  /** What one step of a run leaves: on a no, a faithful memo, and a final no if nothing was cut. */
  ghost predicate Leaves(e: Env, from: Node, s: Scratch, o: Outcome, never: bool) {
    o.res == Ok(false) ==>
      s.cycles <= o.st.cycles && MemoNever(e, from, o.st.memo) && (o.st.cycles == s.cycles ==> never)
  }

  lemma MemoNeverExtends(e: Env, from: Node, memo: map<string, bool>, n: Node)
    requires MemoNever(e, from, memo) && CleanNode(n) && Never(e, from, n)
    ensures MemoNever(e, from, memo[MemoKey(n, false) := false])
  {
    forall m: Node | CleanNode(m) && MemoKey(m, false) == MemoKey(n, false) ensures m == n {
      MemoKeyInjective(m, false, n, false);
    }
  }

  lemma {:induction false} SetCheckFinds(e: Env, from: Node, n: Node, path: set<string>, s: Scratch, depth: nat)
    requires Clean(e) && CleanNode(n) && MemoNever(e, from, s.memo)
    ensures var o := Check(e, BySet(from), n, false, path, s, depth);
            && (o.res == Ok(true) ==> SetReaches(e, from, n, Room(e, depth)))
            && Leaves(e, from, s, o, Never(e, from, n))
    decreases Room(e, depth), 3
  {
    if VisitKey(n) in path || depth > e.maxDepth || MemoKey(n, false) in s.memo {
    } else {
      var rw, path1 := RewriteOf(e.model, n), path + {VisitKey(n)};
      SetRuleFinds(e, from, n, rw, path1, s, depth);
      var o := EvalRewrite(e, BySet(from), n, rw, false, path1, s, depth);
      if o.res == Ok(false) && o.st.cycles == s.cycles {
        forall f: nat ensures !SetReaches(e, from, n, f) {
          if f > 0 { assert !RuleReaches(e, from, n, rw, f - 1); }
        }
        MemoNeverExtends(e, from, o.st.memo, n);
      }
    }
  }

  lemma {:induction false} SetRuleFinds(
      e: Env, from: Node, n: Node, rw: Rewrite, path: set<string>, s: Scratch, depth: nat)
    requires depth <= e.maxDepth && Clean(e) && CleanNode(n) && CleanRewrite(rw) && MemoNever(e, from, s.memo)
    ensures var o := EvalRewrite(e, BySet(from), n, rw, false, path, s, depth);
            && (o.res == Ok(true) ==> RuleReaches(e, from, n, rw, Room(e, depth) - 1))
            && Leaves(e, from, s, o, RuleNever(e, from, n, rw))
    decreases Room(e, depth), 2, rw
  {
    match FormOf(rw) {
      case This =>
        SetWalkFinds(e, from, Direct, Subjects(e, n), path, Charge(s), depth);
        assert WalkReaches(e, from, Direct, Subjects(e, n), Room(e, depth) - 1) ==>
            exists x | x in Subjects(e, n) :: GrantReaches(e, from, x, Room(e, depth) - 1);
      case AnyOf(children) => SetListFinds(e, from, n, children, path, s, depth);
      case Computed(rel) => SetCheckFinds(e, from, Node(n.ns, n.obj, rel), path, s, depth + 1);
      case Via(tupleset, rel) =>
        var pointers := Subjects(e, Node(n.ns, n.obj, tupleset));
        SetWalkFinds(e, from, Through(rel), pointers, path, Charge(s), depth);
        assert WalkReaches(e, from, Through(rel), pointers, Room(e, depth) - 1) ==>
            exists x | x in pointers :: PointerReaches(e, from, rel, x, Room(e, depth) - 1);
      case _ =>
    }
    var o := EvalRewrite(e, BySet(from), n, rw, false, path, s, depth);
    if o.res == Ok(false) && o.st.cycles == s.cycles { RuleNeverFromParts(e, from, n, rw); }
  }

  lemma {:induction false} SetListFinds(
      e: Env, from: Node, n: Node, children: seq<Rewrite>, path: set<string>, s: Scratch, depth: nat)
    requires depth <= e.maxDepth && Clean(e) && CleanNode(n) && MemoNever(e, from, s.memo)
    requires forall c | c in children :: CleanRewrite(c)
    ensures var o := EvalList(e, BySet(from), n, children, true, false, path, s, depth);
            && (o.res == Ok(true) ==> SomeReaches(e, from, n, children, Room(e, depth) - 1))
            && Leaves(e, from, s, o, ListNever(e, from, n, children))
    decreases Room(e, depth), 2, children
  {
    if children != [] {
      assert children == [children[0]] + children[1..];
      SetRuleFinds(e, from, n, children[0], path, s, depth);
      var o := EvalRewrite(e, BySet(from), n, children[0], false, path, s, depth);
      if o.res == Ok(false) { SetListFinds(e, from, n, children[1..], path, o.st, depth); }
    }
  }

  lemma {:induction false} SetWalkFinds(
      e: Env, from: Node, walk: Walk, subjects: seq<Subject>, path: set<string>, s: Scratch, depth: nat)
    requires depth <= e.maxDepth && Clean(e) && MemoNever(e, from, s.memo)
    requires walk.Through? ==> '#' !in walk.rel
    requires forall x | x in subjects :: CleanSubject(x)
    ensures var o := EvalSubjects(e, BySet(from), walk, subjects, false, path, s, depth);
            && (o.res == Ok(true) ==> WalkReaches(e, from, walk, subjects, Room(e, depth) - 1))
            && Leaves(e, from, s, o, WalkNever(e, from, walk, subjects))
    decreases Room(e, depth), 1, |subjects|
  {
    if subjects != [] {
      var x, rest := subjects[0], subjects[1..];
      assert subjects == [x] + rest && CleanSubject(x);
      match TargetOf(e, BySet(from), walk, x)
      case Skip =>
        assert SubjectNever(e, from, walk, x);
        SetWalkFinds(e, from, walk, rest, path, s, depth);
      case Grant => assert SubjectReaches(e, from, walk, x, Room(e, depth) - 1);
      case Follow(m) =>
        SubjectIsFollowed(e, from, walk, x, m);
        SetCheckFinds(e, from, m, path, s, depth + 1);
        var o := Check(e, BySet(from), m, false, path, s, depth + 1);
        if o.res == Ok(false) { SetWalkFinds(e, from, walk, rest, path, o.st, depth); }
    }
  }

  lemma SubjectIsFollowed(e: Env, from: Node, walk: Walk, s: Subject, m: Node)
    requires TargetOf(e, BySet(from), walk, s) == Follow(m)
    ensures forall f: nat :: SubjectReaches(e, from, walk, s, f) <==> SetReaches(e, from, m, f)
    ensures SubjectNever(e, from, walk, s) <==> Never(e, from, m)
  {
    forall f: nat ensures SubjectReaches(e, from, walk, s, f) <==> SetReaches(e, from, m, f) {}
  }

  // ---- a no ----

  ghost predicate PathUnreached(e: Env, from: Node, path: set<string>, f: nat) {
    forall m: Node :: CleanNode(m) && VisitKey(m) in path ==> !SetReaches(e, from, m, f)
  }

  lemma PathUnreachedBelow(e: Env, from: Node, path: set<string>, f: nat)
    requires f > 0 && PathUnreached(e, from, path, f)
    ensures PathUnreached(e, from, path, f - 1)
  {
    forall m: Node | CleanNode(m) && VisitKey(m) in path ensures !SetReaches(e, from, m, f - 1) {
      if SetReaches(e, from, m, f - 1) { ReachesMonotone(e, from, m, f - 1, f); }
    }
  }

  lemma PathUnreachedEnter(e: Env, from: Node, n: Node, path: set<string>, f: nat)
    requires CleanNode(n) && PathUnreached(e, from, path, f) && !SetReaches(e, from, n, f)
    ensures PathUnreached(e, from, path + {VisitKey(n)}, f)
  {
    forall m: Node | CleanNode(m) && VisitKey(m) in path + {VisitKey(n)} ensures !SetReaches(e, from, m, f) {
      if VisitKey(m) == VisitKey(n) { VisitKeyInjective(m, n); }
    }
  }

  lemma {:induction false} SetCheckComplete(
      e: Env, from: Node, n: Node, path: set<string>, s: Scratch, depth: nat, f: nat)
    requires Clean(e) && CleanNode(n) && MemoNever(e, from, s.memo)
    requires f <= Room(e, depth) && PathUnreached(e, from, path, f) && SetReaches(e, from, n, f)
    ensures Check(e, BySet(from), n, false, path, s, depth).res != Ok(false)
    decreases Room(e, depth), 3, f
  {
    PathUnreachedBelow(e, from, path, f);
    if SetReaches(e, from, n, f - 1) {
      SetCheckComplete(e, from, n, path, s, depth, f - 1);
    } else {
      PathUnreachedEnter(e, from, n, path, f - 1);
      SetRuleComplete(e, from, n, RewriteOf(e.model, n), path + {VisitKey(n)}, s, depth, f - 1);
    }
  }

  lemma {:induction false} SetRuleComplete(
      e: Env, from: Node, n: Node, rw: Rewrite, path: set<string>, s: Scratch, depth: nat, f: nat)
    requires depth <= e.maxDepth && Clean(e) && CleanNode(n) && CleanRewrite(rw) && MemoNever(e, from, s.memo)
    requires f < Room(e, depth) && PathUnreached(e, from, path, f) && RuleReaches(e, from, n, rw, f)
    ensures EvalRewrite(e, BySet(from), n, rw, false, path, s, depth).res != Ok(false)
    decreases Room(e, depth), 2, rw
  {
    match FormOf(rw)
    case This =>
      assert exists x | x in Subjects(e, n) :: SubjectReaches(e, from, Direct, x, f);
      SetWalkComplete(e, from, Direct, Subjects(e, n), path, Charge(s), depth, f);
    case AnyOf(children) => SetListComplete(e, from, n, children, path, s, depth, f);
    case Computed(rel) => SetCheckComplete(e, from, Node(n.ns, n.obj, rel), path, s, depth + 1, f);
    case Via(tupleset, rel) =>
      var pointers := Subjects(e, Node(n.ns, n.obj, tupleset));
      assert exists x | x in pointers :: SubjectReaches(e, from, Through(rel), x, f);
      SetWalkComplete(e, from, Through(rel), pointers, path, Charge(s), depth, f);
  }

  lemma {:induction false} SetListComplete(
      e: Env, from: Node, n: Node, children: seq<Rewrite>, path: set<string>, s: Scratch, depth: nat, f: nat)
    requires depth <= e.maxDepth && Clean(e) && CleanNode(n) && MemoNever(e, from, s.memo)
    requires forall c | c in children :: CleanRewrite(c)
    requires f < Room(e, depth) && PathUnreached(e, from, path, f) && SomeReaches(e, from, n, children, f)
    ensures EvalList(e, BySet(from), n, children, true, false, path, s, depth).res != Ok(false)
    decreases Room(e, depth), 2, children
  {
    assert children == [children[0]] + children[1..];
    if RuleReaches(e, from, n, children[0], f) {
      SetRuleComplete(e, from, n, children[0], path, s, depth, f);
    } else {
      SetRuleFinds(e, from, n, children[0], path, s, depth);
      var o := EvalRewrite(e, BySet(from), n, children[0], false, path, s, depth);
      if o.res == Ok(false) { SetListComplete(e, from, n, children[1..], path, o.st, depth, f); }
    }
  }

  lemma {:induction false} SetWalkComplete(
      e: Env, from: Node, walk: Walk, subjects: seq<Subject>, path: set<string>, s: Scratch, depth: nat, f: nat)
    requires depth <= e.maxDepth && Clean(e) && MemoNever(e, from, s.memo)
    requires walk.Through? ==> '#' !in walk.rel
    requires forall x | x in subjects :: CleanSubject(x)
    requires f < Room(e, depth) && PathUnreached(e, from, path, f) && WalkReaches(e, from, walk, subjects, f)
    ensures EvalSubjects(e, BySet(from), walk, subjects, false, path, s, depth).res != Ok(false)
    decreases Room(e, depth), 1, |subjects|
  {
    var x, rest := subjects[0], subjects[1..];
    assert subjects == [x] + rest && CleanSubject(x);
    match TargetOf(e, BySet(from), walk, x)
    case Skip =>
      assert SubjectNever(e, from, walk, x);
      SetWalkComplete(e, from, walk, rest, path, s, depth, f);
    case Grant =>
    case Follow(m) =>
      SubjectIsFollowed(e, from, walk, x, m);
      if SetReaches(e, from, m, f) {
        SetCheckComplete(e, from, m, path, s, depth + 1, f);
      } else {
        SetCheckFinds(e, from, m, path, s, depth + 1);
        var o := Check(e, BySet(from), m, false, path, s, depth + 1);
        if o.res == Ok(false) { SetWalkComplete(e, from, walk, rest, path, o.st, depth, f); }
      }
  }

  /** Unless the budget runs out, a set query is answered yes exactly when the userset is found within the depth. */
  lemma SetQueryIff(e: Env, from: Node, n: Node)
    requires Clean(e) && CleanNode(n)
    ensures var r := TopCheck(e, BySet(from), n).res;
            r.Ok? ==> (r.allowed <==> SetReaches(e, from, n, e.maxDepth + 1))
  {
    SetCheckFinds(e, from, n, {}, Fresh, 0);
    if SetReaches(e, from, n, e.maxDepth + 1) { SetCheckComplete(e, from, n, {}, Fresh, 0, e.maxDepth + 1); }
  }

  // ---- a structural match means inclusion ----

  /** Every user settled true in `from` is settled true in `n`. */
  ghost predicate Included(e: Env, from: Node, n: Node) {
    forall u: string :: Is(e, u, from, true) ==> Is(e, u, n, true)
  }

  lemma {:induction false} ReachedIncludes(e: Env, from: Node, n: Node, f: nat, u: string)
    requires SetReaches(e, from, n, f) && Is(e, u, from, true)
    ensures Is(e, u, n, true)
    decreases f, 0
  {
    SettledNodesBalance(e, u);
    RuleIncludes(e, from, n, RewriteOf(e.model, n), f - 1, u);
  }

  lemma {:induction false} RuleIncludes(e: Env, from: Node, n: Node, rw: Rewrite, f: nat, u: string)
    requires RuleReaches(e, from, n, rw, f) && Is(e, u, from, true)
    ensures Sat(e, u, TrueNodes(e, u), OpenNodes(e, u), n, rw)
    decreases f, 2, rw
  {
    match FormOf(rw)
    case This =>
      var s :| s in Subjects(e, n) && GrantReaches(e, from, s, f);
      SubjectIncludes(e, from, Direct, s, f, u);
    case AnyOf(children) =>
      var c :| c in children && RuleReaches(e, from, n, c, f);
      RuleIncludes(e, from, n, c, f, u);
    case Computed(rel) => ReachedIncludes(e, from, Node(n.ns, n.obj, rel), f, u);
    case Via(tupleset, rel) =>
      var s :| s in Subjects(e, Node(n.ns, n.obj, tupleset)) && PointerReaches(e, from, rel, s, f);
      SubjectIncludes(e, from, Through(rel), s, f, u);
  }

  lemma {:induction false} SubjectIncludes(e: Env, from: Node, walk: Walk, s: Subject, f: nat, u: string)
    requires SubjectReaches(e, from, walk, s, f) && Is(e, u, from, true)
    ensures TargetSat(TrueNodes(e, u), TargetOf(e, ByUser(u), walk, s))
    decreases f, 1
  {
    var t := TargetOf(e, ByUser(u), walk, s);
    if t.Follow? && SetReaches(e, from, t.node, f) { ReachedIncludes(e, from, t.node, f, u); }
  }

  /** A set query answered yes means every user of the queried set is one of the target. */
  lemma StructuralMatchIsInclusion(e: Env, from: Node, n: Node)
    requires Clean(e) && CleanNode(n)
    ensures TopCheck(e, BySet(from), n).res == Ok(true) ==> Included(e, from, n)
  {
    SetQueryIff(e, from, n);
    if SetReaches(e, from, n, e.maxDepth + 1) {
      forall u: string | Is(e, u, from, true) { ReachedIncludes(e, from, n, e.maxDepth + 1, u); }
    }
  }
}
