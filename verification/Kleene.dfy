/**
 The reference meaning of a relation: a strong three-valued reading of the rewrite equations,
 indexed by how many nodes deep it may look. `Unknown` means the looked-at part of the tuple
 graph does not settle the question.
 */
module Kleene {
  import opened AuthzModel

  datatype Truth = Unknown | Known(value: bool)

  /** Strong conjunction (stop == false) or disjunction (stop == true). */
  function Join(stop: bool, a: Truth, b: Truth): Truth {
    if a == Known(stop) || b == Known(stop) then Known(stop)
    else if a == Known(!stop) then b
    else Unknown
  }

  function Not(a: Truth): Truth {
    if a.Known? then Known(!a.value) else Unknown
  }

  function K(e: Env, u: string, n: Node, fuel: nat): Truth
    decreases fuel, 0
  {
    if fuel == 0 then Unknown else KRewrite(e, u, n, RewriteOf(e.model, n), fuel - 1)
  }

  function KRewrite(e: Env, u: string, n: Node, rw: Rewrite, fuel: nat): Truth
    decreases fuel, 3, rw
  {
    match FormOf(rw)
    case This => KSubjects(e, u, Direct, Subjects(e, n), fuel)
    case AnyOf(children) => KList(e, u, n, children, true, fuel)
    case AllOf(children) => KList(e, u, n, children, false, fuel)
    case Except(included, excluded) =>
      Join(false, KRewrite(e, u, n, included, fuel), Not(KRewrite(e, u, n, excluded, fuel)))
    case Computed(rel) => K(e, u, Node(n.ns, n.obj, rel), fuel)
    case Via(tupleset, rel) => KSubjects(e, u, Through(rel), Subjects(e, Node(n.ns, n.obj, tupleset)), fuel)
  }

  function KList(e: Env, u: string, n: Node, children: seq<Rewrite>, stop: bool, fuel: nat): Truth
    decreases fuel, 3, children
  {
    if children == [] then Known(!stop)
    else Join(stop, KRewrite(e, u, n, children[0], fuel), KList(e, u, n, children[1..], stop, fuel))
  }

  function KSubjects(e: Env, u: string, walk: Walk, subjects: seq<Subject>, fuel: nat): Truth
    decreases fuel, 2, |subjects|
  {
    if subjects == [] then Known(false)
    else Join(true, KTarget(e, u, TargetOf(e, ByUser(u), walk, subjects[0]), fuel),
              KSubjects(e, u, walk, subjects[1..], fuel))
  }

  function KTarget(e: Env, u: string, t: Target, fuel: nat): Truth
    decreases fuel, 1
  {
    match t
    case Skip => Known(false)
    case Grant => Known(true)
    case Follow(m) => K(e, u, m, fuel)
  }

  // ---- a settled answer stays settled with more fuel ----

  lemma {:induction false} KMonotone(e: Env, u: string, n: Node, f: nat, g: nat)
    requires f <= g && K(e, u, n, f).Known?
    ensures K(e, u, n, g) == K(e, u, n, f)
    decreases f, 0
  {
    KRewriteMonotone(e, u, n, RewriteOf(e.model, n), f - 1, g - 1);
  }

  lemma {:induction false} KRewriteMonotone(e: Env, u: string, n: Node, rw: Rewrite, f: nat, g: nat)
    requires f <= g && KRewrite(e, u, n, rw, f).Known?
    ensures KRewrite(e, u, n, rw, g) == KRewrite(e, u, n, rw, f)
    decreases f, 3, rw
  {
    match FormOf(rw)
    case This => KSubjectsMonotone(e, u, Direct, Subjects(e, n), f, g);
    case AnyOf(children) => KListMonotone(e, u, n, children, true, f, g);
    case AllOf(children) => KListMonotone(e, u, n, children, false, f, g);
    case Except(included, excluded) =>
      if KRewrite(e, u, n, included, f).Known? { KRewriteMonotone(e, u, n, included, f, g); }
      if KRewrite(e, u, n, excluded, f).Known? { KRewriteMonotone(e, u, n, excluded, f, g); }
    case Computed(rel) => KMonotone(e, u, Node(n.ns, n.obj, rel), f, g);
    case Via(tupleset, rel) =>
      KSubjectsMonotone(e, u, Through(rel), Subjects(e, Node(n.ns, n.obj, tupleset)), f, g);
  }

  lemma {:induction false} KListMonotone(
      e: Env, u: string, n: Node, children: seq<Rewrite>, stop: bool, f: nat, g: nat)
    requires f <= g && KList(e, u, n, children, stop, f).Known?
    ensures KList(e, u, n, children, stop, g) == KList(e, u, n, children, stop, f)
    decreases f, 3, children
  {
    if children != [] {
      if KRewrite(e, u, n, children[0], f).Known? { KRewriteMonotone(e, u, n, children[0], f, g); }
      if KList(e, u, n, children[1..], stop, f).Known? { KListMonotone(e, u, n, children[1..], stop, f, g); }
    }
  }

  lemma {:induction false} KSubjectsMonotone(
      e: Env, u: string, walk: Walk, subjects: seq<Subject>, f: nat, g: nat)
    requires f <= g && KSubjects(e, u, walk, subjects, f).Known?
    ensures KSubjects(e, u, walk, subjects, g) == KSubjects(e, u, walk, subjects, f)
    decreases f, 2, |subjects|
  {
    if subjects != [] {
      var t := TargetOf(e, ByUser(u), walk, subjects[0]);
      if t.Follow? && K(e, u, t.node, f).Known? { KMonotone(e, u, t.node, f, g); }
      if KSubjects(e, u, walk, subjects[1..], f).Known? { KSubjectsMonotone(e, u, walk, subjects[1..], f, g); }
    }
  }

  // ---- the settled value of a node, at whatever fuel settles it ----

  ghost predicate Is(e: Env, u: string, n: Node, v: bool) {
    exists f: nat :: K(e, u, n, f) == Known(v)
  }

  ghost predicate RewriteIs(e: Env, u: string, n: Node, rw: Rewrite, v: bool) {
    exists f: nat :: KRewrite(e, u, n, rw, f) == Known(v)
  }

  ghost predicate ListIs(e: Env, u: string, n: Node, children: seq<Rewrite>, stop: bool, v: bool) {
    exists f: nat :: KList(e, u, n, children, stop, f) == Known(v)
  }

  ghost predicate SubjectsAre(e: Env, u: string, walk: Walk, subjects: seq<Subject>, v: bool) {
    exists f: nat :: KSubjects(e, u, walk, subjects, f) == Known(v)
  }

  /** No node is settled both ways. */
  lemma IsConsistent(e: Env, u: string, n: Node, f: nat, v: bool)
    requires Is(e, u, n, v) && K(e, u, n, f).Known?
    ensures K(e, u, n, f) == Known(v)
  {
    var g: nat :| K(e, u, n, g) == Known(v);
    if f <= g { KMonotone(e, u, n, f, g); } else { KMonotone(e, u, n, g, f); }
  }

  lemma NodeFromRewrite(e: Env, u: string, n: Node, v: bool)
    requires RewriteIs(e, u, n, RewriteOf(e.model, n), v)
    ensures Is(e, u, n, v)
  {
    var f: nat :| KRewrite(e, u, n, RewriteOf(e.model, n), f) == Known(v);
    assert K(e, u, n, f + 1) == Known(v);
  }

  lemma RewriteFromParts(e: Env, u: string, n: Node, rw: Rewrite, v: bool)
    requires match FormOf(rw)
             case This => SubjectsAre(e, u, Direct, Subjects(e, n), v)
             case AnyOf(children) => ListIs(e, u, n, children, true, v)
             case AllOf(children) => ListIs(e, u, n, children, false, v)
             case Except(included, excluded) =>
               if v then RewriteIs(e, u, n, included, true) && RewriteIs(e, u, n, excluded, false)
               else RewriteIs(e, u, n, included, false) || RewriteIs(e, u, n, excluded, true)
             case Computed(rel) => Is(e, u, Node(n.ns, n.obj, rel), v)
             case Via(tupleset, rel) =>
               SubjectsAre(e, u, Through(rel), Subjects(e, Node(n.ns, n.obj, tupleset)), v)
    ensures RewriteIs(e, u, n, rw, v)
  {
    match FormOf(rw)
    case This =>
      var f: nat :| KSubjects(e, u, Direct, Subjects(e, n), f) == Known(v);
      assert KRewrite(e, u, n, rw, f) == Known(v);
    case AnyOf(children) =>
      var f: nat :| KList(e, u, n, children, true, f) == Known(v);
      assert KRewrite(e, u, n, rw, f) == Known(v);
    case AllOf(children) =>
      var f: nat :| KList(e, u, n, children, false, f) == Known(v);
      assert KRewrite(e, u, n, rw, f) == Known(v);
    case Except(included, excluded) =>
      if v {
        var f: nat :| KRewrite(e, u, n, included, f) == Known(true);
        var g: nat :| KRewrite(e, u, n, excluded, g) == Known(false);
        KRewriteMonotone(e, u, n, included, f, f + g);
        KRewriteMonotone(e, u, n, excluded, g, f + g);
        assert KRewrite(e, u, n, rw, f + g) == Known(true);
      } else if RewriteIs(e, u, n, included, false) {
        var f: nat :| KRewrite(e, u, n, included, f) == Known(false);
        assert KRewrite(e, u, n, rw, f) == Known(false);
      } else {
        var f: nat :| KRewrite(e, u, n, excluded, f) == Known(true);
        assert KRewrite(e, u, n, rw, f) == Known(false);
      }
    case Computed(rel) =>
      var f: nat :| K(e, u, Node(n.ns, n.obj, rel), f) == Known(v);
      assert KRewrite(e, u, n, rw, f) == Known(v);
    case Via(tupleset, rel) =>
      var f: nat :| KSubjects(e, u, Through(rel), Subjects(e, Node(n.ns, n.obj, tupleset)), f) == Known(v);
      assert KRewrite(e, u, n, rw, f) == Known(v);
  }

  lemma ListFromParts(e: Env, u: string, n: Node, children: seq<Rewrite>, stop: bool, v: bool)
    requires children != []
    requires if v == stop
             then RewriteIs(e, u, n, children[0], v) || ListIs(e, u, n, children[1..], stop, v)
             else RewriteIs(e, u, n, children[0], v) && ListIs(e, u, n, children[1..], stop, v)
    ensures ListIs(e, u, n, children, stop, v)
  {
    if v != stop {
      var f: nat :| KRewrite(e, u, n, children[0], f) == Known(v);
      var g: nat :| KList(e, u, n, children[1..], stop, g) == Known(v);
      KRewriteMonotone(e, u, n, children[0], f, f + g);
      KListMonotone(e, u, n, children[1..], stop, g, f + g);
      assert KList(e, u, n, children, stop, f + g) == Known(v);
    } else if RewriteIs(e, u, n, children[0], v) {
      var f: nat :| KRewrite(e, u, n, children[0], f) == Known(v);
      assert KList(e, u, n, children, stop, f) == Known(v);
    } else {
      var f: nat :| KList(e, u, n, children[1..], stop, f) == Known(v);
      assert KList(e, u, n, children, stop, f) == Known(v);
    }
  }

  ghost predicate TargetIs(e: Env, u: string, t: Target, v: bool) {
    match t
    case Skip => !v
    case Grant => v
    case Follow(m) => Is(e, u, m, v)
  }

  lemma SubjectsFromParts(e: Env, u: string, walk: Walk, subjects: seq<Subject>, v: bool)
    requires subjects != []
    requires var t := TargetOf(e, ByUser(u), walk, subjects[0]);
             if v then TargetIs(e, u, t, true) || SubjectsAre(e, u, walk, subjects[1..], true)
             else TargetIs(e, u, t, false) && SubjectsAre(e, u, walk, subjects[1..], false)
    ensures SubjectsAre(e, u, walk, subjects, v)
  {
    var t := TargetOf(e, ByUser(u), walk, subjects[0]);
    var rest := subjects[1..];
    if !v {
      var f: nat := if t.Follow? then (var f: nat :| K(e, u, t.node, f) == Known(v); f) else 0;
      var g: nat :| KSubjects(e, u, walk, rest, g) == Known(v);
      if t.Follow? { KMonotone(e, u, t.node, f, f + g); }
      KSubjectsMonotone(e, u, walk, rest, g, f + g);
      assert KSubjects(e, u, walk, subjects, f + g) == Known(v);
    } else if TargetIs(e, u, t, true) {
      var f: nat := if t.Follow? then (var f: nat :| K(e, u, t.node, f) == Known(v); f) else 0;
      assert KTarget(e, u, t, f) == Known(true);
      assert KSubjects(e, u, walk, subjects, f) == Known(v);
    } else {
      var f: nat :| KSubjects(e, u, walk, rest, f) == Known(v);
      assert KSubjects(e, u, walk, subjects, f) == Known(v);
    }
  }
}
