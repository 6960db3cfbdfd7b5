/**
 Two evaluations that see the same targets make the same run: the same answer, the same memo,
 the same counts. Instances: a tuple nobody reads changes nothing (pkg/authz/model.go), and two
 users whom no tuple names are indistinguishable.
 */
module SameRun {
  import opened AuthzModel
  import opened VisitKeys
  import opened Evaluator

  /** One side of a comparison: what is evaluated and for whom. */
  datatype Side = Side(e: Env, q: Query)

  predicate SameTargets(a: Side, b: Side, walk: Walk, xs: seq<Subject>, ys: seq<Subject>) {
    |xs| == |ys| && forall i | 0 <= i < |xs| :: TargetOf(a.e, a.q, walk, xs[i]) == TargetOf(b.e, b.q, walk, ys[i])
  }

  /** The rewrites act alike on node `n`, whatever fields they set beside the acting operator. */
  predicate Alike(a: Side, b: Side, n: Node, ra: Rewrite, rb: Rewrite)
    decreases ra
  {
    match (FormOf(ra), FormOf(rb))
    case (This, This) => SameTargets(a, b, Direct, Subjects(a.e, n), Subjects(b.e, n))
    case (AnyOf(xs), AnyOf(ys)) => AllAlike(a, b, n, xs, ys)
    case (AllOf(xs), AllOf(ys)) => AllAlike(a, b, n, xs, ys)
    case (Except(ia, xa), Except(ib, xb)) => Alike(a, b, n, ia, ib) && Alike(a, b, n, xa, xb)
    case (Computed(x), Computed(y)) => x == y
    case (Via(s, x), Via(t, y)) =>
      x == y && SameTargets(a, b, Through(x), Subjects(a.e, Node(n.ns, n.obj, s)), Subjects(b.e, Node(n.ns, n.obj, t)))
    case _ => false
  }

  predicate AllAlike(a: Side, b: Side, n: Node, xs: seq<Rewrite>, ys: seq<Rewrite>)
    decreases xs
  {
    |xs| == |ys| && (xs == [] || (Alike(a, b, n, xs[0], ys[0]) && AllAlike(a, b, n, xs[1..], ys[1..])))
  }

  ghost predicate SidesAlike(a: Side, b: Side) {
    && a.e.maxDepth == b.e.maxDepth && a.e.maxReads == b.e.maxReads && a.q.BySet? == b.q.BySet?
    && forall n: Node :: Alike(a, b, n, RewriteOf(a.e.model, n), RewriteOf(b.e.model, n))
  }

  lemma {:induction false} SameCheck(
      a: Side, b: Side, n: Node, neg: bool, path: set<string>, s: Scratch, depth: nat)
    requires SidesAlike(a, b)
    ensures Check(a.e, a.q, n, neg, path, s, depth) == Check(b.e, b.q, n, neg, path, s, depth)
    decreases Room(a.e, depth), 3
  {
    if VisitKey(n) in path || depth > a.e.maxDepth || MemoKey(n, neg) in s.memo {
    } else {
      SameRewrite(a, b, n, RewriteOf(a.e.model, n), RewriteOf(b.e.model, n), neg, path + {VisitKey(n)}, s, depth);
    }
  }

  lemma {:induction false} SameRewrite(
      a: Side, b: Side, n: Node, ra: Rewrite, rb: Rewrite, neg: bool, path: set<string>, s: Scratch, depth: nat)
    requires SidesAlike(a, b) && Alike(a, b, n, ra, rb) && depth <= a.e.maxDepth
    ensures EvalRewrite(a.e, a.q, n, ra, neg, path, s, depth) == EvalRewrite(b.e, b.q, n, rb, neg, path, s, depth)
    decreases Room(a.e, depth), 2, ra
  {
    match (FormOf(ra), FormOf(rb))
    case (This, This) => SameRead(a, b, Direct, Subjects(a.e, n), Subjects(b.e, n), neg, path, s, depth);
    case (AnyOf(xs), AnyOf(ys)) => SameList(a, b, n, xs, ys, true, neg, path, s, depth);
    case (AllOf(xs), AllOf(ys)) => SameList(a, b, n, xs, ys, false, neg, path, s, depth);
    case (Except(ia, xa), Except(ib, xb)) =>
      SameRewrite(a, b, n, ia, ib, neg, path, s, depth);
      SameRewrite(a, b, n, xa, xb, !neg, path, EvalRewrite(a.e, a.q, n, ia, neg, path, s, depth).st, depth);
    case (Computed(x), Computed(_)) => SameCheck(a, b, Node(n.ns, n.obj, x), neg, path, s, depth + 1);
    case (Via(p, x), Via(q, _)) =>
      SameRead(a, b, Through(x), Subjects(a.e, Node(n.ns, n.obj, p)), Subjects(b.e, Node(n.ns, n.obj, q)),
               neg, path, s, depth);
    case _ =>
  }

  lemma {:induction false} SameList(
      a: Side, b: Side, n: Node, xs: seq<Rewrite>, ys: seq<Rewrite>, stop: bool,
      neg: bool, path: set<string>, s: Scratch, depth: nat)
    requires SidesAlike(a, b) && AllAlike(a, b, n, xs, ys) && depth <= a.e.maxDepth
    ensures EvalList(a.e, a.q, n, xs, stop, neg, path, s, depth) == EvalList(b.e, b.q, n, ys, stop, neg, path, s, depth)
    decreases Room(a.e, depth), 2, xs
  {
    if xs != [] {
      SameRewrite(a, b, n, xs[0], ys[0], neg, path, s, depth);
      SameList(a, b, n, xs[1..], ys[1..], stop, neg, path, EvalRewrite(a.e, a.q, n, xs[0], neg, path, s, depth).st,
          depth);
    }
  }

  lemma {:induction false} SameRead(
      a: Side, b: Side, walk: Walk, xs: seq<Subject>, ys: seq<Subject>,
      neg: bool, path: set<string>, s: Scratch, depth: nat)
    requires SidesAlike(a, b) && SameTargets(a, b, walk, xs, ys) && depth <= a.e.maxDepth
    ensures ReadAndWalk(a.e, a.q, walk, xs, neg, path, s, depth) == ReadAndWalk(b.e, b.q, walk, ys, neg, path, s, depth)
    decreases Room(a.e, depth), 1, |xs| + 1
  {
    SameSubjectWalk(a, b, walk, xs, ys, neg, path, Charge(s), depth);
  }

  lemma {:induction false} SameSubjectWalk(
      a: Side, b: Side, walk: Walk, xs: seq<Subject>, ys: seq<Subject>,
      neg: bool, path: set<string>, s: Scratch, depth: nat)
    requires SidesAlike(a, b) && SameTargets(a, b, walk, xs, ys) && depth <= a.e.maxDepth
    ensures EvalSubjects(a.e, a.q, walk, xs, neg, path, s, depth)
              == EvalSubjects(b.e, b.q, walk, ys, neg, path, s, depth)
    decreases Room(a.e, depth), 1, |xs|
  {
    if xs != [] {
      match TargetOf(a.e, a.q, walk, xs[0])
      case Skip => SameSubjectWalk(a, b, walk, xs[1..], ys[1..], neg, path, s, depth);
      case Grant =>
      case Follow(m) =>
        SameCheck(a, b, m, neg, path, s, depth + 1);
        SameSubjectWalk(a, b, walk, xs[1..], ys[1..], neg, path, Check(a.e, a.q, m, neg, path, s, depth + 1).st, depth);
    }
  }

  // ---- a user no tuple names is like any other such user ----

  /** No stored tuple has `u` as its concrete subject. */
  ghost predicate Unnamed(e: Env, u: string) {
    forall n: Node, s: Subject | s in Subjects(e, n) :: s.userset.None? && !s.wildcard ==> s.userID != u
  }

  lemma {:induction false} UnnamedAlike(e: Env, u: string, v: string, n: Node, rw: Rewrite)
    requires Unnamed(e, u) && Unnamed(e, v)
    ensures Alike(Side(e, ByUser(u)), Side(e, ByUser(v)), n, rw, rw)
    decreases rw
  {
    match FormOf(rw)
    case AnyOf(children) => AllUnnamedAlike(e, u, v, n, children);
    case AllOf(children) => AllUnnamedAlike(e, u, v, n, children);
    case Except(included, excluded) =>
      UnnamedAlike(e, u, v, n, included);
      UnnamedAlike(e, u, v, n, excluded);
    case _ =>
  }

  lemma {:induction false} AllUnnamedAlike(e: Env, u: string, v: string, n: Node, children: seq<Rewrite>)
    requires Unnamed(e, u) && Unnamed(e, v)
    ensures AllAlike(Side(e, ByUser(u)), Side(e, ByUser(v)), n, children, children)
    decreases children
  {
    if children != [] {
      UnnamedAlike(e, u, v, n, children[0]);
      AllUnnamedAlike(e, u, v, n, children[1..]);
    }
  }

  /** Any two users whom no tuple names get the same run of every Check, on every node. */
  lemma UnnamedUsersAreIndistinguishable(
      e: Env, u: string, v: string, n: Node, neg: bool, path: set<string>, s: Scratch, depth: nat)
    requires Unnamed(e, u) && Unnamed(e, v)
    ensures Check(e, ByUser(u), n, neg, path, s, depth) == Check(e, ByUser(v), n, neg, path, s, depth)
  {
    forall m: Node
      ensures Alike(Side(e, ByUser(u)), Side(e, ByUser(v)), m, RewriteOf(e.model, m), RewriteOf(e.model, m))
    {
      UnnamedAlike(e, u, v, m, RewriteOf(e.model, m));
    }
    SameCheck(Side(e, ByUser(u)), Side(e, ByUser(v)), n, neg, path, s, depth);
  }
}
