/** The string keys of the cycle guard and the memo (pkg/authz/engine.go). */
module VisitKeys {
  import opened AuthzModel

  function VisitKey(n: Node): string {
    n.ns + ":" + n.obj + "#" + n.rel
  }

  function MemoKey(n: Node, negated: bool): string {
    VisitKey(n) + "\U{1f}" + (if negated then "true" else "false")
  }

  /** The names for which the plain joins above are unambiguous. */
  predicate CleanNode(n: Node) {
    ':' !in n.ns && '#' !in n.rel
  }

  /** The node read off a key split at positions `i` and `j`. */
  function SplitAt(k: string, i: nat, j: nat): Node
    requires i < j < |k|
  {
    Node(k[..i], k[i + 1..j], k[j + 1..])
  }

  predicate Separators(k: string, i: nat, j: nat) {
    i < j < |k| && k[i] == ':' && k[j] == '#'
  }

  lemma JoinSplit(k: string, i: nat, j: nat)
    requires Separators(k, i, j)
    ensures VisitKey(SplitAt(k, i, j)) == k
  {
  }

  lemma SplitJoin(n: Node)
    ensures var i, j := |n.ns|, |n.ns| + 1 + |n.obj|;
            Separators(VisitKey(n), i, j) && SplitAt(VisitKey(n), i, j) == n
  {
  }

  /**
   A node's key belongs to no other node exactly when its own separators are the only way to
   split the key at a ':' followed later by a '#'.
   */
  lemma VisitKeyUniqueIff(n: Node)
    ensures (forall m: Node :: VisitKey(m) == VisitKey(n) ==> m == n)
       <==> (forall i: nat, j: nat :: Separators(VisitKey(n), i, j) ==> i == |n.ns| && j == |n.ns| + 1 + |n.obj|)
  {
    var k := VisitKey(n);
    SplitJoin(n);
    if forall m: Node :: VisitKey(m) == k ==> m == n {
      forall i: nat, j: nat | Separators(k, i, j)
        ensures i == |n.ns| && j == |n.ns| + 1 + |n.obj|
      {
        JoinSplit(k, i, j);
        assert SplitAt(k, i, j) == n;
      }
    } else {
      var m: Node :| VisitKey(m) == k && m != n;
      SplitJoin(m);
    }
  }

  /** Two different nodes can share a key once a namespace may contain ':'. */
  lemma VisitKeyCollision()
    ensures VisitKey(Node("a", "b:c", "x")) == VisitKey(Node("a:b", "c", "x"))
  {
    assert "a" + ":" + "b:c" + "#" + "x" == "a:b" + ":" + "c" + "#" + "x";
  }

  /** The first ':' of a key and its last '#'. */
  predicate Outermost(k: string, i: nat, j: nat) {
    Separators(k, i, j) && (forall p | 0 <= p < i :: k[p] != ':') && (forall p | j < p < |k| :: k[p] != '#')
  }

  lemma CleanIsOutermost(n: Node)
    requires CleanNode(n)
    ensures Outermost(VisitKey(n), |n.ns|, |n.ns| + 1 + |n.obj|)
  {
    var k, j := VisitKey(n), |n.ns| + 1 + |n.obj|;
    SplitJoin(n);
    assert forall p | 0 <= p < |n.ns| :: k[p] == n.ns[p];
    assert forall p | j < p < |k| :: k[p] == n.rel[p - j - 1];
  }

  lemma VisitKeyInjective(m: Node, n: Node)
    requires CleanNode(m) && CleanNode(n) && VisitKey(m) == VisitKey(n)
    ensures m == n
  {
    SplitJoin(m);
    SplitJoin(n);
    CleanIsOutermost(m);
    CleanIsOutermost(n);
    assert |m.ns| == |n.ns| && |m.obj| == |n.obj|;
  }

  lemma MemoKeyInjective(m: Node, a: bool, n: Node, b: bool)
    requires CleanNode(m) && CleanNode(n) && MemoKey(m, a) == MemoKey(n, b)
    ensures m == n && a == b
  {
    var k := MemoKey(m, a);
    var wa, wb := if a then "true" else "false", if b then "true" else "false";
    assert k == VisitKey(m) + ("\U{1f}" + wa) == VisitKey(n) + ("\U{1f}" + wb);
    assert k[|k| - 4] == wa[|wa| - 4] && k[|k| - 4] == wb[|wb| - 4];
    assert VisitKey(m) == k[..|k| - |wa| - 1] == VisitKey(n);
    VisitKeyInjective(m, n);
  }
}
