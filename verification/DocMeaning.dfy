/** What a model document says of a user, read off the document itself, and that the parsed model says the same. */
module DocMeaning {
  import opened AuthzModel
  import opened Kleene
  import opened Solutions
  import opened ModelDocs

  /**
   The document rewrite grants `u` on node `n` when the user's nodes are those in `lo`; under an exclude side, those
   in `hi`.
   */
  ghost predicate DocGrants(e: Env, u: string, lo: iset<Node>, hi: iset<Node>, n: Node, rd: RewriteDoc)
    decreases rd
  {
    || (rd.stored && SubjectsSat(e, u, lo, Direct, Subjects(e, n)))
    || (rd.computed != "" && Node(n.ns, n.obj, rd.computed) in lo)
    || (rd.tupleToUserset.Some? &&
        var d := rd.tupleToUserset.value;
        exists s | s in Subjects(e, Node(n.ns, n.obj, d.tupleset)) ::
          && EvalCondition(s.condition, e.holds) && s.userset.Some?
          && Node(s.userset.value.ns, s.userset.value.obj, d.computed) in lo)
    || (rd.union.List? && exists c | c in rd.union.docs :: DocGrants(e, u, lo, hi, n, c))
    || (rd.intersection.List? && forall c | c in rd.intersection.docs :: DocGrants(e, u, lo, hi, n, c))
    || (rd.exclusion.Some?
        && DocGrants(e, u, lo, hi, n, rd.exclusion.value.included)
        && !DocGrants(e, u, hi, lo, n, rd.exclusion.value.excluded))
  }

  lemma {:induction false} ParsedGrants(e: Env, u: string, lo: iset<Node>, hi: iset<Node>, n: Node, rd: RewriteDoc)
    requires ToRewrite(rd).Some?
    ensures Sat(e, u, lo, hi, n, ToRewrite(rd).value) <==> DocGrants(e, u, lo, hi, n, rd)
    decreases rd
  {
    if rd.tupleToUserset.Some? {
      PointersGrant(e, u, lo, n, rd.tupleToUserset.value);
    } else if rd.union.List? {
      ParsedListGrants(e, u, lo, hi, n, rd.union.docs);
      assert FormOf(ToRewrite(rd).value) == AnyOf(ToRewrites(rd.union.docs).value);
    } else if rd.intersection.List? {
      ParsedListGrants(e, u, lo, hi, n, rd.intersection.docs);
      assert FormOf(ToRewrite(rd).value) == AllOf(ToRewrites(rd.intersection.docs).value);
    } else if rd.exclusion.Some? {
      ParsedGrants(e, u, lo, hi, n, rd.exclusion.value.included);
      ParsedGrants(e, u, hi, lo, n, rd.exclusion.value.excluded);
    }
  }

  lemma PointersGrant(e: Env, u: string, lo: iset<Node>, n: Node, d: TupleToUsersetDoc)
    ensures SubjectsSat(e, u, lo, Through(d.computed), Subjects(e, Node(n.ns, n.obj, d.tupleset))) <==>
              exists s | s in Subjects(e, Node(n.ns, n.obj, d.tupleset)) ::
                && EvalCondition(s.condition, e.holds) && s.userset.Some?
                && Node(s.userset.value.ns, s.userset.value.obj, d.computed) in lo
  {
  }

  lemma {:induction false} ParsedListGrants(
      e: Env, u: string, lo: iset<Node>, hi: iset<Node>, n: Node, docs: seq<RewriteDoc>)
    requires ToRewrites(docs).Some?
    ensures (exists c | c in ToRewrites(docs).value :: Sat(e, u, lo, hi, n, c)) <==>
              exists c | c in docs :: DocGrants(e, u, lo, hi, n, c)
    ensures (forall c | c in ToRewrites(docs).value :: Sat(e, u, lo, hi, n, c)) <==>
              forall c | c in docs :: DocGrants(e, u, lo, hi, n, c)
    decreases docs
  {
    if docs != [] {
      ParsedGrants(e, u, lo, hi, n, docs[0]);
      ParsedListGrants(e, u, lo, hi, n, docs[1..]);
      assert docs == [docs[0]] + docs[1..];
    }
  }

  /** What the document says of a relation; undeclared relations read their stored tuples. */
  function DocOf(d: ModelDoc, n: Node): RewriteDoc {
    if n.ns in d && n.rel in d[n.ns] then d[n.ns][n.rel] else NoOperator.(stored := true)
  }

  /** Under a parsed model, the settled nodes are the bounds that the document's own equations return. */
  lemma DocumentDecides(d: ModelDoc, e: Env, u: string, n: Node)
    requires ToModel(d) == Some(e.model)
    ensures Is(e, u, n, true) <==> DocGrants(e, u, TrueNodes(e, u), OpenNodes(e, u), n, DocOf(d, n))
    ensures Is(e, u, n, false) <==> !DocGrants(e, u, OpenNodes(e, u), TrueNodes(e, u), n, DocOf(d, n))
  {
    var lo, hi := TrueNodes(e, u), OpenNodes(e, u);
    SettledNodesBalance(e, u);
    assert ToRewrite(DocOf(d, n)) == Some(RewriteOf(e.model, n));
    ParsedGrants(e, u, lo, hi, n, DocOf(d, n));
    ParsedGrants(e, u, hi, lo, n, DocOf(d, n));
    assert n in lo <==> Sat(e, u, lo, hi, n, RewriteOf(e.model, n));
    assert n in hi <==> Sat(e, u, hi, lo, n, RewriteOf(e.model, n));
  }
}
