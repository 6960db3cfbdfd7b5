/** The document form of a model: parser, printer and their round trips (pkg/authz/model_json.go). */
module ModelDocs {
  import opened AuthzModel
  import opened Evaluator
  import opened SameRun

  datatype TupleToUsersetDoc = TupleToUsersetDoc(tupleset: string, computed: string)

  datatype ExclusionDoc = ExclusionDoc(included: RewriteDoc, excluded: RewriteDoc)

  /** A list of child rewrites; an absent list differs from an empty one. */
  datatype DocList = NoList | List(docs: seq<RewriteDoc>)

  /** One rewrite of a document. */
  datatype RewriteDoc = RewriteDoc(
    stored: bool,
    computed: string,
    tupleToUserset: Option<TupleToUsersetDoc>,
    union: DocList,
    intersection: DocList,
    exclusion: Option<ExclusionDoc>)

  type ModelDoc = map<string, map<string, RewriteDoc>>

  const NoOperator := RewriteDoc(false, "", None, NoList, NoList, None)

  function OperatorsSet(rd: RewriteDoc): nat {
    (if rd.stored then 1 else 0) + (if rd.computed != "" then 1 else 0) + (if rd.tupleToUserset.Some? then 1 else 0)
    + (if rd.union.List? then 1 else 0) + (if rd.intersection.List? then 1 else 0)
    + (if rd.exclusion.Some? then 1 else 0)
  }

  /** Parsing one rewrite; None is the error of a malformed one. */
  function ToRewrite(rd: RewriteDoc): Option<Rewrite>
    decreases rd
  {
    if OperatorsSet(rd) != 1 then None
    else if rd.stored then Some(ThisRewrite)
    else if rd.computed != "" then Some(ComputedBy(rd.computed))
    else if rd.tupleToUserset.Some? then
      var d := rd.tupleToUserset.value;
      if d.tupleset == "" || d.computed == "" then None
      else Some(TupleToUserset(d.tupleset, d.computed))
    else if rd.union.List? then
      var children := ToRewrites(rd.union.docs);
      if children.None? || children.value == [] then None else Some(UnionOf(children.value))
    else if rd.intersection.List? then
      var children := ToRewrites(rd.intersection.docs);
      if children.None? || children.value == [] then None else Some(ThisRewrite.(intersection := children.value))
    else
      var included, excluded := ToRewrite(rd.exclusion.value.included), ToRewrite(rd.exclusion.value.excluded);
      if included.None? || excluded.None? then None
      else Some(ThisRewrite.(exclusion := Some(Exclusion(included.value, excluded.value))))
  }

  function ToRewrites(docs: seq<RewriteDoc>): Option<seq<Rewrite>>
    decreases docs
  {
    if docs == [] then Some([])
    else
      var head, rest := ToRewrite(docs[0]), ToRewrites(docs[1..]);
      if head.None? || rest.None? then None else Some([head.value] + rest.value)
  }

  /** Printing the operator an evaluation acts on; other fields set beside it are not printed. */
  function FromRewrite(rw: Rewrite): RewriteDoc
    decreases rw
  {
    match FormOf(rw)
    case This => NoOperator.(stored := true)
    case AnyOf(children) => NoOperator.(union := List(FromRewrites(children)))
    case AllOf(children) => NoOperator.(intersection := List(FromRewrites(children)))
    case Except(included, excluded) =>
      NoOperator.(exclusion := Some(ExclusionDoc(FromRewrite(included), FromRewrite(excluded))))
    case Computed(rel) => NoOperator.(computed := rel)
    case Via(tupleset, rel) => NoOperator.(tupleToUserset := Some(TupleToUsersetDoc(tupleset, rel)))
  }

  function FromRewrites(rws: seq<Rewrite>): seq<RewriteDoc>
    decreases rws
  {
    if rws == [] then [] else [FromRewrite(rws[0])] + FromRewrites(rws[1..])
  }

  predicate Parses(d: ModelDoc) {
    forall ns | ns in d :: ns != "" && forall rel | rel in d[ns] :: rel != "" && ToRewrite(d[ns][rel]).Some?
  }

  function ToModel(d: ModelDoc): Option<Model> {
    if Parses(d) then Some(map ns | ns in d :: map rel | rel in d[ns] :: ToRewrite(d[ns][rel]).value) else None
  }

  function FromModel(m: Model): ModelDoc {
    map ns | ns in m :: map rel | rel in m[ns] :: FromRewrite(m[ns][rel])
  }

  // ---- document -> model -> document ----

  lemma {:induction false} RewriteRoundTrip(rd: RewriteDoc)
    requires ToRewrite(rd).Some?
    ensures FromRewrite(ToRewrite(rd).value) == rd
    decreases rd
  {
    if rd.union.List? {
      RewritesRoundTrip(rd.union.docs);
    } else if rd.intersection.List? {
      RewritesRoundTrip(rd.intersection.docs);
    } else if rd.exclusion.Some? {
      RewriteRoundTrip(rd.exclusion.value.included);
      RewriteRoundTrip(rd.exclusion.value.excluded);
    }
  }

  lemma {:induction false} RewritesRoundTrip(docs: seq<RewriteDoc>)
    requires ToRewrites(docs).Some?
    ensures FromRewrites(ToRewrites(docs).value) == docs
    decreases docs
  {
    if docs != [] {
      RewriteRoundTrip(docs[0]);
      RewritesRoundTrip(docs[1..]);
      var rws := ToRewrites(docs).value;
      assert rws[1..] == ToRewrites(docs[1..]).value;
    }
  }

  /** Every accepted document is printed back unchanged. */
  lemma DocumentRoundTrip(d: ModelDoc)
    requires ToModel(d).Some?
    ensures FromModel(ToModel(d).value) == d
  {
    var m := ToModel(d).value;
    forall ns | ns in d
      ensures FromModel(m)[ns] == d[ns]
    {
      forall rel | rel in d[ns]
        ensures FromModel(m)[ns][rel] == d[ns][rel]
      {
        RewriteRoundTrip(d[ns][rel]);
      }
    }
  }

  // ---- model -> document -> model ----

  /** Every tuple-to-userset that would act names the relation it computes. */
  predicate Printable(rw: Rewrite)
    decreases rw
  {
    match FormOf(rw)
    case AnyOf(children) => forall c | c in children :: Printable(c)
    case AllOf(children) => forall c | c in children :: Printable(c)
    case Except(included, excluded) => Printable(included) && Printable(excluded)
    case Via(_, rel) => rel != ""
    case _ => true
  }

  lemma {:induction false} PrintedRewriteParsesIff(rw: Rewrite)
    ensures ToRewrite(FromRewrite(rw)).Some? <==> Printable(rw)
    decreases rw
  {
    match FormOf(rw)
    case AnyOf(children) => PrintedRewritesParseIff(children);
    case AllOf(children) => PrintedRewritesParseIff(children);
    case Except(included, excluded) =>
      PrintedRewriteParsesIff(included);
      PrintedRewriteParsesIff(excluded);
    case _ =>
  }

  lemma {:induction false} PrintedRewritesParseIff(rws: seq<Rewrite>)
    ensures ToRewrites(FromRewrites(rws)).Some? <==> forall c | c in rws :: Printable(c)
    ensures ToRewrites(FromRewrites(rws)).Some? ==> |ToRewrites(FromRewrites(rws)).value| == |rws|
    decreases rws
  {
    if rws != [] {
      PrintedRewriteParsesIff(rws[0]);
      PrintedRewritesParseIff(rws[1..]);
      assert rws == [rws[0]] + rws[1..];
      assert FromRewrites(rws)[1..] == FromRewrites(rws[1..]);
    }
  }

  /** A model's printed form is accepted exactly when its names are non-empty and its rules printable. */
  lemma PrintedModelParsesIff(m: Model)
    ensures ToModel(FromModel(m)).Some? <==>
              forall ns | ns in m :: ns != "" && forall rel | rel in m[ns] :: rel != "" && Printable(m[ns][rel])
  {
    var d := FromModel(m);
    assert d.Keys == m.Keys;
    forall ns | ns in m
      ensures d[ns].Keys == m[ns].Keys
      ensures forall rel | rel in m[ns] :: ToRewrite(d[ns][rel]).Some? <==> Printable(m[ns][rel])
    {
      forall rel | rel in m[ns] { PrintedRewriteParsesIff(m[ns][rel]); }
    }
  }

  lemma {:induction false} ReparsedAlike(a: Side, b: Side, n: Node, rw: Rewrite)
    requires a.e.tuples == b.e.tuples && a.e.holds == b.e.holds && a.q == b.q && ToRewrite(FromRewrite(rw)).Some?
    ensures Alike(a, b, n, rw, ToRewrite(FromRewrite(rw)).value)
    decreases rw
  {
    match FormOf(rw)
    case AnyOf(children) => AllReparsedAlike(a, b, n, children);
    case AllOf(children) => AllReparsedAlike(a, b, n, children);
    case Except(included, excluded) =>
      ReparsedAlike(a, b, n, included);
      ReparsedAlike(a, b, n, excluded);
    case _ =>
  }

  lemma {:induction false} AllReparsedAlike(a: Side, b: Side, n: Node, rws: seq<Rewrite>)
    requires a.e.tuples == b.e.tuples && a.e.holds == b.e.holds && a.q == b.q && ToRewrites(FromRewrites(rws)).Some?
    ensures AllAlike(a, b, n, rws, ToRewrites(FromRewrites(rws)).value)
    decreases rws
  {
    if rws != [] {
      var docs := FromRewrites(rws);
      assert docs[1..] == FromRewrites(rws[1..]);
      ReparsedAlike(a, b, n, rws[0]);
      AllReparsedAlike(a, b, n, rws[1..]);
      assert ToRewrites(docs).value[1..] == ToRewrites(docs[1..]).value;
    }
  }

  /** Printing and reparsing a model, even one with several operators set, leaves every run of Check as it was. */
  lemma ReparsedModelRunsAlike(
      e: Env, q: Query, n: Node, neg: bool, path: set<string>, s: Scratch, depth: nat)
    requires ToModel(FromModel(e.model)).Some?
    ensures Check(e, q, n, neg, path, s, depth)
         == Check(e.(model := ToModel(FromModel(e.model)).value), q, n, neg, path, s, depth)
  {
    var e' := e.(model := ToModel(FromModel(e.model)).value);
    forall m: Node
      ensures Alike(Side(e, q), Side(e', q), m, RewriteOf(e.model, m), RewriteOf(e'.model, m))
    {
      if m.ns in e.model && m.rel in e.model[m.ns] {
        assert e'.model[m.ns][m.rel] == ToRewrite(FromRewrite(e.model[m.ns][m.rel])).value;
        assert FromModel(e.model)[m.ns][m.rel] == FromRewrite(e.model[m.ns][m.rel]);
        ReparsedAlike(Side(e, q), Side(e', q), m, e.model[m.ns][m.rel]);
      }
    }
    SameCheck(Side(e, q), Side(e', q), n, neg, path, s, depth);
  }

  // ---- the loops that fill slices and maps ----

  method ParseRewrite(rd: RewriteDoc) returns (r: Option<Rewrite>)
    ensures r == ToRewrite(rd)
    decreases rd
  {
    var operators := 0;
    if rd.stored { operators := operators + 1; }
    if rd.computed != "" { operators := operators + 1; }
    if rd.tupleToUserset.Some? { operators := operators + 1; }
    if rd.union.List? { operators := operators + 1; }
    if rd.intersection.List? { operators := operators + 1; }
    if rd.exclusion.Some? { operators := operators + 1; }
    if operators != 1 { return None; }
    if rd.stored { return Some(ThisRewrite); }
    if rd.computed != "" { return Some(ComputedBy(rd.computed)); }
    if rd.tupleToUserset.Some? {
      var d := rd.tupleToUserset.value;
      if d.tupleset == "" || d.computed == "" { return None; }
      return Some(TupleToUserset(d.tupleset, d.computed));
    }
    if rd.union.List? {
      var children := ParseRewrites(rd.union.docs);
      if children.None? || children.value == [] { return None; }
      return Some(UnionOf(children.value));
    }
    if rd.intersection.List? {
      var children := ParseRewrites(rd.intersection.docs);
      if children.None? || children.value == [] { return None; }
      return Some(ThisRewrite.(intersection := children.value));
    }
    var included := ParseRewrite(rd.exclusion.value.included);
    if included.None? { return None; }
    var excluded := ParseRewrite(rd.exclusion.value.excluded);
    if excluded.None? { return None; }
    r := Some(ThisRewrite.(exclusion := Some(Exclusion(included.value, excluded.value))));
  }

  lemma {:induction false} ToRewritesByIndex(docs: seq<RewriteDoc>)
    ensures ToRewrites(docs).Some? <==> forall i | 0 <= i < |docs| :: ToRewrite(docs[i]).Some?
    ensures ToRewrites(docs).Some? ==>
              && |ToRewrites(docs).value| == |docs|
              && forall i | 0 <= i < |docs| :: ToRewrites(docs).value[i] == ToRewrite(docs[i]).value
    decreases |docs|
  {
    if docs != [] {
      ToRewritesByIndex(docs[1..]);
      assert forall i | 1 <= i < |docs| :: docs[i] == docs[1..][i - 1];
    }
  }

  method ParseRewrites(docs: seq<RewriteDoc>) returns (r: Option<seq<Rewrite>>)
    ensures r == ToRewrites(docs)
    decreases docs
  {
    ToRewritesByIndex(docs);
    var out := [];
    var i := 0;
    while i < |docs|
      invariant 0 <= i <= |docs| && |out| == i
      invariant forall j | 0 <= j < i :: ToRewrite(docs[j]) == Some(out[j])
    {
      var rw := ParseRewrite(docs[i]);
      if rw.None? { return None; }
      out := out + [rw.value];
      i := i + 1;
    }
    r := Some(out);
    assert out == ToRewrites(docs).value;
  }

  /** Parses the relations of one namespace, in whatever order the document map yields them. */
  method ParseNamespace(rels: map<string, RewriteDoc>) returns (r: Option<Namespace>)
    ensures r.Some? <==> forall rel | rel in rels :: rel != "" && ToRewrite(rels[rel]).Some?
    ensures r.Some? ==> r.value == map rel | rel in rels :: ToRewrite(rels[rel]).value
  {
    var out: Namespace := map[];
    var rest := rels.Keys;
    while rest != {}
      invariant rest <= rels.Keys && out.Keys == rels.Keys - rest
      invariant forall rel | rel in out :: rel != "" && ToRewrite(rels[rel]) == Some(out[rel])
      decreases rest
    {
      var rel :| rel in rest;
      if rel == "" { return None; }
      var rw := ParseRewrite(rels[rel]);
      if rw.None? { return None; }
      out, rest := out[rel := rw.value], rest - {rel};
    }
    r := Some(out);
  }

  method ParseModel(d: ModelDoc) returns (r: Option<Model>)
    ensures r == ToModel(d)
  {
    var out: Model := map[];
    var rest := d.Keys;
    while rest != {}
      invariant rest <= d.Keys && out.Keys == d.Keys - rest
      invariant forall ns | ns in out ::
                  && ns != "" && (forall rel | rel in d[ns] :: rel != "" && ToRewrite(d[ns][rel]).Some?)
                  && out[ns] == map rel | rel in d[ns] :: ToRewrite(d[ns][rel]).value
      decreases rest
    {
      var ns :| ns in rest;
      if ns == "" { return None; }
      var nm := ParseNamespace(d[ns]);
      if nm.None? { return None; }
      out, rest := out[ns := nm.value], rest - {ns};
    }
    r := Some(out);
    assert Parses(d) && out == ToModel(d).value;
  }

  method PrintRewrite(rw: Rewrite) returns (rd: RewriteDoc)
    ensures rd == FromRewrite(rw)
    decreases rw
  {
    if |rw.union| > 0 {
      var children := PrintRewrites(rw.union);
      return NoOperator.(union := List(children));
    }
    if |rw.intersection| > 0 {
      var children := PrintRewrites(rw.intersection);
      return NoOperator.(intersection := List(children));
    }
    if rw.exclusion.Some? {
      var included := PrintRewrite(rw.exclusion.value.included);
      var excluded := PrintRewrite(rw.exclusion.value.excluded);
      return NoOperator.(exclusion := Some(ExclusionDoc(included, excluded)));
    }
    if rw.computed != "" { return NoOperator.(computed := rw.computed); }
    if rw.tuplesetRelation != "" {
      return NoOperator.(tupleToUserset := Some(TupleToUsersetDoc(rw.tuplesetRelation, rw.computedRelation)));
    }
    rd := NoOperator.(stored := true);
  }

  method PrintRewrites(rws: seq<Rewrite>) returns (out: seq<RewriteDoc>)
    ensures out == FromRewrites(rws)
    decreases rws
  {
    out := [];
    var i := 0;
    while i < |rws|
      invariant 0 <= i <= |rws| && out + FromRewrites(rws[i..]) == FromRewrites(rws)
    {
      assert rws[i..][1..] == rws[i + 1..];
      var rd := PrintRewrite(rws[i]);
      out := out + [rd];
      i := i + 1;
    }
  }

  method PrintNamespace(rels: Namespace) returns (out: map<string, RewriteDoc>)
    ensures out == map rel | rel in rels :: FromRewrite(rels[rel])
  {
    out := map[];
    var rest := rels.Keys;
    while rest != {}
      invariant rest <= rels.Keys && out.Keys == rels.Keys - rest
      invariant forall rel | rel in out :: out[rel] == FromRewrite(rels[rel])
      decreases rest
    {
      var rel :| rel in rest;
      var rd := PrintRewrite(rels[rel]);
      out, rest := out[rel := rd], rest - {rel};
    }
  }

  method PrintModel(m: Model) returns (out: ModelDoc)
    ensures out == FromModel(m)
  {
    out := map[];
    var rest := m.Keys;
    while rest != {}
      invariant rest <= m.Keys && out.Keys == m.Keys - rest
      invariant forall ns | ns in out :: out[ns] == FromModel(m)[ns]
      decreases rest
    {
      var ns :| ns in rest;
      var nd := PrintNamespace(m[ns]);
      out, rest := out[ns := nd], rest - {ns};
    }
  }
}
