/** The storage keys of the in-memory driver (internal/repo/memory/memory.go). */
module TupleKeys {
  import opened AuthzModel

  /** A stored relation tuple; expiry and condition are metadata, not identity. */
  datatype Tuple = Tuple(ns: string, obj: string, rel: string, subject: Subject, expiresAt: Option<int>)

  /** Whom a subject denotes, in the order its fields are consulted. */
  datatype Who = Everyone | MembersOf(userset: Node) | OneUser(id: string)

  datatype Identity = Identity(node: Node, who: Who)

  function WhoOf(s: Subject): Who {
    if s.wildcard then Everyone else if s.userset.Some? then MembersOf(s.userset.value) else OneUser(s.userID)
  }

  function NodeOf(t: Tuple): Node {
    Node(t.ns, t.obj, t.rel)
  }

  function IdentityOf(t: Tuple): Identity {
    Identity(NodeOf(t), WhoOf(t.subject))
  }

  /** A tuple without expiry is always active; otherwise the expiry must be strictly in the future. */
  predicate ActiveAt(t: Tuple, now: int) {
    t.expiresAt.None? || t.expiresAt.value > now
  }

  // ---- decimal lengths ----

  function Digit(d: nat): char
    requires d < 10
  {
    "0123456789"[d]
  }

  function Itoa(n: nat): string {
    if n < 10 then [Digit(n)] else Itoa(n / 10) + [Digit(n % 10)]
  }

  lemma {:induction false} ItoaHasNoColon(n: nat)
    ensures ':' !in Itoa(n)
    decreases n
  {
    if n >= 10 { ItoaHasNoColon(n / 10); }
  }

  lemma {:induction false} ItoaInjective(a: nat, b: nat)
    requires Itoa(a) == Itoa(b)
    ensures a == b
    decreases a
  {
    var s, t := Itoa(a), Itoa(b);
    assert s[|s| - 1] == Digit(a % 10) && t[|t| - 1] == Digit(b % 10);
    ItoaNonEmpty(a / 10);
    ItoaNonEmpty(b / 10);
    if a >= 10 && b >= 10 {
      assert Itoa(a / 10) == s[..|s| - 1] && Itoa(b / 10) == t[..|t| - 1];
      ItoaInjective(a / 10, b / 10);
    }
  }

  lemma {:induction false} ItoaNonEmpty(n: nat)
    ensures |Itoa(n)| > 0
    decreases n
  {
  }

  // ---- length-prefixed parts ----

  function Part(s: string): string {
    Itoa(|s|) + ":" + s
  }

  function NodeKey(n: Node): string {
    Part(n.ns) + Part(n.obj) + Part(n.rel)
  }

  function WhoKey(w: Who): string {
    match w
    case Everyone => "w"
    case MembersOf(n) => "s" + NodeKey(n)
    case OneUser(id) => "u" + Part(id)
  }

  function SubjectKey(s: Subject): string {
    WhoKey(WhoOf(s))
  }

  function TupleKey(t: Tuple): string {
    NodeKey(NodeOf(t)) + Part(SubjectKey(t.subject))
  }

  /** Parts are self-delimiting: whatever follows, the first part and the rest can be read off. */
  lemma PartDecodes(a: string, x: string, b: string, y: string)
    requires Part(a) + x == Part(b) + y
    ensures a == b && x == y
  {
    var k, p, q := Part(a) + x, Itoa(|a|), Itoa(|b|);
    ItoaHasNoColon(|a|);
    ItoaHasNoColon(|b|);
    assert k[|p|] == ':' && k[|q|] == ':';
    assert forall i | 0 <= i < |p| :: k[i] == p[i];
    assert forall i | 0 <= i < |q| :: k[i] == q[i];
    assert |p| == |q|;
    assert p == k[..|p|] == q;
    ItoaInjective(|a|, |b|);
    var from := |p| + 1;
    assert a == k[from..from + |a|] == b;
    assert x == k[from + |a|..] == y;
  }

  lemma Regroup(a: string, b: string, c: string, x: string)
    ensures a + b + c + x == a + (b + (c + x))
  {
  }

  lemma NodeKeyDecodes(m: Node, x: string, n: Node, y: string)
    requires NodeKey(m) + x == NodeKey(n) + y
    ensures m == n && x == y
  {
    Regroup(Part(m.ns), Part(m.obj), Part(m.rel), x);
    Regroup(Part(n.ns), Part(n.obj), Part(n.rel), y);
    PartDecodes(m.ns, Part(m.obj) + (Part(m.rel) + x), n.ns, Part(n.obj) + (Part(n.rel) + y));
    PartDecodes(m.obj, Part(m.rel) + x, n.obj, Part(n.rel) + y);
    PartDecodes(m.rel, x, n.rel, y);
  }

  lemma WhoKeyInjective(v: Who, w: Who)
    requires WhoKey(v) == WhoKey(w)
    ensures v == w
  {
    var k := WhoKey(v);
    match v
    case Everyone =>
    case MembersOf(m) =>
      assert k[0] == 's' && k[1..] == NodeKey(m);
      assert w.MembersOf? && k[1..] == NodeKey(w.userset);
      assert NodeKey(m) + "" == NodeKey(w.userset) + "";
      NodeKeyDecodes(m, "", w.userset, "");
    case OneUser(id) =>
      assert k[0] == 'u' && k[1..] == Part(id);
      assert w.OneUser? && k[1..] == Part(w.id);
      assert Part(id) + "" == Part(w.id) + "";
      PartDecodes(id, "", w.id, "");
  }

  /** Two tuples share a key exactly when they are the same tuple, for arbitrary names. */
  lemma TupleKeyIff(s: Tuple, t: Tuple)
    ensures TupleKey(s) == TupleKey(t) <==> IdentityOf(s) == IdentityOf(t)
  {
    if TupleKey(s) == TupleKey(t) {
      var x, y := SubjectKey(s.subject), SubjectKey(t.subject);
      NodeKeyDecodes(NodeOf(s), Part(x), NodeOf(t), Part(y));
      assert Part(x) + "" == Part(y) + "";
      PartDecodes(x, "", y, "");
      WhoKeyInjective(WhoOf(s.subject), WhoOf(t.subject));
    }
  }

  // ---- scopes ----

  const NUL := '\U{0}'

  /** The isolation key of a tenant within a project. */
  function Scope(project: string, tenant: string): string {
    project + [NUL] + tenant
  }

  /** The key prefix shared by every tenant of a project. */
  predicate InProject(scope: string, project: string) {
    project + [NUL] <= scope
  }

  lemma ScopeInProjectIff(p: string, t: string, q: string)
    requires NUL !in p && NUL !in q
    ensures InProject(Scope(p, t), q) <==> p == q
  {
    var k, prefix := Scope(p, t), q + [NUL];
    if prefix <= k {
      assert k[|q|] == NUL && k[|p|] == NUL;
      assert forall i | 0 <= i < |q| :: k[i] == q[i];
      assert forall i | 0 <= i < |p| :: k[i] == p[i];
      assert |p| == |q|;
      assert p == k[..|p|] == q;
    }
  }

  /** Without NULs in project ids, a scope names one project and one tenant. */
  lemma ScopeInjective(p: string, t: string, q: string, u: string)
    requires NUL !in p && NUL !in q && Scope(p, t) == Scope(q, u)
    ensures p == q && t == u
  {
    assert InProject(Scope(p, t), q);
    ScopeInProjectIff(p, t, q);
    assert t == Scope(p, t)[|p| + 1..] && u == Scope(q, u)[|q| + 1..];
  }

  /** With one, two shards can share a scope. */
  lemma ScopeCollision()
    ensures Scope("a", "b" + [NUL] + "c") == Scope("a" + [NUL] + "b", "c")
  {
    assert "a" + [NUL] + ("b" + [NUL] + "c") == "a" + [NUL] + "b" + [NUL] + "c";
  }
}
