/**
 The authorization model: relation tuples, userset rewrites, and the fixed inputs of one
 evaluation (pkg/authz/model.go, pkg/authz/conditions.go).
 */
module AuthzModel {

  datatype Option<+T> = None | Some(value: T)

  /** The userset namespace:object#relation. It names a node of the tuple graph. */
  datatype Node = Node(ns: string, obj: string, rel: string)

  /** A named condition with its write-time parameters. */
  datatype Condition = Condition(name: string, params: string)

  /** The right-hand side of a stored tuple; nothing here forbids several fields being set. */
  datatype Subject = Subject(userID: string, userset: Option<Node>, wildcard: bool, condition: Option<Condition>)

  datatype Exclusion = Exclusion(included: Rewrite, excluded: Rewrite)

  /** A userset-rewrite expression; like the record it models, it may set several operators at once. */
  datatype Rewrite = Rewrite(
    union: seq<Rewrite>,
    intersection: seq<Rewrite>,
    exclusion: Option<Exclusion>,
    computed: string,
    tuplesetRelation: string,
    computedRelation: string)

  type Namespace = map<string, Rewrite>
  type Model = map<string, Namespace>

  /** The operator an evaluation acts on: the first one set, in the order the evaluator tests them. */
  datatype Form =
    | This
    | AnyOf(children: seq<Rewrite>)
    | AllOf(children: seq<Rewrite>)
    | Except(included: Rewrite, excluded: Rewrite)
    | Computed(rel: string)
    | Via(tupleset: string, rel: string)

  const ThisRewrite := Rewrite([], [], None, "", "", "")

  predicate IsThis(rw: Rewrite) {
    rw.union == [] && rw.intersection == [] && rw.exclusion.None? && rw.computed == "" && rw.tuplesetRelation == ""
  }

  function FormOf(rw: Rewrite): Form {
    if IsThis(rw) then This
    else if |rw.union| > 0 then AnyOf(rw.union)
    else if |rw.intersection| > 0 then AllOf(rw.intersection)
    else if rw.exclusion.Some? then Except(rw.exclusion.value.included, rw.exclusion.value.excluded)
    else if rw.computed != "" then Computed(rw.computed)
    else Via(rw.tuplesetRelation, rw.computedRelation)
  }

  /** The rewrite of a node; undeclared relations read their stored tuples. */
  function RewriteOf(m: Model, n: Node): Rewrite {
    if n.ns in m && n.rel in m[n.ns] then m[n.ns][n.rel] else ThisRewrite
  }

  function UnionOf(children: seq<Rewrite>): Rewrite {
    ThisRewrite.(union := children)
  }

  function ComputedBy(rel: string): Rewrite {
    ThisRewrite.(computed := rel)
  }

  function TupleToUserset(tupleset: string, rel: string): Rewrite {
    ThisRewrite.(tuplesetRelation := tupleset, computedRelation := rel)
  }

  /** Workspace grades each contain the next higher one; resources inherit from their parent. */
  const DefaultModel: Model := map[
    "workspace" := map[
      "owner" := ThisRewrite,
      "admin" := UnionOf([ThisRewrite, ComputedBy("owner")]),
      "member" := UnionOf([ThisRewrite, ComputedBy("admin")]),
      "guest" := UnionOf([ThisRewrite, ComputedBy("member")]),
      "editor" := ComputedBy("admin"),
      "viewer" := ComputedBy("member")],
    "group" := map["member" := ThisRewrite],
    "resource" := map[
      "parent" := ThisRewrite,
      "owner" := ThisRewrite,
      "editor" := UnionOf([ThisRewrite, ComputedBy("owner"), TupleToUserset("parent", "editor")]),
      "viewer" := UnionOf([ThisRewrite, ComputedBy("editor"), TupleToUserset("parent", "viewer")])]]

  const RegisteredConditions: set<string> :=
    {"consent_granted", "age_at_least", "ip_in_cidrs", "not_after", "scope_in"}

  /**
   Everything fixed during one evaluation. `holds` stands for the request context: it is the set
   of conditions that the registered condition functions accept for this request.
   */
  datatype Env = Env(
    model: Model,
    tuples: map<Node, seq<Subject>>,
    holds: set<Condition>,
    maxDepth: nat,
    maxReads: int)

  function Subjects(e: Env, n: Node): seq<Subject> {
    if n in e.tuples then e.tuples[n] else []
  }

  /** A missing or unnamed condition always holds; an unregistered one never does. */
  predicate EvalCondition(c: Option<Condition>, holds: set<Condition>) {
    c.None? || c.value.name == "" || (c.value.name in RegisteredConditions && c.value in holds)
  }

  /** What an evaluation asks about: a concrete user or a whole userset. */
  datatype Query = ByUser(user: string) | BySet(userset: Node)

  /** How stored subjects are walked: as members, or as pointers to objects carrying `rel`. */
  datatype Walk = Direct | Through(rel: string)

  /** What one stored subject contributes to a query. */
  datatype Target = Skip | Grant | Follow(node: Node)

  function TargetOf(e: Env, q: Query, walk: Walk, s: Subject): Target {
    if !EvalCondition(s.condition, e.holds) then Skip
    else match walk
      case Direct =>
        if s.wildcard then Grant
        else if s.userset.None? then
          if q.ByUser? && q.user != "" && s.userID == q.user then Grant else Skip
        else if q.BySet? && s.userset.value == q.userset then Grant
        else Follow(s.userset.value)
      case Through(rel) =>
        if s.userset.None? then Skip
        else Follow(Node(s.userset.value.ns, s.userset.value.obj, rel))
  }
}
