/** `buildOrganizationGraph` of backend/organization-mapping/projections.js: normalize, sort and validate
    the nodes and edges of an organization model. */
module OrganizationGraph {
  import opened Wrappers
  import opened Sorting
  import J = Json

  type Id = string

  /** A field that is absent or empty in the request is `None`. */
  datatype RawNode = RawNode(id: Id, organization: Option<string>, kind: Option<string>, status: Option<string>,
                             structureBehavior: Option<string>, canonicalBinding: J.Value, title: Option<string>,
                             facets: J.Value, provenance: J.Value)

  datatype RawEdge = RawEdge(from: Id, to: Id, relationship: string, organization: Option<string>,
                             facets: J.Value, provenance: J.Value)

  datatype Model = Model(modelVersion: Option<nat>, organization: Option<string>, nodes: seq<RawNode>,
                         edges: seq<RawEdge>)

  datatype Node = Node(id: Id, organization: Option<string>, kind: string, status: string,
                       structureBehavior: Option<string>,
                       canonicalBinding: J.Value, title: string, facets: J.Value, provenance: J.Value)

  datatype Edge = Edge(from: Id, to: Id, relationship: string, organization: Option<string>,
                       facets: J.Value, provenance: J.Value)

  datatype Graph = Graph(modelVersion: Option<nat>, nodes: seq<Node>, edges: seq<Edge>)

  datatype GraphError =
    | DuplicateNode
    | InactiveTarget
    | RelationshipUnknown(relationship: string)
    | OrphanEdge(from: Id, to: Id)
    | SelfCycle(node: Id)
    | CrossTenantReference

  const RELATIONSHIPS := {"parent_of", "reports_to", "applies_to", "coordinates", "supports", "operates_in",
                          "classified_by"}
  const HIERARCHY := "parent_of"

  function OrElse<T>(a: Option<T>, b: Option<T>): Option<T> {
    if a.Some? then a else b
  }

  function Default<T>(a: Option<T>, b: T): T {
    if a.Some? then a.value else b
  }

  function NormalNode(organization: Option<string>, n: RawNode): Node {
    Node(n.id, OrElse(n.organization, organization), Default(n.kind, "node"), Default(n.status, "active"),
         n.structureBehavior, J.Canonicalize(n.canonicalBinding), Default(n.title, n.id),
         J.Canonicalize(n.facets), J.Canonicalize(n.provenance))
  }

  function NormalEdge(organization: Option<string>, e: RawEdge): Edge {
    Edge(e.from, e.to, e.relationship, OrElse(e.organization, organization), J.Canonicalize(e.facets),
         J.Canonicalize(e.provenance))
  }

  function NodeKey(n: Node): string {
    n.id
  }

  function EdgeKey(e: Edge): string {
    e.from + ":" + e.to + ":" + e.relationship
  }

  function NormalNodes(m: Model): seq<Node> {
    Mapped(m.nodes, n => NormalNode(m.organization, n))
  }

  function NormalEdges(m: Model): seq<Edge> {
    Mapped(m.edges, e => NormalEdge(m.organization, e))
  }

  predicate IdRepeats(nodes: seq<Node>) {
    exists i, j | 0 <= i < j < |nodes| :: nodes[i].id == nodes[j].id
  }

  function Find(nodes: seq<Node>, id: Id): Option<Node> {
    if nodes == [] then None else if nodes[0].id == id then Some(nodes[0]) else Find(nodes[1..], id)
  }

  /** `[a, b, ...].filter(Boolean)` has two different elements. */
  predicate Disagree(tenants: seq<Option<string>>) {
    exists i, j | 0 <= i < j < |tenants| :: tenants[i].Some? && tenants[j].Some? && tenants[i] != tenants[j]
  }

  function EdgeError(organization: Option<string>, nodes: seq<Node>, e: Edge): Option<GraphError> {
    if e.relationship !in RELATIONSHIPS then Some(RelationshipUnknown(e.relationship))
    else
      var from, to := Find(nodes, e.from), Find(nodes, e.to);
      if from.None? || to.None? then Some(OrphanEdge(e.from, e.to))
      else if e.from == e.to then Some(SelfCycle(e.from))
      else if Disagree([organization, e.organization, from.value.organization, to.value.organization])
      then Some(CrossTenantReference)
      else None
  }

  function FirstEdgeError(organization: Option<string>, nodes: seq<Node>, edges: seq<Edge>): Option<GraphError> {
    if edges == [] then None
    else
      var error := EdgeError(organization, nodes, edges[0]);
      if error.Some? then error else FirstEdgeError(organization, nodes, edges[1..])
  }

  function Build(m: Model, forPublication: bool): Result<Graph, GraphError> {
    var nodes := SortBy(NormalNodes(m), NodeKey);
    var edges := SortBy(NormalEdges(m), EdgeKey);
    if IdRepeats(nodes) then Err(DuplicateNode)
    else if forPublication && exists i | 0 <= i < |nodes| :: nodes[i].status != "active" then Err(InactiveTarget)
    else
      var error := FirstEdgeError(m.organization, nodes, edges);
      if error.Some? then Err(error.value) else Ok(Graph(m.modelVersion, nodes, edges))
  }

  // ----- Which models are accepted -----

  lemma {:induction false} FindsExactly(nodes: seq<Node>, id: Id)
    ensures Find(nodes, id).Some? <==> exists i | 0 <= i < |nodes| :: nodes[i].id == id
    ensures Find(nodes, id).Some? ==> Find(nodes, id).value in nodes && Find(nodes, id).value.id == id
  {
    if nodes != [] {
      FindsExactly(nodes[1..], id);
      if exists i | 0 <= i < |nodes| :: nodes[i].id == id {
        var i :| 0 <= i < |nodes| && nodes[i].id == id;
        if i > 0 { assert nodes[1..][i - 1].id == id; }
      }
    }
  }

  lemma {:induction false} NoEdgeError(organization: Option<string>, nodes: seq<Node>, edges: seq<Edge>)
    ensures FirstEdgeError(organization, nodes, edges).None? <==>
            forall i | 0 <= i < |edges| :: EdgeError(organization, nodes, edges[i]).None?
    decreases |edges|
  {
    if edges != [] {
      NoEdgeError(organization, nodes, edges[1..]);
      assert forall i | 0 < i < |edges| :: edges[i] == edges[1..][i - 1];
    }
  }

  /** What an accepted graph guarantees to its users: unique node ids, and edges of known kind between two
      different nodes of the graph that name no two different tenants. */
  lemma {:induction false} AcceptedGraphs(m: Model, forPublication: bool)
    requires Build(m, forPublication).Ok?
    ensures var g := Build(m, forPublication).value;
            && multiset(g.nodes) == multiset(NormalNodes(m)) && multiset(g.edges) == multiset(NormalEdges(m))
            && (forall i, j | 0 <= i < j < |g.nodes| :: g.nodes[i].id != g.nodes[j].id)
            && (forall i | 0 <= i < |g.edges| :: GoodEdge(g, g.edges[i]))
  {
    var g := Build(m, forPublication).value;
    SortPermutes(NormalNodes(m), NodeKey);
    SortPermutes(NormalEdges(m), EdgeKey);
    NoEdgeError(m.organization, g.nodes, g.edges);
    forall i | 0 <= i < |g.edges| ensures GoodEdge(g, g.edges[i]) {
      assert EdgeError(m.organization, g.nodes, g.edges[i]).None?;
      FindsExactly(g.nodes, g.edges[i].from);
      FindsExactly(g.nodes, g.edges[i].to);
    }
  }

  predicate HasNode(g: Graph, id: Id) {
    exists i | 0 <= i < |g.nodes| :: g.nodes[i].id == id
  }

  predicate GoodEdge(g: Graph, e: Edge) {
    e.relationship in RELATIONSHIPS && e.from != e.to && HasNode(g, e.from) && HasNode(g, e.to)
  }

  // ----- The order of the lists does not matter -----

  ghost predicate SameUpToOrder(m: Model, m': Model) {
    && m.modelVersion == m'.modelVersion && m.organization == m'.organization
    && multiset(m.nodes) == multiset(m'.nodes) && multiset(m.edges) == multiset(m'.edges)
  }

  /** For pairwise different edge sort keys, every permutation of the node and edge lists builds the same
      graph, or fails with the same error. */
  lemma {:induction false} BuildIsOrderBlind(m: Model, m': Model, forPublication: bool)
    requires SameUpToOrder(m, m') && DistinctKeys(NormalEdges(m), EdgeKey)
    ensures Build(m, forPublication) == Build(m', forPublication)
  {
    MappedPermutes(m.nodes, m'.nodes, n => NormalNode(m.organization, n));
    MappedPermutes(m.edges, m'.edges, e => NormalEdge(m.organization, e));
    assert multiset(NormalNodes(m)) == multiset(NormalNodes(m'));
    assert multiset(NormalEdges(m)) == multiset(NormalEdges(m'));
    SortIsOrderBlind(NormalEdges(m), NormalEdges(m'), EdgeKey);
    RepeatsSurviveSorting(NormalNodes(m));
    RepeatsSurviveSorting(NormalNodes(m'));
    if DistinctKeys(NormalNodes(m), NodeKey) {
      SortIsOrderBlind(NormalNodes(m), NormalNodes(m'), NodeKey);
    } else {
      MappedPermutes(NormalNodes(m), NormalNodes(m'), NodeKey);
    }
  }

  lemma RepeatsSurviveSorting(nodes: seq<Node>)
    ensures IdRepeats(SortBy(nodes, NodeKey)) <==> !DistinctKeys(nodes, NodeKey)
  {
    var sorted := SortBy(nodes, NodeKey);
    SortPermutes(nodes, NodeKey);
    MappedPermutes(nodes, sorted, NodeKey);
    DistinctByPosition(sorted, NodeKey);
    assert DistinctKeys(nodes, NodeKey) <==> DistinctKeys(sorted, NodeKey);
    if IdRepeats(sorted) {
      var i, j :| 0 <= i < j < |sorted| && sorted[i].id == sorted[j].id;
      assert NodeKey(sorted[i]) == NodeKey(sorted[j]);
    } else {
      forall i, j | 0 <= i < j < |sorted| ensures NodeKey(sorted[i]) != NodeKey(sorted[j]) { }
    }
  }
}
