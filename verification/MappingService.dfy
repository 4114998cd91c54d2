/** The protocol of Publishing with the projections that backend/organization-mapping/service.js really makes. */
module MappingService {
  import opened Wrappers
  import opened Publishing
  import J = Json
  import G = OrganizationGraph
  import T = ScopeTree
  import W = Walks

  function Canonicals(facets: seq<J.Value>): seq<J.Value> {
    if facets == [] then [] else Canonicals(facets[..|facets| - 1]) + [J.Canonicalize(facets[|facets| - 1])]
  }

  /** `{...draft.model, modelVersion: draft.version}`. */
  function Versioned(c: Content, version: nat): G.Model {
    c.model.(modelVersion := Some(version))
  }

  /** The graph, scope tree and facets of a draft, built for publication. */
  function ViewOf(c: Content, version: nat): Option<View> {
    var graph := G.Build(Versioned(c, version), true);
    var tree := T.Project(Versioned(c, version), true);
    if graph.Err? || tree.Err? then None
    else Some(View(graph.value, tree.value, multiset(Canonicals(c.facets))))
  }

  const PROJECTOR: Projector := (c: Content, version: nat) => ViewOf(c, version)

  /** A published scope tree spans exactly one rooted, acyclic hierarchy, and its paths are exactly the walks from
      the root. */
  ghost predicate ShowsOneTree(g: G.Graph, p: T.Projection) {
    && W.Acyclic(T.HierarchyArcs(g.edges)) && |T.Sources(g)| == 1
    && p.root.Some? && T.Sources(g) == {p.root.value.id}
    && (forall w, n :: T.PathEntry(n, w) in p.paths <==> W.WalkBetween(T.HierarchyArcs(g.edges), w, p.root.value.id, n))
    && (forall n | n in T.Participants(g) :: exists w :: T.PathEntry(n, w) in p.paths)
  }

  /** All nodes active, and every edge of a known kind between two of them. */
  predicate SoundGraph(g: G.Graph) {
    && (forall i | 0 <= i < |g.nodes| :: g.nodes[i].status == "active")
    && (forall i | 0 <= i < |g.edges| :: G.GoodEdge(g, g.edges[i]))
  }

  lemma BuiltForPublication(m: G.Model)
    requires G.Build(m, true).Ok?
    ensures SoundGraph(G.Build(m, true).value) && T.Accepted(G.Build(m, true).value)
  {
    G.AcceptedGraphs(m, true);
  }

  lemma ProjectedTree(g: G.Graph, tree: T.Projection)
    requires T.Accepted(g) && T.Participants(g) != {} && T.ProjectGraph(g) == Ok(tree)
    ensures ShowsOneTree(g, tree)
  {
    T.SucceedsExactlyOnTrees(g);
    T.PathsAreExact(g);
  }

  predicate Projects(m: G.Model, view: View) {
    G.Build(m, true) == Ok(view.graph) && T.Project(m, true) == Ok(view.tree)
  }

  lemma ViewsAreExact(m: G.Model, view: View)
    requires Projects(m, view)
    ensures SoundGraph(view.graph) && (T.Participants(view.graph) != {} ==> ShowsOneTree(view.graph, view.tree))
  {
    BuiltForPublication(m);
    if T.Participants(view.graph) != {} {
      ProjectedTree(view.graph, view.tree);
    }
  }

  /** Over every run of the publish protocol, whatever is published: its nodes are active and every edge joins two
      of them, and unless nothing takes part in the hierarchy its scope tree is exactly that hierarchy. */
  lemma EveryPublishedTreeIsExact(acts: seq<Action>, i: nat)
    requires i < |Publishing.Exec(PROJECTOR, Publishing.Empty(), acts).publications|
    ensures var view := Publishing.Exec(PROJECTOR, Publishing.Empty(), acts).publications[i].view;
            SoundGraph(view.graph) && (T.Participants(view.graph) != {} ==> ShowsOneTree(view.graph, view.tree))
  {
    PublicationsAreSound(PROJECTOR, acts, i);
    var p := Publishing.Exec(PROJECTOR, Publishing.Empty(), acts).publications[i];
    PublishedViewProjects(p.content, p.draftVersion, p.view);
    ViewsAreExact(Versioned(p.content, p.draftVersion), p.view);
  }

  lemma PublishedViewProjects(c: Content, version: nat, view: View)
    requires ViewOf(c, version) == Some(view)
    ensures Projects(Versioned(c, version), view)
  {
  }
}
