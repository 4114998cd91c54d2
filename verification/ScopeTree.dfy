/** `buildPrimaryScopeTree` of backend/organization-mapping/projections.js: pick the hierarchy participants,
    find the one root, unfold the tree depth first while watching for cycles, and list every path. */
module ScopeTree {
  import opened Wrappers
  import opened Sorting
  import opened Walks
  import opened OrganizationGraph

  datatype Tree = Branch(id: Id, children: seq<Tree>)

  datatype PathEntry = PathEntry(nodeId: Id, path: seq<Id>)

  datatype Projection = Projection(modelVersion: Option<nat>, root: Option<Tree>, overlays: seq<Id>,
                                   paths: seq<PathEntry>,
                                   outside: seq<(Id, Id, string)>)

  datatype TreeError =
    | GraphRejected(error: GraphError)
    | RootCountInvalid(count: nat)
    | CycleAt(node: Id)
    | OrphanNode

  // ----- The hierarchy inside a graph -----

  function HierarchyArcs(edges: seq<Edge>): seq<Arc> {
    if edges == [] then []
    else
      var first := if edges[0].relationship == HIERARCHY then [Arc(edges[0].from, edges[0].to)] else [];
      first + HierarchyArcs(edges[1..])
  }

  function Endpoints(arcs: seq<Arc>): set<Id> {
    (set i | 0 <= i < |arcs| :: arcs[i].from) + (set i | 0 <= i < |arcs| :: arcs[i].to)
  }

  function NodeIds(nodes: seq<Node>): (ids: seq<Id>)
    ensures |ids| == |nodes| && forall i | 0 <= i < |nodes| :: ids[i] == nodes[i].id
  {
    if nodes == [] then [] else [nodes[0].id] + NodeIds(nodes[1..])
  }

  function AxisNodes(nodes: seq<Node>): set<Id> {
    set i | 0 <= i < |nodes| &&
        (nodes[i].structureBehavior == Some("hierarchy_axis") || nodes[i].kind == "organization") ::
      nodes[i].id
  }

  /** Endpoints of hierarchy edges, axis and organization nodes, and the only node of a one-node graph. */
  function Participants(g: Graph): set<Id> {
    var ids := Endpoints(HierarchyArcs(g.edges)) + AxisNodes(g.nodes);
    if ids == {} && |g.nodes| == 1 then {g.nodes[0].id} else ids
  }

  function Keep(ids: seq<Id>, wanted: set<Id>): seq<Id> {
    if ids == [] then [] else (if ids[0] in wanted then [ids[0]] else []) + Keep(ids[1..], wanted)
  }

  function Targets(arcs: seq<Arc>): set<Id> {
    set i | 0 <= i < |arcs| :: arcs[i].to
  }

  function ToSet(ids: seq<Id>): set<Id> {
    set id | id in ids
  }

  // ----- The depth-first search -----

  function Self(id: Id): string {
    id
  }

  /** `children.get(id)`, in edge order. */
  function ChildrenOf(arcs: seq<Arc>, id: Id): seq<Id> {
    if arcs == [] then []
    else
      var last := arcs[|arcs| - 1];
      ChildrenOf(arcs[..|arcs| - 1], id) + if last.from == id then [last.to] else []
  }

  function Kids(arcs: seq<Arc>, id: Id): seq<Id> {
    SortBy(ChildrenOf(arcs, id), Self)
  }

  /** `visit`, where `visiting` are the nodes on the current path. It terminates on every input, cyclic ones
      included, because each call puts one more node of the graph on the path. */
  function Visit(arcs: seq<Arc>, nodes: set<Id>, id: Id, visiting: set<Id>): Result<Tree, Id>
    requires Within(arcs, nodes) && id in nodes
    decreases nodes - visiting, 0, 0
  {
    if id in visiting then Err(id)
    else
      KidsAreNodes(arcs, nodes, id);
      var children := VisitAll(arcs, nodes, Kids(arcs, id), visiting + {id});
      if children.Err? then Err(children.error) else Ok(Branch(id, children.value))
  }

  function VisitAll(arcs: seq<Arc>, nodes: set<Id>, kids: seq<Id>, visiting: set<Id>): Result<seq<Tree>, Id>
    requires Within(arcs, nodes) && forall k | k in kids :: k in nodes
    decreases nodes - visiting, 1, |kids|
  {
    if kids == [] then Ok([])
    else
      var first := Visit(arcs, nodes, kids[0], visiting);
      if first.Err? then Err(first.error)
      else
        var rest := VisitAll(arcs, nodes, kids[1..], visiting);
        if rest.Err? then rest else Ok([first.value] + rest.value)
  }

  lemma {:induction false} ChildrenAreSuccessors(arcs: seq<Arc>, id: Id, k: Id)
    ensures k in ChildrenOf(arcs, id) <==> Arc(id, k) in arcs
  {
    if arcs != [] {
      ChildrenAreSuccessors(arcs[..|arcs| - 1], id, k);
      assert arcs == arcs[..|arcs| - 1] + [arcs[|arcs| - 1]];
    }
  }

  lemma KidsAreSuccessors(arcs: seq<Arc>, id: Id, k: Id)
    ensures k in Kids(arcs, id) <==> Arc(id, k) in arcs
  {
    ChildrenAreSuccessors(arcs, id, k);
    SortPermutes(ChildrenOf(arcs, id), Self);
    assert k in Kids(arcs, id) <==> k in multiset(Kids(arcs, id));
    assert k in ChildrenOf(arcs, id) <==> k in multiset(ChildrenOf(arcs, id));
  }

  lemma KidsAreNodes(arcs: seq<Arc>, nodes: set<Id>, id: Id)
    requires Within(arcs, nodes)
    ensures forall k | k in Kids(arcs, id) :: k in nodes
  {
    forall k | k in Kids(arcs, id) ensures k in nodes {
      KidsAreSuccessors(arcs, id, k);
      var i :| 0 <= i < |arcs| && arcs[i] == Arc(id, k);
    }
  }

  // ----- The search fails exactly on a reachable cycle -----

  lemma {:induction false} EveryKidVisited(arcs: seq<Arc>, nodes: set<Id>, kids: seq<Id>, visiting: set<Id>, k: Id)
    requires Within(arcs, nodes) && (forall k | k in kids :: k in nodes) && k in kids
    requires VisitAll(arcs, nodes, kids, visiting).Ok?
    ensures Visit(arcs, nodes, k, visiting).Ok?
    decreases |kids|
  {
    if k != kids[0] { EveryKidVisited(arcs, nodes, kids[1..], visiting, k); }
  }

  lemma {:induction false} SomeKidFailed(arcs: seq<Arc>, nodes: set<Id>, kids: seq<Id>, visiting: set<Id>)
    returns (k: Id)
    requires Within(arcs, nodes) && forall k | k in kids :: k in nodes
    requires VisitAll(arcs, nodes, kids, visiting).Err?
    ensures k in kids && Visit(arcs, nodes, k, visiting).Err?
    decreases |kids|
  {
    if Visit(arcs, nodes, kids[0], visiting).Err? {
      k := kids[0];
    } else {
      k := SomeKidFailed(arcs, nodes, kids[1..], visiting);
    }
  }

  /** A successful visit has seen that no walk from its node returns to itself or to the current path. */
  lemma {:induction false} VisitedWalksAreSimple(arcs: seq<Arc>, nodes: set<Id>, id: Id, visiting: set<Id>, w: seq<Id>)
    requires Within(arcs, nodes) && id in nodes && Visit(arcs, nodes, id, visiting).Ok?
    requires WalkFrom(arcs, w, id)
    ensures !Repeats(w) && forall x | x in w :: x !in visiting
    decreases |w|
  {
    if |w| > 1 {
      KidsAreNodes(arcs, nodes, id);
      assert Arc(w[0], w[1]) in arcs;
      KidsAreSuccessors(arcs, id, w[1]);
      EveryKidVisited(arcs, nodes, Kids(arcs, id), visiting + {id}, w[1]);
      TailIsWalk(arcs, w);
      VisitedWalksAreSimple(arcs, nodes, w[1], visiting + {id}, w[1..]);
      assert w == [id] + w[1..];
    }
  }

  lemma TailIsWalk(arcs: seq<Arc>, w: seq<Id>)
    requires Walk(arcs, w) && |w| > 1
    ensures Walk(arcs, w[1..])
  {
    forall i | 0 <= i < |w[1..]| - 1 ensures Arc(w[1..][i], w[1..][i + 1]) in arcs {
      assert Arc(w[i + 1], w[i + 2]) in arcs;
    }
  }

  lemma HeadedWalk(arcs: seq<Arc>, id: Id, w: seq<Id>)
    requires Walk(arcs, w) && Arc(id, w[0]) in arcs
    ensures WalkFrom(arcs, [id] + w, id)
  {
    var longer := [id] + w;
    forall i | 0 <= i < |longer| - 1 ensures Arc(longer[i], longer[i + 1]) in arcs {
      if i > 0 { assert Arc(w[i - 1], w[i]) in arcs; }
    }
  }

  /** A failed visit has found a walk from its node that returns to itself or to the current path. */
  lemma {:induction false} FailedVisitHasReturningWalk(arcs: seq<Arc>, nodes: set<Id>, id: Id, visiting: set<Id>)
    returns (w: seq<Id>)
    requires Within(arcs, nodes) && id in nodes && Visit(arcs, nodes, id, visiting).Err?
    ensures WalkFrom(arcs, w, id) && (Repeats(w) || w[|w| - 1] in visiting)
    decreases nodes - visiting
  {
    if id in visiting {
      w := [id];
    } else {
      KidsAreNodes(arcs, nodes, id);
      var k := SomeKidFailed(arcs, nodes, Kids(arcs, id), visiting + {id});
      var v := FailedVisitHasReturningWalk(arcs, nodes, k, visiting + {id});
      KidsAreSuccessors(arcs, id, k);
      HeadedWalk(arcs, id, v);
      w := [id] + v;
      if Repeats(v) {
        var i, j :| 0 <= i < j < |v| && v[i] == v[j];
        assert w[i + 1] == w[j + 1];
      } else if v[|v| - 1] == id {
        assert w[0] == w[|w| - 1];
      }
    }
  }

  // ----- The tree unfolds exactly the walks -----

  /** Each node's children are its sorted successors, all the way down. */
  ghost predicate Unfolds(t: Tree, arcs: seq<Arc>) {
    && |t.children| == |Kids(arcs, t.id)|
    && forall i | 0 <= i < |t.children| :: t.children[i].id == Kids(arcs, t.id)[i] && Unfolds(t.children[i], arcs)
  }

  lemma {:induction false} VisitUnfolds(arcs: seq<Arc>, nodes: set<Id>, id: Id, visiting: set<Id>)
    requires Within(arcs, nodes) && id in nodes && Visit(arcs, nodes, id, visiting).Ok?
    ensures Visit(arcs, nodes, id, visiting).value.id == id
    ensures Unfolds(Visit(arcs, nodes, id, visiting).value, arcs)
    decreases nodes - visiting, 0, 0
  {
    KidsAreNodes(arcs, nodes, id);
    VisitAllUnfolds(arcs, nodes, Kids(arcs, id), visiting + {id});
  }

  lemma {:induction false} VisitAllUnfolds(arcs: seq<Arc>, nodes: set<Id>, kids: seq<Id>, visiting: set<Id>)
    requires Within(arcs, nodes) && (forall k | k in kids :: k in nodes) && VisitAll(arcs, nodes, kids, visiting).Ok?
    ensures var ts := VisitAll(arcs, nodes, kids, visiting).value;
            |ts| == |kids| && forall i | 0 <= i < |kids| :: ts[i].id == kids[i] && Unfolds(ts[i], arcs)
    decreases nodes - visiting, 1, |kids|
  {
    if kids != [] {
      VisitUnfolds(arcs, nodes, kids[0], visiting);
      VisitAllUnfolds(arcs, nodes, kids[1..], visiting);
    }
  }

  /** `collectPaths`. */
  function Collect(t: Tree, prefix: seq<Id>): seq<PathEntry> {
    [PathEntry(t.id, prefix + [t.id])] + CollectAll(t.children, prefix + [t.id])
  }

  function CollectAll(ts: seq<Tree>, prefix: seq<Id>): seq<PathEntry> {
    if ts == [] then [] else Collect(ts[0], prefix) + CollectAll(ts[1..], prefix)
  }

  lemma {:induction false} CollectedFromAChild(ts: seq<Tree>, prefix: seq<Id>, entry: PathEntry) returns (i: nat)
    requires entry in CollectAll(ts, prefix)
    ensures i < |ts| && entry in Collect(ts[i], prefix)
    decreases |ts|
  {
    if entry in Collect(ts[0], prefix) { i := 0; } else {
      i := CollectedFromAChild(ts[1..], prefix, entry);
      i := i + 1;
    }
  }

  lemma {:induction false} ChildIsCollected(ts: seq<Tree>, prefix: seq<Id>, i: nat, entry: PathEntry)
    requires i < |ts| && entry in Collect(ts[i], prefix)
    ensures entry in CollectAll(ts, prefix)
    decreases |ts|
  {
    if i > 0 { ChildIsCollected(ts[1..], prefix, i - 1, entry); }
  }

  lemma {:induction false} PathsAreWalks(t: Tree, arcs: seq<Arc>, prefix: seq<Id>, entry: PathEntry)
    returns (w: seq<Id>)
    requires Unfolds(t, arcs) && entry in Collect(t, prefix)
    ensures WalkBetween(arcs, w, t.id, entry.nodeId) && entry.path == prefix + w
    decreases t
  {
    if entry == PathEntry(t.id, prefix + [t.id]) {
      w := [t.id];
    } else {
      var i := CollectedFromAChild(t.children, prefix + [t.id], entry);
      var v := PathsAreWalks(t.children[i], arcs, prefix + [t.id], entry);
      KidsAreSuccessors(arcs, t.id, t.children[i].id);
      HeadedWalk(arcs, t.id, v);
      w := [t.id] + v;
    }
  }

  lemma {:induction false} WalksArePaths(t: Tree, arcs: seq<Arc>, prefix: seq<Id>, w: seq<Id>)
    requires Unfolds(t, arcs) && WalkFrom(arcs, w, t.id)
    ensures PathEntry(w[|w| - 1], prefix + w) in Collect(t, prefix)
    decreases |w|
  {
    if |w| == 1 {
      assert w == [t.id];
    } else {
      assert Arc(w[0], w[1]) in arcs;
      KidsAreSuccessors(arcs, t.id, w[1]);
      var i :| 0 <= i < |Kids(arcs, t.id)| && Kids(arcs, t.id)[i] == w[1];
      TailIsWalk(arcs, w);
      WalksArePaths(t.children[i], arcs, prefix + [t.id], w[1..]);
      assert prefix + w == (prefix + [t.id]) + w[1..];
      ChildIsCollected(t.children, prefix + [t.id], i, PathEntry(w[|w| - 1], prefix + w));
    }
  }

  /** The nodes `visited` after a successful visit. */
  function Ids(t: Tree): set<Id> {
    {t.id} + IdsOfAll(t.children)
  }

  function IdsOfAll(ts: seq<Tree>): set<Id> {
    if ts == [] then {} else Ids(ts[0]) + IdsOfAll(ts[1..])
  }

  lemma {:induction false} IdsAreCollected(t: Tree, prefix: seq<Id>, n: Id)
    ensures n in Ids(t) <==> exists entry :: entry in Collect(t, prefix) && entry.nodeId == n
    decreases t, 0
  {
    IdsOfAllAreCollected(t.children, prefix + [t.id], n);
    assert PathEntry(t.id, prefix + [t.id]) in Collect(t, prefix);
    assert forall e :: e in CollectAll(t.children, prefix + [t.id]) ==> e in Collect(t, prefix);
  }

  lemma {:induction false} IdsOfAllAreCollected(ts: seq<Tree>, prefix: seq<Id>, n: Id)
    ensures n in IdsOfAll(ts) <==> exists entry :: entry in CollectAll(ts, prefix) && entry.nodeId == n
    decreases ts
  {
    if ts != [] {
      IdsAreCollected(ts[0], prefix, n);
      IdsOfAllAreCollected(ts[1..], prefix, n);
      assert forall e ::
               e in CollectAll(ts, prefix) <==> e in Collect(ts[0], prefix) || e in CollectAll(ts[1..], prefix);
    }
  }

  /** The visited nodes are those that the root reaches. */
  lemma {:induction false} VisitedAreReached(t: Tree, arcs: seq<Arc>, n: Id)
    requires Unfolds(t, arcs)
    ensures n in Ids(t) <==> Reaches(arcs, t.id, n)
  {
    IdsAreCollected(t, [], n);
    if n in Ids(t) {
      var entry :| entry in Collect(t, []) && entry.nodeId == n;
      var w := PathsAreWalks(t, arcs, [], entry);
    }
    if Reaches(arcs, t.id, n) {
      var w :| WalkBetween(arcs, w, t.id, n);
      WalksArePaths(t, arcs, [], w);
    }
  }

  // ----- buildPrimaryScopeTree -----

  /** What `buildOrganizationGraph` guarantees. */
  ghost predicate Accepted(g: Graph) {
    && (forall i, j | 0 <= i < j < |g.nodes| :: g.nodes[i].id != g.nodes[j].id)
    && (forall i | 0 <= i < |g.edges| :: GoodEdge(g, g.edges[i]))
  }

  /** `{from, to, relationship}` of every edge outside the hierarchy. */
  function Outside(edges: seq<Edge>): seq<(Id, Id, string)> {
    if edges == [] then []
    else
      var e := edges[0];
      (if e.relationship != HIERARCHY then [(e.from, e.to, e.relationship)] else []) + Outside(edges[1..])
  }

  /** The root checks and the search from the only root. */
  function Search(arcs: seq<Arc>, participants: set<Id>, hierarchy: seq<Id>, roots: seq<Id>): Result<Option<Tree>,
      TreeError>
    requires Within(arcs, participants) && forall x | x in roots :: x in participants
  {
    if hierarchy != [] && |roots| != 1 then Err(RootCountInvalid(|roots|))
    else if roots == [] then Ok(None)
    else
      var visit := Visit(arcs, participants, roots[0], {});
      if visit.Err? then Err(CycleAt(visit.error))
      else if |Ids(visit.value)| != |hierarchy| then Err(OrphanNode)
      else Ok(Some(visit.value))
  }

  function Hierarchy(g: Graph): seq<Id> {
    Keep(NodeIds(g.nodes), Participants(g))
  }

  function Roots(g: Graph): seq<Id> {
    Keep(Hierarchy(g), Participants(g) - Targets(HierarchyArcs(g.edges)))
  }

  function Overlays(g: Graph): seq<Id> {
    SortBy(Keep(NodeIds(g.nodes), ToSet(NodeIds(g.nodes)) - Participants(g)), Self)
  }

  function ProjectGraph(g: Graph): Result<Projection, TreeError>
    requires Accepted(g)
  {
    HierarchyIsWithin(g);
    RootsAreParticipants(g);
    var root := Search(HierarchyArcs(g.edges), Participants(g), Hierarchy(g), Roots(g));
    if root.Err? then Err(root.error)
    else Ok(Projection(g.modelVersion, root.value, Overlays(g), if root.value.Some? then Collect(root.value.value, [])
                       else [],
                       Outside(g.edges)))
  }

  lemma RootsAreParticipants(g: Graph)
    ensures forall x | x in Roots(g) :: x in Participants(g)
  {
    KeepIsFilter(Hierarchy(g), Participants(g) - Targets(HierarchyArcs(g.edges)));
  }

  function Project(m: Model, forPublication: bool): Result<Projection, TreeError> {
    var built := Build(m, forPublication);
    if built.Err? then Err(GraphRejected(built.error))
    else
      AcceptedGraphs(m, forPublication);
      ProjectGraph(built.value)
  }

  lemma {:induction false} ArcsAreEdges(edges: seq<Edge>, a: Arc)
    requires a in HierarchyArcs(edges)
    ensures exists i | 0 <= i < |edges| :: edges[i].from == a.from && edges[i].to == a.to
  {
    if edges[0].relationship == HIERARCHY && a == Arc(edges[0].from, edges[0].to) {
    } else {
      ArcsAreEdges(edges[1..], a);
      var i :| 0 <= i < |edges[1..]| && edges[1..][i].from == a.from && edges[1..][i].to == a.to;
      assert edges[i + 1].from == a.from && edges[i + 1].to == a.to;
    }
  }

  /** Hierarchy arcs join participants, and participants are nodes. */
  lemma HierarchyIsWithin(g: Graph)
    requires Accepted(g)
    ensures Within(HierarchyArcs(g.edges), Participants(g))
    ensures Participants(g) <= ToSet(NodeIds(g.nodes))
  {
    var arcs := HierarchyArcs(g.edges);
    assert Endpoints(arcs) != {} ==> Participants(g) == Endpoints(arcs) + AxisNodes(g.nodes);
    forall i | 0 <= i < |arcs| ensures arcs[i].from in Endpoints(arcs) && arcs[i].to in Endpoints(arcs) { }
    forall p | p in Endpoints(arcs) ensures HasNode(g, p) {
      var k :| 0 <= k < |arcs| && (arcs[k].from == p || arcs[k].to == p);
      ArcsAreEdges(g.edges, arcs[k]);
      var i :| 0 <= i < |g.edges| && g.edges[i].from == arcs[k].from && g.edges[i].to == arcs[k].to;
      assert GoodEdge(g, g.edges[i]);
    }
    forall p | p in Participants(g) ensures p in ToSet(NodeIds(g.nodes)) {
      var i :| 0 <= i < |g.nodes| && g.nodes[i].id == p;
      assert NodeIds(g.nodes)[i] == p;
    }
  }

  predicate Unique(ids: seq<Id>) {
    !Repeats(ids)
  }

  lemma UniqueCons(x: Id, xs: seq<Id>)
    ensures Unique([x] + xs) <==> x !in xs && Unique(xs)
  {
    var ys := [x] + xs;
    if x in xs {
      var i :| 0 <= i < |xs| && xs[i] == x;
      assert ys[0] == ys[i + 1];
    }
    if Repeats(xs) {
      var i, j :| 0 <= i < j < |xs| && xs[i] == xs[j];
      assert ys[i + 1] == ys[j + 1];
    }
    if Repeats(ys) {
      var i, j :| 0 <= i < j < |ys| && ys[i] == ys[j];
      if i > 0 { assert xs[i - 1] == xs[j - 1]; }
    }
  }

  lemma {:induction false} KeepIsFilter(ids: seq<Id>, wanted: set<Id>)
    ensures forall x :: x in Keep(ids, wanted) <==> x in ids && x in wanted
    ensures Unique(ids) ==> Unique(Keep(ids, wanted)) && |Keep(ids, wanted)| == |ToSet(ids) * wanted|
    decreases |ids|
  {
    if ids != [] {
      KeepIsFilter(ids[1..], wanted);
      assert ids == [ids[0]] + ids[1..];
      UniqueCons(ids[0], ids[1..]);
      UniqueCons(ids[0], Keep(ids[1..], wanted));
      assert ToSet(ids) * wanted == (if ids[0] in wanted then {ids[0]} else {}) + ToSet(ids[1..]) * wanted;
    }
  }

  // ----- When it succeeds, and with which error it fails -----

  /** Participants without incoming hierarchy edge. */
  function Sources(g: Graph): set<Id> {
    Participants(g) - Targets(HierarchyArcs(g.edges))
  }

  lemma NodeIdsAreUnique(g: Graph)
    requires Accepted(g)
    ensures Unique(NodeIds(g.nodes))
  {
  }

  lemma RootsAreSources(g: Graph)
    requires Accepted(g)
    ensures |Hierarchy(g)| == |Participants(g)| && |Roots(g)| == |Sources(g)|
    ensures forall x :: x in Roots(g) <==> x in Sources(g)
  {
    HierarchyIsWithin(g);
    NodeIdsAreUnique(g);
    FilterOfSuperset(NodeIds(g.nodes), Participants(g));
    FilterOfSuperset(Hierarchy(g), Sources(g));
  }

  lemma FilterOfSuperset(ids: seq<Id>, wanted: set<Id>)
    requires Unique(ids) && wanted <= ToSet(ids)
    ensures Unique(Keep(ids, wanted)) && |Keep(ids, wanted)| == |wanted| && ToSet(Keep(ids, wanted)) == wanted
    ensures forall x :: x in Keep(ids, wanted) <==> x in wanted
  {
    KeepIsFilter(ids, wanted);
    assert ToSet(ids) * wanted == wanted;
  }

  /** With one source, the outcome is decided by the search from it. */
  lemma OneSource(g: Graph) returns (root: Id, visit: Result<Tree, Id>)
    requires Accepted(g) && |Sources(g)| == 1
    ensures Sources(g) == {root} && root in Participants(g)
    ensures Within(HierarchyArcs(g.edges), Participants(g))
    ensures visit == Visit(HierarchyArcs(g.edges), Participants(g), root, {})
    ensures ProjectGraph(g).Ok? <==> visit.Ok? && Ids(visit.value) == Participants(g)
    ensures visit.Err? <==> ProjectGraph(g).Err? && ProjectGraph(g).error.CycleAt?
    ensures (visit.Ok? && Ids(visit.value) != Participants(g)) <==>
              ProjectGraph(g).Err? && ProjectGraph(g).error.OrphanNode?
    ensures ProjectGraph(g).Ok? ==> ProjectGraph(g).value.root == Some(visit.value)
    ensures ProjectGraph(g).Ok? ==> ProjectGraph(g).value.paths == Collect(visit.value, [])
    ensures visit.Ok? ==>
              visit.value.id == root && Unfolds(visit.value, HierarchyArcs(g.edges)) &&
              Ids(visit.value) <= Participants(g)
  {
    RootsAreSources(g);
    HierarchyIsWithin(g);
    root := Roots(g)[0];
    assert root in Roots(g);
    SingletonSet(Sources(g), root);
    visit := Visit(HierarchyArcs(g.edges), Participants(g), root, {});
    if visit.Ok? {
      VisitUnfolds(HierarchyArcs(g.edges), Participants(g), root, {});
      VisitedStayInside(HierarchyArcs(g.edges), Participants(g), root, visit.value);
      if |Ids(visit.value)| == |Participants(g)| { SubsetOfSameSize(Ids(visit.value), Participants(g)); }
    }
  }

  /** Without exactly one source, it is a root-count error. */
  lemma NotOneSource(g: Graph)
    requires Accepted(g) && Participants(g) != {} && |Sources(g)| != 1
    ensures ProjectGraph(g) == Err(RootCountInvalid(|Sources(g)|))
  {
    RootsAreSources(g);
  }

  lemma OnlySource(g: Graph, root: Id, n: Id)
    requires Accepted(g) && Sources(g) == {root} && n in Participants(g)
    ensures !HasIncoming(HierarchyArcs(g.edges), n) ==> n == root
  {
    assert n !in Targets(HierarchyArcs(g.edges)) ==> n in Sources(g);
  }

  /** In an acyclic hierarchy with one source, the search from that source succeeds and visits everyone. */
  lemma {:induction false} TreesAreVisited(g: Graph, root: Id)
    requires Accepted(g) && Sources(g) == {root} && Within(HierarchyArcs(g.edges), Participants(g))
    requires Acyclic(HierarchyArcs(g.edges)) && root in Participants(g)
    ensures Visit(HierarchyArcs(g.edges), Participants(g), root, {}).Ok?
    ensures Ids(Visit(HierarchyArcs(g.edges), Participants(g), root, {}).value) == Participants(g)
  {
    var arcs, participants := HierarchyArcs(g.edges), Participants(g);
    var visit := Visit(arcs, participants, root, {});
    if visit.Err? {
      var w := FailedVisitHasReturningWalk(arcs, participants, root, {});
      AcyclicWalksAreSimple(arcs, w);
    } else {
      VisitUnfolds(arcs, participants, root, {});
      forall n | n in participants ensures n in Ids(visit.value) {
        var v := BackToASource(arcs, participants, [n]);
        OnlySource(g, root, v[0]);
        assert WalkBetween(arcs, v, root, n);
        VisitedAreReached(visit.value, arcs, n);
      }
      VisitedStayInside(arcs, participants, root, visit.value);
    }
  }

  lemma VisitedStayInside(arcs: seq<Arc>, nodes: set<Id>, root: Id, t: Tree)
    requires Within(arcs, nodes) && root in nodes && Unfolds(t, arcs) && t.id == root
    ensures Ids(t) <= nodes
  {
    forall n | n in Ids(t) ensures n in nodes {
      VisitedAreReached(t, arcs, n);
      var w :| WalkBetween(arcs, w, root, n);
      WalkStays(arcs, nodes, w, |w| - 1);
    }
  }

  /** A successful search excludes every cycle it can reach. */
  lemma {:induction false} NoReachableCycle(arcs: seq<Arc>, nodes: set<Id>, root: Id, c: seq<Id>)
    requires Within(arcs, nodes) && root in nodes && Visit(arcs, nodes, root, {}).Ok?
    requires Cycle(arcs, c)
    ensures !Reaches(arcs, root, c[0])
  {
    if Reaches(arcs, root, c[0]) {
      var w :| WalkBetween(arcs, w, root, c[0]);
      Append(arcs, w, c);
      var longer := w + c[1..];
      assert longer[|w| - 1] == longer[|longer| - 1];
      VisitedWalksAreSimple(arcs, nodes, root, {}, longer);
    }
  }

  lemma CyclesAreInside(arcs: seq<Arc>, nodes: set<Id>, c: seq<Id>)
    requires Within(arcs, nodes) && Cycle(arcs, c)
    ensures c[0] in nodes
  {
    assert Arc(c[0], c[1]) in arcs;
    var i :| 0 <= i < |arcs| && arcs[i] == Arc(c[0], c[1]);
  }

  /** `buildPrimaryScopeTree` succeeds on an accepted graph with at least one participant exactly when the
      hierarchy has no cycle and exactly one participant has no incoming hierarchy edge. */
  lemma {:induction false} SucceedsExactlyOnTrees(g: Graph)
    requires Accepted(g) && Participants(g) != {}
    ensures ProjectGraph(g).Ok? <==> Acyclic(HierarchyArcs(g.edges)) && |Sources(g)| == 1
  {
    if |Sources(g)| != 1 {
      NotOneSource(g);
    } else {
      var root, visit := OneSource(g);
      if Acyclic(HierarchyArcs(g.edges)) {
        TreesAreVisited(g, root);
      } else if ProjectGraph(g).Ok? {
        var c :| Cycle(HierarchyArcs(g.edges), c);
        CyclesAreInside(HierarchyArcs(g.edges), Participants(g), c);
        VisitedAreReached(visit.value, HierarchyArcs(g.edges), c[0]);
        NoReachableCycle(HierarchyArcs(g.edges), Participants(g), root, c);
      }
    }
  }

  lemma SingletonSet<T>(s: set<T>, x: T)
    requires |s| == 1 && x in s
    ensures s == {x}
  {
    assert |s - {x}| == 0;
  }

  lemma SubsetOfSameSize<T>(a: set<T>, b: set<T>)
    requires a <= b && |a| == |b|
    ensures a == b
  {
    assert |b - a| == |b| - |a|;
  }

  /** With which error it fails: no unique source is a root-count error; given a unique source, a cycle the
      source reaches is a cycle error, and cycles out of its reach are an orphan error. */
  lemma {:induction false} FailsWithTheRightError(g: Graph)
    requires Accepted(g) && Participants(g) != {}
    ensures var arcs := HierarchyArcs(g.edges); var r := ProjectGraph(g);
            && (r.Err? && r.error.RootCountInvalid? <==> |Sources(g)| != 1)
            && (r.Err? && r.error.RootCountInvalid? ==> r.error.count == |Sources(g)|)
            && (r.Err? && r.error.CycleAt? <==>
                |Sources(g)| == 1 && exists c, root ::
                      root in Sources(g) && Cycle(arcs, c) && Reaches(arcs, root, c[0]))
            && (r.Err? && r.error.OrphanNode? <==>
                |Sources(g)| == 1 && !Acyclic(arcs) && forall c, root ::
                      root in Sources(g) && Cycle(arcs, c) ==> !Reaches(arcs, root, c[0]))
  {
    var arcs, participants := HierarchyArcs(g.edges), Participants(g);
    SucceedsExactlyOnTrees(g);
    if |Sources(g)| != 1 {
      NotOneSource(g);
    } else {
      var root, visit := OneSource(g);
      if visit.Err? {
        var w := FailedVisitHasReturningWalk(arcs, participants, root, {});
        var c := RepeatsMeansCycle(arcs, w);
        var k :| 0 <= k < |w| && w[k] == c[0];
        PrefixIsWalk(arcs, w, k);
        assert WalkBetween(arcs, w[..k + 1], root, c[0]);
      } else {
        forall c | Cycle(arcs, c) ensures !Reaches(arcs, root, c[0]) {
          NoReachableCycle(arcs, participants, root, c);
        }
      }
    }
  }

  lemma PrefixIsWalk(arcs: seq<Arc>, w: seq<Id>, k: nat)
    requires Walk(arcs, w) && k < |w|
    ensures Walk(arcs, w[..k + 1])
  {
    var v := w[..k + 1];
    forall i | 0 <= i < |v| - 1 ensures Arc(v[i], v[i + 1]) in arcs {
      assert Arc(w[i], w[i + 1]) in arcs;
    }
  }

  /** On success, the paths are exactly the hierarchy walks from the root, none of them meets a node twice,
      and every participant has one. */
  lemma {:induction false} PathsAreExact(g: Graph)
    requires Accepted(g) && Participants(g) != {} && ProjectGraph(g).Ok?
    ensures var p := ProjectGraph(g).value; var arcs := HierarchyArcs(g.edges);
            && p.root.Some? && Sources(g) == {p.root.value.id}
            && (forall w, n :: PathEntry(n, w) in p.paths <==> WalkBetween(arcs, w, p.root.value.id, n))
            && (forall e | e in p.paths :: !Repeats(e.path) && e.nodeId in Participants(g))
            && (forall n | n in Participants(g) :: exists w :: PathEntry(n, w) in p.paths)
  {
    SucceedsExactlyOnTrees(g);
    var root, visit := OneSource(g);
    PathsExactlyWalks(HierarchyArcs(g.edges), Participants(g), root, visit.value);
  }

  /** On success, overlays and participants partition the nodes of the graph. */
  lemma {:induction false} OverlaysAndParticipantsPartition(g: Graph)
    requires Accepted(g) && ProjectGraph(g).Ok?
    ensures var overlays := ToSet(ProjectGraph(g).value.overlays);
            overlays + Participants(g) == ToSet(NodeIds(g.nodes)) && overlays !! Participants(g)
  {
    OverlaysAreTheRest(g);
    HierarchyIsWithin(g);
  }

  lemma {:induction false} PathsExactlyWalks(arcs: seq<Arc>, nodes: set<Id>, root: Id, t: Tree)
    requires Within(arcs, nodes) && root in nodes && Visit(arcs, nodes, root, {}) == Ok(t)
    requires Unfolds(t, arcs) && t.id == root && Ids(t) == nodes
    ensures forall w, n :: PathEntry(n, w) in Collect(t, []) <==> WalkBetween(arcs, w, root, n)
    ensures forall e | e in Collect(t, []) :: !Repeats(e.path) && e.nodeId in nodes
    ensures forall n | n in nodes :: exists w :: PathEntry(n, w) in Collect(t, [])
  {
    forall w, n ensures PathEntry(n, w) in Collect(t, []) <==> WalkBetween(arcs, w, root, n) {
      if PathEntry(n, w) in Collect(t, []) {
        var v := PathsAreWalks(t, arcs, [], PathEntry(n, w));
        assert [] + v == v;
      }
      if WalkBetween(arcs, w, root, n) {
        WalksArePaths(t, arcs, [], w);
        assert [] + w == w;
      }
    }
    forall e | e in Collect(t, []) ensures !Repeats(e.path) && e.nodeId in nodes {
      assert e == PathEntry(e.nodeId, e.path);
      VisitedWalksAreSimple(arcs, nodes, root, {}, e.path);
      IdsAreCollected(t, [], e.nodeId);
    }
    forall n | n in nodes ensures exists w :: PathEntry(n, w) in Collect(t, []) {
      IdsAreCollected(t, [], n);
      var e :| e in Collect(t, []) && e.nodeId == n;
      assert PathEntry(n, e.path) in Collect(t, []);
    }
  }

  lemma OverlaysAreTheRest(g: Graph)
    ensures forall n :: n in Overlays(g) <==> n in NodeIds(g.nodes) && n !in Participants(g)
  {
    var ids := NodeIds(g.nodes);
    var rest := Keep(ids, ToSet(ids) - Participants(g));
    KeepIsFilter(ids, ToSet(ids) - Participants(g));
    SortPermutes(rest, Self);
    forall n ensures n in SortBy(rest, Self) <==> n in rest {
      assert n in SortBy(rest, Self) <==> n in multiset(SortBy(rest, Self));
      assert n in rest <==> n in multiset(rest);
    }
  }
}
