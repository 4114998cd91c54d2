/** `buildReconciliationWorkItems` of backend/organization-mapping/projections.js: what has to be looked at again
    when one published graph replaces another. */
module ReconciliationWork {
  import opened Wrappers
  import opened OrganizationGraph
  import S = Sorting

  datatype Target = OnNode(id: Id) | OnRelationship(key: string) | OnDimensions

  datatype Impact = RevalidationRequired | AssignmentInvalid | SourceRelationshipStale | BroadeningPossible
                  | NarrowingPossible | ManualReviewRequired

  datatype Reason = ArchivedValue | ChangedCanonicalBinding | InvalidatedSourceProvenance | StatusChanged
                  | RemovedRelationship | RelationshipProvenanceChanged | DimensionConfigurationChanged

  datatype Item = Item(target: Target, impact: Impact, reason: Reason)

  function TargetName(t: Target): string {
    match t
    case OnNode(id) => "organization_model_node:" + id
    case OnRelationship(key) => "organization_model_relationship:" + key
    case OnDimensions => "dimension_configuration:all"
  }

  function ReasonName(r: Reason): string {
    match r
    case ArchivedValue => "archived_value"
    case ChangedCanonicalBinding => "changed_canonical_binding"
    case InvalidatedSourceProvenance => "invalidated_source_provenance"
    case StatusChanged => "status_changed"
    case RemovedRelationship => "removed_relationship"
    case RelationshipProvenanceChanged => "relationship_provenance_changed"
    case DimensionConfigurationChanged => "dimension_configuration_changed"
  }

  function ItemKey(i: Item): string {
    TargetName(i.target) + ":" + ReasonName(i.reason)
  }

  // ----- One node, one relationship -----

  /** `new Map(...)`: of several entries with one key the last stands. */
  function LastNode(nodes: seq<Node>, id: Id): Option<Node> {
    if nodes == [] then None
    else if nodes[|nodes| - 1].id == id then Some(nodes[|nodes| - 1]) else LastNode(nodes[..|nodes| - 1], id)
  }

  function LastEdge(edges: seq<Edge>, key: string): Option<Edge> {
    if edges == [] then None
    else if EdgeKey(edges[|edges| - 1]) == key then Some(edges[|edges| - 1]) else LastEdge(edges[..|edges| - 1], key)
  }

  /** The first difference that matters, in this order; other fields, such as the title, do not matter. */
  function NodeChange(before: Node, after: Option<Node>): Option<(Impact, Reason)> {
    if after.None? then Some((RevalidationRequired, ArchivedValue))
    else if before.canonicalBinding != after.value.canonicalBinding
            then Some((AssignmentInvalid, ChangedCanonicalBinding))
    else if before.provenance != after.value.provenance
            then Some((SourceRelationshipStale, InvalidatedSourceProvenance))
    else if before.status != after.value.status then
      Some((if after.value.status == "active" then BroadeningPossible else NarrowingPossible, StatusChanged))
    else None
  }

  function EdgeChange(before: Edge, after: Option<Edge>): Option<(Impact, Reason)> {
    if after.None? then Some((SourceRelationshipStale, RemovedRelationship))
    else if before.provenance != after.value.provenance
            then Some((SourceRelationshipStale, RelationshipProvenanceChanged))
    else None
  }

  function ItemFor(t: Target, change: Option<(Impact, Reason)>): seq<Item> {
    if change.None? then [] else [Item(t, change.value.0, change.value.1)]
  }

  // ----- All of them -----

  function NodeItems(before: seq<Node>, after: seq<Node>): seq<Item> {
    if before == [] then []
    else
      var n := before[|before| - 1];
      NodeItems(before[..|before| - 1], after) + ItemFor(OnNode(n.id), NodeChange(n, LastNode(after, n.id)))
  }

  /** An edge is compared only where it is the last of its key. */
  function EdgeItems(before: seq<Edge>, k: nat, after: seq<Edge>): seq<Item>
    requires k <= |before|
    decreases k
  {
    if k == 0 then []
    else
      var e := before[k - 1];
      EdgeItems(before, k - 1, after) +
      if Repeated(before, k - 1) then []
         else ItemFor(OnRelationship(EdgeKey(e)), EdgeChange(e, LastEdge(after, EdgeKey(e))))
  }

  predicate Repeated(edges: seq<Edge>, i: nat)
    requires i < |edges|
  {
    exists j | i < j < |edges| :: EdgeKey(edges[j]) == EdgeKey(edges[i])
  }

  function DimensionItems(changed: bool): seq<Item> {
    ItemFor(OnDimensions, if changed then Some((ManualReviewRequired, DimensionConfigurationChanged)) else None)
  }

  function Items(before: Option<Graph>, after: Graph, dimensionsChanged: bool): seq<Item> {
    if before.None? then []
    else
      NodeItems(before.value.nodes, after.nodes) + EdgeItems(before.value.edges, |before.value.edges|, after.edges) +
      DimensionItems(dimensionsChanged)
  }

  // ----- Exactly the changes, each once -----

  /** What there is to look at again: whatever was there and is gone or different in what matters. New nodes and
      new relationships are never on the list. */
  ghost predicate Affected(before: Graph, after: Graph, dimensionsChanged: bool, t: Target) {
    match t
    case OnNode(id) =>
      exists i | 0 <= i < |before.nodes| ::
            before.nodes[i].id == id && NodeChange(before.nodes[i], LastNode(after.nodes, id)).Some?
    case OnRelationship(key) =>
      exists i | 0 <= i < |before.edges| ::
        EdgeKey(before.edges[i]) == key && !Repeated(before.edges, i) &&
            EdgeChange(before.edges[i], LastEdge(after.edges, key)).Some?
    case OnDimensions => dimensionsChanged
  }

  predicate Names(items: seq<Item>, t: Target) {
    exists i | 0 <= i < |items| :: items[i].target == t
  }

  lemma NamesBoth(a: seq<Item>, b: seq<Item>, t: Target)
    ensures Names(a + b, t) <==> Names(a, t) || Names(b, t)
  {
    if i :| 0 <= i < |a| && a[i].target == t {
      assert (a + b)[i].target == t;
    }
    if i :| 0 <= i < |b| && b[i].target == t {
      assert (a + b)[|a| + i].target == t;
    }
  }

  lemma NamesItem(t: Target, change: Option<(Impact, Reason)>, u: Target)
    ensures Names(ItemFor(t, change), u) <==> change.Some? && t == u
  {
    if change.Some? {
      assert ItemFor(t, change)[0].target == t;
    }
  }

  lemma {:induction false} NodeItemsAreTheChanges(before: seq<Node>, after: seq<Node>, t: Target)
    ensures Names(NodeItems(before, after), t) <==>
            t.OnNode? && exists i | 0 <= i < |before| ::
                  before[i].id == t.id && NodeChange(before[i], LastNode(after, t.id)).Some?
    decreases |before|
  {
    if before != [] {
      var n := |before| - 1;
      var last := ItemFor(OnNode(before[n].id), NodeChange(before[n], LastNode(after, before[n].id)));
      NodeItemsAreTheChanges(before[..n], after, t);
      NamesBoth(NodeItems(before[..n], after), last, t);
      NamesItem(OnNode(before[n].id), NodeChange(before[n], LastNode(after, before[n].id)), t);
      if t.OnNode? {
        assert (exists i | 0 <= i < |before| ::
                before[i].id == t.id && NodeChange(before[i], LastNode(after, t.id)).Some?) <==>
               (exists i | 0 <= i < n ::
                before[..n][i].id == t.id && NodeChange(before[..n][i], LastNode(after, t.id)).Some?) ||
               (before[n].id == t.id && NodeChange(before[n], LastNode(after, t.id)).Some?) by {
          assert forall i | 0 <= i < n :: before[..n][i] == before[i];
        }
      }
    }
  }

  lemma {:induction false} EdgeItemsAreTheChanges(before: seq<Edge>, k: nat, after: seq<Edge>, t: Target)
    requires k <= |before|
    ensures Names(EdgeItems(before, k, after), t) <==>
            t.OnRelationship? && exists i | 0 <= i < k ::
              EdgeKey(before[i]) == t.key && !Repeated(before, i) && EdgeChange(before[i], LastEdge(after, t.key)).Some?
    decreases k
  {
    if k > 0 {
      var e := before[k - 1];
      var last := if Repeated(before, k - 1) then []
          else ItemFor(OnRelationship(EdgeKey(e)), EdgeChange(e, LastEdge(after, EdgeKey(e))));
      EdgeItemsAreTheChanges(before, k - 1, after, t);
      NamesBoth(EdgeItems(before, k - 1, after), last, t);
      NamesItem(OnRelationship(EdgeKey(e)), EdgeChange(e, LastEdge(after, EdgeKey(e))), t);
    }
  }

  /** The work items name exactly the affected nodes, relationships and dimensions. */
  lemma WorkItemsAreTheChanges(before: Graph, after: Graph, dimensionsChanged: bool, t: Target)
    ensures Names(Items(Some(before), after, dimensionsChanged), t) <==> Affected(before, after, dimensionsChanged, t)
  {
    var nodes := NodeItems(before.nodes, after.nodes);
    var edges := EdgeItems(before.edges, |before.edges|, after.edges);
    NamesBoth(nodes, edges, t);
    NamesBoth(nodes + edges, DimensionItems(dimensionsChanged), t);
    NamesItem(OnDimensions, if dimensionsChanged then Some((ManualReviewRequired, DimensionConfigurationChanged))
              else None, t);
    NodeItemsAreTheChanges(before.nodes, after.nodes, t);
    EdgeItemsAreTheChanges(before.edges, |before.edges|, after.edges, t);
  }

  lemma NamesInAnyOrder(a: seq<Item>, b: seq<Item>, t: Target)
    requires multiset(a) == multiset(b) && Names(a, t)
    ensures Names(b, t)
  {
    var i :| 0 <= i < |a| && a[i].target == t;
    var x := a[i];
    assert x in multiset(a);
    assert x in b;
    var j :| 0 <= j < |b| && b[j] == x;
    assert b[j].target == t;
  }

  lemma SortingKeepsNames(items: seq<Item>, t: Target)
    ensures Names(S.SortBy(items, ItemKey), t) <==> Names(items, t)
  {
    var sorted := S.SortBy(items, ItemKey);
    S.SortPermutes(items, ItemKey);
    if Names(items, t) {
      NamesInAnyOrder(items, sorted, t);
    }
    if Names(sorted, t) {
      NamesInAnyOrder(sorted, items, t);
    }
  }

  /** The three loops, and the final sort. */
  method BuildReconciliationWorkItems(before: Option<Graph>, after: Graph, dimensionsChanged: bool)
    returns (items: seq<Item>)
    ensures items == S.SortBy(Items(before, after, dimensionsChanged), ItemKey)
    ensures before.None? ==> items == []
    ensures before.Some? ==> forall t :: Names(items, t) <==> Affected(before.value, after, dimensionsChanged, t)
  {
    if before.None? {
      return [];
    }
    items := [];
    var nodes, edges := before.value.nodes, before.value.edges;
    for i := 0 to |nodes|
      invariant items == NodeItems(nodes[..i], after.nodes)
    {
      assert nodes[..i + 1][..i] == nodes[..i];
      items := items + ItemFor(OnNode(nodes[i].id), NodeChange(nodes[i], LastNode(after.nodes, nodes[i].id)));
    }
    assert nodes[..|nodes|] == nodes;
    ghost var first := items;
    for i := 0 to |edges|
      invariant items == first + EdgeItems(edges, i, after.edges)
    {
      if !Repeated(edges, i) {
        items := items + ItemFor(OnRelationship(EdgeKey(edges[i])),
                                 EdgeChange(edges[i], LastEdge(after.edges, EdgeKey(edges[i]))));
      }
    }
    if dimensionsChanged {
      items := items + [Item(OnDimensions, ManualReviewRequired, DimensionConfigurationChanged)];
    }
    assert items == Items(before, after, dimensionsChanged);
    forall t
      ensures Names(S.SortBy(items, ItemKey), t) <==> Affected(before.value, after, dimensionsChanged, t)
    {
      SortingKeepsNames(items, t);
      WorkItemsAreTheChanges(before.value, after, dimensionsChanged, t);
    }
    items := S.SortBy(items, ItemKey);
  }
}
