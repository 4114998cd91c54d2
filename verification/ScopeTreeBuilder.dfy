/** The imperative core of `buildPrimaryScopeTree`: it pushes children and paths, and keeps the `visiting`
    and `visited` sets of the depth-first search up to date. Proved to compute `ScopeTree.Project`. */
module ScopeTreeBuilder {
  import opened Wrappers
  import opened Sorting
  import opened Walks
  import opened OrganizationGraph
  import opened ScopeTree

  class TreeBuilder {
    var children: map<Id, seq<Id>>
    var targets: set<Id>
    var visiting: set<Id>
    var visited: set<Id>
    var paths: seq<PathEntry>

    constructor ()
      ensures visiting == {} && visited == {} && paths == []
    {
      children, targets, visiting, visited, paths := map[], {}, {}, {}, [];
    }

    ghost predicate Linked(arcs: seq<Arc>, nodes: set<Id>)
      reads this
    {
      children.Keys == nodes && forall n | n in nodes :: children[n] == ChildrenOf(arcs, n)
    }

    method Link(arcs: seq<Arc>, nodes: set<Id>)
      requires Within(arcs, nodes)
      modifies `children, `targets
      ensures Linked(arcs, nodes) && targets == Targets(arcs)
    {
      children := map n | n in nodes :: [];
      targets := {};
      for i := 0 to |arcs|
        invariant Linked(arcs[..i], nodes) && targets == Targets(arcs[..i])
      {
        var arc := arcs[i];
        OneMoreArc(arcs, i);
        forall n | n in nodes ensures n in children { }
        children := children[arc.from := children[arc.from] + [arc.to]];
        targets := targets + {arc.to};
      }
      assert arcs[..|arcs|] == arcs;
    }

    method VisitNode(ghost arcs: seq<Arc>, ghost nodes: set<Id>, id: Id) returns (r: Result<Tree, Id>)
      requires Within(arcs, nodes) && id in nodes && Linked(arcs, nodes)
      modifies `visiting, `visited
      ensures r == Visit(arcs, nodes, id, old(visiting))
      ensures r.Ok? ==> visiting == old(visiting) && visited == old(visited) + Ids(r.value)
      decreases nodes - visiting, 0
    {
      if id in visiting { return Err(id); }
      visiting := visiting + {id};
      KidsAreNodes(arcs, nodes, id);
      var ts := VisitKids(arcs, nodes, SortBy(children[id], Self));
      if ts.Err? { return Err(ts.error); }
      visiting := visiting - {id};
      visited := visited + {id};
      r := Ok(Branch(id, ts.value));
    }

    /** `.map(visit)`. */
    method VisitKids(ghost arcs: seq<Arc>, ghost nodes: set<Id>, kids: seq<Id>) returns (r: Result<seq<Tree>, Id>)
      requires Within(arcs, nodes) && (forall k | k in kids :: k in nodes) && Linked(arcs, nodes)
      modifies `visiting, `visited
      ensures r == VisitAll(arcs, nodes, kids, old(visiting))
      ensures r.Ok? ==> visiting == old(visiting) && visited == old(visited) + IdsOfAll(r.value)
      decreases nodes - visiting, 1
    {
      var ts: seq<Tree> := [];
      AfterNone(VisitAll(arcs, nodes, kids, visiting));
      assert kids[0..] == kids;
      for i := 0 to |kids|
        invariant visiting == old(visiting) && visited == old(visited) + IdsOfAll(ts)
        invariant VisitAll(arcs, nodes, kids, visiting) == After(ts, VisitAll(arcs, nodes, kids[i..], visiting))
      {
        var t := VisitNode(arcs, nodes, kids[i]);
        assert kids[i..][1..] == kids[i + 1..];
        if t.Err? { return Err(t.error); }
        IdsOfLonger(ts, t.value);
        AfterOneMore(ts, t.value, VisitAll(arcs, nodes, kids[i + 1..], visiting));
        ts := ts + [t.value];
      }
      assert kids[|kids|..] == [] && ts + [] == ts;
      r := Ok(ts);
    }

    method CollectPaths(t: Tree, prefix: seq<Id>)
      modifies `paths
      ensures paths == old(paths) + Collect(t, prefix)
      decreases t
    {
      var next := prefix + [t.id];
      paths := paths + [PathEntry(t.id, next)];
      for i := 0 to |t.children|
        invariant paths == old(paths) + [PathEntry(t.id, next)] + CollectAll(t.children[..i], next)
      {
        CollectPaths(t.children[i], next);
        CollectLonger(t.children[..i], t.children[i], next);
        assert t.children[..i + 1] == t.children[..i] + [t.children[i]];
      }
      assert t.children[..|t.children|] == t.children;
    }

    /** The root checks and the search, on a fresh builder. */
    method SearchFromRoot(ghost arcs: seq<Arc>, ghost participants: set<Id>, hierarchy: seq<Id>, roots: seq<Id>)
      returns (r: Result<Option<Tree>, TreeError>)
      requires Within(arcs, participants) && Linked(arcs, participants) && forall x | x in roots :: x in participants
      requires visiting == {} && visited == {} && (hierarchy == [] ==> roots == [])
      modifies `visiting, `visited
      ensures r == Search(arcs, participants, hierarchy, roots)
    {
      if hierarchy != [] && |roots| != 1 { return Err(RootCountInvalid(|roots|)); }
      var root: Option<Tree> := None;
      if roots != [] {
        var visit := VisitNode(arcs, participants, roots[0]);
        if visit.Err? { return Err(CycleAt(visit.error)); }
        root := Some(visit.value);
      }
      if |visited| != |hierarchy| { return Err(OrphanNode); }
      r := Ok(root);
    }

    /** Participants, the linked children, and the roots. */
    method Prepare(g: Graph) returns (hierarchy: seq<Id>, roots: seq<Id>)
      requires Accepted(g)
      modifies `children, `targets
      ensures Within(HierarchyArcs(g.edges), Participants(g)) && Linked(HierarchyArcs(g.edges), Participants(g))
      ensures hierarchy == Hierarchy(g) && roots == Roots(g)
    {
      HierarchyIsWithin(g);
      Link(HierarchyArcs(g.edges), Participants(g));
      hierarchy := Hierarchy(g);
      roots := Keep(hierarchy, Participants(g) - targets);
    }

    method BuildFromGraph(g: Graph) returns (r: Result<Projection, TreeError>)
      requires Accepted(g) && visiting == {} && visited == {} && paths == []
      modifies this
      ensures r == ProjectGraph(g)
    {
      var hierarchy, roots := Prepare(g);
      RootsAreParticipants(g);
      assert hierarchy == [] ==> roots == [];
      var root := SearchFromRoot(HierarchyArcs(g.edges), Participants(g), hierarchy, roots);
      if root.Err? { return Err(root.error); }
      if root.value.Some? {
        CollectPaths(root.value.value, []);
        assert paths == Collect(root.value.value, []);
      }
      r := Ok(Projection(g.modelVersion, root.value, Overlays(g), paths, Outside(g.edges)));
    }

    method BuildPrimaryScopeTree(m: Model, forPublication: bool) returns (r: Result<Projection, TreeError>)
      requires visiting == {} && visited == {} && paths == []
      modifies this
      ensures r == Project(m, forPublication)
    {
      var built := Build(m, forPublication);
      if built.Err? { return Err(GraphRejected(built.error)); }
      AcceptedGraphs(m, forPublication);
      r := BuildFromGraph(built.value);
    }
  }

  lemma OneMoreArc(arcs: seq<Arc>, i: nat)
    requires i < |arcs|
    ensures forall n ::
              ChildrenOf(arcs[..i + 1], n) == ChildrenOf(arcs[..i], n) + if arcs[i].from == n then [arcs[i].to] else []
    ensures Targets(arcs[..i + 1]) == Targets(arcs[..i]) + {arcs[i].to}
  {
    var longer := arcs[..i + 1];
    assert longer[..i] == arcs[..i] && longer[i] == arcs[i];
    forall t | t in Targets(arcs[..i]) ensures t in Targets(longer) {
      var k :| 0 <= k < i && arcs[..i][k].to == t;
      assert longer[k].to == t;
    }
  }

  lemma AfterNone(rest: Result<seq<Tree>, Id>)
    ensures After([], rest) == rest
  {
    if rest.Ok? { assert [] + rest.value == rest.value; }
  }

  /** Results gathered before the rest of a list is visited. */
  ghost function After(ts: seq<Tree>, rest: Result<seq<Tree>, Id>): Result<seq<Tree>, Id> {
    if rest.Err? then rest else Ok(ts + rest.value)
  }

  lemma AfterOneMore(ts: seq<Tree>, t: Tree, rest: Result<seq<Tree>, Id>)
    ensures After(ts, After([t], rest)) == After(ts + [t], rest)
  {
    if rest.Ok? { assert ts + ([t] + rest.value) == (ts + [t]) + rest.value; }
  }

  lemma {:induction false} IdsOfLonger(ts: seq<Tree>, t: Tree)
    ensures IdsOfAll(ts + [t]) == IdsOfAll(ts) + Ids(t)
    decreases |ts|
  {
    if ts != [] {
      IdsOfLonger(ts[1..], t);
      assert (ts + [t])[1..] == ts[1..] + [t];
    } else {
      assert ([t])[1..] == [];
    }
  }

  lemma {:induction false} CollectLonger(ts: seq<Tree>, t: Tree, prefix: seq<Id>)
    ensures CollectAll(ts + [t], prefix) == CollectAll(ts, prefix) + Collect(t, prefix)
    decreases |ts|
  {
    if ts != [] {
      CollectLonger(ts[1..], t, prefix);
      assert (ts + [t])[1..] == ts[1..] + [t];
    } else {
      assert [t][1..] == [];
    }
  }
}
