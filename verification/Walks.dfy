/** Walks, cycles and reachability in a finite directed graph given by its list of edges. */
module Walks {

  type Id = string

  datatype Arc = Arc(from: Id, to: Id)

  /** A non-empty sequence of nodes, each joined to the next by an arc. */
  ghost predicate Walk(arcs: seq<Arc>, w: seq<Id>) {
    && |w| > 0
    && forall i | 0 <= i < |w| - 1 :: Arc(w[i], w[i + 1]) in arcs
  }

  ghost predicate WalkFrom(arcs: seq<Arc>, w: seq<Id>, start: Id) {
    Walk(arcs, w) && w[0] == start
  }

  ghost predicate WalkBetween(arcs: seq<Arc>, w: seq<Id>, start: Id, end: Id) {
    WalkFrom(arcs, w, start) && w[|w| - 1] == end
  }

  ghost predicate Reaches(arcs: seq<Arc>, start: Id, end: Id) {
    exists w :: WalkBetween(arcs, w, start, end)
  }

  predicate Repeats(w: seq<Id>) {
    exists i, j | 0 <= i < j < |w| :: w[i] == w[j]
  }

  /** A closed walk through at least one arc. */
  ghost predicate Cycle(arcs: seq<Arc>, c: seq<Id>) {
    Walk(arcs, c) && |c| > 1 && c[0] == c[|c| - 1]
  }

  ghost predicate Acyclic(arcs: seq<Arc>) {
    forall c :: !Cycle(arcs, c)
  }

  /** Every arc joins two of the given nodes. */
  ghost predicate Within(arcs: seq<Arc>, nodes: set<Id>) {
    forall i | 0 <= i < |arcs| :: arcs[i].from in nodes && arcs[i].to in nodes
  }

  predicate HasIncoming(arcs: seq<Arc>, n: Id) {
    exists i | 0 <= i < |arcs| :: arcs[i].to == n
  }

  /** A walk that repeats a node runs through a cycle. */
  lemma RepeatsMeansCycle(arcs: seq<Arc>, w: seq<Id>) returns (c: seq<Id>)
    requires Walk(arcs, w) && Repeats(w)
    ensures Cycle(arcs, c) && c[0] in w
  {
    var i, j :| 0 <= i < j < |w| && w[i] == w[j];
    c := w[i..j + 1];
  }

  lemma AcyclicWalksAreSimple(arcs: seq<Arc>, w: seq<Id>)
    requires Acyclic(arcs) && Walk(arcs, w)
    ensures !Repeats(w)
  {
    if Repeats(w) { var c := RepeatsMeansCycle(arcs, w); }
  }

  lemma WalkStays(arcs: seq<Arc>, nodes: set<Id>, w: seq<Id>, i: nat)
    requires Within(arcs, nodes) && Walk(arcs, w) && w[0] in nodes && i < |w|
    ensures w[i] in nodes
  {
    if i > 0 {
      assert Arc(w[i - 1], w[i]) in arcs;
      var k :| 0 <= k < |arcs| && arcs[k] == Arc(w[i - 1], w[i]);
    }
  }

  lemma Append(arcs: seq<Arc>, v: seq<Id>, w: seq<Id>)
    requires Walk(arcs, v) && Walk(arcs, w) && v[|v| - 1] == w[0]
    ensures Walk(arcs, v + w[1..]) && (v + w[1..])[0] == v[0] && (v + w[1..])[|v| + |w| - 2] == w[|w| - 1]
  {
    var u := v + w[1..];
    forall i | 0 <= i < |u| - 1 ensures Arc(u[i], u[i + 1]) in arcs {
      if i < |v| - 1 { assert Arc(v[i], v[i + 1]) in arcs; }
      else { assert Arc(w[i - |v| + 1], w[i - |v| + 2]) in arcs; }
    }
  }

  lemma {:induction false} SimpleWalkIsShort(w: seq<Id>, nodes: set<Id>)
    requires !Repeats(w) && forall x | x in w :: x in nodes
    ensures |w| <= |nodes|
    decreases |w|
  {
    if w != [] {
      forall x | x in w[1..] ensures x in nodes - {w[0]} {
        var i :| 0 < i < |w| && w[i] == x;
      }
      SimpleWalkIsShort(w[1..], nodes - {w[0]});
    }
  }

  /** In a finite acyclic graph, walking backwards from any node ends at a node without incoming arc. */
  lemma {:induction false} BackToASource(arcs: seq<Arc>, nodes: set<Id>, w: seq<Id>) returns (v: seq<Id>)
    requires Within(arcs, nodes) && Acyclic(arcs) && Walk(arcs, w) && w[0] in nodes
    ensures Walk(arcs, v) && v[0] in nodes && v[|v| - 1] == w[|w| - 1] && !HasIncoming(arcs, v[0])
    decreases |nodes| - |w|
  {
    if !HasIncoming(arcs, w[0]) {
      v := w;
    } else {
      var i :| 0 <= i < |arcs| && arcs[i].to == w[0];
      var longer := [arcs[i].from] + w;
      assert arcs[i] == Arc(longer[0], longer[1]);
      forall k | 0 <= k < |longer| - 1 ensures Arc(longer[k], longer[k + 1]) in arcs {
        if k > 0 { assert Arc(w[k - 1], w[k]) in arcs; }
      }
      AcyclicWalksAreSimple(arcs, longer);
      forall x | x in longer ensures x in nodes {
        var k :| 0 <= k < |longer| && longer[k] == x;
        WalkStays(arcs, nodes, longer, k);
      }
      SimpleWalkIsShort(longer, nodes);
      v := BackToASource(arcs, nodes, longer);
    }
  }
}
