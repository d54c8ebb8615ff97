// Graphs of autonomous systems: adjacency, paths and components.
module AsGraphs {
  import opened Basics

  type Rel = string

  // source -> (target -> relationship), as the loader's nested dictionaries hold it.
  type AsGraph = map<int, map<int, Rel>>

  function Row(g: AsGraph, s: int): map<int, Rel> {
    if s in g then g[s] else map[]
  }

  function RelOf(g: AsGraph, s: int, t: int): Option<Rel> {
    if t in Row(g, s) then Some(Row(g, s)[t]) else None
  }

  predicate Edge(g: AsGraph, s: int, t: int) {
    t in Row(g, s)
  }

  // Each link is stored in both directions, with one relationship.
  ghost predicate Undirected(g: AsGraph) {
    forall s, t :: RelOf(g, s, t) == RelOf(g, t, s)
  }

  lemma EdgeReversed(g: AsGraph, s: int, t: int)
    requires Undirected(g) && Edge(g, s, t)
    ensures Edge(g, t, s)
  {
    assert RelOf(g, s, t) == RelOf(g, t, s);
  }

  // No edge leaves the set.
  ghost predicate Closed(g: AsGraph, nodes: set<int>) {
    forall s, t :: s in nodes && Edge(g, s, t) ==> t in nodes
  }

  ghost predicate IsPath(g: AsGraph, within: set<int>, p: seq<int>) {
    && p != []
    && (forall i :: 0 <= i < |p| ==> p[i] in within)
    && (forall i :: 0 <= i < |p| - 1 ==> Edge(g, p[i], p[i + 1]))
  }

  // There is a path from a to b that stays inside the set.
  ghost predicate Linked(g: AsGraph, within: set<int>, a: int, b: int) {
    exists p :: IsPath(g, within, p) && p[0] == a && p[|p| - 1] == b
  }

  // Any two of its nodes are linked inside the set.
  ghost predicate Connected(g: AsGraph, nodes: set<int>) {
    forall a, b :: a in nodes && b in nodes ==> Linked(g, nodes, a, b)
  }

  ghost function Component(g: AsGraph, all: set<int>, a: int): set<int> {
    set b | b in all && Linked(g, all, a, b)
  }

  // ---------------------------------------------------------------- laws of linkedness

  lemma LinkedSelf(g: AsGraph, within: set<int>, a: int)
    requires a in within
    ensures Linked(g, within, a, a)
  {
    assert IsPath(g, within, [a]);
  }

  lemma LinkedStep(g: AsGraph, within: set<int>, a: int, b: int, c: int)
    requires Linked(g, within, a, b) && Edge(g, b, c) && c in within
    ensures Linked(g, within, a, c)
  {
    var p :| IsPath(g, within, p) && p[0] == a && p[|p| - 1] == b;
    var q := p + [c];
    assert IsPath(g, within, q) && q[0] == a && q[|q| - 1] == c;
  }

  lemma LinkedWider(g: AsGraph, within: set<int>, wider: set<int>, a: int, b: int)
    requires Linked(g, within, a, b) && within <= wider
    ensures Linked(g, wider, a, b)
  {
    var p :| IsPath(g, within, p) && p[0] == a && p[|p| - 1] == b;
    assert IsPath(g, wider, p);
  }

  lemma LinkedTransitive(g: AsGraph, within: set<int>, a: int, b: int, c: int)
    requires Linked(g, within, a, b) && Linked(g, within, b, c)
    ensures Linked(g, within, a, c)
  {
    var p :| IsPath(g, within, p) && p[0] == a && p[|p| - 1] == b;
    var q :| IsPath(g, within, q) && q[0] == b && q[|q| - 1] == c;
    var r := p + q[1..];
    assert IsPath(g, within, r) && r[0] == a && r[|r| - 1] == c;
  }

  function Reverse(p: seq<int>): (r: seq<int>)
    ensures |r| == |p| && forall i :: 0 <= i < |p| ==> r[i] == p[|p| - 1 - i]
  {
    if p == [] then [] else Reverse(p[1..]) + [p[0]]
  }

  lemma LinkedReversed(g: AsGraph, within: set<int>, a: int, b: int)
    requires Undirected(g) && Linked(g, within, a, b)
    ensures Linked(g, within, b, a)
  {
    var p :| IsPath(g, within, p) && p[0] == a && p[|p| - 1] == b;
    var r := Reverse(p);
    forall i | 0 <= i < |r| - 1 ensures Edge(g, r[i], r[i + 1]) {
      var j := |p| - 2 - i;
      assert Edge(g, p[j], p[j + 1]);
      EdgeReversed(g, p[j], p[j + 1]);
    }
    assert IsPath(g, within, r) && r[0] == b && r[|r| - 1] == a;
  }

  // A path never leaves a closed set it starts in.
  lemma {:induction false} PathStays(g: AsGraph, within: set<int>, nodes: set<int>, p: seq<int>, i: nat)
    requires IsPath(g, within, p) && Closed(g, nodes) && p[0] in nodes && i < |p|
    ensures p[i] in nodes
    decreases i
  {
    if i > 0 {
      PathStays(g, within, nodes, p, i - 1);
      assert Edge(g, p[i - 1], p[i - 1 + 1]);
    }
  }

  lemma LinkedStays(g: AsGraph, within: set<int>, nodes: set<int>, a: int, b: int)
    requires Linked(g, within, a, b) && Closed(g, nodes) && a in nodes
    ensures b in nodes
  {
    var p :| IsPath(g, within, p) && p[0] == a && p[|p| - 1] == b;
    PathStays(g, within, nodes, p, |p| - 1);
  }

  // Everything linked to one node is linked to everything else that is.
  lemma StarIsConnected(g: AsGraph, nodes: set<int>, hub: int)
    requires Undirected(g) && forall a :: a in nodes ==> Linked(g, nodes, hub, a)
    ensures Connected(g, nodes)
  {
    forall a, b | a in nodes && b in nodes ensures Linked(g, nodes, a, b) {
      LinkedReversed(g, nodes, hub, a);
      LinkedTransitive(g, nodes, a, hub, b);
    }
  }

  // A closed set whose nodes are all linked to one of them is that node's component.
  lemma ClosedIsComponent(g: AsGraph, all: set<int>, nodes: set<int>, a: int)
    requires a in nodes && nodes <= all && Closed(g, nodes)
    requires forall b :: b in nodes ==> Linked(g, all, a, b)
    ensures nodes == Component(g, all, a)
  {
    forall b | b in Component(g, all, a) ensures b in nodes {
      LinkedStays(g, all, nodes, a, b);
    }
  }

  lemma ComponentClosed(g: AsGraph, all: set<int>, a: int)
    requires Closed(g, all)
    ensures Closed(g, Component(g, all, a))
  {
    forall s, t | s in Component(g, all, a) && Edge(g, s, t) ensures t in Component(g, all, a) {
      LinkedStep(g, all, a, s, t);
    }
  }

  // Nodes of one component have the same component.
  lemma SameComponent(g: AsGraph, all: set<int>, a: int, b: int)
    requires Undirected(g) && b in Component(g, all, a)
    ensures Component(g, all, b) == Component(g, all, a)
  {
    LinkedReversed(g, all, a, b);
    forall c | c in all ensures Linked(g, all, a, c) <==> Linked(g, all, b, c) {
      if Linked(g, all, a, c) { LinkedTransitive(g, all, b, a, c); }
      if Linked(g, all, b, c) { LinkedTransitive(g, all, a, b, c); }
    }
  }
}
