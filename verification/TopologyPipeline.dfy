// The extracted topology as a whole, the latencies on its edges, and the distances they give.
module TopologyPipeline {
  import opened Basics
  import opened SortedLists
  import opened AsGraphs
  import opened TopologyExtraction
  import opened TopologyRenumbering
  import ShortestPaths

  // ---------------------------------------------------------------- regions and latencies

  datatype Region = NorthAmerica | Europe | Asia | SouthAmerica | Africa | Oceania

  // Share of the nodes in hundredths of a percent, in order.
  const PROPORTIONS: seq<(Region, nat)> :=
    [(NorthAmerica, 1667), (Europe, 2500), (Asia, 2500), (SouthAmerica, 1667), (Africa, 833), (Oceania, 833)]

  // n/d to the nearest integer, halves to the even one.
  function RoundHalfEven(n: nat, d: nat): nat
    requires d > 0
  {
    var q, r := n / d, n % d;
    if 2 * r < d || (2 * r == d && q % 2 == 0) then q else q + 1
  }

  function RegionFrom(node: int, total: nat, first: int, k: nat): Region
    requires k <= |PROPORTIONS|
    decreases |PROPORTIONS| - k
  {
    if k == |PROPORTIONS| then PROPORTIONS[|PROPORTIONS| - 1].0
    else
      var last := first + RoundHalfEven(total * PROPORTIONS[k].1, 10000) - 1;
      if node <= last then PROPORTIONS[k].0 else RegionFrom(node, total, last + 1, k + 1)
  }

  function RegionOf(node: int, total: nat): Region {
    if total == 0 then NorthAmerica else RegionFrom(node, total, 0, 0)
  }

  // The one-way latency table, in the order of its keys.
  function Table(a: Region, b: Region): Option<nat> {
    match (a, b)
    case (NorthAmerica, NorthAmerica) => Some(25)
    case (Europe, Europe) => Some(15)
    case (Asia, Asia) => Some(40)
    case (SouthAmerica, SouthAmerica) => Some(30)
    case (Africa, Africa) => Some(40)
    case (Oceania, Oceania) => Some(25)
    case (NorthAmerica, Europe) => Some(45)
    case (NorthAmerica, Asia) => Some(90)
    case (NorthAmerica, SouthAmerica) => Some(60)
    case (NorthAmerica, Africa) => Some(100)
    case (NorthAmerica, Oceania) => Some(95)
    case (Europe, Asia) => Some(75)
    case (Europe, SouthAmerica) => Some(95)
    case (Europe, Africa) => Some(45)
    case (Europe, Oceania) => Some(140)
    case (Asia, SouthAmerica) => Some(150)
    case (Asia, Africa) => Some(85)
    case (Asia, Oceania) => Some(55)
    case (SouthAmerica, Africa) => Some(130)
    case (SouthAmerica, Oceania) => Some(120)
    case (Africa, Oceania) => Some(120)
    case _ => None
  }

  function Latency(source: int, target: int, total: nat): nat {
    if source == target then 1
    else
      var a, b := RegionOf(source, total), RegionOf(target, total);
      if Table(a, b).Some? then Table(a, b).value
      else if Table(b, a).Some? then Table(b, a).value
      else if a == b then 20 else 100
  }

  lemma TableCovers(a: Region, b: Region)
    ensures Table(a, b).Some? || Table(b, a).Some?
    ensures Table(a, b).Some? && Table(b, a).Some? ==> a == b
    ensures Table(a, b).Some? ==> 15 <= Table(a, b).value <= 150
  {
  }

  // Both directions of a pair have one latency, taken from the table and never zero.
  lemma LatencySymmetric(source: int, target: int, total: nat)
    ensures Latency(source, target, total) == Latency(target, source, total)
    ensures 1 <= Latency(source, target, total) <= 150
    ensures source != target ==> Latency(source, target, total) >= 15
  {
    var a, b := RegionOf(source, total), RegionOf(target, total);
    TableCovers(a, b);
    TableCovers(b, a);
  }

  // c is n/d to the nearest integer, the even one of two.
  ghost predicate IsNearest(c: nat, n: nat, d: nat) {
    && 2 * (c * d) <= 2 * n + d && 2 * n <= 2 * (c * d) + d
    && (2 * (c * d) == 2 * n + d || 2 * n == 2 * (c * d) + d ==> c % 2 == 0)
  }

  lemma {:induction false} RoundIsNearest(n: nat, d: nat)
    requires d == 10000
    ensures IsNearest(RoundHalfEven(n, d), n, d)
  {
  }

  // Regions are ranges of node numbers in a fixed order, the first five each of the nearest size to
  // their share of the nodes; the last takes what is left.
  lemma {:induction false} RegionsAreRanges(total: nat) returns (america: nat, europe: nat, asia: nat, south: nat, africa: nat)
    requires 0 < total
    ensures IsNearest(america, total * 1667, 10000) && IsNearest(europe, total * 2500, 10000) && IsNearest(asia, total * 2500, 10000)
    ensures IsNearest(south, total * 1667, 10000) && IsNearest(africa, total * 833, 10000)
    ensures forall node: int ::
              RegionOf(node, total) ==
                if node < america then NorthAmerica
                else if node < america + europe then Europe
                else if node < america + europe + asia then Asia
                else if node < america + europe + asia + south then SouthAmerica
                else if node < america + europe + asia + south + africa then Africa
                else Oceania
  {
    america := RoundHalfEven(total * 1667, 10000);
    europe := RoundHalfEven(total * 2500, 10000);
    asia := RoundHalfEven(total * 2500, 10000);
    south := RoundHalfEven(total * 1667, 10000);
    africa := RoundHalfEven(total * 833, 10000);
    RoundIsNearest(total * 1667, 10000);
    RoundIsNearest(total * 2500, 10000);
    RoundIsNearest(total * 833, 10000);
    forall node: int ensures RegionOf(node, total) == RangeOf(node, america, europe, asia, south, africa) {
      RangeIsRegion(node, total, america, europe, asia, south, africa);
    }
  }

  function RangeOf(node: int, america: nat, europe: nat, asia: nat, south: nat, africa: nat): Region {
    if node < america then NorthAmerica
    else if node < america + europe then Europe
    else if node < america + europe + asia then Asia
    else if node < america + europe + asia + south then SouthAmerica
    else if node < america + europe + asia + south + africa then Africa
    else Oceania
  }

  lemma {:induction false} RangeIsRegion(node: int, total: nat, america: nat, europe: nat, asia: nat, south: nat, africa: nat)
    requires 0 < total
    requires america == RoundHalfEven(total * 1667, 10000) && europe == RoundHalfEven(total * 2500, 10000) && asia == RoundHalfEven(total * 2500, 10000)
    requires south == RoundHalfEven(total * 1667, 10000) && africa == RoundHalfEven(total * 833, 10000)
    ensures RegionOf(node, total) == RangeOf(node, america, europe, asia, south, africa)
  {
    var a := america + europe;
    var b := a + asia;
    var c := b + south;
    var d := c + africa;
    assert RegionFrom(node, total, 0, 0) == if node < america then NorthAmerica else RegionFrom(node, total, america, 1);
    assert RegionFrom(node, total, america, 1) == if node < a then Europe else RegionFrom(node, total, a, 2);
    assert RegionFrom(node, total, a, 2) == if node < b then Asia else RegionFrom(node, total, b, 3);
    assert RegionFrom(node, total, b, 3) == if node < c then SouthAmerica else RegionFrom(node, total, c, 4);
    assert RegionFrom(node, total, c, 4) == if node < d then Africa else RegionFrom(node, total, d, 5);
    RegionAtEnd(node, total, d);
  }

  lemma {:induction false} RegionAtEnd(node: int, total: nat, first: int)
    ensures RegionFrom(node, total, first, 5) == Oceania
  {
    var last := first + RoundHalfEven(total * PROPORTIONS[5].1, 10000) - 1;
    assert RegionFrom(node, total, last + 1, 6) == Oceania;
  }

  function Number(r: Region): nat {
    match r
    case NorthAmerica => 0
    case Europe => 1
    case Asia => 2
    case SouthAmerica => 3
    case Africa => 4
    case Oceania => 5
  }

  // The latencies between all regions, both ways, in ms.
  const BETWEEN: seq<seq<nat>> := [
    [25, 45, 90, 60, 100, 95],
    [45, 15, 75, 95, 45, 140],
    [90, 75, 40, 150, 85, 55],
    [60, 95, 150, 30, 130, 120],
    [100, 45, 85, 130, 40, 120],
    [95, 140, 55, 120, 120, 25]]

  // Two different nodes are as far apart as their regions, whichever order the table lists them in.
  lemma {:induction false} LatencyIsBetweenRegions(source: int, target: int, total: nat)
    ensures source == target ==> Latency(source, target, total) == 1
    ensures total == 0 ==> RegionOf(source, total) == NorthAmerica
    ensures source != target ==> Latency(source, target, total) == BETWEEN[Number(RegionOf(source, total))][Number(RegionOf(target, total))]
  {
    TableIsBetween(RegionOf(source, total), RegionOf(target, total));
  }

  lemma {:induction false} TableIsBetween(a: Region, b: Region)
    ensures Table(a, b).Some? ==> Table(a, b).value == BETWEEN[Number(a)][Number(b)]
    ensures Table(a, b).None? ==> Table(b, a).Some? && Table(b, a).value == BETWEEN[Number(a)][Number(b)]
  {
  }

  // ---------------------------------------------------------------- the extracted topology

  // Nodes 0..n-1 stand for `originals` in increasing order; every node has its self-loop, and two
  // different nodes are joined exactly when their originals are, with the same relationship.
  ghost predicate Mirrors(links: seq<Link>, originals: seq<int>, topo: AsGraph) {
    && Increasing(originals)
    && (forall i :: i in topo.Keys <==> 0 <= i < |originals|)
    && forall i, j :: RelOf(topo, i, j) ==
         if !(0 <= i < |originals| && 0 <= j < |originals|) then None
         else if i == j then Some("self")
         else LastRel(links, originals[i], originals[j])
  }

  lemma MirrorsUndirected(links: seq<Link>, originals: seq<int>, topo: AsGraph)
    requires Mirrors(links, originals, topo)
    ensures Undirected(topo)
  {
    forall i, j ensures RelOf(topo, i, j) == RelOf(topo, j, i) {
      if 0 <= i < |originals| && 0 <= j < |originals| {
        LastRelSymmetric(links, originals[i], originals[j]);
      }
    }
  }

  // A path between originals is a path between their numbers.
  lemma {:induction false} PathRenumbered(g: AsGraph, links: seq<Link>, originals: seq<int>, topo: AsGraph, p: seq<int>, i: nat, j: nat)
    requires (forall s, t :: RelOf(g, s, t) == LastRel(links, s, t)) && Mirrors(links, originals, topo)
    requires IsPath(g, Elements(originals), p) && i < |originals| && j < |originals|
    requires p[0] == originals[i] && p[|p| - 1] == originals[j]
    ensures Linked(topo, topo.Keys, i, j)
    decreases |p|
  {
    if |p| == 1 {
      assert i == j;
      LinkedSelf(topo, topo.Keys, i);
    } else {
      var init := p[..|p| - 1];
      assert init[|init| - 1] in originals;
      var m :| 0 <= m < |originals| && originals[m] == init[|init| - 1];
      assert IsPath(g, Elements(originals), init);
      PathRenumbered(g, links, originals, topo, init, i, m);
      assert Edge(g, p[|p| - 2], p[|p| - 2 + 1]);
      assert RelOf(g, originals[m], originals[j]).Some?;
      assert RelOf(topo, m, j).Some?;
      LinkedStep(topo, topo.Keys, i, m, j);
    }
  }

  lemma MirrorsConnected(g: AsGraph, links: seq<Link>, originals: seq<int>, topo: AsGraph)
    requires (forall s, t :: RelOf(g, s, t) == LastRel(links, s, t)) && Mirrors(links, originals, topo)
    requires Connected(g, Elements(originals))
    ensures Connected(topo, topo.Keys)
  {
    forall i, j | i in topo.Keys && j in topo.Keys ensures Linked(topo, topo.Keys, i, j) {
      var a, b := originals[i], originals[j];
      assert a in Elements(originals) && b in Elements(originals);
      assert Linked(g, Elements(originals), a, b);
      var p :| IsPath(g, Elements(originals), p) && p[0] == a && p[|p| - 1] == b;
      PathRenumbered(g, links, originals, topo, p, i, j);
    }
  }

  datatype Topology = Topology(graph: AsGraph, nodes: seq<int>)

  // Every system that some link names.
  function Systems(links: seq<Link>): set<int> {
    if links == [] then {}
    else Systems(links[..|links| - 1]) + {links[|links| - 1].source, links[|links| - 1].target}
  }

  lemma {:induction false} SystemsAreMentioned(links: seq<Link>, n: int)
    ensures n in Systems(links) <==> Mentions(links, n)
    decreases |links|
  {
    if links != [] {
      var last := |links| - 1;
      SystemsAreMentioned(links[..last], n);
      if Mentions(links[..last], n) {
        var i :| 0 <= i < last && (links[..last][i].source == n || links[..last][i].target == n);
        assert links[i] == links[..last][i];
      }
      if Mentions(links, n) {
        var i :| 0 <= i < |links| && (links[i].source == n || links[i].target == n);
        if i < last {
          assert links[..last][i] == links[i];
        }
      }
    }
  }

  // Connected, inside a component of greatest size, and as large as the limit and that size allow.
  ghost predicate Chosen(g: AsGraph, all: set<int>, maxNodes: int, nodes: set<int>) {
    exists hub :: Extracted(g, all, maxNodes, hub, nodes)
  }

  // Load, search, loop, renumber; None when the part found is too small to simulate.
  method ExtractTopology(links: seq<Link>, maxNodes: int) returns (r: Option<Topology>, graph: AsGraph, originals: seq<int>)
    ensures forall s, t :: RelOf(graph, s, t) == LastRel(links, s, t)
    ensures originals == [] <==> links == []
    ensures links != [] ==> Chosen(graph, Systems(links), maxNodes, Elements(originals)) && |originals| == |Elements(originals)|
    ensures r.None? <==> |originals| < 2
    ensures r.Some? ==>
              && Mirrors(links, originals, r.value.graph) && Connected(r.value.graph, r.value.graph.Keys)
              && |r.value.nodes| == |originals| && forall i :: 0 <= i < |r.value.nodes| ==> r.value.nodes[i] == i
  {
    var asList;
    graph, asList := LoadCaidaGraph(links);
    LoadedGraphIsUndirected(links, graph, asList);
    AllSystems(links, asList);
    ghost var hub;
    originals, hub := FindConnectedSubgraph(graph, asList, maxNodes);
    if |originals| < 2 {
      return None, graph, originals;
    }
    var gml := AddSelfLoops(graph, originals);
    RowsInside(graph, originals, gml);
    var newGraph, newNodes := RenumberNodes(gml, originals);
    RenumberedMirrors(links, graph, originals, gml, newGraph);
    MirrorsConnected(graph, links, originals, newGraph);
    r := Some(Topology(newGraph, newNodes));
  }

  lemma AllSystems(links: seq<Link>, asList: seq<int>)
    requires forall n :: n in Elements(asList) <==> Mentions(links, n)
    ensures Elements(asList) == Systems(links)
    ensures asList == [] <==> links == []
  {
    forall n ensures n in Elements(asList) <==> n in Systems(links) {
      SystemsAreMentioned(links, n);
    }
    if asList != [] {
      assert asList[0] in Elements(asList);
    }
    if links != [] {
      assert Mentions(links, links[0].source);
    }
  }

  lemma RowsInside(g: AsGraph, component: seq<int>, gml: AsGraph)
    requires forall s, t :: RelOf(gml, s, t) == LoopedRel(g, Elements(component), s, t)
    ensures forall s :: s in gml ==> gml[s].Keys <= Elements(component)
  {
    forall s | s in gml ensures gml[s].Keys <= Elements(component) {
      forall t | t in gml[s].Keys ensures t in Elements(component) {
        assert RelOf(gml, s, t).Some?;
      }
      AllIn(gml[s].Keys, Elements(component));
    }
  }

  lemma RenumberedMirrors(links: seq<Link>, g: AsGraph, component: seq<int>, gml: AsGraph, topo: AsGraph)
    requires forall s, t :: RelOf(g, s, t) == LastRel(links, s, t)
    requires forall s, t :: RelOf(gml, s, t) == LoopedRel(g, Elements(component), s, t)
    requires Increasing(component) && IsRenumbered(gml, component, topo)
    requires forall i :: i in topo.Keys <==> 0 <= i < |component|
    ensures Mirrors(links, component, topo)
  {
    forall i, j | 0 <= i < |component| && 0 <= j < |component|
      ensures RelOf(topo, i, j) == if i == j then Some(SELF) else LastRel(links, component[i], component[j])
    {
      assert RelOf(topo, i, j) == LoopedRel(g, Elements(component), component[i], component[j]);
      if i < j { assert component[i] < component[j]; }
      if j < i { assert component[j] < component[i]; }
    }
  }

  // ---------------------------------------------------------------- distances over the topology

  // Edge lists that hold every edge of the topology at its latency; bandwidths play no part.
  ghost predicate Routes(topo: AsGraph, total: nat, edges: ShortestPaths.Graph) {
    && (forall i, e :: e in ShortestPaths.Out(edges, i) ==> Edge(topo, i, e.target) && e.latency == Latency(i, e.target, total))
    && (forall i, j :: Edge(topo, i, j) ==> HasEdge(edges, i, j))
  }

  ghost predicate HasEdge(edges: ShortestPaths.Graph, i: int, j: int) {
    exists e :: e in ShortestPaths.Out(edges, i) && e.target == j
  }

  ghost predicate HasWalk(edges: ShortestPaths.Graph, i: int, j: int) {
    exists n: nat :: ShortestPaths.Reaches(edges, i, j, n)
  }

  lemma RoutesSymmetric(topo: AsGraph, total: nat, edges: ShortestPaths.Graph)
    requires Undirected(topo) && Routes(topo, total, edges)
    ensures ShortestPaths.Symmetric(edges)
  {
    forall i, e | e in ShortestPaths.Out(edges, i) ensures ShortestPaths.HasTwin(edges, i, e) {
      EdgeReversed(topo, i, e.target);
      assert HasEdge(edges, e.target, i);
      var f :| f in ShortestPaths.Out(edges, e.target) && f.target == i;
      LatencySymmetric(i, e.target, total);
    }
  }

  lemma {:induction false} PathReaches(topo: AsGraph, total: nat, edges: ShortestPaths.Graph, p: seq<int>)
    requires Routes(topo, total, edges) && IsPath(topo, topo.Keys, p)
    ensures HasWalk(edges, p[0], p[|p| - 1])
    decreases |p|
  {
    if |p| == 1 {
      assert ShortestPaths.Connects(edges, p[0], p[0], []) && ShortestPaths.Weight([]) == 0;
      assert ShortestPaths.Reaches(edges, p[0], p[0], 0);
    } else {
      var init := p[..|p| - 1];
      PathReaches(topo, total, edges, init);
      var n: nat :| ShortestPaths.Reaches(edges, init[0], init[|init| - 1], n);
      assert Edge(topo, p[|p| - 2], p[|p| - 2 + 1]);
      assert HasEdge(edges, p[|p| - 2], p[|p| - 1]);
      var e :| e in ShortestPaths.Out(edges, p[|p| - 2]) && e.target == p[|p| - 1];
      ShortestPaths.ReachesStep(edges, init[0], init[|init| - 1], n, e);
    }
  }

  // Over an extracted topology every pair of nodes has a finite distance, the same both ways.
  lemma DistancesFiniteAndSymmetric(links: seq<Link>, originals: seq<int>, topo: AsGraph, edges: ShortestPaths.Graph,
                                    i: int, j: int, d: ShortestPaths.Distance, back: ShortestPaths.Distance)
    requires Mirrors(links, originals, topo) && Connected(topo, topo.Keys) && Routes(topo, |originals|, edges)
    requires i in topo.Keys && j in topo.Keys
    requires ShortestPaths.IsDistance(edges, i, j, d) && ShortestPaths.IsDistance(edges, j, i, back)
    ensures d.Finite? && d == back
  {
    MirrorsUndirected(links, originals, topo);
    RoutesSymmetric(topo, |originals|, edges);
    ShortestPaths.DistanceSymmetric(edges, i, j, d, back);
    assert Linked(topo, topo.Keys, i, j);
    var p :| IsPath(topo, topo.Keys, p) && p[0] == i && p[|p| - 1] == j;
    PathReaches(topo, |originals|, edges, p);
  }
}
