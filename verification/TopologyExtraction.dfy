// From a list of AS links to the simulation topology: load, pick a connected part of the largest
// component, add self-loops, renumber.
//
// Dictionaries are iterated in some order; every method below picks that order freely, so the
// results hold for any of them.
module TopologyExtraction {
  import opened Basics
  import opened SortedLists
  import opened AsGraphs

  // ---------------------------------------------------------------- loading

  datatype Link = Link(source: int, target: int, rel: Rel)

  predicate Joins(l: Link, s: int, t: int) {
    (l.source == s && l.target == t) || (l.source == t && l.target == s)
  }

  // The relationship of the last link that joins s and t, in either direction.
  function LastRel(links: seq<Link>, s: int, t: int): Option<Rel> {
    if links == [] then None
    else if Joins(links[|links| - 1], s, t) then Some(links[|links| - 1].rel)
    else LastRel(links[..|links| - 1], s, t)
  }

  ghost predicate Mentions(links: seq<Link>, n: int) {
    exists l :: l in links && (l.source == n || l.target == n)
  }

  lemma {:induction false} LastRelSymmetric(links: seq<Link>, s: int, t: int)
    ensures LastRel(links, s, t) == LastRel(links, t, s)
    decreases |links|
  {
    if links != [] {
      LastRelSymmetric(links[..|links| - 1], s, t);
    }
  }

  // The last line that joins two systems decides; without one they have no relation.
  lemma {:induction false} LastRelIs(links: seq<Link>, k: nat, s: int, t: int)
    requires k < |links| && Joins(links[k], s, t) && forall j :: k < j < |links| ==> !Joins(links[j], s, t)
    ensures LastRel(links, s, t) == Some(links[k].rel)
    decreases |links|
  {
    if k < |links| - 1 {
      LastRelIs(links[..|links| - 1], k, s, t);
    }
  }

  lemma {:induction false} NoRelIs(links: seq<Link>, s: int, t: int)
    requires forall j :: 0 <= j < |links| ==> !Joins(links[j], s, t)
    ensures LastRel(links, s, t) == None
    decreases |links|
  {
    if links != [] {
      NoRelIs(links[..|links| - 1], s, t);
    }
  }

  lemma {:induction false} LastRelMentions(links: seq<Link>, s: int, t: int)
    requires LastRel(links, s, t).Some?
    ensures Mentions(links, s) && Mentions(links, t)
    decreases |links|
  {
    if Joins(links[|links| - 1], s, t) {
      assert links[|links| - 1] in links;
    } else {
      LastRelMentions(links[..|links| - 1], s, t);
    }
  }

  // One direction of one link.
  function Put(g: AsGraph, s: int, t: int, rel: Rel): AsGraph {
    g[s := Row(g, s)[t := rel]]
  }

  lemma PutRel(g: AsGraph, s: int, t: int, rel: Rel, a: int, b: int)
    ensures RelOf(Put(g, s, t, rel), a, b) == if a == s && b == t then Some(rel) else RelOf(g, a, b)
  {
  }

  method LoadCaidaGraph(links: seq<Link>) returns (graph: AsGraph, asList: seq<int>)
    ensures forall s, t :: RelOf(graph, s, t) == LastRel(links, s, t)
    ensures forall n :: n in Elements(asList) <==> Mentions(links, n)
    ensures Increasing(asList)
  {
    graph := map[];
    var asSet: set<int> := {};
    for i := 0 to |links|
      invariant forall s, t :: RelOf(graph, s, t) == LastRel(links[..i], s, t)
      invariant forall n :: n in asSet <==> Mentions(links[..i], n)
    {
      var l := links[i];
      ghost var before := graph;
      graph := Put(Put(graph, l.source, l.target, l.rel), l.target, l.source, l.rel);
      asSet := asSet + {l.source, l.target};
      LoadStep(links, i, before, graph);
    }
    assert links[..|links|] == links;
    asList := Sorted(asSet);
  }

  lemma {:induction false} LoadStep(links: seq<Link>, i: nat, before: AsGraph, after: AsGraph)
    requires i < |links|
    requires forall s, t :: RelOf(before, s, t) == LastRel(links[..i], s, t)
    requires after == Put(Put(before, links[i].source, links[i].target, links[i].rel), links[i].target, links[i].source, links[i].rel)
    ensures forall s, t :: RelOf(after, s, t) == LastRel(links[..i + 1], s, t)
    ensures forall n :: Mentions(links[..i + 1], n) <==> Mentions(links[..i], n) || n == links[i].source || n == links[i].target
  {
    var l, longer := links[i], links[..i + 1];
    assert longer[..i] == links[..i] && longer[i] == l;
    forall s, t ensures RelOf(after, s, t) == LastRel(longer, s, t) {
      var mid := Put(before, l.source, l.target, l.rel);
      PutRel(before, l.source, l.target, l.rel, s, t);
      PutRel(mid, l.target, l.source, l.rel, s, t);
      assert LastRel(longer, s, t) == if Joins(l, s, t) then Some(l.rel) else LastRel(links[..i], s, t);
    }
    forall n | Mentions(longer, n) ensures Mentions(links[..i], n) || n == l.source || n == l.target {
      var e :| e in longer && (e.source == n || e.target == n);
      assert e == l || e in links[..i];
    }
    forall n | Mentions(links[..i], n) ensures Mentions(longer, n) {
      var e :| e in links[..i] && (e.source == n || e.target == n);
      assert e in longer;
    }
    assert l in longer;
  }

  // What the loader establishes for the search: links in both directions, and no link to a node
  // that is not on the list.
  lemma LoadedGraphIsUndirected(links: seq<Link>, g: AsGraph, asList: seq<int>)
    requires forall s, t :: RelOf(g, s, t) == LastRel(links, s, t)
    requires forall n :: n in Elements(asList) <==> Mentions(links, n)
    ensures Undirected(g) && Closed(g, Elements(asList))
  {
    forall s, t ensures RelOf(g, s, t) == RelOf(g, t, s) {
      LastRelSymmetric(links, s, t);
    }
    forall s, t | s in Elements(asList) && Edge(g, s, t) ensures t in Elements(asList) {
      assert RelOf(g, s, t).Some?;
      LastRelMentions(links, s, t);
    }
  }

  // ---------------------------------------------------------------- components

  // Append every neighbour not yet seen to the queue.
  method Enqueue(g: AsGraph, node: int, seen: set<int>, queue: seq<int>) returns (seen': set<int>, queue': seq<int>)
    requires Distinct(queue) && Elements(queue) <= seen
    ensures seen' == seen + Row(g, node).Keys
    ensures Distinct(queue') && Elements(queue') == Elements(queue) + (Row(g, node).Keys - seen)
  {
    seen', queue' := seen, queue;
    var todo := Row(g, node).Keys;
    while todo != {}
      invariant Enqueued(Row(g, node).Keys, todo, seen, Elements(queue), seen', queue')
      decreases |todo|
    {
      ghost var some := AnyOf(todo);
      var neighbor :| neighbor in todo;
      EnqueueStep(Row(g, node).Keys, todo, seen, Elements(queue), seen', queue', neighbor);
      todo := todo - {neighbor};
      if neighbor !in seen' {
        seen', queue' := seen' + {neighbor}, queue' + [neighbor];
      }
    }
  }

  ghost predicate Enqueued(row: set<int>, todo: set<int>, seen: set<int>, queued: set<int>, seen': set<int>, queue': seq<int>) {
    && todo <= row && seen' == seen + (row - todo)
    && Distinct(queue') && queued <= seen && Elements(queue') == queued + (row - todo - seen)
  }

  lemma EnqueueStep(row: set<int>, todo: set<int>, seen: set<int>, queued: set<int>, seen': set<int>, queue': seq<int>, x: int)
    requires Enqueued(row, todo, seen, queued, seen', queue') && x in todo
    ensures x in seen' ==> Enqueued(row, todo - {x}, seen, queued, seen', queue')
    ensures x !in seen' ==> Enqueued(row, todo - {x}, seen, queued, seen' + {x}, queue' + [x])
  {
    if x !in seen' {
      assert x !in Elements(queue');
      DistinctGrows(queue', x);
    }
  }

  lemma DistinctGrows(s: seq<int>, x: int)
    requires Distinct(s) && x !in s
    ensures Distinct(s + [x]) && Elements(s + [x]) == Elements(s) + {x}
  {
  }

  lemma DistinctShrinks(s: seq<int>)
    requires Distinct(s) && s != []
    ensures Distinct(s[1..]) && s[0] !in Elements(s[1..]) && Elements(s) == Elements(s[1..]) + {s[0]}
  {
    assert s == [s[0]] + s[1..];
  }

  // Breadth-first search from `start`: the component, whatever was visited before.
  method Explore(g: AsGraph, ghost all: set<int>, start: int, visited0: set<int>) returns (component: set<int>, visited: set<int>)
    requires Undirected(g) && Closed(g, all) && Closed(g, visited0) && visited0 <= all
    requires start in all && start !in visited0
    ensures component == Component(g, all, start)
    ensures visited == visited0 + component && Closed(g, visited) && visited <= all
  {
    component, visited := {}, visited0 + {start};
    var queue := [start];
    LinkedSelf(g, all, start);
    while queue != []
      invariant Exploring(g, all, start, visited0, component, queue, visited)
      decreases all - component
    {
      var node := queue[0];
      DistinctShrinks(queue);
      ghost var c0, q0, v0 := component, queue, visited;
      queue := queue[1..];
      component := component + {node};
      visited, queue := Enqueue(g, node, visited, queue);
      ExploreStep(g, all, start, visited0, c0, q0, v0, queue);
    }
    ExploreDone(g, all, start, visited0, component, visited);
  }

  ghost predicate Exploring(g: AsGraph, all: set<int>, start: int, visited0: set<int>,
                            component: set<int>, queue: seq<int>, visited: set<int>) {
    && visited == visited0 + component + Elements(queue)
    && component !! visited0 && Elements(queue) !! visited0 && component !! Elements(queue)
    && Distinct(queue) && start in component + Elements(queue)
    && (forall n :: n in component + Elements(queue) ==> n in all && Linked(g, all, start, n))
    && (forall n :: n in component ==> Row(g, n).Keys <= visited)
  }

  lemma ExploreStep(g: AsGraph, all: set<int>, start: int, visited0: set<int>,
                    component: set<int>, queue: seq<int>, visited: set<int>, queue': seq<int>)
    requires Closed(g, all) && queue != []
    requires Exploring(g, all, start, visited0, component, queue, visited)
    requires Distinct(queue') && Elements(queue') == Elements(queue[1..]) + (Row(g, queue[0]).Keys - visited)
    ensures Exploring(g, all, start, visited0, component + {queue[0]}, queue', visited + Row(g, queue[0]).Keys)
  {
    var node := queue[0];
    DistinctShrinks(queue);
    forall n | n in Row(g, node).Keys - visited ensures n in all && Linked(g, all, start, n) {
      assert Edge(g, node, n);
      LinkedStep(g, all, start, node, n);
    }
  }

  lemma ExploreDone(g: AsGraph, all: set<int>, start: int, visited0: set<int>, component: set<int>, visited: set<int>)
    requires Undirected(g) && Closed(g, visited0)
    requires Exploring(g, all, start, visited0, component, [], visited)
    ensures component == Component(g, all, start) && Closed(g, visited)
  {
    forall s, t | s in component && Edge(g, s, t) ensures t in component {
      EdgeReversed(g, s, t);
      assert t in Row(g, s).Keys;
    }
    assert Elements([]) == {};
    assert component + Elements([]) == component;
    forall n | n in component ensures n in all && Linked(g, all, start, n) {
      assert n in component + Elements([]);
    }
    AllIn(component, all);
    ClosedIsComponent(g, all, component, start);
  }

  // A component found by the search, with the node it was found from.
  datatype Found = Found(start: int, nodes: set<int>)

  ghost predicate IsFound(components: seq<Found>, n: int) {
    exists i :: 0 <= i < |components| && n in components[i].nodes
  }

  ghost predicate FoundAll(g: AsGraph, all: set<int>, components: seq<Found>, visited: set<int>) {
    && (forall i :: 0 <= i < |components| ==> components[i].start in all && components[i].nodes == Component(g, all, components[i].start))
    && (forall n :: n in visited ==> IsFound(components, n))
  }

  method Components(g: AsGraph, asList: seq<int>) returns (components: seq<Found>)
    requires Undirected(g) && Closed(g, Elements(asList))
    ensures FoundAll(g, Elements(asList), components, Elements(asList))
  {
    ghost var all := Elements(asList);
    components := [];
    var visited: set<int> := {};
    for i := 0 to |asList|
      invariant Closed(g, visited) && Elements(asList[..i]) <= visited <= all
      invariant FoundAll(g, all, components, visited)
    {
      var start := asList[i];
      assert Elements(asList[..i + 1]) == Elements(asList[..i]) + {start};
      if start in visited {
        continue;
      }
      ghost var before, seen := components, visited;
      var component;
      component, visited := Explore(g, all, start, visited);
      LinkedSelf(g, all, start);
      if |component| > 0 {
        components := components + [Found(start, component)];
        FoundOne(g, all, before, seen, Found(start, component));
      }
    }
    assert asList[..|asList|] == asList;
  }

  lemma FoundOne(g: AsGraph, all: set<int>, components: seq<Found>, visited: set<int>, c: Found)
    requires FoundAll(g, all, components, visited)
    requires c.start in all && c.nodes == Component(g, all, c.start)
    ensures FoundAll(g, all, components + [c], visited + c.nodes)
  {
    var longer := components + [c];
    assert longer[|components|] == c;
    forall n | n in visited + c.nodes ensures IsFound(longer, n) {
      if n in visited {
        assert IsFound(components, n);
        var i :| 0 <= i < |components| && n in components[i].nodes;
        assert longer[i] == components[i];
      }
    }
  }

  lemma SomethingFound(g: AsGraph, asList: seq<int>)
    ensures asList != [] ==> !FoundAll(g, Elements(asList), [], Elements(asList))
  {
    if asList != [] {
      assert asList[0] in Elements(asList);
      assert !IsFound([], asList[0]);
    }
  }

  // The first of the largest components.
  method Largest(components: seq<Found>) returns (k: nat)
    requires components != []
    ensures k < |components|
    ensures forall j :: 0 <= j < |components| ==> |components[j].nodes| <= |components[k].nodes|
    ensures forall j :: 0 <= j < k ==> |components[j].nodes| < |components[k].nodes|
  {
    k := 0;
    for i := 1 to |components|
      invariant k < i
      invariant forall j :: 0 <= j < i ==> |components[j].nodes| <= |components[k].nodes|
      invariant forall j :: 0 <= j < k ==> |components[j].nodes| < |components[k].nodes|
    {
      if |components[k].nodes| < |components[i].nodes| {
        k := i;
      }
    }
  }

  // The largest component found is at least as large as the component of any node.
  lemma LargestOverall(g: AsGraph, all: set<int>, components: seq<Found>, k: nat, n: int)
    requires Undirected(g) && FoundAll(g, all, components, all) && n in all
    requires k < |components| && forall j :: 0 <= j < |components| ==> |components[j].nodes| <= |components[k].nodes|
    ensures |Component(g, all, n)| <= |components[k].nodes|
  {
    assert IsFound(components, n);
    var i :| 0 <= i < |components| && n in components[i].nodes;
    SameComponent(g, all, components[i].start, n);
  }

  // ---------------------------------------------------------------- bounded expansion

  function Limit(maxNodes: int): int {
    Max(maxNodes, 1)
  }

  ghost predicate Expanding(g: AsGraph, all: set<int>, start: int, limit: int, sub: set<int>, queue: seq<int>, done: set<int>) {
    && start in sub && sub <= Component(g, all, start) && |sub| <= limit
    && (forall n {:trigger Linked(g, sub, start, n)} :: n in sub ==> Linked(g, sub, start, n))
    && sub == done + Elements(queue) && done !! Elements(queue) && Distinct(queue)
    && (forall n :: n in done ==> Row(g, n).Keys <= sub || |sub| == limit)
  }

  method Expand(g: AsGraph, ghost all: set<int>, start: int, maxNodes: int) returns (sub: set<int>)
    requires Closed(g, all) && start in all
    ensures start in sub && sub <= Component(g, all, start)
    ensures forall n :: n in sub ==> Linked(g, sub, start, n)
    ensures |sub| == Min(Limit(maxNodes), |Component(g, all, start)|)
  {
    sub := {start};
    var queue := [start];
    ghost var done: set<int> := {};
    ExpandStart(g, all, start, Limit(maxNodes));
    while queue != [] && |sub| < maxNodes
      invariant Expanding(g, all, start, Limit(maxNodes), sub, queue, done)
      decreases Component(g, all, start) - done
    {
      var node := queue[0];
      BeginGrow(g, all, start, Limit(maxNodes), sub, queue, done);
      queue := queue[1..];
      done := done + {node};
      sub, queue := Grow(g, all, start, maxNodes, node, sub, queue, done);
    }
    ExpandDone(g, all, start, maxNodes, sub, queue, done);
  }

  // The expansion in the middle of one node's neighbours, `todo` of which are still to come.
  ghost predicate Growing(g: AsGraph, all: set<int>, start: int, limit: int, node: int, todo: set<int>,
                          sub: set<int>, queue: seq<int>, done: set<int>) {
    && start in sub && sub <= Component(g, all, start) && |sub| <= limit
    && (forall n {:trigger Linked(g, sub, start, n)} :: n in sub ==> Linked(g, sub, start, n))
    && sub == done + Elements(queue) && done !! Elements(queue) && Distinct(queue)
    && (forall n :: n in done && n != node ==> Row(g, n).Keys <= sub || |sub| == limit)
    && node in done && todo <= Row(g, node).Keys
    && (Row(g, node).Keys - todo <= sub || |sub| == limit)
  }

  lemma ExpandStart(g: AsGraph, all: set<int>, start: int, limit: int)
    requires start in all && 1 <= limit
    ensures Expanding(g, all, start, limit, {start}, [start], {})
  {
    LinkedSelf(g, all, start);
    LinkedSelf(g, {start}, start);
  }

  lemma {:induction false} BeginGrow(g: AsGraph, all: set<int>, start: int, limit: int, sub: set<int>, queue: seq<int>, done: set<int>)
    requires Expanding(g, all, start, limit, sub, queue, done) && queue != [] && |sub| < limit
    ensures Growing(g, all, start, limit, queue[0], Row(g, queue[0]).Keys, sub, queue[1..], done + {queue[0]})
  {
    DistinctShrinks(queue);
  }

  // Take in the neighbours of one node, as long as there is room.
  method Grow(g: AsGraph, ghost all: set<int>, ghost start: int, maxNodes: int, node: int,
              sub0: set<int>, queue0: seq<int>, ghost done: set<int>)
    returns (sub: set<int>, queue: seq<int>)
    requires Closed(g, all) && |sub0| < maxNodes
    requires Growing(g, all, start, Limit(maxNodes), node, Row(g, node).Keys, sub0, queue0, done)
    ensures Expanding(g, all, start, Limit(maxNodes), sub, queue, done)
  {
    sub, queue := sub0, queue0;
    var todo := Row(g, node).Keys;
    while todo != {}
      invariant Growing(g, all, start, Limit(maxNodes), node, todo, sub, queue, done)
      decreases |todo|
    {
      ghost var some := AnyOf(todo);
      var neighbor :| neighbor in todo;
      if neighbor !in sub && |sub| < maxNodes {
        TakeIn(g, all, start, Limit(maxNodes), node, todo, sub, queue, done, neighbor);
        sub, queue := sub + {neighbor}, queue + [neighbor];
      }
      todo := todo - {neighbor};
    }
  }

  lemma StillLinked(g: AsGraph, sub: set<int>, start: int, node: int, x: int)
    requires node in sub && Edge(g, node, x)
    requires forall n :: n in sub ==> Linked(g, sub, start, n)
    ensures forall n :: n in sub + {x} ==> Linked(g, sub + {x}, start, n)
  {
    forall n | n in sub + {x} ensures Linked(g, sub + {x}, start, n) {
      var m := if n == x then node else n;
      LinkedWider(g, sub, sub + {x}, start, m);
      if n == x { LinkedStep(g, sub + {x}, start, node, x); }
    }
  }

  lemma {:induction false} TakeIn(g: AsGraph, all: set<int>, start: int, limit: int, node: int, todo: set<int>,
               sub: set<int>, queue: seq<int>, done: set<int>, x: int)
    requires Closed(g, all) && Growing(g, all, start, limit, node, todo, sub, queue, done)
    requires x in todo && x !in sub && |sub| < limit
    ensures Growing(g, all, start, limit, node, todo - {x}, sub + {x}, queue + [x], done)
  {
    assert Edge(g, node, x);
    StillLinked(g, sub, start, node, x);
    StaysInside(g, all, start, node, sub, x);
    DistinctGrows(queue, x);
    assert |sub + {x}| == |sub| + 1;
  }

  lemma StaysInside(g: AsGraph, all: set<int>, start: int, node: int, sub: set<int>, x: int)
    requires Closed(g, all) && sub <= Component(g, all, start) && node in sub && Edge(g, node, x)
    ensures sub + {x} <= Component(g, all, start)
  {
    ComponentClosed(g, all, start);
  }

  lemma {:induction false} ExpandDone(g: AsGraph, all: set<int>, start: int, maxNodes: int, sub: set<int>, queue: seq<int>, done: set<int>)
    requires Closed(g, all) && Expanding(g, all, start, Limit(maxNodes), sub, queue, done)
    requires queue == [] || maxNodes <= |sub|
    ensures |sub| == Min(Limit(maxNodes), |Component(g, all, start)|)
  {
    var comp := Component(g, all, start);
    SubsetSize(sub, comp);
    SubsetSize({start}, sub);
    if |sub| < Limit(maxNodes) {
      assert Elements(queue) == {};
      assert sub == done;
      forall s, t | s in sub && Edge(g, s, t) ensures t in sub {
        assert t in Row(g, s).Keys;
      }
      forall n | n in comp ensures n in sub {
        LinkedStays(g, all, sub, start, n);
      }
      assert sub == comp;
    }
  }

  // ---------------------------------------------------------------- the search as a whole

  // The extracted nodes: part of a component of maximum size, connected on their own, and as many
  // as asked for if the component has them.
  ghost predicate Extracted(g: AsGraph, all: set<int>, maxNodes: int, hub: int, nodes: set<int>) {
    && hub in all && (forall n :: n in all ==> |Component(g, all, n)| <= |Component(g, all, hub)|)
    && nodes <= Component(g, all, hub) && Connected(g, nodes)
    && |nodes| == Min(Max(maxNodes, 1), |Component(g, all, hub)|)
  }

  method FindConnectedSubgraph(g: AsGraph, asList: seq<int>, maxNodes: int) returns (r: seq<int>, ghost hub: int)
    requires Undirected(g) && Closed(g, Elements(asList))
    ensures Increasing(r)
    ensures r == [] <==> asList == []
    ensures asList != [] ==> Extracted(g, Elements(asList), maxNodes, hub, Elements(r)) && |r| == |Elements(r)|
  {
    hub := 0;
    var components := Components(g, asList);
    if components == [] {
      SomethingFound(g, asList);
      return [], hub;
    }
    var k := Largest(components);
    hub := components[k].start;
    forall n | n in Elements(asList) ensures |Component(g, Elements(asList), n)| <= |components[k].nodes| {
      LargestOverall(g, Elements(asList), components, k, n);
    }
    var sub := Expand(g, Elements(asList), components[k].start, maxNodes);
    StarIsConnected(g, sub, components[k].start);
    r := Sorted(sub);
  }
}
