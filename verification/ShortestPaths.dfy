// Shortest-path distances over the topology graph, with a lazy-deletion priority queue.
//
// Edges form an arbitrary directed multigraph with non-negative latencies.  The result is
// specified by walks alone: a distance is the least weight of any walk, and it is infinite
// exactly when there is no walk.
module ShortestPaths {
  import opened Basics

  datatype Edge = Edge(target: int, latency: nat, bandwidth: int)

  type Graph = map<int, seq<Edge>>

  datatype Distance = Infinite | Finite(d: nat)

  // A heap entry; entries are ordered by distance first and by node number second.
  datatype Entry = Entry(d: nat, node: int)

  function Out(g: Graph, u: int): seq<Edge> {
    if u in g then g[u] else []
  }

  predicate Improves(n: nat, d: Distance) {
    d.Infinite? || n < d.d
  }

  predicate AtMost(x: Entry, y: Entry) {
    x.d < y.d || (x.d == y.d && x.node <= y.node)
  }

  // ---------------------------------------------------------------- walks

  ghost function End(s: int, p: seq<Edge>): int {
    if p == [] then s else p[|p| - 1].target
  }

  ghost predicate IsWalk(g: Graph, s: int, p: seq<Edge>) {
    p == [] || (IsWalk(g, s, p[..|p| - 1]) && p[|p| - 1] in Out(g, End(s, p[..|p| - 1])))
  }

  ghost function Weight(p: seq<Edge>): nat {
    if p == [] then 0 else Weight(p[..|p| - 1]) + p[|p| - 1].latency
  }

  ghost predicate Connects(g: Graph, s: int, t: int, p: seq<Edge>) {
    IsWalk(g, s, p) && End(s, p) == t
  }

  // n is the weight of some walk from s to t.
  ghost predicate Reaches(g: Graph, s: int, t: int, n: nat) {
    exists p :: Connects(g, s, t, p) && Weight(p) == n
  }

  ghost predicate IsDistance(g: Graph, s: int, t: int, d: Distance) {
    match d
    case Infinite => forall n: nat :: !Reaches(g, s, t, n)
    case Finite(m) => Reaches(g, s, t, m) && forall n: nat :: Reaches(g, s, t, n) ==> m <= n
  }

  lemma ReachesStep(g: Graph, s: int, u: int, n: nat, e: Edge)
    requires Reaches(g, s, u, n) && e in Out(g, u)
    ensures Reaches(g, s, e.target, n + e.latency)
  {
    var p :| Connects(g, s, u, p) && Weight(p) == n;
    assert (p + [e])[..|p|] == p;
    assert Connects(g, s, e.target, p + [e]) && Weight(p + [e]) == n + e.latency;
  }

  // ---------------------------------------------------------------- the search invariant

  // The nodes a search from `start` has a label for.
  predicate IsNode(v: int, numNodes: nat, start: int) {
    0 <= v < numNodes || v == start
  }

  ghost predicate InRange(g: Graph, numNodes: nat, start: int) {
    forall u, i :: 0 <= i < |Out(g, u)| ==> IsNode(Out(g, u)[i].target, numNodes, start)
  }

  // The first k edges out of u offer no improvement.
  ghost predicate RelaxedUpTo(g: Graph, dist: map<int, Distance>, u: int, k: nat)
    requires k <= |Out(g, u)|
  {
    && u in dist && dist[u].Finite?
    && forall i :: 0 <= i < k ==>
         Out(g, u)[i].target in dist && !Improves(dist[u].d + Out(g, u)[i].latency, dist[Out(g, u)[i].target])
  }

  ghost predicate Relaxed(g: Graph, dist: map<int, Distance>, u: int) {
    RelaxedUpTo(g, dist, u, |Out(g, u)|)
  }

  ghost predicate Sound(g: Graph, s: int, dist: map<int, Distance>) {
    && s in dist && dist[s] == Finite(0)
    && forall v {:trigger Reaches(g, s, v, dist[v].d)} :: v in dist && dist[v].Finite? ==> Reaches(g, s, v, dist[v].d)
  }

  // Every queued entry is current or stale, never early, and is queued once.
  ghost predicate QueueOk(dist: map<int, Distance>, pq: multiset<Entry>, done: set<int>) {
    forall e :: e in pq ==>
      && pq[e] == 1
      && e.node in dist && dist[e.node].Finite? && dist[e.node].d <= e.d
      && (e.node in done ==> dist[e.node].d < e.d)
  }

  // A reached node that is not settled still has its current entry in the queue.
  ghost predicate Pending(dist: map<int, Distance>, pq: multiset<Entry>, done: set<int>) {
    forall v :: v in dist && v !in done && dist[v].Finite? ==> Entry(dist[v].d, v) in pq
  }

  // No settled node is farther than `bound`.
  ghost predicate SettledBy(dist: map<int, Distance>, done: set<int>, bound: nat) {
    forall x :: x in done ==> x in dist && dist[x].Finite? && dist[x].d <= bound
  }

  ghost predicate Searching(g: Graph, s: int, dist: map<int, Distance>, pq: multiset<Entry>, done: set<int>) {
    && Sound(g, s, dist)
    && QueueOk(dist, pq, done)
    && Pending(dist, pq, done)
    && (forall x {:trigger Relaxed(g, dist, x)} :: x in done ==> Relaxed(g, dist, x))
    && (forall e {:trigger SettledBy(dist, done, e.d)} :: e in pq ==> SettledBy(dist, done, e.d))
  }

  // The state inside the scan of u's edges, the first k of which have been relaxed.
  ghost predicate Scanning(g: Graph, s: int, dist: map<int, Distance>, pq: multiset<Entry>, done: set<int>, u: int, k: nat)
    requires k <= |Out(g, u)|
  {
    && Sound(g, s, dist)
    && QueueOk(dist, pq, done)
    && Pending(dist, pq, done)
    && u in done && RelaxedUpTo(g, dist, u, k)
    && (forall x {:trigger Relaxed(g, dist, x)} :: x in done && x != u ==> Relaxed(g, dist, x))
    && SettledBy(dist, done, dist[u].d)
    && (forall e :: e in pq ==> dist[u].d <= e.d)
  }

  lemma DropStale(g: Graph, s: int, dist: map<int, Distance>, pq: multiset<Entry>, done: set<int>, e: Entry)
    requires Searching(g, s, dist, pq, done) && e in pq && dist[e.node].d < e.d
    ensures Searching(g, s, dist, pq - multiset{e}, done)
  {
  }

  lemma BeginScan(g: Graph, s: int, dist: map<int, Distance>, pq: multiset<Entry>, done: set<int>, e: Entry)
    requires Searching(g, s, dist, pq, done)
    requires e in pq && dist[e.node].d >= e.d && forall x :: x in pq ==> AtMost(e, x)
    ensures e.node !in done
    ensures Scanning(g, s, dist, pq - multiset{e}, done + {e.node}, e.node, 0)
  {
    assert SettledBy(dist, done, e.d);
  }

  lemma EndScan(g: Graph, s: int, dist: map<int, Distance>, pq: multiset<Entry>, done: set<int>, u: int)
    requires Scanning(g, s, dist, pq, done, u, |Out(g, u)|)
    ensures Searching(g, s, dist, pq, done)
  {
  }

  lemma SkipEdge(g: Graph, s: int, dist: map<int, Distance>, pq: multiset<Entry>, done: set<int>, u: int, k: nat)
    requires k < |Out(g, u)| && Scanning(g, s, dist, pq, done, u, k)
    requires Out(g, u)[k].target in dist
    requires !Improves(dist[u].d + Out(g, u)[k].latency, dist[Out(g, u)[k].target])
    ensures Scanning(g, s, dist, pq, done, u, k + 1)
  {
  }

  // An edge out of u that offers an improvement leads to a node that is neither settled nor
  // queued at the new distance.
  lemma ImprovedNodeIsOpen(g: Graph, s: int, dist: map<int, Distance>, pq: multiset<Entry>, done: set<int>, u: int, k: nat)
    requires k < |Out(g, u)| && Scanning(g, s, dist, pq, done, u, k)
    requires Out(g, u)[k].target in dist
    requires Improves(dist[u].d + Out(g, u)[k].latency, dist[Out(g, u)[k].target])
    ensures Out(g, u)[k].target !in done && Out(g, u)[k].target != s
    ensures Entry(dist[u].d + Out(g, u)[k].latency, Out(g, u)[k].target) !in pq
  {
  }

  lemma RelaxedStaysRelaxed(g: Graph, dist: map<int, Distance>, v: int, n: nat, x: int, k: nat)
    requires v in dist && Improves(n, dist[v]) && x != v
    requires k <= |Out(g, x)| && RelaxedUpTo(g, dist, x, k)
    ensures RelaxedUpTo(g, dist[v := Finite(n)], x, k)
  {
  }

  lemma QueueStaysOk(dist: map<int, Distance>, pq: multiset<Entry>, done: set<int>, v: int, n: nat)
    requires QueueOk(dist, pq, done) && Pending(dist, pq, done)
    requires v in dist && Improves(n, dist[v]) && v !in done && Entry(n, v) !in pq
    ensures QueueOk(dist[v := Finite(n)], pq + multiset{Entry(n, v)}, done)
    ensures Pending(dist[v := Finite(n)], pq + multiset{Entry(n, v)}, done)
  {
    var pq' := pq + multiset{Entry(n, v)};
    assert Entry(n, v) in pq';
    forall e | e in pq' ensures pq'[e] == 1 && (e == Entry(n, v) || e in pq) {
    }
  }

  lemma SoundAfter(g: Graph, s: int, dist: map<int, Distance>, v: int, n: nat)
    requires Sound(g, s, dist) && v != s && Reaches(g, s, v, n)
    ensures Sound(g, s, dist[v := Finite(n)])
  {
  }

  lemma {:induction false} TakeEdge(g: Graph, s: int, dist: map<int, Distance>, pq: multiset<Entry>, done: set<int>, u: int, k: nat, v: int, n: nat)
    requires k < |Out(g, u)| && Scanning(g, s, dist, pq, done, u, k)
    requires v == Out(g, u)[k].target && v in dist
    requires n == dist[u].d + Out(g, u)[k].latency && Improves(n, dist[v])
    ensures Scanning(g, s, dist[v := Finite(n)], pq + multiset{Entry(n, v)}, done, u, k + 1)
  {
    ImprovedNodeIsOpen(g, s, dist, pq, done, u, k);
    ReachesStep(g, s, u, dist[u].d, Out(g, u)[k]);
    SoundAfter(g, s, dist, v, n);
    QueueStaysOk(dist, pq, done, v, n);
    forall x | x in done && x != u ensures Relaxed(g, dist[v := Finite(n)], x) {
      assert Relaxed(g, dist, x);
      RelaxedStaysRelaxed(g, dist, v, n, x, |Out(g, x)|);
    }
    RelaxedStaysRelaxed(g, dist, v, n, u, k);
  }

  // Once the queue is empty every reached node is settled, and no walk beats its label.
  lemma {:induction false} LabelsAreLower(g: Graph, s: int, dist: map<int, Distance>, done: set<int>, p: seq<Edge>)
    requires Searching(g, s, dist, multiset{}, done) && IsWalk(g, s, p)
    ensures End(s, p) in dist && dist[End(s, p)].Finite? && dist[End(s, p)].d <= Weight(p)
    decreases |p|
  {
    if p != [] {
      var q, e := p[..|p| - 1], p[|p| - 1];
      LabelsAreLower(g, s, dist, done, q);
      assert Pending(dist, multiset{}, done);
      assert Relaxed(g, dist, End(s, q));
      var i :| 0 <= i < |Out(g, End(s, q))| && Out(g, End(s, q))[i] == e;
    }
  }

  lemma FinishedIsExact(g: Graph, s: int, dist: map<int, Distance>, done: set<int>)
    requires Searching(g, s, dist, multiset{}, done)
    ensures forall v :: v in dist.Keys ==> IsDistance(g, s, v, dist[v])
  {
    forall v, n: nat | v in dist && Reaches(g, s, v, n) ensures dist[v].Finite? && dist[v].d <= n {
      var p :| Connects(g, s, v, p) && Weight(p) == n;
      LabelsAreLower(g, s, dist, done, p);
    }
  }

  // ---------------------------------------------------------------- the program

  lemma {:induction false} LeastEntryExists(pq: multiset<Entry>) returns (e: Entry)
    requires pq != multiset{}
    ensures e in pq && forall x :: x in pq ==> AtMost(e, x)
    decreases |pq|
  {
    e :| e in pq;
    var rest := pq - multiset{e};
    assert forall x :: x in pq ==> x == e || x in rest;
    if rest != multiset{} {
      var m := LeastEntryExists(rest);
      assert m in pq;
      e := if AtMost(e, m) then e else m;
    }
  }

  method HeapPop(pq: multiset<Entry>) returns (e: Entry, rest: multiset<Entry>)
    requires pq != multiset{}
    ensures e in pq && (forall x :: x in pq ==> AtMost(e, x))
    ensures rest == pq - multiset{e}
  {
    ghost var least := LeastEntryExists(pq);
    e :| e in pq && forall x :: x in pq ==> AtMost(e, x);
    rest := pq - multiset{e};
  }

  // `scans` counts how often an edge list is walked: at most once per node.
  method Dijkstra(edges: Graph, start: int, numNodes: nat) returns (dist: map<int, Distance>, ghost scans: nat)
    requires InRange(edges, numNodes, start)
    ensures forall v :: v in dist.Keys <==> IsNode(v, numNodes, start)
    ensures forall v :: v in dist.Keys ==> IsDistance(edges, start, v, dist[v])
    ensures scans <= |dist.Keys|
  {
    dist := InitialLabels(numNodes, start);
    ghost var nodes := dist.Keys;
    InitialSearch(edges, start, dist);
    var pq := multiset{Entry(0, start)};
    ghost var done: set<int> := {};
    scans := 0;
    while pq != multiset{}
      invariant dist.Keys == nodes
      invariant Searching(edges, start, dist, pq, done)
      invariant done <= nodes && scans == |done|
      decreases nodes - done, |pq|
    {
      var e, rest := HeapPop(pq);
      if e.d > dist[e.node].d {
        DropStale(edges, start, dist, pq, done, e);
        pq := rest;
        continue;
      }
      BeginScan(edges, start, dist, pq, done, e);
      done, scans := done + {e.node}, scans + 1;
      dist, pq := ScanEdges(edges, start, numNodes, e.node, dist, rest, done);
    }
    FinishedIsExact(edges, start, dist, done);
    SubsetSize(done, nodes);
  }

  method InitialLabels(numNodes: nat, start: int) returns (dist: map<int, Distance>)
    ensures forall v :: v in dist.Keys <==> IsNode(v, numNodes, start)
    ensures forall v :: v in dist.Keys ==> dist[v] == if v == start then Finite(0) else Infinite
  {
    dist := map[];
    for i := 0 to numNodes
      invariant forall v :: v in dist.Keys <==> 0 <= v < i
      invariant forall v :: v in dist.Keys ==> dist[v] == Infinite
    {
      dist := dist[i := Infinite];
    }
    dist := dist[start := Finite(0)];
  }

  lemma InitialSearch(g: Graph, s: int, dist: map<int, Distance>)
    requires s in dist && forall v :: v in dist.Keys ==> dist[v] == if v == s then Finite(0) else Infinite
    ensures Searching(g, s, dist, multiset{Entry(0, s)}, {})
  {
    assert Connects(g, s, s, []) && Weight([]) == 0;
  }

  // The inner loop: relax every edge out of the node just settled.
  method ScanEdges(edges: Graph, ghost start: int, ghost numNodes: nat, u: int,
                   dist0: map<int, Distance>, pq0: multiset<Entry>, ghost done: set<int>)
    returns (dist: map<int, Distance>, pq: multiset<Entry>)
    requires InRange(edges, numNodes, start)
    requires forall v :: v in dist0.Keys <==> IsNode(v, numNodes, start)
    requires Scanning(edges, start, dist0, pq0, done, u, 0)
    ensures dist.Keys == dist0.Keys
    ensures Searching(edges, start, dist, pq, done)
  {
    dist, pq := dist0, pq0;
    var out := Out(edges, u);
    for k := 0 to |out|
      invariant dist.Keys == dist0.Keys
      invariant Scanning(edges, start, dist, pq, done, u, k)
    {
      var v, n := out[k].target, dist[u].d + out[k].latency;
      assert IsNode(v, numNodes, start);
      if Improves(n, dist[v]) {
        TakeEdge(edges, start, dist, pq, done, u, k, v, n);
        dist := dist[v := Finite(n)];
        pq := pq + multiset{Entry(n, v)};
      } else {
        SkipEdge(edges, start, dist, pq, done, u, k);
      }
    }
    EndScan(edges, start, dist, pq, done, u);
  }

  // ---------------------------------------------------------------- symmetric graphs

  ghost predicate HasTwin(g: Graph, u: int, e: Edge) {
    exists f :: f in Out(g, e.target) && f.target == u && f.latency == e.latency
  }

  ghost predicate Symmetric(g: Graph) {
    forall u, e {:trigger HasTwin(g, u, e)} :: e in Out(g, u) ==> HasTwin(g, u, e)
  }

  lemma {:induction false} PrependEdge(g: Graph, t: int, e: Edge, q: seq<Edge>)
    requires e in Out(g, t) && IsWalk(g, e.target, q)
    ensures IsWalk(g, t, [e] + q) && End(t, [e] + q) == End(e.target, q)
    ensures Weight([e] + q) == e.latency + Weight(q)
    decreases |q|
  {
    var p := [e] + q;
    if q == [] {
      assert p[..|p| - 1] == [];
    } else {
      PrependEdge(g, t, e, q[..|q| - 1]);
      assert p[..|p| - 1] == [e] + q[..|q| - 1];
    }
  }

  lemma TwinOf(g: Graph, u: int, e: Edge) returns (f: Edge)
    requires Symmetric(g) && e in Out(g, u)
    ensures f in Out(g, e.target) && f.target == u && f.latency == e.latency
  {
    assert HasTwin(g, u, e);
    f :| f in Out(g, e.target) && f.target == u && f.latency == e.latency;
  }

  lemma {:induction false} ReverseWalk(g: Graph, s: int, p: seq<Edge>) returns (q: seq<Edge>)
    requires Symmetric(g) && IsWalk(g, s, p)
    ensures Connects(g, End(s, p), s, q) && Weight(q) == Weight(p)
    decreases |p|
  {
    if p == [] {
      q := [];
    } else {
      var init, e := p[..|p| - 1], p[|p| - 1];
      var back := ReverseWalk(g, s, init);
      var f := TwinOf(g, End(s, init), e);
      PrependEdge(g, e.target, f, back);
      q := [f] + back;
    }
  }

  // In a symmetric graph two searches agree on the distance between their starts.
  lemma DistanceSymmetric(g: Graph, s: int, t: int, d: Distance, back: Distance)
    requires Symmetric(g)
    requires IsDistance(g, s, t, d) && IsDistance(g, t, s, back)
    ensures d == back
  {
    forall a, b, n: nat | Reaches(g, a, b, n) ensures Reaches(g, b, a, n) {
      var p :| Connects(g, a, b, p) && Weight(p) == n;
      var q := ReverseWalk(g, a, p);
    }
  }
}
