// The rest of the extraction: self-loops, renumbering, and the topology that comes out.
module TopologyRenumbering {
  import opened Basics
  import opened SortedLists
  import opened AsGraphs
  import opened TopologyExtraction

  const SELF: Rel := "self"

  // ---------------------------------------------------------------- self-loops

  // The induced subgraph, with the edge from a node to itself replaced or added.
  function LoopedRel(g: AsGraph, nodes: set<int>, s: int, t: int): Option<Rel> {
    if s !in nodes || t !in nodes then None
    else if s == t then Some(SELF)
    else RelOf(g, s, t)
  }

  method InducedRow(row: map<int, Rel>, component: seq<int>) returns (r: map<int, Rel>)
    ensures r.Keys == row.Keys * Elements(component)
    ensures forall t :: t in r ==> r[t] == row[t]
  {
    r := map[];
    var todo := row.Keys;
    while todo != {}
      invariant todo <= row.Keys && r.Keys == (row.Keys - todo) * Elements(component)
      invariant forall t :: t in r ==> r[t] == row[t]
      decreases |todo|
    {
      ghost var some := AnyOf(todo);
      var target :| target in todo;
      todo := todo - {target};
      if target in component {
        r := r[target := row[target]];
      }
    }
  }

  method InducedSubgraph(g: AsGraph, component: seq<int>) returns (gml: AsGraph)
    ensures gml.Keys <= Elements(component)
    ensures forall s, t :: RelOf(gml, s, t) == if s in component && t in component then RelOf(g, s, t) else None
  {
    gml := map[];
    for i := 0 to |component|
      invariant gml.Keys <= Elements(component[..i])
      invariant forall s, t :: RelOf(gml, s, t) ==
                  if s in component[..i] && t in component then RelOf(g, s, t) else None
    {
      var source := component[i];
      assert Elements(component[..i + 1]) == Elements(component[..i]) + {source};
      assert forall s :: s in component[..i + 1] <==> s in component[..i] || s == source;
      var row := InducedRow(Row(g, source), component);
      if row != map[] {
        gml := gml[source := row];
      }
    }
    assert component[..|component|] == component;
  }

  lemma LoopAdded(induced: AsGraph, before: AsGraph, component: seq<int>, i: nat, node: int)
    requires i < |component| && node == component[i]
    requires forall s, t :: RelOf(before, s, t) == if s == t && s in component[..i] then Some(SELF) else RelOf(induced, s, t)
    ensures var after := before[node := Row(before, node)[node := SELF]];
            forall s, t :: RelOf(after, s, t) == if s == t && s in component[..i + 1] then Some(SELF) else RelOf(induced, s, t)
  {
    assert forall s :: s in component[..i + 1] <==> s in component[..i] || s == node;
    var after := before[node := Row(before, node)[node := SELF]];
    forall s, t ensures RelOf(after, s, t) == if s == node && t == node then Some(SELF) else RelOf(before, s, t) {
    }
  }

  method AddSelfLoops(g: AsGraph, component: seq<int>) returns (gml: AsGraph)
    ensures gml.Keys == Elements(component)
    ensures forall s, t :: RelOf(gml, s, t) == LoopedRel(g, Elements(component), s, t)
  {
    gml := InducedSubgraph(g, component);
    ghost var induced := gml;
    for i := 0 to |component|
      invariant Elements(component[..i]) <= gml.Keys <= Elements(component)
      invariant forall s, t :: RelOf(gml, s, t) == if s == t && s in component[..i] then Some(SELF) else RelOf(induced, s, t)
    {
      var node := component[i];
      assert Elements(component[..i + 1]) == Elements(component[..i]) + {node};
      LoopAdded(induced, gml, component, i, node);
      gml := gml[node := Row(gml, node)[node := SELF]];
    }
    assert component[..|component|] == component;
  }

  // ---------------------------------------------------------------- renumbering

  // old -> new, as the position in the sorted list.
  ghost predicate IsNumbering(oldToNew: map<int, int>, component: seq<int>) {
    && oldToNew.Keys == Elements(component)
    && forall i :: 0 <= i < |component| ==> component[i] in oldToNew && oldToNew[component[i]] == i
  }

  method Numbering(component: seq<int>) returns (oldToNew: map<int, int>)
    requires Increasing(component)
    ensures IsNumbering(oldToNew, component)
  {
    oldToNew := map[];
    for i := 0 to |component|
      invariant IsNumbering(oldToNew, component[..i])
    {
      assert Elements(component[..i + 1]) == Elements(component[..i]) + {component[i]};
      oldToNew := oldToNew[component[i] := i];
    }
    assert component[..|component|] == component;
  }

  ghost predicate IsRenamed(row: map<int, Rel>, component: seq<int>, r: map<int, Rel>) {
    && (forall j :: j in r ==> 0 <= j < |component| && component[j] in row && r[j] == row[component[j]])
    && (forall j :: 0 <= j < |component| && component[j] in row ==> j in r)
  }

  function Restricted(row: map<int, Rel>, ts: set<int>): map<int, Rel> {
    map t | t in row && t in ts :: row[t]
  }

  method RenameRow(row: map<int, Rel>, oldToNew: map<int, int>, ghost component: seq<int>) returns (r: map<int, Rel>)
    requires IsNumbering(oldToNew, component) && row.Keys <= Elements(component)
    ensures IsRenamed(row, component, r)
  {
    r := map[];
    var todo := row.Keys;
    while todo != {}
      invariant todo <= row.Keys && IsRenamed(Restricted(row, row.Keys - todo), component, r)
      decreases |todo|
    {
      ghost var some := AnyOf(todo);
      var target :| target in todo;
      ghost var k :| 0 <= k < |component| && component[k] == target;
      RenameStep(row, component, oldToNew, row.Keys - todo, k, r);
      todo := todo - {target};
      assert row.Keys - todo == row.Keys - (todo + {target}) + {target};
      r := r[oldToNew[target] := row[target]];
    }
    assert Restricted(row, row.Keys - todo) == row;
  }

  lemma RenameStep(row: map<int, Rel>, component: seq<int>, oldToNew: map<int, int>, seen: set<int>, k: nat, r: map<int, Rel>)
    requires IsNumbering(oldToNew, component) && k < |component| && component[k] in row
    requires IsRenamed(Restricted(row, seen), component, r)
    ensures IsRenamed(Restricted(row, seen + {component[k]}), component, r[k := row[component[k]]])
  {
    forall j | 0 <= j < |component| && component[j] == component[k] ensures j == k {
      assert oldToNew[component[j]] == j;
    }
  }

  // New node numbers stand for the component's nodes in increasing order.
  ghost predicate IsRenumbered(gml: AsGraph, component: seq<int>, newGraph: AsGraph) {
    forall i, j :: RelOf(newGraph, i, j) ==
      if 0 <= i < |component| && 0 <= j < |component| then RelOf(gml, component[i], component[j]) else None
  }

  method RenumberNodes(gml: AsGraph, component: seq<int>) returns (newGraph: AsGraph, newNodes: seq<int>)
    requires Increasing(component) && gml.Keys == Elements(component)
    requires forall s :: s in gml ==> gml[s].Keys <= Elements(component)
    ensures forall i :: i in newGraph.Keys <==> 0 <= i < |component|
    ensures IsRenumbered(gml, component, newGraph)
    ensures |newNodes| == |component| && forall i :: 0 <= i < |newNodes| ==> newNodes[i] == i
  {
    var oldToNew := Numbering(component);
    newGraph := map[];
    var todo := gml.Keys;
    while todo != {}
      invariant todo <= gml.Keys
      invariant Renumbering(gml, component, todo, newGraph)
      decreases |todo|
    {
      ghost var some := AnyOf(todo);
      var oldSource :| oldSource in todo;
      ghost var k :| 0 <= k < |component| && component[k] == oldSource;
      var row := RenameRow(gml[oldSource], oldToNew, component);
      RenumberStep(gml, component, oldToNew, todo, k, newGraph, row);
      todo := todo - {oldSource};
      newGraph := newGraph[oldToNew[oldSource] := row];
    }
    RenumberDone(gml, component, newGraph);
    ValuesArePositions(oldToNew, component);
    newNodes := Sorted(oldToNew.Values);
    PositionsInOrder(newNodes, |component|);
  }

  ghost predicate Renumbering(gml: AsGraph, component: seq<int>, todo: set<int>, newGraph: AsGraph) {
    && (forall i :: i in newGraph ==> 0 <= i < |component| && component[i] in gml && component[i] !in todo && IsRenamed(gml[component[i]], component, newGraph[i]))
    && (forall i :: 0 <= i < |component| && component[i] !in todo ==> i in newGraph)
  }

  lemma {:induction false} RenumberStep(gml: AsGraph, component: seq<int>, oldToNew: map<int, int>, todo: set<int>, k: nat,
                     newGraph: AsGraph, row: map<int, Rel>)
    requires IsNumbering(oldToNew, component) && k < |component| && component[k] in todo && component[k] in gml
    requires Renumbering(gml, component, todo, newGraph) && IsRenamed(gml[component[k]], component, row)
    ensures Renumbering(gml, component, todo - {component[k]}, newGraph[k := row])
  {
    forall j | 0 <= j < |component| && component[j] == component[k] ensures j == k {
      assert oldToNew[component[j]] == j;
    }
  }

  lemma RenumberDone(gml: AsGraph, component: seq<int>, newGraph: AsGraph)
    requires Renumbering(gml, component, {}, newGraph) && gml.Keys == Elements(component)
    ensures forall i :: i in newGraph.Keys <==> 0 <= i < |component|
    ensures IsRenumbered(gml, component, newGraph)
  {
  }

  lemma ValuesArePositions(oldToNew: map<int, int>, component: seq<int>)
    requires IsNumbering(oldToNew, component)
    ensures forall i :: i in oldToNew.Values <==> 0 <= i < |component|
  {
    forall i | 0 <= i < |component| ensures i in oldToNew.Values {
      assert component[i] in oldToNew.Keys && oldToNew[component[i]] == i;
    }
  }

  // An increasing list of 0, ..., n-1 is the identity.
  lemma PositionsInOrder(s: seq<int>, n: nat)
    requires Increasing(s) && forall i :: i in Elements(s) <==> 0 <= i < n
    ensures |s| == n && forall i :: 0 <= i < n ==> s[i] == i
  {
    AtLeastPosition(s, |s|);
    forall i | 0 <= i < n ensures i < |s| && s[i] == i {
      PositionIs(s, n, i);
    }
    if n > 0 {
      PositionIs(s, n, n - 1);
    }
    if s != [] {
      assert s[|s| - 1] in Elements(s);
    }
  }

  lemma {:induction false} AtLeastPosition(s: seq<int>, k: nat)
    requires Increasing(s) && k <= |s| && forall i :: i in Elements(s) ==> 0 <= i
    ensures forall i :: 0 <= i < k ==> i <= s[i]
    decreases k
  {
    if k > 0 {
      AtLeastPosition(s, k - 1);
      assert s[k - 1] in Elements(s);
      if k > 1 {
        assert s[k - 2] < s[k - 1];
      }
    }
  }

  lemma {:induction false} PositionIs(s: seq<int>, n: nat, i: nat)
    requires Increasing(s) && i < n && forall x :: x in Elements(s) <==> 0 <= x < n
    ensures i < |s| && s[i] == i
    decreases i
  {
    AtLeastPosition(s, |s|);
    assert i in Elements(s);
    var k :| 0 <= k < |s| && s[k] == i;
    if i > 0 {
      PositionIs(s, n, i - 1);
    }
    assert k <= i;
    if k < i {
      PositionIs(s, n, k);
    }
  }
}
