// The writer of the converted topology, and the topology check in front of it.
//
// Attributes live in hash maps, so the order they are written in is anything; an `Order` is one
// such enumeration, and every statement below is for all of them.
module GmlEmitter {
  import opened Basics
  import opened GmlSyntax
  import opened GmlValues

  // ---------------------------------------------------------------- bandwidths

  predicate EndsWith(s: string, suffix: string) {
    |suffix| <= |s| && s[|s| - |suffix|..] == suffix
  }

  // Every copy of the suffix is trimmed, not just the last.
  function TrimEnd(s: string, suffix: string): string
    requires suffix != []
  {
    if EndsWith(s, suffix) then TrimEnd(s[..|s| - |suffix|], suffix) else s
  }

  const GBIT := "Gbit"
  const MBIT := "Mbit"

  function ConvertBandwidth(h: Host, value: string): string {
    if EndsWith(value, GBIT) then
      var g := h.gbit(TrimEnd(value, GBIT));
      if g.Some? then g.value else value
    else if EndsWith(value, MBIT) then TrimEnd(value, MBIT)
    else value
  }

  // ---------------------------------------------------------------- what is written

  function Quote(v: string): string {
    "\"" + v + "\""
  }

  function NodeText(h: Host, key: string, value: string): string {
    if key == "bandwidth" then ConvertBandwidth(h, value) else Quote(value)
  }

  function EdgeText(h: Host, key: string, value: string): string {
    if key == "packet_loss" then value
    else if key == "bandwidth" then ConvertBandwidth(h, value)
    else Quote(value)
  }

  function NodeTexts(h: Host, attributes: map<string, string>): map<string, string> {
    map k | k in attributes :: NodeText(h, k, attributes[k])
  }

  function EdgeTexts(h: Host, attributes: map<string, string>): map<string, string> {
    map k | k in attributes :: EdgeText(h, k, attributes[k])
  }

  // The keys of a map, each once, in some order.
  ghost predicate Lists(keys: seq<string>, m: map<string, string>) {
    Distinct(keys) && forall k :: k in keys <==> k in m
  }

  datatype Order = Order(graph: seq<string>, nodes: seq<seq<string>>, edges: seq<seq<string>>)

  ghost predicate IsOrder(o: Order, g: GmlGraph) {
    && Lists(o.graph, g.attributes)
    && |o.nodes| == |g.nodes| && (forall i :: 0 <= i < |g.nodes| ==> Lists(o.nodes[i], g.nodes[i].attributes))
    && |o.edges| == |g.edges| && (forall i :: 0 <= i < |g.edges| ==> Lists(o.edges[i], g.edges[i].attributes))
  }

  function Line(indent: string, key: string, text: string): string {
    indent + (key + " " + (text + "\n"))
  }

  function Lines(indent: string, texts: map<string, string>, keys: seq<string>): string
    requires forall k :: k in keys ==> k in texts
  {
    if keys == [] then [] else Line(indent, keys[0], texts[keys[0]]) + Lines(indent, texts, keys[1..])
  }

  function LabelLine(caption: Option<string>): string {
    if caption.Some? then Line("    ", "label", Quote(caption.value)) else []
  }

  function NodeBlock(h: Host, n: GmlNode, keys: seq<string>): string
    requires forall k :: k in keys ==> k in n.attributes
  {
    "  node [\n" + (Line("    ", "id", ShowNat(n.id)) + (LabelLine(n.labelText) + (Lines("    ", NodeTexts(h, n.attributes), keys) + "  ]\n")))
  }

  function EdgeBlock(h: Host, e: GmlEdge, keys: seq<string>): string
    requires forall k :: k in keys ==> k in e.attributes
  {
    "  edge [\n" + (Line("    ", "source", ShowNat(e.source)) + (Line("    ", "target", ShowNat(e.target)) + (Lines("    ", EdgeTexts(h, e.attributes), keys) + "  ]\n")))
  }

  ghost predicate NodeKeysOk(nodes: seq<GmlNode>, orders: seq<seq<string>>) {
    |orders| == |nodes| && forall i :: 0 <= i < |nodes| ==> Lists(orders[i], nodes[i].attributes)
  }

  ghost predicate EdgeKeysOk(edges: seq<GmlEdge>, orders: seq<seq<string>>) {
    |orders| == |edges| && forall i :: 0 <= i < |edges| ==> Lists(orders[i], edges[i].attributes)
  }

  ghost function NodeBlocks(h: Host, nodes: seq<GmlNode>, orders: seq<seq<string>>): string
    requires NodeKeysOk(nodes, orders)
  {
    if nodes == [] then [] else NodeBlock(h, nodes[0], orders[0]) + NodeBlocks(h, nodes[1..], orders[1..])
  }

  ghost function EdgeBlocks(h: Host, edges: seq<GmlEdge>, orders: seq<seq<string>>): string
    requires EdgeKeysOk(edges, orders)
  {
    if edges == [] then [] else EdgeBlock(h, edges[0], orders[0]) + EdgeBlocks(h, edges[1..], orders[1..])
  }

  ghost function Emit(h: Host, g: GmlGraph, o: Order): string
    requires IsOrder(o, g)
  {
    "graph [\n" + (Lines("  ", g.attributes, o.graph) + (NodeBlocks(h, g.nodes, o.nodes) + (EdgeBlocks(h, g.edges, o.edges) + "]\n")))
  }

  // ---------------------------------------------------------------- validation

  datatype Verdict =
    | Fine | DuplicateId(id: nat) | NoSource(id: nat) | NoTarget(id: nat) | Disconnected
    | BadAddress(ip: string, id: nat) | RepeatedAddress(ip: string)

  function Ids(nodes: seq<GmlNode>): seq<nat> {
    seq(|nodes|, i requires 0 <= i < |nodes| => nodes[i].id)
  }

  function IdSet(ids: seq<nat>): set<nat> {
    set id | id in ids
  }

  // The first id that repeats an earlier one.
  function FirstRepeat(ids: seq<nat>, seen: set<nat>): Option<nat> {
    if ids == [] then None
    else if ids[0] in seen then Some(ids[0])
    else FirstRepeat(ids[1..], seen + {ids[0]})
  }

  function FirstDangling(edges: seq<GmlEdge>, ids: set<nat>): Verdict {
    if edges == [] then Fine
    else if edges[0].source !in ids then NoSource(edges[0].source)
    else if edges[0].target !in ids then NoTarget(edges[0].target)
    else FirstDangling(edges[1..], ids)
  }

  function Validate(g: GmlGraph): Verdict {
    var ids := Ids(g.nodes);
    var repeat := FirstRepeat(ids, {});
    if repeat.Some? then DuplicateId(repeat.value)
    else
      var dangling := FirstDangling(g.edges, IdSet(ids));
      if dangling != Fine then dangling
      else if |g.nodes| > 1 && g.edges == [] then Disconnected
      else Fine
  }

  lemma {:induction false} NoRepeatMeansDistinct(ids: seq<nat>, seen: set<nat>)
    ensures FirstRepeat(ids, seen).None? <==> Distinct(ids) && forall i :: 0 <= i < |ids| ==> ids[i] !in seen
    decreases |ids|
  {
    if ids != [] {
      NoRepeatMeansDistinct(ids[1..], seen + {ids[0]});
      assert forall i :: 1 <= i < |ids| ==> ids[i] == ids[1..][i - 1];
      assert forall i :: 0 <= i < |ids| - 1 ==> ids[1..][i] == ids[i + 1];
    }
  }

  lemma {:induction false} NoDanglingMeansKnown(edges: seq<GmlEdge>, ids: set<nat>)
    ensures FirstDangling(edges, ids) == Fine <==> forall e :: e in edges ==> e.source in ids && e.target in ids
    decreases |edges|
  {
    if edges != [] {
      NoDanglingMeansKnown(edges[1..], ids);
      assert edges == [edges[0]] + edges[1..];
    }
  }

  // A topology passes exactly when ids are unique, every edge joins known nodes, and several
  // nodes have at least one edge.
  lemma ValidateMeaning(g: GmlGraph)
    ensures Validate(g) == Fine <==>
            && Distinct(Ids(g.nodes))
            && (forall e :: e in g.edges ==> e.source in Ids(g.nodes) && e.target in Ids(g.nodes))
            && (|g.nodes| > 1 ==> g.edges != [])
  {
    NoRepeatMeansDistinct(Ids(g.nodes), {});
    NoDanglingMeansKnown(g.edges, IdSet(Ids(g.nodes)));
  }

  method ValidateTopology(g: GmlGraph) returns (v: Verdict)
    ensures v == Validate(g)
  {
    var nodeIds: set<nat> := {};
    var ids := Ids(g.nodes);
    for i := 0 to |g.nodes|
      invariant FirstRepeat(ids, {}) == FirstRepeat(ids[i..], nodeIds)
      invariant nodeIds == IdSet(ids[..i])
    {
      if g.nodes[i].id in nodeIds {
        return DuplicateId(g.nodes[i].id);
      }
      nodeIds := nodeIds + {g.nodes[i].id};
      assert ids[..i + 1] == ids[..i] + [g.nodes[i].id];
      assert IdSet(ids[..i + 1]) == IdSet(ids[..i]) + {g.nodes[i].id};
      assert ids[i..][1..] == ids[i + 1..];
    }
    assert ids[..|ids|] == ids && ids[|ids|..] == [];
    assert nodeIds == IdSet(ids);
    for i := 0 to |g.edges|
      invariant FirstDangling(g.edges, nodeIds) == FirstDangling(g.edges[i..], nodeIds)
    {
      var edge := g.edges[i];
      if edge.source !in nodeIds {
        return NoSource(edge.source);
      }
      if edge.target !in nodeIds {
        return NoTarget(edge.target);
      }
      assert g.edges[i..][1..] == g.edges[i + 1..];
    }
    if |g.nodes| > 1 && |g.edges| == 0 {
      return Disconnected;
    }
    return Fine;
  }

  // The first address that is none, or repeats an earlier one.
  function AddressFault(h: Host, nodes: seq<GmlNode>, seen: set<string>): Verdict {
    if nodes == [] then Fine
    else if nodes[0].ip.None? then AddressFault(h, nodes[1..], seen)
    else if !h.address(nodes[0].ip.value) then BadAddress(nodes[0].ip.value, nodes[0].id)
    else if nodes[0].ip.value in seen then RepeatedAddress(nodes[0].ip.value)
    else AddressFault(h, nodes[1..], seen + {nodes[0].ip.value})
  }

  ghost predicate AddressesOk(h: Host, nodes: seq<GmlNode>, seen: set<string>) {
    && (forall i :: 0 <= i < |nodes| && nodes[i].ip.Some? ==> h.address(nodes[i].ip.value) && nodes[i].ip.value !in seen)
    && (forall i, j :: 0 <= i < j < |nodes| && nodes[i].ip.Some? ==> nodes[i].ip != nodes[j].ip)
  }

  // No fault exactly when every address is one and no two nodes share theirs.
  lemma {:induction false} NoAddressFault(h: Host, nodes: seq<GmlNode>, seen: set<string>)
    ensures AddressFault(h, nodes, seen) == Fine <==> AddressesOk(h, nodes, seen)
    decreases |nodes|
  {
    if nodes != [] {
      var ip, rest := nodes[0].ip, nodes[1..];
      NoAddressFault(h, rest, if ip.Some? then seen + {ip.value} else seen);
      assert forall i :: 1 <= i < |nodes| ==> nodes[i] == rest[i - 1];
      assert forall i :: 0 <= i < |rest| ==> rest[i] == nodes[i + 1];
    }
  }

  method ValidateAddresses(h: Host, g: GmlGraph) returns (v: Verdict)
    ensures v == AddressFault(h, g.nodes, {})
  {
    var taken: set<string> := {};
    for i := 0 to |g.nodes|
      invariant AddressFault(h, g.nodes, {}) == AddressFault(h, g.nodes[i..], taken)
    {
      var ip := g.nodes[i].ip;
      assert g.nodes[i..][1..] == g.nodes[i + 1..];
      if ip.Some? {
        if !h.address(ip.value) {
          return BadAddress(ip.value, g.nodes[i].id);
        }
        if ip.value in taken {
          return RepeatedAddress(ip.value);
        }
        taken := taken + {ip.value};
      }
    }
    return Fine;
  }

  // Both checks, in the order they are made.
  function Refusal(h: Host, g: GmlGraph): Verdict {
    if Validate(g) != Fine then Validate(g) else AddressFault(h, g.nodes, {})
  }

  // ---------------------------------------------------------------- the writer

  method WriteLines(content: string, indent: string, texts: map<string, string>, keys: seq<string>) returns (r: string)
    requires forall k :: k in keys ==> k in texts
    ensures r == content + Lines(indent, texts, keys)
  {
    r := content;
    for i := 0 to |keys|
      invariant r + Lines(indent, texts, keys[i..]) == content + Lines(indent, texts, keys)
    {
      ghost var before := r;
      var line := Line(indent, keys[i], texts[keys[i]]);
      r := r + line;
      assert keys[i..][1..] == keys[i + 1..];
      assert before + (line + Lines(indent, texts, keys[i + 1..])) == (before + line) + Lines(indent, texts, keys[i + 1..]);
    }
  }

  method WriteNode(h: Host, content: string, n: GmlNode, keys: seq<string>) returns (r: string)
    requires Lists(keys, n.attributes)
    ensures r == content + NodeBlock(h, n, keys)
  {
    r := content + "  node [\n";
    r := r + Line("    ", "id", ShowNat(n.id));
    if n.labelText.Some? {
      r := r + Line("    ", "label", Quote(n.labelText.value));
    }
    r := WriteLines(r, "    ", NodeTexts(h, n.attributes), keys);
    r := r + "  ]\n";
    var id, caption, lines := Line("    ", "id", ShowNat(n.id)), LabelLine(n.labelText), Lines("    ", NodeTexts(h, n.attributes), keys);
    Flatten(content, "  node [\n", id, caption, lines, "  ]\n");
    assert content + "  node [\n" + id + [] == content + "  node [\n" + id;
  }

  method WriteEdge(h: Host, content: string, e: GmlEdge, keys: seq<string>) returns (r: string)
    requires Lists(keys, e.attributes)
    ensures r == content + EdgeBlock(h, e, keys)
  {
    r := content + "  edge [\n";
    r := r + Line("    ", "source", ShowNat(e.source));
    r := r + Line("    ", "target", ShowNat(e.target));
    r := WriteLines(r, "    ", EdgeTexts(h, e.attributes), keys);
    r := r + "  ]\n";
    Flatten(content, "  edge [\n", Line("    ", "source", ShowNat(e.source)), Line("    ", "target", ShowNat(e.target)),
            Lines("    ", EdgeTexts(h, e.attributes), keys), "  ]\n");
  }

  lemma Flatten(a: string, b: string, c: string, d: string, e: string, f: string)
    ensures a + b + c + d + e + f == a + (b + (c + (d + (e + f))))
  {
  }

  method WriteNodes(h: Host, content: string, nodes: seq<GmlNode>, orders: seq<seq<string>>) returns (r: string)
    requires NodeKeysOk(nodes, orders)
    ensures r == content + NodeBlocks(h, nodes, orders)
  {
    r := content;
    for i := 0 to |nodes|
      invariant r + NodeBlocks(h, nodes[i..], orders[i..]) == content + NodeBlocks(h, nodes, orders)
    {
      ghost var before := r;
      r := WriteNode(h, r, nodes[i], orders[i]);
      assert nodes[i..][1..] == nodes[i + 1..] && orders[i..][1..] == orders[i + 1..];
      Regroup(before, NodeBlock(h, nodes[i], orders[i]), NodeBlocks(h, nodes[i + 1..], orders[i + 1..]));
    }
  }

  method WriteEdges(h: Host, content: string, edges: seq<GmlEdge>, orders: seq<seq<string>>) returns (r: string)
    requires EdgeKeysOk(edges, orders)
    ensures r == content + EdgeBlocks(h, edges, orders)
  {
    r := content;
    for i := 0 to |edges|
      invariant r + EdgeBlocks(h, edges[i..], orders[i..]) == content + EdgeBlocks(h, edges, orders)
    {
      ghost var before := r;
      r := WriteEdge(h, r, edges[i], orders[i]);
      assert edges[i..][1..] == edges[i + 1..] && orders[i..][1..] == orders[i + 1..];
      Regroup(before, EdgeBlock(h, edges[i], orders[i]), EdgeBlocks(h, edges[i + 1..], orders[i + 1..]));
    }
  }

  lemma Regroup(a: string, b: string, c: string)
    ensures a + b + c == a + (b + c)
  {
  }

  // Check the topology and its addresses, then write it.
  method GenerateGml(h: Host, g: GmlGraph, o: Order) returns (r: Result<string, Verdict>)
    requires IsOrder(o, g)
    ensures r == if Refusal(h, g) == Fine then Ok(Emit(h, g, o)) else Err(Refusal(h, g))
  {
    var verdict := ValidateTopology(g);
    if verdict != Fine {
      return Err(verdict);
    }
    verdict := ValidateAddresses(h, g);
    if verdict != Fine {
      return Err(verdict);
    }
    var content := "graph [\n";
    content := WriteLines(content, "  ", g.attributes, o.graph);
    content := WriteNodes(h, content, g.nodes, o.nodes);
    content := WriteEdges(h, content, g.edges, o.edges);
    content := content + "]\n";
    EmitFlat("graph [\n", Lines("  ", g.attributes, o.graph), NodeBlocks(h, g.nodes, o.nodes), EdgeBlocks(h, g.edges, o.edges), "]\n");
    r := Ok(content);
  }

  lemma EmitFlat(b: string, c: string, d: string, e: string, f: string)
    ensures b + c + d + e + f == b + (c + (d + (e + f)))
  {
  }
}
