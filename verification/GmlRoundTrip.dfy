// Parsing what was written gives back the graph, with its bandwidths converted; writing and
// parsing that graph again changes nothing more.
module GmlRoundTrip {
  import opened Basics
  import opened GmlSyntax
  import opened GmlLayout
  import opened GmlValues
  import opened GmlEmitter
  import opened GmlLines

  // ---------------------------------------------------------------- fixed pieces of a block

  predicate IsLower(w: string) {
    w != [] && forall i :: 0 <= i < |w| ==> 'a' <= w[i] <= 'z'
  }

  lemma LowerIsIdentifier(h: Host, w: string)
    requires Sane(h) && IsLower(w)
    ensures IsIdentifier(h, w) && IsWord(h, w) && WordToken(h, w) == Identifier(w)
  {
    assert forall i :: 0 <= i < |w| ==> SaneAt(h, w[i]);
  }

  function Open(indent: string, word: string): string {
    indent + ((word + " ") + "[\n")
  }

  lemma LexesOpen(h: Host, indent: string, word: string)
    requires Sane(h) && Spaces(indent) && IsLower(word)
    ensures Lexes(h, Open(indent, word), [Identifier(word), LeftBracket])
  {
    LowerIsIdentifier(h, word);
    SpacesAreLayout(h, indent);
    LexesLayout(h, indent);
    LexesWord(h, word, ' ');
    LexesBracket(h, '[', '\n');
    assert ['['] + ['\n'] == "[\n";
    LexesConcat(h, word + " ", [Identifier(word)], "[\n", [LeftBracket]);
    LexesConcat(h, indent, [], (word + " ") + "[\n", [Identifier(word)] + [LeftBracket]);
    assert [] + ([Identifier(word)] + [LeftBracket]) == [Identifier(word), LeftBracket];
  }

  lemma LexesClose(h: Host, indent: string)
    requires Sane(h) && Spaces(indent)
    ensures Lexes(h, indent + "]\n", [RightBracket])
  {
    SpacesAreLayout(h, indent);
    LexesLayout(h, indent);
    LexesBracket(h, ']', '\n');
    assert [']'] + ['\n'] == "]\n";
    LexesConcat(h, indent, [], "]\n", [RightBracket]);
    assert [] + [RightBracket] == [RightBracket];
  }

  // A line with a number.
  lemma {:induction false} LexesNumberLine(h: Host, key: string, n: nat)
    requires Sane(h) && IsLower(key) && n < U32
    ensures IsValue(WordToken(h, ShowNat(n)))
    ensures Lexes(h, Line("    ", key, ShowNat(n)), [Identifier(key), WordToken(h, ShowNat(n))])
  {
    LowerIsIdentifier(h, key);
    ShownNumberIsRead(h, n);
    LexesLine(h, "    ", key, ShowNat(n), ShowNat(n));
  }

  // Five pieces one after another.
  lemma LexesFive(h: Host, a: string, u: seq<Token>, b: string, v: seq<Token>, c: string, w: seq<Token>, d: string, x: seq<Token>, e: string, y: seq<Token>)
    requires Lexes(h, a, u) && Lexes(h, b, v) && Lexes(h, c, w) && Lexes(h, d, x) && Lexes(h, e, y)
    ensures Lexes(h, a + (b + (c + (d + e))), u + (v + (w + (x + y))))
  {
    LexesConcat(h, d, x, e, y);
    LexesConcat(h, c, w, d + e, x + y);
    LexesConcat(h, b, v, c + (d + e), w + (x + y));
    LexesConcat(h, a, u, b + (c + (d + e)), v + (w + (x + y)));
  }

  lemma PrependFive(u: seq<Token>, v: seq<Token>, w: seq<Token>, x: seq<Token>, y: seq<Token>, tail: Stream)
    ensures Prepend(u + (v + (w + (x + y))), tail) == Prepend(u, Prepend(v, Prepend(w, Prepend(x, Prepend(y, tail)))))
  {
    PrependConcat(u, v + (w + (x + y)), tail);
    PrependConcat(v, w + (x + y), tail);
    PrependConcat(w, x + y, tail);
    PrependConcat(x, y, tail);
  }

  // ---------------------------------------------------------------- what can be written

  function ConvertAttributes(h: Host, attributes: map<string, string>): map<string, string> {
    map k | k in attributes :: if k == "bandwidth" then ConvertBandwidth(h, attributes[k]) else attributes[k]
  }

  function ConvertNode(h: Host, n: GmlNode): GmlNode {
    n.(attributes := ConvertAttributes(h, n.attributes))
  }

  function ConvertEdge(h: Host, e: GmlEdge): GmlEdge {
    e.(attributes := ConvertAttributes(h, e.attributes))
  }

  function ConvertNodes(h: Host, nodes: seq<GmlNode>): seq<GmlNode> {
    seq(|nodes|, i requires 0 <= i < |nodes| => ConvertNode(h, nodes[i]))
  }

  function ConvertEdges(h: Host, edges: seq<GmlEdge>): seq<GmlEdge> {
    seq(|edges|, i requires 0 <= i < |edges| => ConvertEdge(h, edges[i]))
  }

  function ConvertGraph(h: Host, g: GmlGraph): GmlGraph {
    GmlGraph(ConvertNodes(h, g.nodes), ConvertEdges(h, g.edges), g.attributes)
  }

  // The keys are identifiers, bare values are single words, quoted values need no escaping.
  ghost predicate NodeAttributesOk(h: Host, attributes: map<string, string>) {
    && "id" !in attributes && "label" !in attributes
    && forall k :: k in attributes ==>
         IsIdentifier(h, k) && (if k == "bandwidth" then IsWord(h, ConvertBandwidth(h, attributes[k])) else QuotedSafe(attributes[k]))
  }

  ghost predicate EdgeAttributesOk(h: Host, attributes: map<string, string>) {
    && "source" !in attributes && "target" !in attributes
    && forall k :: k in attributes ==>
         && IsIdentifier(h, k)
         && (if k == "packet_loss" then IsWord(h, attributes[k])
             else if k == "bandwidth" then IsWord(h, ConvertBandwidth(h, attributes[k]))
             else QuotedSafe(attributes[k]))
  }

  ghost predicate GraphAttributesOk(h: Host, attributes: map<string, string>) {
    && "node" !in attributes && "edge" !in attributes
    && forall k :: k in attributes ==> IsIdentifier(h, k) && IsWord(h, attributes[k])
  }

  // The address and region of a node are the ones its attributes give, as the reader derives them.
  ghost predicate NodeOk(h: Host, n: GmlNode) {
    && n.id < U32 && (n.labelText.Some? ==> QuotedSafe(n.labelText.value))
    && NodeAttributesOk(h, n.attributes)
    && n.ip == ParseIp(h, n.attributes) && n.region == ParseRegion(n.attributes)
  }

  ghost predicate EdgeOk(h: Host, e: GmlEdge) {
    e.source < U32 && e.target < U32 && EdgeAttributesOk(h, e.attributes)
  }

  ghost predicate Printable(h: Host, g: GmlGraph) {
    && GraphAttributesOk(h, g.attributes)
    && (forall i :: 0 <= i < |g.nodes| ==> NodeOk(h, g.nodes[i]))
    && (forall i :: 0 <= i < |g.edges| ==> EdgeOk(h, g.edges[i]))
  }

  // ---------------------------------------------------------------- nodes

  ghost function LabelTokens(caption: Option<string>): seq<Token> {
    if caption.Some? then [Identifier("label"), Str(caption.value)] else []
  }

  ghost function NodeTokens(h: Host, n: GmlNode, keys: seq<string>): seq<Token>
    requires NodeOk(h, n) && Lists(keys, n.attributes)
  {
    NodeTextsWrite(h, n.attributes);
    [Identifier("node"), LeftBracket]
    + ([Identifier("id"), WordToken(h, ShowNat(n.id))]
    + (LabelTokens(n.labelText)
    + (LineTokens(h, NodeTexts(h, n.attributes), ConvertAttributes(h, n.attributes), keys)
    + [RightBracket])))
  }

  lemma NodeTextsWrite(h: Host, attributes: map<string, string>)
    requires NodeAttributesOk(h, attributes)
    ensures WritesAll(h, NodeTexts(h, attributes), ConvertAttributes(h, attributes))
  {
  }

  lemma {:induction false} LexesLabel(h: Host, caption: Option<string>)
    requires Sane(h) && (caption.Some? ==> QuotedSafe(caption.value))
    ensures Lexes(h, LabelLine(caption), LabelTokens(caption))
  {
    if caption.Some? {
      LowerIsIdentifier(h, "label");
      QuoteIsNoWord(h, caption.value);
      LexesLine(h, "    ", "label", Quote(caption.value), caption.value);
    } else {
      LexesLayout(h, []);
    }
  }

  lemma QuoteIsNoWord(h: Host, v: string)
    requires Sane(h)
    ensures !IsWord(h, Quote(v))
  {
    assert Quote(v)[0] == '"' && SaneAt(h, '"');
  }

  lemma {:induction false} LexesNode(h: Host, n: GmlNode, keys: seq<string>)
    requires Sane(h) && NodeOk(h, n) && Lists(keys, n.attributes)
    ensures Lexes(h, NodeBlock(h, n, keys), NodeTokens(h, n, keys))
  {
    NodeTextsWrite(h, n.attributes);
    LexesOpen(h, "  ", "node");
    assert Open("  ", "node") == "  node [\n";
    LexesNumberLine(h, "id", n.id);
    LexesLabel(h, n.labelText);
    LexesLines(h, "    ", NodeTexts(h, n.attributes), ConvertAttributes(h, n.attributes), keys);
    LexesClose(h, "  ");
    assert "  " + "]\n" == "  ]\n";
    LexesFive(h, "  node [\n", [Identifier("node"), LeftBracket],
              Line("    ", "id", ShowNat(n.id)), [Identifier("id"), WordToken(h, ShowNat(n.id))],
              LabelLine(n.labelText), LabelTokens(n.labelText),
              Lines("    ", NodeTexts(h, n.attributes), keys), LineTokens(h, NodeTexts(h, n.attributes), ConvertAttributes(h, n.attributes), keys),
              "  ]\n", [RightBracket]);
  }

  lemma {:induction false} IpUnaffected(h: Host, attributes: map<string, string>, keys: seq<string>)
    requires forall i :: 0 <= i < |keys| ==> keys[i] != "bandwidth"
    ensures FirstIp(h, ConvertAttributes(h, attributes), keys) == FirstIp(h, attributes, keys)
    ensures FirstPresent(ConvertAttributes(h, attributes), keys) == FirstPresent(attributes, keys)
    decreases |keys|
  {
    if keys != [] {
      IpUnaffected(h, attributes, keys[1..]);
    }
  }

  lemma DerivedUnaffected(h: Host, n: GmlNode)
    requires NodeOk(h, n)
    ensures ParseIp(h, ConvertAttributes(h, n.attributes)) == n.ip
    ensures ParseRegion(ConvertAttributes(h, n.attributes)) == n.region
  {
    IpUnaffected(h, n.attributes, IP_KEYS);
    IpUnaffected(h, n.attributes, REGION_KEYS);
  }

  lemma {:induction false} NumberFieldParsed(h: Host, n: nat, tail: Stream, f: NodeFields)
    requires Sane(h) && n < U32 && !tail.Bad?
    ensures NodeBody(Prepend([Identifier("id"), WordToken(h, ShowNat(n))], tail), f) == NodeBody(tail, f.(id := Some(n)))
  {
    ShownNumberIsRead(h, n);
    assert [Identifier("id"), WordToken(h, ShowNat(n))] + [] == [Identifier("id"), WordToken(h, ShowNat(n))];
    PrependTwo(Identifier("id"), WordToken(h, ShowNat(n)), [], tail);
    FieldIsParsed("id", WordToken(h, ShowNat(n)), tail, "attribute name in node");
  }

  lemma {:induction false} LabelParsed(caption: Option<string>, tail: Stream, f: NodeFields)
    requires !tail.Bad? && f.labelText.None?
    ensures !Prepend(LabelTokens(caption), tail).Bad?
    ensures NodeBody(Prepend(LabelTokens(caption), tail), f) == NodeBody(tail, f.(labelText := caption))
  {
    if caption.Some? {
      assert [Identifier("label"), Str(caption.value)] + [] == [Identifier("label"), Str(caption.value)];
      PrependTwo(Identifier("label"), Str(caption.value), [], tail);
      FieldIsParsed("label", Str(caption.value), tail, "attribute name in node");
    } else {
      assert f.(labelText := caption) == f;
    }
  }

  lemma BlockOpened(word: string, tail: Stream)
    requires !tail.Bad?
    ensures OpenBlock(Prepend([Identifier(word), LeftBracket], tail), word) == Ok(tail)
  {
    assert [Identifier(word), LeftBracket] + [] == [Identifier(word), LeftBracket];
    PrependTwo(Identifier(word), LeftBracket, [], tail);
  }

  // The closing bracket, in front of the rest.
  function Close(tail: Stream): Stream {
    More(RightBracket, tail)
  }

  lemma PrependClose(tail: Stream)
    ensures Prepend([RightBracket], tail) == Close(tail)
  {
    assert [RightBracket][1..] == [];
  }

  lemma {:induction false} NodeBodyParsed(h: Host, n: GmlNode, keys: seq<string>, tail: Stream, ts: Stream)
    requires Sane(h) && NodeOk(h, n) && Lists(keys, n.attributes) && !tail.Bad?
    requires WritesAll(h, NodeTexts(h, n.attributes), ConvertAttributes(h, n.attributes))
    requires ts == Prepend([Identifier("id"), WordToken(h, ShowNat(n.id))], Prepend(LabelTokens(n.labelText),
                     Prepend(LineTokens(h, NodeTexts(h, n.attributes), ConvertAttributes(h, n.attributes), keys), Close(tail))))
    ensures !ts.Bad?
    ensures NodeBody(ts, NodeFields(None, None, map[])) ==
            Ok(Body(NodeFields(Some(n.id), n.labelText, ConvertAttributes(h, n.attributes)), Close(tail)))
  {
    var texts, values := NodeTexts(h, n.attributes), ConvertAttributes(h, n.attributes);
    var lines := Prepend(LineTokens(h, texts, values, keys), Close(tail));
    var f0 := NodeFields(None, None, map[]);
    var f1 := NodeFields(Some(n.id), None, map[]);
    NodeLinesParsed(h, texts, values, keys, Close(tail), f1.(labelText := n.labelText));
    LabelParsed(n.labelText, lines, f1);
    NumberFieldParsed(h, n.id, Prepend(LabelTokens(n.labelText), lines), f0);
    PutAllFromEmpty(values, keys);
  }

  lemma {:induction false} NodeParsed(h: Host, n: GmlNode, keys: seq<string>, tail: Stream)
    requires Sane(h) && NodeOk(h, n) && Lists(keys, n.attributes) && !tail.Bad?
    ensures var ts := Prepend(NodeTokens(h, n, keys), tail);
            Current(ts) == Identifier("node") && ParseNode(h, ts) == Ok(Body(ConvertNode(h, n), tail))
  {
    NodeTextsWrite(h, n.attributes);
    var lines := LineTokens(h, NodeTexts(h, n.attributes), ConvertAttributes(h, n.attributes), keys);
    var idTokens := [Identifier("id"), WordToken(h, ShowNat(n.id))];
    PrependFive([Identifier("node"), LeftBracket], idTokens, LabelTokens(n.labelText), lines, [RightBracket], tail);
    PrependClose(tail);
    var ts := Prepend(idTokens, Prepend(LabelTokens(n.labelText), Prepend(lines, Close(tail))));
    NodeBodyParsed(h, n, keys, tail, ts);
    BlockOpened("node", ts);
    DerivedUnaffected(h, n);
  }

  // ---------------------------------------------------------------- edges

  lemma {:induction false} EdgeTextsWrite(h: Host, attributes: map<string, string>)
    requires Sane(h) && EdgeAttributesOk(h, attributes)
    ensures WritesAll(h, EdgeTexts(h, attributes), ConvertAttributes(h, attributes))
    ensures forall k :: k in attributes ==> LossValue(h, k, ConvertAttributes(h, attributes)[k]) == ConvertAttributes(h, attributes)[k]
  {
    forall k | k in attributes ensures LossValue(h, k, ConvertAttributes(h, attributes)[k]) == ConvertAttributes(h, attributes)[k] {
      if k == "packet_loss" {
        var v := attributes[k];
        assert WordChar(h, v[|v| - 1]) && SaneAt(h, '%');
      }
    }
  }

  ghost function EdgeTokens(h: Host, e: GmlEdge, keys: seq<string>): seq<Token>
    requires Sane(h) && EdgeOk(h, e) && Lists(keys, e.attributes)
  {
    EdgeTextsWrite(h, e.attributes);
    [Identifier("edge"), LeftBracket]
    + ([Identifier("source"), WordToken(h, ShowNat(e.source))]
    + ([Identifier("target"), WordToken(h, ShowNat(e.target))]
    + (LineTokens(h, EdgeTexts(h, e.attributes), ConvertAttributes(h, e.attributes), keys)
    + [RightBracket])))
  }

  lemma {:induction false} LexesEdge(h: Host, e: GmlEdge, keys: seq<string>)
    requires Sane(h) && EdgeOk(h, e) && Lists(keys, e.attributes)
    ensures Lexes(h, EdgeBlock(h, e, keys), EdgeTokens(h, e, keys))
  {
    EdgeTextsWrite(h, e.attributes);
    LexesOpen(h, "  ", "edge");
    assert Open("  ", "edge") == "  edge [\n";
    LexesNumberLine(h, "source", e.source);
    LexesNumberLine(h, "target", e.target);
    LexesLines(h, "    ", EdgeTexts(h, e.attributes), ConvertAttributes(h, e.attributes), keys);
    LexesClose(h, "  ");
    assert "  " + "]\n" == "  ]\n";
    LexesFive(h, "  edge [\n", [Identifier("edge"), LeftBracket],
              Line("    ", "source", ShowNat(e.source)), [Identifier("source"), WordToken(h, ShowNat(e.source))],
              Line("    ", "target", ShowNat(e.target)), [Identifier("target"), WordToken(h, ShowNat(e.target))],
              Lines("    ", EdgeTexts(h, e.attributes), keys), LineTokens(h, EdgeTexts(h, e.attributes), ConvertAttributes(h, e.attributes), keys),
              "  ]\n", [RightBracket]);
  }

  lemma {:induction false} EndpointParsed(h: Host, key: string, n: nat, tail: Stream, f: EdgeFields)
    requires Sane(h) && n < U32 && !tail.Bad? && (key == "source" || key == "target")
    ensures EdgeBody(h, Prepend([Identifier(key), WordToken(h, ShowNat(n))], tail), f) ==
            EdgeBody(h, tail, if key == "source" then f.(source := Some(n)) else f.(target := Some(n)))
  {
    ShownNumberIsRead(h, n);
    assert [Identifier(key), WordToken(h, ShowNat(n))] + [] == [Identifier(key), WordToken(h, ShowNat(n))];
    PrependTwo(Identifier(key), WordToken(h, ShowNat(n)), [], tail);
    FieldIsParsed(key, WordToken(h, ShowNat(n)), tail, "attribute name in edge");
  }

  lemma {:induction false} EdgeBodyParsed(h: Host, e: GmlEdge, keys: seq<string>, tail: Stream, ts: Stream)
    requires Sane(h) && EdgeOk(h, e) && Lists(keys, e.attributes) && !tail.Bad?
    requires WritesAll(h, EdgeTexts(h, e.attributes), ConvertAttributes(h, e.attributes))
    requires ts == Prepend([Identifier("source"), WordToken(h, ShowNat(e.source))], Prepend([Identifier("target"), WordToken(h, ShowNat(e.target))],
                     Prepend(LineTokens(h, EdgeTexts(h, e.attributes), ConvertAttributes(h, e.attributes), keys), Close(tail))))
    ensures !ts.Bad?
    ensures EdgeBody(h, ts, EdgeFields(None, None, map[])) ==
            Ok(Body(EdgeFields(Some(e.source), Some(e.target), ConvertAttributes(h, e.attributes)), Close(tail)))
  {
    EdgeTextsWrite(h, e.attributes);
    var texts, values := EdgeTexts(h, e.attributes), ConvertAttributes(h, e.attributes);
    var lines := Prepend(LineTokens(h, texts, values, keys), Close(tail));
    var f1 := EdgeFields(Some(e.source), None, map[]);
    EdgeLinesParsed(h, texts, values, keys, Close(tail), EdgeFields(Some(e.source), Some(e.target), map[]));
    EndpointParsed(h, "target", e.target, lines, f1);
    EndpointParsed(h, "source", e.source, Prepend([Identifier("target"), WordToken(h, ShowNat(e.target))], lines), EdgeFields(None, None, map[]));
    PutAllFromEmpty(values, keys);
  }

  lemma {:induction false} EdgeParsed(h: Host, e: GmlEdge, keys: seq<string>, tail: Stream)
    requires Sane(h) && EdgeOk(h, e) && Lists(keys, e.attributes) && !tail.Bad?
    ensures var ts := Prepend(EdgeTokens(h, e, keys), tail);
            Current(ts) == Identifier("edge") && ParseEdge(h, ts) == Ok(Body(ConvertEdge(h, e), tail))
  {
    EdgeTextsWrite(h, e.attributes);
    var lines := LineTokens(h, EdgeTexts(h, e.attributes), ConvertAttributes(h, e.attributes), keys);
    var source := [Identifier("source"), WordToken(h, ShowNat(e.source))];
    var target := [Identifier("target"), WordToken(h, ShowNat(e.target))];
    PrependFive([Identifier("edge"), LeftBracket], source, target, lines, [RightBracket], tail);
    PrependClose(tail);
    var ts := Prepend(source, Prepend(target, Prepend(lines, Close(tail))));
    EdgeBodyParsed(h, e, keys, tail, ts);
    BlockOpened("edge", ts);
  }

  // ---------------------------------------------------------------- all the blocks

  ghost predicate NodesOk(h: Host, nodes: seq<GmlNode>, orders: seq<seq<string>>) {
    NodeKeysOk(nodes, orders) && forall i :: 0 <= i < |nodes| ==> NodeOk(h, nodes[i])
  }

  ghost predicate EdgesOk(h: Host, edges: seq<GmlEdge>, orders: seq<seq<string>>) {
    Sane(h) && EdgeKeysOk(edges, orders) && forall i :: 0 <= i < |edges| ==> EdgeOk(h, edges[i])
  }

  ghost function NodesTokens(h: Host, nodes: seq<GmlNode>, orders: seq<seq<string>>): seq<Token>
    requires NodesOk(h, nodes, orders)
  {
    if nodes == [] then [] else NodeTokens(h, nodes[0], orders[0]) + NodesTokens(h, nodes[1..], orders[1..])
  }

  ghost function EdgesTokens(h: Host, edges: seq<GmlEdge>, orders: seq<seq<string>>): seq<Token>
    requires EdgesOk(h, edges, orders)
  {
    if edges == [] then [] else EdgeTokens(h, edges[0], orders[0]) + EdgesTokens(h, edges[1..], orders[1..])
  }

  lemma {:induction false} LexesNodes(h: Host, nodes: seq<GmlNode>, orders: seq<seq<string>>)
    requires Sane(h) && NodesOk(h, nodes, orders)
    ensures Lexes(h, NodeBlocks(h, nodes, orders), NodesTokens(h, nodes, orders))
    decreases |nodes|
  {
    if nodes == [] {
      LexesLayout(h, []);
    } else {
      LexesNode(h, nodes[0], orders[0]);
      LexesNodes(h, nodes[1..], orders[1..]);
      LexesConcat(h, NodeBlock(h, nodes[0], orders[0]), NodeTokens(h, nodes[0], orders[0]),
                  NodeBlocks(h, nodes[1..], orders[1..]), NodesTokens(h, nodes[1..], orders[1..]));
    }
  }

  lemma {:induction false} LexesEdges(h: Host, edges: seq<GmlEdge>, orders: seq<seq<string>>)
    requires EdgesOk(h, edges, orders)
    ensures Lexes(h, EdgeBlocks(h, edges, orders), EdgesTokens(h, edges, orders))
    decreases |edges|
  {
    if edges == [] {
      LexesLayout(h, []);
    } else {
      LexesEdge(h, edges[0], orders[0]);
      LexesEdges(h, edges[1..], orders[1..]);
      LexesConcat(h, EdgeBlock(h, edges[0], orders[0]), EdgeTokens(h, edges[0], orders[0]),
                  EdgeBlocks(h, edges[1..], orders[1..]), EdgesTokens(h, edges[1..], orders[1..]));
    }
  }

  // One parsed node moves from the tokens into the graph.
  lemma {:induction false} GraphTakesNode(h: Host, ts: Stream, n: GmlNode, rest: Stream, g: GmlGraph)
    requires !ts.Bad? && Current(ts) == Identifier("node") && ParseNode(h, ts) == Ok(Body(n, rest))
    ensures GraphBody(h, ts, g) == GraphBody(h, rest, g.(nodes := g.nodes + [n]))
  {
  }

  lemma {:induction false} GraphTakesEdge(h: Host, ts: Stream, e: GmlEdge, rest: Stream, g: GmlGraph)
    requires !ts.Bad? && Current(ts) == Identifier("edge") && ParseEdge(h, ts) == Ok(Body(e, rest))
    ensures GraphBody(h, ts, g) == GraphBody(h, rest, g.(edges := g.edges + [e]))
  {
  }

  lemma ConvertNodesStep(h: Host, done: seq<GmlNode>, nodes: seq<GmlNode>)
    requires nodes != []
    ensures done + [ConvertNode(h, nodes[0])] + ConvertNodes(h, nodes[1..]) == done + ConvertNodes(h, nodes)
  {
  }

  lemma ConvertEdgesStep(h: Host, done: seq<GmlEdge>, edges: seq<GmlEdge>)
    requires edges != []
    ensures done + [ConvertEdge(h, edges[0])] + ConvertEdges(h, edges[1..]) == done + ConvertEdges(h, edges)
  {
  }

  lemma {:induction false} NodesParsed(h: Host, nodes: seq<GmlNode>, orders: seq<seq<string>>, tail: Stream, g: GmlGraph)
    requires Sane(h) && NodesOk(h, nodes, orders) && !tail.Bad?
    ensures !Prepend(NodesTokens(h, nodes, orders), tail).Bad?
    ensures GraphBody(h, Prepend(NodesTokens(h, nodes, orders), tail), g) == GraphBody(h, tail, g.(nodes := g.nodes + ConvertNodes(h, nodes)))
    decreases |nodes|
  {
    if nodes == [] {
      assert g.nodes + ConvertNodes(h, nodes) == g.nodes;
    } else {
      var first := NodeTokens(h, nodes[0], orders[0]);
      var rest := Prepend(NodesTokens(h, nodes[1..], orders[1..]), tail);
      var g1 := g.(nodes := g.nodes + [ConvertNode(h, nodes[0])]);
      NodesParsed(h, nodes[1..], orders[1..], tail, g1);
      PrependConcat(first, NodesTokens(h, nodes[1..], orders[1..]), tail);
      NodeParsed(h, nodes[0], orders[0], rest);
      GraphTakesNode(h, Prepend(first, rest), ConvertNode(h, nodes[0]), rest, g);
      ConvertNodesStep(h, g.nodes, nodes);
    }
  }

  lemma {:induction false} EdgesParsed(h: Host, edges: seq<GmlEdge>, orders: seq<seq<string>>, tail: Stream, g: GmlGraph)
    requires EdgesOk(h, edges, orders) && !tail.Bad?
    ensures !Prepend(EdgesTokens(h, edges, orders), tail).Bad?
    ensures GraphBody(h, Prepend(EdgesTokens(h, edges, orders), tail), g) == GraphBody(h, tail, g.(edges := g.edges + ConvertEdges(h, edges)))
    decreases |edges|
  {
    if edges == [] {
      assert g.edges + ConvertEdges(h, edges) == g.edges;
    } else {
      var first := EdgeTokens(h, edges[0], orders[0]);
      var rest := Prepend(EdgesTokens(h, edges[1..], orders[1..]), tail);
      var g1 := g.(edges := g.edges + [ConvertEdge(h, edges[0])]);
      EdgesParsed(h, edges[1..], orders[1..], tail, g1);
      PrependConcat(first, EdgesTokens(h, edges[1..], orders[1..]), tail);
      EdgeParsed(h, edges[0], orders[0], rest);
      GraphTakesEdge(h, Prepend(first, rest), ConvertEdge(h, edges[0]), rest, g);
      ConvertEdgesStep(h, g.edges, edges);
    }
  }

  // ---------------------------------------------------------------- the round trip

  ghost function GraphTokens(h: Host, g: GmlGraph, o: Order): seq<Token>
    requires Sane(h) && Printable(h, g) && IsOrder(o, g)
  {
    [Identifier("graph"), LeftBracket]
    + (LineTokens(h, g.attributes, g.attributes, o.graph)
    + (NodesTokens(h, g.nodes, o.nodes)
    + (EdgesTokens(h, g.edges, o.edges)
    + [RightBracket])))
  }

  lemma {:induction false} LexesGraph(h: Host, g: GmlGraph, o: Order)
    requires Sane(h) && Printable(h, g) && IsOrder(o, g)
    ensures Lexes(h, Emit(h, g, o), GraphTokens(h, g, o))
  {
    LexesOpen(h, "", "graph");
    assert Open("", "graph") == "graph [\n";
    LexesLines(h, "  ", g.attributes, g.attributes, o.graph);
    LexesNodes(h, g.nodes, o.nodes);
    LexesEdges(h, g.edges, o.edges);
    LexesClose(h, "");
    assert "" + "]\n" == "]\n";
    LexesFive(h, "graph [\n", [Identifier("graph"), LeftBracket],
              Lines("  ", g.attributes, o.graph), LineTokens(h, g.attributes, g.attributes, o.graph),
              NodeBlocks(h, g.nodes, o.nodes), NodesTokens(h, g.nodes, o.nodes),
              EdgeBlocks(h, g.edges, o.edges), EdgesTokens(h, g.edges, o.edges),
              "]\n", [RightBracket]);
  }

  lemma {:induction false} GraphBodyParsed(h: Host, g: GmlGraph, o: Order, ts: Stream)
    requires Sane(h) && Printable(h, g) && IsOrder(o, g)
    requires ts == Prepend(LineTokens(h, g.attributes, g.attributes, o.graph), Prepend(NodesTokens(h, g.nodes, o.nodes),
                     Prepend(EdgesTokens(h, g.edges, o.edges), Close(End))))
    ensures !ts.Bad?
    ensures GraphBody(h, ts, GmlGraph([], [], map[])) == Ok(Body(ConvertGraph(h, g), Close(End)))
  {
    var edges := Prepend(EdgesTokens(h, g.edges, o.edges), Close(End));
    var nodes := Prepend(NodesTokens(h, g.nodes, o.nodes), edges);
    var g0 := GmlGraph([], [], map[]);
    var g1 := GmlGraph([], [], g.attributes);
    var g2 := GmlGraph(ConvertNodes(h, g.nodes), [], g.attributes);
    EdgesOnEmpty(h, g, o, g2);
    NodesOnEmpty(h, g, o, edges, g1, g2);
    GraphLinesParsed(h, g.attributes, g.attributes, o.graph, nodes, g0);
    PutAllFromEmpty(g.attributes, o.graph);
    assert g0.(attributes := g.attributes) == g1;
  }

  lemma {:induction false} EdgesOnEmpty(h: Host, g: GmlGraph, o: Order, g2: GmlGraph)
    requires Sane(h) && Printable(h, g) && IsOrder(o, g)
    requires g2 == GmlGraph(ConvertNodes(h, g.nodes), [], g.attributes)
    ensures !Prepend(EdgesTokens(h, g.edges, o.edges), Close(End)).Bad?
    ensures GraphBody(h, Prepend(EdgesTokens(h, g.edges, o.edges), Close(End)), g2) == Ok(Body(ConvertGraph(h, g), Close(End)))
  {
    EdgesParsed(h, g.edges, o.edges, Close(End), g2);
    assert g2.edges + ConvertEdges(h, g.edges) == ConvertEdges(h, g.edges);
  }

  lemma {:induction false} NodesOnEmpty(h: Host, g: GmlGraph, o: Order, tail: Stream, g1: GmlGraph, g2: GmlGraph)
    requires Sane(h) && Printable(h, g) && IsOrder(o, g) && !tail.Bad?
    requires g1 == GmlGraph([], [], g.attributes) && g2 == GmlGraph(ConvertNodes(h, g.nodes), [], g.attributes)
    ensures !Prepend(NodesTokens(h, g.nodes, o.nodes), tail).Bad?
    ensures GraphBody(h, Prepend(NodesTokens(h, g.nodes, o.nodes), tail), g1) == GraphBody(h, tail, g2)
  {
    NodesParsed(h, g.nodes, o.nodes, tail, g1);
    assert g1.nodes + ConvertNodes(h, g.nodes) == ConvertNodes(h, g.nodes);
  }

  lemma {:induction false} TokensOfEmitted(h: Host, g: GmlGraph, o: Order)
    requires Sane(h) && Printable(h, g) && IsOrder(o, g)
    ensures Tokens(h, Emit(h, g, o)) == Prepend(GraphTokens(h, g, o), End)
  {
    LexesGraph(h, g, o);
    assert LexesBefore(h, Emit(h, g, o), GraphTokens(h, g, o), "");
    assert Emit(h, g, o) + "" == Emit(h, g, o);
    assert Tokens(h, "") == End;
  }

  lemma {:induction false} BodyInGraph(h: Host, body: Stream, g: GmlGraph)
    requires !body.Bad? && GraphBody(h, body, GmlGraph([], [], map[])) == Ok(Body(g, Close(End)))
    ensures var ts := Prepend([Identifier("graph"), LeftBracket], body); !ts.Bad? && ParseGraph(h, ts) == Ok(g)
  {
    BlockOpened("graph", body);
  }

  lemma {:induction false} GraphTokensParsed(h: Host, g: GmlGraph, o: Order, body: Stream)
    requires Sane(h) && Printable(h, g) && IsOrder(o, g)
    requires body == Prepend(LineTokens(h, g.attributes, g.attributes, o.graph), Prepend(NodesTokens(h, g.nodes, o.nodes),
                       Prepend(EdgesTokens(h, g.edges, o.edges), Close(End))))
    ensures var ts := Prepend([Identifier("graph"), LeftBracket], body);
            !ts.Bad? && ParseGraph(h, ts) == Ok(ConvertGraph(h, g))
  {
    GraphBodyParsed(h, g, o, body);
    BodyInGraph(h, body, ConvertGraph(h, g));
  }

  // The theorem: a printable graph, written in any attribute order, is read back with its
  // bandwidths converted and nothing else changed.
  lemma {:induction false} RoundTrip(h: Host, g: GmlGraph, o: Order)
    requires Sane(h) && Printable(h, g) && IsOrder(o, g)
    ensures ParseGml(h, Emit(h, g, o)) == Ok(ConvertGraph(h, g))
  {
    TokensOfEmitted(h, g, o);
    var lines, nodes, edges := LineTokens(h, g.attributes, g.attributes, o.graph), NodesTokens(h, g.nodes, o.nodes), EdgesTokens(h, g.edges, o.edges);
    PrependFive([Identifier("graph"), LeftBracket], lines, nodes, edges, [RightBracket], End);
    PrependClose(End);
    GraphTokensParsed(h, g, o, Prepend(lines, Prepend(nodes, Prepend(edges, Close(End)))));
  }

  // ---------------------------------------------------------------- a second pass

  // Whole gigabits up to here are scaled exactly by a double.
  const MAX_GBIT: nat := 9007199254740

  ghost predicate ScalesGbit(h: Host) {
    forall n: nat :: n <= MAX_GBIT ==> h.gbit(ShowNat(n)) == Some(ShowNat(1000 * n))
  }

  lemma NoSuffixOnDigits(s: string, suffix: string)
    requires Digits(s) && suffix != [] && !IsDigit(suffix[|suffix| - 1])
    ensures !EndsWith(s, suffix) && TrimEnd(s, suffix) == s
    ensures EndsWith(s + suffix, suffix) && TrimEnd(s + suffix, suffix) == s
  {
    assert |suffix| <= |s| ==> s[|s| - 1] == s[|s| - |suffix|..][|suffix| - 1];
    assert (s + suffix)[..|s + suffix| - |suffix|] == s;
    assert (s + suffix)[|s + suffix| - |suffix|..] == suffix;
  }

  // A number is Mbit already, NMbit is N, and NGbit is a thousand times N.
  lemma BandwidthMeaning(h: Host, n: nat)
    ensures ConvertBandwidth(h, ShowNat(n)) == ShowNat(n)
    ensures ConvertBandwidth(h, ShowNat(n) + MBIT) == ShowNat(n)
    ensures ScalesGbit(h) && n <= MAX_GBIT ==> ConvertBandwidth(h, ShowNat(n) + GBIT) == ShowNat(1000 * n)
  {
    NoSuffixOnDigits(ShowNat(n), GBIT);
    NoSuffixOnDigits(ShowNat(n), MBIT);
    var m := ShowNat(n) + MBIT;
    assert m[|m| - 4..] == MBIT && MBIT[0] != GBIT[0];
  }

  ghost predicate IsBandwidth(v: string, n: nat) {
    v == ShowNat(n) || v == ShowNat(n) + MBIT || (n <= MAX_GBIT && v == ShowNat(n) + GBIT)
  }

  // Every bandwidth is a number of megabits or gigabits, or a plain number.
  ghost predicate PlainBandwidths(attributes: map<string, string>) {
    "bandwidth" in attributes ==> exists n: nat :: IsBandwidth(attributes["bandwidth"], n)
  }

  lemma BandwidthIsFixed(h: Host, v: string, n: nat)
    requires Sane(h) && ScalesGbit(h) && IsBandwidth(v, n)
    ensures var c := ConvertBandwidth(h, v); IsWord(h, c) && ConvertBandwidth(h, c) == c
  {
    var scaled: nat := 1000 * n;
    BandwidthMeaning(h, n);
    BandwidthMeaning(h, scaled);
    ShownNumberIsRead(h, n);
    ShownNumberIsRead(h, scaled);
  }

  lemma {:induction false} ConvertedIsNumber(h: Host, attributes: map<string, string>)
    requires Sane(h) && ScalesGbit(h) && PlainBandwidths(attributes)
    ensures "bandwidth" in attributes ==>
              var v := ConvertBandwidth(h, attributes["bandwidth"]);
              IsWord(h, v) && ConvertBandwidth(h, v) == v
    ensures ConvertAttributes(h, ConvertAttributes(h, attributes)) == ConvertAttributes(h, attributes)
  {
    if "bandwidth" in attributes {
      var n: nat :| IsBandwidth(attributes["bandwidth"], n);
      BandwidthIsFixed(h, attributes["bandwidth"], n);
    }
  }

  ghost predicate AllPlain(g: GmlGraph) {
    && (forall i :: 0 <= i < |g.nodes| ==> PlainBandwidths(g.nodes[i].attributes))
    && (forall i :: 0 <= i < |g.edges| ==> PlainBandwidths(g.edges[i].attributes))
  }

  lemma ConvertedNodeOk(h: Host, n: GmlNode)
    requires Sane(h) && ScalesGbit(h) && NodeOk(h, n) && PlainBandwidths(n.attributes)
    ensures NodeOk(h, ConvertNode(h, n)) && ConvertNode(h, ConvertNode(h, n)) == ConvertNode(h, n)
  {
    ConvertedIsNumber(h, n.attributes);
    DerivedUnaffected(h, n);
  }

  lemma ConvertedEdgeOk(h: Host, e: GmlEdge)
    requires Sane(h) && ScalesGbit(h) && EdgeOk(h, e) && PlainBandwidths(e.attributes)
    ensures EdgeOk(h, ConvertEdge(h, e)) && ConvertEdge(h, ConvertEdge(h, e)) == ConvertEdge(h, e)
  {
    ConvertedIsNumber(h, e.attributes);
  }

  lemma {:induction false} ConvertedGraphOk(h: Host, g: GmlGraph)
    requires Sane(h) && ScalesGbit(h) && Printable(h, g) && AllPlain(g)
    ensures Printable(h, ConvertGraph(h, g)) && ConvertGraph(h, ConvertGraph(h, g)) == ConvertGraph(h, g)
  {
    var c := ConvertGraph(h, g);
    forall i | 0 <= i < |g.nodes| ensures NodeOk(h, c.nodes[i]) && ConvertNode(h, c.nodes[i]) == c.nodes[i] {
      ConvertedNodeOk(h, g.nodes[i]);
    }
    forall i | 0 <= i < |g.edges| ensures EdgeOk(h, c.edges[i]) && ConvertEdge(h, c.edges[i]) == c.edges[i] {
      ConvertedEdgeOk(h, g.edges[i]);
    }
    assert ConvertNodes(h, c.nodes) == c.nodes && ConvertEdges(h, c.edges) == c.edges;
  }

  // Once written and read, a graph is a fixed point: written in any order, it reads back as itself.
  lemma {:induction false} SecondPassChangesNothing(h: Host, g: GmlGraph, o: Order, again: Order)
    requires Sane(h) && ScalesGbit(h) && Printable(h, g) && AllPlain(g) && IsOrder(o, g)
    requires IsOrder(again, ConvertGraph(h, g))
    ensures ParseGml(h, Emit(h, g, o)) == Ok(ConvertGraph(h, g)) == ParseGml(h, Emit(h, ConvertGraph(h, g), again))
  {
    RoundTrip(h, g, o);
    ConvertedGraphOk(h, g);
    RoundTrip(h, ConvertGraph(h, g), again);
  }

  // The topology check cannot tell the two graphs apart.
  lemma {:induction false} DanglingUnaffected(h: Host, edges: seq<GmlEdge>, ids: set<nat>)
    ensures FirstDangling(ConvertEdges(h, edges), ids) == FirstDangling(edges, ids)
    decreases |edges|
  {
    if edges != [] {
      assert ConvertEdges(h, edges)[1..] == ConvertEdges(h, edges[1..]);
      DanglingUnaffected(h, edges[1..], ids);
    }
  }

  lemma {:induction false} AddressesUnaffected(h: Host, nodes: seq<GmlNode>, seen: set<string>)
    ensures AddressFault(h, ConvertNodes(h, nodes), seen) == AddressFault(h, nodes, seen)
    decreases |nodes|
  {
    if nodes != [] {
      assert ConvertNodes(h, nodes)[1..] == ConvertNodes(h, nodes[1..]);
      AddressesUnaffected(h, nodes[1..], if nodes[0].ip.Some? then seen + {nodes[0].ip.value} else seen);
    }
  }

  lemma {:induction false} SameVerdict(h: Host, g: GmlGraph)
    ensures Validate(ConvertGraph(h, g)) == Validate(g)
    ensures Refusal(h, ConvertGraph(h, g)) == Refusal(h, g)
  {
    AddressesUnaffected(h, g.nodes, {});
    assert Ids(ConvertGraph(h, g).nodes) == Ids(g.nodes);
    DanglingUnaffected(h, g.edges, IdSet(Ids(g.nodes)));
    assert ConvertEdges(h, g.edges) == [] <==> g.edges == [];
  }
}
