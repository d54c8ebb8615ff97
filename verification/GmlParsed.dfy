// What the reader guarantees about every graph it returns: keys, ids, addresses and regions are
// already as the writer needs them, so writing it back depends on its values alone.
module GmlParsed {
  import opened Basics
  import opened GmlSyntax
  import opened GmlLayout
  import opened GmlValues
  import opened GmlEmitter
  import opened GmlRoundTrip

  // ---------------------------------------------------------------- word tokens stand in the text

  lemma {:induction false} LineKept(line: string, r: string, other: string)
    requires SkipLine(line + r) == r && r != [] && other != [] && other[0] == '\n'
    ensures SkipLine(line + other) == other
    decreases |line|
  {
    assert line == [] ==> line + other == other;
    if line != [] {
      assert (line + r)[1..] == line[1..] + r && (line + other)[1..] == line[1..] + other;
      assert |line + r| > |r| && line[0] != '\n';
      LineKept(line[1..], r, other);
    }
  }

  // The text is layout, then the word t, then a rest into which no word runs on.
  ghost predicate Stands(h: Host, s: string, pre: string, t: Token, rest: string) {
    && (t.Identifier? || t.Number?)
    && IsLayout(h, pre) && s == pre + (t.text + rest)
    && IsWord(h, t.text) && WordToken(h, t.text) == t && (rest == [] || !WordChar(h, rest[0]))
  }

  lemma StandsBehindWhite(h: Host, s: string, pre: string, t: Token, rest: string)
    requires s != [] && h.white(s[0]) && Stands(h, s[1..], pre, t, rest)
    ensures Stands(h, s, [s[0]] + pre, t, rest)
  {
    assert ([s[0]] + pre)[1..] == pre;
    assert s == [s[0]] + s[1..];
    assert [s[0]] + (pre + (t.text + rest)) == ([s[0]] + pre) + (t.text + rest);
  }

  lemma {:induction false} StandsBehindLine(h: Host, s: string, line: string, pre: string, t: Token, rest: string)
    requires Sane(h) && s != [] && s[0] == '#' && s == line + SkipLine(s) && SkipLine(s) != [] && SkipLine(s)[0] == '\n'
    requires Stands(h, SkipLine(s), pre, t, rest)
    ensures Stands(h, s, line + pre, t, rest)
  {
    assert line != [] && line[0] == '#';
    assert WordChar(h, (t.text + rest)[0]) && SaneAt(h, '\n');
    assert pre != [] && pre[0] == '\n';
    LineKept(line, SkipLine(s), pre);
    assert SkipLine(line + pre) == pre && (line + pre)[0] == '#';
    assert line + (pre + (t.text + rest)) == (line + pre) + (t.text + rest);
  }

  lemma {:induction false} StandsInFront(h: Host, s: string)
    requires Sane(h) && s != [] && (StartsIdentifier(h, s[0]) || StartsNumber(h, s[0]))
    ensures var n := WordLength(h, s);
            0 < n && Stands(h, s, [], WordToken(h, s[..n]), s[n..])
  {
    WordIsWord(h, s);
    var n := WordLength(h, s);
    assert s == [] + (s[..n] + s[n..]);
  }

  // An identifier or a number is a word of the text, behind layout only, and ends where no word
  // can go on.
  lemma {:induction false} WordStands(h: Host, s: string) returns (pre: string)
    requires Sane(h) && NextToken(h, s).Ok?
    requires NextToken(h, s).value.token.Identifier? || NextToken(h, s).value.token.Number?
    ensures Stands(h, s, pre, NextToken(h, s).value.token, NextToken(h, s).value.rest)
    decreases |s|
  {
    WhiteIsSkipped(h, s);
    pre := [];
    if h.white(s[0]) {
      var after := WordStands(h, s[1..]);
      StandsBehindWhite(h, s, after, NextToken(h, s).value.token, NextToken(h, s).value.rest);
      pre := [s[0]] + after;
    } else if s[0] == '#' {
      var line := SkipLineIsSuffix(s);
      var after := WordStands(h, SkipLine(s));
      CommentEnds(s, "");
      StandsBehindLine(h, s, line, after, NextToken(h, s).value.token, NextToken(h, s).value.rest);
      pre := line + after;
    } else {
      StandsInFront(h, s);
    }
  }

  ghost predicate WordTokens(h: Host, ts: Stream)
    decreases ts
  {
    ts.More? ==> (ts.head.Identifier? ==> IsIdentifier(h, ts.head.text)) && WordTokens(h, ts.tail)
  }

  lemma {:induction false} TokensAreWords(h: Host, s: string)
    requires Sane(h)
    ensures WordTokens(h, Tokens(h, s))
    decreases |s|
  {
    var r := NextToken(h, s);
    if r.Ok? && !r.value.token.Eof? {
      TokensAreWords(h, r.value.rest);
      if r.value.token.Identifier? {
        var pre := WordStands(h, s);
      }
    }
  }

  // ---------------------------------------------------------------- the shape of a graph

  // Keys are identifiers, other than the reserved ones of their block.
  ghost predicate KeysOk(h: Host, attributes: map<string, string>, a: string, b: string) {
    a !in attributes && b !in attributes && forall k :: k in attributes ==> IsIdentifier(h, k)
  }

  ghost predicate NodeShaped(h: Host, n: GmlNode) {
    && n.id < U32 && KeysOk(h, n.attributes, "id", "label")
    && n.ip == ParseIp(h, n.attributes) && n.region == ParseRegion(n.attributes)
  }

  ghost predicate EdgeShaped(h: Host, e: GmlEdge) {
    e.source < U32 && e.target < U32 && KeysOk(h, e.attributes, "source", "target")
  }

  ghost predicate Shaped(h: Host, g: GmlGraph) {
    && KeysOk(h, g.attributes, "node", "edge")
    && (forall i :: 0 <= i < |g.nodes| ==> NodeShaped(h, g.nodes[i]))
    && (forall i :: 0 <= i < |g.edges| ==> EdgeShaped(h, g.edges[i]))
  }

  // What is left to ask of the values: bare ones are words, quoted ones need no escape.
  ghost predicate NodeValuesOk(h: Host, n: GmlNode) {
    && (n.labelText.Some? ==> QuotedSafe(n.labelText.value))
    && forall k :: k in n.attributes ==>
         if k == "bandwidth" then IsWord(h, ConvertBandwidth(h, n.attributes[k])) else QuotedSafe(n.attributes[k])
  }

  ghost predicate EdgeValuesOk(h: Host, e: GmlEdge) {
    forall k :: k in e.attributes ==>
      if k == "packet_loss" then IsWord(h, e.attributes[k])
      else if k == "bandwidth" then IsWord(h, ConvertBandwidth(h, e.attributes[k]))
      else QuotedSafe(e.attributes[k])
  }

  ghost predicate ValuesOk(h: Host, g: GmlGraph) {
    && (forall k :: k in g.attributes ==> IsWord(h, g.attributes[k]))
    && (forall i :: 0 <= i < |g.nodes| ==> NodeValuesOk(h, g.nodes[i]))
    && (forall i :: 0 <= i < |g.edges| ==> EdgeValuesOk(h, g.edges[i]))
  }

  lemma {:induction false} PrintableIsShapeAndValues(h: Host, g: GmlGraph)
    ensures Printable(h, g) <==> Shaped(h, g) && ValuesOk(h, g)
  {
    forall i | 0 <= i < |g.nodes| ensures NodeOk(h, g.nodes[i]) <==> NodeShaped(h, g.nodes[i]) && NodeValuesOk(h, g.nodes[i]) {
    }
    forall i | 0 <= i < |g.edges| ensures EdgeOk(h, g.edges[i]) <==> EdgeShaped(h, g.edges[i]) && EdgeValuesOk(h, g.edges[i]) {
    }
  }

  // ---------------------------------------------------------------- parsed graphs

  ghost predicate NodeFieldsOk(h: Host, f: NodeFields) {
    (f.id.Some? ==> f.id.value < U32) && KeysOk(h, f.attributes, "id", "label")
  }

  ghost predicate EdgeFieldsOk(h: Host, f: EdgeFields) {
    (f.source.Some? ==> f.source.value < U32) && (f.target.Some? ==> f.target.value < U32) && KeysOk(h, f.attributes, "source", "target")
  }

  lemma {:induction false} NodeBodyShape(h: Host, ts: Stream, f: NodeFields)
    requires !ts.Bad? && WordTokens(h, ts) && NodeFieldsOk(h, f) && NodeBody(ts, f).Ok?
    ensures NodeFieldsOk(h, NodeBody(ts, f).value.fields) && WordTokens(h, NodeBody(ts, f).value.rest)
    decreases ts
  {
    if Current(ts) != RightBracket {
      var e := ParseField(ts, "attribute name in node").value;
      var g := AddNodeField(f, e.key, e.text).value;
      NodeBodyShape(h, e.rest, g);
    }
  }

  lemma {:induction false} EdgeBodyShape(h: Host, ts: Stream, f: EdgeFields)
    requires !ts.Bad? && WordTokens(h, ts) && EdgeFieldsOk(h, f) && EdgeBody(h, ts, f).Ok?
    ensures EdgeFieldsOk(h, EdgeBody(h, ts, f).value.fields) && WordTokens(h, EdgeBody(h, ts, f).value.rest)
    decreases ts
  {
    if Current(ts) != RightBracket {
      var e := ParseField(ts, "attribute name in edge").value;
      var g := AddEdgeField(h, f, e.key, e.text).value;
      EdgeBodyShape(h, e.rest, g);
    }
  }

  lemma OpenedWords(h: Host, ts: Stream, word: string)
    requires !ts.Bad? && WordTokens(h, ts) && OpenBlock(ts, word).Ok?
    ensures WordTokens(h, OpenBlock(ts, word).value)
  {
  }

  lemma {:induction false} NodeShape(h: Host, ts: Stream)
    requires !ts.Bad? && WordTokens(h, ts) && ParseNode(h, ts).Ok?
    ensures NodeShaped(h, ParseNode(h, ts).value.fields) && WordTokens(h, ParseNode(h, ts).value.rest)
  {
    OpenedWords(h, ts, "node");
    NodeBodyShape(h, OpenBlock(ts, "node").value, NodeFields(None, None, map[]));
  }

  lemma {:induction false} EdgeShape(h: Host, ts: Stream)
    requires !ts.Bad? && WordTokens(h, ts) && ParseEdge(h, ts).Ok?
    ensures EdgeShaped(h, ParseEdge(h, ts).value.fields) && WordTokens(h, ParseEdge(h, ts).value.rest)
  {
    OpenedWords(h, ts, "edge");
    EdgeBodyShape(h, OpenBlock(ts, "edge").value, EdgeFields(None, None, map[]));
  }

  lemma {:induction false} GraphBodyShape(h: Host, ts: Stream, g: GmlGraph)
    requires !ts.Bad? && WordTokens(h, ts) && Shaped(h, g) && GraphBody(h, ts, g).Ok?
    ensures Shaped(h, GraphBody(h, ts, g).value.fields)
    decreases ts
  {
    if Current(ts) == RightBracket {
    } else if Current(ts) == Identifier("node") {
      NodeShape(h, ts);
      var n := ParseNode(h, ts).value;
      GraphBodyShape(h, n.rest, g.(nodes := g.nodes + [n.fields]));
    } else if Current(ts) == Identifier("edge") {
      EdgeShape(h, ts);
      var e := ParseEdge(h, ts).value;
      GraphBodyShape(h, e.rest, g.(edges := g.edges + [e.fields]));
    } else {
      var e := ParseField(ts, "keyword in graph").value;
      GraphBodyShape(h, e.rest, g.(attributes := g.attributes[e.key := e.text]));
    }
  }

  // Every parsed graph has the shape the writer needs.
  lemma {:induction false} ParsedIsShaped(h: Host, text: string)
    requires Sane(h) && ParseGml(h, text).Ok?
    ensures Shaped(h, ParseGml(h, text).value)
  {
    TokensAreWords(h, text);
    var ts := Tokens(h, text);
    OpenedWords(h, ts, "graph");
    GraphBodyShape(h, OpenBlock(ts, "graph").value, GmlGraph([], [], map[]));
  }

  // Reading a file, writing it out and reading that again gives the same graph with its bandwidths
  // converted, whatever the file, as long as its values can be written.
  lemma {:induction false} ReparsedIsConverted(h: Host, text: string, o: Order)
    requires Sane(h) && ParseGml(h, text).Ok?
    requires ValuesOk(h, ParseGml(h, text).value) && IsOrder(o, ParseGml(h, text).value)
    ensures var g := ParseGml(h, text).value; ParseGml(h, Emit(h, g, o)) == Ok(ConvertGraph(h, g))
  {
    ParsedIsShaped(h, text);
    PrintableIsShapeAndValues(h, ParseGml(h, text).value);
    RoundTrip(h, ParseGml(h, text).value, o);
  }

  // ---------------------------------------------------------------- addresses

  lemma {:induction false} FoundIpIsAddress(h: Host, attributes: map<string, string>, keys: seq<string>)
    requires Sane(h) && FirstIp(h, attributes, keys).Some?
    ensures h.address(FirstIp(h, attributes, keys).value)
    decreases |keys|
  {
    if !(keys[0] in attributes && h.ipv4(TrimQuotes(attributes[keys[0]]))) {
      FoundIpIsAddress(h, attributes, keys[1..]);
    }
  }

  // A parsed graph is never refused for a malformed address, only for one that two nodes share.
  lemma {:induction false} ParsedAddresses(h: Host, text: string)
    requires Sane(h) && ParseGml(h, text).Ok?
    ensures var nodes := ParseGml(h, text).value.nodes;
            AddressFault(h, nodes, {}) == Fine <==> forall i, j :: 0 <= i < j < |nodes| && nodes[i].ip.Some? ==> nodes[i].ip != nodes[j].ip
  {
    ParsedIsShaped(h, text);
    var nodes := ParseGml(h, text).value.nodes;
    forall i | 0 <= i < |nodes| && nodes[i].ip.Some? ensures h.address(nodes[i].ip.value) {
      assert NodeShaped(h, nodes[i]);
      FoundIpIsAddress(h, nodes[i].attributes, IP_KEYS);
    }
    NoAddressFault(h, nodes, {});
  }
}
