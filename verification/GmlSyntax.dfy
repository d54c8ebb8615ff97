// GML as the topology reader sees it: tokens, the lexer and the recursive-descent parser, as
// functions on text.  The classes in GmlParser.dfy are proved to compute these functions.
module GmlSyntax {
  import opened Basics

  // What the language runtime supplies: character classes, the address checks (version 4, or any),
  // and the two number conversions.  `percent` and `gbit` are "parse as f64, scale, format again".
  datatype Host = Host(
    white: char -> bool, alpha: char -> bool, numeric: char -> bool,
    ipv4: string -> bool, address: string -> bool, percent: string -> Option<string>, gbit: string -> Option<string>)

  predicate IsDigit(c: char) {
    '0' <= c <= '9'
  }

  predicate WordChar(h: Host, c: char) {
    h.alpha(c) || h.numeric(c) || c == '_' || c == '.' || c == '-' || c == '+'
  }

  predicate IsMark(c: char) {
    c == '[' || c == ']' || c == '"' || c == '#' || c == '%'
  }

  // What is used of Unicode's character classes.
  ghost predicate SaneAt(h: Host, c: char) {
    && (h.white(c) ==> !WordChar(h, c))
    && (IsMark(c) ==> !h.white(c) && !WordChar(h, c))
    && (IsDigit(c) ==> h.numeric(c) && !h.alpha(c))
    && ('a' <= c <= 'z' ==> h.alpha(c))
  }

  ghost predicate Sane(h: Host) {
    && h.white(' ') && h.white('\n')
    && (forall c {:trigger SaneAt(h, c)} :: SaneAt(h, c))
    && (forall s :: h.ipv4(s) ==> h.address(s))
  }

  datatype Token = Identifier(text: string) | Number(text: string) | Str(text: string) | LeftBracket | RightBracket | Eof

  datatype Error =
    | Unterminated
    | Unexpected(c: char)
    | Expected(what: string, found: Token)
    | BadNumber(what: string, text: string)
    | Missing(what: string)

  // ---------------------------------------------------------------- lexer

  function SkipWhite(h: Host, s: string): (r: string)
    ensures |r| <= |s|
    ensures r != [] ==> !h.white(r[0])
  {
    if s == [] || !h.white(s[0]) then s else SkipWhite(h, s[1..])
  }

  // Up to, and not including, the end of the line.
  function SkipLine(s: string): (r: string)
    ensures |r| <= |s|
    ensures s != [] && s[0] != '\n' ==> |r| < |s|
  {
    if s == [] || s[0] == '\n' then s else SkipLine(s[1..])
  }

  function WordLength(h: Host, s: string): (n: nat)
    ensures n <= |s|
    ensures s != [] && WordChar(h, s[0]) ==> 0 < n
  {
    if s == [] || !WordChar(h, s[0]) then 0 else 1 + WordLength(h, s[1..])
  }

  datatype Quoted = Quoted(text: string, rest: string)

  function Escaped(c: char): string {
    match c
    case 'n' => "\n"
    case 't' => "\t"
    case 'r' => "\r"
    case '\\' => "\\"
    case '"' => "\""
    case _ => ['\\', c]
  }

  // The text after an opening quote.
  function ReadString(s: string): (r: Option<Quoted>)
    ensures r.Some? ==> |r.value.rest| < |s|
    ensures r.Some? ==> |r.value.text| + |r.value.rest| < |s|
  {
    if s == [] then None
    else if s[0] == '"' then Some(Quoted("", s[1..]))
    else if s[0] == '\\' then
      if |s| == 1 then None
      else
        var r := ReadString(s[2..]);
        if r.None? then None else Some(Quoted(Escaped(s[1]) + r.value.text, r.value.rest))
    else
      var r := ReadString(s[1..]);
      if r.None? then None else Some(Quoted([s[0]] + r.value.text, r.value.rest))
  }

  datatype Lexed = Lexed(token: Token, rest: string)

  predicate StartsIdentifier(h: Host, c: char) {
    h.alpha(c) || c == '_'
  }

  predicate StartsNumber(h: Host, c: char) {
    h.numeric(c) || c == '-' || c == '+'
  }

  function NextToken(h: Host, s: string): (r: Result<Lexed, Error>)
    ensures r.Ok? && !r.value.token.Eof? ==> |r.value.rest| < |s|
    ensures r.Ok? && r.value.token.Eof? ==> r.value.rest == []
    decreases |s|
  {
    var t := SkipWhite(h, s);
    if t == [] then Ok(Lexed(Eof, []))
    else if t[0] == '#' then NextToken(h, SkipLine(t))
    else if t[0] == '[' then Ok(Lexed(LeftBracket, t[1..]))
    else if t[0] == ']' then Ok(Lexed(RightBracket, t[1..]))
    else if t[0] == '"' then
      var q := ReadString(t[1..]);
      if q.None? then Err(Unterminated) else Ok(Lexed(Str(q.value.text), q.value.rest))
    else if StartsIdentifier(h, t[0]) then
      var n := WordLength(h, t);
      Ok(Lexed(Identifier(t[..n]), t[n..]))
    else if StartsNumber(h, t[0]) then
      var n := WordLength(h, t);
      Ok(Lexed(Number(t[..n]), t[n..]))
    else Err(Unexpected(t[0]))
  }

  // The tokens of a text, lazily ended: by its end, or by the first lexical error.
  datatype Stream = End | Bad(error: Error) | More(head: Token, tail: Stream)

  function Tokens(h: Host, s: string): (r: Stream)
    ensures r.More? ==> !r.head.Eof?
    decreases |s|
  {
    var r := NextToken(h, s);
    if r.Err? then Bad(r.error)
    else if r.value.token.Eof? then End
    else More(r.value.token, Tokens(h, r.value.rest))
  }

  // ---------------------------------------------------------------- graphs

  datatype GmlNode = GmlNode(id: nat, labelText: Option<string>, ip: Option<string>, region: Option<string>, attributes: map<string, string>)

  datatype GmlEdge = GmlEdge(source: nat, target: nat, attributes: map<string, string>)

  datatype GmlGraph = GmlGraph(nodes: seq<GmlNode>, edges: seq<GmlEdge>, attributes: map<string, string>)

  const U32: nat := 0x1_0000_0000

  predicate Digits(s: string) {
    forall i :: 0 <= i < |s| ==> IsDigit(s[i])
  }

  function DigitsValue(s: string): nat
    requires Digits(s)
  {
    if s == [] then 0 else 10 * DigitsValue(s[..|s| - 1]) + (s[|s| - 1] as int - '0' as int)
  }

  // A decimal u32 with an optional plus sign.
  function ParseU32(s: string): Option<nat> {
    var d := if s != [] && s[0] == '+' then s[1..] else s;
    if d == [] || !Digits(d) || DigitsValue(d) >= U32 then None else Some(DigitsValue(d))
  }

  function TrimFront(s: string, c: char): string {
    if s != [] && s[0] == c then TrimFront(s[1..], c) else s
  }

  function TrimBack(s: string, c: char): string {
    if s != [] && s[|s| - 1] == c then TrimBack(s[..|s| - 1], c) else s
  }

  function TrimQuotes(s: string): string {
    TrimBack(TrimFront(s, '"'), '"')
  }

  const IP_KEYS: seq<string> := ["ip", "ip_addr", "address", "ip_address"]
  const REGION_KEYS: seq<string> := ["region", "geographic_region", "location"]

  // The first of the keys that is present and holds an IPv4 address.
  function FirstIp(h: Host, attributes: map<string, string>, keys: seq<string>): Option<string> {
    if keys == [] then None
    else if keys[0] in attributes && h.ipv4(TrimQuotes(attributes[keys[0]])) then Some(TrimQuotes(attributes[keys[0]]))
    else FirstIp(h, attributes, keys[1..])
  }

  function FirstPresent(attributes: map<string, string>, keys: seq<string>): Option<string> {
    if keys == [] then None
    else if keys[0] in attributes then Some(TrimQuotes(attributes[keys[0]]))
    else FirstPresent(attributes, keys[1..])
  }

  function ParseIp(h: Host, attributes: map<string, string>): Option<string> {
    FirstIp(h, attributes, IP_KEYS)
  }

  function ParseRegion(attributes: map<string, string>): Option<string> {
    FirstPresent(attributes, REGION_KEYS)
  }

  // Percentages become fractions; anything that does not parse is kept.
  function LossValue(h: Host, key: string, value: string): string {
    if key == "packet_loss" && value != [] && value[|value| - 1] == '%' then
      var p := h.percent(TrimBack(value, '%'));
      if p.Some? then p.value else value
    else value
  }

  // ---------------------------------------------------------------- parser

  function Current(ts: Stream): Token {
    if ts.More? then ts.head else Eof
  }

  // One token on; at the end there is only the end.
  function Advance(ts: Stream): Result<Stream, Error>
    requires !ts.Bad?
  {
    if ts.End? then Ok(End) else if ts.tail.Bad? then Err(ts.tail.error) else Ok(ts.tail)
  }

  function Expect(ts: Stream, token: Token, what: string): (r: Result<Stream, Error>)
    requires !ts.Bad? && !token.Eof?
    ensures r.Ok? ==> ts.More? && r.value == ts.tail && !r.value.Bad?
  {
    if Current(ts) == token then Advance(ts) else Err(Expected(what, Current(ts)))
  }

  predicate IsValue(t: Token) {
    t.Identifier? || t.Number? || t.Str?
  }

  datatype Value = Value(text: string, rest: Stream)

  function ParseValue(ts: Stream): (r: Result<Value, Error>)
    requires !ts.Bad?
    ensures r.Ok? ==> ts.More? && r.value.rest == ts.tail && !r.value.rest.Bad?
  {
    if IsValue(Current(ts)) then
      var r := Advance(ts);
      if r.Err? then Err(r.error) else Ok(Value(Current(ts).text, r.value))
    else Err(Expected("value", Current(ts)))
  }

  datatype Field = Field(key: string, text: string, rest: Stream)

  // A key and its value.
  function ParseField(ts: Stream, what: string): (r: Result<Field, Error>)
    requires !ts.Bad?
    ensures r.Ok? ==> ts.More? && ts.tail.More? && r.value.rest == ts.tail.tail && !r.value.rest.Bad?
  {
    if !Current(ts).Identifier? then Err(Expected(what, Current(ts)))
    else
      var a := Advance(ts);
      if a.Err? then Err(a.error)
      else
        var v := ParseValue(a.value);
        if v.Err? then Err(v.error) else Ok(Field(ts.head.text, v.value.text, v.value.rest))
  }

  // What a block has collected so far.
  datatype NodeFields = NodeFields(id: Option<nat>, labelText: Option<string>, attributes: map<string, string>)
  datatype EdgeFields = EdgeFields(source: Option<nat>, target: Option<nat>, attributes: map<string, string>)

  function AddNodeField(f: NodeFields, key: string, value: string): Result<NodeFields, Error> {
    if key == "id" then
      var n := ParseU32(value);
      if n.None? then Err(BadNumber("node id", value)) else Ok(f.(id := n))
    else if key == "label" then Ok(f.(labelText := Some(value)))
    else Ok(f.(attributes := f.attributes[key := value]))
  }

  function AddEdgeField(h: Host, f: EdgeFields, key: string, value: string): Result<EdgeFields, Error> {
    if key == "source" then
      var n := ParseU32(value);
      if n.None? then Err(BadNumber("edge source", value)) else Ok(f.(source := n))
    else if key == "target" then
      var n := ParseU32(value);
      if n.None? then Err(BadNumber("edge target", value)) else Ok(f.(target := n))
    else Ok(f.(attributes := f.attributes[key := LossValue(h, key, value)]))
  }

  datatype Body<T> = Body(fields: T, rest: Stream)

  function NodeBody(ts: Stream, f: NodeFields): (r: Result<Body<NodeFields>, Error>)
    requires !ts.Bad?
    ensures r.Ok? ==> !r.value.rest.Bad? && Current(r.value.rest) == RightBracket && (r.value.rest == ts || r.value.rest < ts)
    decreases ts
  {
    if Current(ts) == RightBracket then Ok(Body(f, ts))
    else
      var e := ParseField(ts, "attribute name in node");
      if e.Err? then Err(e.error)
      else
        var g := AddNodeField(f, e.value.key, e.value.text);
        if g.Err? then Err(g.error) else NodeBody(e.value.rest, g.value)
  }

  function EdgeBody(h: Host, ts: Stream, f: EdgeFields): (r: Result<Body<EdgeFields>, Error>)
    requires !ts.Bad?
    ensures r.Ok? ==> !r.value.rest.Bad? && Current(r.value.rest) == RightBracket && (r.value.rest == ts || r.value.rest < ts)
    decreases ts
  {
    if Current(ts) == RightBracket then Ok(Body(f, ts))
    else
      var e := ParseField(ts, "attribute name in edge");
      if e.Err? then Err(e.error)
      else
        var g := AddEdgeField(h, f, e.value.key, e.value.text);
        if g.Err? then Err(g.error) else EdgeBody(h, e.value.rest, g.value)
  }

  function MakeNode(h: Host, f: NodeFields): Result<GmlNode, Error> {
    if f.id.None? then Err(Missing("node id"))
    else Ok(GmlNode(f.id.value, f.labelText, ParseIp(h, f.attributes), ParseRegion(f.attributes), f.attributes))
  }

  function MakeEdge(f: EdgeFields): Result<GmlEdge, Error> {
    if f.source.None? then Err(Missing("edge source"))
    else if f.target.None? then Err(Missing("edge target"))
    else Ok(GmlEdge(f.source.value, f.target.value, f.attributes))
  }

  // The keyword and the opening bracket of a block.
  function OpenBlock(ts: Stream, word: string): (r: Result<Stream, Error>)
    requires !ts.Bad?
    ensures r.Ok? ==> ts.More? && r.value < ts && !r.value.Bad?
  {
    var a := Expect(ts, Identifier(word), word);
    if a.Err? then a else Expect(a.value, LeftBracket, "[")
  }

  function ParseNode(h: Host, ts: Stream): (r: Result<Body<GmlNode>, Error>)
    requires !ts.Bad?
    ensures r.Ok? ==> r.value.rest < ts && !r.value.rest.Bad?
  {
    var open := OpenBlock(ts, "node");
    if open.Err? then Err(open.error)
    else
      var b := NodeBody(open.value, NodeFields(None, None, map[]));
      if b.Err? then Err(b.error)
      else
        var close := Expect(b.value.rest, RightBracket, "]");
        if close.Err? then Err(close.error)
        else
          var n := MakeNode(h, b.value.fields);
          if n.Err? then Err(n.error) else Ok(Body(n.value, close.value))
  }

  function ParseEdge(h: Host, ts: Stream): (r: Result<Body<GmlEdge>, Error>)
    requires !ts.Bad?
    ensures r.Ok? ==> r.value.rest < ts && !r.value.rest.Bad?
  {
    var open := OpenBlock(ts, "edge");
    if open.Err? then Err(open.error)
    else
      var b := EdgeBody(h, open.value, EdgeFields(None, None, map[]));
      if b.Err? then Err(b.error)
      else
        var close := Expect(b.value.rest, RightBracket, "]");
        if close.Err? then Err(close.error)
        else
          var n := MakeEdge(b.value.fields);
          if n.Err? then Err(n.error) else Ok(Body(n.value, close.value))
  }

  function GraphBody(h: Host, ts: Stream, g: GmlGraph): (r: Result<Body<GmlGraph>, Error>)
    requires !ts.Bad?
    ensures r.Ok? ==> !r.value.rest.Bad? && Current(r.value.rest) == RightBracket && (r.value.rest == ts || r.value.rest < ts)
    decreases ts
  {
    if Current(ts) == RightBracket then Ok(Body(g, ts))
    else if Current(ts) == Identifier("node") then
      var n := ParseNode(h, ts);
      if n.Err? then Err(n.error) else GraphBody(h, n.value.rest, g.(nodes := g.nodes + [n.value.fields]))
    else if Current(ts) == Identifier("edge") then
      var e := ParseEdge(h, ts);
      if e.Err? then Err(e.error) else GraphBody(h, e.value.rest, g.(edges := g.edges + [e.value.fields]))
    else
      var e := ParseField(ts, "keyword in graph");
      if e.Err? then Err(e.error)
      else GraphBody(h, e.value.rest, g.(attributes := g.attributes[e.value.key := e.value.text]))
  }

  function ParseGraph(h: Host, ts: Stream): Result<GmlGraph, Error>
    requires !ts.Bad?
  {
    var open := OpenBlock(ts, "graph");
    if open.Err? then Err(open.error)
    else
      var b := GraphBody(h, open.value, GmlGraph([], [], map[]));
      if b.Err? then Err(b.error)
      else
        var close := Expect(b.value.rest, RightBracket, "]");
        if close.Err? then Err(close.error) else Ok(b.value.fields)
  }

  // A whole file.  Total: every text yields a graph or an error.
  function ParseGml(h: Host, text: string): Result<GmlGraph, Error> {
    var ts := Tokens(h, text);
    if ts.Bad? then Err(ts.error) else ParseGraph(h, ts)
  }
}
