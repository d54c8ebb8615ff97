// What the reader and the writer make of single values, in terms of the text alone: addresses and
// regions, escapes, words, numbers, packet loss, and the lines of the written file.
module GmlMeaning {
  import opened Basics
  import opened GmlSyntax
  import opened GmlLayout
  import opened GmlValues
  import opened GmlEmitter
  import opened GmlLines
  import opened GmlRoundTrip
  import opened GmlParsed

  // ---------------------------------------------------------------- values without their quotes

  predicate OnlyQuotes(s: string) {
    forall i :: 0 <= i < |s| ==> s[i] == '"'
  }

  // t is v without the quotes around it.
  ghost predicate IsTrimmed(v: string, t: string) {
    && (t != [] ==> t[0] != '"' && t[|t| - 1] != '"')
    && exists a: string, b: string :: OnlyQuotes(a) && OnlyQuotes(b) && v == a + (t + b)
  }

  lemma {:induction false} FrontTrimmed(s: string) returns (a: string)
    ensures OnlyQuotes(a) && s == a + TrimFront(s, '"')
    ensures TrimFront(s, '"') != [] ==> TrimFront(s, '"')[0] != '"'
    decreases |s|
  {
    a := [];
    if s != [] && s[0] == '"' {
      a := FrontTrimmed(s[1..]);
      a := [s[0]] + a;
    }
  }

  lemma {:induction false} BackTrimmed(s: string) returns (b: string)
    ensures OnlyQuotes(b) && s == TrimBack(s, '"') + b
    ensures TrimBack(s, '"') != [] ==> TrimBack(s, '"')[|TrimBack(s, '"')| - 1] != '"' && s != [] && TrimBack(s, '"')[0] == s[0]
    decreases |s|
  {
    b := [];
    if s != [] && s[|s| - 1] == '"' {
      b := BackTrimmed(s[..|s| - 1]);
      b := b + [s[|s| - 1]];
    }
  }

  lemma {:induction false} TrimFrontOf(a: string, s: string)
    requires OnlyQuotes(a) && (s != [] ==> s[0] != '"')
    ensures TrimFront(a + s, '"') == s
    decreases |a|
  {
    if a == [] {
      assert a + s == s;
    } else {
      assert (a + s)[1..] == a[1..] + s;
      TrimFrontOf(a[1..], s);
    }
  }

  lemma {:induction false} TrimBackOf(s: string, b: string)
    requires OnlyQuotes(b) && (s != [] ==> s[|s| - 1] != '"')
    ensures TrimBack(s + b, '"') == s
    decreases |b|
  {
    if b == [] {
      assert s + b == s;
    } else {
      assert (s + b)[..|s + b| - 1] == s + b[..|b| - 1];
      TrimBackOf(s, b[..|b| - 1]);
    }
  }

  // There is exactly one such text, and it is the one the reader takes.
  lemma {:induction false} TrimmedExact(v: string, t: string)
    ensures IsTrimmed(v, t) <==> t == TrimQuotes(v)
  {
    var front := TrimFront(v, '"');
    var a := FrontTrimmed(v);
    var b := BackTrimmed(front);
    if t == TrimQuotes(v) {
      assert v == a + (t + b);
    }
    if IsTrimmed(v, t) {
      var c: string, d: string :| OnlyQuotes(c) && OnlyQuotes(d) && v == c + (t + d);
      if t == [] {
        assert OnlyQuotes(v);
        TrimFrontOf(v, []);
        assert v + [] == v;
      } else {
        TrimFrontOf(c, t + d);
        TrimBackOf(t, d);
      }
    }
  }

  // ---------------------------------------------------------------- addresses and regions

  // The attribute of this key holds this IPv4 address.
  ghost predicate HoldsAddress(h: Host, attributes: map<string, string>, key: string, ip: string) {
    key in attributes && IsTrimmed(attributes[key], ip) && h.ipv4(ip)
  }

  ghost predicate NoAddress(h: Host, attributes: map<string, string>, key: string) {
    forall ip: string :: !HoldsAddress(h, attributes, key, ip)
  }

  lemma {:induction false} AddressAt(h: Host, attributes: map<string, string>, key: string)
    ensures NoAddress(h, attributes, key) <==> !(key in attributes && h.ipv4(TrimQuotes(attributes[key])))
    ensures forall ip: string :: HoldsAddress(h, attributes, key, ip) ==> ip == TrimQuotes(attributes[key])
  {
    if key in attributes {
      forall ip: string ensures IsTrimmed(attributes[key], ip) <==> ip == TrimQuotes(attributes[key]) {
        TrimmedExact(attributes[key], ip);
      }
      assert h.ipv4(TrimQuotes(attributes[key])) ==> HoldsAddress(h, attributes, key, TrimQuotes(attributes[key]));
    }
  }

  lemma {:induction false} FirstIpStep(h: Host, attributes: map<string, string>, key: string, keys: seq<string>, rest: seq<string>)
    requires keys == [key] + rest
    ensures forall ip: string :: HoldsAddress(h, attributes, key, ip) ==> FirstIp(h, attributes, keys) == Some(ip)
    ensures NoAddress(h, attributes, key) ==> FirstIp(h, attributes, keys) == FirstIp(h, attributes, rest)
  {
    AddressAt(h, attributes, key);
    assert keys[0] == key && keys[1..] == rest;
  }

  // Which attribute gives a node its address: the first of the four that holds one.
  ghost predicate AddressIs(h: Host, attributes: map<string, string>, found: Option<string>) {
    && (forall ip: string :: HoldsAddress(h, attributes, "ip", ip) ==> found == Some(ip))
    && (NoAddress(h, attributes, "ip") ==>
          && (forall ip: string :: HoldsAddress(h, attributes, "ip_addr", ip) ==> found == Some(ip))
          && (NoAddress(h, attributes, "ip_addr") ==>
                && (forall ip: string :: HoldsAddress(h, attributes, "address", ip) ==> found == Some(ip))
                && (NoAddress(h, attributes, "address") ==>
                      && (forall ip: string :: HoldsAddress(h, attributes, "ip_address", ip) ==> found == Some(ip))
                      && (NoAddress(h, attributes, "ip_address") ==> found == None))))
  }

  lemma {:induction false} ParsedIpIs(h: Host, attributes: map<string, string>)
    ensures AddressIs(h, attributes, ParseIp(h, attributes))
  {
    var k1 := ["ip_addr", "address", "ip_address"];
    var k2 := ["address", "ip_address"];
    FirstIpStep(h, attributes, "ip", IP_KEYS, k1);
    FirstIpStep(h, attributes, "ip_addr", k1, k2);
    FirstIpStep(h, attributes, "address", k2, ["ip_address"]);
    FirstIpStep(h, attributes, "ip_address", ["ip_address"], []);
  }

  // And its region: the first of the three that is present.
  ghost predicate RegionIs(attributes: map<string, string>, found: Option<string>) {
    if "region" in attributes then found.Some? && IsTrimmed(attributes["region"], found.value)
    else if "geographic_region" in attributes then found.Some? && IsTrimmed(attributes["geographic_region"], found.value)
    else if "location" in attributes then found.Some? && IsTrimmed(attributes["location"], found.value)
    else found == None
  }

  lemma {:induction false} FirstPresentStep(attributes: map<string, string>, key: string, keys: seq<string>, rest: seq<string>)
    requires keys == [key] + rest
    ensures key in attributes ==> FirstPresent(attributes, keys).Some? && IsTrimmed(attributes[key], FirstPresent(attributes, keys).value)
    ensures key !in attributes ==> FirstPresent(attributes, keys) == FirstPresent(attributes, rest)
  {
    assert keys[0] == key && keys[1..] == rest;
    if key in attributes {
      TrimmedExact(attributes[key], TrimQuotes(attributes[key]));
    }
  }

  lemma {:induction false} ParsedRegionIs(attributes: map<string, string>)
    ensures RegionIs(attributes, ParseRegion(attributes))
  {
    var k1 := ["geographic_region", "location"];
    FirstPresentStep(attributes, "region", REGION_KEYS, k1);
    FirstPresentStep(attributes, "geographic_region", k1, ["location"]);
    FirstPresentStep(attributes, "location", ["location"], []);
  }

  // Every node of every parsed graph has the address and the region its attributes give.
  lemma {:induction false} NodesAreLocated(h: Host, text: string, i: nat)
    requires Sane(h) && ParseGml(h, text).Ok? && i < |ParseGml(h, text).value.nodes|
    ensures var n := ParseGml(h, text).value.nodes[i]; AddressIs(h, n.attributes, n.ip) && RegionIs(n.attributes, n.region)
  {
    ParsedIsShaped(h, text);
    var n := ParseGml(h, text).value.nodes[i];
    assert NodeShaped(h, n);
    ParsedIpIs(h, n.attributes);
    ParsedRegionIs(n.attributes);
  }

  // ---------------------------------------------------------------- escapes

  function EscapeOf(c: char): string {
    if c == '\n' then ['\\', 'n']
    else if c == '\t' then ['\\', 't']
    else if c == '\r' then ['\\', 'r']
    else if c == '\\' then ['\\', '\\']
    else if c == '"' then ['\\', '"']
    else [c]
  }

  function Escaping(v: string): string {
    if v == [] then [] else EscapeOf(v[0]) + Escaping(v[1..])
  }

  lemma {:induction false} OneEscape(c: char, r: string)
    requires ReadString(r).Some?
    ensures ReadString(EscapeOf(c) + r) == Some(Quoted([c] + ReadString(r).value.text, ReadString(r).value.rest))
  {
    var e := EscapeOf(c);
    assert (e + r)[|e|..] == r;
    if |e| == 2 {
      assert (e + r)[0] == '\\' && (e + r)[1] == e[1] && Escaped(e[1]) == [c];
    } else {
      assert (e + r)[0] == c;
    }
  }

  lemma {:induction false} EscapedThen(v: string, close: string, s: string)
    requires ReadString(close) == Some(Quoted([], s))
    ensures ReadString(Escaping(v) + close) == Some(Quoted(v, s))
    decreases |v|
  {
    if v == [] {
      assert Escaping(v) + close == close;
    } else {
      EscapedThen(v[1..], close, s);
      EscapedNext(v[0], v[1..], v, Escaping(v[1..]), close, s);
    }
  }

  lemma {:induction false} EscapedNext(c: char, rest: string, v: string, written: string, close: string, s: string)
    requires v == [c] + rest && ReadString(written + close) == Some(Quoted(rest, s))
    ensures ReadString((EscapeOf(c) + written) + close) == Some(Quoted(v, s))
  {
    OneEscape(c, written + close);
    AssociateText(EscapeOf(c), written, close);
  }

  lemma {:induction false} AssociateText(a: string, b: string, c: string)
    ensures (a + b) + c == a + (b + c)
  {
  }

  // Every text at all can be written between quotes with escapes, and is read back.
  lemma {:induction false} EscapedIsRead(v: string, s: string)
    ensures ReadString(Escaping(v) + ("\"" + s)) == Some(Quoted(v, s))
  {
    assert ("\"" + s)[1..] == s;
    EscapedThen(v, "\"" + s, s);
  }

  // A backslash in front of any other character stays, and so does the character.
  lemma {:induction false} OtherEscapesStay(c: char, s: string)
    requires c != 'n' && c != 't' && c != 'r' && c != '\\' && c != '"' && ReadString(s).Some?
    ensures ReadString(['\\', c] + s) == Some(Quoted(['\\', c] + ReadString(s).value.text, ReadString(s).value.rest))
  {
    assert (['\\', c] + s)[2..] == s;
  }

  // ---------------------------------------------------------------- texts that are refused

  lemma {:induction false} NoQuoteNoString(s: string)
    requires forall i :: 0 <= i < |s| ==> s[i] != '"'
    ensures ReadString(s).None?
    decreases |s|
  {
    if s != [] && s[0] == '\\' && |s| > 1 {
      NoQuoteNoString(s[2..]);
    } else if s != [] {
      NoQuoteNoString(s[1..]);
    }
  }

  // A quote that is never closed is an error, and so is a character that begins no token.
  lemma {:induction false} OpenQuoteRefused(h: Host, s: string)
    requires Sane(h) && forall i :: 0 <= i < |s| ==> s[i] != '"'
    ensures NextToken(h, "\"" + s) == Err(Unterminated)
  {
    NoQuoteNoString(s);
    MarkInFront(h, "\"" + s);
    assert ("\"" + s)[1..] == s;
  }

  lemma {:induction false} StrayRefused(h: Host, c: char, s: string)
    requires Sane(h) && !h.white(c) && !WordChar(h, c) && c != '[' && c != ']' && c != '"' && c != '#'
    ensures NextToken(h, [c] + s) == Err(Unexpected(c))
  {
    assert ([c] + s)[0] == c;
  }

  // ---------------------------------------------------------------- words and numbers

  predicate IsLetter(c: char) {
    'a' <= c <= 'z'
  }

  // Letters, digits and the five signs make a word; its first character says which kind it is.
  lemma {:induction false} PlainWordIsRead(h: Host, w: string, s: string)
    requires Sane(h) && w != [] && (s == [] || !WordChar(h, s[0]))
    requires forall i :: 0 <= i < |w| ==> IsLetter(w[i]) || IsDigit(w[i]) || w[i] == '_' || w[i] == '.' || w[i] == '-' || w[i] == '+'
    ensures IsLetter(w[0]) || w[0] == '_' ==> NextToken(h, w + s) == Ok(Lexed(Identifier(w), s))
    ensures IsDigit(w[0]) ==> NextToken(h, w + s) == Ok(Lexed(Number(w), s))
    ensures (w[0] == '-' || w[0] == '+') && !h.alpha(w[0]) ==> NextToken(h, w + s) == Ok(Lexed(Number(w), s))
  {
    forall i | 0 <= i < |w| ensures WordChar(h, w[i]) {
      assert SaneAt(h, w[i]);
    }
    assert AllWord(h, w) && SaneAt(h, w[0]);
    if StartsIdentifier(h, w[0]) || StartsNumber(h, w[0]) {
      WordIsRead(h, w, s);
    }
  }

  // Numbers are decimal digits, perhaps behind a plus sign, below 2^32.
  lemma U32Meaning(s: string, digits: string)
    requires s == digits || s == "+" + digits
    requires digits == [] || digits[0] != '+'
    ensures ParseU32(s).Some? <==> digits != [] && Digits(digits) && DigitsValue(digits) <= 4294967295
    ensures ParseU32(s).Some? ==> ParseU32(s).value == DigitsValue(digits)
  {
    if s == "+" + digits {
      assert s[0] == '+' && s[1..] == digits;
    }
  }

  // ---------------------------------------------------------------- blocks that are refused

  // A node block with any attributes but no id is refused, and an edge block without an end.
  lemma {:induction false} NodeWithoutId(h: Host, texts: map<string, string>, values: map<string, string>, keys: seq<string>, tail: Stream)
    requires WritesAll(h, texts, values) && (forall k :: k in keys ==> k in texts) && !tail.Bad?
    requires "id" !in texts && "label" !in texts
    ensures var ts := Prepend([Identifier("node"), LeftBracket], Prepend(LineTokens(h, texts, values, keys), Close(tail)));
            !ts.Bad? && ParseNode(h, ts) == Err(Missing("node id"))
  {
    var body := Prepend(LineTokens(h, texts, values, keys), Close(tail));
    NodeLinesParsed(h, texts, values, keys, Close(tail), NodeFields(None, None, map[]));
    BlockOpened("node", body);
  }

  lemma {:induction false} EdgeWithoutEnd(h: Host, texts: map<string, string>, values: map<string, string>, keys: seq<string>, tail: Stream,
                                          source: Option<nat>)
    requires Sane(h) && WritesAll(h, texts, values) && (forall k :: k in keys ==> k in texts) && !tail.Bad?
    requires "source" !in texts && "target" !in texts
    requires forall k :: k in values ==> LossValue(h, k, values[k]) == values[k]
    requires source.Some? ==> source.value < U32
    ensures var lines := Prepend(LineTokens(h, texts, values, keys), Close(tail));
            var body := if source.Some? then Prepend([Identifier("source"), WordToken(h, ShowNat(source.value))], lines) else lines;
            var ts := Prepend([Identifier("edge"), LeftBracket], body);
            !ts.Bad? && ParseEdge(h, ts) == Err(Missing(if source.Some? then "edge target" else "edge source"))
  {
    var f := EdgeFields(None, None, map[]);
    var lines := Prepend(LineTokens(h, texts, values, keys), Close(tail));
    EdgeLinesParsed(h, texts, values, keys, Close(tail), f.(source := source));
    if source.Some? {
      EndpointParsed(h, "source", source.value, lines, f);
      BlockOpened("edge", Prepend([Identifier("source"), WordToken(h, ShowNat(source.value))], lines));
    } else {
      assert f.(source := source) == f;
      BlockOpened("edge", lines);
    }
  }

  // An id that is no 32-bit number is refused.
  lemma {:induction false} BadIdRefused(tok: Token, rest: Stream, f: NodeFields)
    requires !rest.Bad? && IsValue(tok) && ParseU32(tok.text).None?
    ensures NodeBody(More(Identifier("id"), More(tok, rest)), f) == Err(BadNumber("node id", tok.text))
  {
    FieldIsParsed("id", tok, rest, "attribute name in node");
  }

  lemma {:induction false} BadEndRefused(h: Host, key: string, tok: Token, rest: Stream, f: EdgeFields)
    requires !rest.Bad? && IsValue(tok) && ParseU32(tok.text).None? && (key == "source" || key == "target")
    ensures EdgeBody(h, More(Identifier(key), More(tok, rest)), f) == Err(BadNumber("edge " + key, tok.text))
  {
    FieldIsParsed(key, tok, rest, "attribute name in edge");
    assert "edge " + "source" == "edge source" && "edge " + "target" == "edge target";
  }

  // ---------------------------------------------------------------- packet loss

  predicate OnlyPercents(s: string) {
    forall i :: 0 <= i < |s| ==> s[i] == '%'
  }

  lemma {:induction false} PercentsTrimmed(v: string, b: string)
    requires OnlyPercents(b) && (v != [] ==> v[|v| - 1] != '%')
    ensures TrimBack(v + b, '%') == v
    decreases |b|
  {
    if b == [] {
      assert v + b == v;
    } else {
      assert (v + b)[..|v + b| - 1] == v + b[..|b| - 1];
      PercentsTrimmed(v, b[..|b| - 1]);
    }
  }

  // A packet loss in percent is stored as a fraction if it is a number, and as it stands if not;
  // no other value is touched.
  lemma {:induction false} LossIsScaled(h: Host, k: string, v: string, b: string, tok: Token, rest: Stream, f: EdgeFields)
    requires !rest.Bad? && IsValue(tok) && k != "source" && k != "target"
    requires tok.text == v + b && OnlyPercents(b) && (v != [] ==> v[|v| - 1] != '%')
    ensures var stored := if k == "packet_loss" && b != [] && h.percent(v).Some? then h.percent(v).value else tok.text;
            EdgeBody(h, More(Identifier(k), More(tok, rest)), f) == EdgeBody(h, rest, f.(attributes := f.attributes[k := stored]))
  {
    PercentsTrimmed(v, b);
    FieldIsParsed(k, tok, rest, "attribute name in edge");
    assert b != [] ==> tok.text[|tok.text| - 1] == '%';
    assert b == [] ==> tok.text == v;
  }

  // ---------------------------------------------------------------- after the graph

  // The closing bracket ends the graph: tokens behind it are not read.
  lemma {:induction false} RestIsIgnored(h: Host, body: Stream, g: GmlGraph, tail: Stream)
    requires !body.Bad? && !tail.Bad? && GraphBody(h, body, GmlGraph([], [], map[])) == Ok(Body(g, Close(tail)))
    ensures var ts := Prepend([Identifier("graph"), LeftBracket], body); !ts.Bad? && ParseGraph(h, ts) == Ok(g)
  {
    BlockOpened("graph", body);
  }

  lemma {:induction false} OtherStartRefused(h: Host, ts: Stream)
    requires !ts.Bad? && Current(ts) != Identifier("graph")
    ensures ParseGraph(h, ts) == Err(Expected("graph", Current(ts)))
  {
  }

  // ---------------------------------------------------------------- why a graph is refused

  ghost predicate Reason(g: GmlGraph, v: Verdict) {
    match v
    case Fine => true
    case DuplicateId(id) => exists i, j :: 0 <= i < j < |g.nodes| && g.nodes[i].id == id && g.nodes[j].id == id
    case NoSource(id) => (exists e :: e in g.edges && e.source == id) && forall n :: n in g.nodes ==> n.id != id
    case NoTarget(id) => (exists e :: e in g.edges && e.target == id) && forall n :: n in g.nodes ==> n.id != id
    case Disconnected => |g.nodes| > 1 && g.edges == []
    case BadAddress(ip, id) => exists n :: n in g.nodes && n.ip == Some(ip) && n.id == id
    case RepeatedAddress(ip) => exists i, j :: 0 <= i < j < |g.nodes| && g.nodes[i].ip == Some(ip) && g.nodes[j].ip == Some(ip)
  }

  lemma {:induction false} RepeatIsThere(ids: seq<nat>, k: nat)
    requires k <= |ids| && FirstRepeat(ids[k..], IdSet(ids[..k])).Some?
    ensures var id := FirstRepeat(ids[k..], IdSet(ids[..k])).value; exists i, j :: 0 <= i < j < |ids| && ids[i] == id && ids[j] == id
    decreases |ids| - k
  {
    if ids[k] in IdSet(ids[..k]) {
      var i :| 0 <= i < k && ids[..k][i] == ids[k];
      assert ids[i] == ids[k];
    } else {
      assert ids[k..][1..] == ids[k + 1..] && ids[..k + 1] == ids[..k] + [ids[k]];
      assert IdSet(ids[..k + 1]) == IdSet(ids[..k]) + {ids[k]};
      RepeatIsThere(ids, k + 1);
    }
  }

  lemma {:induction false} DanglingIsThere(edges: seq<GmlEdge>, ids: set<nat>)
    ensures match FirstDangling(edges, ids)
            case NoSource(id) => id !in ids && exists e :: e in edges && e.source == id
            case NoTarget(id) => id !in ids && exists e :: e in edges && e.target == id
            case v => v == Fine
    decreases |edges|
  {
    if edges != [] && edges[0].source in ids && edges[0].target in ids {
      DanglingIsThere(edges[1..], ids);
      assert forall e :: e in edges[1..] ==> e in edges;
    } else if edges != [] {
      assert edges[0] in edges;
    }
  }

  // The verdict names a fault that is there.
  lemma {:induction false} VerdictIsReason(g: GmlGraph)
    ensures Reason(g, Validate(g))
  {
    var ids := Ids(g.nodes);
    assert ids[0..] == ids && ids[..0] == [] && IdSet([]) == {};
    if FirstRepeat(ids, {}).Some? {
      RepeatIsThere(ids, 0);
    }
    DanglingIsThere(g.edges, IdSet(ids));
    forall n | n in g.nodes ensures n.id in IdSet(ids) {
      var i :| 0 <= i < |g.nodes| && g.nodes[i] == n;
      assert ids[i] == n.id;
    }
  }

  // ---------------------------------------------------------------- bandwidths left alone

  // What has neither suffix is written as it is, and so is a number of gigabits that is none.
  lemma OtherBandwidths(h: Host, v: string)
    ensures !EndsWith(v, "Gbit") && !EndsWith(v, "Mbit") ==> ConvertBandwidth(h, v) == v
    ensures EndsWith(v, "Gbit") && h.gbit(TrimEnd(v, "Gbit")).None? ==> ConvertBandwidth(h, v) == v
  {
  }

  // What is left of a trimmed value has no such suffix ...
  lemma {:induction false} NoSuffixStays(s: string, suffix: string)
    requires suffix != []
    ensures !EndsWith(TrimEnd(s, suffix), suffix)
    decreases |s|
  {
    if EndsWith(s, suffix) {
      NoSuffixStays(s[..|s| - |suffix|], suffix);
    }
  }

  // ... however many there were.
  lemma {:induction false} EverySuffixGoes(s: string, u: string, suffix: string, n: nat)
    requires suffix != [] && !EndsWith(s, suffix) && u == s + Copies(suffix, n)
    ensures TrimEnd(u, suffix) == s
    decreases n
  {
    if n == 0 {
      assert u == s;
    } else {
      var t := s + Copies(suffix, n - 1);
      SplitLast(s, suffix, n, u, t);
      EverySuffixGoes(s, t, suffix, n - 1);
      LastGoes(t, suffix);
    }
  }

  lemma {:induction false} SplitLast(s: string, suffix: string, n: nat, u: string, t: string)
    requires n > 0 && u == s + Copies(suffix, n) && t == s + Copies(suffix, n - 1)
    ensures u == t + suffix
  {
    AssociateText(s, Copies(suffix, n - 1), suffix);
  }

  lemma {:induction false} LastGoes(s: string, suffix: string)
    requires suffix != []
    ensures TrimEnd(s + suffix, suffix) == TrimEnd(s, suffix)
  {
    var t := s + suffix;
    assert t[|t| - |suffix|..] == suffix && t[..|t| - |suffix|] == s;
  }

  function Copies(s: string, n: nat): string {
    if n == 0 then [] else Copies(s, n - 1) + s
  }

  // ---------------------------------------------------------------- the lines of the file

  ghost predicate Within(piece: string, s: string) {
    exists a: string, b: string :: s == a + (piece + b)
  }

  lemma {:induction false} WithinWider(piece: string, s: string, x: string, y: string)
    requires Within(piece, s)
    ensures Within(piece, x + (s + y))
  {
    var a: string, b: string :| s == a + (piece + b);
    assert x + (s + y) == (x + a) + (piece + (b + y));
  }

  lemma {:induction false} WithinRight(piece: string, s: string, x: string)
    requires Within(piece, s)
    ensures Within(piece, x + s)
  {
    WithinWider(piece, s, x, []);
    assert x + (s + []) == x + s;
  }

  lemma {:induction false} WithinLeft(piece: string, s: string, y: string)
    requires Within(piece, s)
    ensures Within(piece, s + y)
  {
    WithinWider(piece, s, [], y);
    assert [] + (s + y) == s + y;
  }

  lemma {:induction false} LineWithin(indent: string, texts: map<string, string>, keys: seq<string>, k: string)
    requires k in keys && forall j :: j in keys ==> j in texts
    ensures Within(indent + (k + " " + (texts[k] + "\n")), Lines(indent, texts, keys))
    decreases |keys|
  {
    var first := Line(indent, keys[0], texts[keys[0]]);
    if keys[0] == k {
      assert first + Lines(indent, texts, keys[1..]) == [] + (first + Lines(indent, texts, keys[1..]));
    } else {
      LineWithin(indent, texts, keys[1..], k);
      WithinRight(indent + (k + " " + (texts[k] + "\n")), Lines(indent, texts, keys[1..]), first);
    }
  }

  // Every attribute of a node has its line: bandwidths bare and converted, all else in quotes.
  lemma {:induction false} NodeLineWritten(h: Host, n: GmlNode, keys: seq<string>, k: string)
    requires Lists(keys, n.attributes) && k in n.attributes
    ensures var v := n.attributes[k];
            var text := if k == "bandwidth" then ConvertBandwidth(h, v) else "\"" + v + "\"";
            Within("    " + (k + " " + (text + "\n")), NodeBlock(h, n, keys))
  {
    var v := n.attributes[k];
    var text := if k == "bandwidth" then ConvertBandwidth(h, v) else "\"" + v + "\"";
    var piece, lines := "    " + (k + " " + (text + "\n")), Lines("    ", NodeTexts(h, n.attributes), keys);
    LineWithin("    ", NodeTexts(h, n.attributes), keys, k);
    WithinLeft(piece, lines, "  ]\n");
    WithinRight(piece, lines + "  ]\n", LabelLine(n.labelText));
    WithinRight(piece, LabelLine(n.labelText) + (lines + "  ]\n"), Line("    ", "id", ShowNat(n.id)));
    WithinRight(piece, Line("    ", "id", ShowNat(n.id)) + (LabelLine(n.labelText) + (lines + "  ]\n")), "  node [\n");
  }

  // Likewise for an edge, where a packet loss is bare as well.
  lemma {:induction false} EdgeLineWritten(h: Host, e: GmlEdge, keys: seq<string>, k: string)
    requires Lists(keys, e.attributes) && k in e.attributes
    ensures var v := e.attributes[k];
            var text := if k == "packet_loss" then v else if k == "bandwidth" then ConvertBandwidth(h, v) else "\"" + v + "\"";
            Within("    " + (k + " " + (text + "\n")), EdgeBlock(h, e, keys))
  {
    var v := e.attributes[k];
    var text := if k == "packet_loss" then v else if k == "bandwidth" then ConvertBandwidth(h, v) else "\"" + v + "\"";
    var piece, lines := "    " + (k + " " + (text + "\n")), Lines("    ", EdgeTexts(h, e.attributes), keys);
    LineWithin("    ", EdgeTexts(h, e.attributes), keys, k);
    WithinLeft(piece, lines, "  ]\n");
    WithinRight(piece, lines + "  ]\n", Line("    ", "target", ShowNat(e.target)));
    WithinRight(piece, Line("    ", "target", ShowNat(e.target)) + (lines + "  ]\n"), Line("    ", "source", ShowNat(e.source)));
    WithinRight(piece, Line("    ", "source", ShowNat(e.source)) + (Line("    ", "target", ShowNat(e.target)) + (lines + "  ]\n")), "  edge [\n");
  }

  // And every block stands in the file.
  lemma {:induction false} NodeBlockWithin(h: Host, nodes: seq<GmlNode>, orders: seq<seq<string>>, i: nat)
    requires NodeKeysOk(nodes, orders) && i < |nodes|
    ensures Within(NodeBlock(h, nodes[i], orders[i]), NodeBlocks(h, nodes, orders))
    decreases i
  {
    var first := NodeBlock(h, nodes[0], orders[0]);
    if i == 0 {
      assert first + NodeBlocks(h, nodes[1..], orders[1..]) == [] + (first + NodeBlocks(h, nodes[1..], orders[1..]));
    } else {
      NodeBlockWithin(h, nodes[1..], orders[1..], i - 1);
      WithinRight(NodeBlock(h, nodes[i], orders[i]), NodeBlocks(h, nodes[1..], orders[1..]), first);
    }
  }

  lemma {:induction false} EdgeBlockWithin(h: Host, edges: seq<GmlEdge>, orders: seq<seq<string>>, i: nat)
    requires EdgeKeysOk(edges, orders) && i < |edges|
    ensures Within(EdgeBlock(h, edges[i], orders[i]), EdgeBlocks(h, edges, orders))
    decreases i
  {
    var first := EdgeBlock(h, edges[0], orders[0]);
    if i == 0 {
      assert first + EdgeBlocks(h, edges[1..], orders[1..]) == [] + (first + EdgeBlocks(h, edges[1..], orders[1..]));
    } else {
      EdgeBlockWithin(h, edges[1..], orders[1..], i - 1);
      WithinRight(EdgeBlock(h, edges[i], orders[i]), EdgeBlocks(h, edges[1..], orders[1..]), first);
    }
  }

  lemma {:induction false} BlocksInFile(h: Host, g: GmlGraph, o: Order)
    requires IsOrder(o, g)
    ensures Within(NodeBlocks(h, g.nodes, o.nodes), Emit(h, g, o)) && Within(EdgeBlocks(h, g.edges, o.edges), Emit(h, g, o))
  {
    FileWithin("graph [\n", Lines("  ", g.attributes, o.graph), NodeBlocks(h, g.nodes, o.nodes), EdgeBlocks(h, g.edges, o.edges), "]\n");
  }

  lemma {:induction false} FileWithin(head: string, lines: string, nodes: string, edges: string, end: string)
    ensures Within(nodes, head + (lines + (nodes + (edges + end)))) && Within(edges, head + (lines + (nodes + (edges + end))))
  {
    var file := head + (lines + (nodes + (edges + end)));
    assert file == (head + lines) + (nodes + (edges + end));
    assert file == (head + lines + nodes) + (edges + end);
  }
}
