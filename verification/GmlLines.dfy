// The lines of an emitted file: each piece of text reads as its tokens whatever comes after it, and
// the parser's block loops turn the tokens of the lines back into the attributes.
module GmlLines {
  import opened Basics
  import opened GmlSyntax
  import opened GmlLayout
  import opened GmlValues
  import opened GmlEmitter

  // ---------------------------------------------------------------- text that lexes to given tokens

  function Prepend(toks: seq<Token>, tail: Stream): Stream {
    if toks == [] then tail else More(toks[0], Prepend(toks[1..], tail))
  }

  // Whatever comes next, this text reads as these tokens and leaves the rest alone.
  ghost predicate Lexes(h: Host, text: string, toks: seq<Token>) {
    forall rest: string :: LexesBefore(h, text, toks, rest)
  }

  ghost predicate LexesBefore(h: Host, text: string, toks: seq<Token>, rest: string) {
    Tokens(h, text + rest) == Prepend(toks, Tokens(h, rest))
  }

  lemma {:induction false} PrependConcat(a: seq<Token>, b: seq<Token>, tail: Stream)
    ensures Prepend(a + b, tail) == Prepend(a, Prepend(b, tail))
    decreases |a|
  {
    if a == [] {
      assert a + b == b;
    } else {
      assert (a + b)[1..] == a[1..] + b;
      PrependConcat(a[1..], b, tail);
    }
  }

  lemma LexesConcat(h: Host, a: string, x: seq<Token>, b: string, y: seq<Token>)
    requires Lexes(h, a, x) && Lexes(h, b, y)
    ensures Lexes(h, a + b, x + y)
  {
    forall rest: string ensures LexesBefore(h, a + b, x + y, rest) {
      assert (a + b) + rest == a + (b + rest);
      assert LexesBefore(h, a, x, b + rest) && LexesBefore(h, b, y, rest);
      PrependConcat(x, y, Tokens(h, rest));
    }
  }

  lemma LexesLayout(h: Host, l: string)
    requires Sane(h) && IsLayout(h, l)
    ensures Lexes(h, l, [])
  {
    forall rest: string ensures LexesBefore(h, l, [], rest) {
      TokensAfterLayout(h, l, rest);
    }
  }

  // One token and the white space after it.
  lemma {:induction false} LexesToken(h: Host, text: string, c: char, tok: Token)
    requires Sane(h) && h.white(c) && !tok.Eof?
    requires forall s: string :: NextToken(h, text + ([c] + s)) == Ok(Lexed(tok, [c] + s))
    ensures Lexes(h, text + [c], [tok])
  {
    forall rest: string ensures LexesBefore(h, text + [c], [tok], rest) {
      assert text + [c] + rest == text + ([c] + rest);
      assert IsLayout(h, [c]);
      TokensAfterLayout(h, [c], rest);
      assert Prepend([tok], Tokens(h, rest)) == More(tok, Prepend([], Tokens(h, rest)));
    }
  }

  lemma LexesWord(h: Host, w: string, c: char)
    requires Sane(h) && IsWord(h, w) && h.white(c)
    ensures Lexes(h, w + [c], [WordToken(h, w)])
  {
    assert SaneAt(h, c);
    forall s: string ensures NextToken(h, w + ([c] + s)) == Ok(Lexed(WordToken(h, w), [c] + s)) {
      WordIsRead(h, w, [c] + s);
    }
    LexesToken(h, w, c, WordToken(h, w));
  }

  lemma LexesQuoted(h: Host, v: string, c: char)
    requires Sane(h) && QuotedSafe(v) && h.white(c)
    ensures Lexes(h, Quote(v) + [c], [Str(v)])
  {
    forall s: string ensures NextToken(h, Quote(v) + ([c] + s)) == Ok(Lexed(Str(v), [c] + s)) {
      QuotedExact(h, v, [c] + s);
    }
    LexesToken(h, Quote(v), c, Str(v));
  }

  lemma LexesBracket(h: Host, b: char, c: char)
    requires Sane(h) && (b == '[' || b == ']') && h.white(c)
    ensures Lexes(h, [b] + [c], [if b == '[' then LeftBracket else RightBracket])
  {
    forall s: string ensures NextToken(h, [b] + ([c] + s)) == Ok(Lexed(if b == '[' then LeftBracket else RightBracket, [c] + s)) {
      MarkInFront(h, [b] + ([c] + s));
      assert ([b] + ([c] + s))[0] == b && ([b] + ([c] + s))[1..] == [c] + s;
    }
    LexesToken(h, [b], c, if b == '[' then LeftBracket else RightBracket);
  }

  // ---------------------------------------------------------------- values and lines

  // `text` is a way of writing `v` that the reader undoes.
  predicate Writes(h: Host, text: string, v: string) {
    (IsWord(h, text) && v == text) || (QuotedSafe(v) && text == Quote(v))
  }

  function ValueToken(h: Host, text: string, v: string): Token
    requires Writes(h, text, v)
  {
    if IsWord(h, text) && v == text then WordToken(h, text) else Str(v)
  }

  lemma LexesValue(h: Host, text: string, v: string)
    requires Sane(h) && Writes(h, text, v)
    ensures Lexes(h, text + "\n", [ValueToken(h, text, v)])
  {
    if IsWord(h, text) && v == text {
      LexesWord(h, text, '\n');
    } else {
      LexesQuoted(h, v, '\n');
    }
  }

  predicate Spaces(s: string) {
    forall i :: 0 <= i < |s| ==> s[i] == ' '
  }

  lemma {:induction false} SpacesAreLayout(h: Host, s: string)
    requires Sane(h) && Spaces(s)
    ensures IsLayout(h, s)
    decreases |s|
  {
    if s != [] {
      SpacesAreLayout(h, s[1..]);
    }
  }

  lemma LexesLine(h: Host, indent: string, key: string, text: string, v: string)
    requires Sane(h) && Spaces(indent) && IsIdentifier(h, key) && Writes(h, text, v)
    ensures Lexes(h, Line(indent, key, text), [Identifier(key), ValueToken(h, text, v)])
  {
    SpacesAreLayout(h, indent);
    LexesLayout(h, indent);
    LexesWord(h, key, ' ');
    LexesValue(h, text, v);
    LexesConcat(h, key + " ", [Identifier(key)], text + "\n", [ValueToken(h, text, v)]);
    LexesConcat(h, indent, [], key + " " + (text + "\n"), [Identifier(key)] + [ValueToken(h, text, v)]);
    assert [] + ([Identifier(key)] + [ValueToken(h, text, v)]) == [Identifier(key), ValueToken(h, text, v)];
  }

  // Every key is an identifier, and every text writes the value the reader is to find.
  ghost predicate WritesAll(h: Host, texts: map<string, string>, values: map<string, string>) {
    texts.Keys == values.Keys && forall k :: k in texts ==> IsIdentifier(h, k) && Writes(h, texts[k], values[k])
  }

  ghost function LineTokens(h: Host, texts: map<string, string>, values: map<string, string>, keys: seq<string>): seq<Token>
    requires WritesAll(h, texts, values) && forall k :: k in keys ==> k in texts
  {
    if keys == [] then []
    else [Identifier(keys[0]), ValueToken(h, texts[keys[0]], values[keys[0]])] + LineTokens(h, texts, values, keys[1..])
  }

  lemma {:induction false} LexesLines(h: Host, indent: string, texts: map<string, string>, values: map<string, string>, keys: seq<string>)
    requires Sane(h) && Spaces(indent) && WritesAll(h, texts, values) && forall k :: k in keys ==> k in texts
    ensures Lexes(h, Lines(indent, texts, keys), LineTokens(h, texts, values, keys))
    decreases |keys|
  {
    if keys == [] {
      LexesLayout(h, []);
    } else {
      var k := keys[0];
      LexesLine(h, indent, k, texts[k], values[k]);
      LexesLines(h, indent, texts, values, keys[1..]);
      LexesConcat(h, Line(indent, k, texts[k]), [Identifier(k), ValueToken(h, texts[k], values[k])],
                  Lines(indent, texts, keys[1..]), LineTokens(h, texts, values, keys[1..]));
    }
  }

  // ---------------------------------------------------------------- reading the lines back

  // The values of the listed keys, put in one after another.
  function PutAll(m: map<string, string>, values: map<string, string>, keys: seq<string>): map<string, string>
    requires forall k :: k in keys ==> k in values
    decreases |keys|
  {
    if keys == [] then m else PutAll(m[keys[0] := values[keys[0]]], values, keys[1..])
  }

  lemma {:induction false} PutAllIs(m: map<string, string>, values: map<string, string>, keys: seq<string>)
    requires forall k :: k in keys ==> k in values
    ensures forall k :: k in PutAll(m, values, keys) <==> k in m || k in keys
    ensures forall k :: k in keys ==> PutAll(m, values, keys)[k] == values[k]
    ensures forall k :: k in m && k !in keys ==> PutAll(m, values, keys)[k] == m[k]
    decreases |keys|
  {
    if keys != [] {
      PutAllIs(m[keys[0] := values[keys[0]]], values, keys[1..]);
      assert keys == [keys[0]] + keys[1..];
    }
  }

  lemma PutAllFromEmpty(values: map<string, string>, keys: seq<string>)
    requires Lists(keys, values)
    ensures PutAll(map[], values, keys) == values
  {
    PutAllIs(map[], values, keys);
  }

  // A key and a value in front of anything that is not an error make a field.
  lemma FieldIsParsed(key: string, tok: Token, tail: Stream, what: string)
    requires !tail.Bad? && IsValue(tok)
    ensures ParseField(More(Identifier(key), More(tok, tail)), what) == Ok(Field(key, tok.text, tail))
  {
  }

  lemma PrependTwo(a: Token, b: Token, toks: seq<Token>, tail: Stream)
    ensures Prepend([a, b] + toks, tail) == More(a, More(b, Prepend(toks, tail)))
  {
    assert ([a, b] + toks)[1..] == [b] + toks && ([b] + toks)[1..] == toks;
  }

  // The tokens of the first line, in front of those of the others.
  lemma {:induction false} FirstLine(h: Host, texts: map<string, string>, values: map<string, string>, keys: seq<string>, tail: Stream)
    requires WritesAll(h, texts, values) && (forall k :: k in keys ==> k in texts) && keys != []
    ensures var k := keys[0];
            && k in values && (forall j :: j in keys[1..] ==> j in texts)
            && IsValue(ValueToken(h, texts[k], values[k])) && ValueToken(h, texts[k], values[k]).text == values[k]
            && Prepend(LineTokens(h, texts, values, keys), tail)
               == More(Identifier(k), More(ValueToken(h, texts[k], values[k]), Prepend(LineTokens(h, texts, values, keys[1..]), tail)))
  {
    PrependTwo(Identifier(keys[0]), ValueToken(h, texts[keys[0]], values[keys[0]]), LineTokens(h, texts, values, keys[1..]), tail);
  }

  lemma {:induction false} NodeFieldParsed(k: string, tok: Token, rest: Stream, f: NodeFields)
    requires !rest.Bad? && IsValue(tok) && k != "id" && k != "label"
    ensures NodeBody(More(Identifier(k), More(tok, rest)), f) == NodeBody(rest, f.(attributes := f.attributes[k := tok.text]))
  {
    FieldIsParsed(k, tok, rest, "attribute name in node");
  }

  lemma EdgeFieldParsed(h: Host, k: string, tok: Token, rest: Stream, f: EdgeFields)
    requires !rest.Bad? && IsValue(tok) && k != "source" && k != "target" && LossValue(h, k, tok.text) == tok.text
    ensures EdgeBody(h, More(Identifier(k), More(tok, rest)), f) == EdgeBody(h, rest, f.(attributes := f.attributes[k := tok.text]))
  {
    FieldIsParsed(k, tok, rest, "attribute name in edge");
  }

  lemma {:induction false} GraphFieldParsed(h: Host, k: string, tok: Token, rest: Stream, g: GmlGraph)
    requires !rest.Bad? && IsValue(tok) && k != "node" && k != "edge"
    ensures GraphBody(h, More(Identifier(k), More(tok, rest)), g) == GraphBody(h, rest, g.(attributes := g.attributes[k := tok.text]))
  {
    FieldIsParsed(k, tok, rest, "keyword in graph");
  }

  lemma {:induction false} NodeLinesParsed(h: Host, texts: map<string, string>, values: map<string, string>, keys: seq<string>, tail: Stream, f: NodeFields)
    requires WritesAll(h, texts, values) && (forall k :: k in keys ==> k in texts) && !tail.Bad?
    requires "id" !in texts && "label" !in texts
    ensures !Prepend(LineTokens(h, texts, values, keys), tail).Bad?
    ensures NodeBody(Prepend(LineTokens(h, texts, values, keys), tail), f) == NodeBody(tail, f.(attributes := PutAll(f.attributes, values, keys)))
    decreases |keys|
  {
    if keys != [] {
      var k := keys[0];
      FirstLine(h, texts, values, keys, tail);
      NodeLinesParsed(h, texts, values, keys[1..], tail, f.(attributes := f.attributes[k := values[k]]));
      NodeFieldParsed(k, ValueToken(h, texts[k], values[k]), Prepend(LineTokens(h, texts, values, keys[1..]), tail), f);
    }
  }

  lemma {:induction false} EdgeLinesParsed(h: Host, texts: map<string, string>, values: map<string, string>, keys: seq<string>, tail: Stream, f: EdgeFields)
    requires WritesAll(h, texts, values) && (forall k :: k in keys ==> k in texts) && !tail.Bad?
    requires "source" !in texts && "target" !in texts
    requires forall k :: k in values ==> LossValue(h, k, values[k]) == values[k]
    ensures !Prepend(LineTokens(h, texts, values, keys), tail).Bad?
    ensures EdgeBody(h, Prepend(LineTokens(h, texts, values, keys), tail), f) == EdgeBody(h, tail, f.(attributes := PutAll(f.attributes, values, keys)))
    decreases |keys|
  {
    if keys != [] {
      var k := keys[0];
      FirstLine(h, texts, values, keys, tail);
      EdgeLinesParsed(h, texts, values, keys[1..], tail, f.(attributes := f.attributes[k := values[k]]));
      EdgeFieldParsed(h, k, ValueToken(h, texts[k], values[k]), Prepend(LineTokens(h, texts, values, keys[1..]), tail), f);
    }
  }

  lemma {:induction false} GraphLinesParsed(h: Host, texts: map<string, string>, values: map<string, string>, keys: seq<string>, tail: Stream, g: GmlGraph)
    requires WritesAll(h, texts, values) && (forall k :: k in keys ==> k in texts) && !tail.Bad?
    requires "node" !in texts && "edge" !in texts
    ensures !Prepend(LineTokens(h, texts, values, keys), tail).Bad?
    ensures GraphBody(h, Prepend(LineTokens(h, texts, values, keys), tail), g) == GraphBody(h, tail, g.(attributes := PutAll(g.attributes, values, keys)))
    decreases |keys|
  {
    if keys != [] {
      var k := keys[0];
      FirstLine(h, texts, values, keys, tail);
      GraphLinesParsed(h, texts, values, keys[1..], tail, g.(attributes := g.attributes[k := values[k]]));
      GraphFieldParsed(h, k, ValueToken(h, texts[k], values[k]), Prepend(LineTokens(h, texts, values, keys[1..]), tail), g);
    }
  }
}
