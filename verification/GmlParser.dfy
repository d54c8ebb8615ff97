// The lexer and the parser as the objects they are: a cursor over the characters, and a one-token
// lookahead over the lexer.  Every method computes the function of GmlSyntax it is named after.
module GmlParser {
  import opened Basics
  import opened GmlSyntax

  class Lexer {
    const host: Host
    const input: string
    var position: nat
    var currentChar: Option<char>

    ghost predicate Valid()
      reads this
    {
      position <= |input| && currentChar == if position < |input| then Some(input[position]) else None
    }

    // What has not been read yet.
    ghost function Rest(): string
      reads this
      requires Valid()
    {
      input[position..]
    }

    constructor (host: Host, input: string)
      ensures Valid() && Rest() == input && this.host == host
    {
      this.host := host;
      this.input := input;
      position := 0;
      currentChar := if 0 < |input| then Some(input[0]) else None;
    }

    method Step()
      requires Valid() && currentChar.Some?
      modifies this
      ensures Valid() && old(Rest()) != [] && old(Rest()[0] == currentChar.value) && Rest() == old(Rest())[1..]
    {
      position := position + 1;
      currentChar := if position < |input| then Some(input[position]) else None;
    }

    method SkipWhitespace()
      requires Valid()
      modifies this
      ensures Valid() && Rest() == SkipWhite(host, old(Rest()))
    {
      while currentChar.Some? && host.white(currentChar.value)
        invariant Valid() && SkipWhite(host, Rest()) == SkipWhite(host, old(Rest()))
        decreases |input| - position
      {
        Step();
      }
    }

    method SkipComment()
      requires Valid()
      modifies this
      ensures Valid() && Rest() == if old(Rest()) != [] && old(Rest())[0] == '#' then SkipLine(old(Rest())) else old(Rest())
    {
      if currentChar == Some('#') {
        while currentChar.Some? && currentChar.value != '\n'
          invariant Valid() && SkipLine(Rest()) == SkipLine(old(Rest()))
          decreases |input| - position
        {
          Step();
        }
      }
    }

    method ReadQuoted() returns (r: Option<string>)
      requires Valid() && currentChar == Some('"')
      modifies this
      ensures Valid()
      ensures var q := ReadString(old(Rest())[1..]);
              if q.None? then r.None? else r == Some(q.value.text) && Rest() == q.value.rest
    {
      var result: string := [];
      Step();
      ghost var text := Rest();
      ghost var goal := ReadString(text);
      assert goal.Some? ==> [] + goal.value.text == goal.value.text;
      while currentChar.Some?
        invariant Valid() && Extends(goal, result, ReadString(Rest()))
        decreases |input| - position
      {
        var ch := currentChar.value;
        ghost var here := Rest();
        if ch == '"' {
          Step();
          assert result + "" == result;
          return Some(result);
        }
        if ch == '\\' {
          Step();
          if currentChar.Some? {
            var escaped := currentChar.value;
            ghost var there := Rest();
            assert there == here[1..];
            Step();
            assert Rest() == here[2..];
            ExtendsMore(goal, result, here, Escaped(escaped), Rest());
            result := result + Escaped(escaped);
          }
        } else {
          Step();
          ExtendsMore(goal, result, here, [ch], Rest());
          result := result + [ch];
        }
      }
      r := None;
    }

    method ReadWord() returns (w: string)
      requires Valid()
      modifies this
      ensures Valid() && var n := WordLength(host, old(Rest())); w == old(Rest())[..n] && Rest() == old(Rest())[n..]
    {
      w := [];
      ghost var all := Rest();
      assert [] + all == all;
      while currentChar.Some? && WordChar(host, currentChar.value)
        invariant Valid() && w + Rest() == all
        invariant WordLength(host, all) == |w| + WordLength(host, Rest())
        decreases |input| - position
      {
        ghost var before := Rest();
        MoveOne(w, before);
        w := w + [currentChar.value];
        Step();
      }
      assert WordLength(host, Rest()) == 0;
      SplitAt(w, Rest());
    }

    method Next() returns (r: Result<Token, Error>)
      requires Valid()
      modifies this
      ensures Valid()
      ensures var t := NextToken(host, old(Rest()));
              if t.Ok? then r == Ok(t.value.token) && Rest() == t.value.rest else r == Err(t.error)
    {
      while true
        invariant Valid() && NextToken(host, Rest()) == NextToken(host, old(Rest()))
        decreases |input| - position
      {
        ghost var before := Rest();
        SkipWhitespace();
        if currentChar.None? {
          return Ok(Eof);
        }
        var ch := currentChar.value;
        if ch == '#' {
          SkipComment();
          continue;
        }
        if ch == '[' {
          Step();
          return Ok(LeftBracket);
        }
        if ch == ']' {
          Step();
          return Ok(RightBracket);
        }
        if ch == '"' {
          var s := ReadQuoted();
          return if s.Some? then Ok(Str(s.value)) else Err(Unterminated);
        }
        if StartsIdentifier(host, ch) {
          var w := ReadWord();
          return Ok(Identifier(w));
        }
        if StartsNumber(host, ch) {
          var w := ReadWord();
          return Ok(Number(w));
        }
        return Err(Unexpected(ch));
      }
    }
  }

  lemma MoveOne(done: string, more: string)
    requires more != []
    ensures done + more == done + [more[0]] + more[1..]
  {
  }

  lemma SplitAt(done: string, more: string)
    ensures (done + more)[..|done|] == done && (done + more)[|done|..] == more
  {
  }

  // What has been read in front of what is still to be read.
  ghost predicate Extends(goal: Option<Quoted>, done: string, more: Option<Quoted>) {
    goal == if more.None? then None else Some(Quoted(done + more.value.text, more.value.rest))
  }

  lemma ExtendsMore(goal: Option<Quoted>, done: string, here: string, piece: string, after: string)
    requires Extends(goal, done, ReadString(here))
    requires ReadString(here) == if ReadString(after).None? then None
                                 else Some(Quoted(piece + ReadString(after).value.text, ReadString(after).value.rest))
    ensures Extends(goal, done + piece, ReadString(after))
  {
    if ReadString(after).Some? {
      assert done + (piece + ReadString(after).value.text) == (done + piece) + ReadString(after).value.text;
    }
  }

  class Parser {
    const lexer: Lexer
    var currentToken: Token

    ghost predicate Valid()
      reads this, lexer
    {
      lexer.Valid() && (currentToken.Eof? ==> Tokens(lexer.host, lexer.Rest()) == End)
    }

    // The lookahead, and what the lexer has still to give.
    ghost function Remaining(): (r: Stream)
      reads this, lexer
      requires Valid()
      ensures !r.Bad? && Current(r) == currentToken
    {
      if currentToken.Eof? then End else More(currentToken, Tokens(lexer.host, lexer.Rest()))
    }

    constructor (lexer: Lexer, first: Token)
      requires lexer.Valid() && (first.Eof? ==> Tokens(lexer.host, lexer.Rest()) == End)
      ensures Valid() && this.lexer == lexer && currentToken == first
    {
      this.lexer := lexer;
      currentToken := first;
    }

    method Advance() returns (e: Option<Error>)
      requires Valid()
      modifies this, lexer
      ensures Moved(GmlSyntax.Advance(old(Remaining())), e)
    {
      var r := lexer.Next();
      if r.Err? {
        return Some(r.error);
      }
      currentToken := r.value;
      e := None;
    }

    // The outcome of a step: an error, or the parser standing at the given tokens.
    ghost predicate Moved(r: Result<Stream, Error>, e: Option<Error>)
      reads this, lexer
    {
      if r.Err? then e == Some(r.error) else e.None? && Valid() && Remaining() == r.value
    }

    method ExpectToken(token: Token, what: string) returns (e: Option<Error>)
      requires Valid() && !token.Eof?
      modifies this, lexer
      ensures Moved(Expect(old(Remaining()), token, what), e)
    {
      if currentToken == token {
        e := Advance();
      } else {
        e := Some(Expected(what, currentToken));
      }
    }

    method ValueText() returns (r: Result<string, Error>)
      requires Valid()
      modifies this, lexer
      ensures var v := ParseValue(old(Remaining()));
              if v.Err? then r == Err(v.error) else r == Ok(v.value.text) && Valid() && Remaining() == v.value.rest
    {
      if !IsValue(currentToken) {
        return Err(Expected("value", currentToken));
      }
      var text := currentToken.text;
      var e := Advance();
      if e.Some? {
        return Err(e.value);
      }
      r := Ok(text);
    }

    // A key and its value.
    method KeyAndValue(what: string) returns (r: Result<(string, string), Error>)
      requires Valid()
      modifies this, lexer
      ensures var f := ParseField(old(Remaining()), what);
              if f.Err? then r == Err(f.error) else r == Ok((f.value.key, f.value.text)) && Valid() && Remaining() == f.value.rest
    {
      if !currentToken.Identifier? {
        return Err(Expected(what, currentToken));
      }
      var key := currentToken.text;
      var e := Advance();
      if e.Some? {
        return Err(e.value);
      }
      var v := ValueText();
      if v.Err? {
        return Err(v.error);
      }
      r := Ok((key, v.value));
    }

    method OpenBracket(word: string) returns (e: Option<Error>)
      requires Valid()
      modifies this, lexer
      ensures Moved(OpenBlock(old(Remaining()), word), e)
    {
      e := ExpectToken(Identifier(word), word);
      if e.None? {
        e := ExpectToken(LeftBracket, "[");
      }
    }

    method NodeAttributes() returns (r: Result<NodeFields, Error>)
      requires Valid()
      modifies this, lexer
      ensures var b := NodeBody(old(Remaining()), NodeFields(None, None, map[]));
              if b.Err? then r == Err(b.error) else r == Ok(b.value.fields) && Valid() && Remaining() == b.value.rest
    {
      var id: Option<nat>, caption: Option<string>, attributes: map<string, string> := None, None, map[];
      while currentToken != RightBracket
        invariant Valid()
        invariant NodeBody(Remaining(), NodeFields(id, caption, attributes)) == NodeBody(old(Remaining()), NodeFields(None, None, map[]))
        decreases Remaining()
      {
        var field := KeyAndValue("attribute name in node");
        if field.Err? {
          return Err(field.error);
        }
        var (key, value) := field.value;
        if key == "id" {
          id := ParseU32(value);
          if id.None? {
            return Err(BadNumber("node id", value));
          }
        } else if key == "label" {
          caption := Some(value);
        } else {
          attributes := attributes[key := value];
        }
      }
      r := Ok(NodeFields(id, caption, attributes));
    }

    method NodeBlock() returns (r: Result<GmlNode, Error>)
      requires Valid()
      modifies this, lexer
      ensures var n := ParseNode(lexer.host, old(Remaining()));
              if n.Err? then r == Err(n.error) else r == Ok(n.value.fields) && Valid() && Remaining() == n.value.rest
    {
      var e := OpenBracket("node");
      if e.Some? {
        return Err(e.value);
      }
      var fields := NodeAttributes();
      if fields.Err? {
        return Err(fields.error);
      }
      e := ExpectToken(RightBracket, "]");
      if e.Some? {
        return Err(e.value);
      }
      r := MakeNode(lexer.host, fields.value);
    }

    method EdgeAttributes() returns (r: Result<EdgeFields, Error>)
      requires Valid()
      modifies this, lexer
      ensures var b := EdgeBody(lexer.host, old(Remaining()), EdgeFields(None, None, map[]));
              if b.Err? then r == Err(b.error) else r == Ok(b.value.fields) && Valid() && Remaining() == b.value.rest
    {
      var source: Option<nat>, target: Option<nat>, attributes: map<string, string> := None, None, map[];
      while currentToken != RightBracket
        invariant Valid()
        invariant EdgeBody(lexer.host, Remaining(), EdgeFields(source, target, attributes)) ==
                  EdgeBody(lexer.host, old(Remaining()), EdgeFields(None, None, map[]))
        decreases Remaining()
      {
        var field := KeyAndValue("attribute name in edge");
        if field.Err? {
          return Err(field.error);
        }
        var (key, value) := field.value;
        if key == "source" {
          source := ParseU32(value);
          if source.None? {
            return Err(BadNumber("edge source", value));
          }
        } else if key == "target" {
          target := ParseU32(value);
          if target.None? {
            return Err(BadNumber("edge target", value));
          }
        } else {
          attributes := attributes[key := LossValue(lexer.host, key, value)];
        }
      }
      r := Ok(EdgeFields(source, target, attributes));
    }

    method EdgeBlock() returns (r: Result<GmlEdge, Error>)
      requires Valid()
      modifies this, lexer
      ensures var n := ParseEdge(lexer.host, old(Remaining()));
              if n.Err? then r == Err(n.error) else r == Ok(n.value.fields) && Valid() && Remaining() == n.value.rest
    {
      var e := OpenBracket("edge");
      if e.Some? {
        return Err(e.value);
      }
      var fields := EdgeAttributes();
      if fields.Err? {
        return Err(fields.error);
      }
      e := ExpectToken(RightBracket, "]");
      if e.Some? {
        return Err(e.value);
      }
      r := MakeEdge(fields.value);
    }

    method GraphItems() returns (r: Result<GmlGraph, Error>)
      requires Valid()
      modifies this, lexer
      ensures var b := GraphBody(lexer.host, old(Remaining()), GmlGraph([], [], map[]));
              if b.Err? then r == Err(b.error) else r == Ok(b.value.fields) && Valid() && Remaining() == b.value.rest
    {
      var nodes: seq<GmlNode>, edges: seq<GmlEdge>, attributes: map<string, string> := [], [], map[];
      while currentToken != RightBracket
        invariant Valid()
        invariant GraphBody(lexer.host, Remaining(), GmlGraph(nodes, edges, attributes)) ==
                  GraphBody(lexer.host, old(Remaining()), GmlGraph([], [], map[]))
        decreases Remaining()
      {
        if currentToken == Identifier("node") {
          var n := NodeBlock();
          if n.Err? {
            return Err(n.error);
          }
          nodes := nodes + [n.value];
        } else if currentToken == Identifier("edge") {
          var n := EdgeBlock();
          if n.Err? {
            return Err(n.error);
          }
          edges := edges + [n.value];
        } else {
          var field := KeyAndValue("keyword in graph");
          if field.Err? {
            return Err(field.error);
          }
          attributes := attributes[field.value.0 := field.value.1];
        }
      }
      r := Ok(GmlGraph(nodes, edges, attributes));
    }

    method Graph() returns (r: Result<GmlGraph, Error>)
      requires Valid()
      modifies this, lexer
      ensures r == ParseGraph(lexer.host, old(Remaining()))
    {
      var e := OpenBracket("graph");
      if e.Some? {
        return Err(e.value);
      }
      var g := GraphItems();
      if g.Err? {
        return Err(g.error);
      }
      e := ExpectToken(RightBracket, "]");
      if e.Some? {
        return Err(e.value);
      }
      r := g;
    }
  }

  // A file's text to its graph, or to the first error.
  method ParseGmlText(host: Host, content: string) returns (r: Result<GmlGraph, Error>)
    ensures r == ParseGml(host, content)
  {
    var lexer := new Lexer(host, content);
    var first := lexer.Next();
    if first.Err? {
      return Err(first.error);
    }
    var parser := new Parser(lexer, first.value);
    r := parser.Graph();
  }
}
