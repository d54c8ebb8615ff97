// What the lexer does and does not care about: layout between tokens, and exactly which values
// survive being written with quotes or without.
module GmlLayout {
  import opened Basics
  import opened GmlSyntax

  // ---------------------------------------------------------------- layout

  // White space and whole comment lines.
  predicate IsLayout(h: Host, s: string)
    decreases |s|
  {
    s == [] || (h.white(s[0]) && IsLayout(h, s[1..]))
    || (s[0] == '#' && SkipLine(s) != [] && IsLayout(h, SkipLine(s)[1..]))
  }

  // Layout in front of a text is skipped.
  lemma {:induction false} LeadingLayout(h: Host, l: string, s: string)
    requires Sane(h) && IsLayout(h, l)
    ensures NextToken(h, l + s) == NextToken(h, s)
    decreases |l|
  {
    assert l != [] ==> SaneAt(h, l[0]);
    if l == [] {
      assert l + s == s;
    } else if h.white(l[0]) {
      assert (l + s)[0] == l[0] && (l + s)[1..] == l[1..] + s;
      LeadingLayout(h, l[1..], s);
      WhiteIsSkipped(h, l + s);
    } else {
      CommentEnds(l, s);
      WhiteIsSkipped(h, l + s);
      WhiteIsSkipped(h, SkipLine(l) + s);
      assert (SkipLine(l) + s)[1..] == SkipLine(l)[1..] + s;
      LeadingLayout(h, SkipLine(l)[1..], s);
    }
  }

  lemma WhiteIsSkipped(h: Host, s: string)
    requires Sane(h) && s != []
    ensures h.white(s[0]) ==> NextToken(h, s) == NextToken(h, s[1..])
    ensures s[0] == '\n' ==> h.white(s[0])
    ensures s[0] == '#' ==> NextToken(h, s) == NextToken(h, SkipLine(s))
  {
    assert SaneAt(h, s[0]);
  }

  // What a quote or a bracket in front decides.
  lemma MarkInFront(h: Host, s: string)
    requires Sane(h) && s != []
    ensures s[0] == '[' ==> NextToken(h, s) == Ok(Lexed(LeftBracket, s[1..]))
    ensures s[0] == ']' ==> NextToken(h, s) == Ok(Lexed(RightBracket, s[1..]))
    ensures s[0] == '"' ==> NextToken(h, s) == var q := ReadString(s[1..]); if q.None? then Err(Unterminated) else Ok(Lexed(Str(q.value.text), q.value.rest))
  {
    assert SaneAt(h, s[0]);
  }

  // A comment that ends before the seam is the same comment whatever follows.
  lemma {:induction false} CommentEnds(c: string, s: string)
    requires SkipLine(c) != []
    ensures SkipLine(c + s) == SkipLine(c) + s && SkipLine(c)[0] == '\n'
    decreases |c|
  {
    if c[0] != '\n' {
      assert (c + s)[1..] == c[1..] + s;
      CommentEnds(c[1..], s);
    }
  }

  lemma TokensAfterLayout(h: Host, l: string, s: string)
    requires Sane(h) && IsLayout(h, l)
    ensures Tokens(h, l + s) == Tokens(h, s)
  {
    LeadingLayout(h, l, s);
  }

  // ---------------------------------------------------------------- a token depends on its own text

  // `after` may take the place of `s` behind a token: a word cannot run on into it.
  predicate Fits(h: Host, s: string, after: string) {
    after == [] || !WordChar(h, after[0]) || (s != [] && s[0] == after[0])
  }

  lemma {:induction false} WordEnds(h: Host, w: string, s: string)
    requires (forall i :: 0 <= i < |w| ==> WordChar(h, w[i])) && (s == [] || !WordChar(h, s[0]))
    ensures WordLength(h, w + s) == |w|
    decreases |w|
  {
    if w != [] {
      assert (w + s)[1..] == w[1..] + s;
      WordEnds(h, w[1..], s);
    } else {
      assert w + s == s;
    }
  }

  lemma {:induction false} WordIsWord(h: Host, s: string)
    ensures forall i :: 0 <= i < WordLength(h, s) ==> WordChar(h, s[i])
    ensures WordLength(h, s) < |s| ==> !WordChar(h, s[WordLength(h, s)])
    decreases |s|
  {
    if s != [] && WordChar(h, s[0]) {
      WordIsWord(h, s[1..]);
    }
  }

  lemma {:induction false} QuotedEnds(c: string, s: string, after: string)
    requires ReadString(c + s).Some? && ReadString(c + s).value.rest == s
    ensures ReadString(c + after) == Some(Quoted(ReadString(c + s).value.text, after))
    decreases |c|
  {
    assert c == [] ==> c + s == s;
    if c != [] && c[0] == '"' {
      assert (c + s)[1..] == c[1..] + s;
      assert |c| == 1;
      assert (c + after)[1..] == after;
    } else if c != [] && c[0] == '\\' {
      if |c| > 1 {
        assert (c + s)[2..] == c[2..] + s && (c + after)[2..] == c[2..] + after;
        QuotedEnds(c[2..], s, after);
      }
    } else if c != [] {
      assert (c + s)[1..] == c[1..] + s && (c + after)[1..] == c[1..] + after;
      QuotedEnds(c[1..], s, after);
    }
  }

  // The token read from c + s, when it leaves s, is also read from c + after, and leaves after.
  lemma {:induction false} TokenIsLocal(h: Host, c: string, s: string, after: string)
    requires Sane(h) && Fits(h, s, after)
    requires NextToken(h, c + s).Ok? && !NextToken(h, c + s).value.token.Eof? && NextToken(h, c + s).value.rest == s
    ensures NextToken(h, c + after) == Ok(Lexed(NextToken(h, c + s).value.token, after))
    decreases |c|
  {
    assert c == [] ==> c + s == s;
    var x := c[0];
    assert (c + s)[0] == x == (c + after)[0];
    WhiteIsSkipped(h, c + s);
    WhiteIsSkipped(h, c + after);
    if h.white(x) {
      assert (c + s)[1..] == c[1..] + s && (c + after)[1..] == c[1..] + after;
      TokenIsLocal(h, c[1..], s, after);
    } else if x == '#' {
      CommentInside(h, c, s);
      CommentEnds(c, s);
      CommentEnds(c, after);
      TokenIsLocal(h, SkipLine(c), s, after);
    } else if x == '"' {
      QuotedIsLocal(h, c, s, after);
    } else if x == '[' || x == ']' {
      BracketIsLocal(h, c, s, after);
    } else {
      WordIsLocal(h, c, s, after);
    }
  }

  lemma {:induction false} QuotedIsLocal(h: Host, c: string, s: string, after: string)
    requires Sane(h) && c != [] && c[0] == '"'
    requires NextToken(h, c + s).Ok? && NextToken(h, c + s).value.rest == s
    ensures NextToken(h, c + after) == Ok(Lexed(NextToken(h, c + s).value.token, after))
  {
    assert (c + s)[1..] == c[1..] + s && (c + after)[1..] == c[1..] + after;
    MarkInFront(h, c + s);
    MarkInFront(h, c + after);
    QuotedEnds(c[1..], s, after);
  }

  lemma BracketIsLocal(h: Host, c: string, s: string, after: string)
    requires Sane(h) && c != [] && (c[0] == '[' || c[0] == ']')
    requires NextToken(h, c + s).Ok? && NextToken(h, c + s).value.rest == s
    ensures NextToken(h, c + after) == Ok(Lexed(NextToken(h, c + s).value.token, after))
  {
    MarkInFront(h, c + s);
    MarkInFront(h, c + after);
    assert (c + s)[1..] == c[1..] + s && |c| == 1;
    assert (c + after)[1..] == after;
  }

  lemma WordIsLocal(h: Host, c: string, s: string, after: string)
    requires Fits(h, s, after) && c != [] && WordChar(h, c[0])
    requires (c + s)[WordLength(h, c + s)..] == s
    ensures WordLength(h, c + s) == WordLength(h, c + after) == |c|
    ensures (c + s)[..|c|] == (c + after)[..|c|] == c && (c + after)[|c|..] == after
  {
    var n := WordLength(h, c + s);
    assert n == |c|;
    WordIsWord(h, c + s);
    assert forall i :: 0 <= i < |c| ==> c[i] == (c + s)[i];
    WordEnds(h, c, after);
  }

  // The comment in front of a token that leaves s ends before s.
  lemma CommentInside(h: Host, c: string, s: string)
    requires c != [] && c[0] == '#' && NextToken(h, c + s) == NextToken(h, SkipLine(c + s))
    requires NextToken(h, c + s).Ok? && !NextToken(h, c + s).value.token.Eof? && NextToken(h, c + s).value.rest == s
    ensures SkipLine(c) != [] && |SkipLine(c)| < |c|
  {
    if SkipLine(c) == [] {
      CommentRunsOn(c, s);
    }
  }

  lemma {:induction false} CommentRunsOn(c: string, s: string)
    requires SkipLine(c) == []
    ensures SkipLine(c + s) == SkipLine(s)
    decreases |c|
  {
    if c == [] {
      assert c + s == s;
    } else {
      assert (c + s)[1..] == c[1..] + s;
      CommentRunsOn(c[1..], s);
    }
  }

  // ---------------------------------------------------------------- layout anywhere

  // What is left of the text after its first n tokens.
  function After(h: Host, s: string, n: nat): Option<string>
    decreases n
  {
    if n == 0 then Some(s)
    else
      var r := NextToken(h, s);
      if r.Err? || r.value.token.Eof? then None else After(h, r.value.rest, n - 1)
  }

  lemma AfterFirst(h: Host, s: string, n: nat)
    requires 0 < n && After(h, s, n).Some?
    ensures NextToken(h, s).Ok? && !NextToken(h, s).value.token.Eof?
    ensures After(h, s, n) == After(h, NextToken(h, s).value.rest, n - 1)
  {
  }

  lemma Joined(s: string, c: string, t: string, b: string, r: string)
    requires s == c + t && t == b + r
    ensures s == (c + b) + r
  {
  }

  lemma {:induction false} AfterIsSuffix(h: Host, s: string, n: nat) returns (a: string)
    requires Sane(h) && After(h, s, n).Some?
    ensures s == a + After(h, s, n).value
    decreases n
  {
    a := [];
    if n > 0 {
      AfterFirst(h, s, n);
      var t := NextToken(h, s).value.rest;
      var c := TokenIsPrefix(h, s);
      var b := AfterIsSuffix(h, t, n - 1);
      Joined(s, c, t, b, After(h, s, n).value);
      a := c + b;
    }
  }

  lemma {:induction false} TokenIsPrefix(h: Host, s: string) returns (c: string)
    requires Sane(h) && NextToken(h, s).Ok?
    ensures s == c + NextToken(h, s).value.rest
    decreases |s|
  {
    if s != [] {
      WhiteIsSkipped(h, s);
    }
    if s != [] && h.white(s[0]) {
      c := TokenIsPrefix(h, s[1..]);
      c := [s[0]] + c;
    } else if s != [] && s[0] == '#' {
      var line := SkipLineIsSuffix(s);
      c := TokenIsPrefix(h, SkipLine(s));
      c := line + c;
    } else {
      c := BareTokenIsPrefix(h, s, NextToken(h, s).value.rest);
    }
  }

  lemma BareTokenIsPrefix(h: Host, t: string, rest: string) returns (c: string)
    requires t == [] ==> rest == []
    requires t != [] && (t[0] == '[' || t[0] == ']') ==> rest == t[1..]
    requires t != [] && t[0] == '"' ==> ReadString(t[1..]).Some? && rest == ReadString(t[1..]).value.rest
    requires t != [] && t[0] != '[' && t[0] != ']' && t[0] != '"' ==> rest == t[WordLength(h, t)..]
    ensures t == c + rest
  {
    if t == [] {
      c := [];
    } else if t[0] == '"' {
      var q := ReadStringIsSuffix(t[1..]);
      c := [t[0]] + q;
    } else {
      c := t[..|t| - |rest|];
    }
  }

  lemma {:induction false} SkipLineIsSuffix(s: string) returns (c: string)
    ensures s == c + SkipLine(s)
    decreases |s|
  {
    c := [];
    if s != [] && s[0] != '\n' {
      c := SkipLineIsSuffix(s[1..]);
      c := [s[0]] + c;
    }
  }

  lemma {:induction false} ReadStringIsSuffix(s: string) returns (c: string)
    requires ReadString(s).Some?
    ensures s == c + ReadString(s).value.rest
    decreases |s|
  {
    if s[0] == '"' {
      c := [s[0]];
    } else if s[0] == '\\' {
      c := ReadStringIsSuffix(s[2..]);
      c := s[..2] + c;
    } else {
      c := ReadStringIsSuffix(s[1..]);
      c := [s[0]] + c;
    }
  }

  // Reading one token of a + r leaves b + r, where b is the rest of a.
  lemma {:induction false} SplitToken(h: Host, a: string, r: string, n: nat) returns (c: string, b: string)
    requires Sane(h) && 0 < n && After(h, a + r, n) == Some(r)
    ensures a == c + b && NextToken(h, a + r).Ok? && NextToken(h, a + r).value.rest == b + r
  {
    var s1 := NextToken(h, a + r).value.rest;
    b := AfterIsSuffix(h, s1, n - 1);
    c := TokenIsPrefix(h, a + r);
    SamePrefix(a, c, b, r);
  }

  lemma SamePrefix(a: string, c: string, b: string, r: string)
    requires a + r == c + (b + r)
    ensures a == c + b
  {
    assert c + (b + r) == (c + b) + r;
    assert |a| == |c + b|;
    assert (a + r)[..|a|] == a && ((c + b) + r)[..|a|] == c + b;
  }

  // The first token of a + s is also that of a + t, when t may take the place of s.
  lemma {:induction false} SameFirstToken(h: Host, a: string, c: string, b: string, s: string, t: string)
    requires Sane(h) && Fits(h, s, t) && a == c + b
    requires NextToken(h, a + s).Ok? && !NextToken(h, a + s).value.token.Eof? && NextToken(h, a + s).value.rest == b + s
    ensures NextToken(h, a + t) == Ok(Lexed(NextToken(h, a + s).value.token, b + t))
  {
    assert b == [] ==> b + s == s && b + t == t;
    assert b != [] ==> (b + s)[0] == b[0] == (b + t)[0];
    assert Fits(h, b + s, b + t);
    assert c + (b + s) == a + s && c + (b + t) == a + t;
    TokenIsLocal(h, c, b + s, b + t);
  }

  // Text s begins with token tok, which leaves rest.
  ghost predicate Reads(h: Host, s: string, tok: Token, rest: string) {
    NextToken(h, s) == Ok(Lexed(tok, rest)) && !tok.Eof?
  }

  lemma TokensOfRead(h: Host, s: string, tok: Token, rest: string)
    requires Reads(h, s, tok, rest)
    ensures Tokens(h, s) == More(tok, Tokens(h, rest))
  {
  }

  // The first of n tokens, and what stays behind it when the tail is replaced.
  lemma FirstRead(h: Host, a: string, s: string, t: string, n: nat) returns (tok: Token, b: string)
    requires Sane(h) && Fits(h, s, t) && 0 < n && After(h, a + s, n) == Some(s)
    ensures Reads(h, a + s, tok, b + s) && Reads(h, a + t, tok, b + t)
    ensures After(h, b + s, n - 1) == Some(s)
  {
    AfterFirst(h, a + s, n);
    var c;
    c, b := SplitToken(h, a, s, n);
    tok := NextToken(h, a + s).value.token;
    SameFirstToken(h, a, c, b, s, t);
  }

  lemma NoFront(a: string, s: string, t: string)
    requires a + s == s
    ensures a + t == t
  {
    assert |a + s| == |s|;
  }

  // Behind any number of tokens the text may be replaced by one with the same tokens.
  lemma {:induction false} TailReplaced(h: Host, a: string, s: string, t: string, n: nat)
    requires Sane(h) && Fits(h, s, t) && Tokens(h, s) == Tokens(h, t) && After(h, a + s, n) == Some(s)
    ensures Tokens(h, a + t) == Tokens(h, a + s)
    decreases n
  {
    if n == 0 {
      NoFront(a, s, t);
    } else {
      var tok, b := FirstRead(h, a, s, t, n);
      TailReplaced(h, b, s, t, n - 1);
      TokensOfRead(h, a + s, tok, b + s);
      TokensOfRead(h, a + t, tok, b + t);
    }
  }

  lemma LayoutFits(h: Host, w: string, l: string, r: string)
    requires Sane(h) && IsLayout(h, l)
    ensures Fits(h, w + r, w + (l + r))
  {
    assert l != [] ==> SaneAt(h, l[0]);
    if w != [] {
      assert (w + r)[0] == w[0] == (w + (l + r))[0];
    } else if l != [] {
      assert w + (l + r) == l + r && (l + r)[0] == l[0];
    } else {
      assert w + (l + r) == w + r;
    }
  }

  // Layout put in anywhere between two tokens, whatever layout stands there already, changes no
  // token ...
  lemma {:induction false} LayoutAnywhere(h: Host, a: string, w: string, l: string, r: string, n: nat)
    requires Sane(h) && IsLayout(h, w) && IsLayout(h, l) && After(h, a + (w + r), n) == Some(w + r)
    ensures Tokens(h, a + (w + (l + r))) == Tokens(h, a + (w + r))
  {
    TokensAfterLayout(h, w, r);
    TokensAfterLayout(h, w, l + r);
    TokensAfterLayout(h, l, r);
    LayoutFits(h, w, l, r);
    TailReplaced(h, a, w + r, w + (l + r), n);
  }

  // ... so the parser gives the same graph, or the same error.
  lemma {:induction false} LayoutIsInvisible(h: Host, a: string, w: string, l: string, r: string, n: nat)
    requires Sane(h) && IsLayout(h, w) && IsLayout(h, l) && After(h, a + (w + r), n) == Some(w + r)
    ensures ParseGml(h, a + (w + (l + r))) == ParseGml(h, a + (w + r))
  {
    LayoutAnywhere(h, a, w, l, r, n);
  }
}
