// Which attribute values come back unchanged when they are written between quotes, and which when
// they are written bare.  The writer never escapes anything.
module GmlValues {
  import opened Basics
  import opened GmlSyntax
  import opened GmlLayout

  // ---------------------------------------------------------------- between quotes

  predicate IsEscape(c: char) {
    c == 'n' || c == 't' || c == 'r' || c == '\\' || c == '"'
  }

  // No quote, and no backslash that the reader would take as the start of an escape.
  predicate QuotedSafe(v: string) {
    forall i :: 0 <= i < |v| ==> SafeAt(v, i)
  }

  predicate SafeAt(v: string, i: nat)
    requires i < |v|
  {
    v[i] != '"' && (v[i] == '\\' ==> i + 1 < |v| && !IsEscape(v[i + 1]))
  }

  lemma QuotedSafeTail(v: string, k: nat)
    requires QuotedSafe(v) && k <= |v|
    ensures QuotedSafe(v[k..])
  {
    forall i | 0 <= i < |v[k..]| ensures SafeAt(v[k..], i) {
      assert SafeAt(v, k + i);
    }
  }

  lemma {:induction false} SafeIsRead(v: string, s: string)
    requires QuotedSafe(v)
    ensures ReadString(v + "\"" + s) == Some(Quoted(v, s))
    decreases |v|
  {
    var t := v + "\"" + s;
    if v == [] {
      assert t == "\"" + s && t[1..] == s;
    } else {
      assert t[0] == v[0] && SafeAt(v, 0);
      if v[0] == '\\' {
        assert t[1] == v[1] && t[2..] == v[2..] + "\"" + s;
        QuotedSafeTail(v, 2);
        SafeIsRead(v[2..], s);
        assert v == ['\\', v[1]] + v[2..];
      } else {
        assert t[1..] == v[1..] + "\"" + s;
        QuotedSafeTail(v, 1);
        SafeIsRead(v[1..], s);
        assert v == [v[0]] + v[1..];
      }
    }
  }

  lemma {:induction false} ReadIsSafe(v: string, s: string)
    requires ReadString(v + "\"" + s) == Some(Quoted(v, s))
    ensures QuotedSafe(v)
    decreases |v|
  {
    var t := v + "\"" + s;
    if v != [] {
      assert t[0] == v[0];
      if v[0] == '\\' {
        ReadEscape(v, s);
        ReadIsSafe(v[2..], s);
        SafeWithEscape(v);
      } else if v[0] != '"' {
        assert t[1..] == v[1..] + "\"" + s;
        assert ReadString(t[1..]).value.text == v[1..];
        ReadIsSafe(v[1..], s);
        SafeWithPlain(v);
      }
    }
  }

  lemma EscapeLength(c: char)
    ensures |Escaped(c)| == if IsEscape(c) then 1 else 2
  {
  }

  // Reading back a value that starts with a backslash.
  lemma {:induction false} ReadEscape(v: string, s: string)
    requires v != [] && v[0] == '\\' && ReadString(v + "\"" + s) == Some(Quoted(v, s))
    ensures 1 < |v| && !IsEscape(v[1])
    ensures ReadString(v[2..] + "\"" + s) == Some(Quoted(v[2..], s))
  {
    var t := v + "\"" + s;
    var r := ReadString(t[2..]);
    assert t[0] == '\\' && t[1] == if |v| == 1 then '"' else v[1];
    EscapeLength(t[1]);
    assert v == Escaped(t[1]) + r.value.text;
    if |v| > 1 {
      assert t[2..] == v[2..] + "\"" + s;
      assert |r.value.text| < |v| - 1;
      assert v[2..] == r.value.text;
    }
  }

  lemma SafeWithEscape(v: string)
    requires 1 < |v| && v[0] == '\\' && !IsEscape(v[1]) && QuotedSafe(v[2..])
    ensures QuotedSafe(v)
  {
    forall i | 0 <= i < |v| ensures SafeAt(v, i) {
      if i >= 2 {
        assert SafeAt(v[2..], i - 2);
      }
    }
  }

  lemma SafeWithPlain(v: string)
    requires v != [] && v[0] != '"' && v[0] != '\\' && QuotedSafe(v[1..])
    ensures QuotedSafe(v)
  {
    forall i | 0 <= i < |v| ensures SafeAt(v, i) {
      if i >= 1 {
        assert SafeAt(v[1..], i - 1);
      }
    }
  }

  // The quoted value is read back exactly when it is safe: for every value, both ways.
  lemma QuotedExact(h: Host, v: string, s: string)
    requires Sane(h)
    ensures NextToken(h, "\"" + v + "\"" + s) == Ok(Lexed(Str(v), s)) <==> QuotedSafe(v)
  {
    var t := "\"" + v + "\"" + s;
    assert t[0] == '"' && t[1..] == v + "\"" + s;
    MarkInFront(h, t);
    if QuotedSafe(v) { SafeIsRead(v, s); }
    if ReadString(v + "\"" + s) == Some(Quoted(v, s)) { ReadIsSafe(v, s); }
  }

  // ---------------------------------------------------------------- bare

  predicate AllWord(h: Host, w: string) {
    forall i :: 0 <= i < |w| ==> WordChar(h, w[i])
  }

  // A single identifier or number token.
  predicate IsWord(h: Host, w: string) {
    w != [] && AllWord(h, w) && (StartsIdentifier(h, w[0]) || StartsNumber(h, w[0]))
  }

  predicate IsIdentifier(h: Host, w: string) {
    w != [] && AllWord(h, w) && StartsIdentifier(h, w[0])
  }

  function WordToken(h: Host, w: string): Token
    requires w != []
  {
    if StartsIdentifier(h, w[0]) then Identifier(w) else Number(w)
  }

  lemma WordIsRead(h: Host, w: string, s: string)
    requires Sane(h) && IsWord(h, w) && (s == [] || !WordChar(h, s[0]))
    ensures NextToken(h, w + s) == Ok(Lexed(WordToken(h, w), s))
  {
    assert (w + s)[0] == w[0] && SaneAt(h, w[0]);
    WordEnds(h, w, s);
    assert (w + s)[..|w|] == w && (w + s)[|w|..] == s;
  }

  lemma {:induction false} SkipWhiteIsSuffix(h: Host, s: string) returns (c: string)
    ensures s == c + SkipWhite(h, s)
    decreases |s|
  {
    c := [];
    if s != [] && h.white(s[0]) {
      c := SkipWhiteIsSuffix(h, s[1..]);
      c := [s[0]] + c;
    }
  }

  ghost predicate TextWithin(h: Host, s: string, text: string, rest: string) {
    && |text| + |rest| <= |s|
    && (|text| + |rest| == |s| ==> s == text + rest && IsWord(h, text))
  }

  lemma {:induction false} BareText(h: Host, t: string, n: nat)
    requires t != [] && (StartsIdentifier(h, t[0]) || StartsNumber(h, t[0])) && n == WordLength(h, t)
    ensures TextWithin(h, t, t[..n], t[n..]) && 0 < n
  {
    WordIsWord(h, t);
    assert t == t[..n] + t[n..];
  }

  // A token's text is never longer than what was read for it, and as long only for a bare word.
  lemma {:induction false} TokenText(h: Host, s: string)
    requires Sane(h) && NextToken(h, s).Ok? && IsValue(NextToken(h, s).value.token)
    ensures TextWithin(h, s, NextToken(h, s).value.token.text, NextToken(h, s).value.rest)
    decreases |s|
  {
    var t := SkipWhite(h, s);
    var white := SkipWhiteIsSuffix(h, s);
    assert white == [] ==> t == s;
    if t[0] == '#' {
      TokenText(h, SkipLine(t));
    } else if t[0] != '"' {
      BareText(h, t, WordLength(h, t));
    }
  }

  // The bare value is read back exactly when it is one word.
  lemma BareExact(h: Host, w: string, s: string)
    requires Sane(h)
    ensures (NextToken(h, w + "\n" + s).Ok? && IsValue(NextToken(h, w + "\n" + s).value.token)
             && NextToken(h, w + "\n" + s).value.token.text == w && NextToken(h, w + "\n" + s).value.rest == "\n" + s)
            <==> IsWord(h, w)
  {
    var t := w + "\n" + s;
    assert t == w + ("\n" + s) && SaneAt(h, '\n');
    if IsWord(h, w) {
      WordIsRead(h, w, "\n" + s);
    }
    if NextToken(h, t).Ok? && IsValue(NextToken(h, t).value.token) {
      TokenText(h, t);
    }
  }

  // ---------------------------------------------------------------- numbers

  function ShowNat(n: nat): (s: string)
    ensures s != [] && Digits(s) && DigitsValue(s) == n
  {
    var last := [('0' as int + n % 10) as char];
    if n < 10 then
      assert last[..0] == [];
      last
    else
      var s := ShowNat(n / 10) + last;
      assert s[..|s| - 1] == ShowNat(n / 10);
      s
  }

  lemma ShownNumberIsRead(h: Host, n: nat)
    requires Sane(h)
    ensures IsWord(h, ShowNat(n))
    ensures n < U32 ==> ParseU32(ShowNat(n)) == Some(n)
  {
    var s := ShowNat(n);
    assert IsDigit(s[0]) && s[0] != '+';
    assert forall i :: 0 <= i < |s| ==> SaneAt(h, s[i]);
  }
}
