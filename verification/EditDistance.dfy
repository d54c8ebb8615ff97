// The two-row edit distance of the log processor and the similarity score built on it.
//
// `Lev` is the textbook recurrence.  The imperative method is proved equal to it, and the
// recurrence itself is proved to be the least number of single-character edits that turn one
// string into the other, so nothing here rests on the shape of the recurrence.
module EditDistance {
  import opened Basics

  // ---------------------------------------------------------------- the recurrence

  function Cost(c: char, d: char): nat {
    if c == d then 0 else 1
  }

  function Min3(a: nat, b: nat, c: nat): nat {
    Min(a, Min(b, c))
  }

  function Init(s: string): string
    requires s != []
  {
    s[..|s| - 1]
  }

  function Last(s: string): char
    requires s != []
  {
    s[|s| - 1]
  }

  function Lev(a: string, b: string): nat
    decreases |a| + |b|
  {
    if a == [] then |b|
    else if b == [] then |a|
    else Min3(Lev(Init(a), b) + 1, Lev(a, Init(b)) + 1, Lev(Init(a), Init(b)) + Cost(Last(a), Last(b)))
  }

  // ---------------------------------------------------------------- metric laws

  lemma {:induction false} LevSymmetric(a: string, b: string)
    ensures Lev(a, b) == Lev(b, a)
    decreases |a| + |b|
  {
    if a != [] && b != [] {
      LevSymmetric(Init(a), b);
      LevSymmetric(a, Init(b));
      LevSymmetric(Init(a), Init(b));
    }
  }

  // Dropping or adding one final character costs at most one.
  lemma {:induction false} LevStep(a: string, b: string)
    ensures a != [] ==> Lev(a, b) <= Lev(Init(a), b) + 1
    ensures b != [] ==> Lev(a, b) <= Lev(a, Init(b)) + 1
    ensures a != [] && b != [] ==> Lev(a, b) <= Lev(Init(a), Init(b)) + Cost(Last(a), Last(b))
  {
  }

  lemma {:induction false} LevBounds(a: string, b: string)
    ensures Lev(a, b) <= Max(|a|, |b|)
    ensures |a| - |b| <= Lev(a, b) && |b| - |a| <= Lev(a, b)
    decreases |a| + |b|
  {
    if a != [] && b != [] {
      LevBounds(Init(a), b);
      LevBounds(a, Init(b));
      LevBounds(Init(a), Init(b));
    }
  }

  lemma {:induction false} LevZeroIffEqual(a: string, b: string)
    ensures Lev(a, b) == 0 <==> a == b
    decreases |a| + |b|
  {
    if a != [] && b != [] {
      LevZeroIffEqual(Init(a), Init(b));
      assert a == Init(a) + [Last(a)] && b == Init(b) + [Last(b)];
    }
  }

  lemma {:induction false} LevTriangle(a: string, b: string, c: string)
    ensures Lev(a, c) <= Lev(a, b) + Lev(b, c)
    decreases |a| + |b| + |c|
  {
    LevStep(a, c);
    if a == [] || c == [] {
      LevBounds(a, b);
      LevBounds(b, c);
    } else if b == [] {
      LevBounds(a, c);
    } else if Lev(a, b) == Lev(Init(a), b) + 1 {
      LevTriangle(Init(a), b, c);
    } else if Lev(b, c) == Lev(b, Init(c)) + 1 {
      LevTriangle(a, b, Init(c));
    } else {
      LevTriangle(a, Init(b), c);
      LevTriangle(a, Init(b), Init(c));
      LevTriangle(Init(a), Init(b), c);
      LevTriangle(Init(a), Init(b), Init(c));
    }
  }

  // ---------------------------------------------------------------- what the number means

  datatype Edit = Insert(at: nat, c: char) | Delete(at: nat) | Replace(at: nat, c: char)

  predicate Applies(e: Edit, s: string) {
    if e.Insert? then e.at <= |s| else e.at < |s|
  }

  function Apply(e: Edit, s: string): string
    requires Applies(e, s)
  {
    match e
    case Insert(k, c) => s[..k] + [c] + s[k..]
    case Delete(k) => s[..k] + s[k + 1..]
    case Replace(k, c) => s[..k] + [c] + s[k + 1..]
  }

  // The string an edit script produces, when every edit of it lands inside the string.
  function Run(script: seq<Edit>, s: string): Option<string> {
    if script == [] then Some(s)
    else if !Applies(script[0], s) then None
    else Run(script[1..], Apply(script[0], s))
  }

  lemma {:induction false} RunConcat(p: seq<Edit>, q: seq<Edit>, s: string)
    requires Run(p, s).Some?
    ensures Run(p + q, s) == Run(q, Run(p, s).value)
    decreases |p|
  {
    if p == [] {
      assert p + q == q;
    } else {
      assert (p + q)[1..] == p[1..] + q;
      RunConcat(p[1..], q, Apply(p[0], s));
    }
  }

  // A script that works on s works on s with one more character at the end.
  lemma {:induction false} RunUnderSuffix(p: seq<Edit>, s: string, x: char)
    requires Run(p, s).Some?
    ensures Run(p, s + [x]) == Some(Run(p, s).value + [x])
    decreases |p|
  {
    if p != [] {
      assert Apply(p[0], s + [x]) == Apply(p[0], s) + [x];
      RunUnderSuffix(p[1..], Apply(p[0], s), x);
    }
  }

  lemma SnocParts(a: string, u: string, c: char)
    requires a == u + [c]
    ensures a != [] && Init(a) == u && Last(a) == c
  {
  }

  // Equal last characters do not add to the distance.
  lemma {:induction false} LevSameLast(a: string, b: string)
    requires a != [] && b != [] && Last(a) == Last(b)
    ensures Lev(a, b) <= Lev(Init(a), Init(b))
  {
    LevStep(a, b);
  }

  lemma {:induction false} LevSameTail(a: string, b: string, u: string, w: string, tail: string)
    requires a == u + tail && b == w + tail
    ensures Lev(a, b) <= Lev(u, w)
    decreases |tail|
  {
    if tail == [] {
      assert a == u && b == w;
    } else {
      TailParts(a, u, tail);
      TailParts(b, w, tail);
      LevSameTail(Init(a), Init(b), u, w, Init(tail));
      LevSameLast(a, b);
    }
  }

  lemma TailParts(a: string, u: string, tail: string)
    requires tail != [] && a == u + tail
    ensures a != [] && Init(a) == u + Init(tail) && Last(a) == Last(tail)
  {
  }

  // At most one character more than u.
  ghost predicate OneMore(a: string, u: string) {
    a == u || (a != [] && Init(a) == u)
  }

  lemma {:induction false} LevOfOneEnding(a: string, b: string, u: string)
    requires OneMore(a, u) && OneMore(b, u)
    ensures Lev(a, b) <= 1
  {
    LevZeroIffEqual(u, u);
    LevStep(a, b);
  }

  lemma OneMoreOf(u: string, p: string)
    requires |p| <= 1
    ensures OneMore(u + p, u)
  {
    if p == [] {
      assert u + p == u;
    } else {
      assert Init(u + p) == u;
    }
  }

  // Two strings that differ in one piece of at most one character are at distance at most one.
  lemma {:induction false} LevOfOnePiece(a: string, b: string, u: string, p: string, q: string, tail: string)
    requires |p| <= 1 && |q| <= 1 && a == u + p + tail && b == u + q + tail
    ensures Lev(a, b) <= 1
  {
    OneMoreOf(u, p);
    OneMoreOf(u, q);
    var x, y := u + p, u + q;
    LevOfOneEnding(x, y, u);
    LevSameTail(a, b, x, y, tail);
  }

  lemma {:induction false} LevOfOneEdit(e: Edit, s: string)
    requires Applies(e, s)
    ensures Lev(s, Apply(e, s)) <= 1
  {
    var t := Apply(e, s);
    match e
    case Insert(k, c) => LevOfOnePiece(s, t, s[..k], [], [c], s[k..]);
    case Delete(k) => LevOfOnePiece(s, t, s[..k], [s[k]], [], s[k + 1..]);
    case Replace(k, c) => LevOfOnePiece(s, t, s[..k], [s[k]], [c], s[k + 1..]);
  }

  // No script is shorter than the distance ...
  lemma {:induction false} NoScriptIsShorter(script: seq<Edit>, a: string, b: string)
    requires Run(script, a) == Some(b)
    ensures Lev(a, b) <= |script|
    decreases |script|
  {
    if script == [] {
      LevZeroIffEqual(a, b);
    } else {
      var next := Apply(script[0], a);
      NoScriptIsShorter(script[1..], next, b);
      LevOfOneEdit(script[0], a);
      LevTriangle(a, next, b);
    }
  }

  lemma {:induction false} RunThen(p: seq<Edit>, e: Edit, s: string)
    requires Run(p, s).Some? && Applies(e, Run(p, s).value)
    ensures Run(p + [e], s) == Some(Apply(e, Run(p, s).value))
  {
    RunConcat(p, [e], s);
    assert Run([e][1..], Apply(e, Run(p, s).value)) == Some(Apply(e, Run(p, s).value));
  }

  lemma {:induction false} AppendLast(p: seq<Edit>, a: string, b: string)
    requires b != [] && Run(p, a) == Some(Init(b))
    ensures Run(p + [Insert(|b| - 1, Last(b))], a) == Some(b)
  {
    RunThen(p, Insert(|b| - 1, Last(b)), a);
    assert Apply(Insert(|b| - 1, Last(b)), Init(b)) == b;
  }

  lemma {:induction false} DropLastFirst(p: seq<Edit>, a: string, b: string)
    requires a != [] && Run(p, Init(a)) == Some(b)
    ensures Run([Delete(|a| - 1)] + p, a) == Some(b)
  {
    assert Apply(Delete(|a| - 1), a) == Init(a);
    assert ([Delete(|a| - 1)] + p)[1..] == p;
  }

  lemma {:induction false} KeepLast(p: seq<Edit>, a: string, b: string)
    requires a != [] && Run(p, Init(a)) == Some(b)
    ensures Run(p, a) == Some(b + [Last(a)])
  {
    KeepSuffix(p, Init(a), Last(a), a, b);
  }

  lemma KeepSuffix(p: seq<Edit>, s: string, c: char, a: string, b: string)
    requires a == s + [c] && Run(p, s) == Some(b)
    ensures Run(p, a) == Some(b + [c])
  {
    RunUnderSuffix(p, s, c);
  }

  lemma {:induction false} ExchangeLast(p: seq<Edit>, a: string, b: string) returns (script: seq<Edit>)
    requires a != [] && b != [] && Run(p, Init(a)) == Some(Init(b))
    ensures Run(script, a) == Some(b) && |script| == |p| + Cost(Last(a), Last(b))
  {
    KeepLast(p, a, Init(b));
    var mid, e := Init(b) + [Last(a)], Replace(|b| - 1, Last(b));
    if Last(a) == Last(b) {
      assert mid == b;
      script := p;
    } else {
      RunThen(p, e, a);
      assert Apply(e, mid) == b;
      script := p + [e];
    }
  }

  // Which of the three neighbours a distance comes from.
  datatype Origin = Inserted | Deleted | Exchanged

  lemma {:induction false} LevOrigin(a: string, b: string) returns (o: Origin)
    requires a != [] || b != []
    ensures o == Inserted ==> b != [] && Lev(a, b) == Lev(a, Init(b)) + 1
    ensures o == Deleted ==> a != [] && Lev(a, b) == Lev(Init(a), b) + 1
    ensures o == Exchanged ==> a != [] && b != [] && Lev(a, b) == Lev(Init(a), Init(b)) + Cost(Last(a), Last(b))
  {
    if a == [] {
      o := Inserted;
    } else if b == [] {
      o := Deleted;
    } else {
      o := if Lev(a, b) == Lev(a, Init(b)) + 1 then Inserted
           else if Lev(a, b) == Lev(Init(a), b) + 1 then Deleted
           else Exchanged;
    }
  }

  // ... and one script reaches it.
  lemma {:induction false} SomeScriptReaches(a: string, b: string) returns (script: seq<Edit>)
    ensures Run(script, a) == Some(b)
    ensures |script| == Lev(a, b)
    decreases |a| + |b|
  {
    if a == [] && b == [] {
      return [];
    }
    var o := LevOrigin(a, b);
    match o
    case Inserted =>
      script := SomeScriptReaches(a, Init(b));
      AppendLast(script, a, b);
      script := script + [Insert(|b| - 1, Last(b))];
    case Deleted =>
      script := SomeScriptReaches(Init(a), b);
      DropLastFirst(script, a, b);
      script := [Delete(|a| - 1)] + script;
    case Exchanged =>
      script := SomeScriptReaches(Init(a), Init(b));
      script := ExchangeLast(script, a, b);
  }

  // ---------------------------------------------------------------- the two-row program

  // The first n+1 cells of the table row of the prefix `a`.
  ghost predicate IsRow(row: seq<nat>, a: string, b: string, n: nat) {
    n <= |b| && |row| == n + 1 && forall j {:trigger row[j]} :: 0 <= j <= n ==> row[j] == Lev(a, b[..j])
  }

  lemma {:induction false} FirstRow(row: seq<nat>, b: string)
    requires |row| == |b| + 1 && forall j :: 0 <= j <= |b| ==> row[j] == j
    ensures IsRow(row, [], b, |b|)
  {
  }

  lemma {:induction false} FirstCell(cell: nat, a: string, b: string)
    requires cell == |a|
    ensures IsRow([cell], a, b, 0)
  {
  }

  lemma {:induction false} LevUnfold(a: string, b: string)
    requires a != [] && b != []
    ensures Lev(a, b) == Min3(Lev(Init(a), b) + 1, Lev(a, Init(b)) + 1, Lev(Init(a), Init(b)) + Cost(Last(a), Last(b)))
  {
  }

  lemma {:induction false} NextCell(above: seq<nat>, row: seq<nat>, a: string, u: string, b: string, j: nat, cell: nat)
    requires a != [] && u == Init(a) && j < |b| && IsRow(above, u, b, |b|) && IsRow(row, a, b, j)
    requires cell == Min3(above[j + 1] + 1, row[j] + 1, above[j] + Cost(Last(a), b[j]))
    ensures IsRow(row + [cell], a, b, j + 1)
  {
    var next := b[..j + 1];
    assert Init(next) == b[..j] && Last(next) == b[j];
    LevUnfold(a, next);
  }

  // The inner loop: the row of `a` from the row of `a` without its last character.
  method NextRow(previousRow: seq<nat>, ghost a: string, ghost u: string, c: char, i: nat, s2: string) returns (currentRow: seq<nat>)
    requires a != [] && u == Init(a) && c == Last(a) && |a| == i + 1 && IsRow(previousRow, u, s2, |s2|)
    ensures IsRow(currentRow, a, s2, |s2|)
  {
    currentRow := [i + 1];
    FirstCell(i + 1, a, s2);
    for j := 0 to |s2|
      invariant IsRow(currentRow, a, s2, j)
    {
      var insertions := previousRow[j + 1] + 1;
      var deletions := currentRow[j] + 1;
      var substitutions := previousRow[j] + Cost(c, s2[j]);
      var cell := Min3(insertions, deletions, substitutions);
      NextCell(previousRow, currentRow, a, u, s2, j, cell);
      currentRow := currentRow + [cell];
    }
  }

  method LevenshteinDistance(s1: string, s2: string) returns (d: nat)
    ensures d == Lev(s1, s2)
    decreases if |s1| < |s2| then 1 else 0
  {
    if |s1| < |s2| {
      LevSymmetric(s1, s2);
      d := LevenshteinDistance(s2, s1);
      return;
    }
    if |s2| == 0 {
      return |s1|;
    }
    var previousRow: seq<nat> := seq(|s2| + 1, j requires 0 <= j => j);
    FirstRow(previousRow, s2);
    for i := 0 to |s1|
      invariant IsRow(previousRow, s1[..i], s2, |s2|)
    {
      SnocParts(s1[..i + 1], s1[..i], s1[i]);
      previousRow := NextRow(previousRow, s1[..i + 1], s1[..i], s1[i], i, s2);
    }
    assert s1[..|s1|] == s1 && s2[..|s2|] == s2;
    return previousRow[|previousRow| - 1];
  }
}
