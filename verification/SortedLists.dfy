// Finite sets of integers as increasing lists: what the interpreter's `sorted` gives for a set.
module SortedLists {
  import opened Basics

  function Elements(s: seq<int>): set<int> {
    set x | x in s
  }

  ghost predicate Increasing(s: seq<int>) {
    forall i, j :: 0 <= i < j < |s| ==> s[i] < s[j]
  }

  lemma {:induction false} LeastOf(s: set<int>) returns (m: int)
    requires |s| > 0
    ensures m in s && forall x :: x in s ==> m <= x
    decreases |s|
  {
    m := AnyOf(s);
    var rest := s - {m};
    assert forall x :: x in s ==> x == m || x in rest;
    if |rest| > 0 {
      var r := LeastOf(rest);
      m := Min(m, r);
    }
  }

  // A prefix of the sorted list of s; `rest` is still to come.
  ghost predicate SortedPrefix(s: set<int>, rest: set<int>, r: seq<int>) {
    && rest <= s && Increasing(r) && Elements(r) == s - rest && |r| + |rest| == |s|
    && forall x, y :: x in r && y in rest ==> x < y
  }

  lemma {:induction false} SortStep(s: set<int>, rest: set<int>, r: seq<int>, m: int)
    requires SortedPrefix(s, rest, r) && m in rest && forall x :: x in rest ==> m <= x
    ensures SortedPrefix(s, rest - {m}, r + [m])
  {
    assert forall i :: 0 <= i < |r| ==> r[i] in r;
    assert Elements(r + [m]) == Elements(r) + {m};
  }

  // The elements of a set in increasing order.
  method Sorted(s: set<int>) returns (r: seq<int>)
    ensures Increasing(r) && Elements(r) == s && |r| == |s|
  {
    r := [];
    var rest := s;
    while |rest| > 0
      invariant SortedPrefix(s, rest, r)
      decreases |rest|
    {
      ghost var least := LeastOf(rest);
      var m :| m in rest && forall x :: x in rest ==> m <= x;
      SortStep(s, rest, r, m);
      r := r + [m];
      rest := rest - {m};
    }
  }
}
