// Joining a gossip event to the connection it arrived on: bisect to the last interval that has
// started, then walk back over overlapping candidates.  Times are in milliseconds.
module IntervalJoin {
  import opened Basics

  const SLACK: int := 1
  const DAY: int := 86400000

  datatype Interval = Interval(open: int, close: int, uid: string)

  predicate Holds(x: Interval, t: int) {
    x.open <= t <= x.close + SLACK
  }

  ghost predicate ByStart(list: seq<Interval>) {
    forall i, j :: 0 <= i < j < |list| ==> list[i].open <= list[j].open
  }

  // How many intervals have started by time t.
  ghost predicate IsBisection(list: seq<Interval>, t: int, n: nat) {
    && n <= |list|
    && (forall i :: 0 <= i < n ==> list[i].open <= t)
    && (forall i :: n <= i < |list| ==> list[i].open > t)
  }

  function Started(list: seq<Interval>, t: int): (n: nat)
    ensures n <= |list|
  {
    if list == [] then 0
    else Started(list[..|list| - 1], t) + if list[|list| - 1].open <= t then 1 else 0
  }

  lemma {:induction false} StartedIsBisection(list: seq<Interval>, t: int, n: nat)
    requires IsBisection(list, t, n)
    ensures Started(list, t) == n
    decreases |list|
  {
    if list != [] {
      var last := |list| - 1;
      if list[last].open <= t {
        assert n == last + 1;
        StartedIsBisection(list[..last], t, last);
      } else {
        StartedIsBisection(list[..last], t, n);
      }
    }
  }

  method BisectRight(list: seq<Interval>, t: int) returns (n: nat)
    requires ByStart(list)
    ensures IsBisection(list, t, n)
  {
    n := 0;
    var high := |list|;
    while n < high
      invariant n <= high <= |list|
      invariant forall i :: 0 <= i < n ==> list[i].open <= t
      invariant forall i :: high <= i < |list| ==> list[i].open > t
    {
      var mid := (n + high) / 2;
      if t < list[mid].open {
        high := mid;
      } else {
        n := mid + 1;
      }
    }
  }

  // The last of the first n intervals that contains t: the naive scan.
  function LastHolding(list: seq<Interval>, t: int, n: nat): Option<nat>
    requires n <= |list|
  {
    if n == 0 then None
    else if Holds(list[n - 1], t) then Some(n - 1)
    else LastHolding(list, t, n - 1)
  }

  // The walk gives up at an interval that started more than a day ago and does not contain t.
  function WalkBack(list: seq<Interval>, t: int, n: nat): Option<nat>
    requires n <= |list|
  {
    if n == 0 then None
    else if Holds(list[n - 1], t) then Some(n - 1)
    else if t - list[n - 1].open > DAY then None
    else WalkBack(list, t, n - 1)
  }

  lemma {:induction false} LastHoldingIsLast(list: seq<Interval>, t: int, n: nat)
    requires n <= |list|
    ensures var r := LastHolding(list, t, n);
            && (r.Some? ==> r.value < n && Holds(list[r.value], t) && forall i :: r.value < i < n ==> !Holds(list[i], t))
            && (r.None? ==> forall i :: 0 <= i < n ==> !Holds(list[i], t))
    decreases n
  {
    if n > 0 {
      LastHoldingIsLast(list, t, n - 1);
    }
  }

  // Intervals that have not started contain nothing, so the scan may stop at the bisection.
  lemma {:induction false} ScanPastBisection(list: seq<Interval>, t: int, n: nat, m: nat)
    requires IsBisection(list, t, n) && n <= m <= |list|
    ensures LastHolding(list, t, m) == LastHolding(list, t, n)
    decreases m
  {
    if n < m {
      ScanPastBisection(list, t, n, m - 1);
    }
  }

  // The interval after the one sought has started, and more than a day ago.
  predicate CutShort(list: seq<Interval>, t: int, n: nat)
    requires n <= |list|
  {
    var r := LastHolding(list, t, n);
    r.Some? && r.value + 1 < n && t - list[r.value + 1].open > DAY
  }

  lemma {:induction false} WalkFinds(list: seq<Interval>, t: int, n: nat)
    requires n <= |list| && ByStart(list)
    ensures WalkBack(list, t, n) == if CutShort(list, t, n) then None else LastHolding(list, t, n)
    decreases n
  {
    if n > 0 && !Holds(list[n - 1], t) {
      WalkFinds(list, t, n - 1);
      LastHoldingIsLast(list, t, n - 1);
      var r := LastHolding(list, t, n - 1);
      if r.Some? && r.value + 1 < n - 1 {
        assert list[r.value + 1].open <= list[n - 1].open;
      }
    }
  }

  // The join is the naive scan over the whole list exactly when the walk is not cut short; when it
  // is, the event goes unmatched.
  lemma JoinIsNaiveScan(list: seq<Interval>, t: int, n: nat)
    requires ByStart(list) && IsBisection(list, t, n)
    ensures WalkBack(list, t, n) == LastHolding(list, t, |list|) <==> !CutShort(list, t, n)
    ensures CutShort(list, t, n) ==> WalkBack(list, t, n).None?
    ensures (forall i :: 0 <= i < n ==> t - list[i].open <= DAY) ==> WalkBack(list, t, n) == LastHolding(list, t, |list|)
  {
    WalkFinds(list, t, n);
    ScanPastBisection(list, t, n, |list|);
    LastHoldingIsLast(list, t, n);
  }

  // Interval i contains t, with a millisecond of slack at its end, and none behind it does.
  ghost predicate IsLastOpen(list: seq<Interval>, t: int, i: nat) {
    && i < |list| && list[i].open <= t <= list[i].close + 1
    && forall j :: i < j < |list| ==> !(list[j].open <= t <= list[j].close + 1)
  }

  lemma {:induction false} LastOpenIsHolding(list: seq<Interval>, t: int)
    ensures forall i: nat :: IsLastOpen(list, t, i) <==> LastHolding(list, t, |list|) == Some(i)
  {
    LastHoldingIsLast(list, t, |list|);
    assert forall i :: 0 <= i < |list| ==> (Holds(list[i], t) <==> list[i].open <= t <= list[i].close + 1);
  }

  // The naive scan over the whole list, unless the walk is cut short.
  method Join(list: seq<Interval>, t: int) returns (hit: Option<nat>)
    requires ByStart(list)
    ensures hit == if CutShort(list, t, Started(list, t)) then None else LastHolding(list, t, |list|)
    ensures hit.Some? ==> IsLastOpen(list, t, hit.value)
    ensures hit.None? ==> forall i: nat :: IsLastOpen(list, t, i) ==>
              i + 1 < |list| && list[i + 1].open <= t && t - list[i + 1].open > 86400000
  {
    var i := BisectRight(list, t);
    StartedIsBisection(list, t, i);
    LastHoldingIsLast(list, t, |list|);
    LastOpenIsHolding(list, t);
    ScanPastBisection(list, t, i, |list|);
    WalkFinds(list, t, i);
    hit := None;
    while i > 0
      invariant 0 <= i <= |list| && WalkBack(list, t, i) == WalkBack(list, t, Started(list, t))
    {
      var x := list[i - 1];
      if Holds(x, t) {
        return Some(i - 1);
      }
      if t - x.open > DAY {
        break;
      }
      i := i - 1;
    }
  }

  const LONG: seq<Interval> := [Interval(0, 200000000, "a"), Interval(100, 200, "b")]

  // A connection open for over a day is lost behind a later one that has closed.
  lemma JoinCanMiss()
    ensures ByStart(LONG) && IsBisection(LONG, 90000000, 2) && CutShort(LONG, 90000000, 2)
    ensures WalkBack(LONG, 90000000, 2) == None && LastHolding(LONG, 90000000, 2) == Some(0)
  {
    assert !Holds(LONG[1], 90000000) && Holds(LONG[0], 90000000);
    assert LastHolding(LONG, 90000000, 2) == LastHolding(LONG, 90000000, 1);
  }
}
