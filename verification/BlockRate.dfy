// Block intervals: the live monitor's incremental histogram and the post-run batch analysis.
//
// Times are in milliseconds, the resolution of the log.  An event says that the chain was extended
// to a height at a time; reorganisations repeat heights.
module BlockRate {
  import opened Basics

  datatype Event = Event(time: int, height: int)

  const CELL_MS: int := 15000
  const WIDTH: nat := 65
  const RECENT: nat := 30

  // ---------------------------------------------------------------- sort and deduplicate

  // Ordered by height, then by time.
  predicate AtMost(x: Event, y: Event) {
    x.height < y.height || (x.height == y.height && x.time <= y.time)
  }

  function Insert(e: Event, s: seq<Event>): seq<Event> {
    if s == [] || AtMost(e, s[0]) then [e] + s else [s[0]] + Insert(e, s[1..])
  }

  function Sort(s: seq<Event>): seq<Event> {
    if s == [] then [] else Insert(s[0], Sort(s[1..]))
  }

  ghost predicate Ordered(s: seq<Event>) {
    forall i, j :: 0 <= i < j < |s| ==> AtMost(s[i], s[j])
  }

  lemma {:induction false} InsertLaws(e: Event, s: seq<Event>)
    ensures Ordered(s) ==> Ordered(Insert(e, s))
    ensures forall x :: x in Insert(e, s) <==> x == e || x in s
    ensures multiset(Insert(e, s)) == multiset{e} + multiset(s)
    decreases |s|
  {
    assert s != [] ==> multiset(s) == multiset{s[0]} + multiset(s[1..]) by {
      assert s != [] ==> s == [s[0]] + s[1..];
    }
    if s != [] && !AtMost(e, s[0]) {
      InsertLaws(e, s[1..]);
      var r := Insert(e, s[1..]);
      assert s == [s[0]] + s[1..];
      assert forall i :: 0 <= i < |r| ==> r[i] in r;
    }
  }

  lemma {:induction false} SortLaws(s: seq<Event>)
    ensures Ordered(Sort(s))
    ensures forall x :: x in Sort(s) <==> x in s
    ensures multiset(Sort(s)) == multiset(s)
    decreases |s|
  {
    if s != [] {
      SortLaws(s[1..]);
      InsertLaws(s[0], Sort(s[1..]));
      assert s == [s[0]] + s[1..];
    }
  }

  // Keep the first event of each height.
  function Dedupe(s: seq<Event>, seen: set<int>): seq<Event> {
    if s == [] then []
    else if s[0].height in seen then Dedupe(s[1..], seen)
    else [s[0]] + Dedupe(s[1..], seen + {s[0].height})
  }

  lemma {:induction false} DedupeStep(sorted: seq<Event>, i: nat, seen: set<int>, r: seq<Event>)
    requires i < |sorted|
    ensures r + Dedupe(sorted[i..], seen) ==
            if sorted[i].height in seen then r + Dedupe(sorted[i + 1..], seen)
            else (r + [sorted[i]]) + Dedupe(sorted[i + 1..], seen + {sorted[i].height})
  {
    assert sorted[i..][0] == sorted[i] && sorted[i..][1..] == sorted[i + 1..];
  }

  method DedupeByHeight(sorted: seq<Event>) returns (r: seq<Event>)
    ensures r == Dedupe(sorted, {})
  {
    r := [];
    var seen: set<int> := {};
    for i := 0 to |sorted|
      invariant Dedupe(sorted, {}) == r + Dedupe(sorted[i..], seen)
    {
      DedupeStep(sorted, i, seen, r);
      if sorted[i].height in seen {
        continue;
      }
      seen := seen + {sorted[i].height};
      r := r + [sorted[i]];
    }
  }

  // ---------------------------------------------------------------- the chain a list of events describes

  ghost predicate Rising(r: seq<Event>) {
    forall i, j :: 0 <= i < j < |r| ==> r[i].height < r[j].height
  }

  // The height of e is in the chain, no later than e.
  ghost predicate Reached(r: seq<Event>, e: Event) {
    exists i :: 0 <= i < |r| && r[i].height == e.height && r[i].time <= e.time
  }

  // One entry for each height reached above h0, in order of height, at the earliest time.
  ghost predicate IsChain(r: seq<Event>, events: seq<Event>, h0: int) {
    && Rising(r)
    && (forall i :: 0 <= i < |r| ==> r[i] in events && r[i].height > h0)
    && (forall e {:trigger Reached(r, e)} :: e in events && e.height > h0 ==> Reached(r, e))
  }

  lemma WhereReached(r: seq<Event>, e: Event, k: nat) returns (i: nat)
    requires Rising(r) && Reached(r, e) && k <= |r|
    requires forall j :: 0 <= j < k ==> r[j].height < e.height
    ensures k <= i < |r| && r[i].height == e.height && r[i].time <= e.time
    ensures r[k].height <= e.height
  {
    i :| 0 <= i < |r| && r[i].height == e.height && r[i].time <= e.time;
  }

  // Two such lists that agree so far agree on the next entry.
  lemma ChainNext(r: seq<Event>, q: seq<Event>, events: seq<Event>, h0: int, k: nat)
    requires IsChain(r, events, h0) && IsChain(q, events, h0) && k < |r| && k <= |q|
    requires forall i :: 0 <= i < k ==> r[i] == q[i]
    ensures k < |q| && r[k] == q[k]
  {
    assert r[k] in events && Reached(q, r[k]);
    var i := WhereReached(q, r[k], k);
    assert q[k] in events && Reached(r, q[k]);
    assert forall j :: 0 <= j < k ==> r[j].height < q[k].height;
    var j := WhereReached(r, q[k], k);
  }

  lemma {:induction false} ChainPrefix(r: seq<Event>, q: seq<Event>, events: seq<Event>, h0: int, k: nat)
    requires IsChain(r, events, h0) && IsChain(q, events, h0) && k <= |r|
    ensures k <= |q| && forall i :: 0 <= i < k ==> r[i] == q[i]
    decreases k
  {
    if k > 0 {
      ChainPrefix(r, q, events, h0, k - 1);
      ChainNext(r, q, events, h0, k - 1);
    }
  }

  // There is only one such list.
  lemma ChainUnique(r: seq<Event>, q: seq<Event>, events: seq<Event>, h0: int)
    requires IsChain(r, events, h0) && IsChain(q, events, h0)
    ensures r == q
  {
    ChainPrefix(r, q, events, h0, |r|);
    ChainPrefix(q, r, events, h0, |q|);
  }

  function Above(events: seq<Event>, h0: int): seq<Event> {
    if events == [] then []
    else if events[0].height > h0 then [events[0]] + Above(events[1..], h0)
    else Above(events[1..], h0)
  }

  lemma {:induction false} AboveLaws(events: seq<Event>, h0: int)
    ensures forall e :: e in Above(events, h0) <==> e in events && e.height > h0
    decreases |events|
  {
    if events != [] {
      AboveLaws(events[1..], h0);
      assert events == [events[0]] + events[1..];
    }
  }

  ghost predicate DedupeOk(s: seq<Event>, seen: set<int>, r: seq<Event>) {
    && Rising(r)
    && (forall i :: 0 <= i < |r| ==> r[i] in s && r[i].height !in seen)
    && (forall e {:trigger Reached(r, e)} :: e in s && e.height !in seen ==> Reached(r, e))
  }

  lemma {:induction false} DedupeLaws(s: seq<Event>, seen: set<int>)
    requires Ordered(s)
    ensures DedupeOk(s, seen, Dedupe(s, seen))
    decreases |s|
  {
    if s != [] {
      var rest := s[1..];
      assert s == [s[0]] + rest;
      if s[0].height in seen {
        DedupeLaws(rest, seen);
      } else {
        DedupeLaws(rest, seen + {s[0].height});
        DedupeTakes(s, seen, Dedupe(rest, seen + {s[0].height}));
      }
    }
  }

  lemma FirstIsLeast(s: seq<Event>, e: Event)
    requires Ordered(s) && s != [] && e in s
    ensures AtMost(s[0], e)
  {
    var k :| 0 <= k < |s| && s[k] == e;
  }

  lemma ReachedAfter(x: Event, q: seq<Event>, e: Event)
    ensures Reached(q, e) ==> Reached([x] + q, e)
    ensures x.height == e.height && x.time <= e.time ==> Reached([x] + q, e)
  {
    var r := [x] + q;
    if Reached(q, e) {
      var i :| 0 <= i < |q| && q[i].height == e.height && q[i].time <= e.time;
      assert r[i + 1] == q[i];
    }
    assert r[0] == x;
  }

  lemma RisingAfter(s: seq<Event>, seen: set<int>, q: seq<Event>)
    requires Ordered(s) && s != [] && DedupeOk(s[1..], seen + {s[0].height}, q)
    ensures Rising([s[0]] + q)
    ensures forall i :: 0 <= i < |q| ==> q[i] in s
  {
    assert s == [s[0]] + s[1..];
    forall i | 0 <= i < |q| ensures s[0].height < q[i].height && q[i] in s {
      assert q[i] in s[1..];
      FirstIsLeast(s, q[i]);
    }
  }

  lemma DedupeTakes(s: seq<Event>, seen: set<int>, q: seq<Event>)
    requires Ordered(s) && s != [] && s[0].height !in seen
    requires DedupeOk(s[1..], seen + {s[0].height}, q)
    ensures DedupeOk(s, seen, [s[0]] + q)
  {
    RisingAfter(s, seen, q);
    forall e | e in s && e.height !in seen ensures Reached([s[0]] + q, e) {
      FirstIsLeast(s, e);
      ReachedAfter(s[0], q, e);
      assert s == [s[0]] + s[1..];
      if e.height != s[0].height {
        assert Reached(q, e);
      }
    }
  }

  // Sorting and deduplicating what lies above h0 gives the chain above h0.
  lemma SortedDedupedIsChain(events: seq<Event>, h0: int)
    ensures IsChain(Dedupe(Sort(Above(events, h0)), {}), events, h0)
  {
    AboveLaws(events, h0);
    SortLaws(Above(events, h0));
    DedupeLaws(Sort(Above(events, h0)), {});
  }

  // ---------------------------------------------------------------- logs

  ghost predicate Chronological(log: seq<Event>) {
    forall i, j :: 0 <= i < j < |log| ==> log[i].time <= log[j].time
  }

  // When the height of the i-th event was first reached, only lower heights had been.
  ghost predicate ReachedInOrder(log: seq<Event>, i: nat)
    requires i < |log|
  {
    exists m :: 0 <= m <= i && log[m].height == log[i].height && AllBelow(log, m, log[i].height)
  }

  ghost predicate AllBelow(log: seq<Event>, m: nat, height: int)
    requires m <= |log|
  {
    forall j :: 0 <= j < m ==> log[j].height < height
  }

  ghost predicate HeightsInOrder(log: seq<Event>, h0: int) {
    forall i {:trigger ReachedInOrder(log, i)} :: 0 <= i < |log| && log[i].height > h0 ==> ReachedInOrder(log, i)
  }

  // The events that reach a height above everything before them.
  function Firsts(log: seq<Event>, h0: int): seq<Event> {
    if log == [] then []
    else if log[0].height > h0 then [log[0]] + Firsts(log[1..], log[0].height)
    else Firsts(log[1..], h0)
  }

  function Top(firsts: seq<Event>, h0: int): int {
    if firsts == [] then h0 else firsts[|firsts| - 1].height
  }

  lemma OrderOfRest(log: seq<Event>, h0: int)
    requires log != [] && HeightsInOrder(log, h0)
    ensures HeightsInOrder(log[1..], Max(h0, log[0].height))
  {
    var rest := log[1..];
    forall i | 0 <= i < |rest| && rest[i].height > Max(h0, log[0].height) ensures ReachedInOrder(rest, i) {
      assert ReachedInOrder(log, i + 1);
      var m :| 0 <= m <= i + 1 && log[m].height == log[i + 1].height && AllBelow(log, m, log[i + 1].height);
      assert m > 0;
      assert AllBelow(rest, m - 1, rest[i].height) by {
        forall j | 0 <= j < m - 1 ensures rest[j].height < rest[i].height {
          assert log[j + 1].height < log[i + 1].height;
        }
      }
      assert rest[m - 1].height == rest[i].height;
    }
  }

  // In order means nothing between h0 and the first new height is reached later.
  lemma NothingBetween(log: seq<Event>, h0: int, i: nat)
    requires HeightsInOrder(log, h0) && i < |log| && log[i].height > h0
    ensures log[0].height <= log[i].height || log[0].height <= h0
  {
    assert ReachedInOrder(log, i);
    var m :| 0 <= m <= i && log[m].height == log[i].height && AllBelow(log, m, log[i].height);
  }

  lemma {:induction false} FirstsIsChain(log: seq<Event>, h0: int)
    requires Chronological(log) && HeightsInOrder(log, h0)
    ensures IsChain(Firsts(log, h0), log, h0)
    decreases |log|
  {
    if log != [] {
      var rest, h1 := log[1..], Max(h0, log[0].height);
      OrderOfRest(log, h0);
      FirstsIsChain(rest, h1);
      assert log == [log[0]] + rest;
      if log[0].height > h0 {
        FirstsTakes(log, h0, Firsts(rest, h1));
      }
    }
  }

  lemma FirstsReach(log: seq<Event>, h0: int, q: seq<Event>, e: Event)
    requires log != [] && Chronological(log) && HeightsInOrder(log, h0) && log[0].height > h0
    requires IsChain(q, log[1..], log[0].height) && e in log && e.height > h0
    ensures Reached([log[0]] + q, e)
  {
    var i :| 0 <= i < |log| && log[i] == e;
    NothingBetween(log, h0, i);
    ReachedAfter(log[0], q, e);
    if e.height > log[0].height {
      assert e == log[1..][i - 1];
      assert Reached(q, e);
    }
  }

  lemma FirstsRise(log: seq<Event>, h0: int, q: seq<Event>)
    requires log != [] && log[0].height > h0 && IsChain(q, log[1..], log[0].height)
    ensures Rising([log[0]] + q)
    ensures forall i :: 0 <= i < |q| + 1 ==> ([log[0]] + q)[i] in log && ([log[0]] + q)[i].height > h0
  {
    assert log == [log[0]] + log[1..];
  }

  lemma FirstsTakes(log: seq<Event>, h0: int, q: seq<Event>)
    requires log != [] && Chronological(log) && HeightsInOrder(log, h0) && log[0].height > h0
    requires IsChain(q, log[1..], log[0].height)
    ensures IsChain([log[0]] + q, log, h0)
  {
    FirstsRise(log, h0, q);
    forall e | e in log && e.height > h0 ensures Reached([log[0]] + q, e) {
      FirstsReach(log, h0, q, e);
    }
  }

  // What sorting and deduplicating gives, on a log in order.
  lemma SortedDedupedIsFirsts(log: seq<Event>, h0: int)
    requires Chronological(log) && HeightsInOrder(log, h0)
    ensures Dedupe(Sort(Above(log, h0)), {}) == Firsts(log, h0)
  {
    SortedDedupedIsChain(log, h0);
    FirstsIsChain(log, h0);
    ChainUnique(Dedupe(Sort(Above(log, h0)), {}), Firsts(log, h0), log, h0);
  }

  lemma {:induction false} FirstsConcat(a: seq<Event>, b: seq<Event>, h0: int)
    ensures Firsts(a + b, h0) == Firsts(a, h0) + Firsts(b, Top(Firsts(a, h0), h0))
    decreases |a|
  {
    if a == [] {
      assert a + b == b;
    } else {
      assert (a + b)[1..] == a[1..] + b;
      FirstsConcat(a[1..], b, Max(h0, a[0].height));
    }
  }

  lemma {:induction false} TopIsHighest(log: seq<Event>, h0: int)
    ensures h0 <= Top(Firsts(log, h0), h0)
    ensures forall i :: 0 <= i < |log| ==> log[i].height <= Top(Firsts(log, h0), h0)
    decreases |log|
  {
    if log != [] {
      TopIsHighest(log[1..], Max(h0, log[0].height));
      assert forall i :: 1 <= i < |log| ==> log[i] == log[1..][i - 1];
    }
  }

  lemma {:induction false} FirstsOfOld(log: seq<Event>, h0: int)
    requires forall i :: 0 <= i < |log| ==> log[i].height <= h0
    ensures Firsts(log, h0) == []
    decreases |log|
  {
    if log != [] {
      FirstsOfOld(log[1..], h0);
    }
  }

  // ---------------------------------------------------------------- the running state

  datatype State = State(lastHeight: int, lastTime: Option<int>, buckets: seq<nat>, recent: seq<int>)

  function Zeros(n: nat): (r: seq<nat>)
    ensures |r| == n && forall i :: 0 <= i < n ==> r[i] == 0
  {
    if n == 0 then [] else Zeros(n - 1) + [0]
  }

  const INITIAL: State := State(-1, None, Zeros(WIDTH), [])

  function Bucket(ms: int): (k: nat)
    ensures k < WIDTH
  {
    if ms < 0 then 0 else if ms / CELL_MS >= WIDTH then WIDTH - 1 else ms / CELL_MS
  }

  function LastOf(s: seq<int>, n: nat): seq<int> {
    if |s| > n then s[|s| - n..] else s
  }

  function Count(s: State, interval: int): State
    requires |s.buckets| == WIDTH
  {
    s.(buckets := s.buckets[Bucket(interval) := s.buckets[Bucket(interval)] + 1], recent := s.recent + [interval])
  }

  function TakeEvent(s: State, e: Event): (t: State)
    requires |s.buckets| == WIDTH
    ensures |t.buckets| == WIDTH
  {
    (if s.lastTime.Some? then Count(s, e.time - s.lastTime.value) else s).(lastHeight := e.height, lastTime := Some(e.time))
  }

  function Absorb(s: State, events: seq<Event>): (t: State)
    requires |s.buckets| == WIDTH
    ensures |t.buckets| == WIDTH
  {
    if events == [] then s else TakeEvent(Absorb(s, events[..|events| - 1]), events[|events| - 1])
  }

  function Trim(s: State): State {
    s.(recent := LastOf(s.recent, RECENT))
  }

  // One call of the monitor: absorb what is new in the tail, then trim the recent window.
  function Process(s: State, tail: seq<Event>): (t: State)
    requires |s.buckets| == WIDTH
    ensures |t.buckets| == WIDTH
  {
    Trim(Absorb(s, Dedupe(Sort(Above(tail, s.lastHeight)), {})))
  }

  method ProcessTail(state: State, tail: seq<Event>) returns (t: State)
    requires |state.buckets| == WIDTH
    ensures t == Process(state, tail)
  {
    t := state;
    var newEvents := DedupeByHeight(Sort(Above(tail, state.lastHeight)));
    for i := 0 to |newEvents|
      invariant |t.buckets| == WIDTH && t == Absorb(state, newEvents[..i])
    {
      var e := newEvents[i];
      ghost var before := t;
      if t.lastTime.Some? {
        var interval := e.time - t.lastTime.value;
        t := t.(buckets := t.buckets[Bucket(interval) := t.buckets[Bucket(interval)] + 1], recent := t.recent + [interval]);
      }
      t := t.(lastHeight := e.height, lastTime := Some(e.time));
      assert newEvents[..i + 1][..i] == newEvents[..i];
      assert t == TakeEvent(before, e);
    }
    assert newEvents[..|newEvents|] == newEvents;
    if |t.recent| > RECENT {
      t := t.(recent := t.recent[|t.recent| - RECENT..]);
    }
  }

  lemma {:induction false} AbsorbConcat(s: State, x: seq<Event>, y: seq<Event>)
    requires |s.buckets| == WIDTH
    ensures Absorb(s, x + y) == Absorb(Absorb(s, x), y)
    decreases |y|
  {
    if y == [] {
      assert x + y == x;
    } else {
      assert (x + y)[..|x + y| - 1] == x + y[..|y| - 1];
      AbsorbConcat(s, x, y[..|y| - 1]);
    }
  }

  lemma LastOfAppend(a: seq<int>, x: int)
    ensures LastOf(LastOf(a, RECENT) + [x], RECENT) == LastOf(a + [x], RECENT)
  {
  }

  // Forgetting old intervals early makes no difference to the window.
  lemma {:induction false} TrimEarly(s: State, events: seq<Event>)
    requires |s.buckets| == WIDTH
    ensures Absorb(Trim(s), events) == Absorb(s, events).(recent := Absorb(Trim(s), events).recent)
    ensures LastOf(Absorb(Trim(s), events).recent, RECENT) == LastOf(Absorb(s, events).recent, RECENT)
    decreases |events|
  {
    if events != [] {
      var init, e := events[..|events| - 1], events[|events| - 1];
      TrimEarly(s, init);
      var a, b := Absorb(Trim(s), init), Absorb(s, init);
      if b.lastTime.Some? {
        var x := e.time - b.lastTime.value;
        LastOfAppend(a.recent, x);
        LastOfAppend(b.recent, x);
      }
    }
  }

  lemma {:induction false} AbsorbTop(s: State, events: seq<Event>)
    requires |s.buckets| == WIDTH
    ensures Absorb(s, events).lastHeight == Top(events, s.lastHeight)
    decreases |events|
  {
  }

  // ---------------------------------------------------------------- streaming equals batch

  // A call sees the log from `first` up to `end`.
  datatype Call = Call(first: nat, end: nat)

  // Each tail starts no later than where the previous one ended, and the log only grows.
  ghost predicate Covering(calls: seq<Call>, n: nat) {
    && (forall i :: 0 <= i < |calls| ==> calls[i].first <= calls[i].end <= n)
    && (calls != [] ==> calls[0].first == 0)
    && (forall i :: 1 <= i < |calls| ==> calls[i].first <= calls[i - 1].end <= calls[i].end)
  }

  ghost function StateAfter(log: seq<Event>, calls: seq<Call>): (s: State)
    requires Covering(calls, |log|)
    ensures |s.buckets| == WIDTH
  {
    if calls == [] then INITIAL
    else
      var c := calls[|calls| - 1];
      Process(StateAfter(log, calls[..|calls| - 1]), log[c.first..c.end])
  }

  lemma TailInOrder(log: seq<Event>, a: nat, b: nat, end: nat, h: int)
    requires HeightsInOrder(log, -1) && a <= b <= end <= |log| && -1 <= h
    requires forall i :: 0 <= i < b ==> log[i].height <= h
    ensures HeightsInOrder(log[a..end], h)
  {
    var tail := log[a..end];
    forall i | 0 <= i < |tail| && tail[i].height > h ensures ReachedInOrder(tail, i) {
      assert ReachedInOrder(log, a + i);
      var m :| 0 <= m <= a + i && log[m].height == log[a + i].height && AllBelow(log, m, log[a + i].height);
      assert m >= b;
      assert AllBelow(tail, m - a, tail[i].height) by {
        forall j | 0 <= j < m - a ensures tail[j].height < tail[i].height {
          assert log[a + j].height < log[a + i].height;
        }
      }
      assert tail[m - a].height == tail[i].height;
    }
  }

  // What an overlapping tail adds to the first b events.
  lemma FirstsOfTail(log: seq<Event>, a: nat, b: nat, end: nat, h: int)
    requires a <= b <= end <= |log| && h == Top(Firsts(log[..b], -1), -1)
    ensures forall i :: 0 <= i < b ==> log[i].height <= h
    ensures -1 <= h
    ensures Firsts(log[..end], -1) == Firsts(log[..b], -1) + Firsts(log[a..end], h)
  {
    TopIsHighest(log[..b], -1);
    assert forall i :: 0 <= i < b ==> log[i] == log[..b][i];
    assert log[..end] == log[..b] + log[b..end];
    FirstsConcat(log[..b], log[b..end], -1);
    assert log[a..end] == log[a..b] + log[b..end];
    FirstsOfOld(log[a..b], h);
    FirstsConcat(log[a..b], log[b..end], h);
    assert [] + Firsts(log[b..end], h) == Firsts(log[b..end], h);
  }

  // Processing an overlapping tail on top of the first b events gives the first `end` events.
  lemma {:induction false} OneMoreCall(log: seq<Event>, a: nat, b: nat, end: nat)
    requires Chronological(log) && HeightsInOrder(log, -1) && a <= b <= end <= |log|
    ensures Process(Trim(Absorb(INITIAL, Firsts(log[..b], -1))), log[a..end]) == Trim(Absorb(INITIAL, Firsts(log[..end], -1)))
  {
    var earlier, h := Firsts(log[..b], -1), Top(Firsts(log[..b], -1), -1);
    AbsorbTop(INITIAL, earlier);
    FirstsOfTail(log, a, b, end, h);
    TailInOrder(log, a, b, end, h);
    assert Chronological(log[a..end]);
    SortedDedupedIsFirsts(log[a..end], h);
    AbsorbConcat(INITIAL, earlier, Firsts(log[a..end], h));
    TrimEarly(Absorb(INITIAL, earlier), Firsts(log[a..end], h));
  }

  lemma {:induction false} StateIsFolded(log: seq<Event>, calls: seq<Call>)
    requires Chronological(log) && HeightsInOrder(log, -1) && Covering(calls, |log|) && calls != []
    ensures StateAfter(log, calls) == Trim(Absorb(INITIAL, Firsts(log[..calls[|calls| - 1].end], -1)))
    decreases |calls|
  {
    var c := calls[|calls| - 1];
    if |calls| == 1 {
      OneMoreCall(log, 0, 0, c.end);
      assert log[..0] == [] && calls[..0] == [];
    } else {
      StateIsFolded(log, calls[..|calls| - 1]);
      OneMoreCall(log, c.first, calls[|calls| - 2].end, c.end);
    }
  }

  // Any sequence of overlapping calls ends in the state of a single call on the whole log.
  lemma StreamingEqualsBatch(log: seq<Event>, calls: seq<Call>)
    requires Chronological(log) && HeightsInOrder(log, -1) && Covering(calls, |log|)
    requires calls != [] && calls[|calls| - 1].end == |log|
    ensures StateAfter(log, calls) == Process(INITIAL, log)
  {
    StateIsFolded(log, calls);
    SortedDedupedIsFirsts(log, -1);
    assert log[..|log|] == log;
  }

  // ---------------------------------------------------------------- what the histogram counts

  // The batch tool's intervals: successive differences over the sorted, deduplicated events.
  function Intervals(chain: seq<Event>): seq<int> {
    if |chain| <= 1 then [] else Intervals(chain[..|chain| - 1]) + [chain[|chain| - 1].time - chain[|chain| - 2].time]
  }

  function BatchIntervals(raw: seq<Event>): seq<int> {
    Intervals(Dedupe(Sort(raw), {}))
  }

  // Column k of the histogram: 15 s wide, from 15 k s on; whatever is shorter is in the first, and
  // from 16 minutes on everything is in the last.
  predicate InColumn(ms: int, k: nat) {
    && (k == 0 || 15000 * k <= ms)
    && (k == 64 || ms < 15000 * (k + 1))
  }

  // The bucket of an interval is its column, and every interval is in exactly one of the 65.
  lemma {:induction false} BucketIsColumn(ms: int, k: nat)
    requires k <= 64
    ensures Bucket(ms) == k <==> InColumn(ms, k)
  {
  }

  function CountIn(intervals: seq<int>, k: nat): nat {
    if intervals == [] then 0
    else CountIn(intervals[..|intervals| - 1], k) + if InColumn(intervals[|intervals| - 1], k) then 1 else 0
  }

  function Sum(s: seq<nat>): nat {
    if s == [] then 0 else Sum(s[..|s| - 1]) + s[|s| - 1]
  }

  lemma {:induction false} SumOfZeros(n: nat)
    ensures Sum(Zeros(n)) == 0
  {
    if n > 0 {
      SumOfZeros(n - 1);
      assert Zeros(n)[..n - 1] == Zeros(n - 1);
    }
  }

  lemma {:induction false} SumOfBump(s: seq<nat>, k: nat)
    requires k < |s|
    ensures Sum(s[k := s[k] + 1]) == Sum(s) + 1
    decreases |s|
  {
    var t := s[k := s[k] + 1];
    if k < |s| - 1 {
      SumOfBump(s[..|s| - 1], k);
      assert t[..|s| - 1] == s[..|s| - 1][k := s[k] + 1];
    } else {
      assert t[..|s| - 1] == s[..|s| - 1];
    }
  }

  ghost predicate Histogram(buckets: seq<nat>, intervals: seq<int>) {
    && |buckets| == WIDTH
    && (forall k :: 0 <= k < WIDTH ==> buckets[k] == CountIn(intervals, k))
    && Sum(buckets) == |intervals|
  }

  lemma {:induction false} OneMoreCounted(buckets: seq<nat>, intervals: seq<int>, x: int)
    requires Histogram(buckets, intervals)
    ensures Histogram(buckets[Bucket(x) := buckets[Bucket(x)] + 1], intervals + [x])
  {
    SumOfBump(buckets, Bucket(x));
    assert (intervals + [x])[..|intervals|] == intervals;
    forall k: nat | k < WIDTH ensures Bucket(x) == k <==> InColumn(x, k) {
      BucketIsColumn(x, k);
    }
  }

  lemma {:induction false} IntervalsOf(chain: seq<Event>, init: seq<Event>, e: Event)
    requires chain == init + [e]
    ensures init == [] ==> Intervals(chain) == []
    ensures init != [] ==> Intervals(chain) == Intervals(init) + [e.time - init[|init| - 1].time]
  {
    if init != [] {
      assert chain[..|chain| - 1] == init;
      assert chain[|chain| - 1] == e && chain[|chain| - 2] == init[|init| - 1];
    }
  }

  // The state after the blocks of a chain: the intervals, and how many fall in each bucket.
  ghost predicate Counted(s: State, chain: seq<Event>) {
    && s.recent == Intervals(chain) && Histogram(s.buckets, Intervals(chain))
    && s.lastTime == if chain == [] then None else Some(chain[|chain| - 1].time)
  }

  lemma InitialCounted()
    ensures Counted(INITIAL, [])
  {
    SumOfZeros(WIDTH);
  }

  lemma {:induction false} TakeCounted(s: State, init: seq<Event>, e: Event, chain: seq<Event>)
    requires Counted(s, init) && chain == init + [e]
    ensures Counted(TakeEvent(s, e), chain)
  {
    IntervalsOf(chain, init, e);
    if init != [] {
      OneMoreCounted(s.buckets, Intervals(init), e.time - init[|init| - 1].time);
    }
  }

  lemma {:induction false} AbsorbIsCounted(chain: seq<Event>)
    ensures Counted(Absorb(INITIAL, chain), chain)
    decreases |chain|
  {
    if chain == [] {
      InitialCounted();
    } else {
      var init, e := chain[..|chain| - 1], chain[|chain| - 1];
      AbsorbIsCounted(init);
      TakeCounted(Absorb(INITIAL, init), init, e, chain);
    }
  }

  lemma AbsorbCounts(chain: seq<Event>)
    ensures var s := Absorb(INITIAL, chain);
            && s.recent == Intervals(chain)
            && s.lastTime == (if chain == [] then None else Some(chain[|chain| - 1].time))
            && (forall k :: 0 <= k < WIDTH ==> s.buckets[k] == CountIn(Intervals(chain), k))
            && Sum(s.buckets) == |Intervals(chain)|
  {
    AbsorbIsCounted(chain);
  }

  lemma {:induction false} AboveAll(events: seq<Event>, h0: int)
    requires forall e :: e in events ==> e.height > h0
    ensures Above(events, h0) == events
    decreases |events|
  {
    if events != [] {
      AboveAll(events[1..], h0);
    }
  }

  lemma {:induction false} IntervalsLength(chain: seq<Event>)
    ensures |Intervals(chain)| == if chain == [] then 0 else |chain| - 1
    decreases |chain|
  {
    if |chain| > 1 {
      IntervalsLength(chain[..|chain| - 1]);
    }
  }

  // Interval i lies between blocks i and i + 1.
  lemma {:induction false} IntervalAt(chain: seq<Event>, i: nat)
    requires i + 1 < |chain|
    ensures i < |Intervals(chain)| && Intervals(chain)[i] == chain[i + 1].time - chain[i].time
    decreases |chain|
  {
    IntervalsLength(chain[..|chain| - 1]);
    if i + 2 < |chain| {
      IntervalAt(chain[..|chain| - 1], i);
    }
  }

  lemma {:induction false} LastEvent(chain: seq<Event>)
    requires chain != []
    ensures Absorb(INITIAL, chain).lastHeight == chain[|chain| - 1].height
    ensures Absorb(INITIAL, chain).lastTime == Some(chain[|chain| - 1].time)
  {
  }

  // The last thirty of a list, or all of it.
  ghost predicate IsLastThirty(recent: seq<int>, all: seq<int>) {
    |recent| == Min(30, |all|) && exists older: seq<int> :: all == older + recent
  }

  lemma {:induction false} LastOfIsLast(all: seq<int>)
    ensures IsLastThirty(LastOf(all, RECENT), all)
  {
    var k := |all| - |LastOf(all, RECENT)|;
    assert all == all[..k] + LastOf(all, RECENT);
  }

  // Column k counts the batch tool's intervals of that length; the columns add up to the number of
  // distinct heights minus one; the window is the last thirty intervals; the state remembers the
  // highest block.
  lemma {:induction false} HistogramIsBatch(log: seq<Event>)
    requires forall e :: e in log ==> e.height >= 0
    ensures var s, chain := Process(INITIAL, log), Dedupe(Sort(log), {});
            && (forall k :: 0 <= k < WIDTH ==> s.buckets[k] == CountIn(BatchIntervals(log), k))
            && s.recent == LastOf(BatchIntervals(log), RECENT) && IsLastThirty(s.recent, BatchIntervals(log))
            && (chain != [] ==> s.lastHeight == chain[|chain| - 1].height && s.lastTime == Some(chain[|chain| - 1].time))
            && |s.buckets| == 65
            && Sum(s.buckets) == (if log == [] then 0 else |chain| - 1)
            && IsChain(chain, log, -1)
  {
    var chain := Dedupe(Sort(log), {});
    AboveAll(log, -1);
    SortedDedupedIsChain(log, -1);
    StateOfChain(chain);
    ChainOfLog(log, chain);
    IntervalsLength(chain);
  }

  lemma {:induction false} StateOfChain(chain: seq<Event>)
    ensures var s := Trim(Absorb(INITIAL, chain));
            && (forall k :: 0 <= k < WIDTH ==> s.buckets[k] == CountIn(Intervals(chain), k))
            && s.recent == LastOf(Intervals(chain), RECENT) && IsLastThirty(s.recent, Intervals(chain))
            && (chain != [] ==> s.lastHeight == chain[|chain| - 1].height && s.lastTime == Some(chain[|chain| - 1].time))
            && |s.buckets| == 65 && Sum(s.buckets) == |Intervals(chain)|
  {
    AbsorbCounts(chain);
    LastOfIsLast(Intervals(chain));
    if chain != [] {
      LastEvent(chain);
    }
  }

  lemma {:induction false} ChainOfLog(log: seq<Event>, chain: seq<Event>)
    requires IsChain(chain, log, -1) && forall e :: e in log ==> e.height >= 0
    ensures chain == [] <==> log == []
  {
    if log != [] {
      assert log[0] in log && Reached(chain, log[0]);
    }
    if chain != [] {
      assert chain[0] in chain;
    }
  }
}
