// Runs of polls.  Over any run, whatever happens to the chain between polls, a poll that completes
// returns the plain recurrence on the chain as this miner has seen it; and that chain is the
// daemon's own as long as every change of it is an extension or one the miner notices.
module DifficultyRuns {
  import opened Basics
  import opened DifficultyRecurrence
  import opened DifficultyReplay
  import opened SeenChain

  // A poll together with the chain the daemon was on when it answered.
  datatype Event = Event(chain: seq<real>, poll: Poll)

  // The daemon reports its own chain: its length if it answers, its own timestamps where it answers.
  ghost predicate Honest(e: Event) {
    && (e.poll.count.Some? ==> e.poll.count.value == |e.chain|)
    && TrueTimes(e.poll.headers, e.chain)
  }

  // Polls that reach the replay: the count arrived and lies past the warm-up.
  predicate Replays(p: Params, e: Event) {
    e.poll.count.Some? && p.start < e.poll.count.value - 1
  }

  // The caches after a run.
  function CacheAfter(p: Params, run: seq<Event>): Cache {
    if run == [] then EMPTY else Step(p, CacheAfter(p, run[..|run| - 1]), run[|run| - 1].poll).cache
  }

  // A chain whose top is below the last replayed height restarts the replay on that chain alone;
  // any other chain is spliced onto what was seen before.
  function Seen(p: Params, c: Cache, seen: seq<real>, e: Event): seq<real> {
    if !Replays(p, e) then seen
    else if c.last.Some? && |e.chain| - 1 < c.last.value then e.chain
    else Splice(p, c, seen, e.chain)
  }

  function SeenAfter(p: Params, run: seq<Event>): seq<real> {
    if run == [] then []
    else
      var before := run[..|run| - 1];
      Seen(p, CacheAfter(p, before), SeenAfter(p, before), run[|run| - 1])
  }

  // No assumption on the chain: it may be any other chain at every poll.
  ghost predicate AllHonest(run: seq<Event>) {
    forall i :: 0 <= i < |run| ==> Honest(run[i])
  }

  // ---------------------------------------------------------------- one poll

  // The timestamp cache is bounded by what a window can still need.
  lemma {:induction false} IntervalSize(ks: set<int>, a: int, b: int)
    requires a <= b && forall h :: h in ks ==> a <= h < b
    ensures |ks| <= b - a
    decreases b - a
  {
    if a == b {
      assert ks == {};
    } else {
      var rest := ks - {b - 1};
      IntervalSize(rest, a, b - 1);
      assert ks <= rest + {b - 1};
      assert if b - 1 in ks then ks == rest + {b - 1} else ks == rest;
    }
  }

  lemma PrunedIsSmall(p: Params, d: map<int, real>, ts: map<int, real>, top: int, n: int)
    requires 0 < p.window && top < n && forall h :: h in ts ==> h < n
    ensures |Prune(p, d, ts, top).ts| <= Max(4 * p.window, 2 * p.window + 2 + n - top)
  {
    if |ts| > 4 * p.window {
      var kept := From(ts, top - 2 * p.window - 2);
      IntervalSize(kept.Keys, top - 2 * p.window - 2, n);
      assert |kept| == |kept.Keys|;
    }
  }

  // A completed replay leaves the whole trailing window behind, pruned or not.
  lemma PrunedIsFaithful(p: Params, d: map<int, real>, ts: map<int, real>, chain: seq<real>, top: int)
    requires p.Valid() && TrueMultipliers(p, d, chain) && TrueTimes(ts, chain) && p.start < top < |chain|
    requires Covers(p, d, top - 2 * p.window - 2, top + 2)
    ensures Faithful(p, Prune(p, d, ts, top), chain)
  {
  }

  lemma CoversFromWindow(p: Params, c: Cache, d: map<int, real>, chain: seq<real>, top: int)
    requires p.Valid() && Faithful(p, c, chain)
    requires (forall h :: h in c.d ==> h in d) && Covers(p, d, FirstHeight(p, c), top + 2)
    requires c.last.Some? ==> c.last.value <= top
    ensures Covers(p, d, top - 2 * p.window - 2, top + 2)
  {
  }

  lemma {:induction false} CompleteAdvance(p: Params, c: Cache, chain: seq<real>, top: int, r: Replayed)
    requires p.Valid() && Faithful(p, c, chain) && p.start < top < |chain|
    requires TrueMultipliers(p, r.d, chain) && TrueTimes(r.ts, chain)
    requires (forall h :: h in c.d ==> h in r.d) && Covers(p, r.d, FirstHeight(p, c), top + 2)
    requires c.last.Some? ==> c.last.value <= top
    ensures Faithful(p, Prune(p, r.d, r.ts, top), chain)
    ensures Lookup(r.d, top + 1) == D(p, chain, top + 1)
    ensures |Prune(p, r.d, r.ts, top).ts| <= Max(4 * p.window, 2 * p.window + 2 + |chain| - top)
  {
    CoversFromWindow(p, c, r.d, chain, top);
    PrunedIsFaithful(p, r.d, r.ts, chain, top);
    PrunedIsSmall(p, r.d, r.ts, top, |chain|);
  }

  lemma HeldAdvance(p: Params, c: Cache, chain: seq<real>, r: Replayed)
    requires p.Valid() && Faithful(p, c, chain)
    requires TrueMultipliers(p, r.d, chain) && TrueTimes(r.ts, chain)
    requires forall h :: h in c.d ==> h in r.d
    ensures Faithful(p, Cache(r.d, r.ts, c.last), chain)
    ensures HeldAfterHeader(r.d, c.last) == if c.last.Some? then D(p, chain, c.last.value + 1) else 1.0
  {
  }

  // A replay up to `top` on caches that are true of a chain reaching at least that far.
  lemma {:induction false} AdvanceIsFaithful(p: Params, c: Cache, headers: map<int, real>, chain: seq<real>, top: int)
    requires p.Valid() && Faithful(p, c, chain) && TrueTimes(headers, chain) && p.start < top < |chain|
    requires c.last.Some? ==> c.last.value <= top
    ensures var a := Advance(p, c, headers, top);
            && Faithful(p, a.cache, chain)
            && (a.complete ==> a.multiplier == D(p, chain, top + 1))
            && (a.complete ==> |a.cache.ts| <= Max(4 * p.window, 2 * p.window + 2 + |chain| - top))
            && (!a.complete ==> a.multiplier == if c.last.Some? then D(p, chain, c.last.value + 1) else 1.0)
  {
    ReplayIsTrue(p, c.d, c.ts, headers, chain, FirstHeight(p, c), top + 2);
    var r := Replay(p, c.d, c.ts, headers, FirstHeight(p, c), top + 2);
    if r.ok {
      CompleteAdvance(p, c, chain, top, r);
    } else {
      HeldAdvance(p, c, chain, r);
    }
  }

  // What a poll that reaches the replay answers on the chain `now`: n is its block count.
  ghost predicate Answered(p: Params, a: Answer, last: Option<int>, now: seq<real>, n: int)
    requires p.Valid()
  {
    && (last.Some? ==> last.value < |now|)
    && n <= |now|
    && (a.complete ==> a.multiplier == D(p, now, n))
    && (a.complete ==> |a.cache.ts| <= Max(4 * p.window, 2 * p.window + 3 + |now| - n))
    && (!a.complete ==> a.multiplier == if last.Some? then D(p, now, last.value + 1) else 1.0)
  }

  // A replay on caches that are true of the chain seen so far leaves them true of the splice.
  lemma {:induction false} SplicedAdvance(p: Params, c: Cache, seen: seq<real>, e: Event)
    requires p.Valid() && Faithful(p, c, seen) && Rooted(p, c) && Honest(e) && Replays(p, e)
    requires c.last.Some? ==> c.last.value <= |e.chain| - 1
    ensures var a, now := Advance(p, c, e.poll.headers, |e.chain| - 1), Splice(p, c, seen, e.chain);
            Faithful(p, a.cache, now) && Rooted(p, a.cache) && Answered(p, a, c.last, now, |e.chain|)
  {
    var top := |e.chain| - 1;
    SpliceIsFaithful(p, c, seen, e.chain);
    AdvanceReadsSplice(p, c, seen, e.poll.headers, e.chain, top);
    AdvanceIsFaithful(p, c, Unheld(p, c, e.poll.headers), Splice(p, c, seen, e.chain), top);
    AdvanceIsRooted(p, c, e.poll.headers, top);
  }

  function LastKept(c: Cache, n: int): Option<int> {
    if c.last.Some? && c.last.value < n then c.last else None
  }

  // A poll that reaches the replay starts it on the caches it kept, or on none.
  lemma {:induction false} StepIsAdvance(p: Params, c: Cache, e: Event)
    requires p.Valid() && Honest(e) && Replays(p, e)
    ensures var top := |e.chain| - 1;
            && Step(p, c, e.poll) == Advance(p, Restart(c, top), e.poll.headers, top)
            && Restart(c, top).last == LastKept(c, |e.chain|)
            && Restart(c, top) == if c.last.Some? && top < c.last.value then EMPTY else c
  {
  }

  // What one poll does, in every outcome, to caches that are true of the chain seen so far.
  lemma {:induction false} StepIsFaithful(p: Params, c: Cache, seen: seq<real>, e: Event)
    requires p.Valid() && Faithful(p, c, seen) && Rooted(p, c) && Honest(e)
    ensures var a, now := Step(p, c, e.poll), Seen(p, c, seen, e);
            && Faithful(p, a.cache, now) && Rooted(p, a.cache)
            && if Replays(p, e) then Answered(p, a, LastKept(c, |e.chain|), now, |e.chain|) else a.cache == c && !a.complete
  {
    if Replays(p, e) {
      StepIsAdvance(p, c, e);
      if Restart(c, |e.chain| - 1) == c {
        SplicedAdvance(p, c, seen, e);
      } else {
        SpliceOfExtension(p, EMPTY, [], e.chain);
        SplicedAdvance(p, EMPTY, [], e);
      }
    }
  }

  // ---------------------------------------------------------------- any run

  // After any run, with any reorganisations between the polls, the caches are true of the chain
  // as the miner has seen it.
  lemma {:induction false} RunIsFaithful(p: Params, run: seq<Event>)
    requires p.Valid() && AllHonest(run)
    ensures Faithful(p, CacheAfter(p, run), SeenAfter(p, run)) && Rooted(p, CacheAfter(p, run))
    decreases |run|
  {
    if run != [] {
      var before, e := run[..|run| - 1], run[|run| - 1];
      RunIsFaithful(p, before);
      StepIsFaithful(p, CacheAfter(p, before), SeenAfter(p, before), e);
    }
  }

  lemma LastEvent(p: Params, run: seq<Event>, e: Event)
    requires AllHonest(run + [e])
    ensures AllHonest(run) && Honest(e)
    ensures SeenAfter(p, run + [e]) == Seen(p, CacheAfter(p, run), SeenAfter(p, run), e)
  {
    assert (run + [e])[..|run|] == run;
    assert (run + [e])[|run|] == e;
    forall i | 0 <= i < |run| ensures Honest(run[i]) {
      assert (run + [e])[i] == run[i];
    }
  }

  // After any run a poll that completes returns the plain recurrence on the chain as seen.  It is
  // the daemon's own multiplier exactly when the two chains have the same one at that height, and
  // they do when they agree on the window ends.
  lemma {:induction false} CompletePollIsSpliced(p: Params, run: seq<Event>, e: Event)
    requires p.Valid() && AllHonest(run + [e])
    requires Step(p, CacheAfter(p, run), e.poll).complete
    ensures var m, now, n := Step(p, CacheAfter(p, run), e.poll).multiplier, SeenAfter(p, run + [e]), |e.chain|;
            && n <= |now| && m == D(p, now, n)
            && (m == D(p, e.chain, n) <==> D(p, now, n) == D(p, e.chain, n))
            && (SameWindows(p, now, e.chain, n) ==> m == D(p, e.chain, n))
  {
    LastEvent(p, run, e);
    RunIsFaithful(p, run);
    StepIsFaithful(p, CacheAfter(p, run), SeenAfter(p, run), e);
    if SameWindows(p, SeenAfter(p, run + [e]), e.chain, |e.chain|) {
      DOfSameWindows(p, SeenAfter(p, run + [e]), e.chain, |e.chain|);
    }
  }

  lemma {:induction false} SameLengthCompletes(p: Params, c: Cache, e: Event)
    requires p.Valid() && Rooted(p, c) && Honest(e) && Replays(p, e) && c.last == Some(|e.chain| - 1)
    ensures Step(p, c, e.poll).complete
  {
    var n := |e.chain|;
    assert WindowHeld(p, c, n);
    ReplayCompletes(p, c.d, c.ts, e.poll.headers, n, n + 1);
  }

  // A chain of the length replayed last asks for no header at all: the poll completes, and repeats
  // the multiplier of the chain it replaced.  It is right exactly when the two chains share it.
  lemma SameLengthReorg(p: Params, run: seq<Event>, e: Event)
    requires p.Valid() && AllHonest(run + [e]) && Replays(p, e)
    requires CacheAfter(p, run).last == Some(|e.chain| - 1)
    ensures var a, seen, n := Step(p, CacheAfter(p, run), e.poll), SeenAfter(p, run), |e.chain|;
            && a.complete && n <= |seen| && a.multiplier == D(p, seen, n)
            && (a.multiplier == D(p, e.chain, n) <==> D(p, seen, n) == D(p, e.chain, n))
  {
    LastEvent(p, run, e);
    RunIsFaithful(p, run);
    SameLengthCompletes(p, CacheAfter(p, run), e);
    CompletePollIsSpliced(p, run, e);
    SpliceKeepsSeries(p, CacheAfter(p, run), SeenAfter(p, run), e.chain, |e.chain|);
  }

  // A poll completes exactly when it is past the warm-up and each window end that it has still to
  // read is cached or served.
  lemma {:induction false} PollCompletes(p: Params, c: Cache, e: Event)
    requires p.Valid() && Honest(e)
    ensures var c1 := Restart(c, |e.chain| - 1);
            Step(p, c, e.poll).complete <==>
              Replays(p, e) && forall j :: FirstHeight(p, c1) <= j <= |e.chain| ==> Available(p, c1.ts, e.poll.headers, j)
  {
    var c1 := Restart(c, |e.chain| - 1);
    ReplayCompletes(p, c1.d, c1.ts, e.poll.headers, FirstHeight(p, c1), |e.chain| + 1);
  }

  // Without a block count the multiplier of the last replayed height is held.
  lemma HeldInfo(p: Params, c: Cache, seen: seq<real>)
    requires p.Valid() && Faithful(p, c, seen)
    ensures c.last.Some? ==> c.last.value < |seen| && HeldAfterInfo(c) == D(p, seen, c.last.value)
    ensures c.last.None? ==> HeldAfterInfo(c) == 1.0
  {
  }

  // The polls that end before the replay.
  lemma {:induction false} EarlyAnswers(p: Params, c: Cache, e: Event)
    requires p.Valid() && Honest(e)
    ensures e.poll.count.None? ==> Step(p, c, e.poll) == Answer(c, HeldAfterInfo(c), false)
    ensures e.poll.count.Some? && !Replays(p, e) ==> Step(p, c, e.poll) == Answer(c, 1.0, false)
  {
  }

  // What is held on a chain: n blocks for a poll that reached the replay.
  ghost predicate HeldOnto(p: Params, m: real, last: Option<int>, now: seq<real>)
    requires p.Valid()
  {
    (last.Some? ==> last.value < |now|) && m == if last.Some? then D(p, now, last.value + 1) else 1.0
  }

  // What a failed poll holds on to, on the chain as seen.  Losing a header holds the multiplier
  // after the last replayed block; losing the block count holds the one before it.
  lemma {:induction false} HeldAfterStart(p: Params, run: seq<Event>, e: Event)
    requires p.Valid() && AllHonest(run + [e]) && Replays(p, e) && !Step(p, CacheAfter(p, run), e.poll).complete
    ensures HeldOnto(p, Step(p, CacheAfter(p, run), e.poll).multiplier, LastKept(CacheAfter(p, run), |e.chain|), SeenAfter(p, run + [e]))
  {
    LastEvent(p, run, e);
    RunIsFaithful(p, run);
    StepIsFaithful(p, CacheAfter(p, run), SeenAfter(p, run), e);
  }

  lemma {:induction false} HeldBeforeStart(p: Params, run: seq<Event>, e: Event)
    requires p.Valid() && AllHonest(run + [e]) && !Replays(p, e)
    ensures var c, now, m := CacheAfter(p, run), SeenAfter(p, run + [e]), Step(p, CacheAfter(p, run), e.poll).multiplier;
            && (e.poll.count.None? && c.last.None? ==> m == 1.0)
            && (e.poll.count.None? && c.last.Some? ==> c.last.value < |now| && m == D(p, now, c.last.value))
            && (e.poll.count.Some? ==> m == 1.0)
  {
    LastEvent(p, run, e);
    RunIsFaithful(p, run);
    EarlyAnswers(p, CacheAfter(p, run), e);
    HeldInfo(p, CacheAfter(p, run), SeenAfter(p, run));
  }

  lemma {:induction false} HeldMultiplier(p: Params, run: seq<Event>, e: Event)
    requires p.Valid() && AllHonest(run + [e]) && !Step(p, CacheAfter(p, run), e.poll).complete
    ensures var c, now, m := CacheAfter(p, run), SeenAfter(p, run + [e]), Step(p, CacheAfter(p, run), e.poll).multiplier;
            && (e.poll.count.None? && c.last.None? ==> m == 1.0)
            && (e.poll.count.None? && c.last.Some? ==> c.last.value < |now| && m == D(p, now, c.last.value))
            && (e.poll.count.Some? && !Replays(p, e) ==> m == 1.0)
            && (Replays(p, e) ==> HeldOnto(p, m, LastKept(c, |e.chain|), now))
  {
    if Replays(p, e) {
      HeldAfterStart(p, run, e);
    } else {
      HeldBeforeStart(p, run, e);
    }
  }

  // At START or below the answer is 1.0.  That is the recurrence, except at START itself when the
  // first corrected multiplier is not 1.0.
  lemma WarmupIsExact(p: Params, c: Cache, e: Event)
    requires p.Valid() && Honest(e) && e.poll.count.Some? && !Replays(p, e)
    ensures var m, n := Step(p, c, e.poll).multiplier, |e.chain|;
            && (m == D(p, e.chain, n) <==> n <= p.start || D(p, e.chain, p.start + 1) == 1.0)
            && (p.lo < 1.0 < p.hi ==>
                  (m == D(p, e.chain, n) <==> n <= p.start || OnTarget(p, e.chain, p.start + 1)))
  {
    if p.start < |e.chain| && p.lo < 1.0 < p.hi {
      FirstCorrection(p, e.chain);
    }
  }

  lemma {:induction false} WarmSum(p: Params, chain: seq<real>, first: int, end: int)
    requires p.Valid() && 0 <= first <= end <= p.start + 1 && end <= |chain|
    ensures SumD(p, chain, first, end) == (end - first) as real
    decreases end
  {
    if first < end {
      WarmSum(p, chain, first, end - 1);
    }
  }

  lemma QuotientIsOne(x: real, y: real)
    requires 0.0 < y
    ensures x / y == 1.0 <==> x == y
  {
    assert x / y * y == x;
  }

  lemma FirstCorrection(p: Params, chain: seq<real>)
    requires p.Valid() && p.start < |chain| && p.lo < 1.0 < p.hi
    ensures D(p, chain, p.start + 1) == 1.0 <==> OnTarget(p, chain, p.start + 1)
  {
    var k := p.start + 1;
    if Span(p, chain, k) > 0.0 {
      WarmSum(p, chain, k - p.window, k);
      NextIsClampedRate(p, p.window as real, Span(p, chain, k));
      QuotientIsOne(p.window as real * TARGET, Span(p, chain, k));
    }
  }

  // The window took the target time, or no time that can be measured.
  predicate OnTarget(p: Params, chain: seq<real>, k: int)
    requires p.Valid() && p.start < k <= |chain|
  {
    Span(p, chain, k) <= 0.0 || Span(p, chain, k) == p.window as real * TARGET
  }

  // ---------------------------------------------------------------- runs whose reorganisations are noticed

  // How the chain may move so that the splice is the chain itself: it grows, or it is cut back so
  // far that the miner notices (its top is below the last height it replayed).
  ghost predicate Noticed(c: Cache, basis: seq<real>, chain: seq<real>) {
    basis <= chain || (c.last.Some? && |chain| - 1 < c.last.value)
  }

  // The chain of the last poll that reached the replay.
  ghost function BasisAfter(p: Params, run: seq<Event>): seq<real> {
    if run == [] then []
    else if Replays(p, run[|run| - 1]) then run[|run| - 1].chain
    else BasisAfter(p, run[..|run| - 1])
  }

  ghost predicate Admissible(p: Params, run: seq<Event>) {
    run != [] ==>
      var before, e := run[..|run| - 1], run[|run| - 1];
      && Admissible(p, before)
      && Honest(e)
      && (Replays(p, e) ==> Noticed(CacheAfter(p, before), BasisAfter(p, before), e.chain))
  }

  // Then the chain as seen is the daemon's.
  lemma {:induction false} SeenIsBasis(p: Params, run: seq<Event>)
    requires Admissible(p, run)
    ensures AllHonest(run) && SeenAfter(p, run) == BasisAfter(p, run)
    decreases |run|
  {
    if run != [] {
      var before, e := run[..|run| - 1], run[|run| - 1];
      SeenIsBasis(p, before);
      forall i | 0 <= i < |run| ensures Honest(run[i]) {
        if i < |run| - 1 {
          assert before[i] == run[i];
        }
      }
      if Replays(p, e) && BasisAfter(p, before) <= e.chain {
        SpliceOfExtension(p, CacheAfter(p, before), BasisAfter(p, before), e.chain);
      }
    }
  }

  lemma LastChain(p: Params, run: seq<Event>, e: Event)
    requires Admissible(p, run + [e])
    ensures AllHonest(run + [e]) && SeenAfter(p, run + [e]) == if Replays(p, e) then e.chain else SeenAfter(p, run)
  {
    SeenIsBasis(p, run + [e]);
    LastEvent(p, run, e);
    assert (run + [e])[|run|] == e;
  }

  // The theorem for such runs: failed, partial, pruned, restarted polls notwithstanding, a poll
  // that completes returns the multiplier of the plain recurrence for the block being mined.
  lemma CompletePollIsExact(p: Params, run: seq<Event>, e: Event)
    requires p.Valid() && Admissible(p, run + [e])
    requires Step(p, CacheAfter(p, run), e.poll).complete
    ensures Step(p, CacheAfter(p, run), e.poll).multiplier == D(p, e.chain, |e.chain|)
  {
    LastChain(p, run, e);
    LastEvent(p, run, e);
    CompletePollIsSpliced(p, run, e);
    PollCompletes(p, CacheAfter(p, run), e);
  }

  // Two miners on one chain agree, whatever each of them went through before.
  lemma MinersAgree(p: Params, run: seq<Event>, other: seq<Event>, e: Event, f: Event)
    requires p.Valid() && Admissible(p, run + [e]) && Admissible(p, other + [f]) && e.chain == f.chain
    requires Step(p, CacheAfter(p, run), e.poll).complete && Step(p, CacheAfter(p, other), f.poll).complete
    ensures Step(p, CacheAfter(p, run), e.poll).multiplier == Step(p, CacheAfter(p, other), f.poll).multiplier
  {
    CompletePollIsExact(p, run, e);
    CompletePollIsExact(p, other, f);
  }
}
