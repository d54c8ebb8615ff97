// The miner's cached replay of the difficulty series.
//
// One poll of the daemon is a value: the block count it reported, if it answered, and the
// headers it was willing to serve.  `Step` is the whole of one poll as a function on the caches;
// the class in Miner.dfy is proved to compute it.
module DifficultyReplay {
  import opened Basics
  import opened DifficultyRecurrence

  // d: multipliers already replayed; ts: timestamps already fetched; last: last replayed height.
  datatype Cache = Cache(d: map<int, real>, ts: map<int, real>, last: Option<int>)

  const EMPTY: Cache := Cache(map[], map[], None)

  // A header that is absent from `headers` is one whose request fails.
  datatype Poll = Poll(count: Option<int>, headers: map<int, real>)

  datatype Answer = Answer(cache: Cache, multiplier: real, complete: bool)

  // ---------------------------------------------------------------- one poll

  function Lookup(d: map<int, real>, h: int): real {
    if h in d then d[h] else 1.0
  }

  function LookupSum(d: map<int, real>, first: int, end: int): real
    decreases end - first
  {
    if end <= first then 0.0 else LookupSum(d, first, end - 1) + Lookup(d, end - 1)
  }

  function Fetch(ts: map<int, real>, headers: map<int, real>, h: int): map<int, real> {
    if h in ts || h !in headers then ts else ts[h := headers[h]]
  }

  // The multiplier for height k, from the multipliers and timestamps at hand.
  function NextMultiplier(p: Params, d: map<int, real>, k: int, observed: real): real
    requires 0 < p.window
  {
    if observed <= 0.0 then Lookup(d, k - 1)
    else Next(p, LookupSum(d, k - p.window, k), observed)
  }

  datatype Replayed = Replayed(d: map<int, real>, ts: map<int, real>, ok: bool)

  // Height k alone: fetch the two ends of its window, newest first, and store its multiplier.
  function ReplayHeight(p: Params, d: map<int, real>, ts: map<int, real>, headers: map<int, real>, k: int): Replayed
    requires 0 < p.window
  {
    var ts1 := Fetch(ts, headers, k - 1);
    var ts2 := Fetch(ts1, headers, k - 1 - p.window);
    if k - 1 !in ts1 then Replayed(d, ts1, false)
    else if k - 1 - p.window !in ts2 then Replayed(d, ts1, false)
    else Replayed(d[k := NextMultiplier(p, d, k, ts2[k - 1] - ts2[k - 1 - p.window])], ts2, true)
  }

  // Heights k, k+1, ..., stop-1, until a header cannot be had.
  function Replay(p: Params, d: map<int, real>, ts: map<int, real>, headers: map<int, real>, k: int, stop: int): Replayed
    requires 0 < p.window
    decreases stop - k
  {
    if stop <= k then Replayed(d, ts, true)
    else
      var one := ReplayHeight(p, d, ts, headers, k);
      if one.ok then Replay(p, one.d, one.ts, headers, k + 1, stop) else one
  }

  function From(m: map<int, real>, bound: int): map<int, real> {
    map h | h in m && bound <= h :: m[h]
  }

  // Only the trailing windows are kept, and only once the timestamp cache has grown.
  function Prune(p: Params, d: map<int, real>, ts: map<int, real>, top: int): Cache {
    if |ts| > 4 * p.window
    then Cache(From(d, top - 2 * p.window - 2), From(ts, top - 2 * p.window - 2), Some(top))
    else Cache(d, ts, Some(top))
  }

  // A chain shorter than the last one replayed drops every cache.
  function Restart(c: Cache, top: int): Cache {
    if c.last.Some? && top < c.last.value then EMPTY else c
  }

  function FirstHeight(p: Params, c: Cache): int {
    if c.last.None? then p.start + 1 else c.last.value + 1
  }

  // What is held when a header cannot be fetched.
  function HeldAfterHeader(d: map<int, real>, last: Option<int>): real {
    if last.Some? && last.value != 0 then Lookup(d, last.value + 1) else 1.0
  }

  // What is held when the block count cannot be fetched.
  function HeldAfterInfo(c: Cache): real {
    Lookup(c.d, if c.last.Some? then c.last.value else 0)
  }

  // Replay up to the multiplier of block top+1, on caches that belong to this chain.
  function Advance(p: Params, c: Cache, headers: map<int, real>, top: int): Answer
    requires 0 < p.window
  {
    var r := Replay(p, c.d, c.ts, headers, FirstHeight(p, c), top + 2);
    if !r.ok then Answer(Cache(r.d, r.ts, c.last), HeldAfterHeader(r.d, c.last), false)
    else Answer(Prune(p, r.d, r.ts, top), Lookup(r.d, top + 1), true)
  }

  function Step(p: Params, c: Cache, poll: Poll): Answer {
    if p.window <= 0 then Answer(c, 1.0, false)
    else if poll.count.None? then Answer(c, HeldAfterInfo(c), false)
    else
      var top := poll.count.value - 1;
      if top <= p.start then Answer(c, 1.0, false)
      else Advance(p, Restart(c, top), poll.headers, top)
  }

  // ---------------------------------------------------------------- caches that tell the truth

  ghost predicate TrueTimes(ts: map<int, real>, chain: seq<real>) {
    forall h {:trigger h in ts} :: h in ts ==> 0 <= h < |chain| && ts[h] == chain[h]
  }

  ghost predicate TrueMultipliers(p: Params, d: map<int, real>, chain: seq<real>)
    requires p.Valid()
  {
    forall h {:trigger h in d} :: h in d ==> p.start < h <= |chain| && d[h] == D(p, chain, h)
  }

  // Every multiplier past START in [first, end) is at hand.
  ghost predicate Covers(p: Params, d: map<int, real>, first: int, end: int) {
    forall h :: p.start < h && first <= h < end ==> h in d
  }

  // The caches agree with `chain`, and the windows the next replay will read are all there.
  ghost predicate Faithful(p: Params, c: Cache, chain: seq<real>)
    requires p.Valid()
  {
    && TrueTimes(c.ts, chain)
    && TrueMultipliers(p, c.d, chain)
    && (c.last.Some? ==> p.start < c.last.value < |chain| && Covers(p, c.d, c.last.value - 2 * p.window - 2, c.last.value + 2))
  }

  lemma FaithfulOnExtension(p: Params, c: Cache, chain: seq<real>, longer: seq<real>)
    requires p.Valid() && Faithful(p, c, chain) && chain <= longer
    ensures Faithful(p, c, longer)
  {
    forall h | h in c.d ensures c.d[h] == D(p, longer, h) {
      DOfExtension(p, chain, longer, h);
    }
  }

  lemma {:induction false} LookupSumIsSum(p: Params, d: map<int, real>, chain: seq<real>, first: int, end: int)
    requires p.Valid() && TrueMultipliers(p, d, chain) && Covers(p, d, first, end)
    requires 0 <= first && end <= |chain|
    ensures LookupSum(d, first, end) == SumD(p, chain, first, end)
    decreases end - first
  {
    if first < end {
      LookupSumIsSum(p, d, chain, first, end - 1);
    }
  }

  lemma NextMultiplierIsD(p: Params, d: map<int, real>, chain: seq<real>, k: int, observed: real)
    requires p.Valid() && TrueMultipliers(p, d, chain) && Covers(p, d, k - p.window, k)
    requires p.start < k <= |chain| && observed == Span(p, chain, k)
    ensures NextMultiplier(p, d, k, observed) == D(p, chain, k)
  {
    LookupSumIsSum(p, d, chain, k - p.window, k);
  }

  ghost predicate TrueReplay(p: Params, r: Replayed, d: map<int, real>, chain: seq<real>)
    requires p.Valid()
  {
    TrueMultipliers(p, r.d, chain) && TrueTimes(r.ts, chain) && forall h :: h in d ==> h in r.d
  }

  lemma {:induction false} HeightIsTrue(p: Params, d: map<int, real>, ts: map<int, real>, headers: map<int, real>, chain: seq<real>, k: int)
    requires p.Valid() && TrueMultipliers(p, d, chain) && TrueTimes(ts, chain) && TrueTimes(headers, chain)
    requires p.start < k && k <= |chain| && Covers(p, d, k - p.window, k)
    ensures TrueReplay(p, ReplayHeight(p, d, ts, headers, k), d, chain)
    ensures ReplayHeight(p, d, ts, headers, k).ok ==> k in ReplayHeight(p, d, ts, headers, k).d
  {
    var ts1 := Fetch(ts, headers, k - 1);
    var ts2 := Fetch(ts1, headers, k - 1 - p.window);
    if k - 1 in ts1 && k - 1 - p.window in ts2 {
      NextMultiplierIsD(p, d, chain, k, ts2[k - 1] - ts2[k - 1 - p.window]);
    }
  }

  // Replaying any stretch of heights over honest headers keeps the caches true, and a replay
  // that completes fills the stretch.
  lemma {:induction false} ReplayIsTrue(p: Params, d: map<int, real>, ts: map<int, real>, headers: map<int, real>,
                                        chain: seq<real>, k: int, stop: int)
    requires p.Valid() && TrueMultipliers(p, d, chain) && TrueTimes(ts, chain) && TrueTimes(headers, chain)
    requires p.start < k && stop <= |chain| + 1 && Covers(p, d, k - p.window, k)
    ensures TrueReplay(p, Replay(p, d, ts, headers, k, stop), d, chain)
    ensures Replay(p, d, ts, headers, k, stop).ok ==> Covers(p, Replay(p, d, ts, headers, k, stop).d, k, stop)
    decreases stop - k
  {
    if k < stop {
      HeightIsTrue(p, d, ts, headers, chain, k);
      var one := ReplayHeight(p, d, ts, headers, k);
      if one.ok {
        ReplayIsTrue(p, one.d, one.ts, headers, chain, k + 1, stop);
      }
    }
  }

  // ---------------------------------------------------------------- when a replay completes

  // Both ends of the window of height j are at hand or on offer.
  predicate Available(p: Params, ts: map<int, real>, headers: map<int, real>, j: int) {
    (j - 1 in ts || j - 1 in headers) && (j - 1 - p.window in ts || j - 1 - p.window in headers)
  }

  // A replay completes exactly when every window end it reads is cached or served.
  lemma {:induction false} ReplayCompletes(p: Params, d: map<int, real>, ts: map<int, real>, headers: map<int, real>, k: int, stop: int)
    requires 0 < p.window
    ensures Replay(p, d, ts, headers, k, stop).ok <==> forall j :: k <= j < stop ==> Available(p, ts, headers, j)
    decreases stop - k
  {
    if k < stop {
      var one := ReplayHeight(p, d, ts, headers, k);
      assert one.ok <==> Available(p, ts, headers, k);
      if one.ok {
        ReplayCompletes(p, one.d, one.ts, headers, k + 1, stop);
        assert forall j :: Available(p, one.ts, headers, j) <==> Available(p, ts, headers, j);
      }
    }
  }

  // ---------------------------------------------------------------- what a replay reads

  // From `floor` on, two daemons serve the same headers, as far as they are not cached.
  ghost predicate SameOffer(ts: map<int, real>, headers: map<int, real>, other: map<int, real>, floor: int) {
    forall h :: floor <= h && h !in ts ==> (h in headers <==> h in other) && (h in headers ==> headers[h] == other[h])
  }

  // A cached timestamp is never asked for again.
  lemma {:induction false} ReplayIgnores(p: Params, d: map<int, real>, ts: map<int, real>, headers: map<int, real>, other: map<int, real>,
                                         floor: int, k: int, stop: int)
    requires 0 < p.window && floor <= k - 1 - p.window && SameOffer(ts, headers, other, floor)
    ensures Replay(p, d, ts, headers, k, stop) == Replay(p, d, ts, other, k, stop)
    decreases stop - k
  {
    if k < stop {
      var one := ReplayHeight(p, d, ts, headers, k);
      assert Fetch(ts, headers, k - 1) == Fetch(ts, other, k - 1);
      assert one == ReplayHeight(p, d, ts, other, k);
      if one.ok {
        ReplayIgnores(p, one.d, one.ts, headers, other, floor, k + 1, stop);
      }
    }
  }

  predicate WindowIn(p: Params, ts: map<int, real>, j: int) {
    j - 1 in ts && j - 1 - p.window in ts
  }

  ghost predicate WindowsIn(p: Params, ts: map<int, real>, first: int, end: int) {
    forall j :: first <= j < end ==> WindowIn(p, ts, j)
  }

  // What a replay of the heights from k to stop has added: entries for these heights alone, with
  // both window ends of each.
  ghost predicate Extends(p: Params, d: map<int, real>, ts: map<int, real>, k: int, stop: int, r: Replayed) {
    && (forall h :: h in ts ==> h in r.ts) && (forall h :: h in d ==> h in r.d)
    && (forall h :: h in r.d && h !in d ==> k <= h < stop && WindowsIn(p, r.ts, k, h + 1))
    && (r.ok ==> (forall h :: k <= h < stop ==> h in r.d) && WindowsIn(p, r.ts, k, stop))
  }

  lemma {:induction false} WindowsJoin(p: Params, ts: map<int, real>, k: int, end: int)
    requires WindowIn(p, ts, k) && WindowsIn(p, ts, k + 1, end)
    ensures WindowsIn(p, ts, k, end)
  {
  }

  lemma {:induction false} ExtendsByOne(p: Params, d: map<int, real>, ts: map<int, real>, k: int, stop: int, one: Replayed, r: Replayed)
    requires k < stop && WindowIn(p, one.ts, k) && one.d.Keys == d.Keys + {k} && forall h :: h in ts ==> h in one.ts
    requires Extends(p, one.d, one.ts, k + 1, stop, r)
    ensures Extends(p, d, ts, k, stop, r)
  {
    assert WindowIn(p, r.ts, k);
    forall h | h in r.d && h !in d ensures k <= h < stop && WindowsIn(p, r.ts, k, h + 1) {
      if h != k {
        WindowsJoin(p, r.ts, k, h + 1);
      }
    }
    if r.ok {
      WindowsJoin(p, r.ts, k, stop);
    }
  }

  // A replay only adds to the caches, and caches both window ends of every height it stores.
  lemma {:induction false} ReplayHolds(p: Params, d: map<int, real>, ts: map<int, real>, headers: map<int, real>, k: int, stop: int)
    requires 0 < p.window
    ensures Extends(p, d, ts, k, stop, Replay(p, d, ts, headers, k, stop))
    decreases stop - k
  {
    if k < stop {
      var one := ReplayHeight(p, d, ts, headers, k);
      if one.ok {
        ReplayHolds(p, one.d, one.ts, headers, k + 1, stop);
        ExtendsByOne(p, d, ts, k, stop, one, Replay(p, one.d, one.ts, headers, k + 1, stop));
      }
    }
  }
}
