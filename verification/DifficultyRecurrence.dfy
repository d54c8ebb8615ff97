// The synthetic difficulty series of a chain: the plain windowed recurrence, computed from
// block timestamps alone, and what it guarantees about pacing.
//
// A chain is the sequence of its block timestamps, indexed by height.  Timestamps are taken as
// arbitrary reals, which covers the integer timestamps the miner reads.
module DifficultyRecurrence {
  import opened Basics

  const TARGET: real := 120.0

  datatype Params = Params(window: int, start: int, lo: real, hi: real) {
    // Multipliers are clamped into an interval around 1.
    ghost predicate ClampOk() {
      0.0 < lo <= 1.0 <= hi
    }

    // Corrections begin once a whole window of blocks exists.
    ghost predicate Valid() {
      ClampOk() && 1 <= window <= start
    }

    function Clamp(x: real): real {
      RMax(lo, RMin(hi, x))
    }
  }

  // The multiplier in force for the block at height k.
  function D(p: Params, chain: seq<real>, k: int): real
    requires p.Valid() && k <= |chain|
    decreases Max(k, 0), 1
  {
    if k <= p.start then 1.0
    else if Span(p, chain, k) <= 0.0 then D(p, chain, k - 1)
    else Next(p, SumD(p, chain, k - p.window, k), Span(p, chain, k))
  }

  // The window's mean multiplier, scaled by target time over observed time, and clamped.
  function Next(p: Params, sum: real, span: real): real
    requires 0 < p.window && 0.0 < span
  {
    p.Clamp(sum / p.window as real * (p.window as real * TARGET) / span)
  }

  // Time taken by the window that ends at block k-1.
  function Span(p: Params, chain: seq<real>, k: int): real
    requires p.Valid() && p.start < k <= |chain|
  {
    chain[k - 1] - chain[k - 1 - p.window]
  }

  function SumD(p: Params, chain: seq<real>, first: int, end: int): real
    requires p.Valid() && end <= |chain|
    decreases Max(end, 0), 0
  {
    if end <= first || end <= 0 then 0.0 else SumD(p, chain, first, end - 1) + D(p, chain, end - 1)
  }

  // ---------------------------------------------------------------- basic laws

  // d is `work` over `span`, or the bound that this exceeds.
  ghost predicate ClampedRate(p: Params, d: real, work: real, span: real) {
    || (p.lo <= d <= p.hi && d * span == work)
    || (d == p.lo && work <= p.lo * span)
    || (d == p.hi && p.hi * span <= work)
  }

  lemma ClampedQuotient(p: Params, work: real, span: real)
    requires p.ClampOk() && 0.0 < span
    ensures ClampedRate(p, p.Clamp(work / span), work, span)
  {
    var q := work / span;
    assert q * span == work;
    ScaleOrder(q, p.lo, span);
    ScaleOrder(p.hi, q, span);
  }

  lemma NextMeaning(p: Params, sum: real, span: real)
    requires p.ClampOk() && 0 < p.window && 0.0 < span
    ensures ClampedRate(p, Next(p, sum, span), 120.0 * sum, span)
  {
    NextIsClampedRate(p, sum, span);
    ClampedQuotient(p, sum * TARGET, span);
  }

  // Up to START the multiplier is 1; a window that took no measurable time changes nothing; any
  // other one gives the sum of its multipliers times the target time, over the time it took.
  lemma {:induction false} DMeaning(p: Params, chain: seq<real>, k: int)
    requires p.Valid() && k <= |chain|
    ensures k <= p.start ==> D(p, chain, k) == 1.0
    ensures p.start < k && chain[k - 1] <= chain[k - 1 - p.window] ==> D(p, chain, k) == D(p, chain, k - 1)
    ensures p.start < k && chain[k - 1] > chain[k - 1 - p.window] ==>
              ClampedRate(p, D(p, chain, k), 120.0 * SumD(p, chain, k - p.window, k), chain[k - 1] - chain[k - 1 - p.window])
  {
    if p.start < k && Span(p, chain, k) > 0.0 {
      NextMeaning(p, SumD(p, chain, k - p.window, k), Span(p, chain, k));
    }
  }

  // A window's sum is that of its multipliers, one height at a time.
  lemma SumMeaning(p: Params, chain: seq<real>, first: nat, end: nat)
    requires p.Valid() && end <= |chain|
    ensures first >= end ==> SumD(p, chain, first, end) == 0.0
    ensures first < end ==> SumD(p, chain, first, end) == SumD(p, chain, first, end - 1) + D(p, chain, end - 1)
  {
  }

  // Every multiplier stays inside the clamp.
  lemma {:induction false} DInRange(p: Params, chain: seq<real>, k: int)
    requires p.Valid() && k <= |chain|
    ensures p.lo <= D(p, chain, k) <= p.hi
    decreases Max(k, 0)
  {
    if k > p.start {
      DInRange(p, chain, k - 1);
    }
  }

  // Two chains agree on the ends of the window that height j reads.
  ghost predicate SameWindow(p: Params, a: seq<real>, b: seq<real>, j: int)
    requires p.Valid() && p.start < j <= |a| && j <= |b|
  {
    a[j - 1] == b[j - 1] && a[j - 1 - p.window] == b[j - 1 - p.window]
  }

  ghost predicate SameWindows(p: Params, a: seq<real>, b: seq<real>, k: int)
    requires p.Valid() && k <= |a| && k <= |b|
  {
    forall j :: p.start < j <= k ==> SameWindow(p, a, b, j)
  }

  // A multiplier depends on nothing but the window ends up to its height.
  lemma {:induction false} DOfSameWindows(p: Params, a: seq<real>, b: seq<real>, k: int)
    requires p.Valid() && k <= |a| && k <= |b| && SameWindows(p, a, b, k)
    ensures D(p, a, k) == D(p, b, k)
    decreases Max(k, 0), 1
  {
    if k > p.start {
      assert SameWindow(p, a, b, k);
      DOfSameWindows(p, a, b, k - 1);
      SumOfSameWindows(p, a, b, k - p.window, k);
    }
  }

  lemma {:induction false} SumOfSameWindows(p: Params, a: seq<real>, b: seq<real>, first: int, end: int)
    requires p.Valid() && end <= |a| && end <= |b| && SameWindows(p, a, b, end)
    ensures SumD(p, a, first, end) == SumD(p, b, first, end)
    decreases Max(end, 0), 0
  {
    if first < end && 0 < end {
      SumOfSameWindows(p, a, b, first, end - 1);
      DOfSameWindows(p, a, b, end - 1);
    }
  }

  // The series of a chain is not changed by blocks added later.
  lemma DOfExtension(p: Params, chain: seq<real>, longer: seq<real>, k: int)
    requires p.Valid() && chain <= longer && k <= |chain|
    ensures D(p, chain, k) == D(p, longer, k)
  {
    DOfSameWindows(p, chain, longer, k);
  }

  lemma SumOfExtension(p: Params, chain: seq<real>, longer: seq<real>, first: int, end: int)
    requires p.Valid() && chain <= longer && end <= |chain|
    ensures SumD(p, chain, first, end) == SumD(p, longer, first, end)
  {
    SumOfSameWindows(p, chain, longer, first, end);
  }

  // ---------------------------------------------------------------- slower chains get smaller multipliers

  lemma ScaleOrder(a: real, b: real, c: real)
    requires 0.0 < c
    ensures a < b <==> a * c < b * c
  {
  }

  lemma QuotientOrder(x: real, y: real, s: real, t: real)
    requires 0.0 <= y <= x && 0.0 < s <= t
    ensures y / t <= x / s
  {
    var q := y / t;
    assert q * t == y && 0.0 <= q;
    assert q * s <= q * t;
    assert x / s * s == x;
    ScaleOrder(x / s, q, s);
  }

  // Scaling an average up to the window's target time and dividing by the span, in one step.
  lemma NextIsClampedRate(p: Params, sum: real, span: real)
    requires 0 < p.window && 0.0 < span
    ensures Next(p, sum, span) == p.Clamp(sum * TARGET / span)
  {
    var w := p.window as real;
    var mean := sum / w;
    assert mean * w == sum;
    assert mean * (w * TARGET) == (mean * w) * TARGET;
  }

  lemma NextReversesOrder(p: Params, x: real, y: real, s: real, t: real)
    requires 0 < p.window && 0.0 <= y <= x && 0.0 < s <= t
    ensures Next(p, y, t) <= Next(p, x, s)
  {
    NextIsClampedRate(p, x, s);
    NextIsClampedRate(p, y, t);
    QuotientOrder(x * TARGET, y * TARGET, s, t);
  }

  lemma QuotientBetween(least: real, most: real, work: real, span: real)
    requires 0.0 < span && least * span <= work <= most * span
    ensures least <= work / span <= most
  {
    var q := work / span;
    assert q * span == work;
    ScaleOrder(q, least, span);
    ScaleOrder(most, q, span);
  }

  lemma NextBetween(p: Params, least: real, most: real, sum: real, span: real)
    requires 0 < p.window && p.lo <= least <= most <= p.hi
    requires 0.0 < span && Fits(least, most, sum, span)
    ensures least <= Next(p, sum, span) <= most
  {
    NextIsClampedRate(p, sum, span);
    QuotientBetween(least, most, sum * TARGET, span);
  }

  ghost predicate NoSlower(p: Params, fast: seq<real>, slow: seq<real>)
    requires p.Valid()
  {
    && |fast| == |slow|
    && forall k :: p.start < k <= |fast| ==> 0.0 < Span(p, fast, k) <= Span(p, slow, k)
  }

  lemma {:induction false} DReversesOrder(p: Params, fast: seq<real>, slow: seq<real>, k: int)
    requires p.Valid() && NoSlower(p, fast, slow) && k <= |fast|
    ensures D(p, slow, k) <= D(p, fast, k)
    decreases Max(k, 0), 1
  {
    if k > p.start {
      SumReversesOrder(p, fast, slow, k - p.window, k);
      NextReversesOrder(p, SumD(p, fast, k - p.window, k), SumD(p, slow, k - p.window, k),
                        Span(p, fast, k), Span(p, slow, k));
    }
  }

  lemma {:induction false} SumReversesOrder(p: Params, fast: seq<real>, slow: seq<real>, first: int, end: int)
    requires p.Valid() && NoSlower(p, fast, slow) && end <= |fast|
    ensures 0.0 <= SumD(p, slow, first, end) <= SumD(p, fast, first, end)
    decreases Max(end, 0), 0
  {
    if first < end && 0 < end {
      SumReversesOrder(p, fast, slow, first, end - 1);
      DReversesOrder(p, fast, slow, end - 1);
      DInRange(p, slow, end - 1);
    }
  }

  // ---------------------------------------------------------------- transients wash out

  // A gap of 120 s * d / h, without the division.
  ghost predicate Paced(h: real, d: real, gap: real) {
    h * gap == 120.0 * d
  }

  // Block i took 120 s * D(i) / hash[i]: it was paced by its multiplier and mined at hash[i].
  ghost predicate PacedAt(p: Params, chain: seq<real>, hash: seq<real>, i: int)
    requires p.Valid()
  {
    && 1 <= i < |chain| && i < |hash| && 0.0 < hash[i]
    && Paced(hash[i], D(p, chain, i), chain[i] - chain[i - 1])
  }

  ghost predicate PacedWithin(p: Params, chain: seq<real>, hash: seq<real>, i: int, least: real, most: real)
    requires p.Valid()
  {
    PacedAt(p, chain, hash, i) && least <= hash[i] <= most
  }

  ghost predicate HashWithin(p: Params, chain: seq<real>, hash: seq<real>, first: int, end: int, least: real, most: real)
    requires p.Valid()
  {
    forall i :: first <= i < end ==> PacedWithin(p, chain, hash, i, least, most)
  }

  // A stretch of blocks with multipliers adding up to `sum` took a time `span` that fits
  // hashrates between `least` and `most`.
  ghost predicate Fits(least: real, most: real, sum: real, span: real) {
    least * span <= 120.0 * sum <= most * span
  }

  // One more block at hashrate h extends the bounds on a window from [x,y] to [x,z].
  lemma WindowStep(least: real, h: real, most: real, x: real, y: real, z: real, sum: real, d: real)
    requires 0.0 < least <= h <= most && 0.0 < d && Paced(h, d, z - y)
    requires Fits(least, most, sum, y - x)
    ensures y < z && Fits(least, most, sum + d, z - x)
  {
    var gap := z - y;
    ScaleOrder(0.0, gap, h);
    assert least * gap <= h * gap <= most * gap;
    assert least * (z - x) == least * (y - x) + least * gap;
    assert most * (z - x) == most * (y - x) + most * gap;
  }

  // The telescoping sum: the window's time, weighed by any bounds on the hashrates in it.
  lemma {:induction false} WindowTime(p: Params, chain: seq<real>, hash: seq<real>, first: int, end: int, least: real, most: real)
    requires p.Valid() && 0.0 < least <= most && 1 <= first <= end <= |chain|
    requires HashWithin(p, chain, hash, first, end, least, most)
    ensures Fits(least, most, SumD(p, chain, first, end), chain[end - 1] - chain[first - 1])
    ensures first < end ==> chain[first - 1] < chain[end - 1]
    decreases end
  {
    if first < end {
      WindowTime(p, chain, hash, first, end - 1, least, most);
      assert PacedWithin(p, chain, hash, end - 1, least, most);
      DInRange(p, chain, end - 1);
      WindowStep(least, hash[end - 1], most, chain[first - 1], chain[end - 2], chain[end - 1],
                 SumD(p, chain, first, end - 1), D(p, chain, end - 1));
    }
  }

  // Past the warm-up, the multiplier lies between the least and the greatest hashrate of its
  // own window, whatever happened before that window.
  lemma MultiplierTracksWindow(p: Params, chain: seq<real>, hash: seq<real>, k: int, least: real, most: real)
    requires p.Valid() && p.start < k <= |chain|
    requires p.lo <= least <= most <= p.hi
    requires HashWithin(p, chain, hash, k - p.window, k, least, most)
    ensures least <= D(p, chain, k) <= most
  {
    WindowTime(p, chain, hash, k - p.window, k, least, most);
    NextBetween(p, least, most, SumD(p, chain, k - p.window, k), Span(p, chain, k));
  }

  lemma GapAtRate(h: real, gap: real)
    requires 0.0 < h && Paced(h, h, gap)
    ensures gap == 120.0
  {
    ScaleOrder(gap, 120.0, h);
    ScaleOrder(120.0, gap, h);
  }

  // One window at a constant hashrate is enough: the multiplier equals it, and the next block
  // mined at it takes exactly the target time.
  lemma ConstantHashrateSettles(p: Params, chain: seq<real>, hash: seq<real>, k: int, h: real)
    requires p.Valid() && p.start < k <= |chain| && p.lo <= h <= p.hi
    requires HashWithin(p, chain, hash, k - p.window, k, h, h)
    ensures D(p, chain, k) == h
    ensures PacedAt(p, chain, hash, k) && hash[k] == h ==> chain[k] - chain[k - 1] == 120.0
  {
    MultiplierTracksWindow(p, chain, hash, k, h, h);
    if PacedAt(p, chain, hash, k) && hash[k] == h {
      GapAtRate(h, chain[k] - chain[k - 1]);
    }
  }
}
