// When agents start: the batched spawn schedule.
module SpawnSchedule {
  import opened Basics

  datatype Params = Params(delay: int, interval: int, initial: int, growth: real, most: int, intra: int) {
    // Sizes are positive and never shrink.
    ghost predicate Valid() {
      1 <= initial && 1 <= most && 1.0 <= growth
    }

    // The next nominal size, truncated towards zero.
    function Grow(size: int): int {
      var x := size as real * growth;
      if 0.0 <= x then x.Floor else -(-x).Floor
    }
  }

  const DEFAULTS: Params := Params(1200, 1200, 5, 2.0, 200, 5)

  lemma ScaledUp(size: int, growth: real)
    requires 0 <= size && 1.0 <= growth
    ensures size as real <= size as real * growth
  {
  }

  lemma GrowKeepsPositive(p: Params, size: int)
    requires 1.0 <= p.growth
    ensures 1 <= size ==> size <= p.Grow(size)
    ensures size <= 0 ==> p.Grow(size) <= 0
  {
    if 0 <= size {
      ScaledUp(size, p.growth);
    } else {
      ScaledUp(-size, p.growth);
    }
  }

  // ---------------------------------------------------------------- batches

  function BatchStart(p: Params, k: nat): int {
    p.delay + k * p.interval
  }

  function StartTime(p: Params, k: nat, i: nat): int {
    BatchStart(p, k) + i * p.intra
  }

  // The times of the first n agents of batch k.
  function BatchTimes(p: Params, k: nat, n: nat): (r: seq<int>)
    ensures |r| == n
  {
    if n == 0 then [] else BatchTimes(p, k, n - 1) + [StartTime(p, k, n - 1)]
  }

  lemma {:induction false} BatchTimesAt(p: Params, k: nat, n: nat, i: nat)
    requires i < n
    ensures BatchTimes(p, k, n)[i] == StartTime(p, k, i)
  {
    if i < n - 1 {
      BatchTimesAt(p, k, n - 1, i);
    }
  }

  function Nominal(p: Params, k: nat): int {
    if k == 0 then p.initial else p.Grow(Nominal(p, k - 1))
  }

  // How many of the agents still left go into batch k.
  function Size(p: Params, k: nat, left: int): nat {
    Max(Min(Nominal(p, k), Min(p.most, left)), 0)
  }

  // How many agents the first n batches take.
  function Taken(p: Params, count: int, n: nat): nat {
    if n == 0 then 0 else Taken(p, count, n - 1) + Size(p, n - 1, count - Taken(p, count, n - 1))
  }

  function Batch(p: Params, count: int, k: nat): (r: seq<int>)
    ensures |r| == Size(p, k, count - Taken(p, count, k))
  {
    BatchTimes(p, k, Size(p, k, count - Taken(p, count, k)))
  }

  // What the first n batches schedule: one after the other.
  function Schedule(p: Params, count: int, n: nat): seq<int> {
    if n == 0 then [] else Schedule(p, count, n - 1) + Batch(p, count, n - 1)
  }

  // ---------------------------------------------------------------- when the loop ends

  // The room in the first n batches, for any number of agents.
  function Capacity(p: Params, n: nat): nat {
    if n == 0 then 0 else Capacity(p, n - 1) + Max(Min(Nominal(p, n - 1), p.most), 0)
  }

  ghost predicate Ends(p: Params, count: int) {
    exists n: nat :: count <= Capacity(p, n)
  }

  lemma {:induction false} TakenIsCapacity(p: Params, count: int, n: nat)
    ensures Taken(p, count, n) == Min(Max(count, 0), Capacity(p, n))
  {
    if n > 0 {
      TakenIsCapacity(p, count, n - 1);
    }
  }

  lemma {:induction false} CapacityGrows(p: Params, n: nat, m: nat)
    requires n <= m
    ensures Capacity(p, n) <= Capacity(p, m)
    decreases m
  {
    if n < m {
      CapacityGrows(p, n, m - 1);
    }
  }

  // The loop goes on after n passes exactly while the capacity falls short, so it ends at all
  // exactly when some number of batches has room for everybody.
  lemma GoesOnWhileShort(p: Params, count: int, n: nat)
    ensures Taken(p, count, n) < count <==> Capacity(p, n) < count
  {
    TakenIsCapacity(p, count, n);
  }

  lemma {:induction false} NominalSign(p: Params, n: nat)
    requires 1.0 <= p.growth
    ensures 1 <= p.initial ==> p.initial <= Nominal(p, n)
    ensures p.initial <= 0 ==> Nominal(p, n) <= 0
  {
    if n > 0 {
      NominalSign(p, n - 1);
      GrowKeepsPositive(p, Nominal(p, n - 1));
    }
  }

  lemma {:induction false} CapacityBounds(p: Params, n: nat)
    requires 1.0 <= p.growth
    ensures p.Valid() ==> n <= Capacity(p, n)
    ensures p.initial <= 0 || p.most <= 0 ==> Capacity(p, n) == 0
  {
    if n > 0 {
      CapacityBounds(p, n - 1);
      NominalSign(p, n - 1);
    }
  }

  // When batches do not shrink, the loop ends exactly if there is nobody to place or the first
  // batch has room.
  lemma EndsIffRoom(p: Params, count: int)
    requires 1.0 <= p.growth
    ensures Ends(p, count) <==> count <= 0 || p.Valid()
  {
    CapacityBounds(p, Max(count, 0));
    if Ends(p, count) {
      var n: nat :| count <= Capacity(p, n);
      CapacityBounds(p, n);
    }
    assert count <= 0 ==> count <= Capacity(p, 0);
  }

  // ---------------------------------------------------------------- the whole schedule

  lemma {:induction false} ScheduleLength(p: Params, count: int, n: nat)
    ensures |Schedule(p, count, n)| == Taken(p, count, n)
  {
    if n > 0 {
      ScheduleLength(p, count, n - 1);
    }
  }

  lemma NothingLeft(p: Params, count: int, n: nat)
    requires count <= Capacity(p, n)
    ensures Size(p, n, count - Taken(p, count, n)) == 0
  {
    TakenIsCapacity(p, count, n);
  }

  lemma PrefixGrows(a: seq<int>, b: seq<int>, c: seq<int>)
    requires a <= b
    ensures a <= b + c
  {
  }

  // Further passes only append ...
  lemma {:induction false} ScheduleGrows(p: Params, count: int, n: nat, m: nat)
    requires n <= m
    ensures Schedule(p, count, n) <= Schedule(p, count, m)
    decreases m
  {
    if n < m {
      ScheduleGrows(p, count, n, m - 1);
      PrefixGrows(Schedule(p, count, n), Schedule(p, count, m - 1), Batch(p, count, m - 1));
    }
  }

  lemma NothingAdded(p: Params, count: int, n: nat)
    requires count <= Capacity(p, n)
    ensures Schedule(p, count, n + 1) == Schedule(p, count, n)
  {
    NothingLeft(p, count, n);
    assert Batch(p, count, n) == [];
  }

  // ... and nothing once everybody is placed.
  lemma {:induction false} ScheduleSettles(p: Params, count: int, n: nat, m: nat)
    requires n <= m && count <= Capacity(p, n)
    ensures Schedule(p, count, n) == Schedule(p, count, m)
    decreases m
  {
    if n < m {
      ScheduleSettles(p, count, n, m - 1);
      CapacityGrows(p, n, m - 1);
      NothingAdded(p, count, m - 1);
    }
  }

  // The schedule once everybody is placed.
  ghost function Times(p: Params, count: int): seq<int>
    requires Ends(p, count)
  {
    var n: nat :| count <= Capacity(p, n);
    Schedule(p, count, n)
  }

  lemma TimesIsSchedule(p: Params, count: int, n: nat)
    requires count <= Capacity(p, n)
    ensures Ends(p, count) && Times(p, count) == Schedule(p, count, n)
  {
    var m: nat :| count <= Capacity(p, m) && Times(p, count) == Schedule(p, count, m);
    if n <= m {
      ScheduleSettles(p, count, n, m);
    } else {
      ScheduleSettles(p, count, m, n);
    }
  }

  // Every agent gets exactly one time.
  lemma TimesLength(p: Params, count: int)
    requires Ends(p, count)
    ensures |Times(p, count)| == Max(count, 0)
  {
    var n: nat :| count <= Capacity(p, n);
    TimesIsSchedule(p, count, n);
    ScheduleLength(p, count, n);
    TakenIsCapacity(p, count, n);
  }

  method AppendBatch(p: Params, schedule: seq<int>, batchNum: nat, batchSize: int) returns (r: seq<int>)
    ensures r == schedule + BatchTimes(p, batchNum, Max(batchSize, 0))
  {
    r := schedule;
    var batchStart := BatchStart(p, batchNum);
    var i := 0;
    while i < batchSize
      invariant 0 <= i <= Max(batchSize, 0)
      invariant r == schedule + BatchTimes(p, batchNum, i)
    {
      r := r + [batchStart + i * p.intra];
      i := i + 1;
    }
  }

  method CalculateBatchedSchedule(p: Params, count: int) returns (schedule: seq<int>)
    requires Ends(p, count)
    ensures schedule == Times(p, count)
  {
    schedule := [];
    var userIndex, batchNum, currentSize := 0, 0, p.initial;
    ghost var enough: nat :| count <= Capacity(p, enough);
    while userIndex < count
      invariant 0 <= batchNum && currentSize == Nominal(p, batchNum)
      invariant userIndex == Taken(p, count, batchNum) && schedule == Schedule(p, count, batchNum)
      decreases enough - batchNum
    {
      GoesOnWhileShort(p, count, batchNum);
      if enough <= batchNum {
        CapacityGrows(p, enough, batchNum);
      }
      var batchSize := Min(currentSize, Min(p.most, count - userIndex));
      schedule := AppendBatch(p, schedule, batchNum, batchSize);
      userIndex := userIndex + Max(batchSize, 0);
      batchNum := batchNum + 1;
      currentSize := p.Grow(currentSize);
    }
    GoesOnWhileShort(p, count, batchNum);
    TimesIsSchedule(p, count, batchNum);
  }

  // ---------------------------------------------------------------- one batch of the schedule

  lemma Middle(a: seq<int>, b: seq<int>, s: seq<int>)
    requires a + b <= s
    ensures |a| + |b| <= |s| && s[|a|..|a| + |b|] == b
  {
    assert s[..|a + b|] == a + b;
    assert s[|a|..|a| + |b|] == s[..|a + b|][|a|..];
  }

  lemma PrefixOfTimes(p: Params, count: int, k: nat)
    requires Ends(p, count)
    ensures Schedule(p, count, k) <= Times(p, count)
  {
    var n: nat :| count <= Capacity(p, n);
    CapacityGrows(p, n, Max(n, k));
    TimesIsSchedule(p, count, Max(n, k));
    ScheduleGrows(p, count, k, Max(n, k));
  }

  lemma {:induction false} OneMoreBatch(p: Params, count: int, k: nat)
    ensures Taken(p, count, k + 1) == Taken(p, count, k) + Size(p, k, count - Taken(p, count, k))
    ensures Schedule(p, count, k + 1) == Schedule(p, count, k) + Batch(p, count, k)
  {
  }

  // Batch k occupies the places from Taken(k) on, with its own times.
  lemma {:induction false} BatchInPlace(p: Params, count: int, k: nat)
    requires Ends(p, count)
    ensures var s, from, size := Times(p, count), Taken(p, count, k), Size(p, k, count - Taken(p, count, k));
            Taken(p, count, k + 1) == from + size <= |s| && s[from..from + size] == Batch(p, count, k)
  {
    OneMoreBatch(p, count, k);
    PrefixOfTimes(p, count, k + 1);
    ScheduleLength(p, count, k);
    Middle(Schedule(p, count, k), Batch(p, count, k), Times(p, count));
  }

  // The times of batch k: the delay, k intervals, and one small step for each agent.
  lemma {:induction false} TimesInBatch(p: Params, count: int, k: nat)
    requires Ends(p, count)
    ensures var s, from, size := Times(p, count), Taken(p, count, k), Size(p, k, count - Taken(p, count, k));
            && Taken(p, count, k + 1) == from + size <= |s|
            && forall i :: 0 <= i < size ==> s[from + i] == p.delay + k * p.interval + i * p.intra
  {
    BatchInPlace(p, count, k);
    var s, from, size := Times(p, count), Taken(p, count, k), Size(p, k, count - Taken(p, count, k));
    forall i | 0 <= i < size ensures s[from + i] == p.delay + k * p.interval + i * p.intra {
      BatchTimesAt(p, k, size, i);
      assert s[from..from + size][i] == s[from + i];
    }
  }

  // The nominal size grows by the factor and is cut towards zero.
  lemma {:induction false} NominalMeaning(p: Params, k: nat)
    ensures Nominal(p, 0) == p.initial
    ensures var grown, next := Nominal(p, k) as real * p.growth, Nominal(p, k + 1) as real;
            if 0.0 <= grown then next <= grown < next + 1.0 else next - 1.0 < grown <= next
  {
    CutTowardsZero(p, Nominal(p, k));
  }

  lemma {:induction false} CutTowardsZero(p: Params, size: int)
    ensures var grown, next := size as real * p.growth, p.Grow(size) as real;
            if 0.0 <= grown then next <= grown < next + 1.0 else next - 1.0 < grown <= next
  {
  }

  // A batch has its nominal size, or the limit, or all agents that are left, whichever is least.
  lemma {:induction false} SizeMeaning(p: Params, k: nat, left: int)
    ensures var size, nominal := Size(p, k, left), Nominal(p, k);
            && (nominal <= 0 || p.most <= 0 || left <= 0 ==> size == 0)
            && (0 < nominal && 0 < p.most && 0 < left ==> size <= nominal && size <= p.most && size <= left && (size == nominal || size == p.most || size == left))
  {
  }

  function Pow2(k: nat): int {
    if k == 0 then 1 else 2 * Pow2(k - 1)
  }

  lemma {:induction false} NominalDoubles(p: Params, k: nat)
    requires 1 <= p.initial && p.growth == 2.0
    ensures Nominal(p, k) == p.initial * Pow2(k)
    ensures 1 <= Nominal(p, k)
  {
    if k > 0 {
      NominalDoubles(p, k - 1);
      Doubled(p.initial, Pow2(k - 1));
    }
  }

  lemma Doubled(a: int, b: int)
    ensures 2 * (a * b) == a * (2 * b)
  {
  }

  // With doubling, batch k of the returned schedule has initial * 2^k agents, the limit, or all
  // that are left, at the places after the batches before it.
  lemma {:induction false} DoublingSizes(p: Params, count: int, k: nat)
    requires p.Valid() && p.growth == 2.0 && Taken(p, count, k) < count
    ensures Ends(p, count)
    ensures var s, from := Times(p, count), Taken(p, count, k);
            var size := Min(p.initial * Pow2(k), Min(p.most, count - from));
            && 1 <= size && from + size <= |s| && Taken(p, count, k + 1) == from + size
            && forall i :: 0 <= i < size ==> s[from + i] == p.delay + k * p.interval + i * p.intra
  {
    EndsIffRoom(p, count);
    NominalDoubles(p, k);
    TimesInBatch(p, count, k);
  }

  // ---------------------------------------------------------------- times increase

  ghost predicate Increasing(s: seq<int>) {
    forall i, j :: 0 <= i < j < |s| ==> s[i] < s[j]
  }

  lemma Products(a: int, b: int, c: int)
    requires a <= b && 0 <= c
    ensures a * c <= b * c
    ensures a < b && 0 < c ==> a * c < b * c
  {
  }

  lemma BatchIncreasing(p: Params, k: nat, n: nat)
    requires p.intra > 0
    ensures Increasing(BatchTimes(p, k, n))
  {
    forall i, j | 0 <= i < j < n ensures BatchTimes(p, k, n)[i] < BatchTimes(p, k, n)[j] {
      BatchTimesAt(p, k, n, i);
      BatchTimesAt(p, k, n, j);
      Products(i, j, p.intra);
    }
  }

  lemma NextStart(p: Params, k: nat)
    ensures BatchStart(p, k + 1) == BatchStart(p, k) + p.interval
  {
    assert (k + 1) * p.interval == k * p.interval + p.interval;
  }

  ghost predicate Below(s: seq<int>, bound: int) {
    forall i :: 0 <= i < |s| ==> s[i] < bound
  }

  ghost predicate AtLeast(s: seq<int>, bound: int) {
    forall i :: 0 <= i < |s| ==> bound <= s[i]
  }

  // A batch is over before the next one starts.
  lemma BatchWithin(p: Params, k: nat, n: nat)
    requires p.intra > 0 && n <= p.most && (p.most - 1) * p.intra < p.interval
    ensures AtLeast(BatchTimes(p, k, n), BatchStart(p, k)) && Below(BatchTimes(p, k, n), BatchStart(p, k + 1))
  {
    NextStart(p, k);
    forall i | 0 <= i < n ensures BatchStart(p, k) <= BatchTimes(p, k, n)[i] < BatchStart(p, k + 1) {
      BatchTimesAt(p, k, n, i);
      Products(0, i, p.intra);
      Products(i, p.most - 1, p.intra);
    }
  }

  lemma JoinIncreasing(a: seq<int>, b: seq<int>, bound: int, next: int)
    requires Increasing(a) && Increasing(b) && Below(a, bound) && Below(b, next) && bound <= next
    requires AtLeast(b, bound)
    ensures Increasing(a + b) && Below(a + b, next)
  {
  }

  lemma StartsRise(p: Params, k: nat)
    requires 1 <= p.most && p.intra > 0 && (p.most - 1) * p.intra < p.interval
    ensures BatchStart(p, k) <= BatchStart(p, k + 1)
  {
    NextStart(p, k);
    Products(0, p.most - 1, p.intra);
  }

  lemma {:induction false} PrefixIncreasing(p: Params, count: int, n: nat)
    requires 1 <= p.most && p.intra > 0 && (p.most - 1) * p.intra < p.interval
    ensures Increasing(Schedule(p, count, n)) && Below(Schedule(p, count, n), BatchStart(p, n))
  {
    if n > 0 {
      PrefixIncreasing(p, count, n - 1);
      BatchIncreasing(p, n - 1, |Batch(p, count, n - 1)|);
      BatchWithin(p, n - 1, |Batch(p, count, n - 1)|);
      StartsRise(p, n - 1);
      JoinIncreasing(Schedule(p, count, n - 1), Batch(p, count, n - 1), BatchStart(p, n - 1), BatchStart(p, n));
    }
  }

  // Start times strictly increase, whatever the growth, when a full batch fits its interval.
  lemma ScheduleIncreasing(p: Params, count: int)
    requires Ends(p, count) && p.intra > 0 && (p.most - 1) * p.intra < p.interval
    ensures Increasing(Times(p, count))
  {
    var n: nat :| count <= Capacity(p, n);
    TimesIsSchedule(p, count, n);
    if 1 <= p.most {
      PrefixIncreasing(p, count, n);
    } else {
      NoRoom(p, n);
      TimesLength(p, count);
    }
  }

  lemma {:induction false} NoRoom(p: Params, n: nat)
    requires p.most <= 0
    ensures Capacity(p, n) == 0
  {
    if n > 0 {
      NoRoom(p, n - 1);
    }
  }

  // By default five agents start 20 minutes in, 5 s apart, and ten more 20 minutes later.
  lemma {:induction false} FirstDefaults(count: int, i: nat)
    requires i < Min(5, count)
    ensures Ends(DEFAULTS, count) && i < |Times(DEFAULTS, count)| && Times(DEFAULTS, count)[i] == 1200 + 5 * i
    ensures Taken(DEFAULTS, count, 1) == Min(5, count)
  {
    DoublingSizes(DEFAULTS, count, 0);
    assert Taken(DEFAULTS, count, 0) == 0 && Pow2(0) == 1;
    assert Times(DEFAULTS, count)[0 + i] == 1200 + 0 * 1200 + i * 5;
  }

  lemma {:induction false} SecondDefaults(count: int, i: nat)
    requires 5 + i < Min(15, count)
    ensures Ends(DEFAULTS, count) && 5 + i < |Times(DEFAULTS, count)| && Times(DEFAULTS, count)[5 + i] == 2400 + 5 * i
  {
    FirstDefaults(count, 0);
    DoublingSizes(DEFAULTS, count, 1);
    assert Pow2(1) == 2 * Pow2(0);
    assert Times(DEFAULTS, count)[5 + i] == 1200 + 1 * 1200 + i * 5;
  }

  // The defaults meet the conditions for any number of agents.
  lemma DefaultsIncrease(count: int)
    ensures Ends(DEFAULTS, count) && Increasing(Times(DEFAULTS, count))
  {
    EndsIffRoom(DEFAULTS, count);
    ScheduleIncreasing(DEFAULTS, count);
  }
}
