// The autonomous miner: the object that owns the replay caches, and its rescaled wait.
//
// The poll methods are proved equal to `DifficultyReplay.Step`, the wait against `RescaledWait`.
module Miner {
  import opened Basics
  import opened DifficultyRecurrence
  import opened DifficultyReplay
  import opened RescaledWait

  // The sample, scaled by the expected time between blocks at this multiplier.
  method ScaledWait(draw: real, hashratePct: real, factor: real) returns (wait: real)
    requires 0.0 <= draw && 0.0 < factor
    ensures 0.0 <= wait && IsWork(hashratePct, draw, wait / factor)
    ensures 0.0 < hashratePct ==> wait * hashratePct == draw * 100.0 * 120.0 * factor
    ensures hashratePct <= 0.0 ==> wait == draw * 100.0 * 120.0 * factor
  {
    var base := BaseTime(hashratePct);
    BaseTimeMeaning(hashratePct);
    var expected := base * factor;
    wait := draw * expected;
    WaitWork(draw, base, factor, expected, wait);
    WorkOfDraw(hashratePct, draw);
    Associate(draw, base, factor);
    WaitOfWork(hashratePct, draw, draw * base, factor, wait);
  }

  // One second at a time, with the flag checked before each: an agent that is stopped sleeps
  // nothing more.
  method InterruptibleSleep(duration: real, alive: nat -> bool, check: nat) returns (slept: real, next: nat)
    ensures check <= next && forall i :: check <= i < next ==> alive(i)
    ensures slept == RMin((next - check) as real, RMax(duration, 0.0))
    ensures check < next ==> (next - check - 1) as real < duration
    ensures alive(next) ==> slept == RMax(duration, 0.0)
  {
    var remaining := duration;
    slept, next := 0.0, check;
    while remaining > 0.0 && alive(next)
      invariant check <= next && forall i :: check <= i < next ==> alive(i)
      invariant remaining == duration - (next - check) as real
      invariant slept == RMin((next - check) as real, RMax(duration, 0.0))
      invariant check < next ==> (next - check - 1) as real < duration
      decreases remaining
    {
      slept := slept + RMin(remaining, TICK);
      remaining := remaining - TICK;
      next := next + 1;
    }
  }

  // The remaining wait follows the multiplier once it has moved by more than one percent.
  method RescaleIfMoved(p: Params, remaining: real, m: real, mNow: real,
                        ghost trace: seq<Slice>, ghost total: real, ghost uncut: bool)
    returns (left: real, next: real)
    requires Balanced(p, trace, remaining, m, total, uncut) && remaining > 0.0 && InClamp(p, mNow)
    ensures left > 0.0 && Balanced(p, trace, left, next, total, uncut)
    ensures Left(left, next) == Left(remaining, m)
    ensures next == Moved(m, mNow)
  {
    left, next := remaining, m;
    MovedIsRelative(m, mNow);
    if RAbs(mNow - m) / m > 0.01 {
      RescaleKeepsBalance(p, trace, remaining, m, mNow, total, uncut);
      left := remaining * (mNow / m);
      next := mNow;
    }
  }

  class AutonomousMiner {
    const params: Params
    const hashratePct: real
    var daaD: map<int, real>
    var daaTs: map<int, real>
    var daaLastHeight: Option<int>
    var daaLastMultiplier: real

    constructor (params: Params, hashratePct: real)
      ensures this.params == params && this.hashratePct == hashratePct
      ensures Caches() == EMPTY && daaLastMultiplier == 1.0
    {
      this.params := params;
      this.hashratePct := hashratePct;
      daaD, daaTs, daaLastHeight, daaLastMultiplier := map[], map[], None, 1.0;
    }

    function Caches(): Cache
      reads this
    {
      Cache(daaD, daaTs, daaLastHeight)
    }

    ghost predicate Bounded()
      reads this
    {
      AllInClamp(params, daaD) && InClamp(params, daaLastMultiplier)
    }

    // A timestamp from the cache, or from the daemon on a miss.
    method Ts(headers: map<int, real>, h: int) returns (r: Option<real>)
      modifies this`daaTs
      ensures daaTs == Fetch(old(daaTs), headers, h)
      ensures r == if h in daaTs then Some(daaTs[h]) else None
    {
      if h in daaTs {
        return Some(daaTs[h]);
      }
      if h !in headers {
        return None;
      }
      daaTs := daaTs[h := headers[h]];
      return Some(daaTs[h]);
    }

    // One height of the replay; false when a header could not be had.
    method ReplayOne(headers: map<int, real>, k: int) returns (ok: bool)
      requires 0 < params.window
      modifies this`daaD, this`daaTs
      ensures Replayed(daaD, daaTs, ok) == ReplayHeight(params, old(daaD), old(daaTs), headers, k)
    {
      var window := params.window;
      var newest := Ts(headers, k - 1);
      if newest.None? {
        return false;
      }
      var oldest := Ts(headers, k - 1 - window);
      if oldest.None? {
        return false;
      }
      var observed := newest.value - oldest.value;
      if observed <= 0.0 {
        daaD := daaD[k := Lookup(daaD, k - 1)];
      } else {
        var sum := SumOfWindow(k);
        daaD := daaD[k := Next(params, sum, observed)];
      }
      ok := true;
    }

    method GetDaaMultiplierInner(poll: Poll) returns (m: real)
      modifies this`daaD, this`daaTs, this`daaLastHeight
      ensures Caches() == Step(params, old(Caches()), poll).cache
      ensures m == Step(params, old(Caches()), poll).multiplier
      ensures params.window <= 0 ==> m == 1.0 && Caches() == old(Caches())
    {
      var window := params.window;
      if window <= 0 {
        return 1.0;
      }
      if poll.count.None? {
        return Lookup(daaD, if daaLastHeight.Some? then daaLastHeight.value else 0);
      }
      var top := poll.count.value - 1;
      if top <= params.start {
        return 1.0;
      }
      if daaLastHeight.Some? && top < daaLastHeight.value {
        daaD, daaTs, daaLastHeight := map[], map[], None;
      }
      m := AdvanceTo(poll.headers, top);
    }

    // The replay loop, up to the multiplier of the block being mined now.
    method AdvanceTo(headers: map<int, real>, top: int) returns (m: real)
      requires 0 < params.window
      modifies this`daaD, this`daaTs, this`daaLastHeight
      ensures Caches() == Advance(params, old(Caches()), headers, top).cache
      ensures m == Advance(params, old(Caches()), headers, top).multiplier
    {
      var k := FirstHeight(params, Caches());
      ghost var goal := Replay(params, daaD, daaTs, headers, k, top + 2);
      while k < top + 2
        invariant daaLastHeight == old(daaLastHeight)
        invariant Replay(params, daaD, daaTs, headers, k, top + 2) == goal
      {
        var ok := ReplayOne(headers, k);
        if !ok {
          return HeldAfterHeader(daaD, daaLastHeight);
        }
        k := k + 1;
      }
      m := Lookup(daaD, top + 1);
      Keep(top);
    }

    // Record the height reached and drop what no later window can need.
    method Keep(top: int)
      requires 0 < params.window
      modifies this`daaD, this`daaTs, this`daaLastHeight
      ensures Caches() == Prune(params, old(daaD), old(daaTs), top)
      ensures daaLastHeight == Some(top)
      ensures |old(daaTs)| <= 4 * params.window ==> daaD == old(daaD) && daaTs == old(daaTs)
      ensures |old(daaTs)| > 4 * params.window ==>
                && (forall h :: h in daaD <==> h in old(daaD) && top - 2 * params.window - 2 <= h)
                && (forall h :: h in daaTs <==> h in old(daaTs) && top - 2 * params.window - 2 <= h)
                && (forall h :: h in daaD ==> daaD[h] == old(daaD)[h]) && (forall h :: h in daaTs ==> daaTs[h] == old(daaTs)[h])
    {
      var window := params.window;
      daaLastHeight := Some(top);
      if |daaTs| > 4 * window {
        daaTs := From(daaTs, top - 2 * window - 2);
        daaD := From(daaD, top - 2 * window - 2);
      }
    }

    method SumOfWindow(k: int) returns (sum: real)
      requires 0 < params.window
      ensures sum == LookupSum(daaD, k - params.window, k)
    {
      sum := 0.0;
      var i := k - params.window;
      while i < k
        invariant k - params.window <= i <= k
        invariant sum == LookupSum(daaD, k - params.window, i)
      {
        sum := sum + Lookup(daaD, i);
        i := i + 1;
      }
    }

    method GetDaaMultiplier(poll: Poll) returns (m: real)
      modifies this`daaD, this`daaTs, this`daaLastHeight, this`daaLastMultiplier
      ensures Caches() == Step(params, old(Caches()), poll).cache
      ensures m == Step(params, old(Caches()), poll).multiplier == daaLastMultiplier
      ensures params.window <= 0 ==> m == 1.0 && Caches() == old(Caches())
      ensures old(Bounded()) && params.ClampOk() ==> Bounded()
    {
      ghost var before := Caches();
      m := GetDaaMultiplierInner(poll);
      if AllInClamp(params, before.d) && params.ClampOk() {
        StepInClamp(params, before, poll);
      }
      daaLastMultiplier := m;
    }

    // The wait for the next block: `draw` is the exponential sample before scaling.
    method CalculateNextBlockTime(draw: real, poll: Poll) returns (wait: real)
      requires 0.0 <= draw && params.ClampOk() && Bounded()
      modifies this`daaD, this`daaTs, this`daaLastHeight, this`daaLastMultiplier
      ensures Bounded()
      ensures Caches() == Step(params, old(Caches()), poll).cache
      ensures daaLastMultiplier == Step(params, old(Caches()), poll).multiplier
      ensures params.window <= 0 ==> daaLastMultiplier == 1.0 && Caches() == old(Caches())
      ensures 0.0 <= wait && IsWork(hashratePct, draw, wait / daaLastMultiplier)
      ensures 0.0 < hashratePct ==> wait * hashratePct == draw * 100.0 * 120.0 * daaLastMultiplier
      ensures hashratePct <= 0.0 ==> wait == draw * 100.0 * 120.0 * daaLastMultiplier
    {
      var factor := GetDaaMultiplier(poll);
      wait := ScaledWait(draw, hashratePct, factor);
    }

    // One slice of the wait, and the poll and rescaling after it unless the wait is over.
    method WaitSlice(remaining: real, m: real, polls: nat -> Poll, alive: nat -> bool, check: nat, slices: nat,
                     ghost trace: seq<Slice>, ghost total: real)
      returns (s: real, left: real, next: real, after: nat, ghost a: Answer)
      requires Bounded() && StaysStopped(alive) && alive(check) && slices == |trace|
      requires remaining > 0.0 && Waiting(params, trace, remaining, m, total, true)
      modifies this`daaD, this`daaTs, this`daaLastHeight, this`daaLastMultiplier
      ensures Bounded()
      ensures Waiting(params, trace + [Slice(s, m)], left, next, total, alive(after))
      ensures left > 0.0 ==> 0.0 <= Rank(params, remaining, m) && Rank(params, left, next) <= Rank(params, remaining, m) - 1.0
      ensures Slept(trace + [Slice(s, m)]) == Slept(trace) + s
      ensures check <= after && s <= (after - check) as real && forall i :: check <= i < after ==> alive(i)
      ensures left > 0.0 && alive(after) ==> s == 30.0
      ensures left > 0.0 ==> a == Step(params, old(Caches()), polls(slices + 1)) && Caches() == a.cache && next == Moved(m, a.multiplier)
    {
      SliceProgress(params, remaining, m);
      FewFromWithin(params, slices, remaining, m, total);
      s, after := InterruptibleSleep(RMin(remaining, SLICE), alive, check);
      SleepKeepsBalance(params, trace, remaining, m, total, s);
      ghost var done := trace + [Slice(s, m)];
      left, next, a := remaining - SLICE, m, Answer(Caches(), m, false);
      if left > 0.0 {
        a := Step(params, Caches(), polls(slices + 1));
        var mNow := GetDaaMultiplier(polls(slices + 1));
        left, next := RescaleIfMoved(params, left, m, mNow, done, total, alive(after));
        WithinStep(params, slices, remaining, m, total, left, next);
      }
    }

    // The sliced sleep.  `polls` are the daemon's answers between slices; `checks` is how often the
    // flag has been looked at.
    method WaitOut(wait: real, polls: nat -> Poll, alive: nat -> bool)
      returns (slept: real, finished: bool, checks: nat, ghost trace: seq<Slice>, ghost answers: seq<Answer>)
      requires 0.0 <= wait && params.ClampOk() && Bounded() && StaysStopped(alive)
      modifies this`daaD, this`daaTs, this`daaLastHeight, this`daaLastMultiplier
      ensures Bounded()
      ensures SlicesOk(params, trace) && slept == Slept(trace)
      ensures Work(trace) <= wait / old(daaLastMultiplier)
      ensures finished ==> Work(trace) == wait / old(daaLastMultiplier)
      ensures FewSlices(params, |trace|, wait / old(daaLastMultiplier))
      ensures finished == alive(checks) && slept <= checks as real && forall i :: 0 <= i < checks ==> alive(i)
      ensures PollsAnswered(params, old(Caches()), polls, answers) && TraceFollows(old(daaLastMultiplier), trace, answers)
    {
      var mAtSample := daaLastMultiplier;
      var remaining := wait;
      ghost var total := wait / mAtSample;
      var slices := 0;
      checks, slept, trace, answers := 0, 0.0, [], [];
      UnderwayAtFirst(params, Caches(), mAtSample, polls, alive, wait);
      while remaining > 0.0 && alive(checks)
        invariant Bounded() && slices == |trace|
        invariant Underway(params, old(Caches()), old(daaLastMultiplier), polls, alive, total,
                           trace, answers, slept, checks, remaining, mAtSample, Caches())
        decreases remaining > 0.0, RankOf(params, remaining, mAtSample)
      {
        ghost var held := Caches();
        WaitingNow(params, old(Caches()), old(daaLastMultiplier), polls, alive, total, trace, answers, slept, checks, remaining, mAtSample, held);
        var s, left, next, after, a := WaitSlice(remaining, mAtSample, polls, alive, checks, slices, trace, total);
        UnderwayByOne(params, old(Caches()), old(daaLastMultiplier), polls, alive, total, trace, answers, slept, checks, remaining, mAtSample, held,
                      s, left, next, after, a, Caches());
        if left > 0.0 {
          answers := answers + [a];
        }
        trace, slices, slept := trace + [Slice(s, mAtSample)], slices + 1, slept + s;
        remaining, mAtSample, checks := left, next, after;
      }
      finished := alive(checks);
      UnderwayAtLast(params, old(Caches()), old(daaLastMultiplier), polls, alive, total, trace, answers, slept, checks, remaining, mAtSample, Caches());
    }

    // Sample a wait and sleep it out.
    method Attempt(draw: real, poll: Poll, polls: nat -> Poll, alive: nat -> bool)
      returns (finished: bool, slept: real, checks: nat,
               ghost trace: seq<Slice>, ghost answers: seq<Answer>, ghost work: real)
      requires 0.0 <= draw && params.ClampOk() && Bounded() && StaysStopped(alive)
      modifies this`daaD, this`daaTs, this`daaLastHeight, this`daaLastMultiplier
      ensures Bounded()
      ensures finished == alive(checks) && slept <= checks as real && forall i :: 0 <= i < checks ==> alive(i)
      ensures IsWork(hashratePct, draw, work)
      ensures SlicesOk(params, trace) && slept == Slept(trace) && Work(trace) <= work && FewSlices(params, |trace|, work)
      ensures Between(params, Work(trace), slept)
      ensures finished ==> Work(trace) == work
      ensures var first := Step(params, old(Caches()), poll);
              PollsAnswered(params, first.cache, polls, answers) && TraceFollows(first.multiplier, trace, answers)
    {
      var wait := CalculateNextBlockTime(draw, poll);
      work := wait / daaLastMultiplier;
      slept, finished, checks, trace, answers := WaitOut(wait, polls, alive);
      SleptVersusWork(params, trace);
    }

    // One mining iteration up to the block attempt: how long it slept, and how long to pause before
    // the next iteration.
    method RunIteration(miningActive: bool, draw: real, poll: Poll, polls: nat -> Poll, alive: nat -> bool)
      returns (pause: real, slept: real, checks: nat,
               ghost trace: seq<Slice>, ghost answers: seq<Answer>, ghost work: real)
      requires 0.0 <= draw && params.ClampOk() && Bounded() && StaysStopped(alive)
      modifies this`daaD, this`daaTs, this`daaLastHeight, this`daaLastMultiplier
      ensures Bounded()
      ensures !miningActive ==> pause == 60.0 && slept == 0.0 && Caches() == old(Caches())
      ensures miningActive ==> pause == if alive(checks) then 0.1 else 0.0
      ensures slept <= checks as real && forall i :: 0 <= i < checks ==> alive(i)
      ensures miningActive ==> IsWork(hashratePct, draw, work) && FewSlices(params, |trace|, work)
      ensures miningActive ==> SlicesOk(params, trace) && slept == Slept(trace) && Work(trace) <= work
      ensures miningActive && alive(checks) ==> Work(trace) == work && Between(params, work, slept)
      ensures miningActive ==>
                var first := Step(params, old(Caches()), poll);
                PollsAnswered(params, first.cache, polls, answers) && TraceFollows(first.multiplier, trace, answers)
    {
      pause, slept, checks, trace, answers, work := 60.0, 0.0, 0, [], [], 0.0;
      if miningActive {
        var finished;
        finished, slept, checks, trace, answers, work := Attempt(draw, poll, polls, alive);
        pause := if finished then 0.1 else 0.0;
      }
    }
  }
}
