// The arithmetic of the miner's wait.  A wait is specified by what it conserves: every second slept
// at multiplier m does 1/m seconds of work, and a wait that is not interrupted does exactly the work
// it was sampled for, however the multiplier moved meanwhile.
module RescaledWait {
  import opened Basics
  import opened DifficultyRecurrence
  import opened DifficultyReplay

  const SLICE: real := 30.0
  const TICK: real := 1.0

  // ---------------------------------------------------------------- bounded multipliers

  ghost predicate InClamp(p: Params, m: real) {
    p.lo <= m <= p.hi
  }

  ghost predicate AllInClamp(p: Params, d: map<int, real>) {
    forall h :: h in d ==> InClamp(p, d[h])
  }

  lemma {:induction false} ReplayInClamp(p: Params, d: map<int, real>, ts: map<int, real>, headers: map<int, real>, k: int, stop: int)
    requires p.ClampOk() && 0 < p.window && AllInClamp(p, d)
    ensures AllInClamp(p, Replay(p, d, ts, headers, k, stop).d)
    decreases stop - k
  {
    if k < stop {
      var one := ReplayHeight(p, d, ts, headers, k);
      if one.ok {
        assert InClamp(p, one.d[k]);
        assert AllInClamp(p, one.d);
        ReplayInClamp(p, one.d, one.ts, headers, k + 1, stop);
      }
    }
  }

  // No daemon, however it misbehaves, makes the miner use a multiplier outside the clamp.
  lemma {:induction false} StepInClamp(p: Params, c: Cache, poll: Poll)
    requires p.ClampOk() && AllInClamp(p, c.d)
    ensures InClamp(p, Step(p, c, poll).multiplier) && AllInClamp(p, Step(p, c, poll).cache.d)
  {
    if 0 < p.window && poll.count.Some? && p.start < poll.count.value - 1 {
      var top := poll.count.value - 1;
      var c1 := Restart(c, top);
      ReplayInClamp(p, c1.d, c1.ts, poll.headers, FirstHeight(p, c1), top + 2);
    }
  }

  // ---------------------------------------------------------------- the work a wait does

  // One slice of a wait: the time slept and the multiplier in force.
  datatype Slice = Slice(slept: real, m: real)

  ghost function Work(trace: seq<Slice>): real
    requires forall s :: s in trace ==> s.m > 0.0
  {
    if trace == [] then 0.0 else Work(trace[..|trace| - 1]) + trace[|trace| - 1].slept / trace[|trace| - 1].m
  }

  ghost function Slept(trace: seq<Slice>): real {
    if trace == [] then 0.0 else Slept(trace[..|trace| - 1]) + trace[|trace| - 1].slept
  }

  ghost predicate SlicesOk(p: Params, trace: seq<Slice>) {
    forall s :: s in trace ==> 0.0 < s.m && InClamp(p, s.m) && 0.0 <= s.slept <= SLICE
  }

  lemma MulOrder(a: real, b: real, c: real)
    requires a <= b && 0.0 <= c
    ensures a * c <= b * c
  {
  }

  lemma QuotientTimes(x: real, m: real)
    requires m != 0.0
    ensures x / m * m == x
  {
  }

  lemma ProductSign(x: real, y: real)
    requires 0.0 <= x && 0.0 <= y
    ensures 0.0 <= x * y
  {
  }

  lemma QuotientIs(x: real, y: real, m: real)
    requires 0.0 < m && x == y * m
    ensures x / m == y
  {
  }

  // A wait of `draw` expected times is `draw` base times of work.
  lemma WaitWork(draw: real, base: real, factor: real, expected: real, wait: real)
    requires 0.0 <= draw && 0.0 < base && 0.0 < factor && expected == base * factor && wait == draw * expected
    ensures 0.0 <= wait && wait / factor == draw * base
  {
    ProductSign(base, factor);
    ProductSign(draw, expected);
    Associate(draw, base, factor);
    QuotientIs(wait, draw * base, factor);
  }

  lemma Associate(x: real, y: real, z: real)
    ensures x * (y * z) == (x * y) * z
  {
  }

  // Time slept while doing `work`, at multipliers inside the clamp.
  ghost predicate Between(p: Params, work: real, slept: real) {
    p.lo * work <= slept <= p.hi * work
  }

  lemma BetweenAdds(p: Params, work: real, slept: real, more: real, longer: real)
    requires Between(p, work, slept) && Between(p, more, longer)
    ensures Between(p, work + more, slept + longer)
  {
    Distribute(p.lo, work, more);
    Distribute(p.hi, work, more);
  }

  // A slice at a multiplier inside the clamp sleeps between lo and hi times the work it does.
  lemma SliceWork(p: Params, s: Slice)
    requires p.ClampOk() && InClamp(p, s.m) && 0.0 <= s.slept
    ensures 0.0 <= s.slept / s.m && Between(p, s.slept / s.m, s.slept)
  {
    var w := s.slept / s.m;
    QuotientTimes(s.slept, s.m);
    if w < 0.0 {
      MulOrder(w, 0.0, s.m);
    }
    MulOrder(p.lo, s.m, w);
    MulOrder(s.m, p.hi, w);
  }

  lemma Distribute(c: real, x: real, y: real)
    ensures c * (x + y) == c * x + c * y
  {
  }

  lemma {:induction false} SleptVersusWork(p: Params, trace: seq<Slice>)
    requires p.ClampOk() && SlicesOk(p, trace)
    ensures Between(p, Work(trace), Slept(trace))
    decreases |trace|
  {
    if trace != [] {
      var init, s := trace[..|trace| - 1], trace[|trace| - 1];
      SleptVersusWork(p, init);
      SliceWork(p, s);
      BetweenAdds(p, Work(init), Slept(init), s.slept / s.m, s.slept);
    }
  }

  lemma WorkStep(trace: seq<Slice>, s: Slice)
    requires forall x :: x in trace + [s] ==> x.m > 0.0
    ensures Work(trace + [s]) == Work(trace) + s.slept / s.m
    ensures Slept(trace + [s]) == Slept(trace) + s.slept
  {
    assert (trace + [s])[..|trace|] == trace;
  }

  // Work still to do when `remaining` seconds are left at multiplier m.
  ghost function Left(remaining: real, m: real): real
    requires m > 0.0
  {
    RMax(remaining, 0.0) / m
  }

  lemma Splits(x: real, y: real, m: real)
    requires m > 0.0
    ensures (x + y) / m == x / m + y / m
  {
  }

  // Sleeping a whole slice, or what is left of one, moves work from left to done.
  lemma SliceConserves(remaining: real, m: real)
    requires m > 0.0 && remaining > 0.0
    ensures RMin(remaining, SLICE) / m + Left(remaining - SLICE, m) == Left(remaining, m)
  {
    if remaining > SLICE {
      Splits(SLICE, remaining - SLICE, m);
    }
  }

  // Rescaling by the ratio of the multipliers leaves the work to do unchanged.
  lemma RescaleConserves(remaining: real, m: real, next: real)
    requires m > 0.0 && next > 0.0 && remaining > 0.0
    ensures remaining * (next / m) > 0.0
    ensures Left(remaining * (next / m), next) == Left(remaining, m)
  {
    var ratio := next / m;
    QuotientTimes(next, m);
    assert ratio > 0.0 by {
      if ratio <= 0.0 {
        MulOrder(ratio, 0.0, m);
      }
    }
    var scaled, left := remaining * ratio, remaining / m;
    QuotientTimes(remaining, m);
    assert scaled == left * m * ratio == left * next;
    assert left * next / next == left;
  }

  // A slice takes at least SLICE/hi off the work left, and more than nothing.
  lemma SliceProgress(p: Params, remaining: real, m: real)
    requires p.ClampOk() && InClamp(p, m) && remaining > 0.0
    ensures Left(remaining, m) > 0.0
    ensures remaining > SLICE ==> Left(remaining - SLICE, m) * p.hi <= Left(remaining, m) * p.hi - SLICE
  {
    QuotientTimes(remaining, m);
    if Left(remaining, m) <= 0.0 {
      MulOrder(Left(remaining, m), 0.0, m);
    }
    if remaining > SLICE {
      SliceConserves(remaining, m);
      SliceWork(p, Slice(SLICE, m));
      Distribute(p.hi, SLICE / m, Left(remaining - SLICE, m));
    }
  }

  // The books of a wait sampled for `total` work: work done plus work left never exceeds it, and
  // is equal to it as long as no sleep was cut short.
  ghost predicate Balanced(p: Params, trace: seq<Slice>, remaining: real, m: real, total: real, uncut: bool) {
    && p.ClampOk() && InClamp(p, m) && SlicesOk(p, trace)
    && Work(trace) + Left(remaining, m) <= total
    && (uncut ==> Work(trace) + Left(remaining, m) == total)
  }

  lemma SleepKeepsBalance(p: Params, trace: seq<Slice>, remaining: real, m: real, total: real, s: real)
    requires Balanced(p, trace, remaining, m, total, true) && remaining > 0.0
    requires 0.0 <= s <= RMin(remaining, SLICE)
    ensures Balanced(p, trace + [Slice(s, m)], remaining - SLICE, m, total, s == RMin(remaining, SLICE))
    ensures Slept(trace + [Slice(s, m)]) == Slept(trace) + s
  {
    WorkStep(trace, Slice(s, m));
    SliceConserves(remaining, m);
    QuotientOrderM(s, RMin(remaining, SLICE), m);
  }

  lemma QuotientOrderM(x: real, y: real, m: real)
    requires x <= y && 0.0 < m
    ensures x / m <= y / m
  {
    QuotientTimes(x, m);
    QuotientTimes(y, m);
    ScaleOrder(y / m, x / m, m);
  }

  lemma RescaleKeepsBalance(p: Params, trace: seq<Slice>, remaining: real, m: real, next: real, total: real, uncut: bool)
    requires Balanced(p, trace, remaining, m, total, uncut) && remaining > 0.0 && InClamp(p, next)
    ensures remaining * (next / m) > 0.0
    ensures Left(remaining * (next / m), next) == Left(remaining, m)
    ensures Balanced(p, trace, remaining * (next / m), next, total, uncut)
  {
    RescaleConserves(remaining, m, next);
  }

  // Slices so far, against the work done: at most one of them was not a full one.
  ghost predicate SlicesWithin(p: Params, n: nat, remaining: real, m: real, total: real)
    requires m > 0.0
  {
    n as real * SLICE <= (total - Left(remaining, m)) * p.hi
  }

  // What is left, in slices at the highest multiplier: the measure that ends the wait.
  ghost function Rank(p: Params, remaining: real, m: real): real
    requires m > 0.0
  {
    Left(remaining, m) * p.hi / SLICE
  }

  lemma WithinStep(p: Params, n: nat, remaining: real, m: real, total: real, left: real, next: real)
    requires p.ClampOk() && InClamp(p, m) && InClamp(p, next) && remaining > SLICE
    requires SlicesWithin(p, n, remaining, m, total)
    requires Left(left, next) == Left(remaining - SLICE, m)
    ensures SlicesWithin(p, n + 1, left, next, total)
    ensures 0.0 <= Rank(p, remaining, m) && Rank(p, left, next) <= Rank(p, remaining, m) - 1.0
  {
    SliceProgress(p, remaining, m);
    Distribute(p.hi, total, -Left(remaining, m));
    Distribute(p.hi, total, -Left(left, next));
    QuotientOrderM(Left(left, next) * p.hi, Left(remaining, m) * p.hi - SLICE, SLICE);
    Splits(Left(remaining, m) * p.hi - SLICE, SLICE, SLICE);
  }

  // n slices of 30 s are at most the total work over the least work of a full slice, rounded up.
  ghost predicate FewSlices(p: Params, n: nat, total: real) {
    n > 0 ==> (n - 1) as real * 30.0 < total * p.hi
  }

  lemma FewFromWithin(p: Params, n: nat, remaining: real, m: real, total: real)
    requires p.ClampOk() && m > 0.0 && Left(remaining, m) > 0.0 && SlicesWithin(p, n, remaining, m, total)
    ensures FewSlices(p, n + 1, total)
  {
    Distribute(p.hi, total - Left(remaining, m), Left(remaining, m));
  }

  // Everything the wait keeps from slice to slice.
  ghost predicate Waiting(p: Params, trace: seq<Slice>, remaining: real, m: real, total: real, uncut: bool) {
    && Balanced(p, trace, remaining, m, total, uncut)
    && (remaining > 0.0 && uncut ==> SlicesWithin(p, |trace|, remaining, m, total))
    && FewSlices(p, |trace|, total)
  }

  lemma LeftIsNoLess(remaining: real, m: real)
    requires m > 0.0
    ensures Left(remaining, m) >= 0.0
    ensures remaining <= 0.0 ==> Left(remaining, m) == 0.0
  {
    QuotientOrderM(0.0, RMax(remaining, 0.0), m);
  }

  // ---------------------------------------------------------------- how long to wait

  function RAbs(x: real): real {
    if x < 0.0 then -x else x
  }

  // Expected time between this miner's blocks at multiplier 1; a weight that is not positive
  // counts as one percent.
  function BaseTime(hashratePct: real): real {
    var fraction := hashratePct / 100.0;
    TARGET / (if fraction <= 0.0 then 0.01 else fraction)
  }

  // A weight of w percent expects w percent of the blocks: the base time shrinks as it grows.
  lemma BaseTimeMeaning(hashratePct: real)
    ensures 0.0 < BaseTime(hashratePct)
    ensures 0.0 < hashratePct ==> BaseTime(hashratePct) * hashratePct == 12000.0
    ensures hashratePct <= 0.0 ==> BaseTime(hashratePct) == 12000.0
  {
    var fraction := if hashratePct / 100.0 <= 0.0 then 0.01 else hashratePct / 100.0;
    QuotientTimes(TARGET, fraction);
    if BaseTime(hashratePct) <= 0.0 {
      MulOrder(BaseTime(hashratePct), 0.0, fraction);
    }
    if 0.0 < hashratePct {
      assert BaseTime(hashratePct) * hashratePct == BaseTime(hashratePct) * (fraction * 100.0);
      Associate(BaseTime(hashratePct), fraction, 100.0);
    }
  }

  // In a wait, the work asked for: `draw` times the target time, over the share of the blocks.
  ghost predicate IsWork(hashratePct: real, draw: real, work: real) {
    if 0.0 < hashratePct then work * hashratePct == draw * 12000.0 else work == draw * 12000.0
  }

  lemma WorkOfDraw(hashratePct: real, draw: real)
    ensures IsWork(hashratePct, draw, draw * BaseTime(hashratePct))
  {
    BaseTimeMeaning(hashratePct);
    Associate(draw, BaseTime(hashratePct), hashratePct);
  }

  lemma {:induction false} WaitOfWork(hashratePct: real, draw: real, work: real, factor: real, wait: real)
    requires IsWork(hashratePct, draw, work) && 0.0 < factor && wait == work * factor
    ensures 0.0 < hashratePct ==> wait * hashratePct == draw * 100.0 * 120.0 * factor
    ensures hashratePct <= 0.0 ==> wait == draw * 100.0 * 120.0 * factor
  {
    if 0.0 < hashratePct {
      Swap(work, factor, hashratePct);
    }
    Associate(draw, 12000.0, factor);
    assert draw * 100.0 * 120.0 == draw * 12000.0;
  }

  lemma Swap(x: real, y: real, z: real)
    ensures (x * y) * z == (x * z) * y
  {
  }

  // When the agent is told to stop, it stays stopped.  Checks of the flag are numbered.
  ghost predicate StaysStopped(alive: nat -> bool) {
    forall i: nat, j: nat :: i <= j && alive(j) ==> alive(i)
  }

  // A multiplier is taken over once it is more than one percent off.
  ghost function Moved(m: real, now: real): real
    requires m > 0.0
  {
    if now > 1.01 * m || now < 0.99 * m then now else m
  }

  lemma MovedIsRelative(m: real, now: real)
    requires m > 0.0
    ensures RAbs(now - m) / m > 0.01 <==> now > 1.01 * m || now < 0.99 * m
  {
    QuotientTimes(RAbs(now - m), m);
    ScaleOrder(0.01, RAbs(now - m) / m, m);
  }

  // ---------------------------------------------------------------- which multipliers a wait follows

  function LastCaches(c: Cache, answers: seq<Answer>): Cache {
    if answers == [] then c else answers[|answers| - 1].cache
  }

  // The answers of the polls of a wait that begins with caches c, each on the caches the one before
  // it left.
  ghost predicate PollsAnswered(p: Params, c: Cache, polls: nat -> Poll, answers: seq<Answer>) {
    answers != [] ==>
      var before := answers[..|answers| - 1];
      PollsAnswered(p, c, polls, before) && answers[|answers| - 1] == Step(p, LastCaches(c, before), polls(|answers|))
  }

  lemma {:induction false} OneMoreAnswer(p: Params, c: Cache, polls: nat -> Poll, answers: seq<Answer>, a: Answer)
    requires PollsAnswered(p, c, polls, answers)
    requires a == Step(p, LastCaches(c, answers), polls(|answers| + 1))
    ensures PollsAnswered(p, c, polls, answers + [a])
  {
    assert (answers + [a])[..|answers|] == answers;
  }

  // The next slice is slept at the multiplier of the poll before it, if that had moved.
  ghost predicate SliceFollows(trace: seq<Slice>, answers: seq<Answer>, i: nat)
    requires i < |trace| && i < |answers|
  {
    && trace[i].slept == 30.0 && trace[i].m > 0.0
    && (i + 1 < |trace| ==> trace[i + 1].m == Moved(trace[i].m, answers[i].multiplier))
  }

  // A wait begins at multiplier m; all slices but the last are whole ones, with a poll between
  // each two.
  ghost predicate TraceFollows(m: real, trace: seq<Slice>, answers: seq<Answer>) {
    && |trace| <= |answers| + 1
    && (trace != [] ==> trace[0].m == m)
    && forall i :: 0 <= i < |trace| - 1 ==> SliceFollows(trace, answers, i)
  }

  // The multiplier of the slice after `trace`.
  ghost predicate NextFollows(m: real, trace: seq<Slice>, answers: seq<Answer>, next: real) {
    && |trace| == |answers|
    && if trace == [] then next == m
       else
         var last := |trace| - 1;
         trace[last].slept == 30.0 && trace[last].m > 0.0 && next == Moved(trace[last].m, answers[last].multiplier)
  }

  lemma {:induction false} OneMoreSlice(m: real, trace: seq<Slice>, answers: seq<Answer>, s: Slice)
    requires TraceFollows(m, trace, answers) && NextFollows(m, trace, answers, s.m)
    ensures TraceFollows(m, trace + [s], answers)
  {
    var longer := trace + [s];
    forall i | 0 <= i < |longer| - 1 ensures SliceFollows(longer, answers, i) {
      if i < |trace| - 1 {
        assert SliceFollows(trace, answers, i);
      }
    }
  }

  // What a wait knows of its polls between two slices: it goes on at multiplier `now`, on caches `held`.
  ghost predicate Followed(p: Params, c: Cache, m: real, polls: nat -> Poll, trace: seq<Slice>, answers: seq<Answer>,
                           goesOn: bool, now: real, held: Cache) {
    && PollsAnswered(p, c, polls, answers) && TraceFollows(m, trace, answers)
    && (goesOn ==> NextFollows(m, trace, answers, now) && held == LastCaches(c, answers))
  }

  lemma {:induction false} FollowedByOne(p: Params, c: Cache, m: real, polls: nat -> Poll, trace: seq<Slice>, answers: seq<Answer>,
                                         held: Cache, s: Slice, polled: bool, a: Answer, goesOn: bool)
    requires Followed(p, c, m, polls, trace, answers, true, s.m, held) && s.m > 0.0
    requires polled ==> a == Step(p, held, polls(|trace| + 1))
    requires goesOn ==> polled && s.slept == 30.0
    ensures var more := if polled then answers + [a] else answers;
            Followed(p, c, m, polls, trace + [s], more, goesOn, Moved(s.m, a.multiplier), a.cache)
  {
    OneMoreSlice(m, trace, answers, s);
    if polled {
      OneMoreAnswer(p, c, polls, answers, a);
      AnswerAdded(m, trace + [s], answers, a);
    }
  }

  lemma {:induction false} AnswerAdded(m: real, trace: seq<Slice>, answers: seq<Answer>, a: Answer)
    requires TraceFollows(m, trace, answers)
    ensures TraceFollows(m, trace, answers + [a])
  {
    forall i | 0 <= i < |trace| - 1 ensures SliceFollows(trace, answers + [a], i) {
      assert SliceFollows(trace, answers, i);
    }
  }

  // ---------------------------------------------------------------- a wait between two slices

  // All that holds of a wait between two slices: its books, what it has slept, and whose multipliers
  // it followed.
  ghost predicate Underway(p: Params, c: Cache, m0: real, polls: nat -> Poll, alive: nat -> bool, total: real,
                           trace: seq<Slice>, answers: seq<Answer>, slept: real, checks: nat, remaining: real, m: real, held: Cache) {
    && slept == Slept(trace) && slept <= checks as real && (forall i :: 0 <= i < checks ==> alive(i))
    && Waiting(p, trace, remaining, m, total, alive(checks))
    && Followed(p, c, m0, polls, trace, answers, remaining > 0.0 && alive(checks), m, held)
  }

  ghost function RankOf(p: Params, remaining: real, m: real): real {
    if m > 0.0 then Rank(p, remaining, m) else 0.0
  }

  lemma WaitingNow(p: Params, c: Cache, m0: real, polls: nat -> Poll, alive: nat -> bool, total: real,
                   trace: seq<Slice>, answers: seq<Answer>, slept: real, checks: nat, remaining: real, m: real, held: Cache)
    requires Underway(p, c, m0, polls, alive, total, trace, answers, slept, checks, remaining, m, held) && alive(checks)
    ensures Waiting(p, trace, remaining, m, total, true) && m > 0.0 && RankOf(p, remaining, m) == Rank(p, remaining, m)
  {
  }

  lemma {:induction false} UnderwayAtFirst(p: Params, c: Cache, m: real, polls: nat -> Poll, alive: nat -> bool, wait: real)
    requires p.ClampOk() && InClamp(p, m) && 0.0 <= wait
    ensures Underway(p, c, m, polls, alive, wait / m, [], [], 0.0, 0, wait, m, c)
  {
  }

  lemma {:induction false} UnderwayByOne(p: Params, c: Cache, m0: real, polls: nat -> Poll, alive: nat -> bool, total: real,
                                         trace: seq<Slice>, answers: seq<Answer>, slept: real, checks: nat, remaining: real, m: real, held: Cache,
                                         s: real, left: real, next: real, after: nat, a: Answer, now: Cache)
    requires Underway(p, c, m0, polls, alive, total, trace, answers, slept, checks, remaining, m, held)
    requires remaining > 0.0 && alive(checks) && checks <= after && s <= (after - checks) as real && forall i :: checks <= i < after ==> alive(i)
    requires Waiting(p, trace + [Slice(s, m)], left, next, total, alive(after)) && Slept(trace + [Slice(s, m)]) == Slept(trace) + s
    requires left > 0.0 && alive(after) ==> s == 30.0
    requires left > 0.0 ==> a == Step(p, held, polls(|trace| + 1)) && now == a.cache && next == Moved(m, a.multiplier)
    ensures Underway(p, c, m0, polls, alive, total, trace + [Slice(s, m)], if left > 0.0 then answers + [a] else answers, slept + s, after, left, next, now)
  {
    FollowedByOne(p, c, m0, polls, trace, answers, held, Slice(s, m), left > 0.0, a, left > 0.0 && alive(after));
  }

  // What is known when the wait is over.
  lemma {:induction false} UnderwayAtLast(p: Params, c: Cache, m0: real, polls: nat -> Poll, alive: nat -> bool, total: real,
                                          trace: seq<Slice>, answers: seq<Answer>, slept: real, checks: nat, remaining: real, m: real, held: Cache)
    requires Underway(p, c, m0, polls, alive, total, trace, answers, slept, checks, remaining, m, held)
    requires remaining <= 0.0 || !alive(checks)
    ensures SlicesOk(p, trace) && slept == Slept(trace) && Work(trace) <= total && FewSlices(p, |trace|, total)
    ensures alive(checks) ==> Work(trace) == total
    ensures slept <= checks as real && forall i :: 0 <= i < checks ==> alive(i)
    ensures PollsAnswered(p, c, polls, answers) && TraceFollows(m0, trace, answers)
  {
    LeftIsNoLess(remaining, m);
  }
}
