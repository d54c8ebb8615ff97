// A run in which the miner misses a reorganisation and answers with a stale multiplier.
module StaleReplay {
  import opened Basics
  import opened DifficultyRecurrence
  import opened DifficultyReplay
  import opened SeenChain
  import opened DifficultyRuns

  // A reorganisation the miner cannot notice: the chain keeps its length, and its last block
  // comes a minute earlier.
  const SAMPLE: Params := Params(1, 1, 0.1, 10.0)
  const ORIGINAL: Event := Event([0.0, 120.0, 240.0], Poll(Some(3), map[0 := 0.0, 1 := 120.0, 2 := 240.0]))
  const REWRITTEN: Event := Event([0.0, 120.0, 180.0], Poll(Some(3), map[0 := 0.0, 1 := 120.0, 2 := 180.0]))

  // One block per window: the multiplier of block 3 is set by the last gap alone.
  lemma SampleSeries(chain: seq<real>)
    requires |chain| == 3 && chain[1] - chain[0] == 120.0 && 60.0 <= chain[2] - chain[1] <= 120.0
    ensures SAMPLE.Valid() && D(SAMPLE, chain, 3) * (chain[2] - chain[1]) == 120.0
  {
    var p, gap := SAMPLE, chain[2] - chain[1];
    NextIsClampedRate(p, 1.0, 120.0);
    NextIsClampedRate(p, 1.0, gap);
    SampleRate(gap);
    assert SumD(p, chain, 1, 2) == SumD(p, chain, 1, 1) + D(p, chain, 1);
    assert D(p, chain, 2) == 1.0;
    assert SumD(p, chain, 2, 3) == SumD(p, chain, 2, 2) + D(p, chain, 2);
  }

  lemma SampleRate(gap: real)
    requires 60.0 <= gap <= 120.0
    ensures SAMPLE.Clamp(120.0 / gap) * gap == 120.0
  {
    var q := 120.0 / gap;
    assert q * gap == 120.0;
    assert 1.0 <= q <= 2.0;
  }

  ghost predicate Served(p: Params, e: Event) {
    Honest(e) && Replays(p, e) && forall h :: 0 <= h < |e.chain| ==> h in e.poll.headers
  }

  // A first poll with every header served replays the whole chain.
  lemma {:induction false} FirstPoll(p: Params, e: Event)
    requires p.Valid() && Served(p, e)
    ensures AllHonest([e]) && Admissible(p, [e]) && BasisAfter(p, [e]) == e.chain
    ensures CacheAfter(p, [e]) == Step(p, EMPTY, e.poll).cache && CacheAfter(p, [e]).last == Some(|e.chain| - 1)
    ensures SeenAfter(p, [e]) == e.chain
  {
    assert [e][..0] == [];
    assert CacheAfter(p, []) == EMPTY && SeenAfter(p, []) == [];
    PollCompletes(p, EMPTY, e);
    SpliceOfExtension(p, EMPTY, [], e.chain);
  }

  // Any other chain of that length goes unnoticed, and gets the multiplier of the first.
  lemma {:induction false} SecondPoll(p: Params, e: Event, f: Event)
    requires p.Valid() && Served(p, e) && Honest(f) && Replays(p, f)
    requires |e.chain| == |f.chain| && e.chain != f.chain
    ensures Admissible(p, [e]) && !Noticed(CacheAfter(p, [e]), BasisAfter(p, [e]), f.chain)
    ensures Step(p, CacheAfter(p, [e]), f.poll).complete
    ensures Step(p, CacheAfter(p, [e]), f.poll).multiplier == D(p, e.chain, |e.chain|)
  {
    FirstPoll(p, e);
    SameLengthReorg(p, [e], f);
  }

  // Why the reorganisation has to be noticed: the poll after this one completes, with a stale
  // timestamp in its window and a multiplier that is not the one of the chain it saw.
  lemma {:induction false} UnnoticedReorgIsStale()
    ensures SAMPLE.Valid() && Admissible(SAMPLE, [ORIGINAL]) && Honest(REWRITTEN)
    ensures !Noticed(CacheAfter(SAMPLE, [ORIGINAL]), BasisAfter(SAMPLE, [ORIGINAL]), REWRITTEN.chain)
    ensures Step(SAMPLE, CacheAfter(SAMPLE, [ORIGINAL]), REWRITTEN.poll).complete
    ensures Step(SAMPLE, CacheAfter(SAMPLE, [ORIGINAL]), REWRITTEN.poll).multiplier != D(SAMPLE, REWRITTEN.chain, 3)
  {
    assert ORIGINAL.chain[2] != REWRITTEN.chain[2];
    SecondPoll(SAMPLE, ORIGINAL, REWRITTEN);
    SampleSeries(ORIGINAL.chain);
    SampleSeries(REWRITTEN.chain);
  }
}
