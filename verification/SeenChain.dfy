// The chain as one miner has seen it.  Cached timestamps are never fetched again, so after a
// reorganisation that the miner does not notice it works on a splice of the old chain and the new
// one; its caches are always true of that splice.
module SeenChain {
  import opened Basics
  import opened DifficultyRecurrence
  import opened DifficultyReplay

  // ---------------------------------------------------------------- what is never fetched again

  // Cached, or older than every window still to be read.
  predicate Held(p: Params, c: Cache, h: int) {
    h in c.ts || (c.last.Some? && h < c.last.value - 2 * p.window - 2)
  }

  predicate WindowHeld(p: Params, c: Cache, j: int) {
    Held(p, c, j - 1) && Held(p, c, j - 1 - p.window)
  }

  // Every window that went into a stored multiplier is held.
  ghost predicate Rooted(p: Params, c: Cache) {
    && (c.last.Some? ==> p.start < c.last.value && c.last.value + 1 in c.d)
    && forall k, j {:trigger k in c.d, WindowHeld(p, c, j)} :: k in c.d && p.start < j <= k ==> WindowHeld(p, c, j)
  }

  // Held heights as they were seen before, all others from the new chain.
  function Splice(p: Params, c: Cache, seen: seq<real>, chain: seq<real>): (r: seq<real>)
    ensures |r| == Max(|seen|, |chain|)
    ensures forall h :: 0 <= h < |r| ==> r[h] == if h < |seen| && (|chain| <= h || Held(p, c, h)) then seen[h] else chain[h]
  {
    seq(Max(|seen|, |chain|), h requires 0 <= h < Max(|seen|, |chain|) =>
      if h < |seen| && (|chain| <= h || Held(p, c, h)) then seen[h] else chain[h])
  }

  // Splicing in a chain that only grew, or splicing onto nothing, gives that chain.
  lemma SpliceOfExtension(p: Params, c: Cache, seen: seq<real>, chain: seq<real>)
    requires seen <= chain
    ensures Splice(p, c, seen, chain) == chain
  {
  }

  lemma SpliceKeepsSeries(p: Params, c: Cache, seen: seq<real>, chain: seq<real>, k: int)
    requires p.Valid() && Rooted(p, c) && k in c.d && k <= |seen|
    ensures D(p, Splice(p, c, seen, chain), k) == D(p, seen, k)
  {
    var v := Splice(p, c, seen, chain);
    forall j | p.start < j <= k ensures SameWindow(p, v, seen, j) {
      assert WindowHeld(p, c, j);
    }
    DOfSameWindows(p, v, seen, k);
  }

  // Whatever the chain has become, the caches are true of the splice.
  lemma SpliceIsFaithful(p: Params, c: Cache, seen: seq<real>, chain: seq<real>)
    requires p.Valid() && Faithful(p, c, seen) && Rooted(p, c)
    ensures Faithful(p, c, Splice(p, c, seen, chain))
  {
    forall k | k in c.d ensures D(p, Splice(p, c, seen, chain), k) == c.d[k] {
      SpliceKeepsSeries(p, c, seen, chain, k);
    }
  }

  // ---------------------------------------------------------------- a replay reads the splice

  function Unheld(p: Params, c: Cache, headers: map<int, real>): map<int, real> {
    map h | h in headers && !Held(p, c, h) :: headers[h]
  }

  lemma {:induction false} AdvanceReadsSplice(p: Params, c: Cache, seen: seq<real>, headers: map<int, real>, chain: seq<real>, top: int)
    requires p.Valid() && Faithful(p, c, seen) && TrueTimes(headers, chain)
    ensures TrueTimes(Unheld(p, c, headers), Splice(p, c, seen, chain))
    ensures Advance(p, c, headers, top) == Advance(p, c, Unheld(p, c, headers), top)
  {
    var first := FirstHeight(p, c);
    assert SameOffer(c.ts, headers, Unheld(p, c, headers), first - 1 - p.window);
    ReplayIgnores(p, c.d, c.ts, headers, Unheld(p, c, headers), first - 1 - p.window, first, top + 2);
  }

  // ---------------------------------------------------------------- what a replay leaves behind

  lemma HeldLater(p: Params, c: Cache, later: Cache, k: int)
    requires p.Valid() && Rooted(p, c) && k in c.d
    requires forall h :: Held(p, c, h) ==> Held(p, later, h)
    ensures forall j :: p.start < j <= k ==> WindowHeld(p, later, j)
  {
    forall j | p.start < j <= k ensures WindowHeld(p, later, j) {
      assert WindowHeld(p, c, j);
    }
  }

  // The windows of a height stored by the replay: those up to the last height were held before,
  // the others were read just now.
  lemma NewlyHeld(p: Params, c: Cache, r: Replayed, later: Cache, k: int)
    requires p.Valid() && Rooted(p, c) && FirstHeight(p, c) <= k && WindowsIn(p, r.ts, FirstHeight(p, c), k + 1)
    requires forall h :: Held(p, c, h) || h in r.ts ==> Held(p, later, h)
    ensures forall j :: p.start < j <= k ==> WindowHeld(p, later, j)
  {
    if c.last.Some? {
      HeldLater(p, c, later, c.last.value + 1);
    }
    forall j | p.start < j <= k ensures WindowHeld(p, later, j) {
      if FirstHeight(p, c) <= j {
        assert WindowIn(p, r.ts, j);
      }
    }
  }

  lemma {:induction false} AdvanceIsRooted(p: Params, c: Cache, headers: map<int, real>, top: int)
    requires p.Valid() && Rooted(p, c) && p.start < top
    requires c.last.Some? ==> c.last.value <= top
    ensures Rooted(p, Advance(p, c, headers, top).cache)
  {
    var first, later := FirstHeight(p, c), Advance(p, c, headers, top).cache;
    var r := Replay(p, c.d, c.ts, headers, first, top + 2);
    ReplayHolds(p, c.d, c.ts, headers, first, top + 2);
    assert forall h :: Held(p, c, h) || h in r.ts ==> Held(p, later, h);
    forall k | k in later.d ensures forall j :: p.start < j <= k ==> WindowHeld(p, later, j) {
      if k in c.d {
        HeldLater(p, c, later, k);
      } else {
        NewlyHeld(p, c, r, later, k);
      }
    }
  }
}
