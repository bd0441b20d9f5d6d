/** The stateful side of the wind tile scheduler: the hook's refs (tile list,
    coverage set, batch counter) and its published data, the batch step with
    its `finally` rescheduling, and the two-hourly full refresh. */
module WindScheduler {
  import opened Wrappers
  import opened SeqUtil
  import opened WindGrid
  import opened WindSampler
  import opened WindBatch

  /** Batches that make up one sweep of the grid: 27 * 24 == 648 tiles. */
  const NumBatches: nat := 27
  /** Delay before the next batch, in milliseconds. */
  const FirstDelay: nat := 60 * 1000
  /** Delay of the long pause and of the full refresh, in milliseconds. */
  const RefreshInterval: nat := 2 * 60 * 60 * 1000

  /** What the `finally` block leaves behind on the timer. */
  datatype Schedule =
    | Stop                    // the hook was unmounted: no timer is set
    | NextBatch(delay: nat)   // run the batch step again after `delay`
    | FullRefresh(delay: nat) // after `delay`, clear everything and start over

  /** The `finally` block, given the incremented batch counter and the number
      of tiles still to fetch: the next timer and the new counter. */
  function Reschedule(count: nat, remaining: int): (r: (Schedule, nat))
    ensures remaining > 0 ==> r.0.NextBatch? && r.1 < NumBatches
    ensures remaining > 0 ==> (r.0.delay == FirstDelay <==> count < NumBatches)
    ensures remaining > 0 ==> (r.0.delay == RefreshInterval <==> count >= NumBatches)
    ensures remaining > 0 ==> (r.1 == count <==> count < NumBatches)
    ensures remaining > 0 && count >= NumBatches ==> r.1 == 0
    ensures remaining <= 0 ==> r.0 == FullRefresh(RefreshInterval) && r.1 == count
  {
    if remaining > 0 then
      (NextBatch(if count < NumBatches then FirstDelay else RefreshInterval),
       if count >= NumBatches then 0 else count)
    else
      (FullRefresh(RefreshInterval), count)
  }

  /** The counter after n batches in a row that each leave tiles to fetch,
      starting from a fresh counter. */
  function CounterAfter(n: nat): nat {
    if n == 0 then 0 else Reschedule(CounterAfter(n - 1) + 1, 1).1
  }

  /** The delay set after the n-th of those batches. */
  function DelayAfter(n: nat): nat
    requires n > 0
  {
    Reschedule(CounterAfter(n - 1) + 1, 1).0.delay
  }

  /** The counter wraps at NumBatches, so only every NumBatches-th delay is
      the long one and the others are the short one. */
  lemma {:induction false} CounterCycles(n: nat)
    ensures CounterAfter(n) == n % NumBatches
    ensures n > 0 ==> (DelayAfter(n) == RefreshInterval <==> n % NumBatches == 0)
    ensures n > 0 ==> (DelayAfter(n) == FirstDelay <==> n % NumBatches != 0)
  {
    if n > 0 {
      CounterCycles(n - 1);
      ModSucc(n - 1);
    }
  }

  /** Counting modulo NumBatches. */
  lemma ModSucc(m: nat)
    ensures (m + 1) % NumBatches == if m % NumBatches + 1 == NumBatches then 0 else m % NumBatches + 1
  {
  }

  /** Facts about the grid the scheduler relies on. */
  lemma GridFacts()
    ensures DistinctKeys(Grid())
    ensures |Grid()| == |GridKeys()| == NumBatches * BatchSize
  {
    GridKeysDistinct();
    GridKeysCard();
  }

  /** A prefix of a list without repeated keys has none either. */
  lemma PrefixDistinctKeys(tiles: seq<Tile>, n: nat)
    requires DistinctKeys(tiles) && n <= |tiles|
    ensures DistinctKeys(tiles[..n])
  {
    var p := tiles[..n];
    forall i, j | 0 <= i < j < |p| ensures KeyOf(p[i]) != KeyOf(p[j]) {
      assert p[i] == tiles[i] && p[j] == tiles[j];
    }
  }

  /** After k batches of a sweep as many tiles are covered as were taken. */
  lemma SweepCoverageSize(tiles: seq<Tile>, fetch: (Tile, Pass) -> Option<Summary>, k: nat)
    requires DistinctKeys(tiles) && NeverFailsTwice(fetch)
    ensures |SweepCoverage(tiles, fetch, k)| == Min(k * BatchSize, |tiles|)
  {
    var n := Min(k * BatchSize, |tiles|);
    SweepProgress(tiles, fetch, k);
    PrefixDistinctKeys(tiles, n);
    KeySetCard(tiles[..n]);
  }

  /** A sweep of a 648-tile list with a sampler that never fails twice:
      each of the first 26 batches leaves tiles and so sets the short delay
      with the counter unchanged. */
  lemma {:induction false} SweepScheduleEarly(tiles: seq<Tile>, fetch: (Tile, Pass) -> Option<Summary>, k: nat)
    requires DistinctKeys(tiles) && |tiles| == NumBatches * BatchSize
    requires NeverFailsTwice(fetch) && 0 < k < NumBatches
    ensures Reschedule(k, |tiles| - |SweepCoverage(tiles, fetch, k)|) == (NextBatch(FirstDelay), k)
  {
    var left := |tiles| - |SweepCoverage(tiles, fetch, k)|;
    TilesLeftInSweep(tiles, fetch, k);
    assert left > 0;
    RescheduleInSweep(k, left);
  }

  /** The 27th batch of such a sweep covers the list and sets the full
      refresh. */
  lemma {:induction false} SweepScheduleLast(tiles: seq<Tile>, fetch: (Tile, Pass) -> Option<Summary>, k: nat)
    requires DistinctKeys(tiles) && |tiles| == NumBatches * BatchSize
    requires NeverFailsTwice(fetch) && k == NumBatches
    ensures Reschedule(k, |tiles| - |SweepCoverage(tiles, fetch, k)|) == (FullRefresh(RefreshInterval), k)
  {
    TilesLeftInSweep(tiles, fetch, k);
    RescheduleInSweep(k, |tiles| - |SweepCoverage(tiles, fetch, k)|);
  }

  /** What is left after batch k of a sweep. */
  lemma {:induction false} TilesLeftInSweep(tiles: seq<Tile>, fetch: (Tile, Pass) -> Option<Summary>, k: nat)
    requires DistinctKeys(tiles) && |tiles| == NumBatches * BatchSize
    requires NeverFailsTwice(fetch) && 0 < k <= NumBatches
    ensures |tiles| - |SweepCoverage(tiles, fetch, k)| == (NumBatches - k) * BatchSize
  {
    SweepCoverageSize(tiles, fetch, k);
  }

  /** The schedule after batch k of a sweep, given what is left. */
  lemma RescheduleInSweep(k: nat, remaining: int)
    requires 0 < k <= NumBatches && remaining == (NumBatches - k) * BatchSize
    ensures k < NumBatches ==> Reschedule(k, remaining) == (NextBatch(FirstDelay), k)
    ensures k == NumBatches ==> Reschedule(k, remaining) == (FullRefresh(RefreshInterval), k)
  {
  }

  /** The keys of the successful attempts among the first n. */
  function SucceededPrefix(rs: seq<Attempt>, n: nat): set<TileKey>
    requires n <= |rs|
  {
    set j | 0 <= j < n && rs[j].result.Some? :: rs[j].key
  }

  /** All successful attempts are exactly the keys the merge adds. */
  lemma SucceededPrefixComplete(rs: seq<Attempt>)
    ensures SucceededPrefix(rs, |rs|) == Elems(NewKeys(rs))
  {
    forall k ensures k in SucceededPrefix(rs, |rs|) <==> k in Elems(NewKeys(rs)) {
      NewKeysSucceeded(rs, k);
      if Succeeded(rs, k) {
        var r :| r in rs && r.key == k && r.result.Some?;
        var j :| 0 <= j < |rs| && rs[j] == r;
        assert k in SucceededPrefix(rs, |rs|);
      }
    }
  }

  /** The wind data hook: its refs and its published wind data. */
  class WindData {
    /** All tiles, generated once. */
    const tiles: seq<Tile>
    /** Keys of the tiles fetched in the current cycle. */
    var covered: set<TileKey>
    /** The published tile summaries, in merge order. */
    var data: seq<Summary>
    /** Batches run since the counter was last reset. */
    var batchCount: nat
    /** The key each published summary was fetched for. */
    ghost var dataKeys: seq<TileKey>

    /** Coverage and data stay in step: one summary per covered tile,
        describing that tile. */
    ghost predicate Coherent()
      reads this
    {
      && DistinctKeys(tiles) && |tiles| == NumBatches * BatchSize
      && covered <= KeySet(tiles)
      && Consistent(covered, data, dataKeys)
    }

    /** Coherent, and a full counter means a fully covered list. */
    ghost predicate Valid()
      reads this
    {
      && Coherent()
      && batchCount <= NumBatches
      && (batchCount == NumBatches ==> covered == KeySet(tiles))
    }

    /** What the invariant promises about the published data: the coverage
        set holds grid keys only, there are as many summaries as covered
        tiles, and on the generated grid no tile has two summaries. */
    lemma DataMatchesCoverage()
      requires Valid()
      ensures covered <= KeySet(tiles)
      ensures |data| == |covered|
      ensures tiles == Grid() ==> forall i, j :: 0 <= i < j < |data| ==> data[i].tile != data[j].tile
    {
      ConsistentSizes(covered, data, dataKeys);
      if tiles == Grid() {
        AtMostOneSummaryPerTile(covered, data, dataKeys);
      }
    }

    /** The hook's initial refs: the generated grid, nothing fetched. */
    constructor ()
      ensures Valid() && tiles == Grid()
      ensures covered == {} && data == [] && batchCount == 0
    {
      var g := GenerateGlobalTiles();
      GridFacts();
      tiles := g;
      covered := {};
      data := [];
      batchCount := 0;
      dataKeys := [];
    }

    /** The merge: append the valid summaries to the data, then add the key
        of every successful attempt to the coverage set, in order. */
    method Merge(final: seq<Attempt>)
      modifies this
      ensures covered == old(covered) + Elems(NewKeys(final))
      ensures data == old(data) + Published(final)
      ensures dataKeys == old(dataKeys) + NewKeys(final)
      ensures batchCount == old(batchCount)
    {
      data := data + Published(final);
      dataKeys := dataKeys + NewKeys(final);
      var keys := covered;
      var j := 0;
      while j < |final|
        invariant 0 <= j <= |final|
        invariant keys == old(covered) + SucceededPrefix(final, j)
      {
        if final[j].result.Some? {
          keys := keys + {final[j].key};
        }
        j := j + 1;
      }
      SucceededPrefixComplete(final);
      covered := keys;
    }

    /** One run of the batch step, then its `finally` block. The hook may be
        unmounted when the step starts or by the time the results are merged. */
    method FetchBatch(fetch: (Tile, Pass) -> Option<Summary>, mountedAtStart: bool, mountedAtMerge: bool)
      returns (next: Schedule)
      requires Valid() && Honest(fetch)
      modifies this
      ensures Valid()
      ensures !mountedAtStart ==>
        next == Stop && covered == old(covered) && data == old(data) && batchCount == old(batchCount)
      ensures mountedAtStart ==>
        var rs := BatchResults(Batch(tiles, old(covered)), fetch);
        var ran := Remaining(tiles, old(covered)) != [];
        && covered == (if ran && mountedAtMerge then old(covered) + Elems(NewKeys(rs)) else old(covered))
        && data == (if ran && mountedAtMerge then old(data) + Published(rs) else old(data))
        && (next, batchCount)
           == Reschedule(if ran then old(batchCount) + 1 else old(batchCount), |tiles| - |covered|)
    {
      if !mountedAtStart {
        return Stop;
      }
      var allRemaining := Remaining(tiles, covered);
      if allRemaining != [] {
        RunStep(fetch, mountedAtMerge);
      }
      next := Finally();
    }

    /** The body of the batch step once tiles remain: take the batch, run
        both passes, merge if still mounted and something was fetched, and
        count the batch. */
    method RunStep(fetch: (Tile, Pass) -> Option<Summary>, mountedAtMerge: bool)
      requires Valid() && Honest(fetch) && Remaining(tiles, covered) != []
      modifies this
      ensures Coherent() && batchCount == old(batchCount) + 1 <= NumBatches
      ensures var rs := BatchResults(Batch(tiles, old(covered)), fetch);
        && covered == (if mountedAtMerge then old(covered) + Elems(NewKeys(rs)) else old(covered))
        && data == (if mountedAtMerge then old(data) + Published(rs) else old(data))
    {
      CounterNotFull();
      var allRemaining := Remaining(tiles, covered);
      var batch := allRemaining[..Min(BatchSize, |allRemaining|)];
      assert batch == Batch(tiles, covered);
      var final := RunBatch(batch, fetch);
      Publish(batch, fetch, final, mountedAtMerge);
      batchCount := batchCount + 1;
    }

    /** The merge guard: merge only while still mounted and when some
        summary came back. */
    method Publish(batch: seq<Tile>, fetch: (Tile, Pass) -> Option<Summary>, final: seq<Attempt>, mountedAtMerge: bool)
      requires Valid() && Honest(fetch)
      requires batch == Batch(tiles, covered) && final == BatchResults(batch, fetch)
      modifies this
      ensures Coherent() && batchCount == old(batchCount)
      ensures covered == (if mountedAtMerge then old(covered) + Elems(NewKeys(final)) else old(covered))
      ensures data == (if mountedAtMerge then old(data) + Published(final) else old(data))
    {
      var valid := Published(final);
      if mountedAtMerge && |valid| > 0 {
        MergeStep(batch, fetch);
        Merge(final);
      } else {
        NothingPublished(final);
        if mountedAtMerge {
          assert covered + Elems(NewKeys(final)) == covered;
          assert data + Published(final) == data;
        }
      }
    }

    /** While tiles remain the counter has not reached NumBatches. */
    lemma CounterNotFull()
      requires Valid() && Remaining(tiles, covered) != []
      ensures batchCount < NumBatches
    {
      if batchCount == NumBatches {
        KeySetCard(tiles);
        RemainingCount(tiles, covered);
      }
    }

    /** The `finally` block: the timer for what comes next, from the number
        of tiles not yet covered; the counter is reset after the long delay. */
    method Finally() returns (next: Schedule)
      requires Coherent() && batchCount <= NumBatches
      modifies this
      ensures Valid()
      ensures covered == old(covered) && data == old(data)
      ensures (next, batchCount) == Reschedule(old(batchCount), |tiles| - |covered|)
    {
      var remaining := |tiles| - |covered|;
      var r := Reschedule(batchCount, remaining);
      next, batchCount := r.0, r.1;
      if remaining <= 0 {
        KeySetCard(tiles);
        SubsetOfSameSize(covered, KeySet(tiles));
      }
    }

    /** What merging the next batch's results does to the invariant. */
    lemma MergeStep(batch: seq<Tile>, fetch: (Tile, Pass) -> Option<Summary>)
      requires Valid() && Honest(fetch)
      requires batch == Batch(tiles, covered)
      ensures var rs := BatchResults(batch, fetch);
        && Consistent(covered + Elems(NewKeys(rs)), data + Published(rs), dataKeys + NewKeys(rs))
        && covered + Elems(NewKeys(rs)) <= KeySet(tiles)
    {
      BatchSelection(tiles, covered);
      MergeKeepsConsistency(covered, data, dataKeys, batch, fetch);
      BatchContribution(batch, fetch);
      KeySetMono(batch, tiles);
    }

    /** The refresh timer's first half: forget the cycle's coverage, counter
        and data. */
    method FullReset()
      requires Valid()
      modifies this
      ensures Valid() && covered == {} && data == [] && batchCount == 0
    {
      covered := {};
      batchCount := 0;
      data := [];
      dataKeys := [];
    }

    /** The refresh timer: reset, then run the batch step, which starts the
        new cycle from the first BatchSize tiles. */
    method Refresh(fetch: (Tile, Pass) -> Option<Summary>, mountedAtStart: bool, mountedAtMerge: bool)
      returns (next: Schedule)
      requires Valid() && Honest(fetch)
      modifies this
      ensures Valid()
      ensures !mountedAtStart ==> next == Stop && covered == {} && data == [] && batchCount == 0
      ensures mountedAtStart ==>
        var rs := BatchResults(tiles[..BatchSize], fetch);
        && covered == (if mountedAtMerge then Elems(NewKeys(rs)) else {})
        && data == (if mountedAtMerge then Published(rs) else [])
        && next == NextBatch(FirstDelay) && batchCount == 1
    {
      FullReset();
      BatchAfterReset(tiles);
      RemainingNothingCovered(tiles);
      FirstBatchSmall(tiles, fetch);
      ghost var rs := BatchResults(tiles[..BatchSize], fetch);
      assert {} + Elems(NewKeys(rs)) == Elems(NewKeys(rs));
      assert [] + Published(rs) == Published(rs);
      next := FetchBatch(fetch, mountedAtStart, mountedAtMerge);
    }
  }

  /** A merge that publishes nothing adds no keys. */
  lemma NothingPublished(rs: seq<Attempt>)
    ensures |Published(rs)| == 0 ==> Elems(NewKeys(rs)) == {}
  {
  }

  /** The keys of a sub-list are keys of the list. */
  lemma KeySetMono(a: seq<Tile>, b: seq<Tile>)
    requires forall t :: t in a ==> t in b
    ensures KeySet(a) <= KeySet(b)
  {
  }

  /** The first batch of a cycle covers at most BatchSize tiles. */
  lemma FirstBatchSmall(tiles: seq<Tile>, fetch: (Tile, Pass) -> Option<Summary>)
    requires DistinctKeys(tiles) && |tiles| >= BatchSize && Honest(fetch)
    ensures |Elems(NewKeys(BatchResults(tiles[..BatchSize], fetch)))| <= BatchSize
  {
    var b := tiles[..BatchSize];
    PrefixDistinctKeys(tiles, BatchSize);
    BatchContribution(b, fetch);
    KeySetCard(b);
    SubsetCard(Elems(NewKeys(BatchResults(b, fetch))), KeySet(b));
  }
}
