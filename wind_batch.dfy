/** One batch step of the wind tile scheduler, as values: which tiles are
    still to fetch, which of them form the next batch, the slow pass and the
    retry burst over a sampler oracle, and what the merge publishes. */
module WindBatch {
  import opened Wrappers
  import opened SeqUtil
  import opened WindGrid
  import opened WindSampler

  /** Tiles taken per batch. */
  const BatchSize: nat := 24
  /** Tiles fetched together in one slow-pass sub-batch. */
  const SubBatchSize: nat := 24

  /** The two attempts a tile can get within one batch. */
  datatype Pass = Slow | Burst

  /** The result of one attempt, recorded under the tile's key. */
  datatype Attempt = Attempt(key: TileKey, result: Option<Summary>)

  /** A sampler oracle whose successful results describe the tile asked for,
      as the per-tile sampler guarantees. */
  ghost predicate Honest(fetch: (Tile, Pass) -> Option<Summary>) {
    forall t: Tile, p: Pass :: fetch(t, p).Some? ==> fetch(t, p).value.tile == MakeTileBounds(t.lat, t.lon)
  }

  /** The sampler, fed one response per tile and attempt, is such an oracle. */
  lemma SamplerIsHonest(net: (Tile, Pass) -> Option<Hourly>, reduce: Hourly -> (real, real))
    ensures Honest((t: Tile, p: Pass) => FetchWindPoint(t.lat, t.lon, net(t, p), reduce))
  {
    var fetch := (t: Tile, p: Pass) => FetchWindPoint(t.lat, t.lon, net(t, p), reduce);
    forall t: Tile, p: Pass | fetch(t, p).Some?
      ensures fetch(t, p).value.tile == MakeTileBounds(t.lat, t.lon)
    {
      assert fetch(t, p) == FetchWindPoint(t.lat, t.lon, net(t, p), reduce);
    }
  }

  // ---------------------------------------------------------------- remaining

  /** The tiles whose key is not yet covered, in the order of `tiles`. */
  function Remaining(tiles: seq<Tile>, covered: set<TileKey>): (r: seq<Tile>)
    ensures |r| <= |tiles|
    ensures forall t :: t in r <==> t in tiles && KeyOf(t) !in covered
  {
    if tiles == [] then []
    else (if KeyOf(tiles[0]) in covered then [] else [tiles[0]]) + Remaining(tiles[1..], covered)
  }

  /** Filtering keeps keys apart. */
  lemma {:induction false} RemainingDistinct(tiles: seq<Tile>, covered: set<TileKey>)
    requires DistinctKeys(tiles)
    ensures DistinctKeys(Remaining(tiles, covered))
  {
    if tiles != [] {
      DistinctKeysTail(tiles);
      RemainingDistinct(tiles[1..], covered);
      var rest := Remaining(tiles[1..], covered);
      forall j | 0 <= j < |rest| ensures KeyOf(rest[j]) != KeyOf(tiles[0]) {
        assert rest[j] in tiles[1..];
      }
    }
  }

  /** Filtering keeps the order: the remaining tiles of a concatenation are
      the remaining tiles of each part, one after the other. */
  lemma {:induction false} RemainingAppend(a: seq<Tile>, b: seq<Tile>, covered: set<TileKey>)
    ensures Remaining(a + b, covered) == Remaining(a, covered) + Remaining(b, covered)
  {
    if a != [] {
      assert (a + b)[0] == a[0] && (a + b)[1..] == a[1..] + b;
      RemainingAppend(a[1..], b, covered);
    } else {
      assert a + b == b;
    }
  }

  /** With nothing covered every tile remains (the state after a full reset). */
  lemma {:induction false} RemainingNothingCovered(tiles: seq<Tile>)
    ensures Remaining(tiles, {}) == tiles
  {
    if tiles != [] {
      RemainingNothingCovered(tiles[1..]);
    }
  }

  lemma DistinctKeysTail(ts: seq<Tile>)
    requires ts != [] && DistinctKeys(ts)
    ensures DistinctKeys(ts[1..]) && KeyOf(ts[0]) !in KeySet(ts[1..])
  {
    forall i, j | 0 <= i < j < |ts[1..]| ensures KeyOf(ts[1..][i]) != KeyOf(ts[1..][j]) {
      assert ts[1..][i] == ts[i + 1] && ts[1..][j] == ts[j + 1];
    }
  }

  /** Covering a key that no tile of the list has changes nothing. */
  lemma {:induction false} RemainingIgnoresForeignKey(tiles: seq<Tile>, covered: set<TileKey>, k: TileKey)
    requires k !in KeySet(tiles)
    ensures Remaining(tiles, covered + {k}) == Remaining(tiles, covered)
  {
    if tiles != [] {
      RemainingIgnoresForeignKey(tiles[1..], covered, k);
    }
  }

  /** The number of remaining tiles is the number of tiles minus the number of
      covered keys, when the covered keys are keys of the tiles. This is what
      makes the source's size-based "tiles remain" test agree with the filter. */
  lemma {:induction false} RemainingCount(tiles: seq<Tile>, covered: set<TileKey>)
    requires DistinctKeys(tiles) && covered <= KeySet(tiles)
    ensures |Remaining(tiles, covered)| == |tiles| - |covered|
  {
    if tiles == [] {
      assert covered == {};
    } else {
      var k := KeyOf(tiles[0]);
      DistinctKeysTail(tiles);
      if k in covered {
        var rest := covered - {k};
        assert rest <= KeySet(tiles[1..]);
        RemainingCount(tiles[1..], rest);
        RemainingIgnoresForeignKey(tiles[1..], rest, k);
        assert rest + {k} == covered;
      } else {
        assert covered <= KeySet(tiles[1..]);
        RemainingCount(tiles[1..], covered);
      }
    }
  }

  /** Filtering by two coverage sets one after the other is filtering by
      their union. */
  lemma {:induction false} RemainingCompose(tiles: seq<Tile>, c1: set<TileKey>, c2: set<TileKey>)
    ensures Remaining(tiles, c1 + c2) == Remaining(Remaining(tiles, c1), c2)
  {
    if tiles != [] {
      RemainingCompose(tiles[1..], c1, c2);
      var t := tiles[0];
      if KeyOf(t) in c1 {
        RemainingCoveredHead(tiles, c1);
        RemainingCoveredHead(tiles, c1 + c2);
      } else {
        var r1 := Remaining(tiles, c1);
        RemainingUncoveredHead(tiles, c1);
        assert r1 != [] && r1[0] == t && r1[1..] == Remaining(tiles[1..], c1);
        if KeyOf(t) in c2 {
          RemainingCoveredHead(tiles, c1 + c2);
          RemainingCoveredHead(r1, c2);
        } else {
          RemainingUncoveredHead(tiles, c1 + c2);
          RemainingUncoveredHead(r1, c2);
        }
      }
    }
  }

  /** The keys of a key-distinct list's first n tiles filter out exactly those. */
  lemma {:induction false} RemainingWithoutPrefix(r: seq<Tile>, n: nat)
    requires DistinctKeys(r) && n <= |r|
    ensures Remaining(r, KeySet(r[..n])) == r[n..]
  {
    if n == 0 {
      assert KeySet(r[..0]) == {};
      RemainingNothingCovered(r);
    } else {
      var t := r[0];
      DistinctKeysTail(r);
      assert r[..n] == [t] + r[1..][..n - 1];
      var k := KeySet(r[1..][..n - 1]);
      assert KeySet(r[..n]) == k + {KeyOf(t)};
      RemainingCoveredHead(r, k + {KeyOf(t)});
      assert KeyOf(t) !in KeySet(r[1..]);
      RemainingIgnoresForeignKey(r[1..], k, KeyOf(t));
      RemainingWithoutPrefix(r[1..], n - 1);
      assert r[1..][n - 1..] == r[n..];
    }
  }

  /** Unfolding of Remaining when the head tile is not covered. */
  lemma RemainingUncoveredHead(tiles: seq<Tile>, covered: set<TileKey>)
    requires tiles != [] && KeyOf(tiles[0]) !in covered
    ensures Remaining(tiles, covered) == [tiles[0]] + Remaining(tiles[1..], covered)
  {
  }

  /** Unfolding of Remaining when the head tile is covered. */
  lemma RemainingCoveredHead(tiles: seq<Tile>, covered: set<TileKey>)
    requires tiles != [] && KeyOf(tiles[0]) in covered
    ensures Remaining(tiles, covered) == Remaining(tiles[1..], covered)
  {
    assert Remaining(tiles, covered) == [] + Remaining(tiles[1..], covered);
  }

  /** Covering the first n remaining tiles removes exactly those n from the
      front of the remaining list. */
  lemma RemainingAfterCovering(tiles: seq<Tile>, covered: set<TileKey>, n: nat)
    requires DistinctKeys(tiles) && n <= |Remaining(tiles, covered)|
    ensures Remaining(tiles, covered + KeySet(Remaining(tiles, covered)[..n])) == Remaining(tiles, covered)[n..]
  {
    var rem := Remaining(tiles, covered);
    RemainingCompose(tiles, covered, KeySet(rem[..n]));
    RemainingDistinct(tiles, covered);
    RemainingWithoutPrefix(rem, n);
  }

  // -------------------------------------------------------------------- batch

  /** The next batch: the first BatchSize remaining tiles, in grid order. */
  function Batch(tiles: seq<Tile>, covered: set<TileKey>): (b: seq<Tile>)
    ensures |b| <= BatchSize
  {
    var rem := Remaining(tiles, covered);
    rem[..Min(BatchSize, |rem|)]
  }

  /** The batch is the front of the remaining list, and it is short only when
      it takes every remaining tile. */
  lemma BatchFront(tiles: seq<Tile>, covered: set<TileKey>)
    ensures var b := Batch(tiles, covered);
      && |b| <= |Remaining(tiles, covered)|
      && b == Remaining(tiles, covered)[..|b|]
      && (|b| < BatchSize ==> b == Remaining(tiles, covered))
  {
  }

  /** The batch, spelled out: it holds min(BatchSize, uncovered) tiles, each
      an uncovered tile of the list, with distinct keys, and no uncovered tile
      precedes a batch tile without being in the batch itself. */
  lemma BatchSelection(tiles: seq<Tile>, covered: set<TileKey>)
    requires DistinctKeys(tiles) && covered <= KeySet(tiles)
    ensures var b := Batch(tiles, covered);
      && |b| == Min(BatchSize, |tiles| - |covered|)
      && DistinctKeys(b)
      && (forall t :: t in b ==> t in tiles && KeyOf(t) !in covered)
      && b == Remaining(tiles, covered)[..|b|]
  {
    RemainingCount(tiles, covered);
    RemainingDistinct(tiles, covered);
    var rem := Remaining(tiles, covered);
    var b := Batch(tiles, covered);
    forall t | t in b ensures t in rem {
      var k :| 0 <= k < |b| && b[k] == t;
      assert rem[k] == t;
    }
  }

  /** After a full reset the next batch is the first BatchSize tiles. */
  lemma BatchAfterReset(tiles: seq<Tile>)
    ensures Batch(tiles, {}) == tiles[..Min(BatchSize, |tiles|)]
  {
    RemainingNothingCovered(tiles);
  }

  // ------------------------------------------------------------ the two passes

  /** One attempt per tile, in the order of the tiles. */
  function Attempts(tiles: seq<Tile>, fetch: (Tile, Pass) -> Option<Summary>, pass: Pass): (rs: seq<Attempt>)
    ensures |rs| == |tiles|
    ensures forall j :: 0 <= j < |tiles| ==> rs[j].key == KeyOf(tiles[j]) && rs[j].result == fetch(tiles[j], pass)
  {
    seq(|tiles|, j requires 0 <= j < |tiles| => Attempt(KeyOf(tiles[j]), fetch(tiles[j], pass)))
  }

  /** Some attempt for key k returned a summary. */
  predicate Succeeded(rs: seq<Attempt>, k: TileKey) {
    exists r :: r in rs && r.key == k && r.result.Some?
  }

  /** The slow pass: the batch split into sub-batches of SubBatchSize, each
      fetched as a group, their results appended in batch order. */
  method SlowPass(batch: seq<Tile>, fetch: (Tile, Pass) -> Option<Summary>) returns (results: seq<Attempt>)
    ensures results == Attempts(batch, fetch, Slow)
  {
    results := [];
    var i := 0;
    while i < |batch|
      invariant 0 <= i
      invariant results == Attempts(batch[..Min(i, |batch|)], fetch, Slow)
    {
      var sub := batch[i..Min(i + SubBatchSize, |batch|)];
      var fetched := seq(|sub|, j requires 0 <= j < |sub| => fetch(sub[j], Slow));
      results := results + seq(|sub|, j requires 0 <= j < |sub| => Attempt(KeyOf(sub[j]), fetched[j]));
      assert batch[..Min(i + SubBatchSize, |batch|)] == batch[..i] + sub;
      i := i + SubBatchSize;
    }
    assert batch[..Min(i, |batch|)] == batch;
  }

  /** The tiles of the batch for which no slow-pass attempt under their key
      returned a summary, in batch order: the retry burst's targets. */
  function Missing(batch: seq<Tile>, slow: seq<Attempt>): (m: seq<Tile>)
    ensures |m| <= |batch|
    ensures forall t :: t in m <==> t in batch && !Succeeded(slow, KeyOf(t))
  {
    if batch == [] then []
    else (if Succeeded(slow, KeyOf(batch[0])) then [] else [batch[0]]) + Missing(batch[1..], slow)
  }

  lemma {:induction false} MissingDistinct(batch: seq<Tile>, slow: seq<Attempt>)
    requires DistinctKeys(batch)
    ensures DistinctKeys(Missing(batch, slow))
  {
    if batch != [] {
      DistinctKeysTail(batch);
      MissingDistinct(batch[1..], slow);
      var rest := Missing(batch[1..], slow);
      forall j | 0 <= j < |rest| ensures KeyOf(rest[j]) != KeyOf(batch[0]) {
        assert rest[j] in batch[1..];
      }
    }
  }

  /** Reference definition of the retry targets: the batch tiles whose own
      slow fetch failed, in batch order. */
  function SlowFailures(batch: seq<Tile>, fetch: (Tile, Pass) -> Option<Summary>): seq<Tile> {
    if batch == [] then []
    else (if fetch(batch[0], Slow).None? then [batch[0]] else []) + SlowFailures(batch[1..], fetch)
  }

  /** The retry burst re-fetches exactly the batch tiles whose slow attempt
      failed, in batch order. */
  lemma {:induction false} RetryTargetsSlowFailures(batch: seq<Tile>, fetch: (Tile, Pass) -> Option<Summary>)
    ensures Missing(batch, Attempts(batch, fetch, Slow)) == SlowFailures(batch, fetch)
  {
    MissingSuffix(batch, Attempts(batch, fetch, Slow), fetch, 0);
  }

  lemma {:induction false} MissingSuffix(batch: seq<Tile>, slow: seq<Attempt>, fetch: (Tile, Pass) -> Option<Summary>, k: nat)
    requires slow == Attempts(batch, fetch, Slow) && k <= |batch|
    ensures Missing(batch[k..], slow) == SlowFailures(batch[k..], fetch)
    decreases |batch| - k
  {
    if k < |batch| {
      var t := batch[k];
      assert batch[k..][0] == t && batch[k..][1..] == batch[k + 1..];
      MissingSuffix(batch, slow, fetch, k + 1);
      if fetch(t, Slow).Some? {
        assert slow[k] == Attempt(KeyOf(t), fetch(t, Slow));
        assert Succeeded(slow, KeyOf(t));
      } else {
        forall j | 0 <= j < |slow| ensures !(slow[j].key == KeyOf(t) && slow[j].result.Some?) {
          assert slow[j] == Attempt(KeyOf(batch[j]), fetch(batch[j], Slow));
        }
        assert !Succeeded(slow, KeyOf(t));
      }
    }
  }

  /** All attempts of a batch: the slow pass followed by the retry burst. */
  function BatchResults(batch: seq<Tile>, fetch: (Tile, Pass) -> Option<Summary>): (rs: seq<Attempt>)
    ensures |batch| <= |rs| <= 2 * |batch|
    ensures rs[..|batch|] == Attempts(batch, fetch, Slow)
  {
    var slow := Attempts(batch, fetch, Slow);
    slow + Attempts(Missing(batch, slow), fetch, Burst)
  }

  /** Both passes of a batch: the slow pass, then the retry burst over the
      tiles it did not fetch, each burst result appended under its tile's key. */
  method RunBatch(batch: seq<Tile>, fetch: (Tile, Pass) -> Option<Summary>) returns (final: seq<Attempt>)
    ensures final == BatchResults(batch, fetch)
  {
    var slow := SlowPass(batch, fetch);
    var missing := Missing(batch, slow);
    var burst := seq(|missing|, j requires 0 <= j < |missing| => fetch(missing[j], Burst));
    final := slow;
    var i := 0;
    while i < |burst|
      invariant 0 <= i <= |burst|
      invariant final == slow + Attempts(missing[..i], fetch, Burst)
    {
      final := final + [Attempt(KeyOf(missing[i]), burst[i])];
      i := i + 1;
    }
    assert missing[..i] == missing;
  }

  // -------------------------------------------------------------------- merge

  /** No two attempts carry the same key. */
  predicate DistinctAttemptKeys(rs: seq<Attempt>) {
    forall i, j :: 0 <= i < j < |rs| ==> rs[i].key != rs[j].key
  }

  /** Attempts that carry a summary are honest about their tile. */
  predicate HonestAttempts(rs: seq<Attempt>) {
    forall r :: r in rs && r.result.Some? ==> r.result.value.tile == KeyBounds(r.key)
  }

  /** The attempts that returned a summary, in order. */
  function ValidAttempts(rs: seq<Attempt>): (v: seq<Attempt>)
    ensures |v| <= |rs|
    ensures forall r :: r in v <==> r in rs && r.result.Some?
  {
    if rs == [] then []
    else (if rs[0].result.Some? then [rs[0]] else []) + ValidAttempts(rs[1..])
  }

  lemma {:induction false} ValidAttemptsDistinct(rs: seq<Attempt>)
    requires DistinctAttemptKeys(rs)
    ensures DistinctAttemptKeys(ValidAttempts(rs))
  {
    if rs != [] {
      assert DistinctAttemptKeys(rs[1..]) by {
        forall i, j | 0 <= i < j < |rs[1..]| ensures rs[1..][i].key != rs[1..][j].key {
          assert rs[1..][i] == rs[i + 1] && rs[1..][j] == rs[j + 1];
        }
      }
      ValidAttemptsDistinct(rs[1..]);
      var rest := ValidAttempts(rs[1..]);
      forall j | 0 <= j < |rest| ensures rest[j].key != rs[0].key {
        assert rest[j] in rs[1..];
        var k :| 0 <= k < |rs[1..]| && rs[1..][k] == rest[j];
        assert rs[k + 1] == rest[j];
      }
    }
  }

  lemma {:induction false} ValidAttemptsAppend(a: seq<Attempt>, b: seq<Attempt>)
    ensures ValidAttempts(a + b) == ValidAttempts(a) + ValidAttempts(b)
  {
    if a != [] {
      assert (a + b)[0] == a[0] && (a + b)[1..] == a[1..] + b;
      ValidAttemptsAppend(a[1..], b);
    } else {
      assert a + b == b;
    }
  }

  /** The summaries the merge publishes, in attempt order. */
  function Published(rs: seq<Attempt>): (p: seq<Summary>)
    ensures |p| <= |rs|
    ensures forall i :: 0 <= i < |p| ==> exists r :: r in rs && r.result == Some(p[i])
  {
    var v := ValidAttempts(rs);
    seq(|v|, i requires 0 <= i < |v| => assert v[i] in v; v[i].result.value)
  }

  /** The keys the merge adds to the coverage set, in attempt order. */
  function NewKeys(rs: seq<Attempt>): (ks: seq<TileKey>)
    ensures |ks| == |Published(rs)|
    ensures forall i :: 0 <= i < |ks| ==> Succeeded(rs, ks[i])
  {
    var v := ValidAttempts(rs);
    seq(|v|, i requires 0 <= i < |v| => v[i].key)
  }

  /** A key is added by the merge exactly when one of its attempts succeeded. */
  lemma NewKeysSucceeded(rs: seq<Attempt>, k: TileKey)
    ensures k in Elems(NewKeys(rs)) <==> Succeeded(rs, k)
  {
    var v := ValidAttempts(rs);
    if Succeeded(rs, k) {
      var r :| r in rs && r.key == k && r.result.Some?;
      var i :| 0 <= i < |v| && v[i] == r;
      assert NewKeys(rs)[i] == k;
    }
  }

  /** A success stays a success when more attempts follow. */
  lemma SucceededAppend(a: seq<Attempt>, b: seq<Attempt>, k: TileKey)
    requires Succeeded(a, k)
    ensures Succeeded(a + b, k)
  {
    var r :| r in a && r.key == k && r.result.Some?;
    assert r in a + b;
  }

  /** A batch tile's key is covered after the merge if and only if its slow
      fetch or its retry returned a summary. */
  lemma CoveredIffFetched(batch: seq<Tile>, fetch: (Tile, Pass) -> Option<Summary>, k: TileKey)
    ensures k in Elems(NewKeys(BatchResults(batch, fetch)))
        <==> exists t :: t in batch && KeyOf(t) == k && (fetch(t, Slow).Some? || fetch(t, Burst).Some?)
  {
    NewKeysSucceeded(BatchResults(batch, fetch), k);
    if exists t :: t in batch && KeyOf(t) == k && (fetch(t, Slow).Some? || fetch(t, Burst).Some?) {
      var t :| t in batch && KeyOf(t) == k && (fetch(t, Slow).Some? || fetch(t, Burst).Some?);
      FetchedIsCovered(batch, fetch, t);
    }
    if Succeeded(BatchResults(batch, fetch), k) {
      CoveredWasFetched(batch, fetch, k);
    }
  }

  /** A batch tile fetched on either pass has a successful attempt. */
  lemma FetchedIsCovered(batch: seq<Tile>, fetch: (Tile, Pass) -> Option<Summary>, t: Tile)
    requires t in batch && (fetch(t, Slow).Some? || fetch(t, Burst).Some?)
    ensures Succeeded(BatchResults(batch, fetch), KeyOf(t))
  {
    var slow := Attempts(batch, fetch, Slow);
    var missing := Missing(batch, slow);
    var burst := Attempts(missing, fetch, Burst);
    var i :| 0 <= i < |batch| && batch[i] == t;
    if Succeeded(slow, KeyOf(t)) {
      SucceededAppend(slow, burst, KeyOf(t));
    } else {
      assert slow[i].key == KeyOf(t);
      assert t in missing;
      var j :| 0 <= j < |missing| && missing[j] == t;
      assert burst[j] in slow + burst;
    }
  }

  /** A successful attempt of a batch was a fetch of one of its tiles. */
  lemma CoveredWasFetched(batch: seq<Tile>, fetch: (Tile, Pass) -> Option<Summary>, k: TileKey)
    requires Succeeded(BatchResults(batch, fetch), k)
    ensures exists t :: t in batch && KeyOf(t) == k && (fetch(t, Slow).Some? || fetch(t, Burst).Some?)
  {
    var slow := Attempts(batch, fetch, Slow);
    var missing := Missing(batch, slow);
    var burst := Attempts(missing, fetch, Burst);
    var r: Attempt :| r in slow + burst && r.key == k && r.result.Some?;
    if r in slow {
      var j :| 0 <= j < |slow| && slow[j] == r;
      assert batch[j] in batch;
    } else {
      var j :| 0 <= j < |burst| && burst[j] == r;
      assert missing[j] in missing;
    }
  }

  /** Attempts over an honest oracle are honest; their keys are the tiles'
      keys, without repetition when the tiles have none. */
  lemma AttemptsFacts(ts: seq<Tile>, fetch: (Tile, Pass) -> Option<Summary>, p: Pass)
    requires Honest(fetch)
    ensures HonestAttempts(Attempts(ts, fetch, p))
    ensures forall r :: r in Attempts(ts, fetch, p) ==> r.key in KeySet(ts)
    ensures DistinctKeys(ts) ==> DistinctAttemptKeys(Attempts(ts, fetch, p))
  {
    var rs := Attempts(ts, fetch, p);
    forall r | r in rs ensures r.key in KeySet(ts) && (r.result.Some? ==> r.result.value.tile == KeyBounds(r.key)) {
      var j :| 0 <= j < |rs| && rs[j] == r;
      assert ts[j] in ts;
    }
  }

  /** Attempts over tiles with distinct keys carry distinct keys. */
  lemma AttemptKeysDistinct(ts: seq<Tile>, fetch: (Tile, Pass) -> Option<Summary>, p: Pass)
    requires DistinctKeys(ts)
    ensures DistinctAttemptKeys(Attempts(ts, fetch, p))
  {
  }

  /** Two repetition-free attempt lists with no key in common concatenate to
      a repetition-free list. */
  lemma DistinctAttemptKeysAppend(a: seq<Attempt>, b: seq<Attempt>)
    requires DistinctAttemptKeys(a) && DistinctAttemptKeys(b)
    requires forall i, j :: 0 <= i < |a| && 0 <= j < |b| ==> a[i].key != b[j].key
    ensures DistinctAttemptKeys(a + b)
  {
    forall i, j | 0 <= i < j < |a + b| ensures (a + b)[i].key != (a + b)[j].key {
      if j < |a| {
        assert (a + b)[i] == a[i] && (a + b)[j] == a[j];
      } else if i >= |a| {
        assert (a + b)[i] == b[i - |a|] && (a + b)[j] == b[j - |a|];
      } else {
        assert (a + b)[i] == a[i] && (a + b)[j] == b[j - |a|];
      }
    }
  }

  /** A tile retried in the burst has no successful slow attempt, so no key
      succeeds in both passes. */
  lemma SlowAndBurstSuccessesDisjoint(batch: seq<Tile>, fetch: (Tile, Pass) -> Option<Summary>)
    ensures var slow := Attempts(batch, fetch, Slow);
      var vs := ValidAttempts(slow);
      var vb := ValidAttempts(Attempts(Missing(batch, slow), fetch, Burst));
      forall i, j :: 0 <= i < |vs| && 0 <= j < |vb| ==> vs[i].key != vb[j].key
  {
    var slow := Attempts(batch, fetch, Slow);
    var missing := Missing(batch, slow);
    var burst := Attempts(missing, fetch, Burst);
    var vs, vb := ValidAttempts(slow), ValidAttempts(burst);
    forall i, j | 0 <= i < |vs| && 0 <= j < |vb| ensures vs[i].key != vb[j].key {
      assert vs[i] in vs && vb[j] in vb;
      assert Succeeded(slow, vs[i].key);
      var m :| 0 <= m < |burst| && burst[m] == vb[j];
      assert missing[m] in missing;
    }
  }

  /** The successful attempts of a batch never repeat a key. */
  lemma ValidBatchResultsDistinct(batch: seq<Tile>, fetch: (Tile, Pass) -> Option<Summary>)
    requires DistinctKeys(batch)
    ensures DistinctAttemptKeys(ValidAttempts(BatchResults(batch, fetch)))
  {
    var slow := Attempts(batch, fetch, Slow);
    var missing := Missing(batch, slow);
    var burst := Attempts(missing, fetch, Burst);
    AttemptKeysDistinct(batch, fetch, Slow);
    MissingDistinct(batch, slow);
    AttemptKeysDistinct(missing, fetch, Burst);
    ValidAttemptsDistinct(slow);
    ValidAttemptsDistinct(burst);
    SlowAndBurstSuccessesDisjoint(batch, fetch);
    DistinctAttemptKeysAppend(ValidAttempts(slow), ValidAttempts(burst));
    ValidAttemptsAppend(slow, burst);
  }

  /** Published summaries and new keys pair up one to one. */
  lemma PublishedMatchesKeys(rs: seq<Attempt>)
    requires HonestAttempts(rs)
    ensures |Published(rs)| == |NewKeys(rs)|
    ensures forall i :: 0 <= i < |Published(rs)| ==> Published(rs)[i].tile == KeyBounds(NewKeys(rs)[i])
    ensures forall k :: k in Elems(NewKeys(rs)) ==> exists r :: r in rs && r.key == k
    ensures DistinctAttemptKeys(ValidAttempts(rs)) ==> Distinct(NewKeys(rs))
  {
    var v := ValidAttempts(rs);
    forall i | 0 <= i < |Published(rs)| ensures Published(rs)[i].tile == KeyBounds(NewKeys(rs)[i]) {
      assert v[i] in v;
    }
    forall k | k in Elems(NewKeys(rs)) ensures exists r :: r in rs && r.key == k {
      var i :| 0 <= i < |NewKeys(rs)| && NewKeys(rs)[i] == k;
      assert v[i] in v;
    }
  }

  /** What one batch contributes: keys without repetition, each a batch key,
      one summary per key, each summary describing its key's tile. */
  lemma BatchContribution(batch: seq<Tile>, fetch: (Tile, Pass) -> Option<Summary>)
    requires DistinctKeys(batch) && Honest(fetch)
    ensures var rs := BatchResults(batch, fetch);
      && Distinct(NewKeys(rs))
      && |Published(rs)| == |NewKeys(rs)|
      && Elems(NewKeys(rs)) <= KeySet(batch)
      && forall i :: 0 <= i < |Published(rs)| ==> Published(rs)[i].tile == KeyBounds(NewKeys(rs)[i])
  {
    var slow := Attempts(batch, fetch, Slow);
    var missing := Missing(batch, slow);
    var rs := BatchResults(batch, fetch);
    AttemptsFacts(batch, fetch, Slow);
    AttemptsFacts(missing, fetch, Burst);
    assert HonestAttempts(rs);
    ValidBatchResultsDistinct(batch, fetch);
    PublishedMatchesKeys(rs);
    forall k | k in Elems(NewKeys(rs)) ensures k in KeySet(batch) {
      var r :| r in rs && r.key == k;
      if r !in slow {
        assert r.key in KeySet(missing);
        var t :| t in missing && KeyOf(t) == k;
      }
    }
  }

  // -------------------------------------------------------------- consistency

  /** The coverage bookkeeping: `keys` records, for each published summary,
      the tile it came from; no key twice, exactly the covered keys. */
  predicate Consistent(covered: set<TileKey>, data: seq<Summary>, keys: seq<TileKey>) {
    && |data| == |keys|
    && Distinct(keys)
    && Elems(keys) == covered
    && forall i :: 0 <= i < |data| ==> data[i].tile == KeyBounds(keys[i])
  }

  /** Published data and coverage set never diverge in size. */
  lemma ConsistentSizes(covered: set<TileKey>, data: seq<Summary>, keys: seq<TileKey>)
    requires Consistent(covered, data, keys)
    ensures |data| == |covered|
  {
    DistinctCard(keys);
  }

  /** Within a cycle no grid tile has two published summaries. */
  lemma AtMostOneSummaryPerTile(covered: set<TileKey>, data: seq<Summary>, keys: seq<TileKey>)
    requires Consistent(covered, data, keys) && covered <= GridKeys()
    ensures forall i, j :: 0 <= i < j < |data| ==> data[i].tile != data[j].tile
  {
    forall i, j | 0 <= i < j < |data| ensures data[i].tile != data[j].tile {
      assert keys[i] in Elems(keys) && keys[j] in Elems(keys);
      if data[i].tile == data[j].tile {
        GridBoundsInjective(keys[i], keys[j]);
      }
    }
  }

  lemma ElemsAppend<T(!new)>(a: seq<T>, b: seq<T>)
    ensures Elems(a + b) == Elems(a) + Elems(b)
  {
  }

  lemma ConsistentAppend(data: seq<Summary>, keys: seq<TileKey>, pub: seq<Summary>, nk: seq<TileKey>)
    requires |data| == |keys| && |pub| == |nk|
    requires forall i :: 0 <= i < |data| ==> data[i].tile == KeyBounds(keys[i])
    requires forall i :: 0 <= i < |pub| ==> pub[i].tile == KeyBounds(nk[i])
    ensures forall i :: 0 <= i < |data + pub| ==> (data + pub)[i].tile == KeyBounds((keys + nk)[i])
  {
    forall i | 0 <= i < |data + pub| ensures (data + pub)[i].tile == KeyBounds((keys + nk)[i]) {
      if i >= |data| {
        assert (data + pub)[i] == pub[i - |data|] && (keys + nk)[i] == nk[i - |keys|];
      } else {
        assert (data + pub)[i] == data[i] && (keys + nk)[i] == keys[i];
      }
    }
  }

  /** Merging a batch of uncovered tiles keeps the bookkeeping consistent, and
      data and coverage grow by the same amount. */
  lemma MergeKeepsConsistency(covered: set<TileKey>, data: seq<Summary>, keys: seq<TileKey>,
                              batch: seq<Tile>, fetch: (Tile, Pass) -> Option<Summary>)
    requires Consistent(covered, data, keys)
    requires DistinctKeys(batch) && Honest(fetch)
    requires forall t :: t in batch ==> KeyOf(t) !in covered
    ensures var rs := BatchResults(batch, fetch);
      && Consistent(covered + Elems(NewKeys(rs)), data + Published(rs), keys + NewKeys(rs))
      && |covered + Elems(NewKeys(rs))| - |covered| == |Published(rs)|
  {
    var rs := BatchResults(batch, fetch);
    BatchContribution(batch, fetch);
    var nk := NewKeys(rs);
    var pub := Published(rs);
    assert Elems(keys) !! Elems(nk);
    DistinctAppend(keys, nk);
    ElemsAppend(keys, nk);
    ConsistentAppend(data, keys, pub, nk);
    DistinctCard(nk);
    assert |covered + Elems(nk)| == |covered| + |Elems(nk)|;
  }

  // -------------------------------------------------------------- a sweep

  /** A sampler under which every tile succeeds on its slow fetch or on its
      retry. */
  ghost predicate NeverFailsTwice(fetch: (Tile, Pass) -> Option<Summary>) {
    forall t :: fetch(t, Slow).Some? || fetch(t, Burst).Some?
  }

  /** When every tile of a batch succeeds on its slow fetch or on its retry,
      the merge covers the whole batch. */
  lemma RetryRecoversBatch(batch: seq<Tile>, fetch: (Tile, Pass) -> Option<Summary>)
    requires forall t :: t in batch ==> fetch(t, Slow).Some? || fetch(t, Burst).Some?
    ensures Elems(NewKeys(BatchResults(batch, fetch))) == KeySet(batch)
  {
    forall k ensures k in Elems(NewKeys(BatchResults(batch, fetch))) <==> k in KeySet(batch) {
      CoveredIffFetched(batch, fetch, k);
    }
  }

  /** The coverage after k batches starting from an empty coverage set, every
      batch merged. */
  function SweepCoverage(tiles: seq<Tile>, fetch: (Tile, Pass) -> Option<Summary>, k: nat): set<TileKey> {
    if k == 0 then {} else Advance(tiles, fetch, SweepCoverage(tiles, fetch, k - 1))
  }

  /** The coverage after one more batch, merged. */
  function Advance(tiles: seq<Tile>, fetch: (Tile, Pass) -> Option<Summary>, covered: set<TileKey>): set<TileKey> {
    covered + Elems(NewKeys(BatchResults(Batch(tiles, covered), fetch)))
  }

  /** The keys of a concatenation. */
  lemma KeySetAppend(a: seq<Tile>, b: seq<Tile>)
    ensures KeySet(a + b) == KeySet(a) + KeySet(b)
  {
    forall k ensures k in KeySet(a + b) <==> k in KeySet(a) + KeySet(b) {
      if k in KeySet(a + b) {
        var t :| t in a + b && KeyOf(t) == k;
        assert t in a || t in b;
      }
    }
  }

  /** One batch of a sweep: when the first m tiles are covered and no tile
      fails twice, the batch extends the covered prefix by BatchSize tiles. */
  lemma SweepStep(tiles: seq<Tile>, fetch: (Tile, Pass) -> Option<Summary>, m: nat)
    requires DistinctKeys(tiles) && m <= |tiles|
    requires NeverFailsTwice(fetch)
    ensures Advance(tiles, fetch, KeySet(tiles[..m])) == KeySet(tiles[..Min(m + BatchSize, |tiles|)])
  {
    var m' := Min(m + BatchSize, |tiles|);
    AdvanceAfterPrefix(tiles, fetch, m);
    KeySetSplit(tiles, m, m');
  }

  /** With the first m tiles covered and no tile failing twice, the merge
      adds exactly the keys of the next BatchSize tiles. */
  lemma AdvanceAfterPrefix(tiles: seq<Tile>, fetch: (Tile, Pass) -> Option<Summary>, m: nat)
    requires DistinctKeys(tiles) && m <= |tiles|
    requires NeverFailsTwice(fetch)
    ensures Advance(tiles, fetch, KeySet(tiles[..m]))
         == KeySet(tiles[..m]) + KeySet(tiles[m..Min(m + BatchSize, |tiles|)])
  {
    var b := tiles[m..Min(m + BatchSize, |tiles|)];
    BatchAfterPrefix(tiles, m);
    RetryRecoversBatch(b, fetch);
  }

  /** The keys of a prefix split at m. */
  lemma KeySetSplit(tiles: seq<Tile>, m: nat, n: nat)
    requires m <= n <= |tiles|
    ensures KeySet(tiles[..n]) == KeySet(tiles[..m]) + KeySet(tiles[m..n])
  {
    assert tiles[..n] == tiles[..m] + tiles[m..n];
    KeySetAppend(tiles[..m], tiles[m..n]);
  }

  /** Once the first m tiles are covered, the next batch is the following
      BatchSize tiles of the list. */
  lemma BatchAfterPrefix(tiles: seq<Tile>, m: nat)
    requires DistinctKeys(tiles) && m <= |tiles|
    ensures Batch(tiles, KeySet(tiles[..m])) == tiles[m..Min(m + BatchSize, |tiles|)]
  {
    RemainingWithoutPrefix(tiles, m);
  }

  /** With a sampler under which every tile succeeds on one of its two
      attempts, each batch covers the next BatchSize tiles in order: after k
      batches the covered tiles are the first k * BatchSize of the list. */
  lemma {:induction false} SweepProgress(tiles: seq<Tile>, fetch: (Tile, Pass) -> Option<Summary>, k: nat)
    requires DistinctKeys(tiles)
    requires NeverFailsTwice(fetch)
    ensures SweepCoverage(tiles, fetch, k) == KeySet(tiles[..Min(k * BatchSize, |tiles|)])
    decreases k, 1
  {
    if k == 0 {
      assert tiles[..0] == [];
    } else {
      SweepInduction(tiles, fetch, k);
    }
  }

  /** The inductive step of SweepProgress. */
  lemma {:induction false} SweepInduction(tiles: seq<Tile>, fetch: (Tile, Pass) -> Option<Summary>, k: nat)
    requires DistinctKeys(tiles) && k > 0
    requires NeverFailsTwice(fetch)
    ensures SweepCoverage(tiles, fetch, k) == KeySet(tiles[..Min(k * BatchSize, |tiles|)])
    decreases k, 0
  {
    var m := Min((k - 1) * BatchSize, |tiles|);
    var m' := Min(k * BatchSize, |tiles|);
    assert Min(m + BatchSize, |tiles|) == m';
    SweepProgress(tiles, fetch, k - 1);
    SweepStep(tiles, fetch, m);
    SweepLink(tiles, fetch, k, m, m');
  }

  /** Chains the k-th batch onto the coverage after k - 1 batches. */
  lemma SweepLink(tiles: seq<Tile>, fetch: (Tile, Pass) -> Option<Summary>, k: nat, m: nat, m': nat)
    requires k > 0 && m <= |tiles| && m' <= |tiles|
    requires SweepCoverage(tiles, fetch, k - 1) == KeySet(tiles[..m])
    requires Advance(tiles, fetch, KeySet(tiles[..m])) == KeySet(tiles[..m'])
    ensures SweepCoverage(tiles, fetch, k) == KeySet(tiles[..m'])
  {
  }

  /** The same sweep, stated on the remaining tiles. */
  lemma SweepRemaining(tiles: seq<Tile>, fetch: (Tile, Pass) -> Option<Summary>, k: nat)
    requires DistinctKeys(tiles)
    requires NeverFailsTwice(fetch)
    ensures Remaining(tiles, SweepCoverage(tiles, fetch, k)) == tiles[Min(k * BatchSize, |tiles|)..]
  {
    SweepProgress(tiles, fetch, k);
    RemainingWithoutPrefix(tiles, Min(k * BatchSize, |tiles|));
  }
}
