# Windborne wind tiles and balloon trails, modelled in Dafny

This project models the logic at the core of the Windborne map front end. It covers three parts:

- **The wind tile acquisition scheduler** (`useWindData`). A fixed global grid of 10°×10° tiles is fetched in batches of 24 through a sampler.
  - Each batch is a slow pass in sub-batches, then a retry burst for the tiles that did not come back.
  - Successful summaries are published, and their tile keys are added to a coverage set.
  - A batch counter picks a 60 s or a 2 h delay before the next batch.
  - Once every tile is covered, a timer clears coverage, counter and data after two hours and starts over.
- **The balloon history merge** (`useBalloonData`). It builds the 24 snapshot names "00.json" … "23.json". It then merges the fetched hourly snapshots into one hour-ordered track per balloon index, skipping missing snapshots and incomplete entries.
- **The map's selection logic** (`MapView`):
  - the antimeridian normalisation of a trail;
  - the last-valid-sample marker of each balloon;
  - the trail of each balloon with at least two valid samples;
  - the 12-colour palette indexed by enumeration position.

Modules, one file each:

- `wind_grid.dfy` (`WindGrid`): tile centres, bounding boxes and keys; the nested generation loops.
- `wind_sampler.dfy` (`WindSampler`): the per-tile sampler, with its averaging passed in as a function.
- `wind_batch.dfy` (`WindBatch`): the batch step as values.
  - It covers the remaining filter, the batch, the slow pass, the retry targets, the merge contribution and the coverage bookkeeping.
  - It also proves that a whole sweep covers the tiles 24 at a time, under a sampler that never fails a tile twice.
- `wind_scheduler.dfy` (`WindScheduler`): the hook's refs as a class `WindData`.
  - Fields: tile list, coverage set, published data and batch counter.
  - Methods: the batch step with its `finally` rescheduling, and the full refresh.
  - Class invariant: coverage ⊆ tile keys, one summary per covered tile, and a full counter only when everything is covered.
- `balloon_data.dfy` (`BalloonData`): the snapshot names, the fetch loop and the nested merge loop.
  - The merge is proved equal to a functional merge and to an independent hour-by-hour track definition.
- `map_view.dfy` (`MapView`):
  - the normalisation loop, proved equal to a recursive definition;
  - marker and trail selection for one balloon and for a whole history.
- `wrappers.dfy` (`Wrappers`) and `seq_util.dfy` (`SeqUtil`): `Option`, plus `Distinct` and `Elems` on sequences.

The network is modelled as parameters. A wind sampler oracle `fetch: (Tile, Pass) -> Option<Summary>` gives one answer per tile and per attempt (slow or burst). A snapshot fetch `string -> Option<seq<Entry>>` gives one answer per file name. Whether the hook is still mounted is a boolean parameter, read at the two places the code reads it.

## How often the long delay comes

When tiles remain, the `finally` block (src/hooks/useWindData.js:156-162) picks the 2 h delay once the counter has reached 27, and in the same step resets the counter to 0. The long delay is therefore not kept for the rest of a sweep: after n batches that each leave tiles, the counter is n mod 27, so only every 27th delay is the long one. `WindScheduler.CounterCycles` proves this.

## Model

| member | source | states |
|---|---|---|
| WindGrid.MakeTileBounds | src/hooks/useWindData.js:12-19 | the box lies on the globe; each edge is half a tile from the centre unless it was cut at a pole or the antimeridian |
| WindGrid.Grid | src/hooks/useWindData.js:52-60 | the grid has 18 rows of 36 tiles, 648 in all |
| WindGrid.GenerateGlobalTiles | src/hooks/useWindData.js:52-60 | the nested loops produce exactly the row-major grid: latitude rows from the south, longitudes from the antimeridian |
| WindGrid.GridShape | src/hooks/useWindData.js:52-60 | 648 tiles, the first centred at (-85, -175) and the last at (85, 175); every centre lies within those bounds |
| WindGrid.GridBoundsProper | src/hooks/useWindData.js:12-19 | every grid tile gets a full, non-empty 10°×10° box: no clamping ever applies to a grid centre |
| WindGrid.KeyOf | src/hooks/useWindData.js:63-65 | the tile centre can be read back from its key (six decimals lose nothing on whole-degree centres), so two tiles share a key only if they are the same tile |
| WindGrid.GridKeysDistinct | src/hooks/useWindData.js:62-65 | no two grid tiles share a key |
| WindGrid.GridKeysCard | src/hooks/useWindData.js:52-65 | there are exactly as many grid keys as tiles (648) |
| WindGrid.GridBoundsInjective | src/hooks/useWindData.js:12-19 | on grid keys the bounding box determines the tile |
| WindGrid.GridCoversGlobe | src/hooks/useWindData.js:52-60 | the tile boxes partition the globe: every point lies in exactly one box |
| WindSampler.FetchWindPoint | src/hooks/useWindData.js:22-49 | a summary exists iff the response arrived with non-empty speed and direction series; it carries the tile's bounds and the reduced values |
| WindBatch.SamplerIsHonest | src/hooks/useWindData.js:44 | every summary the sampler returns describes the tile it was asked for |
| WindBatch.Remaining | src/hooks/useWindData.js:86-88 | a tile remains iff it is in the list and its key is not covered |
| WindBatch.RemainingCount | src/hooks/useWindData.js:154 | when coverage holds keys of the list, the size-based count of remaining tiles equals the length of the filtered list |
| WindBatch.Batch | src/hooks/useWindData.js:95 | at most 24 tiles |
| WindBatch.BatchFront | src/hooks/useWindData.js:86-95 | the batch is taken from the front of the remaining list; fewer than 24 only when it takes every remaining tile |
| WindBatch.BatchSelection | src/hooks/useWindData.js:86-95 | the batch has min(24, uncovered) tiles, all uncovered, with distinct keys; it is the front of the remaining list in grid order |
| WindBatch.BatchAfterReset | src/hooks/useWindData.js:86-95 | with nothing covered, the batch is the first 24 tiles |
| WindBatch.Attempts | src/hooks/useWindData.js:103-111 | one attempt per tile, in tile order, under that tile's key and holding that tile's fetch result |
| WindBatch.SlowPass | src/hooks/useWindData.js:97-113 | the sub-batch loop records one attempt per batch tile, in batch order, under that tile's key |
| WindBatch.Missing | src/hooks/useWindData.js:116-119 | a batch tile is a retry target iff no slow attempt under its key returned a summary |
| WindBatch.RetryTargetsSlowFailures | src/hooks/useWindData.js:116-123 | the retry burst re-fetches exactly the batch tiles whose own slow fetch failed, in batch order |
| WindBatch.BatchResults | src/hooks/useWindData.js:97-132 | the results start with the slow attempts, one per batch tile in batch order, followed by at most one retry per tile |
| WindBatch.ValidAttempts | src/hooks/useWindData.js:135-137 | an attempt is kept iff it returned a summary; there are no more of them than attempts |
| WindBatch.Published | src/hooks/useWindData.js:135-140 | at most one summary per attempt, and each published summary was returned by one of the attempts |
| WindBatch.NewKeys | src/hooks/useWindData.js:142-144 | one key per published summary, and every key added has an attempt that returned a summary |
| WindBatch.RunBatch | src/hooks/useWindData.js:97-132 | the final results are the slow attempts, then one burst attempt per retry target under that target's key |
| WindBatch.NewKeysSucceeded | src/hooks/useWindData.js:142-144 | the merge adds a key iff one of its attempts returned a summary |
| WindBatch.CoveredIffFetched | src/hooks/useWindData.js:125-145 | a key is covered after the merge iff it is a batch tile's key and that tile's slow fetch or retry succeeded |
| WindBatch.BatchContribution | src/hooks/useWindData.js:134-145 | a batch adds distinct keys, all from the batch, and one summary per key, each describing its key's tile |
| WindBatch.MergeKeepsConsistency | src/hooks/useWindData.js:139-145 | merging uncovered tiles keeps one summary per covered key; data and coverage grow by the same amount |
| WindBatch.ConsistentSizes | src/hooks/useWindData.js:139-145 | published data and coverage set have the same size |
| WindBatch.AtMostOneSummaryPerTile | src/hooks/useWindData.js:139-145 | within a cycle no grid tile has two published summaries |
| WindBatch.RetryRecoversBatch | src/hooks/useWindData.js:115-145 | if every batch tile succeeds on one of its two attempts, the merge covers the whole batch |
| WindBatch.AdvanceAfterPrefix | src/hooks/useWindData.js:86-145 | when the first m tiles are covered and no tile fails twice, the merge adds exactly the keys of the next 24 tiles |
| WindBatch.SweepStep | src/hooks/useWindData.js:86-145 | when the first m tiles are covered and no tile fails twice, one batch covers the next 24 |
| WindBatch.SweepProgress | src/hooks/useWindData.js:80-147 | with a sampler that never fails a tile twice, the first k batches cover exactly the first 24·k tiles |
| WindBatch.SweepRemaining | src/hooks/useWindData.js:86-88 | after k such batches the remaining tiles are the list after its first 24·k |
| WindScheduler.Reschedule | src/hooks/useWindData.js:154-165 | with tiles left, the delay is 60 s iff the counter is below 27 and 2 h otherwise, and the counter becomes 0 iff it reached 27; with none left, a full refresh after 2 h |
| WindScheduler.CounterCycles | src/hooks/useWindData.js:156-162 | after n batches that each leave tiles, the counter is n mod 27; only every 27th delay is the long one |
| WindScheduler.SweepCoverageSize | src/hooks/useWindData.js:154 | after k batches of a sweep, min(24·k, tiles) keys are covered |
| WindScheduler.TilesLeftInSweep | src/hooks/useWindData.js:154 | in a sweep of 648 tiles that never fails twice, 24·(27 − k) tiles are left after batch k |
| WindScheduler.SweepScheduleEarly | src/hooks/useWindData.js:154-165 | in such a sweep, each of batches 1–26 leaves tiles, sets the 60 s delay and keeps the counter |
| WindScheduler.SweepScheduleLast | src/hooks/useWindData.js:154-174 | in such a sweep, the 27th batch covers every tile and sets the full refresh after 2 h |
| WindScheduler.WindData.constructor | src/hooks/useWindData.js:72-74 | the refs start with the generated grid, nothing covered, no data, counter 0 |
| WindScheduler.WindData.DataMatchesCoverage | src/hooks/useWindData.js:139-145 | coverage holds tile keys only; there are as many summaries as covered tiles; on the grid no tile has two summaries |
| WindScheduler.WindData.Merge | src/hooks/useWindData.js:139-145 | the valid summaries are appended to the data, and the keys of all successful attempts are added to the coverage set |
| WindScheduler.WindData.Publish | src/hooks/useWindData.js:135-145 | when mounted, the coverage set gains the keys of the successful attempts and the data gains the valid summaries (nothing changes when none came back); unmounted, nothing changes; the invariant is kept |
| WindScheduler.WindData.RunStep | src/hooks/useWindData.js:85-147 | the batch of the old coverage is run; if mounted, its results are merged, otherwise nothing changes; the counter goes up by one and stays at most 27 |
| WindScheduler.WindData.CounterNotFull | src/hooks/useWindData.js:154-162 | while tiles remain the counter is below 27 |
| WindScheduler.WindData.Finally | src/hooks/useWindData.js:151-165 | the next timer and counter are Reschedule's, from the number of uncovered tiles; coverage and data are kept |
| WindScheduler.WindData.FetchBatch | src/hooks/useWindData.js:80-176 | unmounted: no timer and no change. Mounted: coverage and data grow by the batch's results only if tiles remained and the hook is still mounted at the merge; the counter rises only if tiles remained; the timer and counter are then Reschedule's; the invariant is kept |
| WindScheduler.WindData.FullReset | src/hooks/useWindData.js:168-172 | coverage, counter and data are cleared, and the invariant is kept |
| WindScheduler.WindData.Refresh | src/hooks/useWindData.js:166-175 | after the reset, the next batch is the first 24 tiles; the counter is 1 and the next delay is 60 s |
| MapView.PaletteDistinct | src/components/MapView.jsx:10-14 | the twelve palette colours are pairwise different |
| MapView.ColorFor | src/components/MapView.jsx:47 | every balloon's colour is one of the palette colours |
| MapView.ColorCycle | src/components/MapView.jsx:47 | colours repeat every twelve indices, and twelve consecutive indices get twelve different colours |
| MapView.Shift | src/components/MapView.jsx:25-28 | a point more than 180° east of the previous adjusted one moves one turn west, one more than 180° west moves one turn east, any other point is kept; latitude, altitude and hour never change |
| MapView.ShiftContinuity | src/components/MapView.jsx:25-28 | if the raw jump is at most 540°, the adjusted point is within 180° of the previous one |
| MapView.Normalized | src/components/MapView.jsx:17-34 | same length as the input, and the first point is kept |
| MapView.NormalizeAcrossAntimeridian | src/components/MapView.jsx:17-34 | the copy-and-push loop computes the normalised trail; fewer than two points are returned as they are; the input sequence is a value and is not changed |
| MapView.NormalizedStep | src/components/MapView.jsx:21-31 | each later point is its input point shifted against the previous adjusted point |
| MapView.NormalizedPointwise | src/components/MapView.jsx:22-28 | each adjusted point keeps its input's latitude, altitude and hour, and its longitude moves by 0 or ±360 |
| MapView.NormalizedSmooth | src/components/MapView.jsx:17-34 | a trail with no raw jump over 180° is left unchanged |
| MapView.ValidSamples | src/components/MapView.jsx:44 | a sample is kept iff its latitude is in [-90, 90] and its longitude in [-180, 180] |
| MapView.LastValid | src/components/MapView.jsx:44-46 | the chosen sample is valid, and no valid sample follows it |
| MapView.MarkerFor | src/components/MapView.jsx:42-48 | no marker for an empty list; a marker carries the balloon's id, its index colour and one of its samples, which lies on the globe |
| MapView.MarkerChoice | src/components/MapView.jsx:42-48 | a balloon has a marker iff one of its samples is valid; the marker is the last valid sample, with the balloon's id and index colour |
| MapView.MarkersOfHistory | src/components/MapView.jsx:41-49 | the markers are exactly those of the balloons that have one, each coloured by its enumeration index |
| MapView.TrailFor | src/components/MapView.jsx:54-68 | a trail exists iff at least two samples are valid; it has the balloon's id, its index colour and one coordinate pair per valid sample |
| MapView.TrailShape | src/components/MapView.jsx:54-68 | a trail exists iff there are at least two valid samples; its coordinates are the valid samples as [lon, lat] in order, with latitudes kept and each longitude following the shift rule |
| MapView.TrailEndsAtMarker | src/components/MapView.jsx:41-70 | a balloon with a trail has a marker of the same id and colour, at the trail's last point up to a whole turn of longitude |
| MapView.Markers | src/components/MapView.jsx:41-49 | at most one marker per balloon |
| MapView.MarkersInOrder | src/components/MapView.jsx:41-49 | the markers come in enumeration order: the k-th marker is the marker of the entry at position ix[k], ix is strictly increasing, and no entry that has a marker is left out |
| MapView.Trails | src/components/MapView.jsx:52-70 | at most one trail per balloon |
| MapView.TrailsInOrder | src/components/MapView.jsx:52-70 | the trails come in enumeration order: the k-th trail is the trail of the entry at position ix[k], ix is strictly increasing, and no entry that has a trail is left out |
| MapView.TrailsOfHistory | src/components/MapView.jsx:52-70 | the trails are exactly those of the balloons with two valid samples, each coloured by its enumeration index |
| BalloonData.PadStart | src/hooks/useBalloonData.js:8 | the result has the requested width (or the input's length, if longer); it ends with the input and is padded on the left with the fill character |
| BalloonData.Hours | src/hooks/useBalloonData.js:8 | there are 24 snapshot names, one per hour |
| BalloonData.HourNames | src/hooks/useBalloonData.js:8 | name n is the two digits of n followed by ".json", and reading the digits back gives n |
| BalloonData.HoursDistinct | src/hooks/useBalloonData.js:8 | there are 24 snapshot names, all different |
| BalloonData.Fetched | src/hooks/useBalloonData.js:34-38 | 24 snapshots; snapshot n is the answer fetched for the name of hour n |
| BalloonData.FetchEach | src/hooks/useBalloonData.js:35-38 | the loop fetches one snapshot per name and pushes them in the order of the names |
| BalloonData.FetchAll | src/hooks/useBalloonData.js:34-38 | one snapshot per hour name, fetched and pushed in hour order |
| BalloonData.Push | src/hooks/useBalloonData.js:47-49 | only the chosen balloon's list changes, by one sample at its end; a new key (list created on first use) is appended to the key order, and an existing key keeps its place |
| BalloonData.MergeSnapshots | src/hooks/useBalloonData.js:41-52 | the nested merge loop computes the functional merge |
| BalloonData.AddEntriesTrack | src/hooks/useBalloonData.js:45-50 | the entry loop of one snapshot (AddEntry, AddEntries) appends entry idx's sample to balloon idx if that entry is complete, and nothing to any other balloon |
| BalloonData.MergedUpToTrack | src/hooks/useBalloonData.js:41-52 | after the first n snapshots (MergedUpTo, AddSnapshot), each balloon's list is its reference track: one sample per non-missing snapshot with a complete entry at its index, in hour order |
| BalloonData.Merged | src/hooks/useBalloonData.js:41-52 | every key is listed once and every list is non-empty; the keys are in the order of their first push (earlier first sample, then lower index) |
| BalloonData.AddEntryOrdered | src/hooks/useBalloonData.js:45-50 | pushing entry m of a snapshot keeps the keys in first-push order, and every key was then first pushed before entry m + 1 of that snapshot |
| BalloonData.AddEntriesOrdered | src/hooks/useBalloonData.js:45-50 | the entries of one snapshot, pushed in index order, keep the keys in first-push order |
| BalloonData.AddSnapshotOrdered | src/hooks/useBalloonData.js:42-52 | a whole snapshot, pushed after the earlier ones, keeps the keys in first-push order, all first pushed before the next snapshot |
| BalloonData.MergedUpToOrdered | src/hooks/useBalloonData.js:41-52 | after the first n snapshots the keys are in first-push order, every first sample coming from one of them |
| BalloonData.TrackFirst | src/hooks/useBalloonData.js:42-50 | a track's first sample comes from the first snapshot with a complete entry at the balloon's index |
| BalloonData.MergedOrder | src/hooks/useBalloonData.js:41-52 | key a is listed before key b iff a's first complete entry is in an earlier snapshot than b's, or in the same snapshot at a lower index; this is the order in which the map enumerates the balloons |
| BalloonData.MergedTracks | src/hooks/useBalloonData.js:41-52 | a balloon has a list iff its reference track is non-empty, and then the list is that track |
| BalloonData.TrackNonEmpty | src/hooks/useBalloonData.js:43-48 | a reference track is non-empty iff some non-missing snapshot has a complete entry at that index |
| BalloonData.MergedKeys | src/hooks/useBalloonData.js:46-48 | balloon idx is in the result iff some non-missing snapshot has a complete entry at idx |
| BalloonData.TrackBound | src/hooks/useBalloonData.js:42-50 | a track has strictly increasing hours, each below the number of snapshots and each sample taken from that hour's entry; so it has at most one sample per hour |
| BalloonData.MergedTrackCount | src/hooks/useBalloonData.js:42-50 | every merged list has between one sample and one per snapshot |
| BalloonData.Reload | src/hooks/useBalloonData.js:27-56 | the 24 snapshots are fetched in hour order and merged; every balloon has between 1 and 24 samples |

## Left out

- Network I/O is not modelled: `fetch`, `res.json`, `robustFetchJSON` and the request URLs. Their outcomes are oracle parameters that return `None` on failure.
- WindSampler.FetchWindPoint does not model the mean wind speed or the circular mean of directions. Both are floating-point averaging and trigonometry, and are passed in as a `reduce` function. Only the rule that empty series give no summary is modelled.
- Concurrency and timers are not modelled: the `pLimit(10)` gate, `Promise.all`, the 5 s pause between sub-batches and `setTimeout`. A delay is modelled only as the value that `Finally` returns, and a timer firing is modelled as a call to `FetchBatch` or `Refresh`.
- Tile keys formatted with `toFixed(6)` are modelled as the (lat, lon) pair. Grid centres are integers, so the formatting is injective on them.
- React state is not modelled: `useState`, `useEffect` and `useRef` become fields and method calls, and the `loading` and `error` flags are not modelled.
- WindScheduler.WindData.FetchBatch does not model the `catch` path, which sets `error` when an exception escapes the batch. In that case the counter is not incremented. The sampler catches its own errors, so every modelled failure is a `None` result.
- BalloonData.Reload does not model the `ts` timestamp. It depends on the wall clock.
- BalloonData.Reload does not model the failure of a whole reload. A snapshot can parse to a truthy value that is not an array (an object, a number, a non-empty string), or an array can hold an entry that cannot be destructured (`null`, a number, a plain object). Then `forEach` or the destructuring of `[lat, lon, alt]` throws (src/hooks/useBalloonData.js:42-45). The `catch` (lines 57-59) sets the error, and `setData(merged)` at line 56 is skipped. So the whole reload is lost and the previously published data stays. In the model a snapshot is either `None` or a list of entries, so every modelled reload reaches `setData`.
- Balloon coordinates are JavaScript doubles; the model uses reals. So `lon ± 360` in `MapView.Shift` (src/components/MapView.jsx:25-28) and the range comparisons of `MapView.InRange` (lines 44 and 55) are exact in the model, where the source rounds.
- Balloon ids are modelled as the index `idx`, not the string `balloon_` + idx. The mapping between the two is one to one.
- MapView.ShiftContinuity has a hypothesis: the raw jump is at most 540°. Beyond that, a single shift of one turn does not bring the point within 180° of its predecessor. The code shifts only once, so continuity is claimed only under that hypothesis.
- Not modelled: the Express proxies, NodeCache, `App.jsx`, Mapbox rendering, popups, the fit-bounds effect and the markers' GeoJSON wrapping.
