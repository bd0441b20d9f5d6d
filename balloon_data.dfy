/** The balloon history hook: the 24 hourly snapshot names, and the merge of
    the fetched snapshots into one hour-ordered track per balloon index. */
module BalloonData {
  import opened Wrappers
  import opened SeqUtil

  // ------------------------------------------------------------ hour names

  /** Snapshots kept by the feed: one per hour of the last day. */
  const HourCount: nat := 24

  /** The decimal digit character for d. */
  function DigitChar(d: nat): char
    requires d < 10
  {
    "0123456789"[d]
  }

  /** The decimal numeral of n, without leading zeros. */
  function Decimal(n: nat): (s: string)
    ensures |s| >= 1
    decreases n
  {
    if n < 10 then [DigitChar(n)] else Decimal(n / 10) + [DigitChar(n % 10)]
  }

  /** s padded on the left with c up to width characters. */
  function PadStart(s: string, width: nat, c: char): (r: string)
    ensures |r| == if |s| >= width then |s| else width
    ensures r[|r| - |s|..] == s
    ensures forall i :: 0 <= i < |r| - |s| ==> r[i] == c
  {
    if |s| >= width then s else seq(width - |s|, _ => c) + s
  }

  /** The snapshot file names, one per hour: the hour zero-padded to two
      digits, then ".json". */
  function Hours(): (names: seq<string>)
    ensures |names| == HourCount
  {
    seq(HourCount, n requires 0 <= n < HourCount => PadStart(Decimal(n), 2, '0') + ".json")
  }

  /** The value of a decimal digit character. */
  function DigitValue(c: char): int {
    c as int - '0' as int
  }

  /** The hour a two-digit snapshot name stands for. */
  function HourOf(name: string): int
    requires |name| >= 2
  {
    10 * DigitValue(name[0]) + DigitValue(name[1])
  }

  /** Each name is two digits and ".json", and reading the digits back
      gives the hour: "00.json" through "23.json", in order. */
  lemma HourNames(n: nat)
    requires n < HourCount
    ensures Hours()[n] == [DigitChar(n / 10), DigitChar(n % 10)] + ".json"
    ensures HourOf(Hours()[n]) == n
  {
    var s := Decimal(n);
    if n < 10 {
      assert s == [DigitChar(n)];
      assert PadStart(s, 2, '0') == ['0', DigitChar(n)];
    } else {
      assert Decimal(n / 10) == [DigitChar(n / 10)];
      assert s == [DigitChar(n / 10), DigitChar(n % 10)];
    }
  }

  /** There are 24 names and no two are alike. */
  lemma HoursDistinct()
    ensures |Hours()| == HourCount
    ensures Distinct(Hours())
  {
    forall i, j | 0 <= i < j < HourCount ensures Hours()[i] != Hours()[j] {
      HourNames(i);
      HourNames(j);
    }
  }

  // ---------------------------------------------------------------- merge

  /** One snapshot entry, [lat, lon, alt]; a field may be missing (null). */
  datatype Entry = Entry(lat: Option<real>, lon: Option<real>, alt: Option<real>)

  /** A fetched snapshot: None when the fetch or the parse failed. */
  type Snapshot = Option<seq<Entry>>

  /** One sample of a balloon's track. The wall-clock timestamp is left out. */
  datatype Sample = Sample(lat: real, lon: real, alt: real, hour: nat)

  /** The merged dictionary: balloon indices in insertion order (the order
      the dictionary enumerates its keys) and the track of each. The id of
      index i is the string "balloon_" followed by i. */
  datatype History = History(order: seq<nat>, tracks: map<nat, seq<Sample>>)

  /** No field of the entry is null. */
  predicate Complete(e: Entry) {
    e.lat.Some? && e.lon.Some? && e.alt.Some?
  }

  /** The sample a complete entry of a given hour becomes. */
  function SampleOf(e: Entry, hour: nat): Sample
    requires Complete(e)
  {
    Sample(e.lat.value, e.lon.value, e.alt.value, hour)
  }

  /** The empty dictionary. */
  const Empty := History([], map[])

  /** The samples recorded for index id, none if it has no entry. */
  function TrackIn(h: History, id: nat): seq<Sample> {
    if id in h.tracks then h.tracks[id] else []
  }

  /** Append a sample to index id's list, creating the list (and so the
      dictionary key) on first use. */
  function Push(h: History, id: nat, s: Sample): (r: History)
    ensures forall j: nat :: TrackIn(r, j) == TrackIn(h, j) + (if j == id then [s] else [])
    ensures r.order == if id in h.tracks then h.order else h.order + [id]
  {
    if id in h.tracks then History(h.order, h.tracks[id := h.tracks[id] + [s]])
    else History(h.order + [id], h.tracks[id := [s]])
  }

  /** The entry at position idx of the snapshot for `hour`: skipped when
      incomplete, pushed to its balloon otherwise. */
  function AddEntry(h: History, e: Entry, idx: nat, hour: nat): (r: History)
  {
    if Complete(e) then Push(h, idx, SampleOf(e, hour)) else h
  }

  /** The first m entries of a snapshot, added in index order. */
  function AddEntries(h: History, entries: seq<Entry>, hour: nat, m: nat): (r: History)
    requires m <= |entries|
  {
    if m == 0 then h else AddEntry(AddEntries(h, entries, hour, m - 1), entries[m - 1], m - 1, hour)
  }

  /** A snapshot: nothing when it is missing, all its entries otherwise. */
  function AddSnapshot(h: History, snap: Snapshot, hour: nat): (r: History)
  {
    if snap.None? then h else AddEntries(h, snap.value, hour, |snap.value|)
  }

  /** The dictionary after the first n snapshots, snapshot i being hour i. */
  function MergedUpTo(snaps: seq<Snapshot>, n: nat): (r: History)
    requires n <= |snaps|
  {
    if n == 0 then Empty else AddSnapshot(MergedUpTo(snaps, n - 1), snaps[n - 1], n - 1)
  }

  /** The merge of all snapshots: every key listed once, in the order its
      first sample was pushed, and every list non-empty. */
  function Merged(snaps: seq<Snapshot>): (r: History)
    ensures WellFormed(r) && InsertionOrdered(r)
  {
    MergedUpToWellFormed(snaps, |snaps|);
    MergedUpToOrdered(snaps, |snaps|);
    MergedUpTo(snaps, |snaps|)
  }

  /** The merge loop: for every snapshot in hour order, skip it when
      missing, else for every entry in index order push its sample to its
      balloon's list unless a field is null. */
  method MergeSnapshots(snapshots: seq<Snapshot>) returns (merged: History)
    ensures merged == Merged(snapshots)
  {
    merged := Empty;
    var hour := 0;
    while hour < |snapshots|
      invariant 0 <= hour <= |snapshots|
      invariant merged == MergedUpTo(snapshots, hour)
    {
      var snapshot := snapshots[hour];
      if snapshot.Some? {
        var entries := snapshot.value;
        var idx := 0;
        while idx < |entries|
          invariant 0 <= idx <= |entries|
          invariant merged == AddEntries(MergedUpTo(snapshots, hour), entries, hour, idx)
        {
          var e := entries[idx];
          if e.lat.Some? && e.lon.Some? && e.alt.Some? {
            var sample := Sample(e.lat.value, e.lon.value, e.alt.value, hour);
            if idx in merged.tracks {
              merged := History(merged.order, merged.tracks[idx := merged.tracks[idx] + [sample]]);
            } else {
              merged := History(merged.order + [idx], merged.tracks[idx := [sample]]);
            }
          }
          idx := idx + 1;
        }
      }
      hour := hour + 1;
    }
  }

  /** The reload: fetch the 24 hourly snapshots in order (the fetch is a
      parameter returning None on failure), then merge them. Every balloon
      ends up with between one and 24 samples. */
  method Reload(fetchSnapshot: string -> Snapshot) returns (merged: History)
    ensures merged == Merged(Fetched(fetchSnapshot))
    ensures forall id :: id in merged.tracks ==> 1 <= |merged.tracks[id]| <= HourCount
  {
    var snapshots := FetchAll(fetchSnapshot);
    merged := MergeSnapshots(snapshots);
    MergedTrackCount(snapshots);
  }

  /** The snapshots the reload fetches: one per hour name, in order. */
  function Fetched(fetchSnapshot: string -> Snapshot): (snaps: seq<Snapshot>)
    ensures |snaps| == HourCount
    ensures forall n :: 0 <= n < HourCount ==> snaps[n] == fetchSnapshot(Hours()[n])
  {
    FetchedFrom(Hours(), fetchSnapshot)
  }

  /** One fetched snapshot per name, in the order of the names. */
  function FetchedFrom(names: seq<string>, fetchSnapshot: string -> Snapshot): (snaps: seq<Snapshot>)
    ensures |snaps| == |names|
    ensures forall n :: 0 <= n < |names| ==> snaps[n] == fetchSnapshot(names[n])
  {
    seq(|names|, n requires 0 <= n < |names| => fetchSnapshot(names[n]))
  }

  /** The fetch loop: one snapshot per hour name, pushed in order. */
  method FetchAll(fetchSnapshot: string -> Snapshot) returns (snapshots: seq<Snapshot>)
    ensures snapshots == Fetched(fetchSnapshot)
  {
    snapshots := FetchEach(Hours(), fetchSnapshot);
  }

  method FetchEach(names: seq<string>, fetchSnapshot: string -> Snapshot) returns (snapshots: seq<Snapshot>)
    ensures snapshots == FetchedFrom(names, fetchSnapshot)
  {
    snapshots := [];
    var i := 0;
    while i < |names|
      invariant 0 <= i <= |names| && |snapshots| == i
      invariant forall n :: 0 <= n < i ==> snapshots[n] == fetchSnapshot(names[n])
    {
      snapshots := snapshots + [fetchSnapshot(names[i])];
      i := i + 1;
    }
  }

  /** Every balloon of a merge has between one sample and one per snapshot. */
  lemma MergedTrackCount(snaps: seq<Snapshot>)
    ensures forall id :: id in Merged(snaps).tracks ==> 1 <= |Merged(snaps).tracks[id]| <= |snaps|
  {
    forall id | id in Merged(snaps).tracks ensures |Merged(snaps).tracks[id]| <= |snaps| {
      MergedTracks(snaps, id);
      TrackBound(snaps, id, |snaps|);
    }
  }

  // ---------------------------------------------- reference track definition

  /** The snapshot for `hour` has a complete entry at position id. */
  predicate Contributes(snap: Snapshot, id: nat) {
    snap.Some? && id < |snap.value| && Complete(snap.value[id])
  }

  /** Balloon id's track, defined hour by hour: over the first n snapshots,
      one sample for every snapshot with a complete entry at position id. */
  function Track(snaps: seq<Snapshot>, id: nat, n: nat): seq<Sample>
    requires n <= |snaps|
  {
    if n == 0 then []
    else Track(snaps, id, n - 1)
         + (if Contributes(snaps[n - 1], id) then [SampleOf(snaps[n - 1].value[id], n - 1)] else [])
  }

  /** Adding the first m entries of a snapshot appends to each index's track
      the entry's sample when that entry is among them and complete. */
  lemma {:induction false} AddEntriesTrack(h: History, entries: seq<Entry>, hour: nat, m: nat, j: nat)
    requires m <= |entries|
    ensures TrackIn(AddEntries(h, entries, hour, m), j)
         == TrackIn(h, j) + (if j < m && Complete(entries[j]) then [SampleOf(entries[j], hour)] else [])
  {
    if m > 0 {
      AddEntriesTrack(h, entries, hour, m - 1, j);
    }
  }

  /** The merge of the first n snapshots builds each index's reference track. */
  lemma {:induction false} MergedUpToTrack(snaps: seq<Snapshot>, n: nat, id: nat)
    requires n <= |snaps|
    ensures TrackIn(MergedUpTo(snaps, n), id) == Track(snaps, id, n)
  {
    if n > 0 {
      MergedUpToTrack(snaps, n - 1, id);
      var snap := snaps[n - 1];
      if snap.Some? {
        AddEntriesTrack(MergedUpTo(snaps, n - 1), snap.value, n - 1, |snap.value|, id);
      }
    }
  }

  /** The dictionary's keys are listed once each in insertion order, and
      every list holds at least one sample. */
  ghost predicate WellFormed(h: History) {
    && Distinct(h.order)
    && (forall id :: id in h.tracks <==> id in h.order)
    && (forall id :: id in h.tracks ==> h.tracks[id] != [])
  }

  lemma PushWellFormed(h: History, id: nat, s: Sample)
    requires WellFormed(h)
    ensures WellFormed(Push(h, id, s))
  {
    if id !in h.tracks {
      var o := h.order + [id];
      forall i, j | 0 <= i < j < |o| ensures o[i] != o[j] {
        if j == |o| - 1 {
          assert o[i] == h.order[i];
          assert o[i] in h.order;
        } else {
          assert o[i] == h.order[i] && o[j] == h.order[j];
        }
      }
    }
  }

  lemma {:induction false} AddEntriesWellFormed(h: History, entries: seq<Entry>, hour: nat, m: nat)
    requires m <= |entries| && WellFormed(h)
    ensures WellFormed(AddEntries(h, entries, hour, m))
  {
    if m > 0 {
      AddEntriesWellFormed(h, entries, hour, m - 1);
      AddEntryWellFormed(AddEntries(h, entries, hour, m - 1), entries[m - 1], m - 1, hour);
    } else {
      assert AddEntries(h, entries, hour, m) == h;
    }
  }

  lemma AddEntryWellFormed(h: History, e: Entry, idx: nat, hour: nat)
    requires WellFormed(h)
    ensures WellFormed(AddEntry(h, e, idx, hour))
  {
    if Complete(e) {
      PushWellFormed(h, idx, SampleOf(e, hour));
    }
  }

  // ------------------------------------------------------- insertion order

  /** The hour of an index's first sample (0 when it has none). */
  function FirstHour(h: History, id: nat): nat {
    var t := TrackIn(h, id);
    if t == [] then 0 else t[0].hour
  }

  /** Index a was first pushed before index b: an earlier first hour, or the
      same first hour and a lower position in that snapshot. */
  predicate Earlier(h: History, a: nat, b: nat) {
    FirstHour(h, a) < FirstHour(h, b) || (FirstHour(h, a) == FirstHour(h, b) && a < b)
  }

  /** The dictionary lists its keys in the order they were first pushed. */
  predicate InsertionOrdered(h: History) {
    forall i, j :: 0 <= i < j < |h.order| ==> Earlier(h, h.order[i], h.order[j])
  }

  /** Every key was first pushed before position m of the snapshot for `hour`. */
  predicate FirstPushedBefore(h: History, hour: nat, m: nat) {
    forall id :: id in h.tracks ==> FirstHour(h, id) < hour || (FirstHour(h, id) == hour && id < m)
  }

  /** Pushing keeps every key's first sample, and a new key's first sample is
      the pushed one. */
  lemma PushFirstHour(h: History, id: nat, s: Sample)
    requires WellFormed(h)
    ensures forall j :: j != id || id in h.tracks ==> FirstHour(Push(h, id, s), j) == FirstHour(h, j)
    ensures id !in h.tracks ==> FirstHour(Push(h, id, s), id) == s.hour
  {
    forall j | j != id || id in h.tracks ensures FirstHour(Push(h, id, s), j) == FirstHour(h, j) {
      if j == id {
        assert TrackIn(h, j) != [];
        assert TrackIn(Push(h, id, s), j)[0] == TrackIn(h, j)[0];
      }
    }
  }

  /** Pushing a sample for a key not yet listed keeps the keys in first-push
      order when every listed key was first pushed earlier. */
  lemma PushNewOrdered(h: History, id: nat, s: Sample)
    requires WellFormed(h) && InsertionOrdered(h) && FirstPushedBefore(h, s.hour, id) && id !in h.tracks
    ensures InsertionOrdered(Push(h, id, s))
  {
    var r := Push(h, id, s);
    PushFirstHour(h, id, s);
    forall i, j | 0 <= i < j < |r.order| ensures Earlier(r, r.order[i], r.order[j]) {
      if j == |r.order| - 1 {
        assert r.order[i] == h.order[i] && h.order[i] in h.tracks;
      } else {
        assert r.order[i] == h.order[i] && r.order[j] == h.order[j];
      }
    }
  }

  /** Pushing the sample of entry id of the snapshot for its hour keeps the
      keys in first-push order, all first pushed before entry id + 1. */
  lemma PushOrdered(h: History, id: nat, s: Sample)
    requires WellFormed(h) && InsertionOrdered(h) && FirstPushedBefore(h, s.hour, id)
    ensures InsertionOrdered(Push(h, id, s)) && FirstPushedBefore(Push(h, id, s), s.hour, id + 1)
  {
    PushFirstHour(h, id, s);
    if id !in h.tracks {
      PushNewOrdered(h, id, s);
    }
  }

  /** One pushed entry at position m of the snapshot for `hour` keeps the
      keys in first-push order. */
  lemma AddEntryOrdered(h: History, e: Entry, m: nat, hour: nat)
    requires WellFormed(h) && InsertionOrdered(h) && FirstPushedBefore(h, hour, m)
    ensures InsertionOrdered(AddEntry(h, e, m, hour)) && FirstPushedBefore(AddEntry(h, e, m, hour), hour, m + 1)
  {
    if Complete(e) {
      PushOrdered(h, m, SampleOf(e, hour));
    }
  }

  /** The entries of the snapshot for `hour`, pushed in position order, keep
      the keys in first-push order. */
  lemma {:induction false} AddEntriesOrdered(h: History, entries: seq<Entry>, hour: nat, m: nat)
    requires m <= |entries| && WellFormed(h) && InsertionOrdered(h) && FirstPushedBefore(h, hour, 0)
    ensures InsertionOrdered(AddEntries(h, entries, hour, m))
    ensures FirstPushedBefore(AddEntries(h, entries, hour, m), hour, m)
  {
    if m > 0 {
      AddEntriesOrdered(h, entries, hour, m - 1);
      AddEntriesWellFormed(h, entries, hour, m - 1);
      AddEntryOrdered(AddEntries(h, entries, hour, m - 1), entries[m - 1], m - 1, hour);
    } else {
      assert AddEntries(h, entries, hour, m) == h;
    }
  }

  /** Every key first pushed before the end of the snapshot for `hour` was
      first pushed before the next snapshot. */
  lemma FirstPushedNext(h: History, hour: nat, m: nat)
    requires FirstPushedBefore(h, hour, m)
    ensures FirstPushedBefore(h, hour + 1, 0)
  {
  }

  /** A whole snapshot, pushed after the earlier ones, keeps the keys in
      first-push order. */
  lemma AddSnapshotOrdered(h: History, snap: Snapshot, hour: nat)
    requires WellFormed(h) && InsertionOrdered(h) && FirstPushedBefore(h, hour, 0)
    ensures InsertionOrdered(AddSnapshot(h, snap, hour)) && FirstPushedBefore(AddSnapshot(h, snap, hour), hour + 1, 0)
  {
    if snap.Some? {
      AddEntriesOrdered(h, snap.value, hour, |snap.value|);
      FirstPushedNext(AddEntries(h, snap.value, hour, |snap.value|), hour, |snap.value|);
    } else {
      FirstPushedNext(h, hour, 0);
    }
  }

  /** The merge lists its keys in first-push order, every first sample
      coming from one of the first n snapshots. */
  lemma {:induction false} MergedUpToOrdered(snaps: seq<Snapshot>, n: nat)
    requires n <= |snaps|
    ensures InsertionOrdered(MergedUpTo(snaps, n)) && FirstPushedBefore(MergedUpTo(snaps, n), n, 0)
  {
    if n > 0 {
      MergedUpToOrdered(snaps, n - 1);
      MergedUpToWellFormed(snaps, n - 1);
      AddSnapshotOrdered(MergedUpTo(snaps, n - 1), snaps[n - 1], n - 1);
    }
  }

  /** A track's first sample is from the first snapshot contributing to it. */
  lemma {:induction false} TrackFirst(snaps: seq<Snapshot>, id: nat, n: nat)
    requires n <= |snaps| && Track(snaps, id, n) != []
    ensures var hr := Track(snaps, id, n)[0].hour;
      hr < n && Contributes(snaps[hr], id) && forall k :: 0 <= k < hr ==> !Contributes(snaps[k], id)
  {
    if Track(snaps, id, n - 1) != [] {
      TrackFirst(snaps, id, n - 1);
    } else {
      TrackNonEmpty(snaps, id, n - 1);
    }
  }

  /** The merge's keys come in the order of (first contributing hour, index):
      a key is listed before another exactly when its first complete entry
      is in an earlier snapshot, or in the same snapshot at a lower position.
      This order is the order in which the map enumerates the balloons. */
  lemma MergedOrder(snaps: seq<Snapshot>)
    ensures var h := Merged(snaps);
      && (forall id :: id in h.tracks ==>
            var hr := FirstHour(h, id);
            hr < |snaps| && Contributes(snaps[hr], id) && forall k :: 0 <= k < hr ==> !Contributes(snaps[k], id))
      && (forall i, j :: 0 <= i < |h.order| && 0 <= j < |h.order| ==>
            (i < j <==> Earlier(h, h.order[i], h.order[j])))
  {
    var h := Merged(snaps);
    forall id | id in h.tracks
      ensures var hr := FirstHour(h, id);
        hr < |snaps| && Contributes(snaps[hr], id) && forall k :: 0 <= k < hr ==> !Contributes(snaps[k], id)
    {
      MergedUpToTrack(snaps, |snaps|, id);
      TrackFirst(snaps, id, |snaps|);
    }
    forall i, j | 0 <= i < |h.order| && 0 <= j < |h.order| && Earlier(h, h.order[i], h.order[j])
      ensures i < j
    {
    }
  }

  /** The merge's dictionary is well formed. */
  lemma {:induction false} MergedUpToWellFormed(snaps: seq<Snapshot>, n: nat)
    requires n <= |snaps|
    ensures WellFormed(MergedUpTo(snaps, n))
  {
    if n > 0 {
      MergedUpToWellFormed(snaps, n - 1);
      if snaps[n - 1].Some? {
        AddEntriesWellFormed(MergedUpTo(snaps, n - 1), snaps[n - 1].value, n - 1, |snaps[n - 1].value|);
      }
    }
  }

  /** The track of each balloon in the merge is its reference track, and a
      balloon has a list exactly when that track is not empty. */
  lemma MergedTracks(snaps: seq<Snapshot>, id: nat)
    ensures id in Merged(snaps).tracks <==> Track(snaps, id, |snaps|) != []
    ensures id in Merged(snaps).tracks ==> Merged(snaps).tracks[id] == Track(snaps, id, |snaps|)
  {
    MergedUpToTrack(snaps, |snaps|, id);
  }

  /** The reference track is not empty exactly when some non-missing
      snapshot has a complete entry at position id. */
  lemma {:induction false} TrackNonEmpty(snaps: seq<Snapshot>, id: nat, n: nat)
    requires n <= |snaps|
    ensures Track(snaps, id, n) != [] <==> exists h :: 0 <= h < n && Contributes(snaps[h], id)
  {
    if n > 0 {
      TrackNonEmpty(snaps, id, n - 1);
      if Contributes(snaps[n - 1], id) {
        assert Track(snaps, id, n)[|Track(snaps, id, n)| - 1] == SampleOf(snaps[n - 1].value[id], n - 1);
      } else {
        assert Track(snaps, id, n) == Track(snaps, id, n - 1);
      }
    }
  }

  /** A balloon index is a key of the merge exactly when some non-missing
      snapshot has a complete entry at that index. */
  lemma MergedKeys(snaps: seq<Snapshot>, id: nat)
    ensures id in Merged(snaps).tracks <==> exists h :: 0 <= h < |snaps| && Contributes(snaps[h], id)
  {
    MergedTracks(snaps, id);
    TrackNonEmpty(snaps, id, |snaps|);
  }

  /** The reference track's samples are in strictly increasing hour order,
      each hour below n and each sample taken from that hour's entry id; so
      there are at most n of them. */
  lemma {:induction false} TrackBound(snaps: seq<Snapshot>, id: nat, n: nat)
    requires n <= |snaps|
    ensures var t := Track(snaps, id, n);
      && |t| <= n
      && (forall i :: 0 <= i < |t| ==>
            (t[i].hour < n && Contributes(snaps[t[i].hour], id)
             && t[i] == SampleOf(snaps[t[i].hour].value[id], t[i].hour)))
      && (forall i, j :: 0 <= i < j < |t| ==> t[i].hour < t[j].hour)
  {
    if n > 0 {
      TrackBound(snaps, id, n - 1);
    }
  }
}
