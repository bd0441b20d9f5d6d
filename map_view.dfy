/** The map view's data pipelines: antimeridian normalisation of a trail,
    and the marker and trail chosen for each balloon of a merged history. */
module MapView {
  import opened Wrappers
  import opened SeqUtil
  import opened BalloonData

  /** The balloon colour palette, assigned by enumeration index. */
  const Colors: seq<string> := [
    "#e63946", "#457b9d", "#2a9d8f", "#f4a261",
    "#8d99ae", "#ffb703", "#219ebc", "#d62828",
    "#7209b7", "#06ffa5", "#ff006e", "#8338ec"
  ]

  /** The colour of the balloon enumerated at position idx. */
  function ColorFor(idx: nat): (c: string)
    ensures c in Colors
  {
    Colors[idx % |Colors|]
  }

  /** Colours repeat every twelve balloons, and twelve balloons in a row
      all get different colours. */
  lemma ColorCycle(i: nat, j: nat)
    ensures ColorFor(i + |Colors|) == ColorFor(i)
    ensures i < j < i + |Colors| ==> ColorFor(i) != ColorFor(j)
  {
    ModWindow(i, j);
    if i < j < i + |Colors| {
      PaletteDistinct();
    }
  }

  /** Remainders modulo twelve repeat after twelve and differ within a
      window of twelve. */
  lemma ModWindow(i: nat, j: nat)
    ensures (i + 12) % 12 == i % 12
    ensures i < j < i + 12 ==> i % 12 != j % 12
  {
  }

  /** No colour occurs twice in the palette. */
  lemma PaletteDistinct()
    ensures Distinct(Colors)
  {
    forall a, b | 0 <= a < b < |Colors| ensures Colors[a] != Colors[b] {
      assert Colors[a][1..3] != Colors[b][1..3] || Colors[a][3..] != Colors[b][3..];
    }
  }

  // ------------------------------------------------------------ antimeridian

  /** One step of the normalisation: a point whose longitude jumps more than
      180 degrees from the previous adjusted longitude is moved by one turn
      towards it; everything else about the point is kept. */
  function Shift(prevLon: real, p: Sample): (q: Sample)
    ensures q.lat == p.lat && q.alt == p.alt && q.hour == p.hour
    ensures p.lon - prevLon > 180.0 ==> q.lon == p.lon - 360.0
    ensures p.lon - prevLon < -180.0 ==> q.lon == p.lon + 360.0
    ensures -180.0 <= p.lon - prevLon <= 180.0 ==> q == p
  {
    var delta := p.lon - prevLon;
    if delta > 180.0 then p.(lon := p.lon - 360.0)
    else if delta < -180.0 then p.(lon := p.lon + 360.0)
    else p
  }

  /** A step leaves the point within half a turn of the previous longitude
      whenever the raw jump is at most one and a half turns. */
  lemma ShiftContinuity(prevLon: real, p: Sample)
    requires -540.0 <= p.lon - prevLon <= 540.0
    ensures -180.0 <= Shift(prevLon, p).lon - prevLon <= 180.0
  {
  }

  /** The normalised trail: the first point kept, every later point shifted
      against the previous adjusted one. Fewer than two points are returned
      as they are. */
  function Normalized(points: seq<Sample>): (r: seq<Sample>)
    ensures |r| == |points|
    ensures points != [] ==> r[0] == points[0]
  {
    if |points| < 2 then points
    else
      var a := Normalized(points[..|points| - 1]);
      a + [Shift(a[|a| - 1].lon, points[|points| - 1])]
  }

  /** Normalising a prefix gives the prefix of the normalisation. */
  lemma {:induction false} NormalizedPrefix(points: seq<Sample>, k: nat)
    requires k <= |points|
    ensures Normalized(points[..k]) == Normalized(points)[..k]
    decreases |points|
  {
    if k < |points| {
      var init := points[..|points| - 1];
      NormalizedPrefix(init, k);
      assert init[..k] == points[..k];
      if |points| >= 2 {
        assert Normalized(points)[..k] == Normalized(init)[..k];
      }
    } else {
      assert points[..k] == points;
    }
  }

  /** The per-step rule: every point after the first is its input point
      shifted against the adjusted point before it. */
  lemma NormalizedStep(points: seq<Sample>, i: nat)
    requires 0 < i < |points|
    ensures Normalized(points)[i] == Shift(Normalized(points)[i - 1].lon, points[i])
  {
    var p := points[..i + 1];
    NormalizedLast(p);
    NormalizedPrefix(points, i + 1);
    assert Normalized(p)[i - 1] == Normalized(points)[i - 1];
    assert p[i] == points[i];
  }

  /** The last adjusted point is the last input point shifted against the
      adjusted point before it. */
  lemma NormalizedLast(points: seq<Sample>)
    requires |points| >= 2
    ensures var n := |points|;
      Normalized(points)[n - 1] == Shift(Normalized(points)[n - 2].lon, points[n - 1])
  {
    var init := points[..|points| - 1];
    assert Normalized(points)[..|points| - 1] == Normalized(init);
  }

  /** Every adjusted point is its input point with the latitude, altitude
      and hour kept and the longitude moved by at most one turn. */
  lemma NormalizedPointwise(points: seq<Sample>, i: nat)
    requires i < |points|
    ensures var q := Normalized(points)[i];
      && q.lat == points[i].lat && q.alt == points[i].alt && q.hour == points[i].hour
      && (q.lon == points[i].lon || q.lon == points[i].lon - 360.0 || q.lon == points[i].lon + 360.0)
  {
    if i > 0 {
      NormalizedStep(points, i);
    }
  }

  /** A trail without a raw jump of more than half a turn is left as it is. */
  lemma {:induction false} NormalizedSmooth(points: seq<Sample>)
    requires forall i :: 0 < i < |points| ==> -180.0 <= points[i].lon - points[i - 1].lon <= 180.0
    ensures Normalized(points) == points
  {
    if |points| >= 2 {
      var n := |points|;
      var init := points[..n - 1];
      forall i | 0 < i < |init| ensures -180.0 <= init[i].lon - init[i - 1].lon <= 180.0 {
        assert init[i] == points[i] && init[i - 1] == points[i - 1];
      }
      NormalizedSmooth(init);
      assert Normalized(init)[n - 2] == points[n - 2];
      assert Shift(points[n - 2].lon, points[n - 1]) == points[n - 1];
      assert init + [points[n - 1]] == points;
    }
  }

  /** The normalisation loop: copy the first point, then push each later
      point, shifted against the last one pushed. The input is not changed. */
  method NormalizeAcrossAntimeridian(points: seq<Sample>) returns (adjusted: seq<Sample>)
    ensures adjusted == Normalized(points)
  {
    if |points| < 2 {
      return points;
    }
    adjusted := [points[0]];
    var i := 1;
    while i < |points|
      invariant 1 <= i <= |points|
      invariant adjusted == Normalized(points[..i])
    {
      var prev := adjusted[i - 1];
      var curr := points[i];
      var delta := curr.lon - prev.lon;
      if delta > 180.0 {
        curr := curr.(lon := curr.lon - 360.0);
      }
      if delta < -180.0 {
        curr := curr.(lon := curr.lon + 360.0);
      }
      assert points[..i + 1][..i] == points[..i];
      adjusted := adjusted + [curr];
      i := i + 1;
    }
    assert points[..i] == points;
  }

  // ------------------------------------------------------- marker selection

  /** A sample whose position lies on the globe. */
  predicate InRange(s: Sample) {
    -90.0 <= s.lat <= 90.0 && -180.0 <= s.lon <= 180.0
  }

  /** The samples on the globe, in their order. */
  function ValidSamples(samples: seq<Sample>): (v: seq<Sample>)
    ensures |v| <= |samples|
    ensures forall s :: s in v <==> s in samples && InRange(s)
  {
    if samples == [] then []
    else (if InRange(samples[0]) then [samples[0]] else []) + ValidSamples(samples[1..])
  }

  /** The last valid sample is the last sample of the list on the globe. */
  lemma LastValid(samples: seq<Sample>)
    requires ValidSamples(samples) != []
    ensures var v := ValidSamples(samples);
      exists i :: 0 <= i < |samples| && samples[i] == v[|v| - 1] && InRange(samples[i])
                  && forall j :: i < j < |samples| ==> !InRange(samples[j])
  {
    var i := LastValidAt(samples);
  }

  /** The position of the last valid sample. */
  lemma {:induction false} LastValidAt(samples: seq<Sample>) returns (i: nat)
    requires ValidSamples(samples) != []
    ensures var v := ValidSamples(samples);
      && i < |samples| && samples[i] == v[|v| - 1] && InRange(samples[i])
      && forall j :: i < j < |samples| ==> !InRange(samples[j])
  {
    var rest := ValidSamples(samples[1..]);
    if rest == [] {
      forall j | 0 < j < |samples| ensures !InRange(samples[j]) {
        assert samples[j] in samples[1..];
      }
      i := 0;
    } else {
      var k := LastValidAt(samples[1..]);
      i := k + 1;
      forall j | i < j < |samples| ensures !InRange(samples[j]) {
        assert samples[j] == samples[1..][j - 1];
      }
    }
  }

  /** Without a sample on the globe there is no valid sample. */
  lemma {:induction false} NoneValid(samples: seq<Sample>)
    requires forall s :: s in samples ==> !InRange(s)
    ensures ValidSamples(samples) == []
  {
    if samples != [] {
      NoneValid(samples[1..]);
    }
  }

  /** A balloon's marker: its id, its last valid sample and its colour. */
  datatype Marker = Marker(id: nat, sample: Sample, color: string)

  /** The marker of the balloon enumerated at idx: none without a valid
      sample, else the last valid one in the balloon's colour. */
  function MarkerFor(idx: nat, id: nat, samples: seq<Sample>): (m: Option<Marker>)
    ensures samples == [] ==> m == None
    ensures m.Some? ==> m.value.id == id && m.value.color == ColorFor(idx)
                        && m.value.sample in samples && InRange(m.value.sample)
  {
    if |samples| == 0 then None
    else
      var v := ValidSamples(samples);
      if |v| == 0 then None
      else
        assert v[|v| - 1] in v;
        Some(Marker(id, v[|v| - 1], ColorFor(idx)))
  }

  /** A balloon has a marker exactly when one of its samples is on the
      globe; the marker is the last such sample, in the balloon's colour. */
  lemma MarkerChoice(idx: nat, id: nat, samples: seq<Sample>)
    ensures MarkerFor(idx, id, samples).Some? <==> exists s :: s in samples && InRange(s)
    ensures MarkerFor(idx, id, samples).Some? ==>
      var m := MarkerFor(idx, id, samples).value;
      && m.id == id && m.color == ColorFor(idx)
      && exists i :: 0 <= i < |samples| && samples[i] == m.sample && InRange(samples[i])
                     && forall j :: i < j < |samples| ==> !InRange(samples[j])
  {
    var v := ValidSamples(samples);
    if exists s :: s in samples && InRange(s) {
      var s :| s in samples && InRange(s);
      assert s in v;
      LastValid(samples);
    } else {
      NoneValid(samples);
    }
  }

  // ---------------------------------------------------------- trail selection

  /** A balloon's trail: its id, its colour and its [lon, lat] coordinates. */
  datatype Trail = Trail(id: nat, color: string, coordinates: seq<(real, real)>)

  /** The trail of the balloon enumerated at idx: none with fewer than two
      valid samples, else the normalised valid samples as [lon, lat]. */
  function TrailFor(idx: nat, id: nat, samples: seq<Sample>): (t: Option<Trail>)
    ensures t.Some? <==> |ValidSamples(samples)| >= 2
    ensures t.Some? ==> t.value.id == id && t.value.color == ColorFor(idx)
                        && |t.value.coordinates| == |ValidSamples(samples)|
  {
    var v := ValidSamples(samples);
    if |v| < 2 then None
    else
      var a := Normalized(v);
      Some(Trail(id, ColorFor(idx), seq(|a|, i requires 0 <= i < |a| => (a[i].lon, a[i].lat))))
  }

  /** A trail is drawn exactly when there are two valid samples; its points
      are the valid samples in order, latitudes kept and longitudes moved by
      at most a turn, and each point follows the normalisation rule. */
  lemma TrailShape(idx: nat, id: nat, samples: seq<Sample>)
    ensures TrailFor(idx, id, samples).Some? <==> |ValidSamples(samples)| >= 2
    ensures TrailFor(idx, id, samples).Some? ==>
      var t := TrailFor(idx, id, samples).value;
      var v := ValidSamples(samples);
      && t.id == id && t.color == ColorFor(idx)
      && |t.coordinates| == |v|
      && t.coordinates[0] == (v[0].lon, v[0].lat)
      && (forall i :: 0 <= i < |v| ==>
            t.coordinates[i].1 == v[i].lat
            && (t.coordinates[i].0 == v[i].lon || t.coordinates[i].0 == v[i].lon - 360.0
                || t.coordinates[i].0 == v[i].lon + 360.0))
      && (forall i :: 0 < i < |v| ==>
            t.coordinates[i].0 == Shift(t.coordinates[i - 1].0, v[i]).lon)
  {
    var v := ValidSamples(samples);
    if |v| >= 2 {
      forall i | 0 <= i < |v| ensures var q := Normalized(v)[i];
        q.lat == v[i].lat && (q.lon == v[i].lon || q.lon == v[i].lon - 360.0 || q.lon == v[i].lon + 360.0)
      {
        NormalizedPointwise(v, i);
      }
      forall i | 0 < i < |v| ensures Normalized(v)[i] == Shift(Normalized(v)[i - 1].lon, v[i]) {
        NormalizedStep(v, i);
      }
    }
  }

  /** A balloon with a trail also has a marker, of the same id and colour,
      at the trail's last point up to a whole turn of longitude. */
  lemma TrailEndsAtMarker(idx: nat, id: nat, samples: seq<Sample>)
    requires TrailFor(idx, id, samples).Some?
    ensures MarkerFor(idx, id, samples).Some?
    ensures var t := TrailFor(idx, id, samples).value;
      var m := MarkerFor(idx, id, samples).value;
      var last := t.coordinates[|t.coordinates| - 1];
      && t.id == m.id && t.color == m.color
      && last.1 == m.sample.lat
      && (last.0 == m.sample.lon || last.0 == m.sample.lon - 360.0 || last.0 == m.sample.lon + 360.0)
  {
    var v := ValidSamples(samples);
    NormalizedPointwise(v, |v| - 1);
  }

  // ---------------------------------------------------- the whole history

  /** The dictionary's entries, in enumeration order. */
  function Entries(h: History): (es: seq<(nat, seq<Sample>)>)
    ensures |es| == |h.order|
  {
    seq(|h.order|, i requires 0 <= i < |h.order| => (h.order[i], TrackIn(h, h.order[i])))
  }

  /** The present values of a list of options, in order. */
  function Somes<T(!new)>(xs: seq<Option<T>>): (r: seq<T>)
    ensures |r| <= |xs|
    ensures forall x :: x in r <==> Some(x) in xs
  {
    if xs == [] then []
    else (if xs[0].Some? then [xs[0].value] else []) + Somes(xs[1..])
  }

  /** ys lists the present values of xs in order: ix maps each position of
      ys to the position of xs it came from, strictly increasing, and every
      present value of xs is listed. */
  ghost predicate Enumerates<T>(xs: seq<Option<T>>, ys: seq<T>, ix: seq<nat>) {
    && |ix| == |ys|
    && (forall k :: 0 <= k < |ix| ==> ix[k] < |xs| && xs[ix[k]] == Some(ys[k]))
    && (forall k, l :: 0 <= k < l < |ix| ==> ix[k] < ix[l])
    && (forall i :: 0 <= i < |xs| && xs[i].Some? ==> i in ix)
  }

  /** Every position moved one place on. */
  function Successors(ix: seq<nat>): (r: seq<nat>)
    ensures |r| == |ix| && forall k :: 0 <= k < |ix| ==> r[k] == ix[k] + 1
  {
    seq(|ix|, k requires 0 <= k < |ix| => ix[k] + 1)
  }

  /** Putting one more option in front: its value, if any, comes first and
      the other positions move one place on. */
  lemma EnumeratesCons<T>(x: Option<T>, tail: seq<Option<T>>, ys: seq<T>, rest: seq<nat>)
    requires Enumerates(tail, ys, rest)
    ensures Enumerates([x] + tail, (if x.Some? then [x.value] else []) + ys,
                       (if x.Some? then [0] else []) + Successors(rest))
  {
    ConsSources(x, tail, ys, rest);
    ConsComplete(x, tail, ys, rest);
  }

  lemma ConsSources<T>(x: Option<T>, tail: seq<Option<T>>, ys: seq<T>, rest: seq<nat>)
    requires Enumerates(tail, ys, rest)
    ensures var xs, head, ix := [x] + tail, (if x.Some? then [x.value] else []), (if x.Some? then [0] else []) + Successors(rest);
      forall k :: 0 <= k < |ix| ==> ix[k] < |xs| && xs[ix[k]] == Some((head + ys)[k])
  {
    var xs := [x] + tail;
    var head := if x.Some? then [x.value] else [];
    var ix := (if x.Some? then [0] else []) + Successors(rest);
    forall k | 0 <= k < |ix| ensures ix[k] < |xs| && xs[ix[k]] == Some((head + ys)[k]) {
      if k >= |head| {
        assert ix[k] == rest[k - |head|] + 1;
      }
    }
  }

  lemma ConsComplete<T>(x: Option<T>, tail: seq<Option<T>>, ys: seq<T>, rest: seq<nat>)
    requires Enumerates(tail, ys, rest)
    ensures var xs, ix := [x] + tail, (if x.Some? then [0] else []) + Successors(rest);
      forall i :: 0 <= i < |xs| && xs[i].Some? ==> i in ix
  {
    var xs := [x] + tail;
    var ix := (if x.Some? then [0] else []) + Successors(rest);
    forall i | 0 <= i < |xs| && xs[i].Some? ensures i in ix {
      if i == 0 {
        assert ix[0] == 0;
      } else {
        assert xs[i] == tail[i - 1];
        assert i - 1 in rest;
        var k :| 0 <= k < |rest| && rest[k] == i - 1;
        assert Successors(rest)[k] == i;
      }
    }
  }

  /** The positions the present values of xs come from. */
  lemma {:induction false} SomesIndices<T(!new)>(xs: seq<Option<T>>) returns (ix: seq<nat>)
    ensures Enumerates(xs, Somes(xs), ix)
  {
    if xs == [] {
      ix := [];
    } else {
      var rest := SomesIndices(xs[1..]);
      EnumeratesCons(xs[0], xs[1..], Somes(xs[1..]), rest);
      assert [xs[0]] + xs[1..] == xs;
      ix := (if xs[0].Some? then [0] else []) + Successors(rest);
    }
  }

  /** Each entry's marker, if any, in enumeration order. */
  function MarkerOptions(h: History): (ms: seq<Option<Marker>>)
    ensures |ms| == |h.order|
    ensures forall i :: 0 <= i < |h.order| ==> ms[i] == MarkerFor(i, h.order[i], TrackIn(h, h.order[i]))
  {
    var es := Entries(h);
    seq(|es|, i requires 0 <= i < |es| => MarkerFor(i, es[i].0, es[i].1))
  }

  /** Each entry's trail, if any, in enumeration order. */
  function TrailOptions(h: History): (ts: seq<Option<Trail>>)
    ensures |ts| == |h.order|
    ensures forall i :: 0 <= i < |h.order| ==> ts[i] == TrailFor(i, h.order[i], TrackIn(h, h.order[i]))
  {
    var es := Entries(h);
    seq(|es|, i requires 0 <= i < |es| => TrailFor(i, es[i].0, es[i].1))
  }

  /** The markers: one per entry that has one, in enumeration order. */
  function Markers(h: History): (r: seq<Marker>)
    ensures |r| <= |h.order|
  {
    Somes(MarkerOptions(h))
  }

  /** The trails: one per entry that has one, in enumeration order. */
  function Trails(h: History): (r: seq<Trail>)
    ensures |r| <= |h.order|
  {
    Somes(TrailOptions(h))
  }

  /** The markers come in enumeration order: the k-th marker is the marker
      of the entry at ix[k], ix strictly increasing, and no entry with a
      marker is skipped. */
  lemma MarkersInOrder(h: History)
    ensures exists ix :: Enumerates(MarkerOptions(h), Markers(h), ix)
  {
    var ix := SomesIndices(MarkerOptions(h));
    assert Enumerates(MarkerOptions(h), Markers(h), ix);
  }

  /** The trails come in enumeration order, none skipped. */
  lemma TrailsInOrder(h: History)
    ensures exists ix :: Enumerates(TrailOptions(h), Trails(h), ix)
  {
    var ix := SomesIndices(TrailOptions(h));
    assert Enumerates(TrailOptions(h), Trails(h), ix);
  }

  /** A marker is shown exactly for the balloons enumerated at some index
      with a sample on the globe, coloured by that index. */
  lemma MarkersOfHistory(h: History, m: Marker)
    ensures m in Markers(h) <==>
      exists i :: 0 <= i < |h.order| && MarkerFor(i, h.order[i], TrackIn(h, h.order[i])) == Some(m)
  {
    var ms := MarkerOptions(h);
    if m in Markers(h) {
      var i :| 0 <= i < |ms| && ms[i] == Some(m);
    }
    if exists i :: 0 <= i < |h.order| && MarkerFor(i, h.order[i], TrackIn(h, h.order[i])) == Some(m) {
      var i :| 0 <= i < |h.order| && MarkerFor(i, h.order[i], TrackIn(h, h.order[i])) == Some(m);
      assert ms[i] == Some(m);
    }
  }

  /** A trail is drawn exactly for the balloons enumerated at some index with
      two samples on the globe, coloured by that index. */
  lemma TrailsOfHistory(h: History, t: Trail)
    ensures t in Trails(h) <==>
      exists i :: 0 <= i < |h.order| && TrailFor(i, h.order[i], TrackIn(h, h.order[i])) == Some(t)
  {
    var ts := TrailOptions(h);
    if t in Trails(h) {
      var i :| 0 <= i < |ts| && ts[i] == Some(t);
    }
    if exists i :: 0 <= i < |h.order| && TrailFor(i, h.order[i], TrackIn(h, h.order[i])) == Some(t) {
      var i :| 0 <= i < |h.order| && TrailFor(i, h.order[i], TrackIn(h, h.order[i])) == Some(t);
      assert ts[i] == Some(t);
    }
  }
}
