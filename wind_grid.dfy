/** The fixed global tile grid of the wind layer: tile centres, their
    bounding boxes and the key that identifies a tile in the coverage set. */
module WindGrid {
  import opened SeqUtil

  /** Edge length of a tile in degrees. */
  const TileSize: int := 10
  const HalfTile: int := TileSize / 2
  /** Number of latitude rows and longitude columns of the grid. */
  const Rows: nat := 180 / TileSize
  const Cols: nat := 360 / TileSize

  /** A tile, identified by its centre. */
  datatype Tile = Tile(lat: int, lon: int)

  /** Identity of a tile in the coverage set (the source formats the centre
      as a fixed-precision string; here it is the pair itself). */
  datatype TileKey = TileKey(lat: int, lon: int)

  /** Bounding box of a tile, clamped to the globe. */
  datatype Bounds = Bounds(north: int, south: int, west: int, east: int)

  function Min(a: int, b: int): int { if a <= b then a else b }
  function Max(a: int, b: int): int { if a <= b then b else a }

  /** The box reaching half a tile from the centre in every direction,
      cut at the poles and at the antimeridian. */
  function MakeTileBounds(lat: int, lon: int): (b: Bounds)
    ensures b.north <= 90 && b.south >= -90 && b.west >= -180 && b.east <= 180
    ensures b.north <= lat + HalfTile && (b.north < lat + HalfTile ==> b.north == 90)
    ensures b.south >= lat - HalfTile && (b.south > lat - HalfTile ==> b.south == -90)
    ensures b.west >= lon - HalfTile && (b.west > lon - HalfTile ==> b.west == -180)
    ensures b.east <= lon + HalfTile && (b.east < lon + HalfTile ==> b.east == 180)
  {
    Bounds(Min(lat + HalfTile, 90), Max(lat - HalfTile, -90),
           Max(lon - HalfTile, -180), Min(lon + HalfTile, 180))
  }

  /** The key of a tile. The source prints both centre coordinates with six
      decimals, which loses nothing for whole-degree centres: the centre can
      be read back from the key, so distinct tiles have distinct keys. */
  function KeyOf(t: Tile): (k: TileKey)
    ensures Tile(k.lat, k.lon) == t
  {
    TileKey(t.lat, t.lon)
  }

  /** The bounding box of the tile a key names. */
  function KeyBounds(k: TileKey): Bounds {
    MakeTileBounds(k.lat, k.lon)
  }

  /** The centre of the tile at position i of the grid in row-major order. */
  function Centre(i: int): Tile {
    Tile(-90 + HalfTile + TileSize * (i / Cols), -180 + HalfTile + TileSize * (i % Cols))
  }

  /** The grid in row-major order: latitude rows from the south pole
      northwards, and within a row longitudes from the antimeridian eastwards. */
  function Grid(): (g: seq<Tile>)
    ensures |g| == Rows * Cols
  {
    seq(Rows * Cols, i requires 0 <= i < Rows * Cols => Centre(i))
  }

  /** No two tiles of the list share a key. */
  predicate DistinctKeys(ts: seq<Tile>) {
    forall i, j :: 0 <= i < j < |ts| ==> KeyOf(ts[i]) != KeyOf(ts[j])
  }

  /** The keys of a list of tiles. */
  function KeySet(ts: seq<Tile>): set<TileKey> {
    set t | t in ts :: KeyOf(t)
  }

  /** The grid keys: the universe the coverage set lives in. */
  function GridKeys(): set<TileKey> {
    KeySet(Grid())
  }

  lemma DivModRowCol(r: int, c: int)
    requires 0 <= r < Rows && 0 <= c < Cols
    ensures 0 <= r * Cols + c < Rows * Cols
    ensures (r * Cols + c) / Cols == r && (r * Cols + c) % Cols == c
  {
  }

  /** Generates the tile centres with the source's two nested counting loops. */
  method GenerateGlobalTiles() returns (tiles: seq<Tile>)
    ensures tiles == Grid()
  {
    tiles := [];
    var lat := -90 + HalfTile;
    ghost var r := 0;
    while lat < 90
      invariant 0 <= r <= Rows && lat == -90 + HalfTile + TileSize * r
      invariant |tiles| == r * Cols
      invariant forall k :: 0 <= k < |tiles| ==> tiles[k] == Centre(k)
    {
      var lon := -180 + HalfTile;
      ghost var c := 0;
      while lon < 180
        invariant 0 <= c <= Cols && lon == -180 + HalfTile + TileSize * c
        invariant |tiles| == r * Cols + c
        invariant forall k :: 0 <= k < |tiles| ==> tiles[k] == Centre(k)
      {
        DivModRowCol(r, c);
        tiles := tiles + [Tile(lat, lon)];
        lon := lon + TileSize;
        c := c + 1;
      }
      lat := lat + TileSize;
      r := r + 1;
    }
    GridOfCentres(tiles);
  }

  /** A list holding the centre of every grid position, in order, is the grid. */
  lemma GridOfCentres(tiles: seq<Tile>)
    requires |tiles| == Rows * Cols
    requires forall k :: 0 <= k < |tiles| ==> tiles[k] == Centre(k)
    ensures tiles == Grid()
  {
  }

  /** The centre of the tile at grid position i. */
  lemma GridAt(i: int)
    requires 0 <= i < |Grid()|
    ensures 0 <= i / Cols < Rows && 0 <= i % Cols < Cols
    ensures Grid()[i] == Tile(-85 + 10 * (i / Cols), -175 + 10 * (i % Cols))
  {
  }

  /** Grid size, first and last centre, and the range of the centres. */
  lemma GridShape()
    ensures |Grid()| == 648
    ensures Grid()[0] == Tile(-85, -175) && Grid()[|Grid()| - 1] == Tile(85, 175)
    ensures forall t :: t in Grid() ==> -85 <= t.lat <= 85 && -175 <= t.lon <= 175
  {
    forall t | t in Grid() ensures -85 <= t.lat <= 85 && -175 <= t.lon <= 175 {
      CentreRange(t);
    }
  }

  lemma CentreRange(t: Tile)
    requires t in Grid()
    ensures -85 <= t.lat <= 85 && -175 <= t.lon <= 175
  {
    var i :| 0 <= i < |Grid()| && Grid()[i] == t;
    GridAt(i);
  }

  /** Every grid tile gets its full ten-degree box: no clamping applies and the
      box is never empty. */
  lemma GridBoundsProper(t: Tile)
    requires t in Grid()
    ensures var b := MakeTileBounds(t.lat, t.lon);
      && b.south < b.north && b.west < b.east
      && b.north - b.south == TileSize && b.east - b.west == TileSize
  {
    GridShape();
  }

  /** Distinct grid positions carry distinct keys. */
  lemma {:induction false} GridKeysDistinct()
    ensures DistinctKeys(Grid())
  {
    var g := Grid();
    forall i, j | 0 <= i < j < |g| ensures KeyOf(g[i]) != KeyOf(g[j]) {
      GridAt(i);
      GridAt(j);
    }
  }

  /** A list of tiles without repeated keys has as many keys as tiles. */
  lemma {:induction false} KeySetCard(ts: seq<Tile>)
    requires DistinctKeys(ts)
    ensures |KeySet(ts)| == |ts|
  {
    if ts != [] {
      KeySetCard(ts[1..]);
      KeySetCons(ts);
    }
  }

  /** The keys of a list are its head's key and, apart from it, its tail's. */
  lemma KeySetCons(ts: seq<Tile>)
    requires ts != [] && DistinctKeys(ts)
    ensures KeySet(ts) == {KeyOf(ts[0])} + KeySet(ts[1..])
    ensures KeyOf(ts[0]) !in KeySet(ts[1..])
  {
    assert ts == [ts[0]] + ts[1..];
    forall t | t in ts[1..] ensures KeyOf(t) != KeyOf(ts[0]) {
      var k :| 0 <= k < |ts[1..]| && ts[1..][k] == t;
      assert ts[k + 1] == t;
    }
  }

  lemma GridKeysCard()
    ensures |GridKeys()| == |Grid()| == Rows * Cols
  {
    GridKeysDistinct();
    KeySetCard(Grid());
  }

  /** On grid keys the bounding box determines the tile. */
  lemma GridBoundsInjective(k1: TileKey, k2: TileKey)
    requires k1 in GridKeys() && k2 in GridKeys()
    requires KeyBounds(k1) == KeyBounds(k2)
    ensures k1 == k2
  {
    GridShape();
  }

  predicate InBox(lat: real, lon: real, b: Bounds) {
    b.south as real <= lat < b.north as real && b.west as real <= lon < b.east as real
  }

  /** The cell of the ten-degree band [10 a, 10 a + 10) containing x is unique. */
  lemma SameBand(a: int, b: int, x: real)
    requires (10 * a) as real <= x < (10 * a + 10) as real
    requires (10 * b) as real <= x < (10 * b + 10) as real
    ensures a == b
  {
  }

  /** The box of the tile at grid position i, written out by row and column. */
  lemma GridBox(i: int) returns (row: int, col: int)
    requires 0 <= i < |Grid()|
    ensures 0 <= row < Rows && 0 <= col < Cols && i == row * Cols + col
    ensures var b := MakeTileBounds(Grid()[i].lat, Grid()[i].lon);
      && b.south == -90 + 10 * row && b.north == b.south + 10
      && b.west == -180 + 10 * col && b.east == b.west + 10
  {
    GridAt(i);
    row, col := i / Cols, i % Cols;
  }

  /** The grid tiles' boxes partition the globe: every point with latitude
      in [-90, 90) and longitude in [-180, 180) lies in exactly one box
      (south and west edges inclusive, north and east edges exclusive). */
  lemma GridCoversGlobe(lat: real, lon: real)
    requires -90.0 <= lat < 90.0 && -180.0 <= lon < 180.0
    ensures exists i :: 0 <= i < |Grid()| && InBox(lat, lon, MakeTileBounds(Grid()[i].lat, Grid()[i].lon))
    ensures forall i, j ::
      (0 <= i < |Grid()| && 0 <= j < |Grid()|
       && InBox(lat, lon, MakeTileBounds(Grid()[i].lat, Grid()[i].lon))
       && InBox(lat, lon, MakeTileBounds(Grid()[j].lat, Grid()[j].lon))) ==> i == j
  {
    var i := TileContaining(lat, lon);
    forall i, j | 0 <= i < |Grid()| && 0 <= j < |Grid()|
      && InBox(lat, lon, MakeTileBounds(Grid()[i].lat, Grid()[i].lon))
      && InBox(lat, lon, MakeTileBounds(Grid()[j].lat, Grid()[j].lon))
      ensures i == j
    {
      BoxesDisjoint(lat, lon, i, j);
    }
  }

  /** The grid position whose box contains a point of the globe. */
  lemma TileContaining(lat: real, lon: real) returns (i: int)
    requires -90.0 <= lat < 90.0 && -180.0 <= lon < 180.0
    ensures 0 <= i < |Grid()| && InBox(lat, lon, MakeTileBounds(Grid()[i].lat, Grid()[i].lon))
  {
    var r := ((lat + 90.0) / 10.0).Floor;
    var c := ((lon + 180.0) / 10.0).Floor;
    assert (10 * r) as real <= lat + 90.0 < (10 * r + 10) as real;
    assert (10 * c) as real <= lon + 180.0 < (10 * c + 10) as real;
    DivModRowCol(r, c);
    i := r * Cols + c;
    var row, col := GridBox(i);
  }

  /** Two grid boxes containing the same point are the same box. */
  lemma BoxesDisjoint(lat: real, lon: real, i: int, j: int)
    requires 0 <= i < |Grid()| && 0 <= j < |Grid()|
    requires InBox(lat, lon, MakeTileBounds(Grid()[i].lat, Grid()[i].lon))
    requires InBox(lat, lon, MakeTileBounds(Grid()[j].lat, Grid()[j].lon))
    ensures i == j
  {
    var ri, ci := GridBox(i);
    var rj, cj := GridBox(j);
    SameBand(ri, rj, lat + 90.0);
    SameBand(ci, cj, lon + 180.0);
  }
}
