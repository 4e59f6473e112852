/** The elevation raster and the iterative terrain intersector.

    The raster is a grid of heights with an affine georeference: the
    transform sends pixel coordinates `(col, row)` to map coordinates
    `(east, north)`, and its inverse sends a map position back to
    fractional pixel coordinates, which are rounded to the nearest integer
    the way Python's `round` does.
 */
module Terrain {
  import opened Outcomes
  import opened LinAlg
  import opened RealArith
  import Ground

  // ------------------------------------------------------------- rounding

  /** Python's `round` on a float: nearest integer, ties to even. */
  function RoundHalfEven(x: real): (n: int)
    ensures -0.5 <= x - n as real <= 0.5
    ensures (x - n as real == 0.5 || n as real - x == 0.5) ==> n % 2 == 0
  {
    var f := x.Floor;
    var frac := x - f as real;
    if frac < 0.5 then f
    else if frac > 0.5 then f + 1
    else if f % 2 == 0 then f
    else f + 1
  }

  /** An integer closer than one half to `x` is what `x` rounds to. */
  lemma RoundUnique(x: real, m: int)
    requires -0.5 < x - m as real < 0.5
    ensures RoundHalfEven(x) == m
  {
    var n := RoundHalfEven(x);
    assert -1.0 < n as real - m as real < 1.0;
  }

  /** Ties go to the even neighbour: 0.5 rounds to 0, 1.5 and 2.5 to 2. */
  lemma RoundTiesToEven()
    ensures RoundHalfEven(0.5) == 0 && RoundHalfEven(1.5) == 2 && RoundHalfEven(2.5) == 2
    ensures RoundHalfEven(-0.5) == 0 && RoundHalfEven(-1.5) == -2
  {
  }

  // --------------------------------------------------------------- affine

  datatype Point2 = Point2(x: real, y: real)

  /** The georeference `x = a col + b row + c`, `y = d col + e row + f`. */
  datatype Affine = Affine(a: real, b: real, c: real, d: real, e: real, f: real)

  function AffineApply(t: Affine, p: Point2): Point2 {
    Point2(t.a * p.x + t.b * p.y + t.c, t.d * p.x + t.e * p.y + t.f)
  }

  // --------------------------------------------------------------- raster

  /** An elevation raster, `elevation[row][col]`, with `inverse` the inverse
      of its georeference (`~dem_transform`), which sends a map position to
      fractional `(col, row)`. The raster is a NumPy array, so every row has
      the same length and `shape[1]` is the length of a row. */
  datatype Dem = Dem(elevation: seq<seq<real>>, inverse: Affine)

  /** Rounded pixel coordinates of a map position, in the order the inverse
      georeference produces them. */
  function PixelOf(dem: Dem, east: real, north: real): (r: (int, int))
  {
    var q := AffineApply(dem.inverse, Point2(east, north));
    (RoundHalfEven(q.x), RoundHalfEven(q.y))
  }

  /** The elevation of cell `(row, col)`, or nothing outside the raster. */
  function Cell(dem: Dem, row: int, col: int): (r: Option<real>)
    ensures r.Some? <==> 0 <= row < |dem.elevation| && 0 <= col < |dem.elevation[row]|
    ensures r.Some? ==> r.value == dem.elevation[row][col]
  {
    if 0 <= row < |dem.elevation| && 0 <= col < |dem.elevation[row]| then Some(dem.elevation[row][col]) else None
  }

  /** `get_DEM_alt` with the inverse transform's output read as `(col, row)`,
      the order the georeference produces. */
  function DemAltitude(dem: Dem, east: real, north: real): Option<real>
  {
    var (col, row) := PixelOf(dem, east, north);
    Cell(dem, row, col)
  }

  /** `get_DEM_alt` as written: the first output of the inverse transform is
      taken as the row and the second as the column. */
  function DemAltitudeAsWritten(dem: Dem, east: real, north: real): Option<real>
  {
    var (row, col) := PixelOf(dem, east, north);
    Cell(dem, row, col)
  }

  /** Every map position the inverse georeference sends within half a
      pixel of the corner of cell `(row, col)` reads that cell's elevation,
      and the lookup finds something exactly when the nearest corner is a
      cell of the raster. */
  lemma DemAltitudeNearCorner(dem: Dem, east: real, north: real, row: int, col: int)
    requires var q := AffineApply(dem.inverse, Point2(east, north));
             -0.5 < q.x - col as real < 0.5 && -0.5 < q.y - row as real < 0.5
    ensures DemAltitude(dem, east, north).Some? <==> 0 <= row < |dem.elevation| && 0 <= col < |dem.elevation[row]|
    ensures DemAltitude(dem, east, north).Some? ==> DemAltitude(dem, east, north).value == dem.elevation[row][col]
  {
    var q := AffineApply(dem.inverse, Point2(east, north));
    RoundUnique(q.x, col);
    RoundUnique(q.y, row);
  }

  /** The script's lookup reads the transposed cell: wherever the inverse
      georeference lands within half a pixel of `(col, row)`, it returns
      what the corrected lookup returns at `(row, col)`. */
  lemma DemAltitudeAsWrittenTransposes(dem: Dem, east: real, north: real, row: int, col: int)
    requires var q := AffineApply(dem.inverse, Point2(east, north));
             -0.5 < q.x - col as real < 0.5 && -0.5 < q.y - row as real < 0.5
    ensures DemAltitudeAsWritten(dem, east, north) == Cell(dem, col, row)
  {
    var q := AffineApply(dem.inverse, Point2(east, north));
    RoundUnique(q.x, col);
    RoundUnique(q.y, row);
  }

  /** A one-row raster `[[10, 20]]` with the identity georeference: the
      position `(1, 0)` is column 1 of row 0, elevation 20, but the script's
      lookup asks for row 1 and finds nothing. */
  lemma DemAxesCounterexample()
    ensures var dem := Dem([[10.0, 20.0]], Affine(1.0, 0.0, 0.0, 0.0, 1.0, 0.0));
            && DemAltitude(dem, 1.0, 0.0) == Some(20.0)
            && DemAltitudeAsWritten(dem, 1.0, 0.0) == None
  {
    var dem := Dem([[10.0, 20.0]], Affine(1.0, 0.0, 0.0, 0.0, 1.0, 0.0));
    assert AffineApply(dem.inverse, Point2(1.0, 0.0)) == Point2(1.0, 0.0);
    DemAltitudeNearCorner(dem, 1.0, 0.0, 0, 1);
    DemAltitudeAsWrittenTransposes(dem, 1.0, 0.0, 0, 1);
  }

  // ---------------------------------------------------- terrain intersector

  /** Height of the terrain under a map position `(east, north)`, or nothing
      off the raster. */
  type HeightMap = (real, real) -> Option<real>

  /** How a lookup reads the inverse transform's output: as `(col, row)`,
      the order the georeference produces, or as `(row, col)`, the order the
      script uses. */
  datatype AxisOrder = ColRow | RowCol

  /** `get_DEM_alt` under either reading of the transform's output. */
  function Altitude(dem: Dem, order: AxisOrder, east: real, north: real): (r: Option<real>)
    ensures order == ColRow ==> r == DemAltitude(dem, east, north)
    ensures order == RowCol ==> r == DemAltitudeAsWritten(dem, east, north)
  {
    match order
    case ColRow => DemAltitude(dem, east, north)
    case RowCol => DemAltitudeAsWritten(dem, east, north)
  }

  /** The raster seen as a height map, through the lookup of the given
      axis order. */
  function HeightsOf(dem: Dem, order: AxisOrder): (h: HeightMap)
    ensures forall east, north :: h(east, north) == Altitude(dem, order, east, north)
  {
    (east, north) => Altitude(dem, order, east, north)
  }

  /** `dem_interception_epsilon` and `dem_interception_count`. */
  const Epsilon: real := 0.01
  const MaxSteps: nat := 50

  function Abs(x: real): real {
    if x < 0.0 then -x else x
  }

  /** The terrain intersector from step `count` on (`find_DEM_intersection`):
      look up the terrain under `p`; stop with nothing off the raster, stop
      with `p` within `Epsilon` of the terrain, otherwise move `p` by
      `-gap dir` and give up once the step counter passes `MaxSteps`. */
  function DemSearch(heights: HeightMap, p: Vec3, dir: Vec3, count: nat): Option<Vec3>
    requires count <= MaxSteps
    decreases MaxSteps - count
  {
    match heights(p.x, p.y)
    case None => None
    case Some(alt) =>
      var gap := p.z - alt;
      if Abs(gap) <= Epsilon then Some(p)
      else if count + 1 > MaxSteps then None
      else DemSearch(heights, Sub(p, Scale(gap, dir)), dir, count + 1)
  }

  /** Number of height lookups `DemSearch` performs. */
  function DemLookups(heights: HeightMap, p: Vec3, dir: Vec3, count: nat): nat
    requires count <= MaxSteps
    decreases MaxSteps - count
  {
    match heights(p.x, p.y)
    case None => 1
    case Some(alt) =>
      var gap := p.z - alt;
      if Abs(gap) <= Epsilon || count + 1 > MaxSteps then 1
      else 1 + DemLookups(heights, Sub(p, Scale(gap, dir)), dir, count + 1)
  }

  /** At most `MaxSteps + 1` lookups in total: the search is bounded. */
  lemma {:induction false} DemLookupsBounded(heights: HeightMap, p: Vec3, dir: Vec3, count: nat)
    requires count <= MaxSteps
    ensures DemLookups(heights, p, dir, count) <= MaxSteps + 1 - count
    decreases MaxSteps - count
  {
    match heights(p.x, p.y)
    case None =>
    case Some(alt) =>
      var gap := p.z - alt;
      if Abs(gap) > Epsilon && count + 1 <= MaxSteps {
        DemLookupsBounded(heights, Sub(p, Scale(gap, dir)), dir, count + 1);
      }
  }

  /** A returned point is on the raster and within `Epsilon` of the terrain. */
  lemma {:induction false} DemSearchSound(heights: HeightMap, p: Vec3, dir: Vec3, count: nat)
    requires count <= MaxSteps
    ensures var r := DemSearch(heights, p, dir, count);
            r.Some? ==> && heights(r.value.x, r.value.y).Some?
                        && Abs(r.value.z - heights(r.value.x, r.value.y).value) <= Epsilon
    decreases MaxSteps - count
  {
    match heights(p.x, p.y)
    case None =>
    case Some(alt) =>
      var gap := p.z - alt;
      if Abs(gap) > Epsilon && count + 1 <= MaxSteps {
        DemSearchSound(heights, Sub(p, Scale(gap, dir)), dir, count + 1);
      }
  }

  /** The search only moves along the click ray: a returned point is
      `p + t dir` for some `t`. */
  lemma {:induction false} DemSearchStaysOnRay(heights: HeightMap, p: Vec3, dir: Vec3, count: nat)
    requires count <= MaxSteps
    ensures var r := DemSearch(heights, p, dir, count);
            r.Some? ==> exists t :: r.value == RayAt(p, dir, t)
    decreases MaxSteps - count
  {
    match heights(p.x, p.y)
    case None =>
    case Some(alt) =>
      var gap := p.z - alt;
      if Abs(gap) <= Epsilon {
        assert p == RayAt(p, dir, 0.0);
      } else if count + 1 <= MaxSteps {
        var next := Sub(p, Scale(gap, dir));
        DemSearchStaysOnRay(heights, next, dir, count + 1);
        var r := DemSearch(heights, next, dir, count + 1);
        if r.Some? {
          var t :| r.value == RayAt(next, dir, t);
          assert next == RayAt(p, dir, -gap);
          RayAtTwice(p, dir, -gap, t);
        }
      }
  }

  /** Travelling `s` and then `t` along a direction is travelling `s + t`. */
  lemma RayAtTwice(p: Vec3, dir: Vec3, s: real, t: real)
    ensures RayAt(RayAt(p, dir, s), dir, t) == RayAt(p, dir, s + t)
  {
  }

  /** A start already within `Epsilon` of the terrain is returned unchanged,
      without a step. */
  lemma DemSearchStartOnTerrain(heights: HeightMap, p: Vec3, dir: Vec3)
    requires heights(p.x, p.y).Some? && Abs(p.z - heights(p.x, p.y).value) <= Epsilon
    ensures DemSearch(heights, p, dir, 0) == Some(p) && DemLookups(heights, p, dir, 0) == 1
  {
  }

  /** A start off the raster yields nothing after a single lookup. */
  lemma DemSearchOffRaster(heights: HeightMap, p: Vec3, dir: Vec3)
    requires heights(p.x, p.y).None?
    ensures DemSearch(heights, p, dir, 0).None? && DemLookups(heights, p, dir, 0) == 1
  {
  }

  /** Over flat terrain at height `h`, a ray with unit vertical component
      lands in one step where the flat solver puts it. */
  lemma DemSearchMatchesFlatSolver(heights: HeightMap, p: Vec3, dir: Vec3, h: real)
    requires dir.z == 1.0
    requires heights(p.x, p.y) == Some(h) && Abs(p.z - h) > Epsilon
    requires var next := Sub(p, Scale(p.z - h, dir));
             heights(next.x, next.y) == Some(h)
    ensures var flat := Ground.FindGroundIntersectionUTM(p.y, p.x, p.z - h, p.z, dir);
            flat.Ok? && DemSearch(heights, p, dir, 0) == Some(flat.value)
  {
    DemSearchOneStep(heights, p, dir, h);
    FlatSolverOneStep(p, dir, p.z - h);
  }

  /** Landing on the terrain after the first step ends the search there. */
  lemma DemSearchOneStep(heights: HeightMap, p: Vec3, dir: Vec3, h: real)
    requires dir.z == 1.0
    requires heights(p.x, p.y) == Some(h) && Abs(p.z - h) > Epsilon
    requires var next := Sub(p, Scale(p.z - h, dir));
             heights(next.x, next.y) == Some(h)
    ensures DemSearch(heights, p, dir, 0) == Some(Sub(p, Scale(p.z - h, dir)))
  {
    var next := Sub(p, Scale(p.z - h, dir));
    assert next.z == h;
    assert DemSearch(heights, next, dir, 1) == Some(next);
  }

  /** With a unit vertical component the flat solver moves back by exactly
      the height above the plane. */
  lemma FlatSolverOneStep(p: Vec3, dir: Vec3, gap: real)
    requires dir.z == 1.0
    ensures Ground.FindGroundIntersectionUTM(p.y, p.x, gap, p.z, dir) == Ok(Sub(p, Scale(gap, dir)))
  {
    assert -gap / dir.z == -gap;
    assert RayAt(Vec3(p.x, p.y, p.z), dir, -gap) == Sub(p, Scale(gap, dir));
  }

  /** Over flat terrain at height `h`, a step along a ray whose vertical
      component `d` lies in `[0, 1)` leaves the fraction `1 - d` of the
      height above the terrain, so after `k` more steps at least
      `gap * (1 - k d)` is left. When that bound stays above `Epsilon`
      until the step counter runs out, the search gives up with nothing,
      although the ray does meet the terrain. */
  lemma {:induction false} FlatShallowRayTimesOut(heights: HeightMap, p: Vec3, dir: Vec3, count: nat, h: real)
    requires count <= MaxSteps
    requires forall x: real, y: real :: heights(x, y) == Some(h)
    requires 0.0 <= dir.z < 1.0 && p.z - h > 0.0
    requires (p.z - h) * (1.0 - (MaxSteps - count) as real * dir.z) > Epsilon
    ensures DemSearch(heights, p, dir, count) == None
    decreases MaxSteps - count
  {
    var gap := p.z - h;
    var k := (MaxSteps - count) as real;
    MulNonneg(k, dir.z);
    MulNonneg(gap, k * dir.z);
    assert heights(p.x, p.y) == Some(h);
    if count + 1 <= MaxSteps {
      var next := Sub(p, Scale(gap, dir));
      assert next.z - h == gap * (1.0 - dir.z);
      assert gap * (1.0 - dir.z) > 0.0;
      GeometricStep(gap, dir.z, k);
      MulNonneg(dir.z, dir.z);
      MulNonneg(k - 1.0, dir.z * dir.z);
      MulNonneg(gap, (k - 1.0) * dir.z * dir.z);
      FlatShallowRayTimesOut(heights, next, dir, count + 1, h);
    }
  }

  /** Flat terrain at height `h` everywhere. */
  function FlatHeights(h: real): (m: HeightMap)
    ensures forall x: real, y: real :: m(x, y) == Some(h)
  {
    (x: real, y: real) => Some(h)
  }

  /** A unit direction about 0.57 degrees above the horizontal. */
  const ShallowRay: Vec3 := Vec3(39999.0 / 40001.0, 0.0, 400.0 / 40001.0)

  /** From 100 above flat terrain at height 0 along `ShallowRay`, the flat
      solver meets the ground, while the terrain search runs out of steps
      with about half the height left. */
  lemma ShallowRayCounterexample(east: real, north: real)
    ensures Dot(ShallowRay, ShallowRay) == 1.0
    ensures Ground.FindGroundIntersectionUTM(north, east, 100.0, 100.0, ShallowRay).Ok?
    ensures DemSearch(FlatHeights(0.0), Vec3(east, north, 100.0), ShallowRay, 0) == None
  {
    var d := ShallowRay.z;
    assert d == 400.0 / 40001.0;
    assert 100.0 * (1.0 - 50.0 * d) > Epsilon;
    FlatShallowRayTimesOut(FlatHeights(0.0), Vec3(east, north, 100.0), ShallowRay, 0, 0.0);
  }

  /** `find_DEM_intersection` as a loop over the raster. The script runs
      it with `RowCol`, the lookup as written; `ColRow` is the corrected
      lookup. */
  method FindDemIntersection(dem: Dem, order: AxisOrder, east: real, north: real, up: real, vec: Vec3) returns (r: Option<Vec3>)
    ensures r == DemSearch(HeightsOf(dem, order), Vec3(east, north, up), vec, 0)
  {
    var heights := HeightsOf(dem, order);
    var p := Vec3(east, north, up);
    var count: nat := 0;
    while true
      invariant count <= MaxSteps
      invariant DemSearch(heights, p, vec, count) == DemSearch(heights, Vec3(east, north, up), vec, 0)
      decreases MaxSteps - count
    {
      var alt := Altitude(dem, order, p.x, p.y);
      assert alt == heights(p.x, p.y);
      if alt.None? {
        return None;
      }
      var gap := p.z - alt.value;
      if Abs(gap) <= Epsilon {
        return Some(p);
      }
      // `vec = gap * vec_flat_norm`, then each coordinate moves back by it.
      p := Sub(p, Scale(gap, vec));
      count := count + 1;
      if count > MaxSteps {
        return None;
      }
    }
  }

  /** The transposed lookup changes what the search finds: on the raster
      `[[10, 20]]` with the identity georeference, a ray starting at
      `(1, 0, 20)` starts on the terrain, yet the script's search falls off
      the raster at once. */
  lemma DemSearchAxesCounterexample(dir: Vec3)
    ensures var dem := Dem([[10.0, 20.0]], Affine(1.0, 0.0, 0.0, 0.0, 1.0, 0.0));
            && DemSearch(HeightsOf(dem, ColRow), Vec3(1.0, 0.0, 20.0), dir, 0) == Some(Vec3(1.0, 0.0, 20.0))
            && DemSearch(HeightsOf(dem, RowCol), Vec3(1.0, 0.0, 20.0), dir, 0) == None
  {
    var dem := Dem([[10.0, 20.0]], Affine(1.0, 0.0, 0.0, 0.0, 1.0, 0.0));
    DemAxesCounterexample();
    StartAtHeight(dem, ColRow, Vec3(1.0, 0.0, 20.0), dir);
    AsWrittenStartOffRaster(dem, dir);
  }

  /** The as-written half of the counterexample. */
  lemma AsWrittenStartOffRaster(dem: Dem, dir: Vec3)
    requires DemAltitudeAsWritten(dem, 1.0, 0.0) == None
    ensures DemSearch(HeightsOf(dem, RowCol), Vec3(1.0, 0.0, 20.0), dir, 0) == None
  {
    StartOffRaster(dem, RowCol, Vec3(1.0, 0.0, 20.0), dir);
  }

  /** A start exactly at the terrain height is found at once. */
  lemma StartAtHeight(dem: Dem, order: AxisOrder, p: Vec3, dir: Vec3)
    requires Altitude(dem, order, p.x, p.y) == Some(p.z)
    ensures DemSearch(HeightsOf(dem, order), p, dir, 0) == Some(p)
  {
    DemSearchStartOnTerrain(HeightsOf(dem, order), p, dir);
  }

  /** A start off the raster is not found. */
  lemma StartOffRaster(dem: Dem, order: AxisOrder, p: Vec3, dir: Vec3)
    requires Altitude(dem, order, p.x, p.y) == None
    ensures DemSearch(HeightsOf(dem, order), p, dir, 0) == None
  {
    DemSearchOffRaster(HeightsOf(dem, order), p, dir);
  }
}
