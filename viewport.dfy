/** The client's viewport helpers that need no trigonometry: the chunk grid over
    the visible box, the inclusive bounds test, panning by a latitude/longitude
    delta, and scaling normalized points to a canvas shape. Points are
    [latitude, longitude] pairs. */
module Viewport {

  datatype LatLon = LatLon(lat: real, lon: real)

  /** One cell of the grid: its two corners and its center. */
  datatype GridChunk = GridChunk(leftTop: LatLon, rightBottom: LatLon, center: LatLon)

  /** The k-th of the n + 1 equally spaced lines from a to b: k steps of
      (b - a) / n from a. */
  function GridLine(a: real, b: real, n: nat, k: nat): real
    requires n > 0
  {
    a + (k as real) * ((b - a) / (n as real))
  }

  function Midpoint(p: LatLon, q: LatLon): LatLon
  {
    LatLon((p.lat + q.lat) / 2.0, (p.lon + q.lon) / 2.0)
  }

  /** Cell (i, j) of an n-by-n grid over the box: row i runs along latitude,
      column j along longitude, the corners are grid lines i, i + 1 and j, j + 1,
      and the center is the midpoint of the corners. */
  function ChunkAt(leftTop: LatLon, rightBottom: LatLon, n: nat, i: nat, j: nat): GridChunk
    requires n > 0
  {
    var lt := LatLon(GridLine(leftTop.lat, rightBottom.lat, n, i), GridLine(leftTop.lon, rightBottom.lon, n, j));
    var rb := LatLon(GridLine(leftTop.lat, rightBottom.lat, n, i + 1), GridLine(leftTop.lon, rightBottom.lon, n, j + 1));
    GridChunk(lt, rb, Midpoint(lt, rb))
  }

  /** The first j cells of row i. */
  function RowCells(leftTop: LatLon, rightBottom: LatLon, n: nat, i: nat, j: nat): seq<GridChunk>
    requires n > 0
  {
    seq(j, b requires 0 <= b < j => ChunkAt(leftTop, rightBottom, n, i, b))
  }

  /** The first i rows of the grid, one after another. */
  function GridRows(leftTop: LatLon, rightBottom: LatLon, n: nat, i: nat): seq<GridChunk>
    requires n > 0
  {
    if i == 0 then [] else GridRows(leftTop, rightBottom, n, i - 1) + RowCells(leftTop, rightBottom, n, i - 1, n)
  }

  /** One step of (b - a) / n past grid line k is grid line k + 1. */
  lemma GridStep(a: real, b: real, n: nat, k: nat)
    requires n > 0
    ensures GridLine(a, b, n, k) + (b - a) / (n as real) == GridLine(a, b, n, k + 1)
  {
    var d := (b - a) / (n as real);
    assert ((k + 1) as real) * d == (k as real) * d + d;
  }

  /** Grid line 0 is a and grid line n is b. */
  lemma GridLineEnds(a: real, b: real, n: nat)
    requires n > 0
    ensures GridLine(a, b, n, 0) == a
    ensures GridLine(a, b, n, n) == b
  {
    assert (n as real) * ((b - a) / (n as real)) == b - a;
  }

  lemma RowCellsSnoc(leftTop: LatLon, rightBottom: LatLon, n: nat, i: nat, j: nat)
    requires n > 0
    ensures RowCells(leftTop, rightBottom, n, i, j + 1)
         == RowCells(leftTop, rightBottom, n, i, j) + [ChunkAt(leftTop, rightBottom, n, i, j)]
  {
  }

  /** The cell the loop body builds, by steps of the delta, is cell (i, j). */
  lemma CellIsChunk(leftTop: LatLon, rightBottom: LatLon, n: nat, i: nat, j: nat, cell: GridChunk)
    requires n > 0
    requires
      var latDelta := (rightBottom.lat - leftTop.lat) / (n as real);
      var lonDelta := (rightBottom.lon - leftTop.lon) / (n as real);
      var lt := LatLon(leftTop.lat + (i as real) * latDelta, leftTop.lon + (j as real) * lonDelta);
      var rb := LatLon(lt.lat + latDelta, lt.lon + lonDelta);
      cell == GridChunk(lt, rb, LatLon((lt.lat + rb.lat) / 2.0, (lt.lon + rb.lon) / 2.0))
    ensures cell == ChunkAt(leftTop, rightBottom, n, i, j)
  {
    GridStep(leftTop.lat, rightBottom.lat, n, i);
    GridStep(leftTop.lon, rightBottom.lon, n, j);
  }

  lemma AppendCell(leftTop: LatLon, rightBottom: LatLon, n: nat, i: nat, j: nat, chunks: seq<GridChunk>)
    requires n > 0
    requires chunks == GridRows(leftTop, rightBottom, n, i) + RowCells(leftTop, rightBottom, n, i, j)
    ensures chunks + [ChunkAt(leftTop, rightBottom, n, i, j)]
         == GridRows(leftTop, rightBottom, n, i) + RowCells(leftTop, rightBottom, n, i, j + 1)
  {
    RowCellsSnoc(leftTop, rightBottom, n, i, j);
    var rows, row := GridRows(leftTop, rightBottom, n, i), RowCells(leftTop, rightBottom, n, i, j);
    assert rows + row + [ChunkAt(leftTop, rightBottom, n, i, j)] == rows + (row + [ChunkAt(leftTop, rightBottom, n, i, j)]);
  }

  lemma NextRow(leftTop: LatLon, rightBottom: LatLon, n: nat, i: nat, chunks: seq<GridChunk>)
    requires n > 0
    requires chunks == GridRows(leftTop, rightBottom, n, i) + RowCells(leftTop, rightBottom, n, i, n)
    ensures chunks == GridRows(leftTop, rightBottom, n, i + 1)
  {
  }

  /** The grid `calculateChunkGrid` returns: no cell for n = 0, otherwise all n rows. */
  function Grid(leftTop: LatLon, rightBottom: LatLon, n: nat): seq<GridChunk>
  {
    if n == 0 then [] else GridRows(leftTop, rightBottom, n, n)
  }

  /** The first i rows hold i * n cells. */
  lemma {:induction false} GridRowsLength(leftTop: LatLon, rightBottom: LatLon, n: nat, i: nat)
    requires n > 0
    ensures |GridRows(leftTop, rightBottom, n, i)| == i * n
  {
    if i > 0 {
      GridRowsLength(leftTop, rightBottom, n, i - 1);
      assert (i - 1) * n + n == i * n;
    }
  }

  /** Within the first i rows, cell (a, b) is at index a * n + b. */
  lemma {:induction false} GridRowsAt(leftTop: LatLon, rightBottom: LatLon, n: nat, i: nat, a: nat, b: nat)
    requires n > 0 && a < i && b < n
    ensures a * n + b < |GridRows(leftTop, rightBottom, n, i)|
    ensures GridRows(leftTop, rightBottom, n, i)[a * n + b] == ChunkAt(leftTop, rightBottom, n, a, b)
  {
    var prefix := GridRows(leftTop, rightBottom, n, i - 1);
    var row := RowCells(leftTop, rightBottom, n, i - 1, n);
    GridRowsLength(leftTop, rightBottom, n, i - 1);
    assert GridRows(leftTop, rightBottom, n, i) == prefix + row;
    if a < i - 1 {
      GridRowsAt(leftTop, rightBottom, n, i - 1, a, b);
    } else {
      assert a * n == |prefix|;
      assert (prefix + row)[|prefix| + b] == row[b];
    }
  }

  /** The grid has n * n cells. */
  lemma GridLength(leftTop: LatLon, rightBottom: LatLon, n: nat)
    ensures |Grid(leftTop, rightBottom, n)| == n * n
  {
    if n > 0 {
      GridRowsLength(leftTop, rightBottom, n, n);
    }
  }

  /** Cell (i, j) of the grid is at index i * n + j: rows follow each other,
      and within a row the columns are in order. */
  lemma GridCell(leftTop: LatLon, rightBottom: LatLon, n: nat, i: nat, j: nat)
    requires i < n && j < n
    ensures i * n + j < |Grid(leftTop, rightBottom, n)|
    ensures Grid(leftTop, rightBottom, n)[i * n + j] == ChunkAt(leftTop, rightBottom, n, i, j)
  {
    GridRowsAt(leftTop, rightBottom, n, n, i, j);
  }

  /** `calculateChunkGrid`: the grid, built cell by cell, row by row (its
      layout is GridLength and GridCell). With n = 0 no cell is made and no delta is used. */
  method CalculateChunkGrid(center: LatLon, leftTop: LatLon, rightBottom: LatLon, chunksPerAxis: nat := 3)
    returns (chunks: seq<GridChunk>)
    ensures chunks == Grid(leftTop, rightBottom, chunksPerAxis)
  {
    var n := chunksPerAxis;
    chunks := [];
    if n == 0 {
      return;
    }
    var latDelta := (rightBottom.lat - leftTop.lat) / (n as real);
    var lonDelta := (rightBottom.lon - leftTop.lon) / (n as real);
    for i := 0 to n
      invariant chunks == GridRows(leftTop, rightBottom, n, i)
    {
      for j := 0 to n
        invariant chunks == GridRows(leftTop, rightBottom, n, i) + RowCells(leftTop, rightBottom, n, i, j)
      {
        var chunkLeftTop := LatLon(leftTop.lat + (i as real) * latDelta, leftTop.lon + (j as real) * lonDelta);
        var chunkRightBottom := LatLon(chunkLeftTop.lat + latDelta, chunkLeftTop.lon + lonDelta);
        var chunkCenter := LatLon((chunkLeftTop.lat + chunkRightBottom.lat) / 2.0,
                                  (chunkLeftTop.lon + chunkRightBottom.lon) / 2.0);
        var cell := GridChunk(chunkLeftTop, chunkRightBottom, chunkCenter);
        CellIsChunk(leftTop, rightBottom, n, i, j, cell);
        AppendCell(leftTop, rightBottom, n, i, j, chunks);
        chunks := chunks + [cell];
      }
      NextRow(leftTop, rightBottom, n, i, chunks);
    }
  }

  /** The grid starts at the box's left-top corner and ends at its right-bottom
      corner. */
  lemma GridSpansBox(leftTop: LatLon, rightBottom: LatLon, n: nat)
    requires n > 0
    ensures ChunkAt(leftTop, rightBottom, n, 0, 0).leftTop == leftTop
    ensures ChunkAt(leftTop, rightBottom, n, n - 1, n - 1).rightBottom == rightBottom
  {
    GridLineEnds(leftTop.lat, rightBottom.lat, n);
    GridLineEnds(leftTop.lon, rightBottom.lon, n);
  }

  /** Neighbouring cells share their edges, and the cells of a row (a column)
      share their top (left) edge. */
  lemma GridNeighbours(leftTop: LatLon, rightBottom: LatLon, n: nat, i: nat, j: nat)
    requires n > 0
    ensures ChunkAt(leftTop, rightBottom, n, i, j).rightBottom.lat == ChunkAt(leftTop, rightBottom, n, i + 1, j).leftTop.lat
    ensures ChunkAt(leftTop, rightBottom, n, i, j).rightBottom.lon == ChunkAt(leftTop, rightBottom, n, i, j + 1).leftTop.lon
    ensures ChunkAt(leftTop, rightBottom, n, i, j).leftTop.lat == ChunkAt(leftTop, rightBottom, n, i, 0).leftTop.lat
    ensures ChunkAt(leftTop, rightBottom, n, i, j).leftTop.lon == ChunkAt(leftTop, rightBottom, n, 0, j).leftTop.lon
  {
  }

  /** Every cell has the same extent: the box's extent divided by n. */
  lemma ChunkExtent(leftTop: LatLon, rightBottom: LatLon, n: nat, i: nat, j: nat)
    requires n > 0
    ensures var c := ChunkAt(leftTop, rightBottom, n, i, j);
      && c.rightBottom.lat - c.leftTop.lat == (rightBottom.lat - leftTop.lat) / (n as real)
      && c.rightBottom.lon - c.leftTop.lon == (rightBottom.lon - leftTop.lon) / (n as real)
  {
    GridStep(leftTop.lat, rightBottom.lat, n, i);
    GridStep(leftTop.lon, rightBottom.lon, n, j);
  }

  // ---------------------------------------------------------------------------
  // Bounds.

  /** `isPointInBounds`: inclusive on all four sides; only a box that is not
      inverted on either axis holds a point. */
  function IsPointInBounds(point: LatLon, leftTop: LatLon, rightBottom: LatLon): (inside: bool)
    ensures inside ==> leftTop.lat <= rightBottom.lat && leftTop.lon <= rightBottom.lon
  {
    && point.lat >= leftTop.lat && point.lat <= rightBottom.lat
    && point.lon >= leftTop.lon && point.lon <= rightBottom.lon
  }

  /** Both corners of a box count as inside it exactly when the box is not
      inverted on either axis. */
  lemma CornersInBounds(leftTop: LatLon, rightBottom: LatLon)
    ensures IsPointInBounds(leftTop, leftTop, rightBottom)
      <==> leftTop.lat <= rightBottom.lat && leftTop.lon <= rightBottom.lon
    ensures IsPointInBounds(rightBottom, leftTop, rightBottom)
      <==> leftTop.lat <= rightBottom.lat && leftTop.lon <= rightBottom.lon
  {
  }

  /** A box inverted on either axis contains no point. */
  lemma InvertedBoxEmpty(point: LatLon, leftTop: LatLon, rightBottom: LatLon)
    requires leftTop.lat > rightBottom.lat || leftTop.lon > rightBottom.lon
    ensures !IsPointInBounds(point, leftTop, rightBottom)
  {
  }

  /** The corners a Viewport starts with. */
  const DefaultLeftTop: LatLon := LatLon(90.0, -180.0)
  const DefaultRightBottom: LatLon := LatLon(-90.0, 180.0)

  /** The default viewport is inverted in latitude, so no point is in its bounds. */
  lemma DefaultViewportEmpty(point: LatLon)
    ensures !IsPointInBounds(point, DefaultLeftTop, DefaultRightBottom)
  {
    InvertedBoxEmpty(point, DefaultLeftTop, DefaultRightBottom);
  }

  /** A product of non-negative reals is largest when its first factor is. */
  lemma ScaleBetween(k: real, n: real, d: real)
    requires 0.0 <= k <= n && d >= 0.0
    ensures 0.0 <= k * d <= n * d
  {
    assert (n - k) * d >= 0.0;
  }

  /** On a non-inverted axis every grid line lies between the box's edges. */
  lemma GridLineBetween(a: real, b: real, n: nat, k: nat)
    requires n > 0 && k <= n && a <= b
    ensures a <= GridLine(a, b, n, k) <= b
  {
    GridLineEnds(a, b, n);
    ScaleBetween(k as real, n as real, (b - a) / (n as real));
  }

  /** In a box that is not inverted, every cell, with its corners and center,
      lies inside the box, and the center lies inside its cell. */
  lemma ChunksInsideBox(leftTop: LatLon, rightBottom: LatLon, n: nat, i: nat, j: nat)
    requires n > 0 && i < n && j < n
    requires leftTop.lat <= rightBottom.lat && leftTop.lon <= rightBottom.lon
    ensures var c := ChunkAt(leftTop, rightBottom, n, i, j);
      && IsPointInBounds(c.leftTop, leftTop, rightBottom)
      && IsPointInBounds(c.rightBottom, leftTop, rightBottom)
      && IsPointInBounds(c.center, leftTop, rightBottom)
      && IsPointInBounds(c.center, c.leftTop, c.rightBottom)
  {
    GridLineBetween(leftTop.lat, rightBottom.lat, n, i);
    GridLineBetween(leftTop.lat, rightBottom.lat, n, i + 1);
    GridLineBetween(leftTop.lon, rightBottom.lon, n, j);
    GridLineBetween(leftTop.lon, rightBottom.lon, n, j + 1);
    GridLineMonotone(leftTop.lat, rightBottom.lat, n, i);
    GridLineMonotone(leftTop.lon, rightBottom.lon, n, j);
  }

  lemma GridLineMonotone(a: real, b: real, n: nat, k: nat)
    requires n > 0 && a <= b
    ensures GridLine(a, b, n, k) <= GridLine(a, b, n, k + 1)
  {
    GridStep(a, b, n, k);
  }

  /** Some cell from row or column k onwards holds x, given that x is past the
      k-th grid line and not past the box's far edge. */
  lemma {:induction false} GridCellFrom(a: real, b: real, n: nat, k: nat, x: real)
    requires n > 0 && k < n && GridLine(a, b, n, k) <= x <= b
    ensures exists m :: k <= m < n && GridLine(a, b, n, m) <= x <= GridLine(a, b, n, m + 1)
    decreases n - k
  {
    GridLineEnds(a, b, n);
    if x > GridLine(a, b, n, k + 1) {
      GridCellFrom(a, b, n, k + 1, x);
    }
  }

  /** On one axis, every x between a and b lies between two neighbouring grid lines. */
  lemma AxisCell(a: real, b: real, n: nat, x: real)
    requires n > 0 && a <= x <= b
    ensures exists m :: 0 <= m < n && GridLine(a, b, n, m) <= x <= GridLine(a, b, n, m + 1)
  {
    GridLineEnds(a, b, n);
    GridCellFrom(a, b, n, 0, x);
  }

  /** The cells cover the box: every point in bounds of a box is in bounds of
      some cell of its grid. */
  lemma GridCoversBox(point: LatLon, leftTop: LatLon, rightBottom: LatLon, n: nat)
    requires n > 0 && IsPointInBounds(point, leftTop, rightBottom)
    ensures exists i, j ::
      && 0 <= i < n && 0 <= j < n
      && IsPointInBounds(point, ChunkAt(leftTop, rightBottom, n, i, j).leftTop,
                                ChunkAt(leftTop, rightBottom, n, i, j).rightBottom)
  {
    AxisCell(leftTop.lat, rightBottom.lat, n, point.lat);
    AxisCell(leftTop.lon, rightBottom.lon, n, point.lon);
    var i :| 0 <= i < n && GridLine(leftTop.lat, rightBottom.lat, n, i) <= point.lat
                        <= GridLine(leftTop.lat, rightBottom.lat, n, i + 1);
    var j :| 0 <= j < n && GridLine(leftTop.lon, rightBottom.lon, n, j) <= point.lon
                        <= GridLine(leftTop.lon, rightBottom.lon, n, j + 1);
    assert IsPointInBounds(point, ChunkAt(leftTop, rightBottom, n, i, j).leftTop,
                                  ChunkAt(leftTop, rightBottom, n, i, j).rightBottom);
  }

  // ---------------------------------------------------------------------------
  // Panning.

  /** `addLatLonDelta`: componentwise addition; the moved point differs from
      the original by exactly the delta on each axis. */
  function AddLatLonDelta(latlon: LatLon, dlatlon: LatLon): (moved: LatLon)
    ensures moved.lat - latlon.lat == dlatlon.lat && moved.lon - latlon.lon == dlatlon.lon
  {
    LatLon(latlon.lat + dlatlon.lat, latlon.lon + dlatlon.lon)
  }

  function Negate(d: LatLon): LatLon
  {
    LatLon(-d.lat, -d.lon)
  }

  /** Moving both corners by the same delta, as a drag does, keeps the box's
      extent. */
  lemma PanKeepsSpan(leftTop: LatLon, rightBottom: LatLon, d: LatLon)
    ensures AddLatLonDelta(rightBottom, d).lat - AddLatLonDelta(leftTop, d).lat == rightBottom.lat - leftTop.lat
    ensures AddLatLonDelta(rightBottom, d).lon - AddLatLonDelta(leftTop, d).lon == rightBottom.lon - leftTop.lon
  {
  }

  /** A drag and the opposite drag cancel, and two drags add up to one. */
  lemma PanInverse(p: LatLon, d: LatLon, e: LatLon)
    ensures AddLatLonDelta(AddLatLonDelta(p, d), Negate(d)) == p
    ensures AddLatLonDelta(AddLatLonDelta(p, d), e) == AddLatLonDelta(p, AddLatLonDelta(d, e))
  {
  }

  /** Panning the box and the point together does not change whether the point
      is in bounds. */
  lemma PanKeepsBounds(point: LatLon, leftTop: LatLon, rightBottom: LatLon, d: LatLon)
    ensures IsPointInBounds(AddLatLonDelta(point, d), AddLatLonDelta(leftTop, d), AddLatLonDelta(rightBottom, d))
      <==> IsPointInBounds(point, leftTop, rightBottom)
  {
  }

  // ---------------------------------------------------------------------------
  // Scaling to a canvas.

  /** A point, or an array of point arrays nested to any depth. */
  datatype Coords = Position(x: real, y: real) | Nested(items: seq<Coords>)

  /** The canvas width and height. */
  datatype Shape = Shape(width: real, height: real)

  /** Whether two coordinate trees have the same nesting and lengths. */
  predicate SameStructure(a: Coords, b: Coords)
  {
    match a
    case Position(_, _) => b.Position?
    case Nested(items) =>
      b.Nested? && |b.items| == |items| &&
      forall k :: 0 <= k < |items| ==> SameStructure(items[k], b.items[k])
  }

  /** `resizeToShape`: every point scaled componentwise by the shape, the
      nesting kept. */
  function ResizeToShape(c: Coords, shape: Shape): (r: Coords)
    ensures SameStructure(c, r)
    ensures c.Position? ==> r == Position(c.x * shape.width, c.y * shape.height)
    ensures c.Nested? ==> forall k :: 0 <= k < |c.items| && c.items[k].Position? ==>
      r.items[k] == Position(c.items[k].x * shape.width, c.items[k].y * shape.height)
    decreases c
  {
    match c
    case Position(x, y) => Position(x * shape.width, y * shape.height)
    case Nested(items) =>
      Nested(seq(|items|, k requires 0 <= k < |items| => ResizeToShape(items[k], shape)))
  }

  /** Scaling by one shape and then another is scaling by their product. */
  lemma {:induction false} ResizeCompose(c: Coords, s: Shape, t: Shape)
    ensures ResizeToShape(ResizeToShape(c, s), t) == ResizeToShape(c, Shape(s.width * t.width, s.height * t.height))
    decreases c
  {
    match c
    case Position(x, y) =>
      assert x * s.width * t.width == x * (s.width * t.width);
      assert y * s.height * t.height == y * (s.height * t.height);
    case Nested(items) =>
      var lhs := ResizeToShape(ResizeToShape(c, s), t);
      var rhs := ResizeToShape(c, Shape(s.width * t.width, s.height * t.height));
      forall k | 0 <= k < |items|
        ensures lhs.items[k] == rhs.items[k]
      {
        ResizeCompose(items[k], s, t);
      }
      assert lhs.items == rhs.items;
  }

  /** Scaling by the unit shape changes nothing. */
  lemma {:induction false} ResizeIdentity(c: Coords)
    ensures ResizeToShape(c, Shape(1.0, 1.0)) == c
    decreases c
  {
    match c
    case Position(x, y) =>
    case Nested(items) =>
      var r := ResizeToShape(c, Shape(1.0, 1.0));
      forall k | 0 <= k < |items|
        ensures r.items[k] == items[k]
      {
        ResizeIdentity(items[k]);
      }
      assert r.items == items;
  }

  /** A canvas with no zero side can be scaled back: the reciprocal shape undoes
      the scaling. */
  lemma ResizeInverse(c: Coords, shape: Shape)
    requires shape.width != 0.0 && shape.height != 0.0
    ensures ResizeToShape(ResizeToShape(c, shape), Shape(1.0 / shape.width, 1.0 / shape.height)) == c
  {
    var back := Shape(1.0 / shape.width, 1.0 / shape.height);
    ResizeCompose(c, shape, back);
    assert shape.width * back.width == 1.0;
    assert shape.height * back.height == 1.0;
    ResizeIdentity(c);
  }
}
