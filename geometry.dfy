/**
 * Image-plane geometry of the reprojection grid: integer pixels, the
 * camera's in-frame test and the partition of the image into square cells.
 */
module Geometry {

  /** A projected pixel after the cast to integer coordinates. */
  datatype Pixel = Pixel(x: int, y: int)

  /** A landmark's 3-D position; only ever handed to the camera projection. */
  datatype Vec3 = Vec3(x: real, y: real, z: real)

  /** Half the matcher's patch size: a candidate must keep this far from the border. */
  const PatchMargin: int := 8

  /**
   * The fixed shape of the grid: cell size in pixels, column and row counts,
   * and the resolution of the camera the grid was built for.
   */
  datatype GridDims = GridDims(cellSize: nat, nCols: nat, nRows: nat, width: nat, height: nat)

  /** Integer ceiling of n / d. */
  function CeilDiv(n: nat, d: nat): (r: nat)
    requires d > 0
    ensures r * d >= n
    ensures r > 0 ==> (r - 1) * d < n
  {
    var q := (n + d - 1) / d;
    assert q * d <= n + d - 1 < q * d + d;
    q
  }

  /** The grid has ceil(width / cellSize) columns and ceil(height / cellSize) rows. */
  predicate Sized(g: GridDims) {
    g.cellSize > 0 &&
    g.nCols == CeilDiv(g.width, g.cellSize) &&
    g.nRows == CeilDiv(g.height, g.cellSize)
  }

  /** Number of cells of a grid. */
  function CellCount(g: GridDims): nat {
    g.nCols * g.nRows
  }

  /**
   * The camera's in-frame test on an integer pixel: at least `margin` pixels
   * away from every border of a width x height image.
   */
  predicate InFrame(px: Pixel, margin: int, width: nat, height: nat) {
    margin <= px.x < width - margin && margin <= px.y < height - margin
  }

  /**
   * Row-major cell index of a pixel. The source truncates px / cellSize toward
   * zero; for the non-negative coordinates the in-frame test admits, that is
   * the Euclidean quotient used here.
   */
  function CellIndex(px: Pixel, g: GridDims): int
    requires g.cellSize > 0
  {
    (px.y / g.cellSize) * g.nCols + px.x / g.cellSize
  }

  /** Multiplying by a non-negative factor preserves <=. */
  lemma MulMonotone(a: int, b: int, c: nat)
    requires a <= b
    ensures a * c <= b * c
  {
  }

  /** A coordinate inside [0, extent) falls into one of the ceil(extent / cs) bands. */
  lemma {:induction false} BandInRange(v: int, extent: nat, cs: nat)
    requires cs > 0 && 0 <= v < extent
    ensures 0 <= v / cs < CeilDiv(extent, cs)
  {
    var n := CeilDiv(extent, cs);
    var q := v / cs;
    assert q * cs <= v < n * cs;
    if q >= n {
      MulMonotone(n, q, cs);
      assert false;
    }
  }

  /** For 0 <= col < n, row * n + col lies in row `row`, column `col`. */
  lemma {:induction false} RowMajorSplit(row: int, col: int, n: nat)
    requires 0 <= row && 0 <= col < n
    ensures (row * n + col) / n == row
    ensures (row * n + col) % n == col
  {
    var k := row * n + col;
    var q, r := k / n, k % n;
    assert k == q * n + r;
    assert (q - row) * n == col - r;
    if q > row {
      MulMonotone(1, q - row, n);
      assert false;
    }
    if q < row {
      MulMonotone(1, row - q, n);
      assert false;
    }
  }

  /**
   * Every pixel the in-frame test accepts (with any non-negative margin) maps
   * to an existing cell, so the bounds-checked cell access never fails.
   */
  lemma {:induction false} CellIndexInRange(px: Pixel, margin: int, g: GridDims)
    requires Sized(g) && margin >= 0
    requires InFrame(px, margin, g.width, g.height)
    ensures 0 <= CellIndex(px, g) < CellCount(g)
  {
    var cs := g.cellSize;
    BandInRange(px.x, g.width, cs);
    BandInRange(px.y, g.height, cs);
    var row, col := px.y / cs, px.x / cs;
    MulMonotone(row, g.nRows - 1, g.nCols);
    assert (g.nRows - 1) * g.nCols + g.nCols == g.nRows * g.nCols;
  }

  /** The cell index of an in-frame pixel determines its row and column band. */
  lemma {:induction false} CellIndexCoordinates(px: Pixel, margin: int, g: GridDims)
    requires Sized(g) && margin >= 0
    requires InFrame(px, margin, g.width, g.height)
    ensures g.nCols > 0
    ensures CellIndex(px, g) / g.nCols == px.y / g.cellSize
    ensures CellIndex(px, g) % g.nCols == px.x / g.cellSize
  {
    BandInRange(px.x, g.width, g.cellSize);
    BandInRange(px.y, g.height, g.cellSize);
    RowMajorSplit(px.y / g.cellSize, px.x / g.cellSize, g.nCols);
  }

  /**
   * Two in-frame pixels share a cell exactly when they share both the column
   * band floor(x / cellSize) and the row band floor(y / cellSize).
   */
  lemma {:induction false} SameCellIff(p: Pixel, q: Pixel, margin: int, g: GridDims)
    requires Sized(g) && margin >= 0
    requires InFrame(p, margin, g.width, g.height) && InFrame(q, margin, g.width, g.height)
    ensures CellIndex(p, g) == CellIndex(q, g) <==>
            (p.x / g.cellSize == q.x / g.cellSize && p.y / g.cellSize == q.y / g.cellSize)
  {
    CellIndexCoordinates(p, margin, g);
    CellIndexCoordinates(q, margin, g);
  }

  /** A 640 x 480 camera with 32-pixel cells has a 20 x 15 grid; pixel (100, 50) is cell 23. */
  lemma VgaGridExample()
    ensures Sized(GridDims(32, 20, 15, 640, 480))
    ensures CellCount(GridDims(32, 20, 15, 640, 480)) == 300
    ensures CellIndex(Pixel(100, 50), GridDims(32, 20, 15, 640, 480)) == 23
  {
    assert CeilDiv(640, 32) == 20;
    assert CeilDiv(480, 32) == 15;
  }
}
