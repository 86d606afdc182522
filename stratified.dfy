/**
 * The stratified sampler (src/samplers/stratified.rs) together with the
 * parts of the rectangle (src/math/rectangle.rs) and the rasterizer
 * (src/math/rasterizer2d.rs) it relies on.
 *
 * The sampler splits a rectangle into `horizontal` columns and `vertical`
 * rows of cells and yields the centre of every cell, row by row and, within
 * a row, column by column.
 */
module Samplers {
  import opened Wrappers
  import opened Geometry

  /** `Rectangle<2>`: an origin and two axes spanning the rectangle. */
  datatype Rectangle2 = Rectangle2(origin: Point2, xAxis: Vector2, yAxis: Vector2)
  {
    /** `from_relative`: the point at relative coordinates `p` (0..1 on each axis). */
    function FromRelative(p: Point2): Point2
    {
      origin.Plus(xAxis.Scale(p.x)).Plus(yAxis.Scale(p.y))
    }

    /** `center`. */
    function Center(): Point2
    {
      FromRelative(Point2(0.5, 0.5))
    }
  }

  /** `Rasterizer2D`: a rectangle divided into `width` by `height` cells. */
  datatype Rasterizer2D = Rasterizer2D(rectangle: Rectangle2, width: nat, height: nat)
  {
    /**
     * `at`: the cell in column `col` and row `row`; the source's debug
     * assertions demand that the position lie inside the grid.
     */
    function At(col: nat, row: nat): Rectangle2
      requires col < width && row < height
    {
      var xAxis := rectangle.xAxis.Scale(1.0 / width as real);
      var yAxis := rectangle.yAxis.Scale(1.0 / height as real);
      Rectangle2(rectangle.origin.Plus(xAxis.Scale(col as real)).Plus(yAxis.Scale(row as real)), xAxis, yAxis)
    }
  }

  /** Scaling a coordinate by a cell's fraction of an axis. */
  lemma CellCoordinate(o: real, a: real, b: real, w: real, h: real, col: real, row: real, px: real, py: real)
    requires w > 0.0 && h > 0.0
    ensures o + a * (1.0 / w) * col + b * (1.0 / h) * row + a * (1.0 / w) * px + b * (1.0 / h) * py
         == o + a * ((col + px) / w) + b * ((row + py) / h)
  {
    assert a * (1.0 / w) * col + a * (1.0 / w) * px == a * ((col + px) / w);
    assert b * (1.0 / h) * row + b * (1.0 / h) * py == b * ((row + py) / h);
  }

  /**
   * The cells tile the rectangle: relative coordinates `p` in cell
   * (`col`, `row`) are the relative coordinates ((col + p.x) / width,
   * (row + p.y) / height) in the whole rectangle.
   */
  lemma CellFromRelative(rasterizer: Rasterizer2D, col: nat, row: nat, p: Point2)
    requires col < rasterizer.width && row < rasterizer.height
    ensures rasterizer.At(col, row).FromRelative(p)
         == rasterizer.rectangle.FromRelative(
              Point2((col as real + p.x) / rasterizer.width as real, (row as real + p.y) / rasterizer.height as real))
  {
    var r := rasterizer.rectangle;
    var w, h := rasterizer.width as real, rasterizer.height as real;
    CellCoordinate(r.origin.x, r.xAxis.x, r.yAxis.x, w, h, col as real, row as real, p.x, p.y);
    CellCoordinate(r.origin.y, r.xAxis.y, r.yAxis.y, w, h, col as real, row as real, p.x, p.y);
  }

  /** `StratifiedSampler2D`: the number of columns and rows of cells. */
  datatype StratifiedSampler2D = StratifiedSampler2D(horizontal: nat, vertical: nat)

  /** The centre of the cell in column `col` and row `row`. */
  function CellCenter(rasterizer: Rasterizer2D, col: nat, row: nat): Point2
    requires col < rasterizer.width && row < rasterizer.height
  {
    rasterizer.At(col, row).Center()
  }

  /** Multiplying by a positive number keeps the sign and grows the magnitude. */
  lemma ProductSign(e: int, n: int)
    requires n > 0
    ensures e >= 0 ==> e * n >= 0
    ensures e >= 1 ==> e * n >= n
    ensures e <= -1 ==> e * n <= -n
  {
  }

  /** The row-major index of a cell determines its column and row. */
  lemma RowMajor(ncols: nat, row: nat, col: nat)
    requires col < ncols
    ensures (row * ncols + col) % ncols == col && (row * ncols + col) / ncols == row
  {
    var k := row * ncols + col;
    var q, m := k / ncols, k % ncols;
    assert (q - row) * ncols == col - m;
    ProductSign(q - row, ncols);
  }

  /** A cell's row-major index lies within the grid. */
  lemma RowMajorBound(ncols: nat, nrows: nat, row: nat, col: nat)
    requires row < nrows && col < ncols
    ensures row * ncols + col < nrows * ncols
  {
    assert row * ncols + col < (row + 1) * ncols;
    assert (row + 1) * ncols <= nrows * ncols;
  }

  /** The cell after (`col`, `row`) in row-major order has the next index. */
  lemma NextCell(ncols: nat, nrows: nat, row: nat, col: nat)
    requires row < nrows && col < ncols
    ensures col + 1 < ncols ==> row * ncols + col + 1 < nrows * ncols
    ensures col + 1 == ncols ==> (row + 1) * ncols == row * ncols + col + 1
    ensures col + 1 == ncols && row + 1 < nrows ==> (row + 1) * ncols < nrows * ncols
    ensures col + 1 == ncols && row + 1 == nrows ==> row * ncols + col + 1 == nrows * ncols
  {
    RowMajorBound(ncols, nrows, row, col);
    assert (row + 1) * ncols == row * ncols + ncols;
    if row + 1 < nrows {
      RowMajorBound(ncols, nrows, row + 1, 0);
    }
  }

  /** The samples, in the order the sampler yields them: the cell centres in row-major order. */
  function Samples(sampler: StratifiedSampler2D, rectangle: Rectangle2): (s: seq<Point2>)
    ensures |s| == sampler.horizontal * sampler.vertical
  {
    var rasterizer := Rasterizer2D(rectangle, sampler.horizontal, sampler.vertical);
    seq(sampler.horizontal * sampler.vertical, k requires 0 <= k < sampler.horizontal * sampler.vertical =>
      CellAt(rasterizer, k))
  }

  /** The centre of the cell with row-major index `k`. */
  function CellAt(rasterizer: Rasterizer2D, k: nat): Point2
    requires k < rasterizer.width * rasterizer.height
  {
    RowMajorIndex(rasterizer.width, rasterizer.height, k);
    CellCenter(rasterizer, k % rasterizer.width, k / rasterizer.width)
  }

  /** An index into the grid names a cell inside it. */
  lemma RowMajorIndex(ncols: nat, nrows: nat, k: nat)
    requires k < ncols * nrows
    ensures ncols > 0 && k % ncols < ncols && k / ncols < nrows
  {
    assert ncols > 0;
    var q := k / ncols;
    assert (q - nrows) * ncols < 0;
    ProductSign(q - nrows, ncols);
  }

  /** `SampleIterator`: the next cell to sample, by row and column. */
  class SampleIterator {
    const rasterizer: Rasterizer2D
    const nrows: nat
    const ncols: nat
    var row: nat
    var col: nat

    /**
     * The iterator stays inside the grid; once every row is done it stays
     * at column 0 of the row past the last.
     */
    ghost predicate Valid()
      reads this
    {
      && rasterizer.width == ncols && rasterizer.height == nrows
      && row <= nrows
      && (row < nrows ==> col < ncols)
      && (row == nrows ==> col == 0)
    }

    /** The row-major index of the next cell. */
    ghost function Index(): nat
      reads this
    {
      row * ncols + col
    }

    /** The samples still to come. */
    ghost function Remaining(): seq<Point2>
      requires Valid()
      reads this
    {
      var all := Samples(StratifiedSampler2D(ncols, nrows), rasterizer.rectangle);
      if row == nrows then []
      else
        RowMajorBound(ncols, nrows, row, col);
        all[Index()..]
    }

    constructor (rasterizer: Rasterizer2D, nrows: nat, ncols: nat)
      requires rasterizer.width == ncols && rasterizer.height == nrows
      requires ncols > 0 || nrows == 0
      ensures Valid() && row == 0 && col == 0
      ensures this.rasterizer == rasterizer && this.nrows == nrows && this.ncols == ncols
    {
      this.rasterizer := rasterizer;
      this.nrows := nrows;
      this.ncols := ncols;
      row := 0;
      col := 0;
    }

    /**
     * `next`: none once every row is done; otherwise the centre of the
     * current cell, moving to the next column, or to the start of the next
     * row after the last column.
     */
    method Next() returns (sample: Option<Point2>)
      requires Valid()
      modifies this
      ensures Valid()
      ensures old(row) == nrows ==> sample.None? && row == old(row) && col == old(col)
      ensures old(row) < nrows ==> sample == Some(CellCenter(rasterizer, old(col), old(row)))
      ensures old(row) < nrows && old(col) + 1 == ncols ==> row == old(row) + 1 && col == 0
      ensures old(row) < nrows && old(col) + 1 < ncols ==> row == old(row) && col == old(col) + 1
      ensures sample.None? <==> old(Remaining()) == []
      ensures sample.None? ==> Remaining() == []
      ensures sample.Some? ==> sample.value == old(Remaining())[0] && Remaining() == old(Remaining())[1..]
    {
      if row == nrows {
        sample := None;
      } else {
        ghost var all := Samples(StratifiedSampler2D(ncols, nrows), rasterizer.rectangle);
        ghost var index := Index();
        SampleAt(StratifiedSampler2D(ncols, nrows), rasterizer.rectangle, col, row);
        NextCell(ncols, nrows, row, col);
        assert all[index..][1..] == all[index + 1..];
        sample := Some(rasterizer.At(col, row).Center());
        col := col + 1;
        if col == ncols {
          col := 0;
          row := row + 1;
        }
      }
    }
  }

  /**
   * `sample`: an iterator over the cells of `rectangle`, starting at the
   * first cell.  With no columns the source's rasterizer rejects the first
   * position, so a sampler with rows needs columns.
   */
  method Sample(sampler: StratifiedSampler2D, rectangle: Rectangle2) returns (iter: SampleIterator)
    requires sampler.horizontal > 0 || sampler.vertical == 0
    ensures fresh(iter) && iter.Valid()
    ensures iter.Remaining() == Samples(sampler, rectangle)
    ensures iter.nrows == sampler.vertical && iter.ncols == sampler.horizontal
  {
    var rasterizer := Rasterizer2D(rectangle, sampler.horizontal, sampler.vertical);
    iter := new SampleIterator(rasterizer, sampler.vertical, sampler.horizontal);
  }

  /** Collecting the iterator `sample` returns yields exactly the cell centres, in row-major order. */
  method Collect(sampler: StratifiedSampler2D, rectangle: Rectangle2) returns (samples: seq<Point2>)
    requires sampler.horizontal > 0 || sampler.vertical == 0
    ensures samples == Samples(sampler, rectangle)
  {
    var iter := Sample(sampler, rectangle);
    ghost var all := iter.Remaining();
    samples := [];
    var next := iter.Next();
    ghost var rest := iter.Remaining();
    while next.Some?
      invariant iter.Valid() && rest == iter.Remaining()
      invariant next.Some? ==> samples + [next.value] + rest == all
      invariant next.None? ==> samples == all
      decreases |rest| + (if next.Some? then 1 else 0)
    {
      MoveOne(samples, next.value, rest, all);
      samples := samples + [next.value];
      next := iter.Next();
      rest := iter.Remaining();
    }
  }

  /** Taking the pending sample moves it from the samples to come to the collected ones. */
  lemma MoveOne<T>(collected: seq<T>, pending: T, rest: seq<T>, all: seq<T>)
    requires collected + [pending] + rest == all
    ensures rest == [] ==> collected + [pending] == all
    ensures rest != [] ==> (collected + [pending]) + [rest[0]] + rest[1..] == all
  {
    if rest != [] {
      assert rest == [rest[0]] + rest[1..];
    }
  }

  // ---------------------------------------------------------------------
  // Properties

  /** Sample number `row * horizontal + col` is the centre of cell (`col`, `row`). */
  lemma SampleAt(sampler: StratifiedSampler2D, rectangle: Rectangle2, col: nat, row: nat)
    requires col < sampler.horizontal && row < sampler.vertical
    ensures row * sampler.horizontal + col < |Samples(sampler, rectangle)|
    ensures Samples(sampler, rectangle)[row * sampler.horizontal + col]
         == CellCenter(Rasterizer2D(rectangle, sampler.horizontal, sampler.vertical), col, row)
  {
    RowMajorBound(sampler.horizontal, sampler.vertical, row, col);
    RowMajor(sampler.horizontal, row, col);
  }

  /**
   * Every cell is sampled at its centre: sample number
   * `row * horizontal + col` is the centre of cell (`col`, `row`), which is
   * the point at relative coordinates ((col + 0.5) / horizontal,
   * (row + 0.5) / vertical) of the rectangle.
   */
  lemma SampleOfCell(sampler: StratifiedSampler2D, rectangle: Rectangle2, col: nat, row: nat)
    requires col < sampler.horizontal && row < sampler.vertical
    ensures row * sampler.horizontal + col < |Samples(sampler, rectangle)|
    ensures Samples(sampler, rectangle)[row * sampler.horizontal + col]
         == rectangle.FromRelative(
              Point2((col as real + 0.5) / sampler.horizontal as real, (row as real + 0.5) / sampler.vertical as real))
  {
    SampleAt(sampler, rectangle, col, row);
    CellFromRelative(Rasterizer2D(rectangle, sampler.horizontal, sampler.vertical), col, row, Point2(0.5, 0.5));
  }

  /** A rectangle with axes along the coordinate axes scales each relative coordinate separately. */
  lemma AxisAligned(rectangle: Rectangle2, p: Point2)
    requires rectangle.xAxis.y == 0.0 && rectangle.yAxis.x == 0.0
    ensures rectangle.FromRelative(p)
         == Point2(rectangle.origin.x + rectangle.xAxis.x * p.x, rectangle.origin.y + rectangle.yAxis.y * p.y)
  {
    assert rectangle.xAxis.y * p.x == 0.0;
    assert rectangle.yAxis.x * p.y == 0.0;
  }

  /**
   * sampling5: two columns and three rows over the 4 by 6 rectangle at
   * (1, 0) yield six samples, the one for cell (`col`, `row`) at
   * (2 + 2 col, 1 + 2 row) in position `row * 2 + col`: (2, 1), (4, 1),
   * (2, 3), (4, 3), (2, 5), (4, 5).
   */
  lemma Sampling5(sampler: StratifiedSampler2D, rectangle: Rectangle2, col: nat, row: nat)
    requires sampler == StratifiedSampler2D(2, 3)
    requires rectangle == Rectangle2(Point2(1.0, 0.0), Vector2(4.0, 0.0), Vector2(0.0, 6.0))
    requires col < 2 && row < 3
    ensures |Samples(sampler, rectangle)| == 6
    ensures Samples(sampler, rectangle)[row * 2 + col] == Point2(2.0 + 2.0 * col as real, 1.0 + 2.0 * row as real)
  {
    var q := Point2((col as real + 0.5) / sampler.horizontal as real, (row as real + 0.5) / sampler.vertical as real);
    var p := Point2((col as real + 0.5) / 2.0, (row as real + 0.5) / 3.0);
    assert q == p;
    AxisAligned(rectangle, p);
    assert rectangle.FromRelative(q) == Point2(2.0 + 2.0 * col as real, 1.0 + 2.0 * row as real);
    SampleOfCell(sampler, rectangle, col, row);
    assert row * sampler.horizontal + col == row * 2 + col;
  }
}
