/**
 * The picture every output mode renders: the viewport mapping from pixel
 * (x, y) to a point of the complex plane, the kernel value of each pixel,
 * and the two text layouts (ASCII art and plot data) of a sequence of rows.
 *
 * The viewport mapping is over `real`, an idealisation of the double
 * arithmetic `ll_x + x * fwidth / width` and `ur_y - y * fheight / height`.
 */
module Picture {
  import opened Kernel
  import opened Options
  import opened Text
  import opened Palette

  /** The pixel grid dimensions the writers accept. */
  predicate WellSized(cfg: Config) {
    cfg.width >= 0 && cfg.height >= 0
  }

  /** The complex point of pixel (x, y): row 0 is the top edge ur_y, x = 0 the left edge ll_x. */
  function PointAt(cfg: Config, x: int, y: int): Complex
    requires cfg.width > 0 && cfg.height > 0
  {
    var fwidth := cfg.urX - cfg.llX;
    var fheight := cfg.urY - cfg.llY;
    Complex(cfg.llX + (x as real) * fwidth / (cfg.width as real),
            cfg.urY - (y as real) * fheight / (cfg.height as real))
  }

  /** PointAt written the way the writers compute it, from the precomputed extents. */
  lemma PointAtPixel(cfg: Config, fwidth: real, fheight: real, x: int, y: int)
    requires cfg.width > 0 && cfg.height > 0
    requires fwidth == cfg.urX - cfg.llX && fheight == cfg.urY - cfg.llY
    ensures PointAt(cfg, x, y) == Complex(cfg.llX + (x as real) * fwidth / (cfg.width as real),
                                          cfg.urY - (y as real) * fheight / (cfg.height as real))
  {
  }

  /** Row 0 is the top edge, and row `height` (one past the last) is the bottom edge ll_y. */
  lemma ViewportEdges(cfg: Config)
    requires cfg.width > 0 && cfg.height > 0
    ensures PointAt(cfg, 0, 0) == Complex(cfg.llX, cfg.urY)
    ensures PointAt(cfg, 0, cfg.height).im == cfg.llY
    ensures cfg.llY < cfg.urY ==>
      forall y1, y2 :: 0 <= y1 < y2 ==> PointAt(cfg, 0, y2).im < PointAt(cfg, 0, y1).im
  {
    var fh := cfg.urY - cfg.llY;
    var h := cfg.height as real;
    assert (cfg.height as real) * fh / h == fh;
    if cfg.llY < cfg.urY {
      forall y1, y2 | 0 <= y1 < y2
        ensures PointAt(cfg, 0, y2).im < PointAt(cfg, 0, y1).im
      {
        assert (y1 as real) * fh < (y2 as real) * fh;
        DivideByPositive((y1 as real) * fh, (y2 as real) * fh, h);
      }
    }
  }

  lemma DivideByPositive(a: real, b: real, d: real)
    requires a < b && d > 0.0
    ensures a / d < b / d
  {
    assert b / d - a / d == (b - a) / d;
  }

  /** The kernel value of pixel (x, y). */
  function PixelValue(cfg: Config, x: int, y: int): (v: int)
    requires cfg.width > 0 && cfg.height > 0
    ensures cfg.maxIter >= 0 ==> 0 <= v <= cfg.maxIter
  {
    EscapeValue(PointAt(cfg, x, y), cfg.maxIter)
  }

  /** The writers' per-pixel step: map (x, y) into the viewport and run escape_time there. */
  method ComputePixel(cfg: Config, x: int, y: int) returns (iter: int)
    requires cfg.width > 0 && cfg.height > 0
    ensures iter == PixelValue(cfg, x, y)
    ensures cfg.maxIter >= 0 ==> 0 <= iter <= cfg.maxIter
  {
    var fwidth := cfg.urX - cfg.llX;
    var fheight := cfg.urY - cfg.llY;
    var re := cfg.llX + (x as real) * fwidth / (cfg.width as real);
    var imag := cfg.urY - (y as real) * fheight / (cfg.height as real);
    iter := EscapeTime(re, imag, cfg.maxIter);
    PointAtPixel(cfg, fwidth, fheight, x, y);
  }

  /** The values of row y, left to right. */
  function RowValues(cfg: Config, y: int): (row: seq<int>)
    requires cfg.width >= 0 && cfg.height > 0
    ensures |row| == cfg.width
  {
    seq(cfg.width, x requires 0 <= x < cfg.width => PixelValue(cfg, x, y))
  }

  /** The rows of the grid, top (y = 0) first. */
  function Rows(cfg: Config): (rows: seq<seq<int>>)
    requires WellSized(cfg)
    ensures |rows| == cfg.height
  {
    seq(cfg.height, y requires 0 <= y < cfg.height => RowValues(cfg, y))
  }

  /** Every value lies in [0, bound]. */
  ghost predicate RowsWithin(rows: seq<seq<int>>, bound: int) {
    forall k, x :: 0 <= k < |rows| && 0 <= x < |rows[k]| ==> 0 <= rows[k][x] <= bound
  }

  lemma RowsOfConfigWithin(cfg: Config)
    requires WellSized(cfg) && cfg.maxIter >= 0
    ensures RowsWithin(Rows(cfg), cfg.maxIter)
  {
  }

  /** One ASCII-art line: a palette character per value. */
  function AsciiRow(row: seq<int>, maxIter: int): (line: string)
    requires maxIter > 0 && forall x :: 0 <= x < |row| ==> 0 <= row[x] <= maxIter
    ensures |line| == |row|
  {
    seq(|row|, x requires 0 <= x < |row| => Cnt2Char(row[x], maxIter))
  }

  /** ASCII-art text of `rows`, one line per row, in the order given. */
  function AsciiText(rows: seq<seq<int>>, maxIter: int): string
    requires maxIter > 0 && RowsWithin(rows, maxIter)
  {
    Unlines(seq(|rows|, k requires 0 <= k < |rows| => AsciiRow(rows[k], maxIter)))
  }

  /**
   * Splitting ASCII-art text at its newlines gives back one line per row,
   * in order, each of exactly `|row|` palette characters.
   */
  lemma AsciiLayout(rows: seq<seq<int>>, maxIter: int)
    requires maxIter > 0 && RowsWithin(rows, maxIter)
    ensures var lines := SplitLines(AsciiText(rows, maxIter));
      && |lines| == |rows|
      && forall k :: 0 <= k < |rows| ==>
           |lines[k]| == |rows[k]| &&
           forall x :: 0 <= x < |rows[k]| ==> lines[k][x] == Cnt2Char(rows[k][x], maxIter)
  {
    var lines := seq(|rows|, k requires 0 <= k < |rows| => AsciiRow(rows[k], maxIter));
    forall k | 0 <= k < |rows|
      ensures '\n' !in lines[k]
    {
      assert '\n' !in Symbols;
    }
    UnlinesRoundTrip(lines);
  }

  /** Appending one line to the text of the first k rows. */
  lemma AsciiTextPrefix(rows: seq<seq<int>>, maxIter: int, k: nat)
    requires maxIter > 0 && RowsWithin(rows, maxIter) && k < |rows|
    ensures AsciiText(rows[..k + 1], maxIter) == AsciiText(rows[..k], maxIter) + AsciiRow(rows[k], maxIter) + "\n"
  {
    var before := seq(k, i requires 0 <= i < k => AsciiRow(rows[..k][i], maxIter));
    var after := seq(k + 1, i requires 0 <= i < k + 1 => AsciiRow(rows[..k + 1][i], maxIter));
    assert after == before + [AsciiRow(rows[k], maxIter)];
    UnlinesSnoc(before, AsciiRow(rows[k], maxIter));
  }

  /**
   * The rows the sequential plot-data writers emit: y = height down to 1.
   * Row y = height lies on the bottom edge ll_y, one row below the last
   * grid row; row y = 0, the top edge, is never emitted.
   */
  function SequentialPlotRows(cfg: Config): (rows: seq<seq<int>>)
    requires WellSized(cfg)
    ensures |rows| == cfg.height
  {
    seq(cfg.height, k requires 0 <= k < cfg.height => RowValues(cfg, cfg.height - k))
  }

  /** The rows of Rows(cfg) bottom first: the order the threaded writer emits. */
  function Reversed<T>(s: seq<T>): (r: seq<T>)
    ensures |r| == |s|
    ensures forall k :: 0 <= k < |s| ==> r[k] == s[|s| - 1 - k]
  {
    seq(|s|, k requires 0 <= k < |s| => s[|s| - 1 - k])
  }

  /**
   * The sequential plot data is the bottom-first picture shifted down by one
   * row: its line k + 1 is line k of the bottom-first grid rows, and its
   * first line is the row below the grid (y = height).
   */
  lemma SequentialPlotIsShifted(cfg: Config)
    requires WellSized(cfg) && cfg.height > 0
    ensures SequentialPlotRows(cfg)[0] == RowValues(cfg, cfg.height)
    ensures forall k :: 0 <= k < cfg.height - 1 ==> SequentialPlotRows(cfg)[k + 1] == Reversed(Rows(cfg))[k]
  {
  }
}
