/**
 * The threaded program: NUM_THREADS workers claim rows from one shared
 * cursor with atomic fetch-and-add, CHUNK_SIZE rows at a time, and write
 * the kernel value of every pixel of a claimed row into the flat result
 * grid at `y * width + x`; after all workers are joined, final_output
 * renders the grid through a row buffer.
 *
 * The cursor is a field of a run object rather than a process global, so
 * one model covers one run (the C global is never reset). Concurrency is
 * modelled sequentially: each step lets an arbitrarily chosen live worker
 * run one iteration of its loop (a fetch-and-add and, if it got a row
 * range, the computation of that range). Workers have no state of their
 * own besides the row they fetched, so they are indistinguishable: the
 * choice decides only which workers remain live, not what a turn does.
 */
module Parallel {
  import opened Kernel
  import opened Options
  import opened Text
  import opened Palette
  import opened Picture

  const NumThreads: nat := 9
  const ChunkSize: nat := 1

  function Min(a: int, b: int): int {
    if a < b then a else b
  }

  /**
   * The row range the k-th fetch of the cursor hands out:
   * [k * chunk, min(k * chunk + chunk, height)), empty once past the height.
   */
  function ClaimRange(k: nat, chunk: nat, height: int): (int, int)
    requires chunk >= 1
  {
    (k * chunk, Min(k * chunk + chunk, height))
  }

  lemma MulMonotone(a: int, b: int, c: int)
    requires a <= b && c >= 0
    ensures a * c <= b * c
  {
    assert b * c - a * c == (b - a) * c;
  }

  /** Ranges of different fetches never overlap: an earlier one ends before a later one starts. */
  lemma ClaimsDisjoint(j: nat, k: nat, chunk: nat, height: int)
    requires chunk >= 1 && j < k
    ensures ClaimRange(j, chunk, height).1 <= ClaimRange(k, chunk, height).0
  {
    MulMonotone(j + 1, k, chunk);
  }

  /** Row y lies in the range the k-th fetch hands out. */
  predicate InClaim(y: int, k: nat, chunk: nat, height: int)
    requires chunk >= 1
  {
    ClaimRange(k, chunk, height).0 <= y < ClaimRange(k, chunk, height).1
  }

  /** Row y lies in the range of one of the first n fetches. */
  predicate Covered(y: int, n: nat, chunk: nat, height: int)
    requires chunk >= 1
  {
    exists k: nat :: k < n && InClaim(y, k, chunk, height)
  }

  /** Every row below the height is claimed by exactly one fetch, the fetch y / chunk. */
  lemma ClaimsCover(y: int, chunk: nat, height: int)
    requires chunk >= 1 && 0 <= y < height
    ensures InClaim(y, y / chunk, chunk, height)
    ensures forall k: nat :: InClaim(y, k, chunk, height) ==> k == y / chunk
  {
    DivModUnique(y, chunk, y / chunk, y % chunk);
    forall k: nat | InClaim(y, k, chunk, height)
      ensures k == y / chunk
    {
      if k < y / chunk {
        ClaimsDisjoint(k, y / chunk, chunk, height);
      } else if k > y / chunk {
        ClaimsDisjoint(y / chunk, k, chunk, height);
      }
    }
  }

  /** Once n fetches have moved the cursor to or past the height, their ranges cover [0, height). */
  lemma ClaimsUpToCursorCover(n: nat, chunk: nat, height: int)
    requires chunk >= 1 && n * chunk >= height
    ensures forall y :: 0 <= y < height ==> Covered(y, n, chunk, height)
  {
    forall y | 0 <= y < height
      ensures Covered(y, n, chunk, height)
    {
      ClaimsCover(y, chunk, height);
      var k := y / chunk;
      if k >= n {
        MulMonotone(n, k, chunk);
      }
      assert k < n && InClaim(y, k, chunk, height);
    }
  }

  /** Euclidean division is determined by its quotient and remainder bounds. */
  lemma DivModUnique(a: int, w: int, q: int, r: int)
    requires w > 0 && 0 <= r < w && a == q * w + r
    ensures a / w == q && a % w == r
  {
    var q', r' := a / w, a % w;
    assert q' * w + r' == q * w + r;
    if q' > q {
      MulMonotone(q + 1, q', w);
    } else if q' < q {
      MulMonotone(q' + 1, q, w);
    }
  }

  /** The pixel index `y * width + x` lies inside the grid and names (x, y) alone. */
  lemma CellIndex(w: int, h: int, x: int, y: int)
    requires 0 <= x < w && 0 <= y < h
    ensures 0 <= y * w + x < w * h
    ensures (y * w + x) / w == y && (y * w + x) % w == x
  {
    MulMonotone(0, y, w);
    MulMonotone(y + 1, h, w);
    DivModUnique(y * w + x, w, y, x);
  }

  /** Row y of a flat grid occupies [y * width, y * width + width). */
  lemma RowSpan(w: int, h: int, y: int)
    requires w >= 0 && 0 <= y < h
    ensures 0 <= y * w && y * w + w <= w * h
  {
    MulMonotone(0, y, w);
    MulMonotone(y + 1, h, w);
  }

  /** What cell i of the result grid must hold: the value of pixel (i % width, i / width). */
  function CellValue(cfg: Config, i: int): int {
    if cfg.width > 0 && cfg.height > 0 then PixelValue(cfg, i % cfg.width, i / cfg.width) else 0
  }

  function GridRow(g: seq<int>, w: int, h: int, y: int): (row: seq<int>)
    requires w >= 0 && |g| == w * h && 0 <= y < h
    ensures |row| == w
  {
    RowSpan(w, h, y);
    g[y * w .. y * w + w]
  }

  /** The rows of a flat grid, top (y = 0) first. */
  function GridRows(g: seq<int>, w: int, h: int): (rows: seq<seq<int>>)
    requires w >= 0 && h >= 0 && |g| == w * h
    ensures |rows| == h
  {
    seq(h, y requires 0 <= y < h => GridRow(g, w, h, y))
  }

  /** Cell `y * width + x` of the grid is pixel (x, y). */
  lemma CellOfPixel(cfg: Config, x: int, y: int)
    requires 0 <= x < cfg.width && 0 <= y < cfg.height
    ensures 0 <= y * cfg.width + x < cfg.width * cfg.height
    ensures CellValue(cfg, y * cfg.width + x) == PixelValue(cfg, x, y)
  {
    CellIndex(cfg.width, cfg.height, x, y);
  }

  /** Element x of grid row y is the cell at `y * width + x`. */
  lemma GridRowElement(g: seq<int>, w: int, h: int, x: int, y: int)
    requires w >= 0 && |g| == w * h && 0 <= y < h && 0 <= x < w
    ensures 0 <= y * w + x < |g|
    ensures GridRow(g, w, h, y)[x] == g[y * w + x]
  {
    RowSpan(w, h, y);
  }

  lemma GridRowOfPixels(cfg: Config, g: seq<int>, y: int)
    requires WellSized(cfg) && |g| == cfg.width * cfg.height && 0 <= y < cfg.height
    requires forall i :: 0 <= i < |g| ==> g[i] == CellValue(cfg, i)
    ensures GridRow(g, cfg.width, cfg.height, y) == RowValues(cfg, y)
  {
    forall x | 0 <= x < cfg.width
      ensures GridRow(g, cfg.width, cfg.height, y)[x] == RowValues(cfg, y)[x]
    {
      GridRowElement(g, cfg.width, cfg.height, x, y);
      CellOfPixel(cfg, x, y);
    }
  }

  /** A grid holding every pixel's value reads back as the picture's rows. */
  lemma GridOfPixelsHasPictureRows(cfg: Config, g: seq<int>)
    requires WellSized(cfg) && |g| == cfg.width * cfg.height
    requires forall i :: 0 <= i < |g| ==> g[i] == CellValue(cfg, i)
    ensures GridRows(g, cfg.width, cfg.height) == Rows(cfg)
  {
    forall y | 0 <= y < cfg.height
      ensures GridRows(g, cfg.width, cfg.height)[y] == Rows(cfg)[y]
    {
      GridRowOfPixels(cfg, g, y);
    }
  }

  lemma GridWithin(g: seq<int>, w: int, h: int, bound: int)
    requires w >= 0 && h >= 0 && |g| == w * h
    requires forall i :: 0 <= i < |g| ==> 0 <= g[i] <= bound
    ensures RowsWithin(GridRows(g, w, h), bound)
  {
    forall y, x | 0 <= y < h && 0 <= x < w
      ensures 0 <= GridRows(g, w, h)[y][x] <= bound
    {
      GridRowElement(g, w, h, x, y);
    }
  }

  /** One run of the threaded program: the shared cursor and the result grid. */
  class Run {
    const cfg: Config
    /** result_buffer: the flat width x height grid of kernel values. */
    const grid: array<int>
    /** global_next_y: the next row any worker will be handed. */
    var nextY: int
    /** Every value a fetch-and-add on the cursor has returned, in order. */
    ghost var fetched: seq<int>
    /** Every grid index written so far, in order. */
    ghost var writes: seq<int>

    /** The first n cells have each been written exactly once, in index order, with their pixel's value. */
    ghost predicate WrittenUpTo(n: int)
      reads this, grid
    {
      && |writes| == n
      && (forall j :: 0 <= j < |writes| ==> writes[j] == j)
      && n <= grid.Length
      && (forall i :: 0 <= i < n ==> grid[i] == CellValue(cfg, i))
    }

    ghost predicate Valid()
      reads this, grid
    {
      && WellSized(cfg)
      && grid.Length == cfg.width * cfg.height
      && nextY == |fetched| * ChunkSize
      && (forall k :: 0 <= k < |fetched| ==> fetched[k] == k * ChunkSize)
      && WrittenUpTo(Min(nextY, cfg.height) * cfg.width)
    }

    /** A fresh run: the grid allocated, the cursor at 0, nothing written. */
    constructor (cfg: Config)
      requires WellSized(cfg)
      ensures Valid() && this.cfg == cfg && fresh(grid)
      ensures nextY == 0 && fetched == [] && writes == []
    {
      this.cfg := cfg;
      MulMonotone(0, cfg.height, cfg.width);
      grid := new int[cfg.width * cfg.height];
      nextY := 0;
      fetched := [];
      writes := [];
    }

    /**
     * One iteration of a worker's loop: fetch-and-add on the cursor; stop if
     * the fetched row is at or past the height, otherwise clamp the end of
     * the range to the height and compute every pixel of those rows.
     */
    method ClaimAndCompute() returns (stop: bool)
      requires Valid()
      modifies this, grid
      ensures Valid()
      ensures nextY == old(nextY) + ChunkSize && fetched == old(fetched) + [old(nextY)]
      ensures stop <==> old(nextY) >= cfg.height
      ensures stop ==> writes == old(writes) && grid[..] == old(grid[..])
      ensures !stop ==> ClaimRange(|old(fetched)|, ChunkSize, cfg.height) == (old(nextY), Min(nextY, cfg.height))
      ensures !stop ==> forall i :: 0 <= i < grid.Length && !(old(nextY) * cfg.width <= i < Min(nextY, cfg.height) * cfg.width) ==>
                          grid[i] == old(grid[i])
    {
      var yStart := nextY;
      nextY := nextY + ChunkSize;
      fetched := fetched + [yStart];
      var yEnd := yStart + ChunkSize;
      if yStart >= cfg.height {
        return true;
      }
      if yEnd > cfg.height {
        yEnd := cfg.height;
      }
      ComputeRows(yStart, yEnd);
      return false;
    }

    /** The rows [yStart, yEnd) of a claim: every pixel's value stored at `y * width + x`. */
    method ComputeRows(yStart: int, yEnd: int)
      requires WellSized(cfg) && grid.Length == cfg.width * cfg.height
      requires 0 <= yStart <= yEnd <= cfg.height
      requires WrittenUpTo(yStart * cfg.width)
      modifies this`writes, grid
      ensures WrittenUpTo(yEnd * cfg.width)
      ensures forall i :: 0 <= i < grid.Length && !(yStart * cfg.width <= i < yEnd * cfg.width) ==> grid[i] == old(grid[i])
    {
      var y := yStart;
      while y < yEnd
        invariant yStart <= y <= yEnd
        invariant WrittenUpTo(y * cfg.width)
        invariant forall i :: 0 <= i < grid.Length && !(yStart * cfg.width <= i < y * cfg.width) ==> grid[i] == old(grid[i])
      {
        MulMonotone(yStart, y, cfg.width);
        MulMonotone(y + 1, yEnd, cfg.width);
        ComputeRow(y);
        y := y + 1;
      }
    }

    /** Row y of a claim, x = 0 .. width-1. */
    method ComputeRow(y: int)
      requires WellSized(cfg) && grid.Length == cfg.width * cfg.height
      requires 0 <= y < cfg.height
      requires WrittenUpTo(y * cfg.width)
      modifies this`writes, grid
      ensures WrittenUpTo((y + 1) * cfg.width)
      ensures forall i :: 0 <= i < grid.Length && !(y * cfg.width <= i < (y + 1) * cfg.width) ==> grid[i] == old(grid[i])
    {
      var w := cfg.width;
      var rowStart := y * w;
      var x := 0;
      while x < w
        invariant 0 <= x <= w
        invariant WrittenUpTo(rowStart + x)
        invariant forall i :: 0 <= i < grid.Length && !(rowStart <= i < rowStart + x) ==> grid[i] == old(grid[i])
      {
        var iter := ComputePixel(cfg, x, y);
        StoreCell(x, y, iter);
        x := x + 1;
      }
      assert rowStart + w == (y + 1) * w;
    }

    /** `buffer[y * width + x] = iter`: the next cell of the written prefix, and no other. */
    method StoreCell(x: int, y: int, iter: int)
      requires WellSized(cfg) && grid.Length == cfg.width * cfg.height
      requires 0 <= x < cfg.width && 0 <= y < cfg.height
      requires iter == PixelValue(cfg, x, y)
      requires WrittenUpTo(y * cfg.width + x)
      modifies this`writes, grid
      ensures WrittenUpTo(y * cfg.width + x + 1)
      ensures forall i :: 0 <= i < grid.Length && i != y * cfg.width + x ==> grid[i] == old(grid[i])
    {
      CellOfPixel(cfg, x, y);
      grid[y * cfg.width + x] := iter;
      writes := writes + [y * cfg.width + x];
    }

    /**
     * All workers run until each has seen the cursor at or past the height;
     * at each step any live worker may be the one that moves. A worker has
     * no state of its own besides the row it fetched, so the choice decides
     * only which workers remain live, not what a turn does. Afterwards
     * every cell of the grid has been written exactly once, with its
     * pixel's value.
     */
    method RunWorkers()
      requires Valid()
      modifies this, grid
      ensures Valid()
      ensures nextY >= cfg.height
      ensures forall y :: 0 <= y < cfg.height ==> Covered(y, |fetched|, ChunkSize, cfg.height)
      ensures |writes| == grid.Length && forall j :: 0 <= j < |writes| ==> writes[j] == j
      ensures forall i :: 0 <= i < grid.Length ==> grid[i] == CellValue(cfg, i)
    {
      var workers := seq(NumThreads, t => t);
      var all := set t | t in workers;
      var live := all;
      while live != {}
        invariant Valid()
        invariant live <= all
        invariant nextY < cfg.height ==> live == all
        decreases if nextY < cfg.height then cfg.height - nextY else 0, live
      {
        var t :| t in live;
        var stop := ClaimAndCompute();
        if stop {
          live := live - {t};
        }
      }
      assert workers[0] in all;
      ClaimsUpToCursorCover(|fetched|, ChunkSize, cfg.height);
    }
  }

  /**
   * The threaded program once the options are parsed: a fresh run, all
   * workers joined, then final_output. Whatever order the workers take
   * rows in, ASCII mode prints exactly the sequential program's picture and
   * plot-data mode prints the picture's rows bottom first.
   */
  method ThreadedOutput(cfg: Config) returns (out: string)
    requires WellSized(cfg) && 0 <= cfg.maxIter && (cfg.png ==> cfg.maxIter <= 999) && (!cfg.png ==> cfg.maxIter > 0)
    ensures RowsWithin(Rows(cfg), cfg.maxIter)
    ensures cfg.png ==> out == PlotText(Reversed(Rows(cfg)))
    ensures !cfg.png ==> out == AsciiText(Rows(cfg), cfg.maxIter)
  {
    var run := new Run(cfg);
    run.RunWorkers();
    GridOfPixelsHasPictureRows(cfg, run.grid[..]);
    out := FinalOutput(cfg, run.grid);
  }

  /**
   * The sequential plot-data writers and the threaded one disagree by one
   * row: the sequential text starts with the row on the bottom edge ll_y,
   * then gives the threaded rows bottom first but stops before the top row.
   */
  lemma PlotDataShift(cfg: Config)
    requires WellSized(cfg) && cfg.height > 0
    ensures SequentialPlotRows(cfg) == [RowValues(cfg, cfg.height)] + Reversed(Rows(cfg))[..cfg.height - 1]
  {
    SequentialPlotIsShifted(cfg);
  }

  /**
   * final_output: renders the finished grid through a row buffer of
   * `width * 6 + 64` characters, as plot data or as ASCII art.
   */
  method FinalOutput(cfg: Config, grid: array<int>) returns (out: string)
    requires WellSized(cfg) && grid.Length == cfg.width * cfg.height
    requires 0 <= cfg.maxIter && (cfg.png ==> cfg.maxIter <= 999) && (!cfg.png ==> cfg.maxIter > 0)
    requires forall i :: 0 <= i < grid.Length ==> 0 <= grid[i] <= cfg.maxIter
    ensures RowsWithin(GridRows(grid[..], cfg.width, cfg.height), cfg.maxIter)
    ensures cfg.png ==> out == PlotText(Reversed(GridRows(grid[..], cfg.width, cfg.height)))
    ensures !cfg.png ==> out == AsciiText(GridRows(grid[..], cfg.width, cfg.height), cfg.maxIter)
  {
    GridWithin(grid[..], cfg.width, cfg.height, cfg.maxIter);
    var buffer := new char[cfg.width * 6 + 64];
    if cfg.png {
      out := PlotFromGrid(grid, cfg.width, cfg.height, buffer);
    } else {
      out := AsciiFromGrid(grid, cfg.width, cfg.height, cfg.maxIter, buffer);
    }
  }

  /** The plot-data branch of final_output: rows y = height-1 down to 0. */
  method PlotFromGrid(grid: array<int>, w: int, h: int, buffer: array<char>) returns (out: string)
    requires w >= 0 && h >= 0 && grid.Length == w * h
    requires forall i :: 0 <= i < grid.Length ==> 0 <= grid[i] <= 999
    requires buffer.Length == w * 6 + 64
    modifies buffer
    ensures out == PlotText(Reversed(GridRows(grid[..], w, h)))
  {
    var reversed := Reversed(GridRows(grid[..], w, h));
    out := [];
    var y := h - 1;
    while y >= 0
      invariant -1 <= y <= h - 1
      invariant out == PlotText(reversed[..h - 1 - y])
    {
      var written := PlotRowFromGrid(grid, w, h, y, buffer);
      PlotTextPrefix(reversed, h - 1 - y);
      out := out + written;
      y := y - 1;
    }
    assert reversed[..h] == reversed;
  }

  /** The ASCII branch of final_output: rows y = 0 .. height-1. */
  method AsciiFromGrid(grid: array<int>, w: int, h: int, maxIter: int, buffer: array<char>)
    returns (out: string)
    requires w >= 0 && h >= 0 && grid.Length == w * h && maxIter > 0
    requires forall i :: 0 <= i < grid.Length ==> 0 <= grid[i] <= maxIter
    requires buffer.Length == w * 6 + 64
    modifies buffer
    ensures RowsWithin(GridRows(grid[..], w, h), maxIter)
    ensures out == AsciiText(GridRows(grid[..], w, h), maxIter)
  {
    var rows := GridRows(grid[..], w, h);
    GridWithin(grid[..], w, h, maxIter);
    out := [];
    var y := 0;
    while y < h
      invariant 0 <= y <= h
      invariant RowsWithin(rows[..y], maxIter)
      invariant out == AsciiText(rows[..y], maxIter)
    {
      var written := AsciiRowFromGrid(grid, w, h, maxIter, y, buffer);
      AsciiTextPrefix(rows, maxIter, y);
      out := out + written;
      y := y + 1;
    }
    assert rows[..h] == rows;
  }

  /**
   * One plot-data row of final_output. At most five characters per value
   * and the newline are stored, so the row never reaches the end of the
   * `width * 6 + 64` buffer.
   */
  method PlotRowFromGrid(grid: array<int>, w: int, h: int, y: int, buffer: array<char>)
    returns (written: string)
    requires w >= 0 && grid.Length == w * h && 0 <= y < h
    requires forall i :: 0 <= i < grid.Length ==> 0 <= grid[i] <= 999
    requires buffer.Length == w * 6 + 64
    modifies buffer
    ensures written == Join(GridRow(grid[..], w, h, y)) + "\n"
    ensures |written| <= 5 * w + 1
  {
    RowSpan(w, h, y);
    var rowStart := y * w;
    assert GridRow(grid[..], w, h, y) == grid[rowStart..rowStart + w];
    written := PlotRowAt(grid, rowStart, w, buffer);
  }

  /** The row of `w` cells starting at `rowStart`, formatted into the row buffer. */
  method PlotRowAt(grid: array<int>, rowStart: int, w: int, buffer: array<char>) returns (written: string)
    requires 0 <= rowStart && 0 <= w && rowStart + w <= grid.Length
    requires forall i :: rowStart <= i < rowStart + w ==> 0 <= grid[i] <= 999
    requires buffer.Length >= 5 * w + 1
    modifies buffer
    ensures written == Join(grid[rowStart..rowStart + w]) + "\n"
    ensures |written| <= 5 * w + 1
  {
    ghost var row := grid[rowStart..rowStart + w];
    assert forall i :: 0 <= i < w ==> row[i] == grid[rowStart + i];
    var ptr: nat := 0;
    var x := 0;
    while x < w
      invariant 0 <= x <= w
      invariant ptr <= 5 * x
      invariant buffer[..ptr] == Join(row[..x])
    {
      var iter := grid[rowStart + x];
      assert iter == row[x];
      ptr := PutNext(buffer, ptr, [], row, x, iter);
      x := x + 1;
    }
    assert row[..x] == row;
    buffer[ptr] := '\n';
    ptr := ptr + 1;
    written := buffer[..ptr];
  }

  /** One ASCII row of final_output: `width` palette characters and '\n'. */
  method AsciiRowFromGrid(grid: array<int>, w: int, h: int, maxIter: int, y: int, buffer: array<char>)
    returns (written: string)
    requires w >= 0 && grid.Length == w * h && 0 <= y < h && maxIter > 0
    requires forall i :: 0 <= i < grid.Length ==> 0 <= grid[i] <= maxIter
    requires buffer.Length == w * 6 + 64
    modifies buffer
    ensures forall x :: 0 <= x < w ==> 0 <= GridRow(grid[..], w, h, y)[x] <= maxIter
    ensures written == AsciiRow(GridRow(grid[..], w, h, y), maxIter) + "\n"
  {
    var row := GridRow(grid[..], w, h, y);
    forall x | 0 <= x < w
      ensures 0 <= row[x] <= maxIter
    {
      GridRowElement(grid[..], w, h, x, y);
    }
    ghost var line := AsciiRow(row, maxIter);
    var rowStart := y * w;
    var ptr := 0;
    var x := 0;
    while x < w
      invariant 0 <= x <= w
      invariant ptr == x
      invariant buffer[..ptr] == line[..x]
    {
      GridRowElement(grid[..], w, h, x, y);
      var iter := grid[rowStart + x];
      assert iter == row[x];
      buffer[ptr] := Cnt2Char(iter, maxIter);
      ptr := ptr + 1;
      x := x + 1;
    }
    buffer[ptr] := '\n';
    ptr := ptr + 1;
    written := buffer[..ptr];
    assert line[..x] == line;
  }
}
