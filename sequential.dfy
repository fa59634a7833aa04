/**
 * The two writers of the sequential program: ascii_output, which prints one
 * palette character per pixel straight to stdout, and gptext_output, which
 * formats each plot-data row into a 64 KiB buffer with the hand-written
 * itoa and writes the buffer out whenever it holds more than 65504 bytes
 * and at the end of each row. Standard output is the string `out`, and
 * each putchar or fwrite appends to it.
 */
module Sequential {
  import opened Kernel
  import opened Options
  import opened Text
  import opened Palette
  import opened Picture

  const BufferSize: nat := 65536

  /** The flush threshold: the buffer is written out once it holds more than this. */
  const FlushMark: nat := BufferSize - 32

  /** ascii_output: rows y = 0 .. height-1, each `width` palette characters and '\n'. */
  method AsciiOutput(cfg: Config) returns (out: string)
    requires WellSized(cfg) && cfg.maxIter > 0
    ensures RowsWithin(Rows(cfg), cfg.maxIter)
    ensures out == AsciiText(Rows(cfg), cfg.maxIter)
  {
    var rows := Rows(cfg);
    RowsOfConfigWithin(cfg);
    out := [];
    var y := 0;
    while y < cfg.height
      invariant 0 <= y <= cfg.height
      invariant RowsWithin(rows[..y], cfg.maxIter)
      invariant out == AsciiText(rows[..y], cfg.maxIter)
    {
      ghost var before := out;
      assert rows[y] == RowValues(cfg, y);
      ghost var line := AsciiRow(rows[y], cfg.maxIter);
      var x := 0;
      while x < cfg.width
        invariant 0 <= x <= cfg.width
        invariant out == before + line[..x]
      {
        var iter := ComputePixel(cfg, x, y);
        assert iter == rows[y][x];
        out := out + [Cnt2Char(iter, cfg.maxIter)];
        assert line[..x + 1] == line[..x] + [line[x]];
        x := x + 1;
      }
      out := out + "\n";
      assert line[..x] == line;
      AsciiTextPrefix(rows, cfg.maxIter, y);
      y := y + 1;
    }
    assert rows[..y] == rows;
  }

  /**
   * gptext_output: rows y = height down to 1 as plot data, each formatted in
   * the one 64 KiB buffer by GptextRow.
   */
  method GptextOutput(cfg: Config) returns (out: string)
    requires WellSized(cfg) && 0 <= cfg.maxIter <= 999
    ensures out == PlotText(SequentialPlotRows(cfg))
  {
    var rows := SequentialPlotRows(cfg);
    var buffer := new char[BufferSize];
    out := [];
    var y := cfg.height;
    while y > 0
      invariant 0 <= y <= cfg.height
      invariant out == PlotText(rows[..cfg.height - y])
    {
      ghost var k := cfg.height - y;
      var written := GptextRow(cfg, y, buffer);
      assert rows[k] == RowValues(cfg, y);
      PlotTextPrefix(rows, k);
      out := out + written;
      y := y - 1;
    }
    assert rows[..cfg.height] == rows;
  }

  /**
   * One row of gptext_output. The buffer is never written past its end: a
   * flush follows any value that leaves more than 65504 bytes in it, and at
   * most five bytes per value plus the newline are stored between checks.
   * The flushes and the end-of-row write together give exactly the
   * unbuffered row text.
   */
  method GptextRow(cfg: Config, y: int, buffer: array<char>) returns (written: string)
    requires WellSized(cfg) && 0 <= cfg.maxIter <= 999 && 0 < y <= cfg.height
    requires buffer.Length == BufferSize
    modifies buffer
    ensures written == Join(RowValues(cfg, y)) + "\n"
  {
    var row := RowValues(cfg, y);
    written := [];
    var ptr: nat := 0;
    var x := 0;
    while x < cfg.width
      invariant 0 <= x <= cfg.width
      invariant ptr <= FlushMark
      invariant written + buffer[..ptr] == Join(row[..x])
    {
      var iter := ComputePixel(cfg, x, y);
      ptr := PutNext(buffer, ptr, written, row, x, iter);
      if ptr > FlushMark {
        written := written + buffer[..ptr];
        ptr := 0;
      }
      x := x + 1;
    }
    buffer[ptr] := '\n';
    ptr := ptr + 1;
    written := written + buffer[..ptr];
    assert row[..x] == row;
  }
}
