/**
 * The writers of the complex-typed program. They match the sequential
 * program's except that the kernel is EscapeTimeComplex and plot-data
 * values go through printf("%s%d") instead of a buffer, so no bound on the
 * cap is needed. Both writers are proved to produce the text `AsciiText`
 * and `PlotText` describe, as for Sequential's writers.
 */
module ComplexVariant {
  import opened Kernel
  import opened Options
  import opened Text
  import opened Palette
  import opened Picture

  /** ascii_output: rows y = 0 .. height-1, each `width` palette characters and '\n'. */
  method AsciiOutput(cfg: Config) returns (out: string)
    requires WellSized(cfg) && cfg.maxIter > 0
    ensures RowsWithin(Rows(cfg), cfg.maxIter)
    ensures out == AsciiText(Rows(cfg), cfg.maxIter)
  {
    var rows := Rows(cfg);
    RowsOfConfigWithin(cfg);
    var fwidth := cfg.urX - cfg.llX;
    var fheight := cfg.urY - cfg.llY;
    out := [];
    var y := 0;
    while y < cfg.height
      invariant 0 <= y <= cfg.height
      invariant RowsWithin(rows[..y], cfg.maxIter)
      invariant out == AsciiText(rows[..y], cfg.maxIter)
    {
      ghost var before := out;
      assert rows[y] == RowValues(cfg, y);
      ghost var line := AsciiRow(rows[y], cfg.maxIter);
      var x := 0;
      while x < cfg.width
        invariant 0 <= x <= cfg.width
        invariant out == before + line[..x]
      {
        var re := cfg.llX + (x as real) * fwidth / (cfg.width as real);
        var imag := cfg.urY - (y as real) * fheight / (cfg.height as real);
        var c := Complex(re, imag);
        var iter := EscapeTimeComplex(c, cfg.maxIter);
        PointAtPixel(cfg, fwidth, fheight, x, y);
        assert iter == rows[y][x];
        out := out + [Cnt2Char(iter, cfg.maxIter)];
        assert line[..x + 1] == line[..x] + [line[x]];
        x := x + 1;
      }
      out := out + "\n";
      assert line[..x] == line;
      AsciiTextPrefix(rows, cfg.maxIter, y);
      y := y + 1;
    }
    assert rows[..y] == rows;
  }

  /** gptext_output: rows y = height down to 1, each printed by GptextRow. */
  method GptextOutput(cfg: Config) returns (out: string)
    requires WellSized(cfg)
    ensures out == PlotText(SequentialPlotRows(cfg))
  {
    var rows := SequentialPlotRows(cfg);
    out := [];
    var y := cfg.height;
    while y > 0
      invariant 0 <= y <= cfg.height
      invariant out == PlotText(rows[..cfg.height - y])
    {
      ghost var k := cfg.height - y;
      var printed := GptextRow(cfg, y);
      assert rows[k] == RowValues(cfg, y);
      PlotTextPrefix(rows, k);
      out := out + printed;
      y := y - 1;
    }
    assert rows[..cfg.height] == rows;
  }

  /** One row of gptext_output: printf("%s%d") per value, then "\n". */
  method GptextRow(cfg: Config, y: int) returns (printed: string)
    requires WellSized(cfg) && 0 < y <= cfg.height
    ensures printed == Join(RowValues(cfg, y)) + "\n"
  {
    var row := RowValues(cfg, y);
    var fwidth := cfg.urX - cfg.llX;
    var fheight := cfg.urY - cfg.llY;
    printed := [];
    var x := 0;
    while x < cfg.width
      invariant 0 <= x <= cfg.width
      invariant printed == Join(row[..x])
    {
      var re := cfg.llX + (x as real) * fwidth / (cfg.width as real);
      var imag := cfg.urY - (y as real) * fheight / (cfg.height as real);
      var c := Complex(re, imag);
      var iter := EscapeTimeComplex(c, cfg.maxIter);
      PointAtPixel(cfg, fwidth, fheight, x, y);
      assert iter == row[x];
      JoinStep(row, x, [], printed);
      printed := printed + (if x > 0 then ", " else "") + FormatInt(iter);
      x := x + 1;
    }
    printed := printed + "\n";
    assert row[..x] == row;
  }
}
