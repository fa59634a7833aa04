/**
 * cnt2char: the iteration value scaled onto the seven-symbol palette, from
 * "most inside the set" ('M') to "most escaped" (' ').
 *
 * The C code computes `(int)((double)value / max_iter * (ns - 1))`; here the
 * division is exact and the cast is the floor of a non-negative number, so
 * the index is the integer quotient `value * 6 / max_iter`. That the two
 * agree is an idealisation of double arithmetic; PaletteIndex states the
 * floor property over `real` so the reader can see what is assumed.
 */
module Palette {

  const Symbols: string := "MW2a_. "

  /** The palette index of `value`; the source documents `value` in [0, max_iter]. */
  function PaletteIndex(value: int, maxIter: int): (idx: int)
    requires 0 < maxIter && 0 <= value <= maxIter
    ensures 0 <= idx < |Symbols|
    ensures idx as real <= (value as real) / (maxIter as real) * 6.0 < (idx + 1) as real
  {
    var idx := value * (|Symbols| - 1) / maxIter;
    FloorOfScaledRatio(value, maxIter, idx);
    idx
  }

  /** The floor facts of `value * 6 / maxIter`, over the integers and over the reals. */
  lemma FloorOfScaledRatio(value: int, maxIter: int, idx: int)
    requires 0 < maxIter && 0 <= value <= maxIter
    requires idx == value * 6 / maxIter
    ensures 0 <= idx <= 6
    ensures idx as real <= (value as real) / (maxIter as real) * 6.0 < (idx + 1) as real
  {
    var n := value * 6;
    QuotientBounds(n, maxIter);
    MulCancel(idx, 7, maxIter);
    var m := maxIter as real;
    assert (n as real) == (value as real) * 6.0;
    assert (value as real) / m * 6.0 == ((value as real) * 6.0) / m;
    assert (value as real) / m * 6.0 == (n as real) / m;
    RealQuotient(idx, n, maxIter);
  }

  /** The quotient `q` of `n` by `m` brackets `n` between `q * m` and `(q + 1) * m`. */
  lemma QuotientBounds(n: int, m: int)
    requires n >= 0 && m > 0
    ensures (n / m) * m <= n < (n / m + 1) * m
  {
  }

  /** Multiplication by a positive number preserves strict order. */
  lemma MulCancel(a: int, b: int, m: int)
    requires m > 0 && a * m < b * m
    ensures a < b
  {
  }

  lemma RealQuotient(q: int, n: int, m: int)
    requires m > 0 && q * m <= n < (q + 1) * m
    ensures q as real <= (n as real) / (m as real) < (q + 1) as real
  {
    var r := m as real;
    assert (q as real) * r <= n as real;
    assert (n as real) < ((q + 1) as real) * r;
  }

  function Cnt2Char(value: int, maxIter: int): (ch: char)
    requires 0 < maxIter && 0 <= value <= maxIter
    ensures ch in Symbols
  {
    Symbols[PaletteIndex(value, maxIter)]
  }

  /** Value 0 (a point that never escaped) is 'M'; value max_iter is ' '. */
  lemma PaletteEndpoints(maxIter: int)
    requires maxIter > 0
    ensures Cnt2Char(0, maxIter) == 'M'
    ensures Cnt2Char(maxIter, maxIter) == ' '
  {
    assert maxIter * 6 / maxIter == 6;
  }

  /** A larger value never maps to a symbol earlier in the palette. */
  lemma PaletteMonotone(v1: int, v2: int, maxIter: int)
    requires 0 < maxIter && 0 <= v1 <= v2 <= maxIter
    ensures PaletteIndex(v1, maxIter) <= PaletteIndex(v2, maxIter)
  {
    var i1, i2 := PaletteIndex(v1, maxIter), PaletteIndex(v2, maxIter);
    QuotientBounds(v1 * 6, maxIter);
    QuotientBounds(v2 * 6, maxIter);
    MulCancel(i1, i2 + 1, maxIter);
  }
}
