/**
 * Text formatting shared by every output mode: decimal integers (the `%d`
 * conversion and the hand-written itoa used on the buffered paths), the
 * ", "-separated row of a plot-data line, and the newline-terminated lines
 * of a whole output. Each formatter comes with the parser that reads it back.
 */
module Text {

  /** The character of a decimal digit, as C's `'0' + d`. */
  function DigitChar(d: int): (ch: char)
    requires 0 <= d <= 9
    ensures '0' <= ch <= '9'
    ensures ch as int - '0' as int == d
  {
    ('0' as int + d) as char
  }

  predicate IsDigit(ch: char) {
    '0' <= ch <= '9'
  }

  /** Decimal digits of `n`, most significant first, without leading zeros. */
  function Digits(n: nat): (s: string)
    ensures |s| >= 1
    ensures forall i :: 0 <= i < |s| ==> IsDigit(s[i])
    ensures |s| > 1 ==> s[0] != '0'
    decreases n
  {
    if n < 10 then [DigitChar(n)] else Digits(n / 10) + [DigitChar(n % 10)]
  }

  /** The value of a string of decimal digits. */
  function DigitsValue(s: string): nat
    requires forall i :: 0 <= i < |s| ==> IsDigit(s[i])
  {
    if s == [] then 0
    else
      assert IsDigit(s[|s| - 1]);
      DigitsValue(s[..|s| - 1]) * 10 + (s[|s| - 1] as int - '0' as int)
  }

  lemma {:induction false} DigitsRoundTrip(n: nat)
    ensures DigitsValue(Digits(n)) == n
    decreases n
  {
    if n >= 10 {
      var s := Digits(n);
      assert s[..|s| - 1] == Digits(n / 10);
      DigitsRoundTrip(n / 10);
    }
  }

  /** printf's `%d`: an optional '-' and the decimal digits of the magnitude. */
  function FormatInt(n: int): (s: string)
  {
    if n < 0 then "-" + Digits(-n) else Digits(n)
  }

  /** Reads back what FormatInt writes. */
  function ParseInt(s: string): int
  {
    if |s| > 0 && s[0] == '-' && (forall i :: 1 <= i < |s| ==> IsDigit(s[i])) then
      0 - DigitsValue(s[1..])
    else if forall i :: 0 <= i < |s| ==> IsDigit(s[i]) then
      DigitsValue(s)
    else
      0
  }

  /** `%d` text is non-empty and made of a sign and digits only, so never a ',' or a newline. */
  lemma FormatIntChars(n: int)
    ensures |FormatInt(n)| >= 1
    ensures forall i :: 0 <= i < |FormatInt(n)| ==> FormatInt(n)[i] == '-' || IsDigit(FormatInt(n)[i])
    ensures ',' !in FormatInt(n) && '\n' !in FormatInt(n)
  {
    var s := FormatInt(n);
    var d := if n < 0 then -n else n;
    if n < 0 {
      assert s[1..] == Digits(d);
    }
    assert forall i :: 0 <= i < |s| ==> s[i] == '-' || IsDigit(s[i]);
  }

  /** Reading `%d` text back gives the value. */
  lemma FormatIntRoundTrip(n: int)
    ensures ParseInt(FormatInt(n)) == n
  {
    var d := if n < 0 then -n else n;
    DigitsRoundTrip(d);
    FormatIntChars(n);
    if n < 0 {
      assert FormatInt(n)[1..] == Digits(d);
    }
  }


  /**
   * The hand-written integer-to-text conversion of the buffered writers:
   * three digits from 100 on, two from 10 on, one below.
   */
  function Itoa(iter: int): (s: string)
    requires 0 <= iter <= 999
    ensures 1 <= |s| <= 3
  {
    if iter >= 100 then
      var rest := iter % 100;
      [DigitChar(iter / 100), DigitChar(rest / 10), DigitChar(rest % 10)]
    else if iter >= 10 then
      [DigitChar(iter / 10), DigitChar(iter % 10)]
    else
      [DigitChar(iter)]
  }

  /** On its documented range the hand-written conversion is exactly `%d`. */
  lemma ItoaIsDecimal(iter: int)
    requires 0 <= iter <= 999
    ensures Itoa(iter) == FormatInt(iter)
  {
    if iter >= 100 {
      var q := iter / 10;
      HundredsSplit(iter);
      assert Digits(q) == [DigitChar(iter / 100), DigitChar((iter % 100) / 10)];
      assert Digits(iter) == Digits(q) + [DigitChar((iter % 100) % 10)];
    } else if iter >= 10 {
      assert Digits(iter) == Digits(iter / 10) + [DigitChar(iter % 10)];
    }
  }

  /** The digits itoa peels off a three-digit value are those of `n / 10` and then `n % 10`. */
  lemma HundredsSplit(n: int)
    requires 100 <= n <= 999
    ensures 10 <= n / 10 < 100
    ensures (n / 10) / 10 == n / 100 && (n / 10) % 10 == (n % 100) / 10
    ensures n % 10 == (n % 100) % 10
  {
  }

  /**
   * The hand-written itoa as the buffered writers run it: the digits of
   * `iter` are stored at `buf[ptr..]` and the advanced write position returned.
   */
  method PutItoa(buf: array<char>, ptr: nat, iter: int) returns (next: nat)
    requires 0 <= iter <= 999 && ptr + 3 <= buf.Length
    modifies buf
    ensures ptr < next <= ptr + 3
    ensures buf[..next] == old(buf[..ptr]) + FormatInt(iter)
  {
    ItoaIsDecimal(iter);
    next := ptr;
    var n := iter;
    if n >= 100 {
      buf[next] := DigitChar(n / 100);
      next := next + 1;
      n := n % 100;
      buf[next] := DigitChar(n / 10);
      next := next + 1;
      buf[next] := DigitChar(n % 10);
      next := next + 1;
    } else if n >= 10 {
      buf[next] := DigitChar(n / 10);
      next := next + 1;
      buf[next] := DigitChar(n % 10);
      next := next + 1;
    } else {
      buf[next] := DigitChar(n);
      next := next + 1;
    }
    assert buf[..next] == old(buf[..ptr]) + Itoa(iter);
  }

  /**
   * One value of a plot-data row as the buffered writers store it: ", "
   * unless it is the first value of the row, then its digits.
   */
  method PutValue(buf: array<char>, ptr: nat, first: bool, iter: int) returns (next: nat)
    requires 0 <= iter <= 999 && ptr + 5 <= buf.Length
    modifies buf
    ensures ptr < next <= ptr + 5
    ensures buf[..next] == old(buf[..ptr]) + (if first then "" else ", ") + FormatInt(iter)
  {
    next := ptr;
    if !first {
      buf[next] := ',';
      buf[next + 1] := ' ';
      next := next + 2;
    }
    assert buf[..next] == old(buf[..ptr]) + (if first then "" else ", ");
    next := PutItoa(buf, next, iter);
  }

  /**
   * Formatting value x of a row: if the text already flushed (`written`)
   * and the buffer together spell the first x values, afterwards they spell
   * the first x + 1.
   */
  method PutNext(buf: array<char>, ptr: nat, ghost written: string, ghost row: seq<int>, x: nat, iter: int)
    returns (next: nat)
    requires x < |row| && iter == row[x] && 0 <= iter <= 999 && ptr + 5 <= buf.Length
    requires written + buf[..ptr] == Join(row[..x])
    modifies buf
    ensures ptr < next <= ptr + 5
    ensures written + buf[..next] == Join(row[..x + 1])
  {
    ghost var before := buf[..ptr];
    next := PutValue(buf, ptr, x == 0, iter);
    JoinStep(row, x, written, before);
  }

  /** Index of the first `c` in `s`, or `|s|` when there is none (C's strchr). */
  function IndexOf(s: string, c: char): (i: nat)
    ensures i <= |s|
    ensures i < |s| ==> s[i] == c
    ensures forall j :: 0 <= j < i ==> s[j] != c
  {
    if s == [] then 0
    else if s[0] == c then 0
    else 1 + IndexOf(s[1..], c)
  }

  lemma IndexOfAfterPrefix(a: string, b: string, c: char)
    requires c !in a
    requires |b| > 0 && b[0] == c
    ensures IndexOf(a + b, c) == |a|
  {
    var s := a + b;
    var i := IndexOf(s, c);
    assert s[|a|] == c;
    assert forall j :: 0 <= j < |a| ==> s[j] == a[j];
  }

  /** One plot-data row: the values in `%d` form, with ", " before every value but the first. */
  function Join(vals: seq<int>): string
  {
    if |vals| == 0 then ""
    else if |vals| == 1 then FormatInt(vals[0])
    else FormatInt(vals[0]) + ", " + Join(vals[1..])
  }

  /** The row text grows at its end, the way the writers build it left to right. */
  lemma {:induction false} JoinSnoc(vals: seq<int>, v: int)
    ensures Join(vals + [v]) == Join(vals) + (if |vals| == 0 then "" else ", ") + FormatInt(v)
  {
    if |vals| >= 2 {
      assert (vals + [v])[1..] == vals[1..] + [v];
      JoinSnoc(vals[1..], v);
    } else if |vals| == 1 {
      assert (vals + [v])[1..] == [v];
    }
  }

  /** Appending value x's piece to text that spells the first x values spells the first x + 1. */
  lemma JoinStep(row: seq<int>, x: nat, written: string, before: string)
    requires x < |row| && written + before == Join(row[..x])
    ensures written + (before + (if x == 0 then "" else ", ") + FormatInt(row[x])) == Join(row[..x + 1])
  {
    var sep := if x == 0 then "" else ", ";
    var piece := FormatInt(row[x]);
    ConcatRegroup(written, before, sep, piece);
    assert row[..x + 1] == row[..x] + [row[x]];
    JoinSnoc(row[..x], row[x]);
  }

  lemma ConcatRegroup(a: string, b: string, c: string, d: string)
    ensures a + (b + c + d) == (a + b) + c + d
  {
  }

  /** With values in 0..999 a row takes at most five characters per value. */
  lemma {:induction false} JoinLength(vals: seq<int>)
    requires forall i :: 0 <= i < |vals| ==> 0 <= vals[i] <= 999
    ensures |Join(vals)| <= 5 * |vals|
    ensures |vals| > 0 ==> |Join(vals)| + 2 <= 5 * |vals|
  {
    if |vals| > 0 {
      ItoaIsDecimal(vals[0]);
      if |vals| > 1 {
        JoinLength(vals[1..]);
      }
    }
  }

  /** Reads a plot-data row back: values separated by ", ". */
  function ParseRow(s: string): seq<int>
    decreases |s|
  {
    if s == [] then []
    else
      var i := IndexOf(s, ',');
      if i + 2 <= |s| then [ParseInt(s[..i])] + ParseRow(s[i + 2..])
      else [ParseInt(s[..i])]
  }

  /** A value's text with no ',' in it parses as that single value. */
  lemma ParseRowSingle(head: string)
    requires head != [] && ',' !in head
    ensures ParseRow(head) == [ParseInt(head)]
  {
    assert IndexOf(head, ',') == |head|;
    assert head[..|head|] == head;
  }

  /** The first ", " of a row ends its first value; the rest parses on its own. */
  lemma ParseRowCons(head: string, tail: string)
    requires ',' !in head
    ensures ParseRow(head + ", " + tail) == [ParseInt(head)] + ParseRow(tail)
  {
    var s := head + ", " + tail;
    assert s == head + (", " + tail);
    IndexOfAfterPrefix(head, ", " + tail, ',');
    assert s[..|head|] == head;
    assert s[|head| + 2..] == tail;
  }

  lemma {:induction false} JoinHasNoNewline(vals: seq<int>)
    ensures '\n' !in Join(vals)
  {
    if |vals| > 0 {
      var head := FormatInt(vals[0]);
      assert '\n' !in head by { FormatIntChars(vals[0]); }
      if |vals| > 1 {
        var tail := Join(vals[1..]);
        assert '\n' !in tail by { JoinHasNoNewline(vals[1..]); }
        assert Join(vals) == head + (", " + tail);
      }
    }
  }

  lemma {:induction false} JoinRoundTrip(vals: seq<int>)
    ensures ParseRow(Join(vals)) == vals
    ensures '\n' !in Join(vals)
  {
    JoinHasNoNewline(vals);
    if |vals| == 1 {
      FormatIntChars(vals[0]);
      FormatIntRoundTrip(vals[0]);
      ParseRowSingle(FormatInt(vals[0]));
    } else if |vals| > 1 {
      FormatIntChars(vals[0]);
      FormatIntRoundTrip(vals[0]);
      JoinRoundTrip(vals[1..]);
      ParseRowCons(FormatInt(vals[0]), Join(vals[1..]));
      assert vals == [vals[0]] + vals[1..];
    }
  }

  /** A whole output: every line followed by '\n'. */
  function Unlines(lines: seq<string>): string
  {
    if lines == [] then "" else lines[0] + "\n" + Unlines(lines[1..])
  }

  lemma {:induction false} UnlinesSnoc(lines: seq<string>, line: string)
    ensures Unlines(lines + [line]) == Unlines(lines) + line + "\n"
  {
    if lines != [] {
      assert (lines + [line])[1..] == lines[1..] + [line];
      UnlinesSnoc(lines[1..], line);
    } else {
      assert [line][1..] == [];
    }
  }

  /** Reads an output back into its lines; a last line without '\n' is kept as well. */
  function SplitLines(s: string): seq<string>
    decreases |s|
  {
    if s == [] then []
    else
      var i := IndexOf(s, '\n');
      if i < |s| then [s[..i]] + SplitLines(s[i + 1..]) else [s]
  }

  lemma {:induction false} UnlinesRoundTrip(lines: seq<string>)
    requires forall k :: 0 <= k < |lines| ==> '\n' !in lines[k]
    ensures SplitLines(Unlines(lines)) == lines
  {
    if lines != [] {
      var rest := Unlines(lines[1..]);
      var s := lines[0] + ("\n" + rest);
      assert Unlines(lines) == s;
      IndexOfAfterPrefix(lines[0], "\n" + rest, '\n');
      assert s[..|lines[0]|] == lines[0];
      assert s[|lines[0]| + 1..] == rest;
      UnlinesRoundTrip(lines[1..]);
    }
  }

  /** The text of a plot-data output whose lines hold `rows`, in that order. */
  function PlotText(rows: seq<seq<int>>): string
  {
    Unlines(seq(|rows|, k requires 0 <= k < |rows| => Join(rows[k])))
  }

  /** How the plotting tool reads a plot-data output: lines, then values. */
  function ParsePlot(s: string): seq<seq<int>>
  {
    var lines := SplitLines(s);
    seq(|lines|, k requires 0 <= k < |lines| => ParseRow(lines[k]))
  }

  /** Reading the text back gives the rows, line for line and value for value. */
  lemma PlotRoundTrip(rows: seq<seq<int>>)
    ensures ParsePlot(PlotText(rows)) == rows
  {
    var lines := seq(|rows|, k requires 0 <= k < |rows| => Join(rows[k]));
    forall k | 0 <= k < |rows|
      ensures '\n' !in lines[k] && ParseRow(lines[k]) == rows[k]
    {
      JoinRoundTrip(rows[k]);
    }
    UnlinesRoundTrip(lines);
  }

  /** Appending one row line to a plot text of the first rows. */
  lemma PlotTextPrefix(rows: seq<seq<int>>, k: nat)
    requires k < |rows|
    ensures PlotText(rows[..k + 1]) == PlotText(rows[..k]) + Join(rows[k]) + "\n"
  {
    var before := seq(k, i requires 0 <= i < k => Join(rows[..k][i]));
    var after := seq(k + 1, i requires 0 <= i < k + 1 => Join(rows[..k + 1][i]));
    assert after == before + [Join(rows[k])];
    UnlinesSnoc(before, Join(rows[k]));
  }
}
