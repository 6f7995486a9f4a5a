/**
 * The human-readable formatters of the client and of `ls`: decimal integer
 * text (Go's `%d` and `%02d`), the 1024-based unit selection of
 * `formatBytes` and `formatSize`, and the clock text of `formatDuration`.
 */
module Humanize {
  import opened Wrappers
  import opened GoInt
  import opened GoStrings

  // ---------------------------------------------------------------------
  // Decimal text

  predicate IsDigit(c: char) {
    '0' <= c <= '9'
  }

  /** A non-empty run of decimal digits. */
  predicate Numeral(s: string) {
    |s| >= 1 && forall i :: 0 <= i < |s| ==> IsDigit(s[i])
  }

  /** A numeral as `%d` writes it: no leading zero except in "0" itself. */
  predicate Canonical(s: string) {
    Numeral(s) && (s[0] == '0' ==> |s| == 1)
  }

  function Digit(d: nat): (c: char)
    requires d < 10
    ensures IsDigit(c) && c as int - '0' as int == d
  {
    ('0' as int + d) as char
  }

  /** The value of a run of digits, read most significant first. */
  function DecimalValue(s: string): int {
    if s == [] then 0
    else DecimalValue(s[..|s| - 1]) * 10 + (s[|s| - 1] as int - '0' as int)
  }

  /** `%d` of a non-negative integer: no sign, no leading zero. */
  function NatText(n: nat): (r: string)
    ensures Numeral(r)
    ensures r[0] == '0' ==> n == 0 && r == "0"
    ensures n < 10 <==> |r| == 1
    ensures n < 100 ==> |r| <= 2
  {
    if n < 10 then [Digit(n)] else NatText(n / 10) + [Digit(n % 10)]
  }

  /** `%d` of any integer: a minus sign in front of negative values. */
  function IntText(i: int): string {
    if i < 0 then "-" + NatText(-i) else NatText(i)
  }

  /** Reads back what `IntText` writes; `None` for anything else, leading zeros and "-0" included. */
  function ParseInt(s: string): Option<int> {
    if |s| >= 2 && s[0] == '-' && Canonical(s[1..]) && s[1] != '0' then Some(-DecimalValue(s[1..]))
    else if Canonical(s) then Some(DecimalValue(s))
    else None
  }

  /** A numeral's value is never negative, and at least 1 without a leading zero. */
  lemma {:induction false} NumeralValue(s: string)
    requires Numeral(s)
    ensures DecimalValue(s) >= 0
    ensures s[0] != '0' ==> DecimalValue(s) >= 1
    ensures s[0] != '0' && |s| >= 2 ==> DecimalValue(s) >= 10
  {
    var t := s[..|s| - 1];
    assert IsDigit(s[|s| - 1]);
    if |s| >= 2 {
      assert t[0] == s[0];
      NumeralValue(t);
    } else {
      assert s[|s| - 1] == s[0];
    }
  }

  /** A canonical numeral is the `%d` text of its value. */
  lemma {:induction false} NatTextOf(s: string)
    requires Canonical(s)
    ensures DecimalValue(s) >= 0 && NatText(DecimalValue(s)) == s
  {
    NumeralValue(s);
    var d := s[|s| - 1] as int - '0' as int;
    assert IsDigit(s[|s| - 1]);
    if |s| == 1 {
      assert [Digit(d)] == s;
    } else {
      var t := s[..|s| - 1];
      assert t[0] == s[0];
      NatTextOf(t);
      NumeralValue(t);
      var v := DecimalValue(s);
      assert v == DecimalValue(t) * 10 + d;
      DivUnique(v, 10, DecimalValue(t), d);
      assert s == t + [Digit(d)];
    }
  }

  /** The `%d` text of a value is the only text `ParseInt` reads as that value. */
  lemma ParseIntCanonical(s: string, n: int)
    requires ParseInt(s) == Some(n)
    ensures s == IntText(n)
  {
    if |s| >= 2 && s[0] == '-' && Canonical(s[1..]) && s[1] != '0' {
      NumeralValue(s[1..]);
      NatTextOf(s[1..]);
      assert s == "-" + s[1..];
    } else {
      NatTextOf(s);
    }
  }

  lemma {:induction false} NatTextValue(n: nat)
    ensures DecimalValue(NatText(n)) == n
  {
    if n >= 10 {
      var t := NatText(n / 10);
      NatTextValue(n / 10);
      assert (t + [Digit(n % 10)])[..|t|] == t;
    }
  }

  lemma IntTextRoundTrip(i: int)
    ensures ParseInt(IntText(i)) == Some(i)
  {
    var s := IntText(i);
    if i < 0 {
      var t := NatText(-i);
      NatTextValue(-i);
      assert s == "-" + t && s[1..] == t;
    } else {
      NatTextValue(i);
      assert IsDigit(s[0]);
    }
  }

  /** Describing a small value, the text is exactly its `%d` text followed by " B". */
  lemma ExactText(n: int, r: Humanized, decimals: nat, tail: string)
    requires Describes(n, r, decimals, tail) && r.Exact?
    ensures r.text == IntText(n) + " B"
  {
    ParseIntCanonical(r.text[..|r.text| - 2], n);
    assert r.text == r.text[..|r.text| - 2] + " B";
  }

  /** `%02d`: at least two digits, zero-padded. */
  function Pad2(n: nat): (r: string)
    ensures Numeral(r) && |r| >= 2
    ensures n < 100 ==> |r| == 2
  {
    if n < 10 then "0" + NatText(n) else NatText(n)
  }

  lemma Pad2Value(n: nat)
    ensures DecimalValue(Pad2(n)) == n
  {
    NatTextValue(n);
  }

  /** Two digits, or more without a leading zero, are the `%02d` text of their value. */
  lemma Pad2Text(s: string)
    requires Numeral(s) && |s| >= 2 && (|s| == 2 || s[0] != '0')
    ensures DecimalValue(s) >= 0 && Pad2(DecimalValue(s)) == s
  {
    NumeralValue(s);
    if s[0] != '0' {
      NatTextOf(s);
    } else {
      var t := s[..1];
      assert t == "0" && DecimalValue(t) == 0;
      var d := s[1] as int - '0' as int;
      assert IsDigit(s[1]);
      assert DecimalValue(s) == d;
      assert s == "0" + [Digit(d)];
    }
  }

  // ---------------------------------------------------------------------
  // Unit selection: formatBytes and formatSize

  const Unit: int := 1024
  /** The unit letters, indexed by the exponent the loop settles on. */
  const UnitLetters: string := "KMGTPE"

  function Pow1024(e: nat): (r: nat)
    ensures r >= 1
  {
    if e == 0 then 1 else Unit * Pow1024(e - 1)
  }

  lemma {:induction false} PowGrows(e: nat, f: nat)
    requires e <= f
    ensures Pow1024(e) <= Pow1024(f)
  {
    if e < f {
      PowGrows(e, f - 1);
    }
  }

  /** The largest power that fits an int64 is 1024^6. */
  lemma PowFitsInt64(e: nat)
    requires Pow1024(e) <= Int64Max
    ensures e <= 6
  {
    assert Pow1024(7) == 1180591620717411303424;
    if e >= 7 {
      PowGrows(7, e);
    }
  }

  /**
   * The division loop of formatBytes and formatSize: starting from
   * `div = 1024`, multiply by 1024 while `b / div >= 1024`.
   */
  method UnitScale(b: int64) returns (div: int64, exp: nat)
    requires b >= Unit
    ensures div == Pow1024(exp + 1)
    ensures div <= b && b / div < Unit
    ensures b < Pow1024(exp + 2)
    ensures exp < |UnitLetters|
  {
    div, exp := Unit, 0;
    var n := b / Unit;
    while n >= Unit
      invariant div == Pow1024(exp + 1) && div <= b
      invariant n == b / div
      decreases n
    {
      DivAtLeast(b, div, Unit);
      DivDiv(b, div, Unit);
      div := div * Unit;
      exp := exp + 1;
      n := n / Unit;
    }
    PowFitsInt64(exp + 1);
    assert b < Unit * div by {
      assert b == div * (b / div) + b % div;
      assert div * (b / div) <= div * (Unit - 1);
    }
  }

  /** Exactly one exponent places `b` between two consecutive powers. */
  lemma ScaleUnique(b: int, e: nat, f: nat)
    requires Pow1024(e + 1) <= b < Pow1024(e + 2)
    requires Pow1024(f + 1) <= b < Pow1024(f + 2)
    ensures e == f
  {
    if e < f {
      PowGrows(e + 2, f + 1);
    } else if f < e {
      PowGrows(f + 2, e + 1);
    }
  }

  /**
   * What a formatter prints: an exact text, or `amount / 1024^(exp+1)`
   * printed with `decimals` fraction digits followed by a space and `suffix`.
   */
  datatype Humanized =
    | Exact(text: string)
    | Scaled(amount: int, exp: nat, decimals: nat, suffix: string)

  /**
   * `r` is what a formatter with `decimals` fraction digits and unit letters
   * followed by `tail` prints for `n`: the decimal numeral and " B" below
   * 1024; otherwise `n` scaled by the one power 1024^(exp+1) that leaves
   * between 1 and 1024 units, with that power's letter.
   */
  predicate Describes(n: int, r: Humanized, decimals: nat, tail: string) {
    (n < Unit <==> r.Exact?) &&
    (r.Exact? ==> HasSuffix(r.text, " B") && ParseInt(r.text[..|r.text| - 2]) == Some(n)) &&
    (r.Scaled? ==>
      r.amount == n && r.decimals == decimals && r.exp < |UnitLetters| &&
      Pow1024(r.exp + 1) <= n < Pow1024(r.exp + 2) &&
      r.suffix == [UnitLetters[r.exp]] + tail)
  }

  /** Above 1024 there is exactly one description: the unit is determined by the value. */
  lemma DescribesUnique(n: int, r: Humanized, s: Humanized, decimals: nat, tail: string)
    requires n >= Unit
    requires Describes(n, r, decimals, tail) && Describes(n, s, decimals, tail)
    ensures r == s
  {
    ScaleUnique(n, r.exp, s.exp);
  }

  /** formatBytes and formatSize pick the same unit for the same value. */
  lemma SameUnit(n: int, r: Humanized, s: Humanized)
    requires n >= Unit
    requires Describes(n, r, 1, "iB") && Describes(n, s, 2, "B")
    ensures r.exp == s.exp
  {
    ScaleUnique(n, r.exp, s.exp);
  }

  /** formatBytes: "<b> B" below 1024, binary prefixes with one decimal above. */
  method FormatBytes(b: int64) returns (r: Humanized)
    ensures Describes(b, r, 1, "iB")
  {
    if b < Unit {
      r := Exact(IntText(b) + " B");
      IntTextRoundTrip(b);
      assert r.text[..|r.text| - 2] == IntText(b);
      return;
    }
    var div, exp := UnitScale(b);
    r := Scaled(b, exp, 1, [UnitLetters[exp]] + "iB");
  }

  /** formatSize: "<b> B" below 1024, "KB", "MB", ... with two decimals above. */
  method FormatSize(size: int64) returns (r: Humanized)
    ensures Describes(size, r, 2, "B")
  {
    if size < Unit {
      r := Exact(IntText(size) + " B");
      IntTextRoundTrip(size);
      assert r.text[..|r.text| - 2] == IntText(size);
      return;
    }
    var div, exp := UnitScale(size);
    r := Scaled(size, exp, 2, [UnitLetters[exp]] + "B");
  }

  // ---------------------------------------------------------------------
  // Durations: formatDuration

  const Second: int := 1_000_000_000
  const Minute: int := 60 * Second
  const Hour: int := 60 * Minute

  /** What formatDuration prints for a negative duration. */
  const NoEstimate: string := "--:--:--"

  /**
   * Go's `Duration.Round(time.Second)`: the nearest whole second, halves
   * away from zero, saturating at the int64 bounds when rounding away
   * would overflow.
   */
  function RoundToSecond(d: int64): (r: int64)
    ensures d >= 0 ==> r >= 0
    ensures r == Int64Max || r == Int64Min || r % Second == 0
    ensures r != Int64Max && r != Int64Min && d >= 0 ==> d - Second / 2 < r <= d + Second / 2
    ensures r != Int64Max && r != Int64Min && d < 0 ==> d - Second / 2 <= r < d + Second / 2
  {
    if d >= 0 then
      var rem := d % Second;
      WholeSeconds(d - rem, d / Second);
      WholeSeconds(d + Second - rem, d / Second + 1);
      if rem + rem < Second then d - rem
      else if d + Second - rem <= Int64Max then d + Second - rem
      else Int64Max
    else
      var rem := -(d as int) % Second;
      WholeSeconds(d + rem, -(-(d as int) / Second));
      WholeSeconds(d - Second + rem, -(-(d as int) / Second) - 1);
      if rem + rem < Second then d + rem
      else if d - Second + rem >= Int64Min then d - Second + rem
      else Int64Min
  }

  /** A whole number of seconds leaves no remainder. */
  lemma WholeSeconds(x: int, k: int)
    requires x == Second * k
    ensures x % Second == 0
  {
    DivUnique(x, Second, k, 0);
  }

  /** Two digits below sixty: the minutes and seconds fields of a clock. */
  predicate Sexagesimal(s: string) {
    |s| == 2 && Numeral(s) && DecimalValue(s) < 60
  }

  /** The hours field: at least one hour, two digits or more, no leading zero past two digits. */
  predicate Hours(s: string) {
    Numeral(s) && |s| >= 2 && (|s| == 2 || s[0] != '0') && DecimalValue(s) >= 1
  }

  /** Reads "hh:mm:ss" or "mm:ss" back into a number of seconds. */
  function ParseClock(s: string): Option<int> {
    ClockFields(Split(s, ':'))
  }

  /** The seconds the fields of a clock text stand for, when they form one. */
  function ClockFields(parts: seq<string>): Option<int> {
    if |parts| == 3 && Hours(parts[0]) && Sexagesimal(parts[1]) && Sexagesimal(parts[2]) then
      Some(DecimalValue(parts[0]) * 3600 + DecimalValue(parts[1]) * 60 + DecimalValue(parts[2]))
    else if |parts| == 2 && Sexagesimal(parts[0]) && Sexagesimal(parts[1]) then
      Some(DecimalValue(parts[0]) * 60 + DecimalValue(parts[1]))
    else
      None
  }

  lemma NoColon(s: string)
    requires Numeral(s)
    ensures ':' !in s
  {
    forall i | 0 <= i < |s|
      ensures s[i] != ':'
    {
      assert IsDigit(s[i]);
    }
  }

  /** Numerals joined by ':' split back into themselves, so the clock reading sees those fields. */
  lemma ParseJoined(fields: seq<string>)
    requires |fields| >= 1
    requires forall i :: 0 <= i < |fields| ==> Numeral(fields[i])
    ensures Split(Join(fields, ':'), ':') == fields
    ensures ParseClock(Join(fields, ':')) == ClockFields(fields)
  {
    forall i | 0 <= i < |fields|
      ensures ':' !in fields[i]
    {
      NoColon(fields[i]);
    }
    SplitJoin(fields, ':');
  }

  /** The three fields of `%02d:%02d:%02d` read as hours, minutes and seconds. */
  lemma FieldsThree(h: nat, m: nat, s: nat)
    requires h >= 1 && m < 60 && s < 60
    ensures ClockFields([Pad2(h), Pad2(m), Pad2(s)]) == Some(h * 3600 + m * 60 + s)
  {
    Pad2Value(h); Pad2Value(m); Pad2Value(s);
  }

  /** The two fields of `%02d:%02d` read as minutes and seconds. */
  lemma FieldsTwo(m: nat, s: nat)
    requires m < 60 && s < 60
    ensures ClockFields([Pad2(m), Pad2(s)]) == Some(m * 60 + s)
  {
    Pad2Value(m); Pad2Value(s);
  }

  /** Field lists that read as the same number of seconds are equal. */
  lemma FieldsUnique(fs: seq<string>, ft: seq<string>)
    requires ClockFields(fs).Some? && ClockFields(fs) == ClockFields(ft)
    ensures fs == ft
  {
    var v := ClockFields(fs).value;
    if |fs| == 3 {
      ThreeFields(fs, v);
      if |ft| == 3 {
        ThreeFields(ft, v);
      } else {
        TwoFields(ft, v);
      }
    } else {
      TwoFields(fs, v);
      if |ft| == 3 {
        ThreeFields(ft, v);
      } else {
        TwoFields(ft, v);
      }
    }
  }

  /** Three clock fields are the `%02d` texts of the hours, minutes and seconds of their value, from one hour on. */
  lemma ThreeFields(fs: seq<string>, v: int)
    requires |fs| == 3 && ClockFields(fs) == Some(v)
    ensures v >= 3600 && fs == [Pad2(v / 3600), Pad2(v % 3600 / 60), Pad2(v % 60)]
  {
    var h, m, s := DecimalValue(fs[0]), DecimalValue(fs[1]), DecimalValue(fs[2]);
    NumeralValue(fs[1]); NumeralValue(fs[2]);
    Pad2Text(fs[0]); Pad2Text(fs[1]); Pad2Text(fs[2]);
    DivUnique(v, 3600, h, m * 60 + s);
    DivUnique(m * 60 + s, 60, m, s);
    DivUnique(v, 60, h * 60 + m, s);
  }

  /** Two clock fields are the `%02d` texts of the minutes and seconds of their value, below one hour. */
  lemma TwoFields(fs: seq<string>, v: int)
    requires |fs| == 2 && ClockFields(fs) == Some(v)
    ensures v < 3600 && fs == [Pad2(v % 3600 / 60), Pad2(v % 60)]
  {
    var m, s := DecimalValue(fs[0]), DecimalValue(fs[1]);
    NumeralValue(fs[0]); NumeralValue(fs[1]);
    Pad2Text(fs[0]); Pad2Text(fs[1]);
    DivUnique(v, 3600, 0, v);
    DivUnique(v, 60, m, s);
  }

  /** Two clock texts that read as the same number of seconds are the same text. */
  lemma ClockTextUnique(r: string, t: string)
    requires ParseClock(r).Some? && ParseClock(r) == ParseClock(t)
    ensures r == t
  {
    FieldsUnique(Split(r, ':'), Split(t, ':'));
    JoinSplit(r, ':');
    JoinSplit(t, ':');
  }

  /**
   * formatDuration: "--:--:--" for a negative duration; otherwise the
   * duration rounded to the second, as "hh:mm:ss" from one hour on and
   * as "mm:ss" below.
   */
  method FormatDuration(d: int64) returns (r: string)
    ensures d < 0 ==> r == NoEstimate
    ensures d >= 0 ==> ParseClock(r) == Some(RoundToSecond(d) / Second)
    ensures d >= 0 ==> (|Split(r, ':')| == 3 <==> RoundToSecond(d) >= Hour)
  {
    if d < 0 {
      return NoEstimate;
    }
    var rounded: nat := RoundToSecond(d);
    var t: int := rounded;
    var h := t / Hour;
    t := t - h * Hour;
    var m := t / Minute;
    t := t - m * Minute;
    var s := t / Second;
    ClockParts(rounded, h, m, s);
    r := Clock(h, m, s);
  }

  /** `%02d:%02d:%02d` from one hour on, `%02d:%02d` below. */
  method Clock(h: nat, m: nat, s: nat) returns (r: string)
    requires m < 60 && s < 60
    ensures ParseClock(r) == Some(h * 3600 + m * 60 + s)
    ensures |Split(r, ':')| == 3 <==> h > 0
  {
    var fields: seq<string>;
    if h > 0 {
      fields := [Pad2(h), Pad2(m), Pad2(s)];
      FieldsThree(h, m, s);
    } else {
      fields := [Pad2(m), Pad2(s)];
      FieldsTwo(m, s);
    }
    r := Join(fields, ':');
    ParseJoined(fields);
  }

  /** The hour, minute and second fields add up to the whole seconds. */
  lemma ClockParts(t: nat, h: int, m: int, s: int)
    requires h == t / Hour
    requires m == (t - h * Hour) / Minute
    requires s == (t - h * Hour - m * Minute) / Second
    ensures 0 <= m < 60 && 0 <= s < 60 && h >= 0
    ensures h > 0 <==> t >= Hour
    ensures h * 3600 + m * 60 + s == t / Second
  {
    var t1 := t - h * Hour;
    var t2 := t1 - m * Minute;
    assert 0 <= t1 < Hour;
    assert 0 <= t2 < Minute;
    var q := h * 3600 + m * 60 + s;
    assert t == Second * q + t2 % Second;
    DivUnique(t, Second, q, t2 % Second);
  }
}
