/** The two chrono formats the CSV import reads, `%d.%m.%Y` for dates and
    `%H:%M` for times, as an explicit digit grammar with calendar and range
    checks. Each numeric item takes at most its width of ASCII digits (two,
    four for the year) and at least one; the separators must be present and
    nothing may follow the last item. */
module ChronoParse {
  import opened Basics
  import opened Text
  import opened Types

  /** A numeric item of at least one and at most `width` ASCII digits. */
  predicate IsNumber(s: string, width: nat) {
    1 <= |s| <= width && AllDigits(s)
  }

  /** `NaiveDate::parse_from_str(s, "%d.%m.%Y")`. */
  function ParseDate(s: string): (r: Option<Date>)
    ensures r.Some? ==> ValidDate(r.value)
  {
    var parts := SplitAt(s, '.');
    if |parts| == 3 && IsNumber(parts[0], 2) && IsNumber(parts[1], 2) && IsNumber(parts[2], 4) then
      var d := Date(DecimalValue(parts[2]), DecimalValue(parts[1]), DecimalValue(parts[0]));
      if ValidDate(d) then Some(d) else None
    else None
  }

  /** `NaiveTime::parse_from_str(s, "%H:%M")`: the seconds are zero. */
  function ParseTime(s: string): (r: Option<Time>)
    ensures r.Some? ==> ValidTime(r.value) && r.value.second == 0
  {
    var parts := SplitAt(s, ':');
    if |parts| == 2 && IsNumber(parts[0], 2) && IsNumber(parts[1], 2) then
      var t := Time(DecimalValue(parts[0]), DecimalValue(parts[1]), 0);
      if ValidTime(t) then Some(t) else None
    else None
  }

  // ---------------------------------------------------------------------------
  // The matching renderings, used to state the round trips

  /** The number zero-padded to `width` digits (chrono's `%d`, `%m`, `%H`, `%M`, `%Y`). */
  function Padded(n: nat, width: nat): (s: string)
    ensures |s| == width && AllDigits(s)
    decreases width
  {
    if width == 0 then [] else Padded(n / 10, width - 1) + [DigitChar(n % 10)]
  }

  function FormatDate(d: Date): string
    requires 0 <= d.year && 0 <= d.month && 0 <= d.day
  {
    Padded(d.day, 2) + "." + Padded(d.month, 2) + "." + Padded(d.year, 4)
  }

  function FormatTime(t: Time): string
    requires 0 <= t.hour && 0 <= t.minute
  {
    Padded(t.hour, 2) + ":" + Padded(t.minute, 2)
  }

  function Pow10(k: nat): (p: nat)
    ensures p >= 1
  {
    if k == 0 then 1 else 10 * Pow10(k - 1)
  }

  lemma {:induction false} PaddedValue(n: nat, width: nat)
    requires n < Pow10(width)
    ensures DecimalValue(Padded(n, width)) == n
    decreases width
  {
    if width > 0 {
      var s := Padded(n, width);
      assert s[..|s| - 1] == Padded(n / 10, width - 1);
      PaddedValue(n / 10, width - 1);
    }
  }

  lemma {:induction false} SplitAtFromConcat(a: string, c: char, b: string, cur: string)
    requires c !in a
    ensures SplitAtFrom(a + [c] + b, c, cur) == [cur + a] + SplitAtFrom(b, c, [])
    decreases |a|
  {
    if a == [] {
      assert (a + [c] + b)[0] == c && (a + [c] + b)[1..] == b;
      assert cur + a == cur;
    } else {
      assert (a + [c] + b)[0] == a[0] != c;
      assert (a + [c] + b)[1..] == a[1..] + [c] + b;
      SplitAtFromConcat(a[1..], c, b, cur + [a[0]]);
      assert cur + [a[0]] + a[1..] == cur + a;
    }
  }

  lemma {:induction false} SplitAtFromPlain(a: string, c: char, cur: string)
    requires c !in a
    ensures SplitAtFrom(a, c, cur) == [cur + a]
    decreases |a|
  {
    if a == [] {
      assert cur + a == cur;
    } else {
      assert a[0] != c;
      SplitAtFromPlain(a[1..], c, cur + [a[0]]);
      assert cur + [a[0]] + a[1..] == cur + a;
    }
  }

  lemma DigitsHaveNo(s: string, c: char)
    requires AllDigits(s) && !IsDigit(c)
    ensures c !in s
  {
  }

  /** Every calendar date with a four-digit year reads back from its
      `%d.%m.%Y` rendering. */
  lemma FormatDateSplits(d: Date)
    requires 0 <= d.year && 0 <= d.month && 0 <= d.day
    ensures SplitAt(FormatDate(d), '.') == [Padded(d.day, 2), Padded(d.month, 2), Padded(d.year, 4)]
  {
    var a, b, y := Padded(d.day, 2), Padded(d.month, 2), Padded(d.year, 4);
    DigitsHaveNo(a, '.');
    DigitsHaveNo(b, '.');
    DigitsHaveNo(y, '.');
    assert FormatDate(d) == a + ['.'] + (b + ['.'] + y);
    SplitAtFromConcat(a, '.', b + ['.'] + y, []);
    SplitAtFromConcat(b, '.', y, []);
    SplitAtFromPlain(y, '.', []);
    assert [] + a == a && [] + b == b && [] + y == y;
  }

  lemma ParseFormatDate(d: Date)
    requires ValidDate(d) && 0 <= d.year < 10000
    ensures ParseDate(FormatDate(d)) == Some(d)
  {
    FormatDateSplits(d);
    assert Pow10(2) == 100 && Pow10(4) == 10000;
    PaddedValue(d.day, 2);
    PaddedValue(d.month, 2);
    PaddedValue(d.year, 4);
  }

  /** Every time of day on a whole minute reads back from its `%H:%M` rendering. */
  lemma ParseFormatTime(t: Time)
    requires ValidTime(t) && t.second == 0
    ensures ParseTime(FormatTime(t)) == Some(t)
  {
    var h, m := Padded(t.hour, 2), Padded(t.minute, 2);
    DigitsHaveNo(h, ':');
    DigitsHaveNo(m, ':');
    assert FormatTime(t) == h + [':'] + m;
    SplitAtFromConcat(h, ':', m, []);
    SplitAtFromPlain(m, ':', []);
    assert [] + h == h && [] + m == m;
    assert SplitAt(FormatTime(t), ':') == [h, m];
    assert Pow10(2) == 100;
    PaddedValue(t.hour, 2);
    PaddedValue(t.minute, 2);
  }
}
