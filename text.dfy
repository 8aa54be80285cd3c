/** String primitives of Rust's `str` that the core relies on: `split`, the
    UTF-8 byte length `len()`, `replace(c, "")`, decimal digits, `u64::from_str`
    and `u64::to_string`. Strings are sequences of Unicode scalar values. */
module Text {
  import opened Basics

  // ---------------------------------------------------------------------------
  // Splitting at a single-character separator: `str::split(c)`

  /** Splits `s` at every `c`; `cur` is the piece collected so far. */
  function SplitAtFrom(s: string, c: char, cur: string): (r: seq<string>)
    ensures |r| >= 1
    decreases |s|
  {
    if s == [] then [cur]
    else if s[0] == c then [cur] + SplitAtFrom(s[1..], c, [])
    else SplitAtFrom(s[1..], c, cur + [s[0]])
  }

  /** `s.split(c)`: always at least one piece. */
  function SplitAt(s: string, c: char): seq<string> {
    SplitAtFrom(s, c, [])
  }

  /** The inverse of splitting: the pieces with `sep` between neighbours. */
  function Join(pieces: seq<string>, sep: string): string
    decreases |pieces|
  {
    if pieces == [] then []
    else if |pieces| == 1 then pieces[0]
    else pieces[0] + sep + Join(pieces[1..], sep)
  }

  lemma {:induction false} JoinCons(p: string, rest: seq<string>, sep: string)
    requires |rest| >= 1
    ensures Join([p] + rest, sep) == p + sep + Join(rest, sep)
  {
    assert ([p] + rest)[1..] == rest;
  }

  lemma {:induction false} JoinSplitAtFrom(s: string, c: char, cur: string)
    ensures Join(SplitAtFrom(s, c, cur), [c]) == cur + s
    decreases |s|
  {
    if s == [] {
    } else if s[0] == c {
      JoinSplitAtFrom(s[1..], c, []);
      JoinCons(cur, SplitAtFrom(s[1..], c, []), [c]);
      assert cur + [c] + s[1..] == cur + s;
    } else {
      JoinSplitAtFrom(s[1..], c, cur + [s[0]]);
      assert cur + [s[0]] + s[1..] == cur + s;
    }
  }

  lemma {:induction false} SplitAtFromPiecesClean(s: string, c: char, cur: string)
    requires c !in cur
    ensures forall p | p in SplitAtFrom(s, c, cur) :: c !in p
    decreases |s|
  {
    if s == [] {
    } else if s[0] == c {
      SplitAtFromPiecesClean(s[1..], c, []);
    } else {
      SplitAtFromPiecesClean(s[1..], c, cur + [s[0]]);
    }
  }

  /** Splitting is undone by joining, and no piece contains the separator:
      together these pin the pieces down uniquely. */
  lemma SplitAtRoundTrip(s: string, c: char)
    ensures Join(SplitAt(s, c), [c]) == s
    ensures forall p | p in SplitAt(s, c) :: c !in p
  {
    JoinSplitAtFrom(s, c, []);
    SplitAtFromPiecesClean(s, c, []);
  }

  // ---------------------------------------------------------------------------
  // Splitting at the two-character row separator: `str::split("\r\n")`

  predicate StartsWithCrLf(s: string) {
    |s| >= 2 && s[0] == '\r' && s[1] == '\n'
  }

  /** `s` contains the two characters CR LF next to each other somewhere. */
  predicate HasCrLf(s: string) {
    exists i | 0 <= i < |s| - 1 :: s[i] == '\r' && s[i + 1] == '\n'
  }

  /** Leftmost, non-overlapping matching of CR LF, as Rust's pattern search does. */
  function SplitLinesFrom(s: string, cur: string): (r: seq<string>)
    ensures |r| >= 1
    decreases |s|
  {
    if s == [] then [cur]
    else if StartsWithCrLf(s) then [cur] + SplitLinesFrom(s[2..], [])
    else SplitLinesFrom(s[1..], cur + [s[0]])
  }

  /** `s.split("\r\n")`. */
  function SplitLines(s: string): seq<string> {
    SplitLinesFrom(s, [])
  }

  lemma CrLfPrefix(s: string)
    requires StartsWithCrLf(s)
    ensures s == "\r\n" + s[2..]
  {
    assert s[..2] == "\r\n";
    assert s == s[..2] + s[2..];
  }

  lemma {:induction false} JoinSplitLinesFrom(s: string, cur: string)
    ensures Join(SplitLinesFrom(s, cur), "\r\n") == cur + s
    decreases |s|
  {
    if s == [] {
    } else if StartsWithCrLf(s) {
      JoinSplitLinesFrom(s[2..], []);
      JoinCons(cur, SplitLinesFrom(s[2..], []), "\r\n");
      CrLfPrefix(s);
      assert cur + "\r\n" + s[2..] == cur + ("\r\n" + s[2..]);
    } else {
      JoinSplitLinesFrom(s[1..], cur + [s[0]]);
      assert cur + [s[0]] + s[1..] == cur + s;
    }
  }

  /** The piece being collected never holds CR LF, and never ends in CR when
      the rest of the input starts with LF (that CR LF would have matched). */
  lemma {:induction false} SplitLinesFromPiecesClean(s: string, cur: string)
    requires !HasCrLf(cur)
    requires |cur| > 0 && cur[|cur| - 1] == '\r' ==> !(|s| > 0 && s[0] == '\n')
    ensures forall p | p in SplitLinesFrom(s, cur) :: !HasCrLf(p)
    decreases |s|
  {
    if s == [] {
    } else if StartsWithCrLf(s) {
      SplitLinesFromPiecesClean(s[2..], []);
    } else {
      var next := cur + [s[0]];
      forall i | 0 <= i < |next| - 1
        ensures !(next[i] == '\r' && next[i + 1] == '\n')
      {
        if i < |cur| - 1 {
          assert next[i] == cur[i] && next[i + 1] == cur[i + 1];
        } else {
          assert next[i] == cur[|cur| - 1] && next[i + 1] == s[0];
        }
      }
      SplitLinesFromPiecesClean(s[1..], next);
    }
  }

  /** The rows recovered by splitting join back to the text, and none of them
      still holds a row separator. */
  lemma SplitLinesRoundTrip(s: string)
    ensures Join(SplitLines(s), "\r\n") == s
    ensures forall p | p in SplitLines(s) :: !HasCrLf(p)
  {
    JoinSplitLinesFrom(s, []);
    SplitLinesFromPiecesClean(s, []);
  }

  // ---------------------------------------------------------------------------
  // `replace(c, "")` and `len()`

  /** `s.replace(c, "")`. */
  function RemoveChar(s: string, c: char): (r: string)
    ensures c !in r
    ensures |r| <= |s|
    decreases |s|
  {
    if s == [] then []
    else if s[0] == c then RemoveChar(s[1..], c)
    else [s[0]] + RemoveChar(s[1..], c)
  }

  /** Number of UTF-8 bytes that encode `c`. */
  function Utf8Width(c: char): (n: nat)
    ensures 1 <= n <= 4
  {
    if c as int < 0x80 then 1
    else if c as int < 0x800 then 2
    else if c as int < 0x1_0000 then 3
    else 4
  }

  /** `str::len()`: the UTF-8 byte length, not the number of characters. */
  function Utf8Len(s: string): (n: nat)
    ensures n >= |s|
    ensures n <= 4 * |s|
    decreases |s|
  {
    if s == [] then 0 else Utf8Width(s[0]) + Utf8Len(s[1..])
  }

  // ---------------------------------------------------------------------------
  // Decimal digits

  predicate IsDigit(c: char) {
    '0' <= c <= '9'
  }

  predicate AllDigits(s: string) {
    forall i | 0 <= i < |s| :: IsDigit(s[i])
  }

  function DigitValue(c: char): (d: nat)
    requires IsDigit(c)
    ensures d < 10
  {
    c as int - '0' as int
  }

  function DigitChar(d: nat): (c: char)
    requires d < 10
    ensures IsDigit(c) && DigitValue(c) == d
  {
    ('0' as int + d) as char
  }

  /** The number a run of decimal digits denotes, most significant first. */
  function DecimalValue(s: string): nat
    requires AllDigits(s)
    decreases |s|
  {
    if s == [] then 0
    else DecimalValue(s[..|s| - 1]) * 10 + DigitValue(s[|s| - 1])
  }

  /** `n.to_string()` for an unsigned integer. */
  function Decimal(n: nat): (s: string)
    ensures |s| >= 1 && AllDigits(s)
    decreases n
  {
    if n < 10 then [DigitChar(n)] else Decimal(n / 10) + [DigitChar(n % 10)]
  }

  /** A rendering without superfluous leading zeros. */
  predicate Canonical(s: string) {
    |s| >= 1 && (s[0] == '0' ==> |s| == 1)
  }

  /** The digit run with its leading zeros dropped (one "0" is kept for zero). */
  function StripLeadingZeros(s: string): (r: string)
    decreases |s|
  {
    if |s| > 1 && s[0] == '0' then StripLeadingZeros(s[1..]) else s
  }

  lemma {:induction false} DecimalCanonical(n: nat)
    ensures Canonical(Decimal(n))
    ensures n > 0 ==> Decimal(n)[0] != '0'
    decreases n
  {
    if n >= 10 {
      DecimalCanonical(n / 10);
    }
  }

  lemma {:induction false} DecimalValueOfDecimal(n: nat)
    ensures DecimalValue(Decimal(n)) == n
    decreases n
  {
    if n >= 10 {
      var s := Decimal(n);
      assert s[..|s| - 1] == Decimal(n / 10);
      DecimalValueOfDecimal(n / 10);
    }
  }

  lemma {:induction false} DecimalValueLeadingZero(s: string)
    requires AllDigits(s) && |s| >= 1 && s[0] == '0'
    ensures AllDigits(s[1..]) && DecimalValue(s) == DecimalValue(s[1..])
    decreases |s|
  {
    if |s| > 1 {
      var p := s[..|s| - 1];
      assert p[1..] == s[1..][..|s[1..]| - 1];
      DecimalValueLeadingZero(p);
    }
  }

  lemma {:induction false} DecimalValuePositive(s: string)
    requires AllDigits(s) && |s| >= 1 && s[0] != '0'
    ensures DecimalValue(s) >= 1
    ensures |s| >= 2 ==> DecimalValue(s) >= 10
    decreases |s|
  {
    if |s| >= 2 {
      DecimalValuePositive(s[..|s| - 1]);
    }
  }

  lemma {:induction false} DecimalOfCanonical(s: string)
    requires AllDigits(s) && Canonical(s)
    ensures Decimal(DecimalValue(s)) == s
    decreases |s|
  {
    if |s| >= 2 {
      var p := s[..|s| - 1];
      DecimalValuePositive(s);
      DecimalOfCanonical(p);
      assert p + [s[|s| - 1]] == s;
    }
  }

  lemma {:induction false} StripLeadingZerosFacts(s: string)
    requires AllDigits(s) && |s| >= 1
    ensures AllDigits(StripLeadingZeros(s)) && Canonical(StripLeadingZeros(s))
    ensures DecimalValue(StripLeadingZeros(s)) == DecimalValue(s)
    decreases |s|
  {
    if |s| > 1 && s[0] == '0' {
      DecimalValueLeadingZero(s);
      StripLeadingZerosFacts(s[1..]);
    }
  }

  /** Rendering after reading a digit run drops exactly its leading zeros;
      reading after rendering gives the number back. */
  lemma DecimalRoundTrip(s: string, n: nat)
    requires AllDigits(s) && |s| >= 1
    ensures Decimal(DecimalValue(s)) == StripLeadingZeros(s)
    ensures DecimalValue(Decimal(n)) == n
  {
    StripLeadingZerosFacts(s);
    DecimalOfCanonical(StripLeadingZeros(s));
    DecimalValueOfDecimal(n);
  }

  // ---------------------------------------------------------------------------
  // `u64::from_str`

  /** The digit run `u64::from_str` reads: an optional leading `+` is skipped. */
  function UnsignedDigits(s: string): string {
    if |s| > 0 && s[0] == '+' then s[1..] else s
  }

  /** `s.parse::<u64>()`: an optional `+`, then one or more ASCII digits
      denoting a value below 2^64; nothing else is accepted. */
  function ParseU64(s: string): Option<u64> {
    var ds := UnsignedDigits(s);
    if |ds| >= 1 && AllDigits(ds) && DecimalValue(ds) < U64_LIMIT then Some(DecimalValue(ds) as u64)
    else None
  }

  /** Every `u64` reads back from its own rendering, with or without a `+`. */
  lemma ParseU64OfDecimal(n: u64)
    ensures ParseU64(Decimal(n)) == Some(n)
    ensures ParseU64("+" + Decimal(n)) == Some(n)
  {
    DecimalValueOfDecimal(n);
    assert ("+" + Decimal(n))[1..] == Decimal(n);
  }
}
