/**
 * Caption timestamps `HH:MM:SS.mmm` as times of day on one fixed date, and the
 * difference of two of them (`calc_duration`). Times and durations are whole
 * milliseconds.
 */
module Timestamp {
  import opened Wrappers

  const MillisPerDay: int := 86_400_000

  predicate IsDigit(c: char)
  {
    '0' <= c <= '9'
  }

  function DigitValue(c: char): nat
    requires IsDigit(c)
  {
    c as int - '0' as int
  }

  function DigitChar(n: nat): (c: char)
    requires n < 10
    ensures IsDigit(c) && DigitValue(c) == n
  {
    ('0' as int + n) as char
  }

  /**
   * The prefix the header-repair scan looks for: the regular expression
   * `^\d\d\:\d\d\:\d\d\.\d\d\d` (digits taken as ASCII digits).
   */
  predicate IsTimestampPrefix(s: string)
  {
    |s| >= 12
    && IsDigit(s[0]) && IsDigit(s[1]) && s[2] == ':'
    && IsDigit(s[3]) && IsDigit(s[4]) && s[5] == ':'
    && IsDigit(s[6]) && IsDigit(s[7]) && s[8] == '.'
    && IsDigit(s[9]) && IsDigit(s[10]) && IsDigit(s[11])
  }

  function TwoDigits(s: string, i: nat): nat
    requires i + 2 <= |s| && IsDigit(s[i]) && IsDigit(s[i + 1])
  {
    10 * DigitValue(s[i]) + DigitValue(s[i + 1])
  }

  function ThreeDigits(s: string, i: nat): nat
    requires i + 3 <= |s| && IsDigit(s[i]) && IsDigit(s[i + 1]) && IsDigit(s[i + 2])
  {
    100 * DigitValue(s[i]) + 10 * DigitValue(s[i + 1]) + DigitValue(s[i + 2])
  }

  /**
   * `time.fromisoformat` on the one form caption files use, as milliseconds
   * since midnight; `None` where that call would raise (wrong shape, hour
   * 24 or more, minute or second 60 or more).
   */
  function ParseTimestamp(s: string): (r: Option<int>)
    ensures r.Some? ==> 0 <= r.value < MillisPerDay
    ensures r.Some? ==> |s| == 12 && IsTimestampPrefix(s)
  {
    if |s| == 12 && IsTimestampPrefix(s) then
      var h, m, sec, ms := TwoDigits(s, 0), TwoDigits(s, 3), TwoDigits(s, 6), ThreeDigits(s, 9);
      if h < 24 && m < 60 && sec < 60 then Some(((h * 60 + m) * 60 + sec) * 1000 + ms) else None
    else
      None
  }

  /** Two decimal digits, with a leading zero. */
  function Pad2(n: nat): (s: string)
    requires n < 100
    ensures |s| == 2 && IsDigit(s[0]) && IsDigit(s[1]) && TwoDigits(s, 0) == n
  {
    [DigitChar(n / 10), DigitChar(n % 10)]
  }

  /** Three decimal digits, with leading zeros. */
  function Pad3(n: nat): (s: string)
    requires n < 1000
    ensures |s| == 3 && IsDigit(s[0]) && IsDigit(s[1]) && IsDigit(s[2]) && ThreeDigits(s, 0) == n
  {
    HundredsTensUnits(n);
    [DigitChar(n / 100), DigitChar(n / 10 % 10), DigitChar(n % 10)]
  }

  /** The fields of a time of day, laid out as `HH:MM:SS.mmm`. */
  function FormatFields(h: nat, m: nat, sec: nat, ms: nat): (s: string)
    requires h < 100 && m < 100 && sec < 100 && ms < 1000
    ensures |s| == 12 && IsTimestampPrefix(s)
    ensures TwoDigits(s, 0) == h && TwoDigits(s, 3) == m && TwoDigits(s, 6) == sec && ThreeDigits(s, 9) == ms
  {
    var s := Pad2(h) + ":" + Pad2(m) + ":" + Pad2(sec) + "." + Pad3(ms);
    assert s[0..2] == Pad2(h) && s[3..5] == Pad2(m) && s[6..8] == Pad2(sec) && s[9..12] == Pad3(ms);
    s
  }

  /** Writes a time of day in the form `HH:MM:SS.mmm`. */
  function FormatTimestamp(t: int): (s: string)
    requires 0 <= t < MillisPerDay
    ensures |s| == 12 && IsTimestampPrefix(s)
  {
    var ms, q1 := t % 1000, t / 1000;
    var sec, q2 := q1 % 60, q1 / 60;
    var m, h := q2 % 60, q2 / 60;
    FormatFields(h, m, sec, ms)
  }

  /** A number below 1000 is its hundreds, tens and units. */
  lemma HundredsTensUnits(n: nat)
    requires n < 1000
    ensures n / 100 < 10 && n == 100 * (n / 100) + 10 * (n / 10 % 10) + n % 10
  {
    var q := n / 10;
    assert n == 10 * q + n % 10;
    assert q == 10 * (q / 10) + q % 10;
    DivModUnique(n, 100, q / 10, 10 * (q % 10) + n % 10);
  }

  lemma DivModUnique(x: int, d: int, q: int, r: int)
    requires d > 0 && 0 <= r < d && x == q * d + r
    ensures x / d == q && x % d == r
  {
    var q', r' := x / d, x % d;
    assert x == q' * d + r';
    assert (q - q') * d == r' - r;
    if q > q' {
      MulAtLeast(q - q', d);
    } else if q < q' {
      MulAtLeast(q' - q, d);
    }
  }

  lemma MulAtLeast(k: int, d: int)
    requires k >= 1 && d > 0
    ensures k * d >= d
  {
    assert k * d == (k - 1) * d + d;
  }

  /** Formatting a time of day and parsing it back gives the same time. */
  lemma ParseFormat(t: int)
    requires 0 <= t < MillisPerDay
    ensures ParseTimestamp(FormatTimestamp(t)) == Some(t)
  {
    var ms, q1 := t % 1000, t / 1000;
    var sec, q2 := q1 % 60, q1 / 60;
    var m, h := q2 % 60, q2 / 60;
    assert q2 == h * 60 + m;
    assert q1 == q2 * 60 + sec;
    assert t == q1 * 1000 + ms;
  }

  /** The digits of a two-digit field are recovered by `Pad2`. */
  lemma Pad2OfDigits(s: string, i: nat)
    requires i + 2 <= |s| && IsDigit(s[i]) && IsDigit(s[i + 1])
    ensures Pad2(TwoDigits(s, i)) == s[i..i + 2]
  {
    DivModUnique(TwoDigits(s, i), 10, DigitValue(s[i]), DigitValue(s[i + 1]));
  }

  /** The digits of a three-digit field are recovered by `Pad3`. */
  lemma Pad3OfDigits(s: string, i: nat)
    requires i + 3 <= |s| && IsDigit(s[i]) && IsDigit(s[i + 1]) && IsDigit(s[i + 2])
    ensures Pad3(ThreeDigits(s, i)) == s[i..i + 3]
  {
    var a, b, c := DigitValue(s[i]), DigitValue(s[i + 1]), DigitValue(s[i + 2]);
    var n := ThreeDigits(s, i);
    DivModUnique(n, 100, a, 10 * b + c);
    DivModUnique(n, 10, 10 * a + b, c);
    DivModUnique(10 * a + b, 10, a, b);
  }

  /** The fields of a time of day are recovered from its millisecond count. */
  lemma FieldsOfTime(h: nat, m: nat, sec: nat, ms: nat)
    requires h < 24 && m < 60 && sec < 60 && ms < 1000
    ensures var t := ((h * 60 + m) * 60 + sec) * 1000 + ms;
      t % 1000 == ms && t / 1000 % 60 == sec && t / 1000 / 60 % 60 == m && t / 1000 / 60 / 60 == h
  {
    var t := ((h * 60 + m) * 60 + sec) * 1000 + ms;
    DivModUnique(t, 1000, (h * 60 + m) * 60 + sec, ms);
    DivModUnique((h * 60 + m) * 60 + sec, 60, h * 60 + m, sec);
    DivModUnique(h * 60 + m, 60, h, m);
  }

  /** A timestamp that parses is the formatting of its value: the two are inverse. */
  lemma FormatParse(s: string)
    requires ParseTimestamp(s).Some?
    ensures FormatTimestamp(ParseTimestamp(s).value) == s
  {
    var h, m, sec, ms := TwoDigits(s, 0), TwoDigits(s, 3), TwoDigits(s, 6), ThreeDigits(s, 9);
    FormatOfFields(h, m, sec, ms, ParseTimestamp(s).value);
    FieldsRecovered(s);
  }

  /** A string of the timestamp form is laid out again from the values of its fields. */
  lemma FieldsRecovered(s: string)
    requires |s| == 12 && IsTimestampPrefix(s)
    ensures s == FormatFields(TwoDigits(s, 0), TwoDigits(s, 3), TwoDigits(s, 6), ThreeDigits(s, 9))
  {
    Pad2OfDigits(s, 0);
    Pad2OfDigits(s, 3);
    Pad2OfDigits(s, 6);
    Pad3OfDigits(s, 9);
    TimestampPieces(s);
  }

  /** The formatting of a time of day with the given fields lays out those fields. */
  lemma FormatOfFields(h: nat, m: nat, sec: nat, ms: nat, t: int)
    requires h < 24 && m < 60 && sec < 60 && ms < 1000
    requires t == ((h * 60 + m) * 60 + sec) * 1000 + ms
    ensures 0 <= t < MillisPerDay && FormatTimestamp(t) == FormatFields(h, m, sec, ms)
  {
    FieldsOfTime(h, m, sec, ms);
    var q1 := t / 1000;
    var q2 := q1 / 60;
    assert t % 1000 == ms && q1 % 60 == sec && q2 % 60 == m && q2 / 60 == h;
  }

  /** A string of the timestamp form is its fields with their separators. */
  lemma TimestampPieces(s: string)
    requires |s| == 12 && IsTimestampPrefix(s)
    ensures s == s[0..2] + ":" + s[3..5] + ":" + s[6..8] + "." + s[9..12]
  {
  }

  /**
   * `calc_duration`: end minus start, both read as times of day on the same
   * date; no sign check, so a cue that ends before it starts has a negative
   * duration. `None` where either timestamp fails to parse.
   */
  function CalcDuration(start: string, end: string): (d: Option<int>)
    ensures d.Some? <==> ParseTimestamp(start).Some? && ParseTimestamp(end).Some?
    ensures d.Some? ==> -MillisPerDay < d.value < MillisPerDay
    ensures d.Some? ==> ParseTimestamp(start).value + d.value == ParseTimestamp(end).value
  {
    match (ParseTimestamp(start), ParseTimestamp(end))
    case (Some(s), Some(e)) => Some(e - s)
    case _ => None
  }

  /**
   * On well-formed timestamps the duration is the difference of the two
   * times, negative when the end lies before the start.
   */
  lemma CalcDurationOfTimes(a: int, b: int)
    requires 0 <= a < MillisPerDay && 0 <= b < MillisPerDay
    ensures CalcDuration(FormatTimestamp(a), FormatTimestamp(b)) == Some(b - a)
    ensures b < a ==> CalcDuration(FormatTimestamp(a), FormatTimestamp(b)).value < 0
  {
    ParseFormat(a);
    ParseFormat(b);
  }

  /** A well-formed timestamp at the start of a line is what the header-repair scan detects. */
  lemma TimestampLineDetected(t: int, rest: string)
    requires 0 <= t < MillisPerDay
    ensures IsTimestampPrefix(FormatTimestamp(t) + rest)
  {
    var s := FormatTimestamp(t) + rest;
    assert s[..12] == FormatTimestamp(t);
  }
}
