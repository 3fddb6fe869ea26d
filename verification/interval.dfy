/**
 * `_interval_to_seconds` of the sample market maker (sample/mm/lib/ohlcv.py):
 * a candle interval such as "15m" or "4h" to seconds. The number in front of
 * the suffix is read by Python's `int`, modelled here on ASCII text: optional
 * surrounding whitespace, an optional sign, and decimal digits that may be
 * separated by single underscores.
 */
module Interval {
  import opened Events

  predicate IsDigit(c: char) { '0' <= c <= '9' }

  /** The ASCII characters `str.isspace` accepts. */
  predicate IsSpace(c: char) {
    // space, tab to carriage return (9-13), and the separators 28-31
    c == ' ' || 9 <= c as int <= 13 || 28 <= c as int <= 31
  }

  function DigitValue(c: char): nat
    requires IsDigit(c)
  {
    (c as int - '0' as int) as nat
  }

  /** `s` without its leading and trailing whitespace. */
  function Strip(s: string): (r: string)
    ensures |r| <= |s|
    ensures r != [] ==> !IsSpace(r[0]) && !IsSpace(r[|r| - 1])
    decreases |s|
  {
    if s == [] then s
    else if IsSpace(s[0]) then Strip(s[1..])
    else if IsSpace(s[|s| - 1]) then Strip(s[..|s| - 1])
    else s
  }

  /** The value of a run of decimal digits with single underscores between digits; None for anything else. */
  function Digits(s: string): (r: Option<nat>)
    ensures r.Some? ==> s != [] && IsDigit(s[0]) && IsDigit(s[|s| - 1])
    decreases |s|
  {
    if s == [] || !IsDigit(s[|s| - 1]) then None
    else
      var p := s[..|s| - 1];
      if p == [] then Some(DigitValue(s[|s| - 1]))
      else
        var p2 := if p[|p| - 1] == '_' then p[..|p| - 1] else p;
        match Digits(p2)
        case None => None
        case Some(v) =>
          assert p2[0] == s[0];
          Some(v * 10 + DigitValue(s[|s| - 1]))
  }

  /** Python's `int(s)` in base 10: whitespace, an optional sign, digits; anything else raises ValueError. */
  function ParseInt(s: string): (r: Result<int>)
  {
    var t := Strip(s);
    var negative := t != [] && t[0] == '-';
    var body := if t != [] && (t[0] == '-' || t[0] == '+') then t[1..] else t;
    match Digits(body)
    case None => Err(ValueError("invalid literal for int() with base 10"))
    case Some(v) => Ok(if negative then -(v as int) else v)
  }

  /** `_interval_to_seconds`: minutes for an "m" suffix, hours for an "h" suffix, ValueError for any other. */
  function IntervalToSeconds(interval: string): (r: Result<int>)
  {
    if |interval| > 0 && interval[|interval| - 1] == 'm' then
      match ParseInt(interval[..|interval| - 1])
      case Ok(n) => Ok(n * 60)
      case Err(e) => Err(e)
    else if |interval| > 0 && interval[|interval| - 1] == 'h' then
      match ParseInt(interval[..|interval| - 1])
      case Ok(n) => Ok(n * 60 * 60)
      case Err(e) => Err(e)
    else Err(ValueError("Invalid interval: " + interval))
  }

  /** The decimal text of `n`, without sign, leading zeros or underscores. */
  function NatToString(n: nat): (r: string)
    ensures r != [] && forall k | 0 <= k < |r| :: IsDigit(r[k])
  {
    if n < 10 then ['0' + n as char]
    else NatToString(n / 10) + ['0' + (n % 10) as char]
  }

  /** Reading the decimal text of `n` gives `n` back. */
  lemma {:induction false} DigitsOfNatToString(n: nat)
    ensures Digits(NatToString(n)) == Some(n)
  {
    if n >= 10 {
      DigitsOfNatToString(n / 10);
      var s := NatToString(n);
      assert s[..|s| - 1] == NatToString(n / 10);
    }
  }

  /** `int` reads back the decimal text of any natural number. */
  lemma ParseIntRoundTrip(n: nat)
    ensures ParseInt(NatToString(n)) == Ok(n)
  {
    var s := NatToString(n);
    assert !IsSpace(s[0]) && !IsSpace(s[|s| - 1]);
    assert Strip(s) == s;
    DigitsOfNatToString(n);
  }

  /** "<N>m" is N minutes and "<N>h" is N hours, in seconds, for every natural N. */
  lemma IntervalScales(n: nat)
    ensures IntervalToSeconds(NatToString(n) + "m") == Ok(n * 60)
    ensures IntervalToSeconds(NatToString(n) + "h") == Ok(n * 3600)
  {
    ParseIntRoundTrip(n);
    Suffixed(NatToString(n), 'm');
    Suffixed(NatToString(n), 'h');
  }

  /** Text with a one-character suffix: its last character is the suffix and the rest is the text. */
  lemma Suffixed(t: string, u: char)
    ensures var w := t + [u];
      |w| > 0 && w[|w| - 1] == u && w[..|w| - 1] == t
  {
  }

  /**
   * The function succeeds only on text ending in "m" or "h" whose prefix `int`
   * accepts, and then its value is 60 or 3600 times that number; any other
   * suffix raises ValueError naming the interval.
   */
  lemma IntervalAccepts(interval: string)
    ensures var r := IntervalToSeconds(interval);
      var last := if interval == [] then ' ' else interval[|interval| - 1];
      var n := ParseInt(if interval == [] then [] else interval[..|interval| - 1]);
      && (r.Ok? <==> (last == 'm' || last == 'h') && n.Ok?)
      && (r.Ok? && last == 'm' ==> r.value == n.value * 60)
      && (r.Ok? && last == 'h' ==> r.value == n.value * 3600)
      && (last != 'm' && last != 'h' ==> r == Err(ValueError("Invalid interval: " + interval)))
  {
  }

  /** A literal "<N><unit>" is read as N of that unit. */
  lemma Literal(n: nat, text: string, unit: char)
    requires text == NatToString(n) + [unit]
    ensures unit == 'm' ==> IntervalToSeconds(text) == Ok(n * 60)
    ensures unit == 'h' ==> IntervalToSeconds(text) == Ok(n * 3600)
  {
    IntervalScales(n);
  }

  /** Every interval literal of `TInterval` is a positive whole number of minutes: 1, 3, 5, 15, 30, 60, 120, 240 and 480. */
  lemma IntervalLiterals()
    ensures IntervalToSeconds("1m") == Ok(60)
    ensures IntervalToSeconds("3m") == Ok(180)
    ensures IntervalToSeconds("5m") == Ok(300)
    ensures IntervalToSeconds("15m") == Ok(900)
    ensures IntervalToSeconds("30m") == Ok(1800)
    ensures IntervalToSeconds("1h") == Ok(3600)
    ensures IntervalToSeconds("2h") == Ok(7200)
    ensures IntervalToSeconds("4h") == Ok(14400)
    ensures IntervalToSeconds("8h") == Ok(28800)
  {
    MinuteLiterals();
    HourLiterals();
  }

  lemma MinuteLiterals()
    ensures IntervalToSeconds("1m") == Ok(60)
    ensures IntervalToSeconds("3m") == Ok(180)
    ensures IntervalToSeconds("5m") == Ok(300)
    ensures IntervalToSeconds("15m") == Ok(900)
    ensures IntervalToSeconds("30m") == Ok(1800)
  {
    Literal(1, "1m", 'm');
    Literal(3, "3m", 'm');
    Literal(5, "5m", 'm');
    Literal(15, "15m", 'm');
    Literal(30, "30m", 'm');
  }

  lemma HourLiterals()
    ensures IntervalToSeconds("1h") == Ok(3600)
    ensures IntervalToSeconds("2h") == Ok(7200)
    ensures IntervalToSeconds("4h") == Ok(14400)
    ensures IntervalToSeconds("8h") == Ok(28800)
  {
    Literal(1, "1h", 'h');
    Literal(2, "2h", 'h');
    Literal(4, "4h", 'h');
    Literal(8, "8h", 'h');
  }
}
