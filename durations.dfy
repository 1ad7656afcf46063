/**
 * The duration codec of `YouTubeService`: `_seconds_to_duration` (a number of
 * seconds as `H:MM:SS` or `M:SS`) and `_parse_duration` (the time part of an
 * ISO 8601 duration such as `PT1H2M5S`, read with three regular expressions).
 */
module Durations {
  import opened Outcomes
  import opened Text

  /** The rendering both functions end with: `f"{h}:{m:02d}:{s:02d}"` when h > 0, else `f"{m}:{s:02d}"`. */
  function Clock(h: nat, m: nat, s: nat): string {
    if h > 0 then Dec(h) + ":" + ZeroPad(m, 2) + ":" + ZeroPad(s, 2)
    else Dec(m) + ":" + ZeroPad(s, 2)
  }

  /** `_seconds_to_duration(total)`: hours, minutes and seconds by integer division. */
  function SecondsToDuration(total: nat): string {
    Clock(total / 3600, (total % 3600) / 60, total % 60)
  }

  /** A field of two digits whose value is below 60. */
  predicate Sexagesimal(f: string) {
    |f| == 2 && AllDigits(f) && ParseDec(f) < 60
  }

  /**
   * Reads a rendered duration back into seconds: `H:MM:SS` with H > 0, or `M:SS`
   * with M < 60, where MM and SS are two digits below 60.
   */
  function ReadDuration(t: string): Option<nat> {
    ReadFields(Split(t, ':'))
  }

  /** h hours, m minutes and s seconds, in seconds. */
  function Seconds(h: nat, m: nat, s: nat): nat {
    3600 * h + 60 * m + s
  }

  /** The seconds that the colon-separated fields of a rendered duration stand for. */
  function ReadFields(f: seq<string>): Option<nat> {
    if |f| == 2 && f[0] != [] && AllDigits(f[0]) && ParseDec(f[0]) < 60 && Sexagesimal(f[1]) then
      Some(Seconds(0, ParseDec(f[0]), ParseDec(f[1])))
    else if |f| == 3 && f[0] != [] && AllDigits(f[0]) && ParseDec(f[0]) > 0
            && Sexagesimal(f[1]) && Sexagesimal(f[2]) then
      Some(Seconds(ParseDec(f[0]), ParseDec(f[1]), ParseDec(f[2])))
    else None
  }

  lemma NoColonInDigits(s: string)
    requires AllDigits(s)
    ensures ':' !in s
  {
  }

  /** The fields of a clock rendering: the hours only when h > 0, then the minutes and the seconds. */
  lemma ClockFields(h: nat, m: nat, s: nat)
    requires m < 60 && s < 60
    ensures h > 0 ==> Split(Clock(h, m, s), ':') == [Dec(h), ZeroPad(m, 2), ZeroPad(s, 2)]
    ensures h == 0 ==> Split(Clock(h, m, s), ':') == [Dec(m), ZeroPad(s, 2)]
  {
    if h > 0 {
      HoursFields(h, m, s);
    } else {
      MinutesFields(m, s);
    }
  }

  lemma SplitTwo(a: string, b: string)
    requires ':' !in a && ':' !in b
    ensures Split(a + [':'] + b, ':') == [a, b]
  {
    SplitCons(a, ':', b);
  }

  lemma SplitThree(a: string, b: string, c: string)
    requires ':' !in a && ':' !in b && ':' !in c
    ensures Split(a + [':'] + b + [':'] + c, ':') == [a, b, c]
  {
    assert a + [':'] + b + [':'] + c == a + [':'] + (b + [':'] + c);
    SplitCons(a, ':', b + [':'] + c);
    SplitTwo(b, c);
  }

  /** The fields of a padded value carry no colon. */
  lemma PaddedNoColon(n: nat)
    ensures ':' !in ZeroPad(n, 2)
  {
    ZeroPadReads(n, 2);
    NoColonInDigits(ZeroPad(n, 2));
  }

  lemma HoursFields(h: nat, m: nat, s: nat)
    requires h > 0
    ensures Split(Clock(h, m, s), ':') == [Dec(h), ZeroPad(m, 2), ZeroPad(s, 2)]
  {
    NoColonInDigits(Dec(h));
    PaddedNoColon(m);
    PaddedNoColon(s);
    SplitThree(Dec(h), ZeroPad(m, 2), ZeroPad(s, 2));
  }

  lemma MinutesFields(m: nat, s: nat)
    ensures Split(Clock(0, m, s), ':') == [Dec(m), ZeroPad(s, 2)]
  {
    NoColonInDigits(Dec(m));
    PaddedNoColon(s);
    SplitTwo(Dec(m), ZeroPad(s, 2));
  }

  /**
   * Field widths of `_seconds_to_duration`: the hours field appears exactly when
   * total >= 3600, the seconds are two digits below 60, and so are the minutes
   * after an hours field; without one the minutes are the unpadded numeral.
   */
  lemma SecondsToDurationFields(total: nat)
    ensures var f := Split(SecondsToDuration(total), ':');
      (|f| == 3 <==> total >= 3600) && (|f| == 2 <==> total < 3600)
      && Sexagesimal(f[|f| - 1]) && (|f| == 3 ==> Sexagesimal(f[1]))
      && (|f| == 2 ==> f[0] == Dec(total / 60))
  {
    var h, m, s := total / 3600, (total % 3600) / 60, total % 60;
    FieldsOfSeconds(total);
    if total < 3600 {
      assert total % 3600 == total;
      assert m == total / 60;
    }
    ClockFields(h, m, s);
    PadWidth(m, 2);
    PadWidth(s, 2);
  }

  /** A clock rendering with minutes and seconds below 60 reads back as 3600h + 60m + s. */
  lemma ReadClock(h: nat, m: nat, s: nat)
    requires m < 60 && s < 60
    ensures ReadDuration(Clock(h, m, s)) == Some(3600 * h + 60 * m + s)
  {
    if h > 0 {
      ReadHours(h, m, s);
    } else {
      ReadMinutes(m, s);
    }
  }

  /** A two-digit field below 60 reads back as its value. */
  lemma PaddedField(n: nat)
    requires n < 60
    ensures Sexagesimal(ZeroPad(n, 2)) && ParseDec(ZeroPad(n, 2)) == n
  {
    assert Pow10(2) == 100;
    PadWidth(n, 2);
  }

  lemma ReadThree(a: string, b: string, c: string, h: nat, m: nat, s: nat)
    requires a != [] && AllDigits(a) && ParseDec(a) == h > 0
    requires Sexagesimal(b) && ParseDec(b) == m && Sexagesimal(c) && ParseDec(c) == s
    ensures ReadFields([a, b, c]) == Some(3600 * h + 60 * m + s)
  {
    assert ReadFields([a, b, c]) == Some(Seconds(h, m, s));
  }

  lemma ReadTwo(a: string, b: string, m: nat, s: nat)
    requires a != [] && AllDigits(a) && ParseDec(a) == m < 60 && Sexagesimal(b) && ParseDec(b) == s
    ensures ReadFields([a, b]) == Some(60 * m + s)
  {
    assert ReadFields([a, b]) == Some(Seconds(0, m, s));
  }

  lemma ReadHours(h: nat, m: nat, s: nat)
    requires h > 0 && m < 60 && s < 60
    ensures ReadDuration(Clock(h, m, s)) == Some(3600 * h + 60 * m + s)
  {
    HoursFields(h, m, s);
    PaddedField(m);
    PaddedField(s);
    ParseDecOfDec(h);
    ReadThree(Dec(h), ZeroPad(m, 2), ZeroPad(s, 2), h, m, s);
    assert ReadDuration(Clock(h, m, s)) == ReadFields([Dec(h), ZeroPad(m, 2), ZeroPad(s, 2)]);
  }

  lemma ReadMinutes(m: nat, s: nat)
    requires m < 60 && s < 60
    ensures ReadDuration(Clock(0, m, s)) == Some(60 * m + s)
  {
    MinutesFields(m, s);
    PaddedField(s);
    ParseDecOfDec(m);
    ReadTwo(Dec(m), ZeroPad(s, 2), m, s);
    assert ReadDuration(Clock(0, m, s)) == ReadFields([Dec(m), ZeroPad(s, 2)]);
  }

  /** Reading the fields of `_seconds_to_duration(total)` back gives total. */
  lemma SecondsToDurationRoundTrip(total: nat)
    ensures ReadDuration(SecondsToDuration(total)) == Some(total)
  {
    FieldsOfSeconds(total);
    ReadClock(total / 3600, (total % 3600) / 60, total % 60);
  }

  // ---------------------------------------------------------------------------
  // `_parse_duration`

  /** The number of ASCII digits at the start of s (`\d+` is approximated by ASCII digits). */
  function DigitPrefix(s: string): (n: nat)
    ensures n <= |s| && AllDigits(s[..n])
    ensures n == |s| || !IsDigit(s[n])
  {
    if s != [] && IsDigit(s[0]) then
      var n := 1 + DigitPrefix(s[1..]);
      assert s[..n] == [s[0]] + s[1..][..n - 1];
      n
    else 0
  }

  /**
   * `int(re.search(r'(\d+)U', s).group(1))` for a unit letter U: the value of the
   * first digit run that is immediately followed by U, or None when there is
   * none (the `.group` call would then raise). A digit run that is not followed
   * by U fails at every position inside it, so the search resumes after it.
   */
  function FirstTagged(s: string, unit: char): Option<nat>
    decreases |s|
  {
    if s == [] then None
    else
      var n := DigitPrefix(s);
      if 0 < n < |s| && s[n] == unit then Some(ParseDec(s[..n]))
      else FirstTagged(s[if n == 0 then 1 else n..], unit)
  }

  /** `re.sub(r'\d+U', '', s)`: every digit run followed by U is removed together with the U. */
  function RemoveTagged(s: string, unit: char): string
    decreases |s|
  {
    if s == [] then []
    else
      var n := DigitPrefix(s);
      if 0 < n < |s| && s[n] == unit then RemoveTagged(s[n + 1..], unit)
      else if n == 0 then [s[0]] + RemoveTagged(s[1..], unit)
      else s[..n] + RemoveTagged(s[n..], unit)
  }

  /** The amount of a unit: 0 when its letter is absent, None when the letter has no digits before it. */
  function UnitAmount(s: string, unit: char): Option<nat> {
    if unit in s then FirstTagged(s, unit) else Some(0)
  }

  /** The text after the `PT` prefix (`duration_str[2:]`, empty for shorter strings). */
  function AfterPrefix(iso: string): string {
    if |iso| >= 2 then iso[2..] else ""
  }

  /**
   * What `_parse_duration` returns: None where it raises. Hours are read first and
   * their groups removed, then minutes, then seconds.
   */
  function ParsedDuration(iso: string): Option<string> {
    var d := AfterPrefix(iso);
    var h := UnitAmount(d, 'H');
    var d' := if 'H' in d then RemoveTagged(d, 'H') else d;
    var m := UnitAmount(d', 'M');
    var d'' := if 'M' in d' then RemoveTagged(d', 'M') else d';
    var s := UnitAmount(d'', 'S');
    if h.Some? && m.Some? && s.Some? then Some(Clock(h.value, m.value, s.value)) else None
  }

  /** `_parse_duration`, step by step as the source reassigns its variables. */
  method ParseDuration(iso: string) returns (r: Option<string>)
    ensures r == ParsedDuration(iso)
  {
    var d := AfterPrefix(iso);
    var hours, minutes, seconds := 0, 0, 0;
    if 'H' in d {
      var found := FirstTagged(d, 'H');
      if found.None? {
        return None;
      }
      hours := found.value;
      d := RemoveTagged(d, 'H');
    }
    if 'M' in d {
      var found := FirstTagged(d, 'M');
      if found.None? {
        return None;
      }
      minutes := found.value;
      d := RemoveTagged(d, 'M');
    }
    if 'S' in d {
      var found := FirstTagged(d, 'S');
      if found.None? {
        return None;
      }
      seconds := found.value;
    }
    r := Some(Clock(hours, minutes, seconds));
  }

  /** One optional `nU` component of an ISO 8601 time part. */
  function Component(amount: Option<nat>, unit: char): string {
    match amount
    case Some(n) => Dec(n) + [unit]
    case None => ""
  }

  /** `PT[nH][nM][nS]`: the time-only duration with designators of ISO 8601. */
  function IsoTime(h: Option<nat>, m: Option<nat>, s: Option<nat>): string {
    "PT" + Component(h, 'H') + Component(m, 'M') + Component(s, 'S')
  }

  lemma {:induction false} DigitPrefixOf(x: string, y: string)
    requires AllDigits(x) && (y == [] || !IsDigit(y[0]))
    ensures DigitPrefix(x + y) == |x|
  {
    if x != [] {
      assert (x + y)[1..] == x[1..] + y;
      DigitPrefixOf(x[1..], y);
    } else {
      assert x + y == y;
    }
  }

  lemma NotInDigits(x: string, ch: char)
    requires AllDigits(x) && !IsDigit(ch)
    ensures ch !in x
  {
  }

  /** A component at the front of the string is found by the search for its unit, and removed by the substitution. */
  lemma TaggedFront(n: nat, unit: char, rest: string)
    requires !IsDigit(unit)
    ensures FirstTagged(Dec(n) + [unit] + rest, unit) == Some(n)
    ensures RemoveTagged(Dec(n) + [unit] + rest, unit) == RemoveTagged(rest, unit)
  {
    var s := Dec(n) + [unit] + rest;
    DigitPrefixOf(Dec(n), [unit] + rest);
    assert s == Dec(n) + ([unit] + rest);
    assert s[..|Dec(n)|] == Dec(n);
    assert s[|Dec(n)| + 1..] == rest;
    ParseDecOfDec(n);
  }

  /** The substitution leaves a string without the unit letter unchanged. */
  lemma {:induction false} RemoveTaggedAbsent(s: string, unit: char)
    requires unit !in s
    ensures RemoveTagged(s, unit) == s
    decreases |s|
  {
    if s != [] {
      var n := DigitPrefix(s);
      var k := if n == 0 then 1 else n;
      assert n < |s| ==> s[n] != unit;
      assert unit !in s[k..] by {
        forall x | x in s[k..] ensures x in s {
          SuffixMember(s, k, x);
        }
      }
      RemoveTaggedAbsent(s[k..], unit);
      assert s == s[..k] + s[k..];
    }
  }

  lemma SuffixMember(s: string, k: nat, x: char)
    requires k <= |s| && x in s[k..]
    ensures x in s
  {
    var i :| 0 <= i < |s[k..]| && s[k..][i] == x;
    assert s[k + i] == x;
  }

  lemma ComponentLetters(a: Option<nat>, unit: char, ch: char)
    requires ch != unit && !IsDigit(ch)
    ensures ch !in Component(a, unit)
  {
    if a.Some? {
      NotInDigits(Dec(a.value), ch);
    }
  }

  /**
   * One step of `_parse_duration` on a component followed by text without its
   * unit letter: the amount is read (0 when absent) and the component removed.
   */
  lemma ComponentStep(a: Option<nat>, unit: char, rest: string)
    requires !IsDigit(unit) && unit !in rest
    ensures var d := Component(a, unit) + rest;
      UnitAmount(d, unit) == Some(a.GetOr(0))
      && (if unit in d then RemoveTagged(d, unit) else d) == rest
  {
    var d := Component(a, unit) + rest;
    if a.Some? {
      assert d == Dec(a.value) + [unit] + rest;
      TaggedFront(a.value, unit, rest);
      RemoveTaggedAbsent(rest, unit);
      assert d[|Dec(a.value)|] == unit;
    } else {
      assert d == rest;
    }
  }

  /**
   * On a well-formed `PT[nH][nM][nS]`, `_parse_duration` reads each present
   * component and counts an absent one as 0. It does not normalise: `PT90S`
   * gives `0:90`.
   */
  lemma ParseIsoTime(h: Option<nat>, m: Option<nat>, s: Option<nat>)
    ensures ParsedDuration(IsoTime(h, m, s)) == Some(Clock(h.GetOr(0), m.GetOr(0), s.GetOr(0)))
  {
    var sec := Component(s, 'S');
    var ms := Component(m, 'M') + sec;
    IsoTimeParts(h, m, s);
    ComponentLetters(m, 'M', 'H');
    ComponentLetters(s, 'S', 'H');
    ComponentLetters(s, 'S', 'M');
    ComponentStep(h, 'H', ms);
    ComponentStep(m, 'M', sec);
    ComponentStep(s, 'S', []);
    assert sec == Component(s, 'S') + [];
    ParsedSteps(IsoTime(h, m, s), Component(h, 'H') + ms, ms, sec, h.GetOr(0), m.GetOr(0), s.GetOr(0));
  }

  lemma IsoTimeParts(h: Option<nat>, m: Option<nat>, s: Option<nat>)
    ensures AfterPrefix(IsoTime(h, m, s)) == Component(h, 'H') + (Component(m, 'M') + Component(s, 'S'))
  {
    var c := Component(h, 'H') + (Component(m, 'M') + Component(s, 'S'));
    assert IsoTime(h, m, s) == "PT" + c;
  }

  /** The three reads and two removals of `_parse_duration`, given what each step yields. */
  lemma ParsedSteps(iso: string, d1: string, d2: string, d3: string, h: nat, m: nat, s: nat)
    requires AfterPrefix(iso) == d1
    requires UnitAmount(d1, 'H') == Some(h) && (if 'H' in d1 then RemoveTagged(d1, 'H') else d1) == d2
    requires UnitAmount(d2, 'M') == Some(m) && (if 'M' in d2 then RemoveTagged(d2, 'M') else d2) == d3
    requires UnitAmount(d3, 'S') == Some(s)
    ensures ParsedDuration(iso) == Some(Clock(h, m, s))
  {
  }

  /**
   * The two halves of the codec agree: for m, s < 60,
   * `_parse_duration("PT{h}H{m}M{s}S") == _seconds_to_duration(3600h + 60m + s)`.
   */
  lemma ParseAgreesWithSeconds(h: nat, m: nat, s: nat)
    requires m < 60 && s < 60
    ensures ParsedDuration(IsoTime(Some(h), Some(m), Some(s))) == Some(SecondsToDuration(3600 * h + 60 * m + s))
  {
    ParseIsoTime(Some(h), Some(m), Some(s));
    ClockOfFields(h, m, s);
  }

  /** Dividing 3600h + 60m + s gives back h, m and s. */
  lemma ClockOfFields(h: nat, m: nat, s: nat)
    requires m < 60 && s < 60
    ensures var t := 3600 * h + 60 * m + s; t / 3600 == h && (t % 3600) / 60 == m && t % 60 == s
  {
  }

  /** A number of seconds is 3600 times its hours plus 60 times its minutes plus its seconds. */
  lemma FieldsOfSeconds(total: nat)
    ensures (total % 3600) / 60 < 60
    ensures total == 3600 * (total / 3600) + 60 * ((total % 3600) / 60) + total % 60
  {
  }

  /** A unit letter with no digits before it makes `_parse_duration` raise. */
  lemma ParseDurationRaises()
    ensures ParsedDuration("PTH") == None
  {
    assert AfterPrefix("PTH") == "H";
    assert DigitPrefix("H") == 0;
    assert FirstTagged("H"[1..], 'H') == None;
  }

  /** The documented renderings of 30, 125 and 3725 seconds. */
  lemma SecondsExamples()
    ensures SecondsToDuration(30) == "0:30"
    ensures SecondsToDuration(125) == "2:05"
    ensures SecondsToDuration(3725) == "1:02:05"
  {
  }

  lemma MinutesSecondsText()
    ensures IsoTime(None, Some(4), Some(13)) == "PT4M13S"
  {
    assert Dec(13) == "13";
  }

  lemma MinutesSecondsClock()
    ensures Clock(0, 4, 13) == "4:13"
  {
    assert Dec(13) == "13";
    assert ZeroPad(13, 2) == "13";
  }

  /** `PT4M13S` reads as four minutes thirteen seconds. */
  lemma MinutesSecondsExample()
    ensures ParsedDuration("PT4M13S") == Some("4:13")
  {
    MinutesSecondsText();
    MinutesSecondsClock();
    ParseIsoTime(None, Some(4), Some(13));
  }

  /** `PT1H2M5S` reads as 3725 seconds. */
  lemma HoursExample()
    ensures ParsedDuration("PT1H2M5S") == Some(SecondsToDuration(3725))
  {
    assert IsoTime(Some(1), Some(2), Some(5)) == "PT1H2M5S";
    ParseAgreesWithSeconds(1, 2, 5);
  }

  /** Seconds are not carried into minutes: `PT90S` reads as `0:90`, which `ReadDuration` rejects. */
  lemma NoCarryExample()
    ensures ParsedDuration("PT90S") == Some("0:90")
    ensures ReadDuration("0:90") == None
  {
    NoCarryText();
    NoCarryClock();
    ParseIsoTime(None, None, Some(90));
    NoCarryRead();
  }

  lemma NoCarryText()
    ensures IsoTime(None, None, Some(90)) == "PT90S"
  {
    assert Dec(90) == "90";
  }

  lemma NoCarryClock()
    ensures Clock(0, 0, 90) == "0:90"
  {
    assert Dec(90) == "90";
    assert ZeroPad(90, 2) == "90";
  }

  lemma NoCarryRead()
    ensures ReadDuration(Clock(0, 0, 90)) == None
  {
    MinutesFields(0, 90);
    ZeroPadReads(90, 2);
  }
}
