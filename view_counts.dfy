/**
 * `_format_view_count`: a count of a million or more as millions with one
 * decimal and an `M`, of a thousand or more as thousands with one decimal and a
 * `K`, and anything smaller as its numeral with `,` between groups of three
 * digits (`f"{n:,}"`).
 */
module ViewCounts {
  import opened Outcomes
  import opened Text

  const Thousand: nat := 1000
  const Million: nat := 1000000

  /**
   * `n / unit` to one decimal, as a whole number of tenths: the nearest one, a
   * tie going to the even neighbour.
   */
  function Tenths(n: nat, unit: nat): (t: nat)
    requires unit > 0
    ensures -(unit as int) <= 2 * (t * unit - 10 * n) <= unit
  {
    var q := (10 * n) / unit;
    var r := (10 * n) % unit;
    TenthsArith(10 * n, unit, q, r);
    if 2 * r > unit || (2 * r == unit && q % 2 == 1) then q + 1 else q
  }

  /** The two candidates of Tenths, q and q + 1, lie r and unit - r from the exact value. */
  lemma TenthsArith(x: nat, unit: nat, q: nat, r: nat)
    requires unit > 0 && q == x / unit && r == x % unit
    ensures 0 <= r < unit
    ensures q * unit + r == x
    ensures (q + 1) * unit == x + (unit - r)
  {
    assert x == q * unit + r;
    assert (q + 1) * unit == q * unit + unit;
  }

  /** `f"{x:.1f}"` for x = t / 10. */
  function OneDecimal(t: nat): string {
    Dec(t / 10) + "." + [DigitChar(t % 10)]
  }

  /** `f"{k:,}"` for k >= 0: groups of three digits separated by commas. */
  function Grouped(k: nat): (r: string)
    ensures r != [] && IsDigit(r[|r| - 1])
    ensures k < 1000 ==> r == Dec(k)
  {
    if k < 1000 then Dec(k)
    else
      ZeroPadReads(k % 1000, 3);
      Grouped(k / 1000) + "," + ZeroPad(k % 1000, 3)
  }

  /** `f"{n:,}"`: a minus sign in front of the grouped magnitude of a negative n. */
  function SignedGrouped(n: int): string {
    if n < 0 then "-" + Grouped(-n) else Grouped(n)
  }

  /** `_format_view_count(n)`. */
  function FormatViewCount(n: int): string {
    if n >= Million then OneDecimal(Tenths(n, Million)) + "M"
    else if n >= Thousand then OneDecimal(Tenths(n, Thousand)) + "K"
    else SignedGrouped(n)
  }

  // ---------------------------------------------------------------------------
  // Reading a formatted count back

  /** s without its commas. */
  function DropCommas(s: string): (r: string)
    ensures |r| <= |s|
  {
    if s == [] then []
    else if s[0] == ',' then DropCommas(s[1..])
    else [s[0]] + DropCommas(s[1..])
  }

  /** The number a plain (unscaled) rendering stands for. */
  function ReadPlain(r: string): Option<int> {
    if r != [] && r[0] == '-' then
      var d := DropCommas(r[1..]);
      if AllDigits(d) then Some(-(ParseDec(d) as int)) else None
    else
      var d := DropCommas(r);
      if AllDigits(d) then Some(ParseDec(d) as int) else None
  }

  /** The tenths written as `<digits>.<digit>`. */
  function ReadOneDecimal(s: string): Option<nat> {
    if |s| >= 3 && s[|s| - 2] == '.' && AllDigits(s[..|s| - 2]) && IsDigit(s[|s| - 1])
    then Some(10 * ParseDec(s[..|s| - 2]) + DigitValue(s[|s| - 1]))
    else None
  }

  /** The unit a suffix stands for. */
  function SuffixUnit(ch: char): Option<nat> {
    if ch == 'M' then Some(Million) else if ch == 'K' then Some(Thousand) else None
  }

  /** A scaled rendering read back as (tenths, unit). */
  function ReadScaled(r: string): Option<(nat, nat)> {
    if r == [] then None
    else
      match (ReadOneDecimal(r[..|r| - 1]), SuffixUnit(r[|r| - 1]))
      case (Some(t), Some(unit)) => Some((t, unit))
      case _ => None
  }

  // ---------------------------------------------------------------------------
  // Properties

  lemma {:induction false} DropCommasAppend(a: string, b: string)
    ensures DropCommas(a + b) == DropCommas(a) + DropCommas(b)
  {
    if a == [] {
      assert a + b == b;
    } else {
      assert (a + b)[1..] == a[1..] + b;
      DropCommasAppend(a[1..], b);
    }
  }

  lemma {:induction false} DropCommasDigits(s: string)
    requires AllDigits(s)
    ensures DropCommas(s) == s
  {
    if s != [] {
      DropCommasDigits(s[1..]);
      assert s == [s[0]] + s[1..];
    }
  }

  /** Dropping the commas of a grouped rendering joins its leading groups to its last one. */
  lemma GroupedJoin(k: nat)
    requires k >= 1000
    ensures DropCommas(Grouped(k)) == DropCommas(Grouped(k / 1000)) + ZeroPad(k % 1000, 3)
  {
    var hi := Grouped(k / 1000);
    var lo := ZeroPad(k % 1000, 3);
    assert DropCommas(lo) == lo by {
      ZeroPadReads(k % 1000, 3);
      DropCommasDigits(lo);
    }
    assert DropCommas(hi + ",") == DropCommas(hi) by {
      DropCommasAppend(hi, ",");
      assert DropCommas(",") == [];
      assert DropCommas(hi) + [] == DropCommas(hi);
    }
    assert Grouped(k) == hi + "," + lo;
    DropCommasAppend(hi + ",", lo);
  }

  /** The digits of a grouped rendering, commas dropped, read back as k. */
  lemma {:induction false} GroupedDigits(k: nat)
    ensures AllDigits(DropCommas(Grouped(k)))
    ensures ParseDec(DropCommas(Grouped(k))) == k
  {
    if k < 1000 {
      DropCommasDigits(Dec(k));
      ParseDecOfDec(k);
    } else {
      var hi := DropCommas(Grouped(k / 1000));
      var lo := ZeroPad(k % 1000, 3);
      GroupedDigits(k / 1000);
      GroupedJoin(k);
      assert Pow10(3) == 1000;
      PadWidth(k % 1000, 3);
      ParseDecAppend(hi, lo);
    }
  }

  lemma {:induction false} ReadOneDecimalOf(t: nat)
    ensures ReadOneDecimal(OneDecimal(t)) == Some(t)
  {
    var s := OneDecimal(t);
    assert s[..|s| - 2] == Dec(t / 10);
    assert s[|s| - 1] == DigitChar(t % 10);
    ParseDecOfDec(t / 10);
  }

  /** Which form a count takes is decided by the two thresholds alone. */
  lemma FormatViewCountSuffix(n: int)
    ensures var r := FormatViewCount(n);
            r != [] && (r[|r| - 1] == 'M' <==> n >= Million)
            && (r[|r| - 1] == 'K' <==> Thousand <= n < Million)
            && (n < Thousand ==> IsDigit(r[|r| - 1]))
  {
  }

  lemma NegativeRoundTrip(n: int)
    requires n < 0
    ensures ReadPlain(FormatViewCount(n)) == Some(n)
  {
    assert FormatViewCount(n) == "-" + Grouped(-n);
    GroupedDigits(-n);
    ReadNegative(Grouped(-n), -n);
  }

  lemma ReadNegative(g: string, k: nat)
    requires AllDigits(DropCommas(g)) && ParseDec(DropCommas(g)) == k
    ensures ReadPlain("-" + g) == Some(-(k as int))
  {
    assert ("-" + g)[1..] == g;
  }

  /** A count below a thousand is written in full and reads back exactly. */
  lemma PlainRoundTrip(n: int)
    requires n < Thousand
    ensures ReadPlain(FormatViewCount(n)) == Some(n)
  {
    if n < 0 {
      NegativeRoundTrip(n);
    } else {
      GroupedDigits(n);
      assert FormatViewCount(n) == Dec(n);
    }
  }

  /**
   * A count of a thousand or more is written as tenths of its unit (millions
   * from a million on, else thousands) within half a tenth of the exact quotient.
   */
  lemma {:induction false} ScaledRoundTrip(n: int)
    requires n >= Thousand
    ensures var unit := if n >= Million then Million else Thousand;
            exists t :: ReadScaled(FormatViewCount(n)) == Some((t, unit))
                        && -(unit as int) <= 2 * (t * unit - 10 * n) <= unit
  {
    var unit := if n >= Million then Million else Thousand;
    var t := Tenths(n, unit);
    var r := FormatViewCount(n);
    assert r == OneDecimal(t) + [if n >= Million then 'M' else 'K'];
    assert r[..|r| - 1] == OneDecimal(t);
    ReadOneDecimalOf(t);
    assert ReadScaled(r) == Some((t, unit));
  }

  /** Counts below a thousand are written in full, with a comma between groups. */
  lemma PlainExamples()
    ensures FormatViewCount(999) == "999"
    ensures FormatViewCount(-1234) == "-1,234"
  {
    assert Dec(99) == "99";
    assert Dec(234) == "234";
    assert ZeroPad(234, 3) == "234";
  }

  lemma ThousandsExample()
    ensures FormatViewCount(1500) == "1.5K"
  {
    assert Tenths(1500, Thousand) == 15;
  }

  lemma MillionsExample()
    ensures FormatViewCount(2500000) == "2.5M"
  {
    assert Tenths(2500000, Million) == 25;
  }

  /** A tie goes to the even tenth: 1.25 million is written 1.2M. */
  lemma TieExample()
    ensures FormatViewCount(1250000) == "1.2M"
  {
    assert Tenths(1250000, Million) == 12;
  }

  /** Just under a million rounds up to a thousand thousands without switching to `M`. */
  lemma RoundUpExample()
    ensures FormatViewCount(999950) == "1000.0K"
  {
    assert Tenths(999950, Thousand) == 10000;
    assert Dec(1000) == "1000" by {
      assert Dec(10) == "10";
      assert Dec(100) == "100";
    }
  }
}
