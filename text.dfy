/**
 * Character classes and string helpers with Python's meaning: `str.isspace`
 * (which is also what `\s` matches in a `str` regular expression), `str.strip`,
 * `re.sub(r'\s+', ' ', ...)`, decimal rendering (`str(n)`, `f"{n:02d}"`),
 * `int(...)` on a run of ASCII digits, `str.split` on one separator and
 * `str.join`.
 */
module Text {

  /** The characters CPython treats as whitespace in `str.strip()` and in `\s`. */
  predicate IsSpace(ch: char) {
    ('\t' <= ch <= '\r') || ('\U{1C}' <= ch <= ' ') || ch == '\U{85}' || ch == '\U{A0}'
    || ch == '\U{1680}' || ('\U{2000}' <= ch <= '\U{200A}') || ch == '\U{2028}' || ch == '\U{2029}'
    || ch == '\U{202F}' || ch == '\U{205F}' || ch == '\U{3000}'
  }

  predicate IsDigit(ch: char) {
    '0' <= ch <= '9'
  }

  predicate AllDigits(s: string) {
    forall k :: 0 <= k < |s| ==> IsDigit(s[k])
  }

  // ---------------------------------------------------------------------------
  // Decimal numerals

  function DigitChar(d: nat): (ch: char)
    requires d < 10
    ensures IsDigit(ch)
  {
    ('0' as int + d) as char
  }

  function DigitValue(ch: char): (d: nat)
    requires IsDigit(ch)
    ensures d < 10 && DigitChar(d) == ch
  {
    ch as int - '0' as int
  }

  /** `str(n)` for a non-negative integer: its decimal digits, most significant first. */
  function Dec(n: nat): (r: string)
    ensures 1 <= |r| && AllDigits(r)
    ensures n < 10 <==> |r| == 1
  {
    if n < 10 then [DigitChar(n)] else Dec(n / 10) + [DigitChar(n % 10)]
  }

  /** `int(s)` for a string of ASCII digits (the empty string reads as 0). */
  function ParseDec(s: string): nat
    requires AllDigits(s)
  {
    if s == [] then 0 else 10 * ParseDec(s[..|s| - 1]) + DigitValue(s[|s| - 1])
  }

  lemma {:induction false} ParseDecOfDec(n: nat)
    ensures ParseDec(Dec(n)) == n
  {
    if n >= 10 {
      var s := Dec(n);
      assert s[..|s| - 1] == Dec(n / 10);
      ParseDecOfDec(n / 10);
    }
  }

  function Pow10(k: nat): (p: nat)
    ensures p >= 1
  {
    if k == 0 then 1 else 10 * Pow10(k - 1)
  }

  /** A numeral below 10^w has at most w digits. */
  lemma {:induction false} DecLength(n: nat, w: nat)
    requires 1 <= w && n < Pow10(w)
    ensures |Dec(n)| <= w
  {
    if n >= 10 {
      assert w >= 1;
      var p := Pow10(w - 1);
      assert n < 10 * p;
      assert n / 10 < p;
      DecLength(n / 10, w - 1);
      assert |Dec(n)| == |Dec(n / 10)| + 1;
    }
  }

  /** s with zeros put in front until it is at least `width` characters long. */
  function PadZeros(s: string, width: nat): string
    decreases width - |s|
  {
    if |s| < width then PadZeros("0" + s, width) else s
  }

  /** `f"{n:0{width}d}"`: the numeral of n, left-padded with zeros to at least `width` characters. */
  function ZeroPad(n: nat, width: nat): string {
    PadZeros(Dec(n), width)
  }

  /** Padding keeps a numeral's digits and value and makes it `width` long unless it was longer. */
  lemma {:induction false} PadZerosReads(s: string, width: nat)
    requires AllDigits(s)
    ensures AllDigits(PadZeros(s, width))
    ensures |PadZeros(s, width)| == if |s| < width then width else |s|
    ensures ParseDec(PadZeros(s, width)) == ParseDec(s)
    decreases width - |s|
  {
    if |s| < width {
      LeadingZero(s);
      PadZerosReads("0" + s, width);
    }
  }

  /** The padded numeral is all digits, as wide as asked unless n needs more, and reads back as n. */
  lemma ZeroPadReads(n: nat, width: nat)
    ensures AllDigits(ZeroPad(n, width))
    ensures |ZeroPad(n, width)| == if |Dec(n)| < width then width else |Dec(n)|
    ensures ParseDec(ZeroPad(n, width)) == n
  {
    ParseDecOfDec(n);
    PadZerosReads(Dec(n), width);
  }

  lemma {:induction false} LeadingZero(s: string)
    requires AllDigits(s)
    ensures AllDigits("0" + s) && ParseDec("0" + s) == ParseDec(s)
  {
    if s != [] {
      var t := "0" + s;
      assert t[..|t| - 1] == "0" + s[..|s| - 1];
      LeadingZero(s[..|s| - 1]);
    }
  }

  lemma DigitsAppend(x: string, y: string)
    requires AllDigits(x) && AllDigits(y)
    ensures AllDigits(x + y)
  {
    forall k | 0 <= k < |x + y| ensures IsDigit((x + y)[k]) {
      if k < |x| { assert (x + y)[k] == x[k]; } else { assert (x + y)[k] == y[k - |x|]; }
    }
  }

  lemma ShiftDigit(a: nat, p: nat, b: nat, d: nat)
    ensures 10 * (a * p + b) + d == a * (10 * p) + (10 * b + d)
  {
  }

  /** Reading a numeral made of two parts: the first part is worth 10^|y| times its value. */
  lemma {:induction false} ParseDecAppend(x: string, y: string)
    requires AllDigits(x) && AllDigits(y)
    ensures AllDigits(x + y)
    ensures ParseDec(x + y) == ParseDec(x) * Pow10(|y|) + ParseDec(y)
  {
    DigitsAppend(x, y);
    if y == [] {
      assert x + y == x;
    } else {
      var y' := y[..|y| - 1];
      var d := DigitValue(y[|y| - 1]);
      assert (x + y)[..|x + y| - 1] == x + y';
      ParseDecAppend(x, y');
      assert ParseDec(x + y) == 10 * ParseDec(x + y') + d;
      ShiftDigit(ParseDec(x), Pow10(|y'|), ParseDec(y'), d);
    }
  }

  /** A value below 10^width is padded to exactly `width` digits. */
  lemma PadWidth(n: nat, width: nat)
    requires 1 <= width && n < Pow10(width)
    ensures |ZeroPad(n, width)| == width
    ensures AllDigits(ZeroPad(n, width)) && ParseDec(ZeroPad(n, width)) == n
  {
    DecLength(n, width);
    ZeroPadReads(n, width);
  }

  // ---------------------------------------------------------------------------
  // Whitespace: `strip()` and `re.sub(r'\s+', ' ', s)`

  /** The number of whitespace characters at the start of s. */
  function LeadingSpaces(s: string): (k: nat)
    ensures k <= |s|
    ensures forall i :: 0 <= i < k ==> IsSpace(s[i])
    ensures k == |s| || !IsSpace(s[k])
  {
    if s != [] && IsSpace(s[0]) then 1 + LeadingSpaces(s[1..]) else 0
  }

  /** The number of whitespace characters at the end of s. */
  function TrailingSpaces(s: string): (k: nat)
    ensures k <= |s|
    ensures forall i :: |s| - k <= i < |s| ==> IsSpace(s[i])
    ensures k == |s| || !IsSpace(s[|s| - 1 - k])
  {
    if s != [] && IsSpace(s[|s| - 1]) then 1 + TrailingSpaces(s[..|s| - 1]) else 0
  }

  /** `s.strip()`: s without its leading and trailing whitespace. */
  function Strip(s: string): (r: string)
    ensures |r| <= |s|
    ensures r == [] || (!IsSpace(r[0]) && !IsSpace(r[|r| - 1]))
    ensures LeadingSpaces(s) + |r| <= |s|
    ensures forall k :: 0 <= k < |r| ==> r[k] == s[LeadingSpaces(s) + k]
    ensures forall i :: LeadingSpaces(s) + |r| <= i < |s| ==> IsSpace(s[i])
    ensures r == [] <==> forall i :: 0 <= i < |s| ==> IsSpace(s[i])
  {
    var a := LeadingSpaces(s);
    if a == |s| then [] else s[a..|s| - TrailingSpaces(s)]
  }

  /** Stripping a string that starts and ends with non-whitespace changes nothing. */
  lemma StripUnchanged(s: string)
    requires s != [] && !IsSpace(s[0]) && !IsSpace(s[|s| - 1])
    ensures Strip(s) == s
  {
    assert LeadingSpaces(s) == 0;
    assert TrailingSpaces(s) == 0;
  }

  /** `re.sub(r'\s+', ' ', s)`: every maximal run of whitespace becomes one space. */
  function Collapse(s: string): (r: string)
    decreases |s|
  {
    if s == [] then []
    else if IsSpace(s[0]) then " " + Collapse(s[LeadingSpaces(s)..])
    else [s[0]] + Collapse(s[1..])
  }

  /** The only whitespace in s is single spaces: no tab, newline or other space, and no two spaces in a row. */
  predicate Tidy(s: string) {
    (forall k :: 0 <= k < |s| && IsSpace(s[k]) ==> s[k] == ' ')
    && (forall k :: 0 <= k < |s| - 1 && s[k] == ' ' ==> s[k + 1] != ' ')
  }

  /** Collapsing never starts with a space unless the input does. */
  lemma {:induction false} CollapseHead(s: string)
    requires s != [] && !IsSpace(s[0])
    ensures Collapse(s) != [] && Collapse(s)[0] == s[0]
  {
  }

  lemma {:induction false} CollapseTidy(s: string)
    ensures Tidy(Collapse(s))
    decreases |s|
  {
    if s == [] {
    } else if IsSpace(s[0]) {
      var rest := s[LeadingSpaces(s)..];
      CollapseTidy(rest);
      if rest != [] {
        CollapseHead(rest);
      }
    } else {
      CollapseTidy(s[1..]);
    }
  }

  /** Tidy text is left as it is by collapsing: `re.sub(r'\s+', ' ', …)` has nothing to do. */
  lemma {:induction false} TidyCollapseId(s: string)
    requires Tidy(s)
    ensures Collapse(s) == s
    decreases |s|
  {
    if s != [] {
      TidySlice(s, 1, |s|);
      TidyCollapseId(s[1..]);
      if IsSpace(s[0]) {
        assert s[0] == ' ';
        assert LeadingSpaces(s) == 1 by {
          if |s| > 1 {
            assert s[1] != ' ';
            assert !IsSpace(s[1]);
          }
        }
      }
      assert s == [s[0]] + s[1..];
    }
  }

  /** Collapsing keeps every non-whitespace character and adds none. */
  lemma {:induction false} CollapseChars(s: string, x: char)
    requires !IsSpace(x)
    ensures x in Collapse(s) <==> x in s
    decreases |s|
  {
    if s == [] {
    } else if IsSpace(s[0]) {
      var rest := s[LeadingSpaces(s)..];
      CollapseChars(rest, x);
      assert x in s <==> x in rest by {
        if x in s {
          var i :| 0 <= i < |s| && s[i] == x;
          assert i >= LeadingSpaces(s);
          assert rest[i - LeadingSpaces(s)] == x;
        }
      }
    } else {
      CollapseChars(s[1..], x);
      assert s == [s[0]] + s[1..];
    }
  }

  lemma TidySlice(s: string, a: nat, b: nat)
    requires Tidy(s) && a <= b <= |s|
    ensures Tidy(s[a..b])
  {
    var t := s[a..b];
    forall k | 0 <= k < |t| - 1 && t[k] == ' '
      ensures t[k + 1] != ' '
    {
      assert t[k] == s[a + k] && t[k + 1] == s[a + k + 1];
    }
  }

  /** Stripping a tidy string keeps it tidy. */
  lemma StripTidy(s: string)
    requires Tidy(s)
    ensures Tidy(Strip(s))
  {
    var r := Strip(s);
    if r != [] {
      var a := LeadingSpaces(s);
      assert r == s[a..a + |r|];
      TidySlice(s, a, a + |r|);
    }
  }

  // ---------------------------------------------------------------------------
  // Ordered pairs of delimiters

  /** No `o` in s is followed, anywhere later, by a `c`. */
  predicate NoEnclosed(s: string, o: char, c: char) {
    forall i, j :: 0 <= i < j < |s| && s[i] == o ==> s[j] != c
  }

  lemma NoEnclosedCons(x: char, t: string, o: char, c: char)
    ensures NoEnclosed([x] + t, o, c) <==> NoEnclosed(t, o, c) && (x == o ==> c !in t)
  {
    var s := [x] + t;
    if NoEnclosed(t, o, c) && (x == o ==> c !in t) {
      forall i, j | 0 <= i < j < |s| && s[i] == o
        ensures s[j] != c
      {
        assert s[j] == t[j - 1];
        if i > 0 {
          assert s[i] == t[i - 1];
        }
      }
    }
    if NoEnclosed(s, o, c) {
      forall i, j | 0 <= i < j < |t| && t[i] == o
        ensures t[j] != c
      {
        assert s[i + 1] == t[i] && s[j + 1] == t[j];
      }
      if x == o {
        forall j | 0 <= j < |t|
          ensures t[j] != c
        {
          assert s[0] == o && s[j + 1] == t[j];
        }
      }
    }
  }

  lemma NoEnclosedSlice(s: string, a: nat, b: nat, o: char, c: char)
    requires NoEnclosed(s, o, c) && a <= b <= |s|
    ensures NoEnclosed(s[a..b], o, c)
  {
    var t := s[a..b];
    forall i, j | 0 <= i < j < |t| && t[i] == o
      ensures t[j] != c
    {
      assert t[i] == s[a + i] && t[j] == s[a + j];
    }
  }

  /** Collapsing whitespace cannot bring a closing delimiter after an opening one. */
  lemma {:induction false} CollapseNoEnclosed(s: string, o: char, c: char)
    requires !IsSpace(o) && !IsSpace(c)
    requires NoEnclosed(s, o, c)
    ensures NoEnclosed(Collapse(s), o, c)
    decreases |s|
  {
    if s == [] {
    } else if IsSpace(s[0]) {
      var rest := s[LeadingSpaces(s)..];
      NoEnclosedSlice(s, LeadingSpaces(s), |s|, o, c);
      CollapseNoEnclosed(rest, o, c);
      NoEnclosedCons(' ', Collapse(rest), o, c);
    } else {
      assert s == [s[0]] + s[1..];
      NoEnclosedCons(s[0], s[1..], o, c);
      CollapseNoEnclosed(s[1..], o, c);
      CollapseChars(s[1..], c);
      NoEnclosedCons(s[0], Collapse(s[1..]), o, c);
    }
  }

  lemma StripNoEnclosed(s: string, o: char, c: char)
    requires NoEnclosed(s, o, c)
    ensures NoEnclosed(Strip(s), o, c)
  {
    var r := Strip(s);
    var a := LeadingSpaces(s);
    assert r == s[a..a + |r|];
    NoEnclosedSlice(s, a, a + |r|, o, c);
  }

  // ---------------------------------------------------------------------------
  // Splitting and joining

  /** The index of the first `x` in s. */
  function IndexOf(s: string, x: char): (i: nat)
    requires x in s
    ensures i < |s| && s[i] == x && x !in s[..i]
  {
    if s[0] == x then 0 else 1 + IndexOf(s[1..], x)
  }

  /** `s.split(sep)` for a one-character separator. */
  function Split(s: string, sep: char): (parts: seq<string>)
    ensures |parts| >= 1
    decreases |s|
  {
    if sep in s then
      var i := IndexOf(s, sep);
      [s[..i]] + Split(s[i + 1..], sep)
    else [s]
  }

  lemma SplitCons(x: string, sep: char, y: string)
    requires sep !in x
    ensures Split(x + [sep] + y, sep) == [x] + Split(y, sep)
  {
    var s := x + [sep] + y;
    assert s[|x|] == sep;
    var i := IndexOf(s, sep);
    assert forall k :: 0 <= k < |x| ==> s[k] == x[k];
    assert i >= |x|;
    assert i <= |x|;
    assert s[..i] == x;
    assert s[i + 1..] == y;
  }

  /** `sep.join(parts)`. */
  function Join(parts: seq<string>, sep: string): string {
    if parts == [] then ""
    else if |parts| == 1 then parts[0]
    else parts[0] + sep + Join(parts[1..], sep)
  }
}
