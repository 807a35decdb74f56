/** Character-level helpers: white space, names, and decimal numerals.

    White space is the set on which Python's `str.isspace`, `str.strip` and the `\s` of a
    `str` pattern agree. */
module Text {
  predicate IsSpace(c: char) {
    var n := c as int;
    || 0x09 <= n <= 0x0D || 0x1C <= n <= 0x20 || n == 0x85 || n == 0xA0 || n == 0x1680
    || 0x2000 <= n <= 0x200A || n == 0x2028 || n == 0x2029 || n == 0x202F || n == 0x205F
    || n == 0x3000
  }

  predicate IsDigit(c: char) { '0' <= c <= '9' }

  /** The class `[A-Za-z0-9_.-]`. */
  predicate IsNameChar(c: char) {
    'A' <= c <= 'Z' || 'a' <= c <= 'z' || IsDigit(c) || c == '_' || c == '.' || c == '-'
  }

  /** The 29 white-space characters, one by one. */
  lemma {:induction false} SpaceIff(c: char)
    ensures IsSpace(c) <==>
            c as int in {9, 10, 11, 12, 13, 28, 29, 30, 31, 32, 133, 160, 5760, 8192, 8193, 8194, 8195, 8196,
                         8197, 8198, 8199, 8200, 8201, 8202, 8232, 8233, 8239, 8287, 12288}
  {
  }

  /** Letters, digits, and three marks. */
  lemma {:induction false} NameCharIff(c: char)
    ensures IsNameChar(c) <==>
            65 <= c as int <= 90 || 97 <= c as int <= 122 || 48 <= c as int <= 57 || c as int in {45, 46, 95}
  {
  }

  predicate AllSpace(s: string) { forall i :: 0 <= i < |s| ==> IsSpace(s[i]) }

  predicate AllDigits(s: string) { forall i :: 0 <= i < |s| ==> IsDigit(s[i]) }

  predicate IsName(s: string) { s != "" && forall i :: 0 <= i < |s| ==> IsNameChar(s[i]) }

  /** Neither end is white space. */
  predicate Trimmed(s: string) {
    s != "" ==> !IsSpace(s[0]) && !IsSpace(s[|s| - 1])
  }

  /** The length of the leading white space. */
  function SpanSpace(s: string): (n: nat)
    ensures n <= |s| && AllSpace(s[..n]) && (n < |s| ==> !IsSpace(s[n]))
  {
    if s == "" || !IsSpace(s[0]) then 0
    else
      var m := SpanSpace(s[1..]);
      assert s[..m + 1] == [s[0]] + s[1..][..m];
      m + 1
  }

  /** The length of the leading run of name characters. */
  function SpanName(s: string): (n: nat)
    ensures n <= |s| && (forall i :: 0 <= i < n ==> IsNameChar(s[i]))
    ensures n < |s| ==> !IsNameChar(s[n])
  {
    if s == "" || !IsNameChar(s[0]) then 0 else 1 + SpanName(s[1..])
  }

  function LStrip(s: string): (r: string)
    ensures |r| <= |s|
  {
    s[SpanSpace(s)..]
  }

  function RStrip(s: string): (r: string)
    ensures |r| <= |s| && r == s[..|r|] && AllSpace(s[|r|..])
    ensures r != "" ==> !IsSpace(r[|r| - 1])
  {
    if s != "" && IsSpace(s[|s| - 1]) then
      var r := RStrip(s[..|s| - 1]);
      assert s[|r|..] == s[..|s| - 1][|r|..] + [s[|s| - 1]];
      r
    else s
  }

  function Strip(s: string): string { RStrip(LStrip(s)) }

  /** `line[: len(line) - len(line.lstrip())]`. */
  function IndentOf(line: string): (r: string)
    ensures AllSpace(r)
  {
    line[..SpanSpace(line)]
  }

  lemma {:induction false} SpanSpaceAt(s: string, n: nat)
    requires n <= |s| && AllSpace(s[..n]) && (n < |s| ==> !IsSpace(s[n]))
    ensures SpanSpace(s) == n
  {
    if n > 0 {
      assert s[0] == s[..n][0];
      assert s[1..][..n - 1] == s[..n][1..];
      SpanSpaceAt(s[1..], n - 1);
    }
  }

  lemma {:induction false} SpanNameAt(s: string, n: nat)
    requires n <= |s| && (forall i :: 0 <= i < n ==> IsNameChar(s[i])) && (n < |s| ==> !IsNameChar(s[n]))
    ensures SpanName(s) == n
  {
  }

  lemma {:induction false} LStripPadded(a: string, s: string)
    requires AllSpace(a)
    requires s != "" ==> !IsSpace(s[0])
    ensures SpanSpace(a + s) == |a| && LStrip(a + s) == s && IndentOf(a + s) == a
  {
    assert (a + s)[..|a|] == a;
    assert (a + s)[|a|..] == s;
    SpanSpaceAt(a + s, |a|);
  }

  lemma {:induction false} RStripPadded(s: string, b: string)
    requires AllSpace(b)
    requires s != "" ==> !IsSpace(s[|s| - 1])
    ensures RStrip(s + b) == s
  {
    if b == "" {
      assert s + b == s;
    } else {
      var n := |b| - 1;
      assert (s + b)[..|s + b| - 1] == s + b[..n];
      RStripPadded(s, b[..n]);
    }
  }

  /** `strip` recovers a trimmed text from under any padding. */
  lemma {:induction false} StripPadded(a: string, s: string, b: string)
    requires AllSpace(a) && AllSpace(b) && Trimmed(s)
    ensures Strip(a + s + b) == s
  {
    assert a + s + b == a + (s + b);
    if s == "" {
      assert AllSpace(a + s + b);
      var n := |a + s + b|;
      assert (a + s + b)[..n] == a + s + b;
      SpanSpaceAt(a + s + b, n);
    } else {
      LStripPadded(a, s + b);
      RStripPadded(s, b);
    }
  }

  lemma {:induction false} StripSplit(s: string)
    ensures exists a, b :: AllSpace(a) && AllSpace(b) && s == a + Strip(s) + b
    ensures Trimmed(Strip(s))
  {
    hide IsSpace, AllSpace, SpanSpace, RStrip;
    var n := SpanSpace(s);
    var l := s[n..];
    var v := RStrip(l);
    assert s == s[..n] + v + l[|v|..];
    assert AllSpace(s[..n]) && AllSpace(l[|v|..]);
    if v != "" {
      assert v[0] == l[0] == s[n];
    }
  }

  // ----- decimal numerals ---------------------------------------------------------------

  function DigitChar(d: nat): (c: char)
    requires d < 10
    ensures IsDigit(c) && DigitValue(c) == d
  {
    ('0' as int + d) as char
  }

  function DigitValue(c: char): nat
    requires IsDigit(c)
  {
    c as int - '0' as int
  }

  /** `str(n)` for a natural number. */
  function Decimal(n: nat): (s: string)
    ensures s != "" && AllDigits(s)
  {
    if n < 10 then [DigitChar(n)] else Decimal(n / 10) + [DigitChar(n % 10)]
  }

  /** `int(s)` for a string of ASCII digits; leading zeros are allowed. */
  function ParseNat(s: string): nat
    requires AllDigits(s)
  {
    if s == "" then 0 else 10 * ParseNat(s[..|s| - 1]) + DigitValue(s[|s| - 1])
  }

  lemma {:induction false} ParseDecimal(n: nat)
    ensures ParseNat(Decimal(n)) == n
  {
    if n >= 10 {
      ParseDecimal(n / 10);
      var s := Decimal(n);
      assert s[..|s| - 1] == Decimal(n / 10);
    }
  }

  /** The value of a numeral is the sum of its digits by their places, in base ten. */
  ghost function Places(s: string): int {
    if s == "" then 0 else (s[0] as int - 48) * Ten(|s| - 1) + Places(s[1..])
  }

  ghost function Ten(k: nat): int { if k == 0 then 1 else 10 * Ten(k - 1) }

  lemma {:induction false} ParsePlaces(s: string)
    requires AllDigits(s)
    ensures ParseNat(s) == Places(s)
    decreases |s|
  {
    if s != "" {
      var n := |s| - 1;
      ParsePlaces(s[..n]);
      LastPlace(s);
    }
  }

  lemma {:induction false} LastPlace(s: string)
    requires s != ""
    ensures Places(s) == 10 * Places(s[..|s| - 1]) + (s[|s| - 1] as int - 48)
  {
    var n := |s| - 1;
    if n > 0 {
      LastPlace(s[1..]);
      assert s[1..][..n - 1] == s[..n][1..];
      assert Ten(n) == 10 * Ten(n - 1);
      Shift(s[0] as int - 48, Ten(n - 1));
    }
  }

  lemma {:induction false} Shift(d: int, t: int)
    ensures d * (10 * t) == 10 * (d * t)
  {
  }

  /** A numeral has no leading zero, unless it is zero. */
  lemma {:induction false} NoLeadingZero(n: nat)
    ensures Decimal(n)[0] == '0' <==> n == 0
  {
    if n >= 10 {
      NoLeadingZero(n / 10);
    }
  }

  /** Distinct numbers have distinct numerals. */
  lemma {:induction false} DecimalInjective(m: nat, n: nat)
    ensures Decimal(m) == Decimal(n) <==> m == n
  {
    ParseDecimal(m);
    ParseDecimal(n);
  }

  lemma {:induction false} DecimalTrimmed(n: nat)
    ensures Trimmed(Decimal(n)) && IsName(Decimal(n))
  {
  }

  // ----- suffixes -----------------------------------------------------------------------

  predicate EndsWith(s: string, t: string) { |t| <= |s| && s[|s| - |t|..] == t }

  /** The start of the trailing run of digits. */
  function DigitsFrom(s: string): (n: nat)
    ensures n <= |s| && AllDigits(s[n..]) && (n > 0 ==> !IsDigit(s[n - 1]))
  {
    if s == "" || !IsDigit(s[|s| - 1]) then |s|
    else
      var n := DigitsFrom(s[..|s| - 1]);
      assert s[n..] == s[..|s| - 1][n..] + [s[|s| - 1]];
      n
  }

  lemma {:induction false} DigitsFromAt(s: string, d: string)
    requires AllDigits(d) && (s != "" ==> !IsDigit(s[|s| - 1]))
    ensures DigitsFrom(s + d) == |s|
  {
    if d != "" {
      assert (s + d)[..|s + d| - 1] == s + d[..|d| - 1];
      DigitsFromAt(s, d[..|d| - 1]);
    } else {
      assert s + d == s;
    }
  }
}
