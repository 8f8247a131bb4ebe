/**
  The Python built-ins the uploader leans on, written out over strings:
  `str(n)` of a non-negative int, `str.split()` with no separator,
  `'%0.2f' % x` for a value held in hundredths, and `float(s)` for plain
  decimal literals.
 */
module Builtins {
  import opened Wrappers

  // ---------------------------------------------------------------------
  // Characters
  // ---------------------------------------------------------------------

  /** Python's `str.isspace` on one character: the separators of `str.split()`. */
  predicate IsSpace(c: char) {
    var n := c as int;
    n == 0x20 || 0x09 <= n <= 0x0D || 0x1C <= n <= 0x1F || n == 0x85 || n == 0xA0 ||
    n == 0x1680 || 0x2000 <= n <= 0x200A || n == 0x2028 || n == 0x2029 ||
    n == 0x202F || n == 0x205F || n == 0x3000
  }

  predicate NoSpace(s: string) {
    forall i :: 0 <= i < |s| ==> !IsSpace(s[i])
  }

  predicate IsDigit(c: char) {
    '0' <= c <= '9'
  }

  predicate AllDigits(s: string) {
    forall i :: 0 <= i < |s| ==> IsDigit(s[i])
  }

  function DigitChar(d: nat): (c: char)
    requires d < 10
    ensures IsDigit(c)
  {
    ('0' as int + d) as char
  }

  function DigitValue(c: char): (d: nat)
    requires IsDigit(c)
    ensures d < 10 && DigitChar(d) == c
  {
    c as int - '0' as int
  }

  // ---------------------------------------------------------------------
  // str(n) and its inverse
  // ---------------------------------------------------------------------

  /** `str(n)` for a non-negative int: its decimal digits, no leading zero. */
  function DecimalString(n: nat): (s: string)
    ensures s != [] && AllDigits(s)
    ensures s[0] == '0' ==> n == 0
    ensures n < 10 <==> |s| == 1
  {
    if n < 10 then [DigitChar(n)] else DecimalString(n / 10) + [DigitChar(n % 10)]
  }

  /** The number a string of decimal digits denotes. */
  function DecimalValue(s: string): nat
    requires AllDigits(s)
  {
    if s == [] then 0 else DecimalValue(s[..|s| - 1]) * 10 + DigitValue(s[|s| - 1])
  }

  /** A digit string as `str` prints one: "0", or no leading zero. */
  predicate Canonical(s: string) {
    s != [] && AllDigits(s) && (s[0] == '0' ==> |s| == 1)
  }

  lemma {:induction false} DecimalRoundTrip(n: nat)
    ensures DecimalValue(DecimalString(n)) == n
  {
    var s := DecimalString(n);
    if n >= 10 {
      DecimalRoundTrip(n / 10);
      assert s[..|s| - 1] == DecimalString(n / 10);
    }
  }

  lemma {:induction false} LeadingNonZero(s: string)
    requires AllDigits(s) && s != [] && s[0] != '0'
    ensures DecimalValue(s) >= 1
  {
    if |s| > 1 {
      LeadingNonZero(s[..|s| - 1]);
    }
  }

  /** The other direction: a canonical digit string is what `str` prints for its value. */
  lemma {:induction false} DecimalStringOfValue(s: string)
    requires Canonical(s)
    ensures DecimalString(DecimalValue(s)) == s
  {
    var p := s[..|s| - 1];
    if p != [] {
      LeadingNonZero(p);
      DecimalStringOfValue(p);
      assert s == p + [s[|s| - 1]];
    }
  }

  // ---------------------------------------------------------------------
  // str.split()
  // ---------------------------------------------------------------------

  /** Length of the run of non-space characters that starts `s`. */
  function TokenEnd(s: string): (n: nat)
    ensures n <= |s| && NoSpace(s[..n])
    ensures n < |s| ==> IsSpace(s[n])
  {
    if s == [] || IsSpace(s[0]) then 0 else 1 + TokenEnd(s[1..])
  }

  /** `s.split()`: the maximal runs of non-space characters, in order. */
  function Split(s: string): (words: seq<string>)
    ensures forall w :: w in words ==> w != [] && NoSpace(w)
    decreases |s|
  {
    if s == [] then []
    else if IsSpace(s[0]) then Split(s[1..])
    else
      var n := TokenEnd(s);
      [s[..n]] + Split(s[n..])
  }

  /** `' '.join(words)`. */
  function JoinWords(words: seq<string>): string {
    if words == [] then ""
    else if |words| == 1 then words[0]
    else words[0] + " " + JoinWords(words[1..])
  }

  lemma {:induction false} TokenEndOfWord(w: string, rest: string)
    requires NoSpace(w)
    requires rest == [] || IsSpace(rest[0])
    ensures TokenEnd(w + rest) == |w|
  {
    if w != [] {
      assert (w + rest)[1..] == w[1..] + rest;
      TokenEndOfWord(w[1..], rest);
    }
  }

  /** Splitting words joined by single spaces gives the words back. */
  lemma {:induction false} SplitJoin(words: seq<string>)
    requires forall w :: w in words ==> w != [] && NoSpace(w)
    ensures Split(JoinWords(words)) == words
  {
    if words != [] {
      var w := words[0];
      var rest := if |words| == 1 then "" else " " + JoinWords(words[1..]);
      var s := w + rest;
      assert JoinWords(words) == s;
      TokenEndOfWord(w, rest);
      assert s[..|w|] == w && s[|w|..] == rest;
      if |words| > 1 {
        assert forall v :: v in words[1..] ==> v in words;
        SplitJoin(words[1..]);
        assert rest[1..] == JoinWords(words[1..]);
      }
    }
  }

  // ---------------------------------------------------------------------
  // '%0.2f' and float()
  // ---------------------------------------------------------------------

  function Pow10(k: nat): (p: nat)
    ensures p >= 1
  {
    if k == 0 then 1 else 10 * Pow10(k - 1)
  }

  /** The two digits of `r` (below 100), with a leading zero. */
  function TwoDigits(r: nat): (s: string)
    requires r < 100
    ensures |s| == 2 && AllDigits(s)
  {
    [DigitChar(r / 10), DigitChar(r % 10)]
  }

  /** `'%0.2f' % (a / 100)` for a non-negative whole number `a` of hundredths. */
  function UnsignedFixedTwo(a: nat): (s: string)
    ensures s != [] && NoSpace(s) && IsDigit(s[0])
  {
    DecimalString(a / 100) + "." + TwoDigits(a % 100)
  }

  /** `'%0.2f' % (h / 100)`: a value held as a whole number `h` of hundredths. */
  function FixedTwo(h: int): (s: string)
    ensures s != [] && NoSpace(s)
  {
    if h < 0 then "-" + UnsignedFixedTwo(-h) else UnsignedFixedTwo(h)
  }

  /** Length of the run of digits that starts `s`. */
  function LeadingDigits(s: string): (n: nat)
    ensures n <= |s| && AllDigits(s[..n])
    ensures n < |s| ==> !IsDigit(s[n])
  {
    if s == [] || !IsDigit(s[0]) then 0 else 1 + LeadingDigits(s[1..])
  }

  /** An unsigned decimal literal: `ddd`, `ddd.`, `.ddd` or `ddd.ddd`. */
  function ParseUnsigned(s: string): Option<real> {
    var n := LeadingDigits(s);
    var whole := DecimalValue(s[..n]) as real;
    if n == |s| then
      if n > 0 then Some(whole) else None
    else if s[n] == '.' && AllDigits(s[n + 1..]) && (n > 0 || n + 1 < |s|) then
      Some(whole + DecimalValue(s[n + 1..]) as real / Pow10(|s| - n - 1) as real)
    else None
  }

  /** `float(s)` on a decimal literal with an optional sign; `None` where Python raises ValueError. */
  function ParseFloat(s: string): Option<real> {
    if s != [] && (s[0] == '-' || s[0] == '+') then
      match ParseUnsigned(s[1..])
      case Some(v) => Some(if s[0] == '-' then -v else v)
      case None => None
    else ParseUnsigned(s)
  }

  lemma {:induction false} LeadingDigitsOf(d: string, rest: string)
    requires AllDigits(d)
    requires rest == [] || !IsDigit(rest[0])
    ensures LeadingDigits(d + rest) == |d|
  {
    if d != [] {
      assert (d + rest)[1..] == d[1..] + rest;
      LeadingDigitsOf(d[1..], rest);
    }
  }

  lemma TwoDigitsValue(r: nat)
    requires r < 100
    ensures DecimalValue(TwoDigits(r)) == r
  {
    var t := TwoDigits(r);
    assert t[..1] == [DigitChar(r / 10)] && t[..1][..0] == [];
    assert DigitValue(t[0]) == r / 10 && DigitValue(t[1]) == r % 10;
    assert DecimalValue(t[..1]) == r / 10;
  }

  lemma UnsignedFixedTwoRoundTrip(a: nat)
    ensures ParseUnsigned(UnsignedFixedTwo(a)) == Some(a as real / 100.0)
  {
    var q, r := a / 100, a % 100;
    var digits, frac := DecimalString(q), TwoDigits(r);
    var u := UnsignedFixedTwo(a);
    assert u == digits + ("." + frac);
    LeadingDigitsOf(digits, "." + frac);
    assert u[..|digits|] == digits;
    assert u[|digits| + 1..] == frac;
    DecimalRoundTrip(q);
    TwoDigitsValue(r);
    assert Pow10(|u| - |digits| - 1) == 100;
    assert ParseUnsigned(u) == Some(q as real + r as real / 100.0);
    assert q as real + r as real / 100.0 == a as real / 100.0;
  }

  /** `float('%0.2f' % x)` gives back x when x is a whole number of hundredths. */
  lemma FixedTwoRoundTrip(h: int)
    ensures ParseFloat(FixedTwo(h)) == Some(h as real / 100.0)
  {
    var s := FixedTwo(h);
    if h < 0 {
      var u := UnsignedFixedTwo(-h);
      UnsignedFixedTwoRoundTrip(-h);
      assert s[0] == '-' && s[1..] == u;
      assert ParseUnsigned(s[1..]) == Some((-h) as real / 100.0);
      assert ParseFloat(s) == Some(-((-h) as real / 100.0));
    } else {
      UnsignedFixedTwoRoundTrip(h);
      assert !(s[0] == '-' || s[0] == '+');
    }
  }
}
