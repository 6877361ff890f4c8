/** Python string helpers used by the configurator, the exporter and the
    config reconstruction: lower-casing, replacement, stripping, affixes,
    splitting on a separator, decimal rendering and parsing, and code-point
    ordering. */
module Strings {
  import opened Wrappers

  /** ASCII lower-casing of one character (Python's `str.lower` on ASCII). */
  function LowerChar(c: char): (r: char)
    ensures 'A' <= c <= 'Z' ==> r as int == c as int + 32
    ensures !('A' <= c <= 'Z') ==> r == c
    ensures !('A' <= r <= 'Z')
  {
    if 'A' <= c <= 'Z' then (c as int + 32) as char else c
  }

  function Lower(s: string): (r: string)
    ensures |r| == |s|
    ensures forall i :: 0 <= i < |s| ==> r[i] == LowerChar(s[i])
  {
    if s == [] then [] else [LowerChar(s[0])] + Lower(s[1..])
  }

  predicate IsLower(s: string) {
    forall i :: 0 <= i < |s| ==> !('A' <= s[i] <= 'Z')
  }

  lemma LowerIsLower(s: string)
    ensures IsLower(Lower(s))
  {
  }

  lemma LowerOfLower(s: string)
    requires IsLower(s)
    ensures Lower(s) == s
  {
  }

  /** `s.replace(a, b)` for single characters `a` and `b`. */
  function Replace(s: string, a: char, b: char): (r: string)
    ensures |r| == |s|
    ensures forall i :: 0 <= i < |s| ==> r[i] == (if s[i] == a then b else s[i])
  {
    if s == [] then [] else [if s[0] == a then b else s[0]] + Replace(s[1..], a, b)
  }

  /** The characters for which Python's `str.isspace` holds. */
  predicate IsSpace(c: char) {
    var n := c as int;
    (9 <= n <= 13) || (28 <= n <= 32) || n == 0x85 || n == 0xA0 || n == 0x1680
    || (0x2000 <= n <= 0x200A) || n == 0x2028 || n == 0x2029 || n == 0x202F
    || n == 0x205F || n == 0x3000
  }

  function StripLeft(s: string): (r: string)
    ensures |r| <= |s| && r == s[|s| - |r|..]
    ensures r == [] || !IsSpace(r[0])
    ensures forall i :: 0 <= i < |s| - |r| ==> IsSpace(s[i])
  {
    if s != [] && IsSpace(s[0]) then StripLeft(s[1..]) else s
  }

  function StripRight(s: string): (r: string)
    ensures |r| <= |s| && r == s[..|r|]
    ensures r == [] || !IsSpace(r[|r| - 1])
    ensures forall i :: |r| <= i < |s| ==> IsSpace(s[i])
  {
    if s != [] && IsSpace(s[|s| - 1]) then StripRight(s[..|s| - 1]) else s
  }

  /** `s.strip()`: leading and trailing whitespace removed. */
  function Strip(s: string): (r: string)
    ensures r == [] || (!IsSpace(r[0]) && !IsSpace(r[|r| - 1]))
    ensures |r| <= |s|
  {
    StripRight(StripLeft(s))
  }

  lemma StripOfStripped(s: string)
    requires s == [] || (!IsSpace(s[0]) && !IsSpace(s[|s| - 1]))
    ensures Strip(s) == s
  {
  }

  predicate StartsWith(s: string, prefix: string) {
    |prefix| <= |s| && s[..|prefix|] == prefix
  }

  predicate EndsWith(s: string, suffix: string) {
    |suffix| <= |s| && s[|s| - |suffix|..] == suffix
  }

  /** Python's `a < b` on strings: lexicographic by code point. */
  predicate Less(a: string, b: string)
  {
    if a == [] then b != []
    else if b == [] then false
    else if a[0] != b[0] then a[0] < b[0]
    else Less(a[1..], b[1..])
  }

  lemma {:induction false} LessIrreflexive(a: string)
    ensures !Less(a, a)
  {
    if a != [] {
      LessIrreflexive(a[1..]);
    }
  }

  lemma {:induction false} LessTransitive(a: string, b: string, c: string)
    requires Less(a, b) && Less(b, c)
    ensures Less(a, c)
  {
    if a != [] && b != [] && c != [] && a[0] == b[0] && b[0] == c[0] {
      LessTransitive(a[1..], b[1..], c[1..]);
    }
  }

  lemma {:induction false} LessTotal(a: string, b: string)
    ensures a == b || Less(a, b) || Less(b, a)
  {
    if a != [] && b != [] && a[0] == b[0] {
      LessTotal(a[1..], b[1..]);
      if a[1..] == b[1..] {
        assert a == [a[0]] + a[1..] && b == [b[0]] + b[1..];
      }
    }
  }

  /** Number of occurrences of `c` in `s`. */
  function Count(s: string, c: char): nat {
    if s == [] then 0 else (if s[0] == c then 1 else 0) + Count(s[1..], c)
  }

  /** `s.split(sep)` for a one-character separator. */
  function Split(s: string, sep: char): (parts: seq<string>)
    ensures |parts| == Count(s, sep) + 1
    ensures forall k, i :: 0 <= k < |parts| && 0 <= i < |parts[k]| ==> parts[k][i] != sep
  {
    if s == [] then [[]]
    else
      var rest := Split(s[1..], sep);
      if s[0] == sep then [[]] + rest
      else [[s[0]] + rest[0]] + rest[1..]
  }

  /** `sep.join(parts)`. */
  function Join(parts: seq<string>, sep: char): string
    requires |parts| > 0
  {
    if |parts| == 1 then parts[0] else parts[0] + [sep] + Join(parts[1..], sep)
  }

  /** Splitting and re-joining on the same separator gives the string back. */
  lemma {:induction false} JoinSplit(s: string, sep: char)
    ensures Join(Split(s, sep), sep) == s
  {
    if s != [] {
      JoinSplit(s[1..], sep);
      var rest := Split(s[1..], sep);
      if s[0] == sep {
        assert Split(s, sep)[1..] == rest;
      } else {
        var parts := Split(s, sep);
        if |rest| == 1 {
          assert parts == [[s[0]] + rest[0]];
        } else {
          assert parts[1..] == rest[1..];
          assert Join(rest, sep) == rest[0] + [sep] + Join(rest[1..], sep);
        }
      }
    }
  }

  /** Splitting `a + [sep] + b` where `a` has no separator puts `a` first. */
  lemma {:induction false} SplitAfterFirst(a: string, sep: char, b: string)
    requires forall i :: 0 <= i < |a| ==> a[i] != sep
    ensures Split(a + [sep] + b, sep) == [a] + Split(b, sep)
  {
    if a == [] {
      assert a + [sep] + b == [sep] + b;
      assert ([sep] + b)[1..] == b;
    } else {
      assert (a + [sep] + b)[1..] == a[1..] + [sep] + b;
      SplitAfterFirst(a[1..], sep, b);
      assert [a[0]] + a[1..] == a;
    }
  }

  function DigitChar(d: nat): (c: char)
    requires d < 10
    ensures '0' <= c <= '9'
  {
    "0123456789"[d]
  }

  /** `str(n)` for a natural number: its decimal digits, no leading zero. */
  function NatToString(n: nat): (s: string)
    ensures |s| > 0
    ensures forall i :: 0 <= i < |s| ==> '0' <= s[i] <= '9'
    ensures |s| > 1 ==> s[0] != '0'
    decreases n
  {
    if n < 10 then [DigitChar(n)] else NatToString(n / 10) + [DigitChar(n % 10)]
  }

  /** The number a string of decimal digits denotes. */
  function DigitsValue(s: string): nat
    requires forall i :: 0 <= i < |s| ==> '0' <= s[i] <= '9'
  {
    if s == [] then 0 else DigitsValue(s[..|s| - 1]) * 10 + (s[|s| - 1] as int - '0' as int)
  }

  /** Reading the digits of `str(n)` back gives `n`, so `str` is injective on indices. */
  lemma {:induction false} NatToStringRoundTrip(n: nat)
    ensures DigitsValue(NatToString(n)) == n
    decreases n
  {
    var s := NatToString(n);
    if n >= 10 {
      NatToStringRoundTrip(n / 10);
      assert s[..|s| - 1] == NatToString(n / 10);
    }
  }

  predicate AllDigits(s: string) {
    forall i :: 0 <= i < |s| ==> '0' <= s[i] <= '9'
  }

  function Pow10(n: nat): (r: nat)
    ensures r > 0
  {
    if n == 0 then 1 else 10 * Pow10(n - 1)
  }

  /** The position of the first `c` in `s`, or `|s|` when there is none. */
  function FirstIndex(s: string, c: char): (i: nat)
    ensures i <= |s|
    ensures forall j :: 0 <= j < i ==> s[j] != c
    ensures i < |s| ==> s[i] == c
  {
    if s == [] || s[0] == c then 0 else 1 + FirstIndex(s[1..], c)
  }

  predicate HasDigit(s: string) {
    exists i :: 0 <= i < |s| && '0' <= s[i] <= '9'
  }

  /** The number that the digits `whole`, a point and the digits `frac`
      denote, at least one digit in all. */
  function DecimalOf(whole: string, frac: string): (r: Option<real>)
    ensures r.Some? <==> (whole != [] || frac != []) && AllDigits(whole) && AllDigits(frac)
    ensures r.Some? ==> r.value >= 0.0
  {
    if (whole == [] && frac == []) || !AllDigits(whole) || !AllDigits(frac) then None
    else Some(DigitsValue(whole) as real + DigitsValue(frac) as real / Pow10(|frac|) as real)
  }

  /** An unsigned decimal literal: digits, and an optional point followed by
      more digits, with at least one digit in all. */
  function ParseUnsigned(body: string): (r: Option<real>)
    ensures r.Some? ==> r.value >= 0.0
  {
    var p := FirstIndex(body, '.');
    DecimalOf(body[..p], if p < |body| then body[p + 1..] else [])
  }

  /** The number a decimal literal with an optional sign denotes; `None`
      for any other string. */
  function ParseDecimal(s: string): (r: Option<real>)
    ensures r.Some? && s != [] && s[0] == '-' ==> r.value <= 0.0
    ensures r.Some? && !(s != [] && s[0] == '-') ==> r.value >= 0.0
  {
    if s != [] && (s[0] == '-' || s[0] == '+') then
      var u := ParseUnsigned(s[1..]);
      if u.None? then None
      else Some(if s[0] == '-' then -u.value else u.value)
    else ParseUnsigned(s)
  }

  /** A string of digits denotes its digits' value. */
  lemma {:induction false} ParseDigits(d: string)
    requires d != [] && AllDigits(d)
    ensures ParseUnsigned(d) == Some(DigitsValue(d) as real)
  {
    assert FirstIndex(d, '.') == |d|;
    assert d[..|d|] == d;
    assert DigitsValue([]) as real / Pow10(0) as real == 0.0;
  }

  /** `str(n)` parses back to `n`. */
  lemma ParseNatString(n: nat)
    ensures ParseDecimal(NatToString(n)) == Some(n as real)
  {
    NatDigits(n);
    ParseDigits(NatToString(n));
  }

  /** `str(n)` is a non-empty digit string whose value is `n`. */
  lemma NatDigits(n: nat)
    ensures NatToString(n) != [] && AllDigits(NatToString(n)) && DigitsValue(NatToString(n)) == n
  {
    NatToStringRoundTrip(n);
  }

  /** `"-" + str(n)` parses back to `-n`. */
  lemma ParseNegativeNatString(n: nat)
    ensures ParseDecimal("-" + NatToString(n)) == Some(-(n as real))
  {
    NatDigits(n);
    ParseNegative(NatToString(n), n);
  }

  /** A minus sign before digits of value `v` gives `-v`. */
  lemma {:induction false} ParseNegative(d: string, v: nat)
    requires d != [] && AllDigits(d) && DigitsValue(d) == v
    ensures ParseDecimal("-" + d) == Some(-(v as real))
  {
    var s := "-" + d;
    ParseDigits(d);
    assert s[0] == '-' && s[1..] == d;
  }

  /** `"<n>.<f>"` denotes `n` plus the fraction the digits of `f` spell. */
  lemma ParseFractionString(n: nat, f: string)
    requires AllDigits(f)
    ensures ParseDecimal(NatToString(n) + "." + f)
            == Some(n as real + DigitsValue(f) as real / Pow10(|f|) as real)
  {
    NatDigits(n);
    ParseFraction(NatToString(n), f, n);
  }

  /** Digits of value `v`, a point and digits, with no sign, denote `v` plus
      the fraction. */
  lemma {:induction false} ParseFraction(whole: string, frac: string, v: nat)
    requires whole != [] && AllDigits(whole) && AllDigits(frac) && DigitsValue(whole) == v
    ensures ParseDecimal(whole + "." + frac)
            == Some(v as real + DigitsValue(frac) as real / Pow10(|frac|) as real)
  {
    var s := whole + "." + frac;
    assert s[0] == whole[0];
    UnsignedStart(s);
    ParseParts(whole, frac);
  }

  /** A literal that starts with a digit has no sign. */
  lemma {:induction false} UnsignedStart(s: string)
    requires s != [] && '0' <= s[0] <= '9'
    ensures ParseDecimal(s) == ParseUnsigned(s)
  {
  }

  /** Digits, a point and digits denote the whole part plus the fraction. */
  lemma {:induction false} ParseParts(whole: string, frac: string)
    requires whole != [] && AllDigits(whole) && AllDigits(frac)
    ensures ParseUnsigned(whole + "." + frac)
            == Some(DigitsValue(whole) as real + DigitsValue(frac) as real / Pow10(|frac|) as real)
  {
    SplitAtPoint(whole, frac);
    JoinedParts(whole, frac);
  }

  lemma {:induction false} SplitAtPoint(whole: string, frac: string)
    requires AllDigits(whole)
    ensures var s := whole + "." + frac; ParseUnsigned(s) == DecimalOf(s[..|whole|], s[|whole| + 1..])
  {
    assert FirstIndex(whole, '.') == |whole|;
    FirstIndexAfter(whole, '.', frac);
  }

  lemma {:induction false} JoinedParts(whole: string, frac: string)
    ensures var s := whole + "." + frac; s[..|whole|] == whole && s[|whole| + 1..] == frac
  {
  }

  lemma {:induction false} FirstIndexAfter(a: string, c: char, b: string)
    requires FirstIndex(a, c) == |a|
    ensures FirstIndex(a + [c] + b, c) == |a|
  {
    if a != [] {
      assert (a + [c] + b)[1..] == a[1..] + [c] + b;
      FirstIndexAfter(a[1..], c, b);
    }
  }

  /** A string without any digit is not a number. */
  lemma {:induction false} WordIsNotNumber(s: string)
    requires !HasDigit(s)
    ensures ParseDecimal(s).None?
  {
    if s != [] && (s[0] == '-' || s[0] == '+') {
      assert !HasDigit(s[1..]) by {
        forall i | 0 <= i < |s[1..]| ensures !('0' <= s[1..][i] <= '9') {
          assert s[1..][i] == s[i + 1];
        }
      }
      NoDigitUnsigned(s[1..]);
    } else {
      NoDigitUnsigned(s);
    }
  }

  lemma {:induction false} NoDigitUnsigned(body: string)
    requires !HasDigit(body)
    ensures ParseUnsigned(body).None?
  {
    var p := FirstIndex(body, '.');
    var whole := body[..p];
    var frac := if p < |body| then body[p + 1..] else [];
    if whole != [] {
      assert whole[0] == body[0];
    }
    if frac != [] {
      assert frac[0] == body[p + 1];
    }
  }
}
