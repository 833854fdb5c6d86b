/**
 * The string helpers the policy engine relies on: ASCII case folding in the
 * place of `strings.EqualFold`, `strings.IndexByte`, splitting at a separator,
 * and decimal rendering in the place of `fmt.Sprintf("%d", n)`.
 */
module Text {
  import opened Wrappers

  // ---------------------------------------------------------------------
  // Case folding

  /** Folds one character: the ASCII capitals 'A'..'Z' become lower case. */
  function FoldChar(c: char): char
  {
    if 'A' <= c <= 'Z' then (c as int - 'A' as int + 'a' as int) as char else c
  }

  /** The string with every ASCII capital folded to lower case. */
  function ToLowerAscii(s: string): (r: string)
    ensures |r| == |s|
    ensures forall i :: 0 <= i < |s| ==> r[i] == FoldChar(s[i])
  {
    if |s| == 0 then "" else [FoldChar(s[0])] + ToLowerAscii(s[1..])
  }

  /**
   * `strings.EqualFold`, restricted to ASCII: two strings are equal when they
   * have the same length and agree character by character up to case.
   */
  predicate EqualFold(a: string, b: string)
  {
    ToLowerAscii(a) == ToLowerAscii(b)
  }

  /** EqualFold is an equivalence that compares position by position. */
  lemma EqualFoldPointwise(a: string, b: string)
    ensures EqualFold(a, b) <==> |a| == |b| && forall i :: 0 <= i < |a| ==> FoldChar(a[i]) == FoldChar(b[i])
  {
    if |a| == |b| && forall i :: 0 <= i < |a| ==> FoldChar(a[i]) == FoldChar(b[i]) {
      assert forall i :: 0 <= i < |a| ==> ToLowerAscii(a)[i] == ToLowerAscii(b)[i];
    }
  }

  // ---------------------------------------------------------------------
  // Searching and splitting

  /** `strings.IndexByte`: the index of the first `c` in `s`, or -1. */
  function IndexByte(s: string, c: char): (r: int)
    ensures -1 <= r < |s|
    ensures r == -1 <==> c !in s
    ensures r >= 0 ==> s[r] == c && c !in s[..r]
  {
    if |s| == 0 then -1
    else if s[0] == c then 0
    else
      var k := IndexByte(s[1..], c);
      assert s[1..][..if k < 0 then 0 else k] == s[1..if k < 0 then 1 else k + 1];
      if k == -1 then -1 else k + 1
  }

  /** The position of the first `c` determines IndexByte. */
  lemma IndexByteAt(s: string, c: char, k: nat)
    requires k < |s| && s[k] == c && c !in s[..k]
    ensures IndexByte(s, c) == k
  {
  }

  /** The index of the first character of `s` that is in `cs`, or -1. */
  function IndexOfAny(s: string, cs: set<char>): (r: int)
    ensures -1 <= r < |s|
    ensures r == -1 <==> forall i :: 0 <= i < |s| ==> s[i] !in cs
    ensures r >= 0 ==> s[r] in cs && forall i :: 0 <= i < r ==> s[i] !in cs
  {
    if |s| == 0 then -1
    else if s[0] in cs then 0
    else
      var k := IndexOfAny(s[1..], cs);
      if k == -1 then -1 else k + 1
  }

  /** The pieces of `s` between occurrences of `sep`, in order. */
  function Split(s: string, sep: char): (parts: seq<string>)
    ensures |parts| >= 1
    ensures forall i :: 0 <= i < |parts| ==> sep !in parts[i]
    ensures Join(parts, sep) == s
    decreases |s|
  {
    var k := IndexByte(s, sep);
    if k == -1 then [s]
    else
      var rest := Split(s[k + 1..], sep);
      SplitAt(s, k);
      JoinCons(s[..k], rest, sep);
      [s[..k]] + rest
  }

  lemma SplitAt(s: string, k: nat)
    requires k < |s|
    ensures s == s[..k] + [s[k]] + s[k + 1..]
  {
  }

  lemma JoinCons(first: string, rest: seq<string>, sep: char)
    requires |rest| >= 1
    ensures Join([first] + rest, sep) == first + [sep] + Join(rest, sep)
  {
    assert ([first] + rest)[1..] == rest;
  }

  /** The pieces glued back together with `sep` between consecutive ones. */
  function Join(parts: seq<string>, sep: char): string
  {
    if |parts| == 0 then ""
    else if |parts| == 1 then parts[0]
    else parts[0] + [sep] + Join(parts[1..], sep)
  }

  /** Splitting undoes joining, as long as no piece contains the separator. */
  lemma {:induction false} SplitJoin(parts: seq<string>, sep: char)
    requires |parts| >= 1
    requires forall i :: 0 <= i < |parts| ==> sep !in parts[i]
    ensures Split(Join(parts, sep), sep) == parts
    decreases |parts|
  {
    if |parts| > 1 {
      var first, tail := parts[0], parts[1..];
      var s := Join(parts, sep);
      var rest := Join(tail, sep);
      assert s == first + [sep] + rest;
      assert s[..|first|] == first;
      IndexByteAt(s, sep, |first|);
      assert s[|first| + 1..] == rest;
      SplitJoin(tail, sep);
      assert [first] + tail == parts;
    }
  }

  // ---------------------------------------------------------------------
  // Decimal numbers

  predicate IsDigit(c: char)
  {
    '0' <= c <= '9'
  }

  predicate AllDigits(s: string)
  {
    forall i :: 0 <= i < |s| ==> IsDigit(s[i])
  }

  /** A non-empty digit string without a leading zero (except "0" itself). */
  predicate IsCanonicalDigits(s: string)
  {
    |s| >= 1 && AllDigits(s) && (s[0] == '0' ==> |s| == 1)
  }

  function DigitChar(d: nat): char
    requires d < 10
  {
    ('0' as int + d) as char
  }

  function DigitValue(c: char): nat
    requires IsDigit(c)
  {
    c as int - '0' as int
  }

  /** The value of a digit string, most significant digit first. */
  function DigitsValue(s: string): nat
    requires AllDigits(s)
  {
    if |s| == 0 then 0 else 10 * DigitsValue(s[..|s| - 1]) + DigitValue(s[|s| - 1])
  }

  /** `fmt.Sprintf("%d", n)` for a natural number. */
  function NatToDecimal(n: nat): (s: string)
    ensures IsCanonicalDigits(s)
    ensures s[0] == '0' ==> n == 0
  {
    if n < 10 then [DigitChar(n)] else NatToDecimal(n / 10) + [DigitChar(n % 10)]
  }

  /** Reading back a rendered number gives the number. */
  lemma {:induction false} NatDecimalRoundTrip(n: nat)
    ensures DigitsValue(NatToDecimal(n)) == n
  {
    if n >= 10 {
      var s := NatToDecimal(n);
      assert s[..|s| - 1] == NatToDecimal(n / 10);
      NatDecimalRoundTrip(n / 10);
    }
  }

  /** A canonical digit string whose first digit is not zero has a non-zero value. */
  lemma {:induction false} LeadingDigitPositive(s: string)
    requires |s| >= 1 && AllDigits(s) && s[0] != '0'
    ensures DigitsValue(s) >= 1
    decreases |s|
  {
    if |s| > 1 {
      assert s[..|s| - 1][0] == s[0];
      LeadingDigitPositive(s[..|s| - 1]);
    }
  }

  /** Rendering the value of a canonical digit string gives the string back. */
  lemma {:induction false} CanonicalDigitsRoundTrip(s: string)
    requires IsCanonicalDigits(s)
    ensures NatToDecimal(DigitsValue(s)) == s
    decreases |s|
  {
    if |s| > 1 {
      var t := s[..|s| - 1];
      assert t[0] == s[0];
      LeadingDigitPositive(t);
      CanonicalDigitsRoundTrip(t);
      var n := DigitsValue(s);
      assert n / 10 == DigitsValue(t) && n % 10 == DigitValue(s[|s| - 1]);
      assert s == t + [s[|s| - 1]];
    }
  }

  /** `fmt.Sprintf("%d", n)` for any integer: a minus sign, then the digits. */
  function IntToDecimal(n: int): string
  {
    if n < 0 then "-" + NatToDecimal(-n) else NatToDecimal(n)
  }

  /** Reads an optionally signed decimal integer, the inverse of IntToDecimal. */
  function ParseInt(s: string): (r: Option<int>)
    ensures r.Some? ==> |s| >= 1
  {
    if |s| >= 2 && s[0] == '-' && AllDigits(s[1..]) then Some(-(DigitsValue(s[1..]) as int))
    else if |s| >= 1 && AllDigits(s) then Some(DigitsValue(s))
    else None
  }

  /** Rendered integers read back to themselves, so rendering is injective. */
  lemma IntDecimalRoundTrip(n: int)
    ensures ParseInt(IntToDecimal(n)) == Some(n)
  {
    var s := IntToDecimal(n);
    if n < 0 {
      assert s[1..] == NatToDecimal(-n);
      NatDecimalRoundTrip(-n);
    } else {
      NatDecimalRoundTrip(n);
    }
  }
}
