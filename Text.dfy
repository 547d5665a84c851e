/**
 * The string operations the condition evaluator relies on: String.Split on one
 * character, EndsWith, Replace with an empty replacement, and the invariant-culture
 * number parsing of int.TryParse and decimal.TryParse.
 */
module Text {
  import opened Outcomes

  // ---------------------------------------------------------------- splitting

  /** String.Split(c): the pieces between the occurrences of c, empty pieces included. */
  function Split(s: string, c: char): (parts: seq<string>)
    ensures |parts| >= 1
  {
    if |s| == 0 then [""]
    else
      var rest := Split(s[1..], c);
      if s[0] == c then [""] + rest else [[s[0]] + rest[0]] + rest[1..]
  }

  /** String.Join(c, parts): the inverse of Split. */
  function Join(parts: seq<string>, c: char): string
    requires |parts| >= 1
  {
    if |parts| == 1 then parts[0] else parts[0] + [c] + Join(parts[1..], c)
  }

  /** The number of occurrences of c in s. */
  function Occurrences(s: string, c: char): nat {
    if |s| == 0 then 0 else (if s[0] == c then 1 else 0) + Occurrences(s[1..], c)
  }

  /** Joining the pieces back with the separator restores the string. */
  lemma {:induction false} JoinSplit(s: string, c: char)
    ensures Join(Split(s, c), c) == s
  {
    if |s| > 0 {
      JoinSplit(s[1..], c);
      var rest := Split(s[1..], c);
      if s[0] != c {
        if |rest| == 1 {
          assert Split(s, c) == [[s[0]] + rest[0]];
        } else {
          var parts := Split(s, c);
          assert parts[1..] == rest[1..];
          assert Join(parts, c) == [s[0]] + rest[0] + [c] + Join(rest[1..], c);
        }
      } else {
        assert Split(s, c)[1..] == rest;
      }
    }
  }

  /** Splitting yields one more piece than there are separators, and no piece holds one. */
  lemma {:induction false} SplitPieces(s: string, c: char)
    ensures |Split(s, c)| == Occurrences(s, c) + 1
    ensures forall i :: 0 <= i < |Split(s, c)| ==> c !in Split(s, c)[i]
  {
    if |s| > 0 {
      SplitPieces(s[1..], c);
      var rest := Split(s[1..], c);
      if s[0] != c {
        assert forall i :: 1 <= i < |Split(s, c)| ==> Split(s, c)[i] == rest[i];
      }
    }
  }

  /** Splitting a joined sequence of separator-free pieces gives the pieces back. */
  lemma {:induction false} SplitJoin(parts: seq<string>, c: char)
    requires |parts| >= 1
    requires forall i :: 0 <= i < |parts| ==> c !in parts[i]
    ensures Split(Join(parts, c), c) == parts
  {
    if |parts| == 1 {
      SplitFree(parts[0], c);
    } else {
      SplitJoin(parts[1..], c);
      SplitAround(parts[0], Join(parts[1..], c), c);
    }
  }

  /** A string without the separator is a single piece. */
  lemma {:induction false} SplitFree(a: string, c: char)
    requires c !in a
    ensures Split(a, c) == [a]
  {
    if |a| > 0 {
      SplitFree(a[1..], c);
      assert [a[0]] + a[1..] == a;
    }
  }

  /** The first separator ends the first piece. */
  lemma {:induction false} SplitAround(a: string, b: string, c: char)
    requires c !in a
    ensures Split(a + [c] + b, c) == [a] + Split(b, c)
  {
    if |a| == 0 {
      assert a + [c] + b == [c] + b;
      assert ([c] + b)[1..] == b;
    } else {
      var s := a + [c] + b;
      assert s[1..] == a[1..] + [c] + b;
      SplitAround(a[1..], b, c);
      assert [a[0]] + a[1..] == a;
    }
  }

  // ---------------------------------------------------------------- suffixes and replacement

  /** String.EndsWith(suffix). */
  predicate EndsWith(s: string, suffix: string) {
    |suffix| <= |s| && s[|s| - |suffix|..] == suffix
  }

  /**
   * String.Replace(pattern, ""): every occurrence of the pattern, found left to right
   * without overlap, is deleted.
   */
  function RemoveAll(s: string, pattern: string): (r: string)
    requires |pattern| > 0
    ensures |r| <= |s|
    decreases |s|
  {
    if |s| < |pattern| then s
    else if s[..|pattern|] == pattern then RemoveAll(s[|pattern|..], pattern)
    else [s[0]] + RemoveAll(s[1..], pattern)
  }

  /**
   * Deleting a pattern that starts with a character the name does not contain,
   * and contains it only at its start, from name + pattern leaves the name.
   */
  lemma {:induction false} RemoveTrailing(name: string, pattern: string)
    requires |pattern| > 0 && pattern[0] !in name && pattern[0] !in pattern[1..]
    ensures RemoveAll(name + pattern, pattern) == name
  {
    var s := name + pattern;
    if |name| == 0 {
      assert s == pattern;
      assert s[|pattern|..] == [];
    } else {
      assert s[..|pattern|][0] == name[0];
      assert s[1..] == name[1..] + pattern;
      RemoveTrailing(name[1..], pattern);
      assert [name[0]] + name[1..] == name;
    }
  }

  // ---------------------------------------------------------------- numbers

  predicate IsDigit(ch: char) {
    '0' <= ch <= '9'
  }

  predicate AllDigits(s: string) {
    forall i :: 0 <= i < |s| ==> IsDigit(s[i])
  }

  /** The value of a string of decimal digits, most significant first. */
  function DigitsValue(s: string): nat
    requires AllDigits(s)
  {
    if |s| == 0 then 0
    else DigitsValue(s[..|s| - 1]) * 10 + (s[|s| - 1] as int - '0' as int)
  }

  function Pow10(n: nat): (p: nat)
    ensures p >= 1
  {
    if n == 0 then 1 else 10 * Pow10(n - 1)
  }

  /** The white-space characters .NET's number parsing skips: U+0009 to U+000D and the space. */
  predicate IsWhite(ch: char) {
    ch == ' ' || ('\t' <= ch <= '\r')
  }

  /** The string with leading and trailing white space removed. */
  function Trim(s: string): (r: string)
    ensures |r| <= |s|
    decreases |s|
  {
    if |s| > 0 && IsWhite(s[0]) then Trim(s[1..])
    else if |s| > 0 && IsWhite(s[|s| - 1]) then Trim(s[..|s| - 1])
    else s
  }

  /** A leading '+' or '-', if any, and the rest. */
  function SplitSign(s: string): (bool, string) {
    if |s| > 0 && (s[0] == '-' || s[0] == '+') then (s[0] == '-', s[1..]) else (false, s)
  }

  const Int32Min: int := -0x8000_0000
  const Int32Max: int := 0x7FFF_FFFF

  /**
   * int.TryParse with the default integer style: optional surrounding white space,
   * an optional sign, one or more digits, and a value that fits in 32 bits.
   */
  function ParseInt32(s: string): (r: Option<int>)
    ensures r.Some? ==> Int32Min <= r.value <= Int32Max
  {
    var (negative, digits) := SplitSign(Trim(s));
    if |digits| == 0 || !AllDigits(digits) then None
    else
      var magnitude: int := DigitsValue(digits);
      var v := if negative then -magnitude else magnitude;
      if Int32Min <= v <= Int32Max then Some(v) else None
  }

  /** The index of the first occurrence of c in s, or |s| when there is none. */
  function FirstIndex(s: string, c: char): (k: nat)
    ensures k <= |s| && (k < |s| ==> s[k] == c) && c !in s[..k]
  {
    if |s| == 0 then 0
    else if s[0] == c then 0
    else
      var k := FirstIndex(s[1..], c);
      assert s[..k + 1] == [s[0]] + s[1..][..k];
      k + 1
  }

  /** The largest decimal magnitude, 2^96 - 1. */
  const DecimalMax: int := 79228162514264337593543950335

  /**
   * decimal.TryParse with the invariant culture: optional surrounding white space,
   * an optional leading sign, digits with at most one '.', at least one digit, and a
   * magnitude no larger than DecimalMax.
   */
  function ParseDecimal(s: string): (r: Option<real>)
    ensures r.Some? ==> -DecimalMax as real <= r.value <= DecimalMax as real
  {
    var (negative, body) := SplitSign(Trim(s));
    var k := FirstIndex(body, '.');
    var whole := body[..k];
    var fraction := if k < |body| then body[k + 1..] else "";
    if |whole| + |fraction| == 0 || !AllDigits(whole) || !AllDigits(fraction) then None
    else
      var magnitude := DigitsValue(whole) as real + DigitsValue(fraction) as real / Pow10(|fraction|) as real;
      if magnitude > DecimalMax as real then None
      else Some(if negative then -magnitude else magnitude)
  }

  // ---------------------------------------------------------------- printing, the partner of parsing

  function DigitChar(d: nat): (ch: char)
    requires d < 10
    ensures IsDigit(ch) && ch as int - '0' as int == d
  {
    ('0' as int + d) as char
  }

  /** The decimal digits of n. */
  function NatToString(n: nat): (s: string)
    ensures |s| >= 1 && AllDigits(s)
  {
    if n < 10 then [DigitChar(n)] else NatToString(n / 10) + [DigitChar(n % 10)]
  }

  /** n in decimal, with a leading '-' when negative. */
  function IntToString(n: int): string {
    if n < 0 then "-" + NatToString(-n) else NatToString(n)
  }

  lemma {:induction false} NatToStringValue(n: nat)
    ensures DigitsValue(NatToString(n)) == n
  {
    if n >= 10 {
      NatToStringValue(n / 10);
      var s := NatToString(n);
      assert s[..|s| - 1] == NatToString(n / 10);
    }
  }

  lemma TrimPrinted(s: string)
    requires |s| >= 1 && !IsWhite(s[0]) && !IsWhite(s[|s| - 1])
    ensures Trim(s) == s
  {
  }

  /** A printed int is its sign, if any, followed by the digits of its magnitude. */
  lemma SignOfPrinted(n: int)
    ensures Trim(IntToString(n)) == IntToString(n)
    ensures SplitSign(IntToString(n)) == (n < 0, NatToString(if n < 0 then -n else n))
  {
    var s := IntToString(n);
    TrimPrinted(s);
    if n < 0 {
      assert s[1..] == NatToString(-n);
    }
  }

  lemma DigitsHaveNoDot(d: string)
    requires AllDigits(d)
    ensures FirstIndex(d, '.') == |d|
  {
    var k := FirstIndex(d, '.');
    assert k < |d| ==> IsDigit(d[k]);
  }

  /** Printing an int in 32-bit range and parsing it back gives the int. */
  lemma ParseInt32Printed(n: int)
    requires Int32Min <= n <= Int32Max
    ensures ParseInt32(IntToString(n)) == Some(n)
  {
    SignOfPrinted(n);
    NatToStringValue(if n < 0 then -n else n);
  }

  /** Printing an int within the decimal range and parsing it as a decimal gives the same number. */
  lemma ParseDecimalPrinted(n: int)
    requires -DecimalMax <= n <= DecimalMax
    ensures ParseDecimal(IntToString(n)) == Some(n as real)
  {
    var digits := NatToString(if n < 0 then -n else n);
    SignOfPrinted(n);
    DigitsHaveNoDot(digits);
    assert digits[..|digits|] == digits;
    NatToStringValue(if n < 0 then -n else n);
    assert DigitsValue("") as real / Pow10(0) as real == 0.0;
  }

  /** A literal with a fractional part: "2.5" reads as 2.5. */
  lemma ParseTwoAndAHalf()
    ensures ParseDecimal("2.5") == Some(2.5)
  {
    var s := "2.5";
    assert Trim(s) == s by { TrimPrinted(s); }
    assert SplitSign(s) == (false, s);
    assert FirstIndex(s, '.') == 1;
    assert s[..1] == "2" && s[2..] == "5";
    assert DigitsValue("2") == 2 && DigitsValue("5") == 5;
  }
}
