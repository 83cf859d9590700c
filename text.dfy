/**
 * The Python string operations the bot relies on: `str.strip()`,
 * `str.lower()`, `str.split(sep)`, `sep in s`, `str.endswith`, `", ".join`,
 * and decimal formatting of integers (`str(n)`, `f"{n:02d}"`, the `%Y`/`%m`/`%d`
 * fields of `strftime`).
 */
module Text {
  import opened Wrappers

  /** `str.isspace()` for one character. */
  predicate IsSpace(c: char) {
    var n := c as int;
    (9 <= n <= 13) || (0x1C <= n <= 0x20) || n == 0x85 || n == 0xA0 || n == 0x1680
    || (0x2000 <= n <= 0x200A) || n == 0x2028 || n == 0x2029 || n == 0x202F || n == 0x205F || n == 0x3000
  }

  function StripLeft(s: string): (r: string)
    ensures |r| <= |s| && r == s[|s| - |r|..]
    ensures r == [] || !IsSpace(r[0])
  {
    if |s| > 0 && IsSpace(s[0]) then StripLeft(s[1..]) else s
  }

  function StripRight(s: string): (r: string)
    ensures |r| <= |s| && r == s[..|r|]
    ensures r == [] || !IsSpace(r[|r| - 1])
  {
    if |s| > 0 && IsSpace(s[|s| - 1]) then StripRight(s[..|s| - 1]) else s
  }

  /** `str.strip()`: no whitespace left at either end. */
  function Strip(s: string): (r: string)
    ensures |r| <= |s|
    ensures r == [] || (!IsSpace(r[0]) && !IsSpace(r[|r| - 1]))
  {
    var l := StripLeft(s);
    var r := StripRight(l);
    assert r == [] || r[0] == l[0];
    r
  }

  /** A string that already has no whitespace at its ends is its own strip. */
  lemma StripNoop(s: string)
    requires s == [] || (!IsSpace(s[0]) && !IsSpace(s[|s| - 1]))
    ensures Strip(s) == s
  {
  }

  lemma StripIdempotent(s: string)
    ensures Strip(Strip(s)) == Strip(s)
  {
    StripNoop(Strip(s));
  }

  /** `str.lower()` on ASCII letters. */
  function LowerChar(c: char): char {
    if 'A' <= c <= 'Z' then (c as int + 32) as char else c
  }

  function Lower(s: string): (r: string)
    ensures |r| == |s| && forall i :: 0 <= i < |s| ==> r[i] == LowerChar(s[i])
  {
    seq(|s|, i requires 0 <= i < |s| => LowerChar(s[i]))
  }

  // ---------------------------------------------------------------------
  // Decimal digits

  predicate IsDigit(c: char) {
    '0' <= c <= '9'
  }

  predicate AllDigits(s: string) {
    forall i :: 0 <= i < |s| ==> IsDigit(s[i])
  }

  function DigitChar(n: int): (c: char)
    requires 0 <= n < 10
    ensures IsDigit(c) && c as int - '0' as int == n
  {
    ('0' as int + n) as char
  }

  /** The number a string of decimal digits denotes. */
  function DigitsValue(s: string): (v: nat)
    requires AllDigits(s)
  {
    if |s| == 0 then 0 else 10 * DigitsValue(s[..|s| - 1]) + (s[|s| - 1] as int - '0' as int)
  }

  /** `str(n)` for a non-negative integer. */
  function NatToString(n: nat): (r: string)
    ensures |r| >= 1 && AllDigits(r)
    decreases n
  {
    if n < 10 then [DigitChar(n)] else NatToString(n / 10) + [DigitChar(n % 10)]
  }

  lemma {:induction false} NatToStringValue(n: nat)
    ensures DigitsValue(NatToString(n)) == n
    decreases n
  {
    var s := NatToString(n);
    if n >= 10 {
      NatToStringValue(n / 10);
      assert s[..|s| - 1] == NatToString(n / 10);
    }
  }

  /** Two digits, zero-padded: `%d`/`%m` of `strftime`. */
  function Pad2(n: int): (r: string)
    requires 0 <= n < 100
    ensures |r| == 2 && AllDigits(r)
  {
    [DigitChar(n / 10), DigitChar(n % 10)]
  }

  /** Four digits, zero-padded: `%Y` of `strftime`. */
  function Pad4(n: int): (r: string)
    requires 0 <= n < 10000
    ensures |r| == 4 && AllDigits(r)
  {
    [DigitChar(n / 1000), DigitChar(n / 100 % 10), DigitChar(n / 10 % 10), DigitChar(n % 10)]
  }

  lemma Pad2Value(n: int)
    requires 0 <= n < 100
    ensures DigitsValue(Pad2(n)) == n
  {
    var s := Pad2(n);
    assert s[..1][..0] == [];
    assert DigitsValue(s[..1]) == n / 10;
  }

  lemma Pad4Value(n: int)
    requires 0 <= n < 10000
    ensures DigitsValue(Pad4(n)) == n
  {
    DigitPrefixes(Pad4(n));
    FourDigits(n);
  }

  /** A number below 10000 is the sum of its four decimal digits times their place values. */
  lemma FourDigits(n: int)
    requires 0 <= n < 10000
    ensures n == 1000 * (n / 1000) + 100 * (n / 100 % 10) + 10 * (n / 10 % 10) + n % 10
  {
    var q := n / 10;
    assert n == 10 * q + n % 10;
    assert n / 100 == q / 10;
    assert n / 1000 == q / 100;
    assert q / 10 == 10 * (q / 100) + q / 10 % 10;
  }

  /** Two decimal digits spell a number below 100 whose `%02d` spelling is themselves. */
  lemma Pad2OfDigits(t: string)
    requires |t| == 2 && AllDigits(t)
    ensures DigitsValue(t) < 100 && Pad2(DigitsValue(t)) == t
  {
    assert t[..1][..0] == [];
    var a, b := t[0] as int - '0' as int, t[1] as int - '0' as int;
    assert DigitsValue(t[..1]) == a;
    assert DigitsValue(t) == 10 * a + b;
  }

  /** Division by a power of ten recovers the quotient and remainder it was built from. */
  lemma DivByTens(x: int, q1: int, r1: int, q2: int, r2: int, q3: int, r3: int)
    requires x == 10 * q1 + r1 && 0 <= r1 < 10
    requires x == 100 * q2 + r2 && 0 <= r2 < 100
    requires x == 1000 * q3 + r3 && 0 <= r3 < 1000
    ensures x / 10 == q1 && x % 10 == r1 && x / 100 == q2 && x / 1000 == q3
  {
  }

  /** The value of the first one, two and three digits of four. */
  lemma DigitPrefixes(t: string)
    requires |t| == 4 && AllDigits(t)
    ensures DigitsValue(t[..1]) == t[0] as int - '0' as int
    ensures DigitsValue(t[..2]) == 10 * DigitsValue(t[..1]) + (t[1] as int - '0' as int)
    ensures DigitsValue(t[..3]) == 10 * DigitsValue(t[..2]) + (t[2] as int - '0' as int)
    ensures DigitsValue(t) == 10 * DigitsValue(t[..3]) + (t[3] as int - '0' as int)
  {
    assert t[..3][..2] == t[..2] && t[..2][..1] == t[..1] && t[..1][..0] == [];
  }

  /** `%04d` of a number given by its four digits spells those digits. */
  lemma Pad4OfParts(a: int, b: int, c: int, d: int)
    requires 0 <= a < 10 && 0 <= b < 10 && 0 <= c < 10 && 0 <= d < 10
    ensures Pad4(1000 * a + 100 * b + 10 * c + d) == [DigitChar(a), DigitChar(b), DigitChar(c), DigitChar(d)]
  {
    var v := 1000 * a + 100 * b + 10 * c + d;
    DivByTens(v, 100 * a + 10 * b + c, d, 10 * a + b, 10 * c + d, a, 100 * b + 10 * c + d);
    assert (10 * a + b) % 10 == b;
    assert (100 * a + 10 * b + c) % 10 == c;
  }

  /** A digit character is the `DigitChar` of its value. */
  lemma DigitCharOf(ch: char)
    requires IsDigit(ch)
    ensures DigitChar(ch as int - '0' as int) == ch
  {
  }

  /** Four decimal digits spell a number below 10000 whose `%04d` spelling is themselves. */
  lemma Pad4OfDigits(t: string)
    requires |t| == 4 && AllDigits(t)
    ensures DigitsValue(t) < 10000 && Pad4(DigitsValue(t)) == t
  {
    var a, b := t[0] as int - '0' as int, t[1] as int - '0' as int;
    var c, d := t[2] as int - '0' as int, t[3] as int - '0' as int;
    DigitPrefixes(t);
    assert DigitsValue(t) == 1000 * a + 100 * b + 10 * c + d;
    Pad4OfParts(a, b, c, d);
    DigitCharOf(t[0]);
    DigitCharOf(t[1]);
    DigitCharOf(t[2]);
    DigitCharOf(t[3]);
    assert t == [t[0], t[1], t[2], t[3]];
  }

  /** `f"{n:02d}"` for a non-negative integer. */
  function Format02(n: nat): string {
    if n < 10 then "0" + [DigitChar(n)] else NatToString(n)
  }

  lemma Format02IsPad2(n: nat)
    requires n < 100
    ensures Format02(n) == Pad2(n)
  {
    if n >= 10 {
      assert NatToString(n / 10) == [DigitChar(n / 10)];
    }
  }

  /** `str(y)` of a four-digit year is its `%Y` spelling. */
  lemma NatToStringFourDigits(n: nat)
    requires 1000 <= n <= 9999
    ensures NatToString(n) == Pad4(n)
  {
    assert n / 10 / 10 == n / 100;
    assert n / 100 / 10 == n / 1000;
    assert NatToString(n / 1000) == [DigitChar(n / 1000)];
    assert NatToString(n / 100) == [DigitChar(n / 1000), DigitChar(n / 100 % 10)];
    assert NatToString(n / 10) == [DigitChar(n / 1000), DigitChar(n / 100 % 10), DigitChar(n / 10 % 10)];
  }

  // ---------------------------------------------------------------------
  // Searching and splitting

  predicate OccursAt(s: string, sep: string, i: int) {
    0 <= i && i + |sep| <= |s| && s[i..i + |sep|] == sep
  }

  /** First index at or after `from` where `sep` occurs in `s` (`str.find`). */
  function FindFrom(s: string, sep: string, from: nat): (r: Option<nat>)
    ensures r.Some? ==> from <= r.value && OccursAt(s, sep, r.value)
    ensures r.Some? ==> forall j :: from <= j < r.value ==> !OccursAt(s, sep, j)
    ensures r.None? ==> forall j :: from <= j ==> !OccursAt(s, sep, j)
    decreases |s| - from
  {
    if from + |sep| > |s| then None
    else if s[from..from + |sep|] == sep then Some(from)
    else FindFrom(s, sep, from + 1)
  }

  /** `sep in s`. */
  predicate Contains(s: string, sep: string) {
    FindFrom(s, sep, 0).Some?
  }

  /** `s.split(sep)` for a non-empty separator: left to right, non-overlapping. */
  function Split(s: string, sep: string): (parts: seq<string>)
    requires |sep| > 0
    ensures |parts| >= 1
    decreases |s|
  {
    match FindFrom(s, sep, 0)
    case None => [s]
    case Some(k) => [s[..k]] + Split(s[k + |sep|..], sep)
  }

  lemma NoOccurrenceInPrefix(s: string, sep: string, k: nat)
    requires |sep| > 0 && k <= |s|
    requires forall j :: 0 <= j < k ==> !OccursAt(s, sep, j)
    ensures !Contains(s[..k], sep)
  {
    var p := s[..k];
    if FindFrom(p, sep, 0).Some? {
      var j := FindFrom(p, sep, 0).value;
      assert p[j..j + |sep|] == s[j..j + |sep|];
      assert OccursAt(s, sep, j) && j < k;
    }
  }

  /** The character `c` does not occur in `x`. */
  predicate Free(x: string, c: char) {
    forall i :: 0 <= i < |x| ==> x[i] != c
  }

  /** A separator cannot occur where its first character does not. */
  lemma FindNone(x: string, sep: string)
    requires |sep| > 0 && Free(x, sep[0])
    ensures FindFrom(x, sep, 0).None?
  {
  }

  /** The first occurrence of a separator after a field free of its first character. */
  lemma FindAfterFree(x: string, sep: string, y: string)
    requires |sep| > 0 && Free(x, sep[0])
    ensures FindFrom(x + sep + y, sep, 0) == Some(|x|)
  {
    var s := x + sep + y;
    assert s[|x|..|x| + |sep|] == sep;
    assert OccursAt(s, sep, |x|);
  }

  /** Splitting after a field free of the separator's first character. */
  lemma SplitAfterFree(x: string, sep: string, y: string)
    requires |sep| > 0 && Free(x, sep[0])
    ensures Split(x + sep + y, sep) == [x] + Split(y, sep)
  {
    var s := x + sep + y;
    FindAfterFree(x, sep, y);
    assert s[..|x|] == x;
    assert s[|x| + |sep|..] == y;
  }

  /** A string free of the separator's first character is its own only part. */
  lemma SplitFree(x: string, sep: string)
    requires |sep| > 0 && Free(x, sep[0])
    ensures Split(x, sep) == [x]
  {
    FindNone(x, sep);
  }

  /**
   * A string that splits into exactly two parts is the two parts joined by
   * the separator, and neither part contains the separator.
   */
  lemma SplitTwo(s: string, sep: string)
    requires |sep| > 0 && |Split(s, sep)| == 2
    ensures s == Split(s, sep)[0] + sep + Split(s, sep)[1]
    ensures !Contains(Split(s, sep)[0], sep) && !Contains(Split(s, sep)[1], sep)
  {
    var k := FindFrom(s, sep, 0).value;
    var rest := s[k + |sep|..];
    assert Split(s, sep) == [s[..k]] + Split(rest, sep);
    assert FindFrom(rest, sep, 0).None?;
    assert s == s[..k] + s[k..k + |sep|] + rest;
    NoOccurrenceInPrefix(s, sep, k);
  }

  /** `s.endswith(suffix)`. */
  predicate EndsWith(s: string, suffix: string) {
    |suffix| <= |s| && s[|s| - |suffix|..] == suffix
  }

  /** `sep.join(parts)`. */
  function Join(parts: seq<string>, sep: string): string {
    if |parts| == 0 then ""
    else if |parts| == 1 then parts[0]
    else Join(parts[..|parts| - 1], sep) + sep + parts[|parts| - 1]
  }
}
