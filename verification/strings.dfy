/** String helpers the application code relies on implicitly: decimal
    rendering of numbers, substring search (`indexOf`, `includes`), ASCII
    case folding, and the lexicographic order used to sort clock times. */
module Strings {
  import opened Wrappers

  // ---------------------------------------------------------------------
  // Decimal rendering of integers (template literals, `String(n)`)
  // ---------------------------------------------------------------------

  predicate IsDigit(c: char) {
    '0' <= c <= '9'
  }

  /** Every character of `s` is a decimal digit. */
  predicate AllDigits(s: string) {
    forall i :: 0 <= i < |s| ==> IsDigit(s[i])
  }

  function DigitChar(d: nat): (c: char)
    requires d < 10
    ensures IsDigit(c) && (c as int) - ('0' as int) == d
  {
    (('0' as int) + d) as char
  }

  function DigitValue(c: char): nat
    requires IsDigit(c)
  {
    (c as int) - ('0' as int)
  }

  /** The number a string of decimal digits denotes (most significant first). */
  function DecimalValue(s: string): nat
    requires AllDigits(s)
  {
    if s == [] then 0 else DecimalValue(s[..|s| - 1]) * 10 + DigitValue(s[|s| - 1])
  }

  /** The canonical decimal rendering of a natural number, as JavaScript
      prints an integral number: digits only, no leading zero. */
  function NatToDecimal(n: nat): (s: string)
    ensures |s| >= 1
  {
    if n < 10 then [DigitChar(n)]
    else NatToDecimal(n / 10) + [DigitChar(n % 10)]
  }

  /** The rendering is canonical: digits only, no leading zero. */
  lemma {:induction false} NatToDecimalDigits(n: nat)
    ensures AllDigits(NatToDecimal(n))
    ensures |NatToDecimal(n)| > 1 ==> NatToDecimal(n)[0] != '0'
  {
    if n >= 10 {
      NatToDecimalDigits(n / 10);
      var prefix := NatToDecimal(n / 10);
      assert NatToDecimal(n) == prefix + [DigitChar(n % 10)];
      assert NatToDecimal(n)[0] == prefix[0];
      assert prefix[0] != '0' by {
        if |prefix| == 1 {
          assert n / 10 >= 1;
        }
      }
    }
  }

  /** Reading the digits back gives the number printed. */
  lemma {:induction false} NatToDecimalRoundTrip(n: nat)
    ensures AllDigits(NatToDecimal(n)) && DecimalValue(NatToDecimal(n)) == n
  {
    NatToDecimalDigits(n);
    if n >= 10 {
      var prefix := NatToDecimal(n / 10);
      var s := NatToDecimal(n);
      assert s == prefix + [DigitChar(n % 10)];
      assert s[..|s| - 1] == prefix;
      NatToDecimalRoundTrip(n / 10);
    }
  }

  /** Two numbers print the same exactly when they are equal. */
  lemma NatToDecimalInjective(m: nat, n: nat)
    ensures NatToDecimal(m) == NatToDecimal(n) <==> m == n
  {
    if NatToDecimal(m) == NatToDecimal(n) {
      NatToDecimalRoundTrip(m);
      NatToDecimalRoundTrip(n);
    }
  }

  /** An integer as JavaScript prints it: a leading '-' for negatives. */
  function IntToString(i: int): (s: string)
    ensures |s| >= 1
    ensures i >= 0 ==> s == NatToDecimal(i)
    ensures i < 0 ==> s[0] == '-' && s[1..] == NatToDecimal(-i)
  {
    if i < 0 then "-" + NatToDecimal(-i) else NatToDecimal(i)
  }

  // ---------------------------------------------------------------------
  // Substring search
  // ---------------------------------------------------------------------

  /** `pat` occurs in `s` starting at position `i`. */
  predicate OccursAt(s: string, pat: string, i: int) {
    0 <= i && i + |pat| <= |s| && s[i..i + |pat|] == pat
  }

  /** The first position at or after `from` where `pat` occurs in `s`
      (`String.prototype.indexOf`). */
  function IndexOfFrom(s: string, pat: string, from: nat): (r: Option<nat>)
    decreases |s| - from
    ensures r.Some? ==> from <= r.value && OccursAt(s, pat, r.value)
    ensures r.Some? ==> forall j :: from <= j < r.value ==> !OccursAt(s, pat, j)
    ensures r.None? ==> forall j :: from <= j ==> !OccursAt(s, pat, j)
  {
    if from + |pat| > |s| then None
    else if s[from..from + |pat|] == pat then Some(from)
    else IndexOfFrom(s, pat, from + 1)
  }

  /** The first occurrence of `pat` in `s`, if any. */
  function IndexOf(s: string, pat: string): (r: Option<nat>)
    ensures r.Some? <==> exists j :: OccursAt(s, pat, j)
    ensures r.Some? ==> OccursAt(s, pat, r.value)
    ensures r.Some? ==> forall j :: 0 <= j < r.value ==> !OccursAt(s, pat, j)
  {
    IndexOfFrom(s, pat, 0)
  }

  /** `pat` occurs somewhere in `s`. */
  predicate Contains(s: string, pat: string) {
    IndexOf(s, pat).Some?
  }

  /** `Contains` means an occurrence exists; the empty pattern is in every string. */
  lemma ContainsMeansOccurs(s: string, pat: string)
    ensures Contains(s, pat) <==> exists j :: OccursAt(s, pat, j)
    ensures pat == [] ==> Contains(s, pat)
  {
    if pat == [] {
      assert OccursAt(s, pat, 0);
    }
  }

  // ---------------------------------------------------------------------
  // Station-id text
  // ---------------------------------------------------------------------

  /** ASCII letter of either case, decimal digit, or '-': the characters a
      station id may hold. */
  predicate IsIdChar(c: char) {
    ('A' <= c <= 'Z') || ('a' <= c <= 'z') || ('0' <= c <= '9') || c == '-'
  }

  /** Text built only from station-id characters. */
  predicate IsIdText(s: string) {
    forall i :: 0 <= i < |s| ==> IsIdChar(s[i])
  }

  // ---------------------------------------------------------------------
  // ASCII case folding
  // ---------------------------------------------------------------------

  function LowerChar(c: char): char {
    if 'A' <= c <= 'Z' then ((c as int) + 32) as char else c
  }

  /** Lower-casing, restricted to the ASCII letters. */
  function ToLowerAscii(s: string): (r: string)
    ensures |r| == |s|
    ensures forall i :: 0 <= i < |s| ==> r[i] == LowerChar(s[i])
  {
    seq(|s|, i requires 0 <= i < |s| => LowerChar(s[i]))
  }

  // ---------------------------------------------------------------------
  // Lexicographic order on strings (code-point order)
  // ---------------------------------------------------------------------

  /** `a` sorts before or equal to `b`: `a` is a prefix of `b`, or at the
      first position where they differ `a` has the smaller character. */
  predicate LexLessEq(a: string, b: string)
    decreases |a|
  {
    if a == [] then true
    else if b == [] then false
    else if a[0] != b[0] then a[0] < b[0]
    else LexLessEq(a[1..], b[1..])
  }

  lemma {:induction false} LexLessEqReflexive(a: string)
    ensures LexLessEq(a, a)
    decreases |a|
  {
    if a != [] {
      LexLessEqReflexive(a[1..]);
    }
  }

  lemma {:induction false} LexLessEqTotal(a: string, b: string)
    ensures LexLessEq(a, b) || LexLessEq(b, a)
    decreases |a|
  {
    if a != [] && b != [] && a[0] == b[0] {
      LexLessEqTotal(a[1..], b[1..]);
    }
  }

  lemma {:induction false} LexLessEqAntisymmetric(a: string, b: string)
    requires LexLessEq(a, b) && LexLessEq(b, a)
    ensures a == b
    decreases |a|
  {
    if a != [] && b != [] {
      LexLessEqAntisymmetric(a[1..], b[1..]);
      assert a == [a[0]] + a[1..];
      assert b == [b[0]] + b[1..];
    }
  }

  lemma {:induction false} LexLessEqTransitive(a: string, b: string, c: string)
    requires LexLessEq(a, b) && LexLessEq(b, c)
    ensures LexLessEq(a, c)
    decreases |a|
  {
    if a != [] && b != [] && c != [] && a[0] == b[0] && b[0] == c[0] {
      LexLessEqTransitive(a[1..], b[1..], c[1..]);
    }
  }
}
