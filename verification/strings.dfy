/** Character and decimal-number facts used by both source files: ASCII
    digits (what JavaScript's `\d` matches), the value of a digit string,
    the decimal rendering of a number inside a template literal, and
    substring containment. */
module Strings {

  predicate IsDigit(c: char) {
    '0' <= c <= '9'
  }

  predicate AllDigits(s: string) {
    forall i | 0 <= i < |s| :: IsDigit(s[i])
  }

  function DigitValue(c: char): nat
    requires IsDigit(c)
  {
    c as int - '0' as int
  }

  function DigitChar(d: nat): (c: char)
    requires d < 10
    ensures IsDigit(c) && DigitValue(c) == d
  {
    ('0' as int + d) as char
  }

  /** The number a string of decimal digits denotes (leading zeros allowed). */
  function Value(s: string): nat
    requires AllDigits(s)
  {
    if |s| == 0 then 0 else 10 * Value(s[..|s| - 1]) + DigitValue(s[|s| - 1])
  }

  /** Decimal rendering of a non-negative integer, as `${n}` produces it. */
  function FromNat(n: nat): (s: string)
    ensures 0 < |s|
    ensures AllDigits(s)
    ensures |s| > 1 ==> s[0] != '0'
  {
    if n < 10 then [DigitChar(n)] else FromNat(n / 10) + [DigitChar(n % 10)]
  }

  lemma {:induction false} ValueOfFromNat(n: nat)
    ensures Value(FromNat(n)) == n
  {
    if n >= 10 {
      var s := FromNat(n);
      assert s[..|s| - 1] == FromNat(n / 10);
      ValueOfFromNat(n / 10);
    }
  }

  lemma DigitsInSlice(s: string, a: nat, b: nat)
    requires a <= b <= |s| && AllDigits(s[a..b])
    ensures forall p | a <= p < b :: IsDigit(s[p])
  {
    forall p | a <= p < b ensures IsDigit(s[p]) {
      assert s[p] == s[a..b][p - a];
    }
  }

  /** The end of the maximal run of digits starting at `i`. */
  function RunEnd(s: string, i: nat): (j: nat)
    requires i <= |s|
    ensures i <= j <= |s|
    ensures AllDigits(s[i..j])
    ensures j == |s| || !IsDigit(s[j])
    decreases |s| - i
  {
    if i == |s| || !IsDigit(s[i]) then i
    else
      var j := RunEnd(s, i + 1);
      assert s[i..j] == [s[i]] + s[i + 1..j];
      j
  }

  /** Any run of digits starting at `i` and followed by a non-digit (or the
      end) is the maximal one. */
  lemma {:induction false} RunEndUnique(s: string, i: nat, j: nat)
    requires i <= j <= |s|
    requires AllDigits(s[i..j])
    requires j == |s| || !IsDigit(s[j])
    ensures RunEnd(s, i) == j
    decreases |s| - i
  {
    if i < j {
      assert s[i] == s[i..j][0];
      assert s[i + 1..j] == s[i..j][1..];
      RunEndUnique(s, i + 1, j);
    }
  }

  /** A string made of digits is its own maximal run. */
  lemma WholeRun(s: string)
    ensures AllDigits(s) ==> RunEnd(s, 0) == |s|
  {
    if AllDigits(s) {
      assert s[0..|s|] == s;
      RunEndUnique(s, 0, |s|);
    }
  }

  /** `needle` occurs in `hay` starting at index `k`. */
  predicate OccursAt(needle: string, hay: string, k: nat) {
    k + |needle| <= |hay| && hay[k..k + |needle|] == needle
  }

  lemma OccursInConcat(before: string, needle: string, after: string)
    ensures OccursAt(needle, before + needle + after, |before|)
  {
    assert (before + needle + after)[|before|..|before| + |needle|] == needle;
  }

  ghost predicate Infix(needle: string, hay: string) {
    exists k: nat :: OccursAt(needle, hay, k)
  }

  function Pow2(n: nat): nat {
    if n == 0 then 1 else 2 * Pow2(n - 1)
  }

  lemma {:induction false} Pow2Add(a: nat, b: nat)
    ensures Pow2(a + b) == Pow2(a) * Pow2(b)
    decreases a
  {
    if a > 0 {
      Pow2Add(a - 1, b);
    }
  }

  lemma {:induction false} Pow2Exceeds(n: nat)
    ensures n < Pow2(n)
  {
    if n > 0 {
      Pow2Exceeds(n - 1);
    }
  }
}
