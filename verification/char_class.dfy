/** The bracketed character classes of the two configuration regular
    expressions, and the anchored one-or-more match `^[...]+$` they are used
    in. Without the `m` flag `$` matches only at the very end of the input,
    so such a match covers the whole string. */
module CharClass {

  /** One term of a class: a range `a-z`, or a single literal character.
      The escape `\d` is written as the range `0-9`. */
  datatype Term = Range(lo: char, hi: char) | Single(c: char)

  type Class = seq<Term>

  predicate InTerm(t: Term, c: char) {
    match t
    case Range(lo, hi) => lo <= c <= hi
    case Single(d) => c == d
  }

  function InClass(cls: Class, c: char): (b: bool)
    ensures b <==> exists k | 0 <= k < |cls| :: InTerm(cls[k], c)
  {
    if |cls| == 0 then false
    else if InTerm(cls[0], c) then true
    else
      var b := InClass(cls[1..], c);
      assert forall k | 1 <= k < |cls| :: cls[k] == cls[1..][k - 1];
      b
  }

  /** Scans `s` from `i` on, as the `[...]+` loop does before `$`. */
  function AllInFrom(cls: Class, s: string, i: nat): (b: bool)
    requires i <= |s|
    ensures b <==> forall k | i <= k < |s| :: InClass(cls, s[k])
    decreases |s| - i
  {
    if i == |s| then true
    else if !InClass(cls, s[i]) then false
    else AllInFrom(cls, s, i + 1)
  }

  /** `^[cls]+$`: at least one character, and every character in the class. */
  function FullMatchPlus(cls: Class, s: string): (b: bool)
    ensures b <==> 0 < |s| && forall k | 0 <= k < |s| :: InClass(cls, s[k])
  {
    0 < |s| && AllInFrom(cls, s, 0)
  }

  predicate IsAsciiLetter(c: char) {
    'a' <= c <= 'z' || 'A' <= c <= 'Z'
  }
}
