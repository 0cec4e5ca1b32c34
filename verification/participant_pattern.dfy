/** The regular expression `/ (\d+) participant/` of github.js applied with
    `String.prototype.match` (no `g` flag): the leftmost position where a
    space, one or more ASCII digits and the text " participant" follow each
    other, and the digits captured by the group. */
module ParticipantPattern {
  import opened Wrappers
  import opened Strings

  /** What must follow the captured digits. */
  const Tail: string := " participant"

  /** The pattern matches at `i` with its digits occupying `[i + 1, j)`. */
  predicate MatchAt(t: string, i: nat, j: nat) {
    && i + 1 < j
    && j + |Tail| <= |t|
    && t[i] == ' '
    && AllDigits(t[i + 1..j])
    && t[j..j + |Tail|] == Tail
  }

  /** No match starts before `i`. */
  ghost predicate NoMatchBefore(t: string, i: nat) {
    forall k: nat, j: nat | k < i :: !MatchAt(t, k, j)
  }

  /** The match that `match` reports: the leftmost one. */
  ghost predicate LeftmostMatch(t: string, i: nat, j: nat) {
    MatchAt(t, i, j) && NoMatchBefore(t, i)
  }

  /** Tries the pattern at the single start position `i`. `\d+` is greedy
      and the character after the digits must be a space, so only the end
      of the maximal digit run can work; backtracking to a shorter run
      always meets a digit where the space is needed. */
  function MatchEnd(t: string, i: nat): (r: Option<nat>)
    ensures r.Some? ==> MatchAt(t, i, r.value)
    ensures r.None? ==> forall j: nat :: !MatchAt(t, i, j)
  {
    if i < |t| && t[i] == ' ' then
      var j := RunEnd(t, i + 1);
      if i + 1 < j && OccursAt(Tail, t, j) then Some(j)
      else
        assert forall j': nat | MatchAt(t, i, j') :: j' == j by {
          forall j': nat | MatchAt(t, i, j') ensures j' == j {
            assert t[j'] == t[j'..j' + |Tail|][0] == ' ';
            RunEndUnique(t, i + 1, j');
          }
        }
        None
    else None
  }

  /** A start position has at most one match end. */
  lemma MatchEndUnique(t: string, i: nat, j1: nat, j2: nat)
    requires MatchAt(t, i, j1) && MatchAt(t, i, j2)
    ensures j1 == j2
  {
    assert t[j1] == t[j1..j1 + |Tail|][0] == ' ';
    assert t[j2] == t[j2..j2 + |Tail|][0] == ' ';
    RunEndUnique(t, i + 1, j1);
    RunEndUnique(t, i + 1, j2);
  }

  /** The regular expression engine's outer loop: try each start position
      from `from` on, and stop at the first that matches. */
  function Scan(t: string, from: nat): (r: Option<(nat, nat)>)
    requires from <= |t|
    ensures r.Some? ==> from <= r.value.0 && MatchAt(t, r.value.0, r.value.1)
    ensures r.Some? ==> forall k: nat, j: nat | from <= k < r.value.0 :: !MatchAt(t, k, j)
    ensures r.None? ==> forall k: nat, j: nat | from <= k :: !MatchAt(t, k, j)
    decreases |t| - from
  {
    if from == |t| then None
    else
      match MatchEnd(t, from)
      case Some(j) => Some((from, j))
      case None => Scan(t, from + 1)
  }

  /** `text.match(/ (\d+) participant/)`: `None` for `null`, otherwise the
      start and end of the captured group's digits. */
  function Search(t: string): (r: Option<(nat, nat)>)
    ensures r.Some? ==> LeftmostMatch(t, r.value.0, r.value.1)
    ensures r.None? <==> forall i: nat, j: nat :: !MatchAt(t, i, j)
  {
    Scan(t, 0)
  }

  /** The capture group `match[1]`. */
  function Capture(t: string): (r: Option<string>)
    ensures r.None? <==> forall i: nat, j: nat :: !MatchAt(t, i, j)
    ensures r.Some? ==> 0 < |r.value| && AllDigits(r.value)
  {
    match Search(t)
    case None => None
    case Some((i, j)) => Some(t[i + 1..j])
  }

  /** Whatever is captured is a non-empty run of ASCII digits, preceded by a
      space and followed by " participant", taken from the leftmost match
      and maximal: the character after it is not a digit. */
  lemma CaptureShape(t: string)
    requires Capture(t).Some?
    ensures exists i: nat, j: nat ::
      && LeftmostMatch(t, i, j)
      && Capture(t).value == t[i + 1..j]
      && 0 < |t[i + 1..j]| && AllDigits(t[i + 1..j])
      && t[i] == ' ' && OccursAt(Tail, t, j)
      && j == RunEnd(t, i + 1)
  {
    var (i, j) := Search(t).value;
    assert t[j] == t[j..j + |Tail|][0] == ' ';
    RunEndUnique(t, i + 1, j);
  }

  /** Conversely, the leftmost match is exactly what is captured. */
  lemma {:induction false} LeftmostMatchCaptured(t: string, i: nat, j: nat)
    requires LeftmostMatch(t, i, j)
    ensures Capture(t) == Some(t[i + 1..j])
  {
    var (i', j') := Search(t).value;
    assert i <= i';
    assert i' <= i;
    MatchEndUnique(t, i, j, j');
  }

  /** A match that starts before a space of `t` that is followed by at
      least a tail's length of `t` lies wholly inside `t`: its digits stop at
      that space at the latest. */
  lemma MatchBeforeSpaceInPrefix(t: string, more: string, i: nat, k: nat, j: nat)
    requires k < i && i + |Tail| < |t| && t[i] == ' '
    ensures MatchAt(t + more, k, j) ==> MatchAt(t, k, j)
  {
    var u := t + more;
    if MatchAt(u, k, j) {
      assert u[i] == ' ';
      assert u[j] == u[j..j + |Tail|][0] == ' ';
      DigitsInSlice(u, k + 1, j);
      assert j <= i;
      assert u[k + 1..j] == t[k + 1..j];
      assert u[j..j + |Tail|] == t[j..j + |Tail|];
    }
  }

  /** Text after a match cannot move or change what is captured. */
  lemma {:induction false} CaptureStableUnderAppend(t: string, more: string)
    requires Capture(t).Some?
    ensures Capture(t + more) == Capture(t)
  {
    var (i, j) := Search(t).value;
    var u := t + more;
    assert MatchAt(u, i, j) by {
      assert u[i + 1..j] == t[i + 1..j];
      assert u[j..j + |Tail|] == t[j..j + |Tail|];
    }
    forall k: nat, j': nat | k < i
      ensures MatchAt(u, k, j') ==> MatchAt(t, k, j')
    {
      MatchBeforeSpaceInPrefix(t, more, i, k, j');
    }
    LeftmostMatchCaptured(u, i, j);
    assert u[i + 1..j] == t[i + 1..j];
  }
}
