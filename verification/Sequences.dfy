/** Searching a sequence from the left as JavaScript's indexOf does: where the first occurrence is found, and that
    nothing before it was. */
module Sequences {
  /** JavaScript's indexOf: the first position from `from` on, or -1. */
  function IndexOf<T(==)>(s: seq<T>, x: T, from: nat): (r: int)
    requires from <= |s|
    ensures r == -1 ==> x !in s[from..]
    ensures r == -1 && from == 0 ==> x !in s
    ensures r != -1 ==> from <= r < |s| && s[r] == x && x !in s[from..r]
    decreases |s| - from
  {
    if from == |s| then -1
    else if s[from] == x then from
    else IndexOf(s, x, from + 1)
  }

  lemma {:induction false} FirstAt<T>(s: seq<T>, x: T, from: nat, r: nat)
    requires from <= r < |s| && s[r] == x && x !in s[from..r]
    ensures IndexOf(s, x, from) == r
    decreases r - from
  {
    if from < r {
      assert s[from] == s[from..r][0];
      assert s[from + 1..r] == s[from..r][1..];
      FirstAt(s, x, from + 1, r);
    }
  }

  lemma NoneFound<T>(s: seq<T>, x: T)
    requires x !in s
    ensures IndexOf(s, x, 0) == -1
  {
  }
}
