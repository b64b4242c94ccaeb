/** Rearranging sequences. */
module Sequences {

  /** The sequence with one element moved to the end. */
  function MovedLast<T>(s: seq<T>, i: nat): (t: seq<T>)
    requires i < |s|
    ensures multiset(t) == multiset(s)
  {
    assert s == s[..i] + [s[i]] + s[i + 1..];
    s[..i] + s[i + 1..] + [s[i]]
  }
}
