/**
 * `Array.shuffled()` with its randomness made a parameter: each draw picks,
 * among the elements not yet placed, the next one. Whatever the draws, the
 * result is a permutation of the input.
 */
module Shuffle {

  function Shuffled<T>(s: seq<T>, draws: seq<nat>): (r: seq<T>)
    ensures |r| == |s| && multiset(r) == multiset(s)
    decreases |s|
  {
    if |s| == 0 then []
    else
      var k := (if |draws| > 0 then draws[0] else 0) % |s|;
      var rest := s[..k] + s[k + 1..];
      assert s == s[..k] + [s[k]] + s[k + 1..];
      [s[k]] + Shuffled(rest, if |draws| > 0 then draws[1..] else [])
  }

  /** Every element of the input is somewhere in the shuffled sequence. */
  lemma ShuffledKeepsElements<T>(s: seq<T>, draws: seq<nat>, x: T)
    ensures x in Shuffled(s, draws) <==> x in s
  {
    assert x in multiset(Shuffled(s, draws)) <==> x in multiset(s);
  }
}
