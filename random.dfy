/**
  Python's `random` module as used by the core: `random.shuffle` (and
  `random.sample(xs, len(xs))`, which is also a uniformly random
  permutation). The random source is a tape of draws supplied by the
  caller; only the bound of each draw is specified.
*/
module Random {

  /** Exchanges the elements at `i` and `j`. */
  function Swap<T>(s: seq<T>, i: nat, j: nat): (r: seq<T>)
    requires i < |s| && j < |s|
    ensures |r| == |s|
    ensures multiset(r) == multiset(s)
  {
    s[i := s[j]][j := s[i]]
  }

  class Rng {
    var tape: seq<nat>

    constructor (draws: seq<nat>)
      ensures tape == draws
    {
      tape := draws;
    }

    /** `randbelow(n)`: some value in `[0, n)`. */
    method Below(n: nat) returns (k: nat)
      requires n > 0
      modifies this
      ensures k < n
    {
      k := if tape == [] then 0 else tape[0] % n;
      if tape != [] { tape := tape[1..]; }
    }

    /** `random.shuffle`, Fisher-Yates from the last position down to 1. */
    method Shuffle<T>(xs: seq<T>) returns (ys: seq<T>)
      modifies this
      ensures |ys| == |xs|
      ensures multiset(ys) == multiset(xs)
    {
      ys := xs;
      var i := |ys|;
      while i > 1
        invariant 0 <= i <= |ys| == |xs|
        invariant multiset(ys) == multiset(xs)
      {
        i := i - 1;
        var j := Below(i + 1);
        ys := Swap(ys, i, j);
      }
    }
  }
}
