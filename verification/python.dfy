/**
 The parts of Python's runtime behaviour that the DES helpers and the n-gram
 utilities rely on: the exceptions they can raise, indexing with negative
 positions, slices that clamp to the sequence, and the `[::-1]` reversal.
 */
module Python {

  /** The exceptions the modelled code can raise. */
  datatype Error =
    | KeyError           // a dictionary lookup of a missing key
    | IndexError         // a sequence index outside -len..len-1
    | ValueError         // int() of a string that is not a number in the base
    | ZeroDivisionError  // `x % 0`
    | UnboundLocalError  // reading a local variable no branch assigned

  /** The outcome of a Python call: a value, or the exception it raises. */
  datatype Result<+T> = Success(value: T) | Failure(error: Error) {
    predicate IsFailure() {
      Failure?
    }

    function PropagateFailure<U>(): Result<U>
      requires Failure?
    {
      Failure(error)
    }

    function Extract(): T
      requires Success?
    {
      value
    }
  }

  /** `s[j]` does not raise: negative positions count from the end. */
  predicate IndexOk<T>(s: seq<T>, j: int) {
    -|s| <= j < |s|
  }

  /** `s[j]` for a position that does not raise. */
  function At<T>(s: seq<T>, j: int): T
    requires IndexOk(s, j)
  {
    if j < 0 then s[|s| + j] else s[j]
  }

  /** `s[j]`, raising IndexError outside -len..len-1. */
  function Get<T>(s: seq<T>, j: int): (r: Result<T>)
    ensures r.Success? <==> IndexOk(s, j)
    ensures r.Success? ==> r.value == At(s, j)
  {
    if IndexOk(s, j) then Success(At(s, j)) else Failure(IndexError)
  }

  /** `s[i:j]` for non-negative bounds: both ends are clamped to `len(s)`. */
  function Slice<T>(s: seq<T>, i: nat, j: nat): seq<T> {
    var lo := if i < |s| then i else |s|;
    var hi := if j < |s| then j else |s|;
    if lo <= hi then s[lo..hi] else []
  }

  /** `s[::-1]`. */
  function Reversed<T>(s: seq<T>): (r: seq<T>)
    ensures |r| == |s|
    ensures forall i | 0 <= i < |s| :: r[i] == s[|s| - 1 - i]
  {
    if |s| == 0 then [] else [s[|s| - 1]] + Reversed(s[..|s| - 1])
  }

  /** Reversing puts the last element first. */
  lemma ReversedSnoc<T>(s: seq<T>, x: T)
    ensures Reversed(s + [x]) == [x] + Reversed(s)
  {
    assert (s + [x])[..|s|] == s;
  }

  /** Reversal is an involution. */
  lemma ReversedReversed<T>(s: seq<T>)
    ensures Reversed(Reversed(s)) == s
  {
  }

  /**
   The draws random.shuffle makes for a list of length n: for each position
   i from n - 1 down to 1, `picks[i]` is the index below i + 1 that
   `_randbelow(i + 1)` returned. `picks[0]` is not used.
   */
  predicate ShufflePicks(picks: seq<int>, n: nat) {
    |picks| == n && forall i | 1 <= i < n :: 0 <= picks[i] <= i
  }

  /**
   random.shuffle (Fisher-Yates): for i from len(x) - 1 down to 1, exchange
   `x[i]` with `x[picks[i]]`. The draws are a parameter; the shuffled list is
   a rearrangement of the original.
   */
  function Shuffle<T>(x: seq<T>, picks: seq<int>): (r: seq<T>)
    requires ShufflePicks(picks, |x|)
    ensures |r| == |x| && multiset(r) == multiset(x)
  {
    if |x| == 0 then x else ShuffleDown(x, picks, |x| - 1)
  }

  /** The exchanges for positions i, i - 1, ..., 1. */
  function ShuffleDown<T>(x: seq<T>, picks: seq<int>, i: nat): (r: seq<T>)
    requires i < |x| && ShufflePicks(picks, |x|)
    ensures |r| == |x| && multiset(r) == multiset(x)
    decreases i
  {
    if i == 0 then
      x
    else
      var j := picks[i];
      var exchanged := x[i := x[j]][j := x[i]];
      ExchangeKeepsMultiset(x, i, j);
      ShuffleDown(exchanged, picks, i - 1)
  }

  /** Exchanging two elements keeps the multiset of elements. */
  lemma ExchangeKeepsMultiset<T>(x: seq<T>, i: nat, j: nat)
    requires i < |x| && j < |x|
    ensures multiset(x[i := x[j]][j := x[i]]) == multiset(x)
  {
    if i != j {
      var y := x[i := x[j]];
      assert multiset(y) == multiset(x) - multiset{x[i]} + multiset{x[j]};
      assert y[j] == x[j];
      assert multiset(y[j := x[i]]) == multiset(y) - multiset{x[j]} + multiset{x[i]};
    }
  }
}
