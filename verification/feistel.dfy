/**
 The Feistel structure behind the sixteen rounds of `_process_block`: a round
 replaces the left half by its XOR with the round function of the right half,
 and the halves are swapped after every round but the last. Running the same
 rounds with the round keys in reverse order undoes them; that is why
 `decipher` only reverses the key lists.
 */
module Feistel {
  import opened Python
  import opened Bits
  import opened DesHelper

  /** The two halves of a block, left first. */
  type Halves = (string, string)

  /** A round function of the right half and a round key; it may raise. */
  type RoundFn = (string, string) -> Result<string>

  function Swap(h: Halves): Halves {
    (h.1, h.0)
  }

  /** Both halves are bit strings of width n. */
  predicate IsHalves(h: Halves, n: nat) {
    |h.0| == n && |h.1| == n && IsBits(h.0) && IsBits(h.1)
  }

  /** Whenever f succeeds it yields a bit string of width n. */
  ghost predicate KeepsWidth(f: RoundFn, n: nat) {
    forall x, k | f(x, k).Success? :: |f(x, k).value| == n && IsBits(f(x, k).value)
  }

  /** One round followed by the swap: (l, r) becomes (r, l xor f(r, k)). */
  function Round(f: RoundFn, h: Halves, k: string): Result<Halves> {
    var y :- f(h.1, k);
    Success((h.1, Xor(h.0, y)))
  }

  /** The rounds for `keys` in order, every one followed by the swap. */
  function Network(f: RoundFn, h: Halves, keys: seq<string>): Result<Halves>
    decreases |keys|
  {
    if |keys| == 0 then
      Success(h)
    else
      var next :- Round(f, h, keys[0]);
      Network(f, next, keys[1..])
  }

  /**
   The rounds as `_process_block` runs them: the swap is skipped after the
   last round.
   */
  function Ladder(f: RoundFn, h: Halves, keys: seq<string>): Result<Halves>
    decreases |keys|
  {
    if |keys| == 0 then
      Success(h)
    else
      var y :- f(h.1, keys[0]);
      var left := Xor(h.0, y);
      if |keys| == 1 then Success((left, h.1)) else Ladder(f, (h.1, left), keys[1..])
  }

  /** A round keeps halves of width n when f does. */
  lemma RoundKeepsWidth(f: RoundFn, h: Halves, k: string, n: nat)
    requires KeepsWidth(f, n) && IsHalves(h, n)
    ensures Round(f, h, k).Success? <==> f(h.1, k).Success?
    ensures Round(f, h, k).Success? ==> IsHalves(Round(f, h, k).value, n)
  {
  }

  /** A round is undone by the same round applied to its swapped output. */
  lemma RoundInverse(f: RoundFn, h: Halves, k: string, n: nat)
    requires KeepsWidth(f, n) && IsHalves(h, n) && Round(f, h, k).Success?
    ensures Round(f, Swap(Round(f, h, k).value), k) == Success(Swap(h))
  {
    var y := f(h.1, k).value;
    XorCancel(h.0, y);
  }

  lemma {:induction false} NetworkKeepsWidth(f: RoundFn, h: Halves, keys: seq<string>, n: nat)
    requires KeepsWidth(f, n) && IsHalves(h, n)
    ensures Network(f, h, keys).Success? ==> IsHalves(Network(f, h, keys).value, n)
    decreases |keys|
  {
    if |keys| > 0 {
      RoundKeepsWidth(f, h, keys[0], n);
      if Round(f, h, keys[0]).Success? {
        NetworkKeepsWidth(f, Round(f, h, keys[0]).value, keys[1..], n);
      }
    }
  }

  /** Appending a key appends a round. */
  lemma {:induction false} NetworkSnoc(f: RoundFn, h: Halves, keys: seq<string>, k: string)
    ensures Network(f, h, keys + [k]).Success? ==> Network(f, h, keys).Success?
    ensures Network(f, h, keys).Success? ==>
      Network(f, h, keys + [k]) == Round(f, Network(f, h, keys).value, k)
    decreases |keys|
  {
    if |keys| == 0 {
      assert [] + [k] == [k];
      assert [k][1..] == [];
    } else {
      assert (keys + [k])[0] == keys[0];
      assert (keys + [k])[1..] == keys[1..] + [k];
      if Round(f, h, keys[0]).Success? {
        NetworkSnoc(f, Round(f, h, keys[0]).value, keys[1..], k);
      }
    }
  }

  /**
   The rounds with the keys reversed, run on the swapped output, give back the
   swapped input.
   */
  lemma {:induction false} NetworkInverse(f: RoundFn, h: Halves, keys: seq<string>, n: nat)
    requires KeepsWidth(f, n) && IsHalves(h, n) && Network(f, h, keys).Success?
    ensures Network(f, Swap(Network(f, h, keys).value), Reversed(keys)) == Success(Swap(h))
    decreases |keys|
  {
    if |keys| > 0 {
      var a, k := keys[..|keys| - 1], keys[|keys| - 1];
      assert keys == a + [k];
      NetworkSnoc(f, h, a, k);
      var m := Network(f, h, a).value;
      NetworkKeepsWidth(f, h, a, n);
      RoundInverse(f, m, k, n);
      ReversedSnoc(a, k);
      var back := Swap(Network(f, h, keys).value);
      assert Network(f, back, [k] + Reversed(a)) == Network(f, Swap(m), Reversed(a)) by {
        assert ([k] + Reversed(a))[1..] == Reversed(a);
      }
      NetworkInverse(f, h, a, n);
    }
  }

  /** `_process_block`'s rounds are the swapping rounds with one swap undone at the end. */
  lemma {:induction false} LadderIsNetworkThenSwap(f: RoundFn, h: Halves, keys: seq<string>)
    requires 0 < |keys|
    ensures Ladder(f, h, keys).Success? <==> Network(f, h, keys).Success?
    ensures Ladder(f, h, keys).Success? ==> Ladder(f, h, keys).value == Swap(Network(f, h, keys).value)
    decreases |keys|
  {
    if |keys| > 1 && f(h.1, keys[0]).Success? {
      LadderIsNetworkThenSwap(f, Round(f, h, keys[0]).value, keys[1..]);
    }
  }

  /**
   Running the rounds with the keys reversed on the output of the rounds
   gives back the input.
   */
  lemma LadderInverse(f: RoundFn, h: Halves, keys: seq<string>, n: nat)
    requires KeepsWidth(f, n) && IsHalves(h, n) && Ladder(f, h, keys).Success?
    ensures Ladder(f, Ladder(f, h, keys).value, Reversed(keys)) == Success(h)
  {
    if |keys| > 0 {
      LadderIsNetworkThenSwap(f, h, keys);
      NetworkInverse(f, h, keys, n);
      LadderIsNetworkThenSwap(f, Ladder(f, h, keys).value, Reversed(keys));
    }
  }
}
