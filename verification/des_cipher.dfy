/**
 The DesCipher class: the sixteen rounds of `_process_block`, `cipher` and
 `decipher`, and the constructor that draws a random key and derives its round
 keys. Each instance is a value holding the key and the two round-key lists;
 the tables are the constants of DesConst.
 */
module DesCipher {
  import opened Python
  import opened Bits
  import opened DesConst
  import opened DesHelper
  import opened Feistel

  /* ---------------------------------------------------------------------- */
  /* The round function                                                      */
  /* ---------------------------------------------------------------------- */

  /**
   One S-box of the round: six bits starting at `6 * box` of the XOR result;
   the outer two bits select the row, the middle four the column, and the
   entry is written back as four bits. A result shorter than the six bits
   raises IndexError.
   */
  function SBox(x: string, box: nat): (r: Result<string>)
    requires box < 8
    ensures r.Success? <==> 6 * box + 6 <= |x| && IsBits(x[6 * box .. 6 * box + 6])
    ensures r.Success? ==>
      |r.value| == 4 && IsBits(r.value)
      && Value(r.value) == SBoxAt(box, 2 * BitValue(x[6 * box]) + BitValue(x[6 * box + 5]),
                                  Value(x[6 * box + 1 .. 6 * box + 5]))
  {
    var i := 6 * box;
    var first :- Get(x, i);
    var last :- Get(x, i + 5);
    var middle := Slice(x, i + 1, i + 5);
    SBoxGroup(x, i);
    var row :- BinToDec([first, last]);
    var col :- BinToDec(middle);
    assert Pow2(2) == 4 && Pow2(4) == 16;
    SBoxShape(box, row, col);
    Success(DecToBin(SBoxTable()[box][row][col]))
  }

  /**
   A six-bit group splits into its outer bits, which select the row, and its
   four middle bits, which select the column.
   */
  lemma SBoxGroup(x: string, i: nat)
    requires i + 6 <= |x|
    ensures IsBits(x[i .. i + 6]) <==> IsBits([x[i], x[i + 5]]) && IsBits(x[i + 1 .. i + 5])
    ensures Slice(x, i + 1, i + 5) == x[i + 1 .. i + 5]
    ensures Value([x[i], x[i + 5]]) == 2 * BitValue(x[i]) + BitValue(x[i + 5])
  {
    var first, middle, last := x[i], x[i + 1 .. i + 5], x[i + 5];
    assert x[i .. i + 6] == [first] + middle + [last];
    IsBitsConcat([first] + middle, [last]);
    IsBitsConcat([first], middle);
    IsBitsConcat([first], [last]);
    assert [first] + [last] == [first, last];
    assert [first, last][..1] == [first];
    assert Value([first]) == BitValue(first) by {
      assert [first][..0] == [];
    }
  }

  /** The S-box stage from box `box` on: the boxes' four-bit outputs, concatenated. */
  function SBoxes(x: string, box: nat): (r: Result<string>)
    requires box <= 8
    ensures r.Success? <==> box == 8 || (48 <= |x| && IsBits(x[6 * box .. 48]))
    ensures r.Success? ==> |r.value| == 4 * (8 - box) && IsBits(r.value)
    decreases 8 - box
  {
    if box == 8 then
      Success("")
    else
      SBoxesSplit(x, box);
      var out :- SBox(x, box);
      var rest :- SBoxes(x, box + 1);
      IsBitsConcat(out, rest);
      Success(out + rest)
  }

  lemma SBoxesSplit(x: string, box: nat)
    requires box < 8
    ensures 48 <= |x| && IsBits(x[6 * box .. 48]) <==>
      6 * box + 6 <= |x| && IsBits(x[6 * box .. 6 * box + 6])
      && (box + 1 == 8 || (48 <= |x| && IsBits(x[6 * (box + 1) .. 48])))
  {
    if 48 <= |x| {
      assert x[6 * box .. 48] == x[6 * box .. 6 * box + 6] + x[6 * (box + 1) .. 48];
      IsBitsConcat(x[6 * box .. 6 * box + 6], x[6 * (box + 1) .. 48]);
    }
  }

  /** Nibble j of the S-box stage is the output of box `box + j`. */
  lemma {:induction false} SBoxesNibble(x: string, box: nat, j: nat)
    requires box + j < 8 && SBoxes(x, box).Success?
    ensures SBox(x, box + j).Success?
    ensures SBoxes(x, box).value[4 * j .. 4 * j + 4] == SBox(x, box + j).value
    decreases j
  {
    var out := SBox(x, box).value;
    var rest := SBoxes(x, box + 1).value;
    assert SBoxes(x, box).value == out + rest;
    if j == 0 {
      assert (out + rest)[..4] == out;
    } else {
      SBoxesNibble(x, box + 1, j - 1);
      NibbleAfterFirst(out, rest, j);
    }
  }

  lemma NibbleAfterFirst(out: string, rest: string, j: nat)
    requires |out| == 4 && 0 < j && 4 * j + 4 <= 4 + |rest|
    ensures (out + rest)[4 * j .. 4 * j + 4] == rest[4 * (j - 1) .. 4 * (j - 1) + 4]
  {
  }

  /**
   The round function of `_process_block`: expand the right half with the
   E table, XOR the round key, substitute through the S-boxes and apply the
   straight permutation P.
   */
  function RoundFunction(right: string, roundKey: string): (r: Result<string>)
    ensures r.Success? <==> 32 <= |right| && 48 <= |roundKey|
    ensures r.Success? ==> |r.value| == 32 && IsBits(r.value)
  {
    ExpansionReads32Bits(right);
    var expanded :- Permute(right, ExpansionDBoxTable());
    var xorResult := Xor(expanded, roundKey);
    var substituted :- SBoxes(xorResult, 0);
    StraightPermutationShape();
    PermuteInRange(substituted, StraightPermutationTable());
    Permute(substituted, StraightPermutationTable())
  }

  /** E reaches bit 32, so it succeeds exactly on halves of at least 32 bits. */
  lemma ExpansionReads32Bits(right: string)
    ensures Permute(right, ExpansionDBoxTable()).Success? <==> 32 <= |right|
    ensures 32 <= |right| ==> |Permute(right, ExpansionDBoxTable()).value| == 48
  {
    ExpansionShape();
    if 32 <= |right| {
      PermuteInRange(right, ExpansionDBoxTable());
    } else {
      assert !IndexOk(right, ExpansionDBoxTable()[0] - 1);
    }
  }

  /** The round function yields 32 bits whenever it succeeds. */
  lemma RoundFunctionKeepsWidth()
    ensures KeepsWidth(RoundFunction, 32)
  {
  }

  /* ---------------------------------------------------------------------- */
  /* The sixteen rounds                                                      */
  /* ---------------------------------------------------------------------- */

  /** Key lists `_process_block` can run with: sixteen binary keys of at least 48 bits, sixteen hex keys. */
  ghost predicate KeysUsable(keysBinary: seq<string>, keysHex: seq<string>) {
    16 <= |keysBinary| && 16 <= |keysHex| && forall i | 0 <= i < 16 :: 48 <= |keysBinary[i]|
  }

  /**
   The loop of `_process_block` from round `roundNum` on. Every round but the
   last swaps the halves; the progress line of each round converts both halves
   to hexadecimal and reads the round's hexadecimal key, and those can raise
   too.
   */
  function Rounds(left: string, right: string, keysBinary: seq<string>, keysHex: seq<string>, roundNum: nat)
    : (r: Result<Halves>)
    requires roundNum <= 16
    ensures IsHalves((left, right), 32) && KeysUsable(keysBinary, keysHex) ==>
      r.Success? && IsHalves(r.value, 32)
    decreases 16 - roundNum
  {
    if roundNum == 16 then
      Success((left, right))
    else
      var roundKey :- Get(keysBinary, roundNum);
      var y :- RoundFunction(right, roundKey);
      var newLeft := Xor(left, y);
      var h := if roundNum != 15 then (right, newLeft) else (newLeft, right);
      RoundKeepsHalves(left, right, y);
      var leftHex :- BinToHex(h.0);
      var rightHex :- BinToHex(h.1);
      var keyHex :- Get(keysHex, roundNum);
      Rounds(h.0, h.1, keysBinary, keysHex, roundNum + 1)
  }

  /** A round on 32-bit halves yields 32-bit halves, swapped or not, that convert to hexadecimal. */
  lemma RoundKeepsHalves(left: string, right: string, y: string)
    ensures IsHalves((left, right), 32) && |y| == 32 && IsBits(y) ==>
      var newLeft := Xor(left, y);
      IsHalves((right, newLeft), 32) && IsHalves((newLeft, right), 32)
      && BinToHex(newLeft).Success? && BinToHex(right).Success?
  {
  }

  /** The rounds are the Feistel ladder over the round keys still to come. */
  lemma {:induction false} RoundsIsLadder(left: string, right: string, keysBinary: seq<string>,
                                          keysHex: seq<string>, roundNum: nat)
    requires roundNum <= 16 && IsHalves((left, right), 32) && KeysUsable(keysBinary, keysHex)
    ensures Rounds(left, right, keysBinary, keysHex, roundNum)
         == Ladder(RoundFunction, (left, right), keysBinary[roundNum..16])
    decreases 16 - roundNum
  {
    if roundNum < 16 {
      var keys := keysBinary[roundNum..16];
      assert keys[0] == keysBinary[roundNum];
      assert keys[1..] == keysBinary[roundNum + 1..16];
      var y := RoundFunction(right, keysBinary[roundNum]).value;
      var newLeft := Xor(left, y);
      RoundKeepsHalves(left, right, y);
      if roundNum != 15 {
        assert Rounds(left, right, keysBinary, keysHex, roundNum)
            == Rounds(right, newLeft, keysBinary, keysHex, roundNum + 1);
        RoundsIsLadder(right, newLeft, keysBinary, keysHex, roundNum + 1);
      }
    }
  }

  /**
   `_process_block`: split the block into 32-bit halves, run the sixteen
   rounds, join the halves, apply the final permutation and return the result
   in hexadecimal.
   */
  function ProcessBlock(block: string, keysBinary: seq<string>, keysHex: seq<string>): (r: Result<string>)
    ensures |block| == 64 && IsBits(block) && KeysUsable(keysBinary, keysHex) ==>
      r.Success? && |r.value| == 16 && IsHex(r.value)
  {
    var left, right := Slice(block, 0, 32), Slice(block, 32, 64);
    BlockHalves(block);
    var halves :- Rounds(left, right, keysBinary, keysHex, 0);
    var combined := halves.0 + halves.1;
    FinalPermutationReads64Bits(combined);
    JoinedToHex(halves);
    var ciphertext :- Permute(combined, FinalPermutationTable());
    BinToHex(ciphertext)
  }

  /** IP^-1 of two joined 32-bit halves is a block of sixteen hexadecimal digits. */
  lemma JoinedToHex(h: Halves)
    ensures IsHalves(h, 32) ==>
      var p := Permute(h.0 + h.1, FinalPermutationTable());
      p.Success? && BinToHex(p.value).Success? && |BinToHex(p.value).value| == 16 && IsHex(BinToHex(p.value).value)
  {
    if IsHalves(h, 32) {
      IsBitsConcat(h.0, h.1);
      FinalPermutationReads64Bits(h.0 + h.1);
      BlockToHex(Permute(h.0 + h.1, FinalPermutationTable()).value);
    }
  }

  /** A 64-bit block is sixteen hexadecimal digits. */
  lemma BlockToHex(block: string)
    requires |block| == 64 && IsBits(block)
    ensures BinToHex(block).Success? && |BinToHex(block).value| == 16 && IsHex(BinToHex(block).value)
  {
  }

  lemma BlockHalves(block: string)
    ensures |block| == 64 ==> Slice(block, 0, 32) == block[..32] && Slice(block, 32, 64) == block[32..]
    ensures |block| == 64 && IsBits(block) ==> IsHalves((block[..32], block[32..]), 32)
  {
    if |block| == 64 && IsBits(block) {
      assert Slice(block, 0, 32) == block[..32];
      assert Slice(block, 32, 64) == block[32..];
      IsBitsConcat(block[..32], block[32..]);
      assert block == block[..32] + block[32..];
    }
  }

  /** IP^-1 reaches bit 64 as well. */
  lemma FinalPermutationReads64Bits(bits: string)
    ensures Permute(bits, FinalPermutationTable()).Success? <==> 64 <= |bits|
    ensures 64 <= |bits| ==>
      var permuted := Permute(bits, FinalPermutationTable()).value;
      |permuted| == 64 && (IsBits(bits) ==> IsBits(permuted))
  {
    FinalPermutationShape();
    if 64 <= |bits| {
      PermuteInRange(bits, FinalPermutationTable());
    } else {
      assert !IndexOk(bits, FinalPermutationTable()[6] - 1);
    }
  }

  /**
   The steps `cipher` and `decipher` share, with the key lists they pass:
   the text is converted to bits, permuted by IP (the progress line converts
   the result back to hexadecimal) and processed.
   */
  function CipherWithKeys(textHex: string, keysBinary: seq<string>, keysHex: seq<string>): (r: Result<string>)
    ensures KeysUsable(keysBinary, keysHex) ==> (r.Success? <==> IsHex(textHex) && 16 <= |textHex|)
    ensures KeysUsable(keysBinary, keysHex) && r.Success? ==> |r.value| == 16 && IsHex(r.value)
  {
    var textBinary :- HexToBin(textHex);
    InitialPermutationReads64Bits(textBinary);
    var permuted :- Permute(textBinary, InitialPermutationTable());
    // the progress line converts `permuted` back to hexadecimal, which cannot raise
    assert BinToHex(permuted).Success?;
    ProcessBlock(permuted, keysBinary, keysHex)
  }

  /** IP reaches bit 64, so it succeeds exactly on inputs of at least 64 bits. */
  lemma InitialPermutationReads64Bits(bits: string)
    ensures Permute(bits, InitialPermutationTable()).Success? <==> 64 <= |bits|
    ensures 64 <= |bits| ==>
      var permuted := Permute(bits, InitialPermutationTable()).value;
      |permuted| == 64 && (IsBits(bits) ==> IsBits(permuted))
  {
    InitialPermutationShape();
    if 64 <= |bits| {
      PermuteInRange(bits, InitialPermutationTable());
    } else {
      assert !IndexOk(bits, InitialPermutationTable()[24] - 1);
    }
  }

  /* ---------------------------------------------------------------------- */
  /* The enciphering computation of FIPS 46-3                                */
  /* ---------------------------------------------------------------------- */

  /** Every round key has at least the 48 bits the XOR with E(R) uses. */
  predicate KeysWide(keys: seq<string>) {
    forall i | 0 <= i < |keys| :: 48 <= |keys[i]|
  }

  /**
   The enciphering computation as section "Enciphering" of FIPS 46-3
   describes it: IP, then sixteen iterations L' = R and R' = L xor f(R, K)
   that always exchange the halves, then IP^-1 applied to the preoutput R L.
   Deciphering is the same computation with the keys in reverse order.
   */
  ghost function StandardEncipher(input: string, keys: seq<string>): (r: Result<string>)
    requires |input| == 64
    ensures IsBits(input) && KeysWide(keys) ==> r.Success? && |r.value| == 64 && IsBits(r.value)
  {
    InitialPermutationReads64Bits(input);
    var permuted := Permute(input, InitialPermutationTable()).value;
    BlockHalves(permuted);
    NetworkSucceeds((permuted[..32], permuted[32..]), keys);
    var out :- Network(RoundFunction, (permuted[..32], permuted[32..]), keys);
    PreoutputPermutes(out);
    Permute(out.1 + out.0, FinalPermutationTable())
  }

  /** IP^-1 of the preoutput R L of 32-bit halves is a 64-bit block. */
  lemma PreoutputPermutes(h: Halves)
    ensures IsHalves(h, 32) ==>
      var r := Permute(h.1 + h.0, FinalPermutationTable());
      r.Success? && |r.value| == 64 && IsBits(r.value)
  {
    if IsHalves(h, 32) {
      IsBitsConcat(h.1, h.0);
      FinalPermutationReads64Bits(h.1 + h.0);
    }
  }

  /** With 32-bit halves and wide keys every round of the network succeeds. */
  lemma {:induction false} NetworkSucceeds(h: Halves, keys: seq<string>)
    ensures IsHalves(h, 32) && KeysWide(keys) ==>
      Network(RoundFunction, h, keys).Success? && IsHalves(Network(RoundFunction, h, keys).value, 32)
    decreases |keys|
  {
    if IsHalves(h, 32) && KeysWide(keys) && |keys| > 0 {
      RoundFunctionKeepsWidth();
      RoundKeepsWidth(RoundFunction, h, keys[0], 32);
      NetworkSucceeds(Round(RoundFunction, h, keys[0]).value, keys[1..]);
    }
  }

  /** Deciphering with the reversed keys undoes enciphering. */
  lemma StandardInverse(input: string, keys: seq<string>)
    requires |input| == 64 && IsBits(input) && KeysWide(keys)
    ensures StandardEncipher(input, keys).Success? && |StandardEncipher(input, keys).value| == 64
    ensures StandardEncipher(StandardEncipher(input, keys).value, Reversed(keys)) == Success(input)
  {
    InitialPermutationReads64Bits(input);
    StandardRoundsUndone(input, keys);
    FinalUndoesInitial(input);
  }

  /** The second pass, with the keys reversed, ends on the block the first pass started from after IP. */
  lemma StandardRoundsUndone(input: string, keys: seq<string>)
    requires |input| == 64 && IsBits(input) && KeysWide(keys)
    ensures StandardEncipher(input, keys).Success? && |StandardEncipher(input, keys).value| == 64
    ensures Permute(input, InitialPermutationTable()).Success?
    ensures StandardEncipher(StandardEncipher(input, keys).value, Reversed(keys))
         == Permute(Permute(input, InitialPermutationTable()).value, FinalPermutationTable())
  {
    StandardEncipherSteps(input, keys);
    var permuted := Permute(input, InitialPermutationTable()).value;
    var h := (permuted[..32], permuted[32..]);
    var out := Network(RoundFunction, h, keys).value;
    SecondPassStart(out);
    ReversedKeysWide(keys);
    StandardEncipherSteps(StandardEncipher(input, keys).value, Reversed(keys));
    DesNetworkInverse(h, keys);
    assert h.0 + h.1 == permuted;
  }

  /** The sixteen DES rounds, run on the exchanged output with the keys reversed, give the exchanged input. */
  lemma DesNetworkInverse(h: Halves, keys: seq<string>)
    requires IsHalves(h, 32) && KeysWide(keys)
    ensures Network(RoundFunction, h, keys).Success?
    ensures Network(RoundFunction, Swap(Network(RoundFunction, h, keys).value), Reversed(keys)) == Success(Swap(h))
  {
    NetworkSucceeds(h, keys);
    RoundFunctionKeepsWidth();
    NetworkInverse(RoundFunction, h, keys, 32);
  }

  /** The steps of the FIPS 46-3 computation on one 64-bit block, each of which succeeds. */
  lemma StandardEncipherSteps(input: string, keys: seq<string>)
    requires |input| == 64 && IsBits(input) && KeysWide(keys)
    ensures Permute(input, InitialPermutationTable()).Success?
    ensures var permuted := Permute(input, InitialPermutationTable()).value;
      var h := (permuted[..32], permuted[32..]);
      && |permuted| == 64 && IsHalves(h, 32)
      && Network(RoundFunction, h, keys).Success?
      && IsHalves(Network(RoundFunction, h, keys).value, 32)
      && var out := Network(RoundFunction, h, keys).value;
         StandardEncipher(input, keys) == Permute(out.1 + out.0, FinalPermutationTable())
  {
    InitialPermutationReads64Bits(input);
    var permuted := Permute(input, InitialPermutationTable()).value;
    BlockHalves(permuted);
    NetworkSucceeds((permuted[..32], permuted[32..]), keys);
  }

  /** IP of the output IP^-1 makes from the preoutput R L splits into the halves R and L. */
  lemma SecondPassStart(out: Halves)
    requires IsHalves(out, 32)
    ensures Permute(out.1 + out.0, FinalPermutationTable()).Success?
    ensures var p := Permute(Permute(out.1 + out.0, FinalPermutationTable()).value, InitialPermutationTable());
      p.Success? && (p.value[..32], p.value[32..]) == Swap(out)
  {
    InitialUndoesFinal(out.1 + out.0);
    var p := Permute(Permute(out.1 + out.0, FinalPermutationTable()).value, InitialPermutationTable()).value;
    assert p == out.1 + out.0;
    assert p[..32] == out.1 && p[32..] == out.0;
  }

  /** Reversing the round keys keeps them wide. */
  lemma ReversedKeysWide(keys: seq<string>)
    requires KeysWide(keys)
    ensures KeysWide(Reversed(keys))
  {
  }

  /** IP applied to the output of IP^-1 gives its input back. */
  lemma InitialUndoesFinal(block: string)
    requires |block| == 64
    ensures Permute(block, FinalPermutationTable()).Success?
    ensures Permute(Permute(block, FinalPermutationTable()).value, InitialPermutationTable()) == Success(block)
  {
    PermutationsInverse();
    InitialPermutationShape();
    FinalPermutationShape();
    PermuteUndone(block, FinalPermutationTable(), InitialPermutationTable());
  }

  /** IP^-1 applied to the output of IP gives its input back. */
  lemma FinalUndoesInitial(block: string)
    requires |block| == 64
    ensures Permute(block, InitialPermutationTable()).Success?
    ensures Permute(Permute(block, InitialPermutationTable()).value, FinalPermutationTable()) == Success(block)
  {
    PermutationsInverse();
    InitialPermutationShape();
    FinalPermutationShape();
    PermuteUndone(block, InitialPermutationTable(), FinalPermutationTable());
  }

  /* ---------------------------------------------------------------------- */
  /* The cipher object                                                       */
  /* ---------------------------------------------------------------------- */

  /** A DesCipher instance: its key and the round keys derived from it. */
  datatype DesCipher = DesCipher(key: string, roundKeysBinary: seq<string>, roundKeysHex: seq<string>)

  /**
   `DesCipher()`: the key is the sixteen hexadecimal digits of the seed in
   the order random.shuffle leaves them (its draws are `picks`), and the
   round keys are generate_keys of that key.
   */
  function NewDesCipher(picks: seq<int>): (d: DesCipher)
    requires ShufflePicks(picks, 16)
    ensures |d.key| == 16 && IsHex(d.key)
    ensures multiset(d.key) == multiset(GenerateSeed())
    ensures forall c :: IsHexDigit(c) <==> c in d.key
    ensures RoundKeysFrom((d.roundKeysBinary, d.roundKeysHex), 0)
    ensures GenerateKeys(d.key) == Success((d.roundKeysBinary, d.roundKeysHex))
  {
    var seed := GenerateSeed();
    var key := GenerateRandomKey(seed, picks);
    assert forall c :: c in key <==> c in multiset(seed);
    var keys := GenerateKeys(key);
    assert keys.Success?;
    DesCipher(key, keys.value.0, keys.value.1)
  }

  /** Every instance deciphers what it enciphers, whatever order the shuffle chose. */
  lemma NewDesCipherRoundTrip(picks: seq<int>, plaintextHex: string)
    requires ShufflePicks(picks, 16)
    requires IsHex(plaintextHex) && 16 <= |plaintextHex|
    ensures Cipher(NewDesCipher(picks), plaintextHex).Success?
    ensures Decipher(NewDesCipher(picks), Cipher(NewDesCipher(picks), plaintextHex).value) == Success(plaintextHex[..16])
  {
    DecipherInvertsCipher(NewDesCipher(picks), plaintextHex);
  }

  /** `cipher`: encrypt a hexadecimal block with the instance's round keys. */
  function Cipher(des: DesCipher, plaintextHex: string): (r: Result<string>)
    ensures RoundKeysFrom((des.roundKeysBinary, des.roundKeysHex), 0) ==>
      (r.Success? <==> IsHex(plaintextHex) && 16 <= |plaintextHex|)
  {
    UsableRoundKeys(des);
    CipherWithKeys(plaintextHex, des.roundKeysBinary, des.roundKeysHex)
  }

  /** `decipher`: the same steps with both key lists reversed. */
  function Decipher(des: DesCipher, ciphertextHex: string): (r: Result<string>)
    ensures RoundKeysFrom((des.roundKeysBinary, des.roundKeysHex), 0) ==>
      (r.Success? <==> IsHex(ciphertextHex) && 16 <= |ciphertextHex|)
  {
    UsableRoundKeys(des);
    CipherWithKeys(ciphertextHex, Reversed(des.roundKeysBinary), Reversed(des.roundKeysHex))
  }

  /**
   `_process_block` applied to IP of a block is FIPS 46-3 enciphering of that
   block: skipping the swap after the last round yields the preoutput R L
   directly.
   */
  lemma ProcessBlockIsStandard(input: string, keysBinary: seq<string>, keysHex: seq<string>)
    requires |input| == 64 && IsBits(input) && KeysUsable(keysBinary, keysHex)
    ensures Permute(input, InitialPermutationTable()).Success?
    ensures StandardEncipher(input, keysBinary[..16]).Success?
    ensures ProcessBlock(Permute(input, InitialPermutationTable()).value, keysBinary, keysHex)
         == BinToHex(StandardEncipher(input, keysBinary[..16]).value)
  {
    var keys := keysBinary[..16];
    assert KeysWide(keys);
    InitialPermutationReads64Bits(input);
    var permuted := Permute(input, InitialPermutationTable()).value;
    var h := (permuted[..32], permuted[32..]);
    BlockHalves(permuted);
    assert IsHalves(h, 32);
    RoundsIsLadder(h.0, h.1, keysBinary, keysHex, 0);
    assert keysBinary[0..16] == keys;
    LadderIsNetworkThenSwap(RoundFunction, h, keys);
    NetworkSucceeds(h, keys);
    var out := Network(RoundFunction, h, keys).value;
    assert Rounds(h.0, h.1, keysBinary, keysHex, 0) == Success(Swap(out));
    PreoutputPermutes(out);
  }

  /**
   The steps of `cipher` are FIPS 46-3 enciphering of the first 16 digits'
   bits with the first sixteen binary round keys, written in hexadecimal.
   */
  lemma CipherWithKeysIsStandard(textHex: string, keysBinary: seq<string>, keysHex: seq<string>)
    requires KeysUsable(keysBinary, keysHex) && IsHex(textHex) && 16 <= |textHex|
    ensures HexToBin(textHex[..16]).Success? && |HexToBin(textHex[..16]).value| == 64
    ensures IsBits(HexToBin(textHex[..16]).value)
    ensures StandardEncipher(HexToBin(textHex[..16]).value, keysBinary[..16]).Success?
    ensures CipherWithKeys(textHex, keysBinary, keysHex)
         == BinToHex(StandardEncipher(HexToBin(textHex[..16]).value, keysBinary[..16]).value)
  {
    var textBinary := HexToBin(textHex).value;
    assert IsHex(textHex[..16]);
    HexToBinPrefix(textHex, 16);
    var bits := HexToBin(textHex[..16]).value;
    assert bits == textBinary[..64];
    InitialPermutationShape();
    PermuteReadsPrefix(textBinary, InitialPermutationTable(), 64);
    ProcessBlockIsStandard(bits, keysBinary, keysHex);
  }

  /**
   Running the steps of `cipher` with both key lists reversed on its output
   gives back the first 16 digits of the text.
   */
  lemma CipherWithKeysInverse(textHex: string, keysBinary: seq<string>, keysHex: seq<string>)
    requires |keysBinary| == 16 && |keysHex| == 16 && KeysWide(keysBinary)
    requires IsHex(textHex) && 16 <= |textHex|
    ensures CipherWithKeys(textHex, keysBinary, keysHex).Success?
    ensures CipherWithKeys(CipherWithKeys(textHex, keysBinary, keysHex).value, Reversed(keysBinary), Reversed(keysHex))
         == Success(textHex[..16])
  {
    assert IsHex(textHex[..16]);
    var bits := HexToBin(textHex[..16]).value;
    assert keysBinary[..16] == keysBinary;
    assert |bits| == 64 && IsBits(bits) && StandardEncipher(bits, keysBinary).Success?
      && CipherWithKeys(textHex, keysBinary, keysHex) == BinToHex(StandardEncipher(bits, keysBinary).value) by {
      CipherWithKeysIsStandard(textHex, keysBinary, keysHex);
    }
    assert CipherWithKeys(BinToHex(StandardEncipher(bits, keysBinary).value).value, Reversed(keysBinary), Reversed(keysHex))
        == BinToHex(bits) by {
      DecipherBlock(bits, keysBinary, keysHex);
    }
    assert BinToHex(bits) == Success(textHex[..16]) by {
      BinToHexOfHexToBin(textHex[..16]);
    }
  }

  /**
   The steps of `cipher` with reversed keys, run on the hexadecimal form of an
   enciphered block, give back the block in hexadecimal.
   */
  lemma DecipherBlock(bits: string, keysBinary: seq<string>, keysHex: seq<string>)
    requires |bits| == 64 && IsBits(bits)
    requires |keysBinary| == 16 && |keysHex| == 16 && KeysWide(keysBinary)
    ensures StandardEncipher(bits, keysBinary).Success? && BinToHex(StandardEncipher(bits, keysBinary).value).Success?
    ensures CipherWithKeys(BinToHex(StandardEncipher(bits, keysBinary).value).value, Reversed(keysBinary), Reversed(keysHex))
         == BinToHex(bits)
  {
    StandardInverse(bits, keysBinary);
    var encrypted := StandardEncipher(bits, keysBinary).value;
    ReversedKeysUsable(keysBinary, keysHex);
    CipherWithKeysOfBlock(encrypted, Reversed(keysBinary), Reversed(keysHex));
  }

  lemma ReversedKeysUsable(keysBinary: seq<string>, keysHex: seq<string>)
    requires |keysBinary| == 16 && |keysHex| == 16 && KeysWide(keysBinary)
    ensures KeysUsable(Reversed(keysBinary), Reversed(keysHex))
    ensures Reversed(keysBinary)[..16] == Reversed(keysBinary)
  {
  }

  /** The steps of `cipher` on the hexadecimal form of a 64-bit block encipher that block. */
  lemma CipherWithKeysOfBlock(block: string, keysBinary: seq<string>, keysHex: seq<string>)
    requires |block| == 64 && IsBits(block) && KeysUsable(keysBinary, keysHex)
    ensures BinToHex(block).Success? && StandardEncipher(block, keysBinary[..16]).Success?
    ensures CipherWithKeys(BinToHex(block).value, keysBinary, keysHex)
         == BinToHex(StandardEncipher(block, keysBinary[..16]).value)
  {
    var textHex := BinToHex(block).value;
    HexToBinOfBinToHex(block);
    assert textHex[..16] == textHex;
    CipherWithKeysIsStandard(textHex, keysBinary, keysHex);
  }

  /** The round keys generate_keys returns can be used in either order. */
  lemma UsableRoundKeys(des: DesCipher)
    ensures RoundKeysFrom((des.roundKeysBinary, des.roundKeysHex), 0) ==>
      KeysUsable(des.roundKeysBinary, des.roundKeysHex)
      && KeysUsable(Reversed(des.roundKeysBinary), Reversed(des.roundKeysHex))
  {
  }

  /** `decipher` undoes `cipher`: the round trip returns the first 16 digits of the plaintext. */
  lemma DecipherInvertsCipher(des: DesCipher, plaintextHex: string)
    requires RoundKeysFrom((des.roundKeysBinary, des.roundKeysHex), 0)
    requires IsHex(plaintextHex) && 16 <= |plaintextHex|
    ensures Cipher(des, plaintextHex).Success?
    ensures Decipher(des, Cipher(des, plaintextHex).value) == Success(plaintextHex[..16])
  {
    CipherWithKeysInverse(plaintextHex, des.roundKeysBinary, des.roundKeysHex);
  }

  /** `cipher` undoes `decipher` as well. */
  lemma CipherInvertsDecipher(des: DesCipher, ciphertextHex: string)
    requires RoundKeysFrom((des.roundKeysBinary, des.roundKeysHex), 0)
    requires IsHex(ciphertextHex) && 16 <= |ciphertextHex|
    ensures Decipher(des, ciphertextHex).Success?
    ensures Cipher(des, Decipher(des, ciphertextHex).value) == Success(ciphertextHex[..16])
  {
    ReversedReversed(des.roundKeysBinary);
    ReversedReversed(des.roundKeysHex);
    CipherWithKeysInverse(ciphertextHex, Reversed(des.roundKeysBinary), Reversed(des.roundKeysHex));
  }

  /** Digits past the sixteenth do not affect `cipher`: only the first 64 bits reach IP. */
  lemma CipherReadsFirst16Digits(des: DesCipher, plaintextHex: string)
    requires RoundKeysFrom((des.roundKeysBinary, des.roundKeysHex), 0)
    requires IsHex(plaintextHex) && 16 <= |plaintextHex|
    ensures Cipher(des, plaintextHex) == Cipher(des, plaintextHex[..16])
  {
    assert KeysUsable(des.roundKeysBinary, des.roundKeysHex) by {
      UsableRoundKeys(des);
    }
    CipherWithKeysReadsFirst16Digits(plaintextHex, des.roundKeysBinary, des.roundKeysHex);
  }

  lemma CipherWithKeysReadsFirst16Digits(textHex: string, keysBinary: seq<string>, keysHex: seq<string>)
    requires KeysUsable(keysBinary, keysHex) && IsHex(textHex) && 16 <= |textHex|
    ensures CipherWithKeys(textHex, keysBinary, keysHex) == CipherWithKeys(textHex[..16], keysBinary, keysHex)
  {
    var textBinary := HexToBin(textHex).value;
    assert IsHex(textHex[..16]);
    HexToBinPrefix(textHex, 16);
    InitialPermutationShape();
    PermuteReadsPrefix(textBinary, InitialPermutationTable(), 64);
  }
}
