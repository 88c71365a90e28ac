/**
 The DES helper operations: hexadecimal and binary codecs, the 4-bit decimal
 conversions, table-driven permutation, circular left shift, character-wise
 XOR, and the key schedule that derives the 16 round keys from a master key.
 Bit strings are Python strings over '0' and '1'; every exception the Python
 code can raise is a `Failure`.
 */
module DesHelper {

  import opened Python
  import opened Bits
  import opened DesConst

  /* ---------------------------------------------------------------------- */
  /* Hexadecimal codec                                                       */
  /* ---------------------------------------------------------------------- */

  /** All characters of `hex` are keys of the hexadecimal mapping. */
  predicate IsHex(hex: string) {
    forall i | 0 <= i < |hex| :: IsHexDigit(hex[i])
  }

  /**
   hex_to_bin: each character is replaced by its 4-bit string; a character
   outside the mapping raises KeyError.
   */
  function HexToBin(hexString: string): (r: Result<string>)
    ensures r.Success? <==> IsHex(hexString)
    ensures r.Failure? ==> r.error == KeyError
    ensures r.Success? ==> |r.value| == 4 * |hexString| && IsBits(r.value)
    ensures r.Success? ==>
      forall i | 0 <= i < |hexString| :: r.value[4 * i .. 4 * i + 4] == HexToBinMapping[hexString[i]]
    decreases |hexString|
  {
    if |hexString| == 0 then
      Success("")
    else if hexString[0] !in HexToBinMapping then
      Failure(KeyError)
    else
      var rest :- HexToBin(hexString[1..]);
      var head := HexToBinMapping[hexString[0]];
      assert |head| == 4 && IsBits(head) by {
        HexToBinMappingValues();
      }
      IsBitsConcat(head, rest);
      GroupsOfCons(head, rest, |hexString| - 1);
      Success(head + rest)
  }

  /** The 4-character groups of `head + rest` are `head` followed by the groups of `rest`. */
  lemma GroupsOfCons(head: string, rest: string, n: nat)
    requires |head| == 4 && |rest| == 4 * n
    ensures (head + rest)[0 .. 4] == head
    ensures forall i | 1 <= i <= n :: (head + rest)[4 * i .. 4 * i + 4] == rest[4 * (i - 1) .. 4 * (i - 1) + 4]
  {
  }

  /**
   bin_to_hex: consecutive groups `s[i:i+4]` are looked up in the inverse
   mapping; a short last group or a character other than '0'/'1' raises
   KeyError.
   */
  function BinToHex(binaryString: string): (r: Result<string>)
    ensures r.Success? <==> |binaryString| % 4 == 0 && IsBits(binaryString)
    ensures r.Failure? ==> r.error == KeyError
    ensures r.Success? ==> 4 * |r.value| == |binaryString| && IsHex(r.value)
    decreases |binaryString|
  {
    if |binaryString| == 0 then
      Success("")
    else if |binaryString| < 4 then
      // the last slice is shorter than four characters: not a key
      Failure(KeyError)
    else
      var group := binaryString[..4];
      BinToHexMappingKeys(group);
      assert binaryString == group + binaryString[4..];
      if group !in BinToHexMapping then
        Failure(KeyError)
      else
        var rest :- BinToHex(binaryString[4..]);
        var digit := BinToHexMapping[group];
        BinToHexMappingDigits();
        assert IsHexDigit(digit);
        Success([digit] + rest)
  }

  /** The keys of the inverse mapping are exactly the 4-bit strings. */
  lemma BinToHexMappingKeys(group: string)
    ensures group in BinToHexMapping <==> |group| == 4 && IsBits(group)
  {
    if |group| == 4 && IsBits(group) {
      BinToHexMappingTotal(group);
    }
    BinToHexMappingBits();
  }

  /** bin_to_hex(hex_to_bin(h)) == h for every string over the mapping's domain. */
  lemma {:induction false} BinToHexOfHexToBin(hex: string)
    requires IsHex(hex)
    ensures HexToBin(hex).Success? && BinToHex(HexToBin(hex).value) == Success(hex)
    decreases |hex|
  {
    if |hex| > 0 {
      BinToHexOfHexToBin(hex[1..]);
      BinToHexOfHexToBinStep(hex);
    }
  }

  /** One step of the round trip: the first four bits map back to the first digit. */
  lemma BinToHexOfHexToBinStep(hex: string)
    requires IsHex(hex) && 0 < |hex|
    requires HexToBin(hex[1..]).Success? && BinToHex(HexToBin(hex[1..]).value) == Success(hex[1..])
    ensures HexToBin(hex).Success? && BinToHex(HexToBin(hex).value) == Success(hex)
  {
    HexToBinHead(hex);
    DigitThenBack(hex[0]);
    BinToHexCons(HexToBinMapping[hex[0]], HexToBin(hex[1..]).value);
    assert hex == [hex[0]] + hex[1..];
  }

  /** A 4-bit group's digit maps back to the group. */
  lemma GroupThenBack(b: string)
    requires b in BinToHexMapping
    ensures BinToHexMapping[b] in HexToBinMapping && HexToBinMapping[BinToHexMapping[b]] == b
  {
    BinToHexThenBack();
  }

  /** A digit's four bits map back to the digit. */
  lemma DigitThenBack(c: char)
    requires c in HexToBinMapping
    ensures HexToBinMapping[c] in BinToHexMapping && BinToHexMapping[HexToBinMapping[c]] == c
  {
    HexToBinThenBack();
  }

  /** bin_to_hex of a 4-bit group followed by more bits is the group's digit followed by the rest's digits. */
  lemma BinToHexCons(group: string, rest: string)
    requires group in BinToHexMapping && BinToHex(rest).Success?
    ensures BinToHex(group + rest) == Success([BinToHexMapping[group]] + BinToHex(rest).value)
  {
    assert |group| == 4 by {
      BinToHexThenBack();
    }
    assert (group + rest)[..4] == group && (group + rest)[4..] == rest;
  }

  /** hex_to_bin turns the first digit into the first four bits and the rest into the rest. */
  lemma HexToBinHead(hex: string)
    requires IsHex(hex) && 0 < |hex|
    ensures hex[0] in HexToBinMapping && HexToBin(hex[1..]).Success?
    ensures HexToBin(hex).value == HexToBinMapping[hex[0]] + HexToBin(hex[1..]).value
  {
    assert hex[0] in HexToBinMapping by {
      HexToBinMappingDomain();
    }
    assert IsHex(hex[1..]);
  }

  /** hex_to_bin(bin_to_hex(b)) == b for every bit string bin_to_hex accepts. */
  lemma {:induction false} HexToBinOfBinToHex(bin: string)
    requires BinToHex(bin).Success?
    ensures HexToBin(BinToHex(bin).value) == Success(bin)
    decreases |bin|
  {
    if |bin| > 0 {
      BinToHexHead(bin);
      HexToBinOfBinToHex(bin[4..]);
      HexToBinOfBinToHexStep(bin);
    }
  }

  /** bin_to_hex turns the first four bits into the first digit and the rest into the rest. */
  lemma BinToHexHead(bin: string)
    requires 0 < |bin| && BinToHex(bin).Success?
    ensures 4 <= |bin| && bin[..4] in BinToHexMapping && BinToHex(bin[4..]).Success?
    ensures BinToHex(bin).value == [BinToHexMapping[bin[..4]]] + BinToHex(bin[4..]).value
  {
  }

  /** One step of the round trip: the first digit maps back to the first four bits. */
  lemma HexToBinOfBinToHexStep(bin: string)
    requires 4 <= |bin| && bin[..4] in BinToHexMapping && BinToHex(bin[4..]).Success?
    requires BinToHex(bin).Success? && BinToHex(bin).value == [BinToHexMapping[bin[..4]]] + BinToHex(bin[4..]).value
    requires HexToBin(BinToHex(bin[4..]).value) == Success(bin[4..])
    ensures HexToBin(BinToHex(bin).value) == Success(bin)
  {
    var hex := BinToHex(bin).value;
    var group := bin[..4];
    GroupThenBack(group);
    assert hex[1..] == BinToHex(bin[4..]).value;
    assert bin == group + bin[4..];
  }

  /** The bits of a prefix of a hex string are the prefix of its bits. */
  lemma {:induction false} HexToBinPrefix(hex: string, n: nat)
    requires IsHex(hex) && n <= |hex|
    ensures HexToBin(hex[..n]).value == HexToBin(hex).value[..4 * n]
    decreases n
  {
    if n > 0 {
      assert hex[..n][1..] == hex[1..][..n - 1];
      HexToBinPrefix(hex[1..], n - 1);
    }
  }

  /* ---------------------------------------------------------------------- */
  /* Decimal conversions used by the S-box stage                             */
  /* ---------------------------------------------------------------------- */

  /**
   bin_to_dec as the S-box stage calls it, `bin_to_dec(int(s))` for a string
   `s` of the XOR result: `int(s)` reads the digits in base ten, `str` drops
   the leading zeros, and `int(..., 2)` reads the remaining digits in base two,
   so a non-empty bit string yields its binary value. The empty string and
   any character other than '0'/'1' raise ValueError.
   */
  function BinToDec(binary: string): (r: Result<nat>)
    ensures r.Success? <==> 0 < |binary| && IsBits(binary)
    ensures r.Failure? ==> r.error == ValueError
    ensures r.Success? ==> r.value == Value(binary) && r.value < Pow2(|binary|)
  {
    if 0 < |binary| && IsBits(binary) then
      ValueBound(binary);
      Success(Value(binary))
    else
      Failure(ValueError)
  }

  /**
   dec_to_bin: `bin(decimal)[2:]`, left-padded with '0' to the next multiple
   of four characters. For a negative argument `bin` yields '-0b...', so the
   slice keeps a leading 'b'.
   */
  function DecToBin(decimal: int): (r: string)
    ensures 0 < |r| && |r| % 4 == 0
    ensures 0 <= decimal ==> IsBits(r) && Value(r) == decimal
    ensures 0 <= decimal < 16 ==> |r| == 4
    ensures decimal < 0 ==> !IsBits(r)
  {
    var binary := if decimal >= 0 then NatBits(decimal) else "b" + NatBits(-decimal);
    var width := (|binary| + 3) / 4 * 4;
    PadWidth(|binary|);
    var padded := Zeros(width - |binary|) + binary;
    if decimal >= 0 then
      ValueIgnoresLeadingZeros(width - |binary|, binary);
      NatBitsOfNibble(decimal);
      padded
    else
      assert padded[width - |binary|] == 'b';
      padded
  }

  /** `(n + 3) // 4 * 4` is the least multiple of four that is at least n. */
  lemma PadWidth(n: nat)
    ensures var width := (n + 3) / 4 * 4;
      n <= width < n + 4 && width % 4 == 0 && (0 < n <= 4 ==> width == 4)
  {
    var q := (n + 3) / 4;
    assert n + 3 == 4 * q + (n + 3) % 4;
  }

  lemma NatBitsOfNibble(n: nat)
    ensures n < 16 ==> |NatBits(n)| <= 4
  {
    if n < 16 {
      NatBitsWidth(n, 4);
    }
  }

  /** bin_to_dec recovers the value dec_to_bin encoded. */
  lemma DecToBinRoundTrip(v: nat)
    ensures BinToDec(DecToBin(v)) == Success(v)
  {
  }

  /* ---------------------------------------------------------------------- */
  /* Permutation, rotation, XOR                                              */
  /* ---------------------------------------------------------------------- */

  /**
   permute: character `i` of the result is `key[arr[i] - 1]` under Python
   indexing, so entry 0 reads the last character and an entry beyond either
   end raises IndexError.
   */
  function Permute(key: string, arr: seq<int>): (r: Result<string>)
    ensures r.Success? <==> forall i | 0 <= i < |arr| :: IndexOk(key, arr[i] - 1)
    ensures r.Failure? ==> r.error == IndexError
    ensures r.Success? ==>
      |r.value| == |arr| && forall i | 0 <= i < |arr| :: r.value[i] == At(key, arr[i] - 1)
    decreases |arr|
  {
    if |arr| == 0 then
      Success("")
    else if !IndexOk(key, arr[0] - 1) then
      Failure(IndexError)
    else
      var rest :- Permute(key, arr[1..]);
      Success([At(key, arr[0] - 1)] + rest)
  }

  /**
   For a table whose entries all lie in 1..len(key), permute selects
   `key[arr[i] - 1]`, and the result is a bit string when the key is one.
   */
  lemma PermuteInRange(key: string, arr: seq<int>)
    requires EntriesIn(arr, 1, |key|)
    ensures Permute(key, arr).Success?
    ensures |Permute(key, arr).value| == |arr|
    ensures forall i | 0 <= i < |arr| :: Permute(key, arr).value[i] == key[arr[i] - 1]
    ensures IsBits(key) ==> IsBits(Permute(key, arr).value)
  {
  }

  /** A table entry of 0 reads the last character of the key. */
  lemma PermuteEntryZeroReadsLast(key: string)
    requires 0 < |key|
    ensures Permute(key, [0]) == Success([key[|key| - 1]])
  {
    var r := Permute(key, [0]);
    assert IndexOk(key, [0][0] - 1);
    assert r.Success?;
    assert r.value[0] == key[|key| - 1];
    assert r.value == [key[|key| - 1]];
  }

  /** A table whose entries all lie in 1..m reads only the first m characters. */
  lemma PermuteReadsPrefix(key: string, arr: seq<int>, m: nat)
    requires m <= |key| && EntriesIn(arr, 1, m)
    ensures Permute(key, arr) == Permute(key[..m], arr)
  {
    PermuteInRange(key, arr);
    PermuteInRange(key[..m], arr);
    var x, y := Permute(key, arr).value, Permute(key[..m], arr).value;
    assert forall i | 0 <= i < |arr| :: x[i] == key[arr[i] - 1] == key[..m][arr[i] - 1] == y[i];
    assert x == y;
  }

  /** Permuting by A and then by B is the identity when B undoes A. */
  lemma PermuteUndone(x: string, a: seq<int>, b: seq<int>)
    requires EntriesIn(a, 1, |x|) && EntriesIn(b, 1, |a|) && |b| == |x|
    requires forall i | 0 <= i < |b| :: a[b[i] - 1] == i + 1
    ensures Permute(x, a).Success?
    ensures Permute(Permute(x, a).value, b) == Success(x)
  {
    assert Permute(x, a).Success? && |Permute(x, a).value| == |a| by {
      PermuteInRange(x, a);
    }
    var y := Permute(x, a).value;
    assert Permute(y, b).Success? && |Permute(y, b).value| == |x| by {
      assert EntriesIn(b, 1, |y|);
      PermuteInRange(y, b);
    }
    var z := Permute(y, b).value;
    forall i | 0 <= i < |x|
      ensures z[i] == x[i]
    {
      PermuteUndoneAt(x, a, b, i);
    }
    assert z == x;
  }

  lemma PermuteUndoneAt(x: string, a: seq<int>, b: seq<int>, i: int)
    requires EntriesIn(a, 1, |x|) && EntriesIn(b, 1, |a|) && |b| == |x| && 0 <= i < |b|
    requires a[b[i] - 1] == i + 1
    ensures Permute(x, a).Success? && Permute(Permute(x, a).value, b).Success?
    ensures |Permute(Permute(x, a).value, b).value| == |x|
    ensures Permute(Permute(x, a).value, b).value[i] == x[i]
  {
    PermuteInRange(x, a);
    var y := Permute(x, a).value;
    assert EntriesIn(b, 1, |y|);
    PermuteInRange(y, b);
    assert Permute(y, b).value[i] == y[b[i] - 1];
  }

  /**
   shift_left: a left rotation by `nth_shifts % len(key)`; Python's `%` takes
   the sign of the divisor, like Dafny's, and an empty key raises
   ZeroDivisionError.
   */
  function ShiftLeft(key: string, nthShifts: int): (r: Result<string>)
    ensures r.Failure? <==> |key| == 0
    ensures r.Failure? ==> r.error == ZeroDivisionError
    ensures r.Success? ==> |r.value| == |key|
    ensures r.Success? && IsBits(key) ==> IsBits(r.value)
  {
    if |key| == 0 then
      Failure(ZeroDivisionError)
    else
      var k := nthShifts % |key|;
      Success(key[k..] + key[..k])
  }

  /** Character i of the rotated key is character i + nth_shifts of the key, wrapping around. */
  lemma ShiftLeftRotates(key: string, nthShifts: int)
    requires 0 < |key|
    ensures forall i | 0 <= i < |key| :: ShiftLeft(key, nthShifts).value[i] == key[(i + nthShifts) % |key|]
  {
    RotationIndices(key, nthShifts);
  }

  lemma RotationIndices(key: string, n: int)
    requires 0 < |key|
    ensures var k := n % |key|;
      forall i | 0 <= i < |key| :: (key[k..] + key[..k])[i] == key[(i + n) % |key|]
  {
    var k := n % |key|;
    forall i | 0 <= i < |key| ensures (key[k..] + key[..k])[i] == key[(i + n) % |key|] {
      ModShift(i, n, |key|);
    }
  }

  /** Position i of the rotated string is i + k, wrapped once. */
  lemma ModShift(i: int, n: int, len: int)
    requires 0 <= i < len
    ensures var k := n % len; (i + n) % len == if i + k < len then i + k else i + k - len
  {
    var k := n % len;
    var q := n / len;
    assert n == q * len + k;
    if i + k < len {
      ModUnique(i + n, len, q, i + k);
    } else {
      assert i + n == (q + 1) * len + (i + k - len);
      ModUnique(i + n, len, q + 1, i + k - len);
    }
  }

  lemma MulAtLeast(d: int, len: int)
    requires 1 <= d && 0 < len
    ensures len <= d * len
  {
    assert d * len == (d - 1) * len + len;
    assert 0 <= (d - 1) * len;
  }

  /** Euclidean remainders are unique. */
  lemma ModUnique(y: int, len: int, q: int, r: int)
    requires 0 < len && 0 <= r < len && y == q * len + r
    ensures y % len == r
  {
    var q0, r0 := y / len, y % len;
    assert y == q0 * len + r0;
    var d := q - q0;
    assert d * len == r0 - r;
    if d >= 1 {
      MulAtLeast(d, len);
    } else if d <= -1 {
      MulAtLeast(-d, len);
    }
  }

  /** Rotating a non-empty string by its length is the identity. */
  lemma ShiftLeftFullTurn(key: string)
    requires 0 < |key|
    ensures ShiftLeft(key, |key|) == Success(key)
  {
    ModUnique(|key|, |key|, 1, 0);
    assert key[0..] + key[..0] == key;
  }

  /** Rotations compose: rotating by a and then by b is rotating by a + b. */
  lemma ShiftLeftCompose(key: string, a: int, b: int)
    requires 0 < |key|
    ensures ShiftLeft(ShiftLeft(key, a).value, b) == ShiftLeft(key, a + b)
  {
    var once := ShiftLeft(key, a).value;
    var twice := ShiftLeft(once, b).value;
    var direct := ShiftLeft(key, a + b).value;
    forall i | 0 <= i < |key|
      ensures twice[i] == direct[i]
    {
      ShiftLeftComposeAt(key, once, a, b, i);
    }
    assert twice == direct;
  }

  lemma ShiftLeftComposeAt(key: string, once: string, a: int, b: int, i: int)
    requires 0 <= i < |key| && once == ShiftLeft(key, a).value
    ensures ShiftLeft(once, b).value[i] == ShiftLeft(key, a + b).value[i]
  {
    var n := |key|;
    var x := i + b;
    var j := x % n;
    var y := x + a;
    assert ShiftLeft(once, b).value[i] == once[j] by { ShiftLeftRotates(once, b); }
    assert once[j] == key[(j + a) % n] by { ShiftLeftRotates(key, a); }
    assert (j + a) % n == y % n by { ModAddMod(x, a, n); }
    assert ShiftLeft(key, a + b).value[i] == key[y % n] by {
      ShiftLeftRotates(key, a + b);
      assert y == i + (a + b);
    }
  }

  lemma ModAddMod(x: int, a: int, n: int)
    requires 0 < n
    ensures (x % n + a) % n == (x + a) % n
  {
    var q, r := x / n, x % n;
    assert x == q * n + r;
    var y := r + a;
    var q1, r1 := y / n, y % n;
    assert y == q1 * n + r1;
    assert x + a == (q + q1) * n + r1;
    ModUnique(x + a, n, q + q1, r1);
  }

  /**
   xor: `zip` pairs the characters up to the shorter string; equal
   characters give '0' and different ones '1'.
   */
  function Xor(a: string, b: string): (r: string)
    ensures |r| == if |a| <= |b| then |a| else |b|
    ensures IsBits(r)
    ensures forall i | 0 <= i < |r| :: r[i] == '1' <==> a[i] != b[i]
    decreases |a|
  {
    if |a| == 0 || |b| == 0 then "" else [if a[0] == b[0] then '0' else '1'] + Xor(a[1..], b[1..])
  }

  /** A string XOR itself is all '0'. */
  lemma XorSelf(a: string)
    ensures Xor(a, a) == Zeros(|a|)
  {
  }

  /** XOR-ing the same bit string twice gives the original back. */
  lemma XorCancel(a: string, b: string)
    requires IsBits(a) && IsBits(b) && |a| <= |b|
    ensures Xor(Xor(a, b), b) == a
  {
    var x := Xor(a, b);
    var y := Xor(x, b);
    assert forall i | 0 <= i < |a| :: y[i] == a[i] by {
      forall i | 0 <= i < |a| ensures y[i] == a[i] {
        assert IsBit(a[i]) && IsBit(b[i]) && IsBit(x[i]) && IsBit(y[i]);
      }
    }
  }

  /* ---------------------------------------------------------------------- */
  /* Key material                                                            */
  /* ---------------------------------------------------------------------- */

  /** `_generate_seed`: the ten decimal digits followed by 'A' to 'F'. */
  function GenerateSeed(): (r: string)
    ensures |r| == 16 && IsHex(r)
    ensures forall i, j | 0 <= i < j < 16 :: r[i] != r[j]
    ensures forall c :: IsHexDigit(c) <==> c in r
  {
    "0123456789" + "ABCDEF"
  }

  /**
   `_generate_random_key`: the seed's characters in the order random.shuffle
   puts them, its draws given as `picks`.
   */
  function GenerateRandomKey(seed: string, picks: seq<int>): (r: string)
    requires ShufflePicks(picks, |seed|)
    ensures |r| == |seed| && multiset(r) == multiset(seed)
    ensures IsHex(seed) ==> IsHex(r)
  {
    var key := Shuffle(seed, picks);
    assert forall i | 0 <= i < |key| :: key[i] in multiset(seed);
    key
  }

  /* ---------------------------------------------------------------------- */
  /* Key schedule                                                            */
  /* ---------------------------------------------------------------------- */

  /** Two parallel lists of round keys, binary and hexadecimal. */
  type RoundKeys = (seq<string>, seq<string>)

  /**
   The lists generate_keys returns for rounds `from` to 15: each binary key
   is a 48-bit string and the hexadecimal key beside it is its bin_to_hex.
   */
  ghost predicate RoundKeysFrom(keys: RoundKeys, from: nat) {
    && |keys.0| == 16 - from && |keys.1| == 16 - from
    && forall i | 0 <= i < 16 - from ::
      |keys.0[i]| == 48 && IsBits(keys.0[i]) && BinToHex(keys.0[i]) == Success(keys.1[i])
  }

  /**
   The loop of generate_keys from round `roundNum` on: rotate both halves by
   the round's shift, compress their concatenation with PC-2, and record the
   round key in binary and in hexadecimal.
   */
  function KeySchedule(left: string, right: string, roundNum: nat): (r: Result<RoundKeys>)
    requires roundNum <= 16
    ensures r.Success? ==> RoundKeysFrom(r.value, roundNum)
    ensures roundNum < 16 && |left| == 28 && |right| == 28 && IsBits(left) && IsBits(right) ==> r.Success?
    decreases 16 - roundNum
  {
    if roundNum == 16 then
      Success(([], []))
    else
      KeyShiftShape();
      var newLeft :- ShiftLeft(left, KeyShiftTable()[roundNum]);
      var newRight :- ShiftLeft(right, KeyShiftTable()[roundNum]);
      var combined := newLeft + newRight;
      KeyCompressionReads56Bits(combined);
      var roundKeyBinary :- Permute(combined, KeyCompressionTable());
      var roundKeyHex :- BinToHex(roundKeyBinary);
      var later :- KeySchedule(newLeft, newRight, roundNum + 1);
      RoundKeysCons(roundKeyBinary, roundKeyHex, later, roundNum);
      Success(([roundKeyBinary] + later.0, [roundKeyHex] + later.1))
  }

  lemma RoundKeysCons(binary: string, hex: string, later: RoundKeys, from: nat)
    requires from < 16 && RoundKeysFrom(later, from + 1)
    requires |binary| == 48 && IsBits(binary) && BinToHex(binary) == Success(hex)
    ensures RoundKeysFrom(([binary] + later.0, [hex] + later.1), from)
  {
  }

  /** PC-2 reaches bit 56, so it succeeds exactly on inputs of at least 56 bits. */
  lemma KeyCompressionReads56Bits(combined: string)
    ensures Permute(combined, KeyCompressionTable()).Success? <==> 56 <= |combined|
    ensures 56 <= |combined| ==>
      var roundKey := Permute(combined, KeyCompressionTable()).value;
      |roundKey| == 48 && (IsBits(combined) ==> IsBits(roundKey))
  {
    KeyCompressionShape();
    if 56 <= |combined| {
      PermuteInRange(combined, KeyCompressionTable());
    } else {
      assert !IndexOk(combined, KeyCompressionTable()[39] - 1);
    }
  }

  /**
   generate_keys: the 64 key bits are reduced to 56 by PC-1, split into two
   28-bit halves, and run through 16 rounds of the schedule. A character
   outside the hexadecimal mapping raises KeyError, and a key of fewer than
   16 digits makes PC-1 raise IndexError.
   */
  function GenerateKeys(keyHex: string): (r: Result<RoundKeys>)
    ensures r.Success? <==> IsHex(keyHex) && 16 <= |keyHex|
    ensures r.Success? ==> RoundKeysFrom(r.value, 0)
  {
    var key56 :- PermutedChoice1(keyHex);
    SplitKey(key56);
    KeySchedule(Slice(key56, 0, 28), Slice(key56, 28, 56), 0)
  }

  /** `key[0:28]` and `key[28:56]` of a 56-bit key are its two 28-bit halves. */
  lemma SplitKey(key56: string)
    requires |key56| == 56 && IsBits(key56)
    ensures Slice(key56, 0, 28) == key56[..28] && Slice(key56, 28, 56) == key56[28..]
    ensures |key56[..28]| == 28 && |key56[28..]| == 28
    ensures IsBits(key56[..28]) && IsBits(key56[28..])
  {
    assert key56 == key56[..28] + key56[28..];
    IsBitsConcat(key56[..28], key56[28..]);
  }

  /**
   The first steps of generate_keys: the key in binary, reduced from 64 to 56
   bits by PC-1 (the parity bits are dropped).
   */
  function PermutedChoice1(keyHex: string): (r: Result<string>)
    ensures r.Success? <==> IsHex(keyHex) && 16 <= |keyHex|
    ensures r.Failure? ==> r.error == if IsHex(keyHex) then IndexError else KeyError
    ensures r.Success? ==> |r.value| == 56 && IsBits(r.value)
  {
    var keyBinary :- HexToBin(keyHex);
    KeyPermutationReads63Bits(keyBinary);
    Permute(keyBinary, KeyPermutationTable())
  }

  /** PC-1 reaches bit 63, so it succeeds exactly on keys of at least 63 bits. */
  lemma KeyPermutationReads63Bits(keyBinary: string)
    ensures Permute(keyBinary, KeyPermutationTable()).Success? <==> 63 <= |keyBinary|
    ensures 63 <= |keyBinary| ==>
      var key56 := Permute(keyBinary, KeyPermutationTable()).value;
      |key56| == 56 && (IsBits(keyBinary) ==> IsBits(key56))
  {
    KeyPermutationShape();
    if 63 <= |keyBinary| {
      PermuteInRange(keyBinary, KeyPermutationTable());
    } else {
      assert !IndexOk(keyBinary, KeyPermutationTable()[28] - 1);
    }
  }

  /** Digits past the sixteenth do not affect the round keys: PC-1 reads only the first 64 bits. */
  lemma GenerateKeysReadsFirst16Digits(keyHex: string)
    requires IsHex(keyHex) && 16 <= |keyHex|
    ensures GenerateKeys(keyHex) == GenerateKeys(keyHex[..16])
  {
    assert PermutedChoice1(keyHex) == PermutedChoice1(keyHex[..16]) by {
      var keyBinary := HexToBin(keyHex).value;
      assert IsHex(keyHex[..16]);
      HexToBinPrefix(keyHex, 16);
      KeyPermutationShape();
      PermuteReadsPrefix(keyBinary, KeyPermutationTable(), 64);
    }
  }

  /* ---------------------------------------------------------------------- */
  /* The key schedule in closed form                                         */
  /* ---------------------------------------------------------------------- */

  /** The rotation a key half accumulates over a list of per-round shifts. */
  function TotalShift(shifts: seq<int>): int {
    if |shifts| == 0 then 0 else shifts[0] + TotalShift(shifts[1..])
  }

  /** The rotations of the sixteen rounds add up to 28, one full turn of a key half. */
  lemma KeyShiftsFullTurn()
    ensures TotalShift(KeyShiftTable()) == 28
  {
    var first: seq<int>, second: seq<int> := [1, 1, 2, 2, 2, 2, 2, 2], [1, 2, 2, 2, 2, 2, 2, 1];
    assert KeyShiftTable() == first + second;
    HalfTurns();
    TotalShiftAppend(first, second);
  }

  /** Rounds 1 to 8 and rounds 9 to 16 each rotate by half a turn. */
  lemma HalfTurns()
    ensures TotalShift([1, 1, 2, 2, 2, 2, 2, 2]) == 14
    ensures TotalShift([1, 2, 2, 2, 2, 2, 2, 1]) == 14
  {
  }

  lemma {:induction false} TotalShiftAppend(a: seq<int>, b: seq<int>)
    ensures TotalShift(a + b) == TotalShift(a) + TotalShift(b)
    decreases |a|
  {
    if |a| > 0 {
      assert (a + b)[1..] == a[1..] + b;
      TotalShiftAppend(a[1..], b);
    } else {
      assert a + b == b;
    }
  }

  /** The pairs of key halves after each round's rotation, without the error paths. */
  ghost function RotatedHalves(c: string, d: string, shifts: seq<int>): (r: seq<(string, string)>)
    requires 0 < |c| && 0 < |d|
    ensures |r| == |shifts|
    decreases |shifts|
  {
    if |shifts| == 0 then
      []
    else
      var c', d' := ShiftLeft(c, shifts[0]).value, ShiftLeft(d, shifts[0]).value;
      [(c', d')] + RotatedHalves(c', d', shifts[1..])
  }

  /** After k + 1 rounds each half is rotated by the shifts of those rounds added up. */
  lemma {:induction false} RotatedHalvesAt(c: string, d: string, shifts: seq<int>, k: nat)
    requires 0 < |c| && 0 < |d| && k < |shifts|
    ensures RotatedHalves(c, d, shifts)[k]
         == (ShiftLeft(c, TotalShift(shifts[..k + 1])).value, ShiftLeft(d, TotalShift(shifts[..k + 1])).value)
    decreases k
  {
    var s := shifts[0];
    var c', d' := ShiftLeft(c, s).value, ShiftLeft(d, s).value;
    assert shifts[..k + 1][1..] == shifts[1..][..k];
    if k > 0 {
      var t := TotalShift(shifts[1..][..k]);
      RotatedHalvesAt(c', d', shifts[1..], k - 1);
      ShiftLeftCompose(c, s, t);
      ShiftLeftCompose(d, s, t);
    }
  }

  /** One round of the schedule: the round key is PC-2 of the rotated halves, and the rest continues from them. */
  lemma ScheduleHead(left: string, right: string, roundNum: nat)
    requires |left| == 28 && |right| == 28 && IsBits(left) && IsBits(right) && roundNum < 16
    ensures KeySchedule(left, right, roundNum).Success?
    ensures var s := KeyShiftTable()[roundNum];
      var newLeft, newRight := ShiftLeft(left, s).value, ShiftLeft(right, s).value;
      && |newLeft| == 28 && |newRight| == 28 && IsBits(newLeft) && IsBits(newRight)
      && KeySchedule(newLeft, newRight, roundNum + 1).Success?
      && Permute(newLeft + newRight, KeyCompressionTable()).Success?
      && KeySchedule(left, right, roundNum).value.0
         == [Permute(newLeft + newRight, KeyCompressionTable()).value] + KeySchedule(newLeft, newRight, roundNum + 1).value.0
  {
    KeyShiftShape();
  }

  /**
   Round key k of the schedule started at round `roundNum` is PC-2 of the
   k-th pair of rotated halves.
   */
  lemma {:induction false} KeyScheduleRoundKey(left: string, right: string, roundNum: nat, k: nat)
    requires |left| == 28 && |right| == 28 && IsBits(left) && IsBits(right) && roundNum + k < 16
    ensures KeySchedule(left, right, roundNum).Success?
    ensures var h := RotatedHalves(left, right, KeyShiftTable()[roundNum..])[k];
      Permute(h.0 + h.1, KeyCompressionTable()) == Success(KeySchedule(left, right, roundNum).value.0[k])
    decreases k
  {
    if k == 0 {
      FirstRoundKey(left, right, roundNum);
    } else {
      var s := KeyShiftTable()[roundNum];
      KeyScheduleRoundKey(ShiftLeft(left, s).value, ShiftLeft(right, s).value, roundNum + 1, k - 1);
      LaterRoundKey(left, right, roundNum, k);
    }
  }

  /** The first key of the schedule started at `roundNum` is PC-2 of the first pair of rotated halves. */
  lemma FirstRoundKey(left: string, right: string, roundNum: nat)
    requires |left| == 28 && |right| == 28 && IsBits(left) && IsBits(right) && roundNum < 16
    ensures KeySchedule(left, right, roundNum).Success?
    ensures var h := RotatedHalves(left, right, KeyShiftTable()[roundNum..])[0];
      Permute(h.0 + h.1, KeyCompressionTable()) == Success(KeySchedule(left, right, roundNum).value.0[0])
  {
    ScheduleHead(left, right, roundNum);
    ShiftsFrom(roundNum);
    RotatedHalvesHead(left, right, KeyShiftTable()[roundNum..]);
  }

  /** Key k of the schedule started at `roundNum` is key k - 1 of the schedule started one round later. */
  lemma LaterRoundKey(left: string, right: string, roundNum: nat, k: nat)
    requires |left| == 28 && |right| == 28 && IsBits(left) && IsBits(right) && 0 < k && roundNum + k < 16
    requires var s := KeyShiftTable()[roundNum];
      var newLeft, newRight := ShiftLeft(left, s).value, ShiftLeft(right, s).value;
      && KeySchedule(newLeft, newRight, roundNum + 1).Success?
      && var h := RotatedHalves(newLeft, newRight, KeyShiftTable()[roundNum + 1..])[k - 1];
         Permute(h.0 + h.1, KeyCompressionTable()) == Success(KeySchedule(newLeft, newRight, roundNum + 1).value.0[k - 1])
    ensures KeySchedule(left, right, roundNum).Success?
    ensures var h := RotatedHalves(left, right, KeyShiftTable()[roundNum..])[k];
      Permute(h.0 + h.1, KeyCompressionTable()) == Success(KeySchedule(left, right, roundNum).value.0[k])
  {
    ScheduleHead(left, right, roundNum);
    ShiftsFrom(roundNum);
    var s := KeyShiftTable()[roundNum];
    var newLeft, newRight := ShiftLeft(left, s).value, ShiftLeft(right, s).value;
    RotatedHalvesHead(left, right, KeyShiftTable()[roundNum..]);
    CompressedLater(RotatedHalves(newLeft, newRight, KeyShiftTable()[roundNum + 1..]),
                    KeySchedule(newLeft, newRight, roundNum + 1).value.0,
                    (newLeft, newRight), Permute(newLeft + newRight, KeyCompressionTable()).value, k);
  }

  /** Compressing the k-th pair gives the k-th key when that holds one list further on. */
  lemma CompressedLater(halves: seq<(string, string)>, keys: seq<string>, h: (string, string), key: string, k: nat)
    requires 0 < k <= |halves| && k <= |keys|
    requires Permute(halves[k - 1].0 + halves[k - 1].1, KeyCompressionTable()) == Success(keys[k - 1])
    ensures var h' := ([h] + halves)[k]; Permute(h'.0 + h'.1, KeyCompressionTable()) == Success(([key] + keys)[k])
  {
  }

  /** The shifts from round `roundNum` on start with that round's and go on with the next round's. */
  lemma ShiftsFrom(roundNum: nat)
    requires roundNum < 16
    ensures |KeyShiftTable()[roundNum..]| > 0
    ensures KeyShiftTable()[roundNum..][0] == KeyShiftTable()[roundNum]
    ensures KeyShiftTable()[roundNum..][1..] == KeyShiftTable()[roundNum + 1..]
  {
    KeyShiftShape();
  }

  /** The first pair of rotated halves is rotated by the first shift; the rest continue from it. */
  lemma RotatedHalvesHead(c: string, d: string, shifts: seq<int>)
    requires 0 < |c| && 0 < |d| && 0 < |shifts|
    ensures var c', d' := ShiftLeft(c, shifts[0]).value, ShiftLeft(d, shifts[0]).value;
      RotatedHalves(c, d, shifts) == [(c', d')] + RotatedHalves(c', d', shifts[1..])
  {
  }

  /** Rotating both halves of a 56-bit key by a full turn gives the key back. */
  lemma FullTurnHalves(key56: string)
    requires |key56| == 56
    ensures ShiftLeft(key56[..28], 28).value + ShiftLeft(key56[28..], 28).value == key56
  {
    ShiftLeftFullTurn(key56[..28]);
    ShiftLeftFullTurn(key56[28..]);
    assert key56[..28] + key56[28..] == key56;
  }

  /** generate_keys runs the schedule on the two 28-bit halves of PC-1's output. */
  lemma GenerateKeysHalves(keyHex: string)
    requires IsHex(keyHex) && 16 <= |keyHex|
    ensures var key56 := PermutedChoice1(keyHex).value;
      && IsBits(key56[..28]) && IsBits(key56[28..])
      && GenerateKeys(keyHex) == KeySchedule(key56[..28], key56[28..], 0)
  {
    SplitKey(PermutedChoice1(keyHex).value);
  }

  /**
   generate_keys in the closed form of FIPS 46-3: round key i is PC-2 of the
   two 28-bit halves of PC-1's output, each rotated left by the shifts of
   rounds 1 to i + 1 added up.
   */
  lemma GenerateKeysRoundKey(keyHex: string, i: nat, shift: int)
    requires IsHex(keyHex) && 16 <= |keyHex| && i < 16
    requires shift == TotalShift(KeyShiftTable()[..i + 1])
    ensures GenerateKeys(keyHex).Success?
    ensures var key56 := PermutedChoice1(keyHex).value;
      Permute(ShiftLeft(key56[..28], shift).value + ShiftLeft(key56[28..], shift).value, KeyCompressionTable())
        == Success(GenerateKeys(keyHex).value.0[i])
  {
    GenerateKeysHalves(keyHex);
    var key56 := PermutedChoice1(keyHex).value;
    var c, d := key56[..28], key56[28..];
    assert KeyShiftTable()[0..] == KeyShiftTable();
    KeyScheduleRoundKey(c, d, 0, i);
    RotatedHalvesAt(c, d, KeyShiftTable(), i);
  }

  /**
   The sixteen rotations make one full turn, so the last round key is PC-2
   of PC-1's output itself.
   */
  lemma LastRoundKeyUnrotated(keyHex: string)
    requires IsHex(keyHex) && 16 <= |keyHex|
    ensures GenerateKeys(keyHex).Success?
    ensures Permute(PermutedChoice1(keyHex).value, KeyCompressionTable()) == Success(GenerateKeys(keyHex).value.0[15])
  {
    AllShiftsFullTurn();
    GenerateKeysRoundKey(keyHex, 15, 28);
    UnrotatedRoundKey(PermutedChoice1(keyHex).value, GenerateKeys(keyHex).value.0[15]);
  }

  /** The shifts of all sixteen rounds, taken as a prefix of the table, add up to 28. */
  lemma AllShiftsFullTurn()
    ensures TotalShift(KeyShiftTable()[..16]) == 28
  {
    assert KeyShiftTable()[..16] == KeyShiftTable();
    KeyShiftsFullTurn();
  }

  /** A round key compressed from halves rotated by a full turn is PC-2 of the key itself. */
  lemma UnrotatedRoundKey(key56: string, roundKey: string)
    requires |key56| == 56
    requires Permute(ShiftLeft(key56[..28], 28).value + ShiftLeft(key56[28..], 28).value, KeyCompressionTable())
      == Success(roundKey)
    ensures Permute(key56, KeyCompressionTable()) == Success(roundKey)
  {
    FullTurnHalves(key56);
  }
}
