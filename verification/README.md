# DES block engine and n-gram utilities in Dafny

This project models two parts of a small cryptography teaching repository.

1. **The DES engine.** `src/ciphers/des/des_cipher_helper.py` provides the
   helper operations:
   - the hexadecimal/binary codecs and the 4-bit decimal conversions;
   - table-driven `permute`, circular `shift_left` and character-wise `xor`;
   - the key schedule `generate_keys`.

   `src/ciphers/des/des_cipher.py` provides the `DesCipher` class:
   - the sixteen Feistel rounds of `_process_block`;
   - `cipher`, and `decipher`, which is the same pipeline with the round keys reversed;
   - the constructor, which shuffles the sixteen hexadecimal digits into a
     master key and derives the round keys from it.
2. **N-gram extraction.** Both copies of `nltk_util.py` provide `ngrams`, a
   sliding-window generator that skips windows holding whitespace, and
   `calculate_ngram_freq`, a Counter over unigrams, bigrams or trigrams. A
   Counter is a multiset here.

Bit strings are Python strings over `'0'` and `'1'`, as in the code. Every
exception the Python code can raise is a `Failure` of the `Result` type in
module `Python`: KeyError, IndexError, ValueError, ZeroDivisionError or
UnboundLocalError. Python's negative indexing is modelled too, so a table
entry of 0 reads the last character. The modules are:

- `Python`: errors, `Result`, Python indexing, slicing, `[::-1]` and `random.shuffle`.
- `Bits`: bit strings and their binary value.
- `DesConst`: the DES tables and the hexadecimal mappings.
- `DesHelper`: `des_cipher_helper.py`.
- `Feistel`: the generic Feistel ladder and its inversion theorem.
- `DesCipher`: `des_cipher.py`.
- `NltkUtil`: both `nltk_util.py` copies. They define `ngrams` and
  `calculate_ngram_freq` with identical bodies, so one model serves both.

The headline results:

- `DesCipher.DecipherInvertsCipher`: `decipher(cipher(p))` gives back the first
  sixteen digits of p for every hexadecimal p of at least sixteen digits.
  It holds for every instance, whatever order the shuffle chose.
- `DesCipher.ProcessBlockIsStandard`: `_process_block` computes the enciphering
  of section "Enciphering" of FIPS PUB 46-3. That computation always swaps and
  then reads the preoutput as R L.
- `DesHelper.GenerateKeysRoundKey`: `generate_keys` equals the closed form of
  the FIPS 46-3 key schedule. Round key i is PC-2 of the PC-1 halves, each
  rotated by the shifts of rounds 1 to i + 1 added up.
- `Feistel.LadderInverse`: the rounds of `_process_block` are undone by the
  same rounds with the keys reversed, for ANY round function that keeps the
  width of the halves.

## Model

| member | source | states |
|---|---|---|
| DesHelper.HexToBin | src/ciphers/des/des_cipher_helper.py:13-21 | succeeds exactly on strings of mapping keys and raises KeyError otherwise; the output is 4·len bits, and group i is the mapping of character i |
| DesHelper.BinToHex | src/ciphers/des/des_cipher_helper.py:24-32 | succeeds exactly on bit strings whose length is a multiple of 4; a short last group or a non-bit character raises KeyError; the output has one digit per group |
| DesHelper.BinToHexOfHexToBin | src/ciphers/des/des_cipher_helper.py:13-32 | bin_to_hex(hex_to_bin(h)) == h for every h over the mapping's domain |
| DesHelper.HexToBinOfBinToHex | src/ciphers/des/des_cipher_helper.py:13-32 | hex_to_bin(bin_to_hex(b)) == b for every bit string bin_to_hex accepts |
| DesHelper.HexToBinPrefix | src/ciphers/des/des_cipher_helper.py:21 | the bits of the first n digits are the first 4n bits |
| DesHelper.BinToDec | src/ciphers/des/des_cipher_helper.py:35-44 | for the bit strings the S-box stage passes through int(...), the result is their binary value Value(binary), below 2^len; an empty string or a non-bit character raises ValueError |
| DesHelper.DecToBin | src/ciphers/des/des_cipher_helper.py:47-55 | the output length is a positive multiple of 4; a value in 0..15 gives exactly 4 bits; a non-negative value is the output's binary value; a negative one leaves a non-bit 'b' |
| DesHelper.DecToBinRoundTrip | src/ciphers/des/des_cipher_helper.py:35-55 | bin_to_dec recovers every non-negative value dec_to_bin encodes |
| DesHelper.Permute | src/ciphers/des/des_cipher_helper.py:58-66 | output length len(arr); character i is key[arr[i]-1] under Python indexing; IndexError exactly when an entry falls outside -len+1..len |
| DesHelper.PermuteInRange | src/ciphers/des/des_cipher_helper.py:58-66 | with every entry in 1..len(key), permute succeeds, reads key[arr[i]-1] and keeps bit strings bit strings |
| DesHelper.PermuteEntryZeroReadsLast | src/ciphers/des/des_cipher_helper.py:66 | a table entry 0 silently reads the last character |
| DesHelper.PermuteReadsPrefix | src/ciphers/des/des_cipher_helper.py:66 | a table with entries in 1..m reads only the first m characters |
| DesHelper.PermuteUndone | src/ciphers/des/des_cipher_helper.py:58-66 | permuting by a and then by b is the identity when b undoes a |
| DesHelper.ShiftLeft | src/ciphers/des/des_cipher_helper.py:69-77 | ZeroDivisionError exactly on the empty key; otherwise the length is kept and bit strings stay bit strings |
| DesHelper.ShiftLeftRotates | src/ciphers/des/des_cipher_helper.py:77 | character i of the result is key[(i + n) mod len], a left rotation |
| DesHelper.ShiftLeftFullTurn | src/ciphers/des/des_cipher_helper.py:77 | rotating by len(key) is the identity |
| DesHelper.ShiftLeftCompose | src/ciphers/des/des_cipher_helper.py:77 | shift_left(shift_left(s, a), b) == shift_left(s, a + b) |
| DesHelper.Xor | src/ciphers/des/des_cipher_helper.py:80-88 | the length is min(len a, len b), the output is bits, and bit i is '1' iff the inputs differ at i |
| DesHelper.XorSelf | src/ciphers/des/des_cipher_helper.py:88 | xor(a, a) is all '0' |
| DesHelper.XorCancel | src/ciphers/des/des_cipher_helper.py:88 | xor(xor(a, b), b) == a for bit strings with len a <= len b |
| DesHelper.GenerateSeed | src/ciphers/des/des_cipher_helper.py:91-99 | sixteen distinct characters, exactly the hexadecimal digits |
| DesHelper.GenerateRandomKey | src/ciphers/des/des_cipher_helper.py:102-113 | the key is a permutation (same multiset) of the seed, so a hexadecimal seed gives a hexadecimal key |
| Python.Shuffle | src/ciphers/des/des_cipher_helper.py:110-112 | random.shuffle with its draws given yields a permutation of the list |
| DesHelper.KeySchedule | src/ciphers/des/des_cipher_helper.py:148-163 | on two 28-bit halves the loop succeeds and yields 16 - roundNum binary keys of 48 bits, each beside its bin_to_hex |
| DesHelper.GenerateKeys | src/ciphers/des/des_cipher_helper.py:116-165 | succeeds exactly on hexadecimal keys of at least 16 digits and returns 16 keys of 48 bits, hex entry i being bin_to_hex of binary entry i |
| DesHelper.PermutedChoice1 | src/ciphers/des/des_cipher_helper.py:126-133 | KeyError on a non-hex digit, IndexError on fewer than 16 digits, else 56 bits |
| DesHelper.GenerateKeysReadsFirst16Digits | src/ciphers/des/des_cipher_helper.py:126-133 | digits past the sixteenth do not change the round keys |
| DesHelper.KeyShiftsFullTurn | src/ciphers/des/des_cipher_helper.py:136 | the sixteen shifts add up to 28, one full turn of a key half |
| DesHelper.TotalShiftAppend | src/ciphers/des/des_cipher_helper.py:148-153 | the rotations of two runs of rounds add up |
| DesHelper.RotatedHalvesAt | src/ciphers/des/des_cipher_helper.py:148-153 | after k + 1 rounds each half is rotated by the sum of the first k + 1 shifts |
| DesHelper.KeyScheduleRoundKey | src/ciphers/des/des_cipher_helper.py:148-163 | round key k is PC-2 of the k-th pair of rotated halves |
| DesHelper.GenerateKeysRoundKey | src/ciphers/des/des_cipher_helper.py:116-165 | round key i is PC-2 of the PC-1 halves each rotated by the shifts of rounds 1..i+1 (the FIPS 46-3 key schedule) |
| DesHelper.LastRoundKeyUnrotated | src/ciphers/des/des_cipher_helper.py:116-165 | the sixteenth round key is PC-2 of the unrotated PC-1 output |
| DesConst.PermutationsInverse | src/ciphers/des/des_cipher.py:84 | the final permutation table inverts the initial one, entry by entry, both ways |
| DesConst.SBoxShape | src/ciphers/des/des_cipher.py:63 | eight boxes of 4 × 16 entries, each entry in 0..15 |
| DesCipher.SBox | src/ciphers/des/des_cipher.py:60-64 | a box succeeds exactly when its six bits exist and are bits; the row is 2·x[6k] + x[6k+5], the column is the value of x[6k+1..6k+4], and the 4-bit output's value is the table entry |
| DesCipher.SBoxes | src/ciphers/des/des_cipher.py:59-64 | the S-box stage succeeds exactly on at least 48 bits and yields 32 bits |
| DesCipher.SBoxesNibble | src/ciphers/des/des_cipher.py:59-64 | nibble j of the S-box stage is the output of box j |
| DesCipher.RoundFunction | src/ciphers/des/des_cipher.py:53-67 | f(R, K) succeeds exactly when R has at least 32 bits and K at least 48, and then yields 32 bits |
| DesCipher.Rounds | src/ciphers/des/des_cipher.py:48-78 | on 32-bit halves and sixteen 48-bit keys the rounds succeed and keep 32-bit halves |
| DesCipher.RoundsIsLadder | src/ciphers/des/des_cipher.py:51-75 | round i uses round_keys_binary[i]; rounds 1-15 swap and round 16 does not |
| Feistel.RoundInverse | src/ciphers/des/des_cipher.py:70-75 | a round applied to its swapped output gives back the swapped input |
| Feistel.NetworkInverse | src/ciphers/des/des_cipher.py:51-75 | the swapping rounds with the keys reversed, run on the swapped output, give back the swapped input |
| Feistel.LadderIsNetworkThenSwap | src/ciphers/des/des_cipher.py:74-75 | skipping the last swap is swapping every round and then swapping back |
| Feistel.LadderInverse | src/ciphers/des/des_cipher.py:51-75 | the rounds with the keys reversed undo the rounds, for any width-keeping round function |
| DesCipher.ProcessBlock | src/ciphers/des/des_cipher.py:38-86 | a 64-bit block with usable keys gives 16 hexadecimal digits (hex, not the binary the docstring says) |
| DesCipher.InitialUndoesFinal | src/ciphers/des/des_cipher.py:84 | IP applied to IP^-1 of a 64-bit block gives it back |
| DesCipher.FinalUndoesInitial | src/ciphers/des/des_cipher.py:84 | IP^-1 applied to IP of a 64-bit block gives it back |
| DesCipher.StandardInverse | src/ciphers/des/des_cipher.py:48-86 | FIPS 46-3 enciphering with the keys reversed deciphers |
| DesCipher.ProcessBlockIsStandard | src/ciphers/des/des_cipher.py:38-86 | _process_block of IP(x) is the FIPS 46-3 enciphering of x, in hexadecimal |
| DesCipher.CipherWithKeys | src/ciphers/des/des_cipher.py:95-104 | with usable keys, the pipeline succeeds exactly on hexadecimal text of at least 16 digits and yields 16 digits |
| DesCipher.CipherWithKeysIsStandard | src/ciphers/des/des_cipher.py:88-106 | cipher is FIPS 46-3 enciphering of the first 64 bits of the text |
| DesCipher.CipherWithKeysInverse | src/ciphers/des/des_cipher.py:88-126 | the pipeline with reversed key lists undoes the pipeline on the first 16 digits |
| DesCipher.NewDesCipher | src/ciphers/des/des_cipher.py:11-36 | the key holds each hexadecimal digit once, and the round keys are exactly generate_keys of that key (sixteen 48-bit keys, each beside its hexadecimal form) |
| DesCipher.Cipher | src/ciphers/des/des_cipher.py:88-106 | succeeds exactly on hexadecimal plaintext of at least 16 digits |
| DesCipher.Decipher | src/ciphers/des/des_cipher.py:108-126 | succeeds exactly on hexadecimal ciphertext of at least 16 digits |
| Python.Reversed | src/ciphers/des/des_cipher.py:115-116 | `[::-1]` keeps the length and puts element len-1-i at i |
| Python.ReversedReversed | src/ciphers/des/des_cipher.py:115-116 | reversing twice gives the list back: decipher reads a reversed copy, and the keys cipher reads stay in generation order |
| DesCipher.DecipherInvertsCipher | src/ciphers/des/des_cipher.py:88-126 | decipher(cipher(p)) == p[:16] for every hexadecimal p of at least 16 digits |
| DesCipher.CipherInvertsDecipher | src/ciphers/des/des_cipher.py:88-126 | cipher(decipher(c)) == c[:16] as well |
| DesCipher.NewDesCipherRoundTrip | src/ciphers/des/des_cipher.py:11-126 | every freshly constructed instance deciphers what it enciphers |
| DesCipher.CipherReadsFirst16Digits | src/ciphers/des/des_cipher.py:97-100 | digits past the sixteenth do not change the ciphertext |
| NltkUtil.NgramsFrom | src/util/nltk_util.py:39-41 | the generator run from position i yields only windows of length n without whitespace |
| NltkUtil.Ngrams | src/util/nltk_util.py:38-41 | every n-gram yielded has length n and no whitespace; at most max(0, len - n + 1) are yielded |
| NltkUtil.NgramsAreFilteredWindows | nltk_util.py:34-37 | the generator yields exactly the whitespace-free windows text[i:i+n], in ascending order of i (src/util/nltk_util.py:38-41 is the same generator) |
| NltkUtil.FilterCount | src/util/nltk_util.py:40 | skipping whitespace windows keeps the count of a whitespace-free string and zeroes the others |
| NltkUtil.NgramsOfTextWithoutSpace | nltk_util.py:35-36 | in a text without whitespace every window is yielded, so the count reaches len - n + 1 |
| NltkUtil.NgramCount | src/util/nltk_util.py:38-41 | the count of g among the n-grams is the number of windows equal to g, or 0 if g holds whitespace |
| NltkUtil.Lower | src/util/nltk_util.py:27 | lowercasing maps each capital to its small letter and leaves every other character |
| NltkUtil.Unigrams | src/util/nltk_util.py:27 | the list comprehension yields one one-character key per character of the text, whitespace included, and no key is a capital |
| NltkUtil.UnigramCount | nltk_util.py:22-30 | unigrams are keyed by lowercased character: the count of a small letter adds its capital's occurrences; capitals never appear; other characters, whitespace included, count themselves (src/util/nltk_util.py:26-34 is the same code) |
| NltkUtil.CalculateNgramFreq | src/util/nltk_util.py:25-34 | UnboundLocalError exactly for a type other than unigrams/bigrams/trigrams; unigram counts total len(text); bigrams and trigrams have length 2 or 3 and no whitespace |
| NltkUtil.NgramFreqCount | src/util/nltk_util.py:28-34 | the bigram and trigram frequency of g is the number of whitespace-free windows equal to g, not lowercased |

## Left out

- The `print` calls of `_process_block`, `cipher` and `decipher` and the demo run at import (src/ciphers/des/des_cipher.py:77-78, 101, 121, 129-139) are I/O. The conversions they make on the way are modelled, because they can raise.
- `random.shuffle` is not modelled as randomness. Its draws are the `picks` parameter, one draw per Fisher-Yates step, so the model covers every order the shuffle can produce.
- The contents of `const.py` are not part of this model. The tables (IP, IP^-1, E, P, S1-S8, PC-1, PC-2, the shift schedule) are taken from FIPS PUB 46-3. The hexadecimal mappings are the sixteen upper-case digits `0-9A-F` and their 4-bit strings. Lower-case digits therefore raise KeyError here.
- DesHelper.BinToDec: models `bin_to_dec(int(s))` only for the strings the S-box stage passes, not `int` on arbitrary input. Signs, underscores and surrounding whitespace never arise there.
- NltkUtil.Lower: lowercases only ASCII capitals. The Unicode case mappings of `str.lower` (for example 'Ä' or the Greek capitals) are not modelled.
- NltkUtil.IsSpace lists the characters `str.isspace` accepts. It stands for `\s`, which matches the same set for `str` patterns.
- NltkUtil.Ngrams takes n as a natural number. A negative n never reaches the code, which calls it with 2 and 3 only.
- NltkUtil.CalculateNgramFreq: `type` is modelled as a string only.
- `NgramAnalyzer`, `get_long_text`, `download_resource` and the `Language` enum are left out. They are corpus access, network and disk.
- No known-answer test vector for DES is proved. The model proves agreement with the FIPS 46-3 computation and the round trip instead.
- Where the docstrings and the code disagree, the model follows the code:
  - `cipher` and `decipher` return hexadecimal, not the binary their docstrings claim;
  - a key or text longer than sixteen digits is accepted, and only its first 64 bits are read;
  - fewer than sixteen digits raises IndexError in PC-1 or IP.
