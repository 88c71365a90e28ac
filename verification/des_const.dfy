/**
 Constant tables of the Data Encryption Standard (FIPS PUB 46-3) and the 4-bit
 hexadecimal mappings used by the DES helpers. Each permutation table is a list of
 1-based bit positions. Every table is written entry by entry as a function of its
 index and exposed as the sequence the DES code indexes, so that facts about all
 entries are decided by case analysis.
 */
module DesConst {

  import opened Bits

  /** IP: the initial permutation of the 64 block bits. */
  function InitialPermutationAt(i: int): int {
    match i
    case 0 => 58 case 1 => 50 case 2 => 42 case 3 => 34 case 4 => 26 case 5 => 18 case 6 => 10 case 7 => 2 case 8 => 60 case 9 => 52 case 10 => 44 case 11 => 36 case 12 => 28 case 13 => 20 case 14 => 12 case 15 => 4
    case 16 => 62 case 17 => 54 case 18 => 46 case 19 => 38 case 20 => 30 case 21 => 22 case 22 => 14 case 23 => 6 case 24 => 64 case 25 => 56 case 26 => 48 case 27 => 40 case 28 => 32 case 29 => 24 case 30 => 16 case 31 => 8
    case 32 => 57 case 33 => 49 case 34 => 41 case 35 => 33 case 36 => 25 case 37 => 17 case 38 => 9 case 39 => 1 case 40 => 59 case 41 => 51 case 42 => 43 case 43 => 35 case 44 => 27 case 45 => 19 case 46 => 11 case 47 => 3
    case 48 => 61 case 49 => 53 case 50 => 45 case 51 => 37 case 52 => 29 case 53 => 21 case 54 => 13 case 55 => 5 case 56 => 63 case 57 => 55 case 58 => 47 case 59 => 39 case 60 => 31 case 61 => 23 case 62 => 15 case 63 => 7
    case _ => 0
  }

  function InitialPermutationTable(): seq<int> { seq(64, InitialPermutationAt) }

  /** IP^-1: the final permutation, the inverse of IP. */
  function FinalPermutationAt(i: int): int {
    match i
    case 0 => 40 case 1 => 8 case 2 => 48 case 3 => 16 case 4 => 56 case 5 => 24 case 6 => 64 case 7 => 32 case 8 => 39 case 9 => 7 case 10 => 47 case 11 => 15 case 12 => 55 case 13 => 23 case 14 => 63 case 15 => 31
    case 16 => 38 case 17 => 6 case 18 => 46 case 19 => 14 case 20 => 54 case 21 => 22 case 22 => 62 case 23 => 30 case 24 => 37 case 25 => 5 case 26 => 45 case 27 => 13 case 28 => 53 case 29 => 21 case 30 => 61 case 31 => 29
    case 32 => 36 case 33 => 4 case 34 => 44 case 35 => 12 case 36 => 52 case 37 => 20 case 38 => 60 case 39 => 28 case 40 => 35 case 41 => 3 case 42 => 43 case 43 => 11 case 44 => 51 case 45 => 19 case 46 => 59 case 47 => 27
    case 48 => 34 case 49 => 2 case 50 => 42 case 51 => 10 case 52 => 50 case 53 => 18 case 54 => 58 case 55 => 26 case 56 => 33 case 57 => 1 case 58 => 41 case 59 => 9 case 60 => 49 case 61 => 17 case 62 => 57 case 63 => 25
    case _ => 0
  }

  function FinalPermutationTable(): seq<int> { seq(64, FinalPermutationAt) }

  /** E: the expansion of a 32-bit half block to 48 bits. */
  function ExpansionAt(i: int): int {
    match i
    case 0 => 32 case 1 => 1 case 2 => 2 case 3 => 3 case 4 => 4 case 5 => 5 case 6 => 4 case 7 => 5 case 8 => 6 case 9 => 7 case 10 => 8 case 11 => 9 case 12 => 8 case 13 => 9 case 14 => 10 case 15 => 11
    case 16 => 12 case 17 => 13 case 18 => 12 case 19 => 13 case 20 => 14 case 21 => 15 case 22 => 16 case 23 => 17 case 24 => 16 case 25 => 17 case 26 => 18 case 27 => 19 case 28 => 20 case 29 => 21 case 30 => 20 case 31 => 21
    case 32 => 22 case 33 => 23 case 34 => 24 case 35 => 25 case 36 => 24 case 37 => 25 case 38 => 26 case 39 => 27 case 40 => 28 case 41 => 29 case 42 => 28 case 43 => 29 case 44 => 30 case 45 => 31 case 46 => 32 case 47 => 1
    case _ => 0
  }

  function ExpansionDBoxTable(): seq<int> { seq(48, ExpansionAt) }

  /** P: the permutation applied to the 32 S-box output bits. */
  function StraightPermutationAt(i: int): int {
    match i
    case 0 => 16 case 1 => 7 case 2 => 20 case 3 => 21 case 4 => 29 case 5 => 12 case 6 => 28 case 7 => 17 case 8 => 1 case 9 => 15 case 10 => 23 case 11 => 26 case 12 => 5 case 13 => 18 case 14 => 31 case 15 => 10
    case 16 => 2 case 17 => 8 case 18 => 24 case 19 => 14 case 20 => 32 case 21 => 27 case 22 => 3 case 23 => 9 case 24 => 19 case 25 => 13 case 26 => 30 case 27 => 6 case 28 => 22 case 29 => 11 case 30 => 4 case 31 => 25
    case _ => 0
  }

  function StraightPermutationTable(): seq<int> { seq(32, StraightPermutationAt) }

  /** PC-1: selects the 56 non-parity bits of the 64-bit key. */
  function KeyPermutationAt(i: int): int {
    match i
    case 0 => 57 case 1 => 49 case 2 => 41 case 3 => 33 case 4 => 25 case 5 => 17 case 6 => 9 case 7 => 1 case 8 => 58 case 9 => 50 case 10 => 42 case 11 => 34 case 12 => 26 case 13 => 18 case 14 => 10 case 15 => 2
    case 16 => 59 case 17 => 51 case 18 => 43 case 19 => 35 case 20 => 27 case 21 => 19 case 22 => 11 case 23 => 3 case 24 => 60 case 25 => 52 case 26 => 44 case 27 => 36 case 28 => 63 case 29 => 55 case 30 => 47 case 31 => 39
    case 32 => 31 case 33 => 23 case 34 => 15 case 35 => 7 case 36 => 62 case 37 => 54 case 38 => 46 case 39 => 38 case 40 => 30 case 41 => 22 case 42 => 14 case 43 => 6 case 44 => 61 case 45 => 53 case 46 => 45 case 47 => 37
    case 48 => 29 case 49 => 21 case 50 => 13 case 51 => 5 case 52 => 28 case 53 => 20 case 54 => 12 case 55 => 4
    case _ => 0
  }

  function KeyPermutationTable(): seq<int> { seq(56, KeyPermutationAt) }

  /** PC-2: compresses the 56 rotated key bits to a 48-bit round key. */
  function KeyCompressionAt(i: int): int {
    match i
    case 0 => 14 case 1 => 17 case 2 => 11 case 3 => 24 case 4 => 1 case 5 => 5 case 6 => 3 case 7 => 28 case 8 => 15 case 9 => 6 case 10 => 21 case 11 => 10 case 12 => 23 case 13 => 19 case 14 => 12 case 15 => 4
    case 16 => 26 case 17 => 8 case 18 => 16 case 19 => 7 case 20 => 27 case 21 => 20 case 22 => 13 case 23 => 2 case 24 => 41 case 25 => 52 case 26 => 31 case 27 => 37 case 28 => 47 case 29 => 55 case 30 => 30 case 31 => 40
    case 32 => 51 case 33 => 45 case 34 => 33 case 35 => 48 case 36 => 44 case 37 => 49 case 38 => 39 case 39 => 56 case 40 => 34 case 41 => 53 case 42 => 46 case 43 => 42 case 44 => 50 case 45 => 36 case 46 => 29 case 47 => 32
    case _ => 0
  }

  function KeyCompressionTable(): seq<int> { seq(48, KeyCompressionAt) }

  /** Number of left rotations of each key half in rounds 1 to 16. */
  function KeyShiftTable(): seq<int> { [1, 1, 2, 2, 2, 2, 2, 2, 1, 2, 2, 2, 2, 2, 2, 1] }

  /** S1, row-major: entry 16 * row + column. */
  function S1At(i: int): int {
    match i
    case 0 => 14 case 1 => 4 case 2 => 13 case 3 => 1 case 4 => 2 case 5 => 15 case 6 => 11 case 7 => 8 case 8 => 3 case 9 => 10 case 10 => 6 case 11 => 12 case 12 => 5 case 13 => 9 case 14 => 0 case 15 => 7
    case 16 => 0 case 17 => 15 case 18 => 7 case 19 => 4 case 20 => 14 case 21 => 2 case 22 => 13 case 23 => 1 case 24 => 10 case 25 => 6 case 26 => 12 case 27 => 11 case 28 => 9 case 29 => 5 case 30 => 3 case 31 => 8
    case 32 => 4 case 33 => 1 case 34 => 14 case 35 => 8 case 36 => 13 case 37 => 6 case 38 => 2 case 39 => 11 case 40 => 15 case 41 => 12 case 42 => 9 case 43 => 7 case 44 => 3 case 45 => 10 case 46 => 5 case 47 => 0
    case 48 => 15 case 49 => 12 case 50 => 8 case 51 => 2 case 52 => 4 case 53 => 9 case 54 => 1 case 55 => 7 case 56 => 5 case 57 => 11 case 58 => 3 case 59 => 14 case 60 => 10 case 61 => 0 case 62 => 6 case 63 => 13
    case _ => 0
  }

  /** S2, row-major: entry 16 * row + column. */
  function S2At(i: int): int {
    match i
    case 0 => 15 case 1 => 1 case 2 => 8 case 3 => 14 case 4 => 6 case 5 => 11 case 6 => 3 case 7 => 4 case 8 => 9 case 9 => 7 case 10 => 2 case 11 => 13 case 12 => 12 case 13 => 0 case 14 => 5 case 15 => 10
    case 16 => 3 case 17 => 13 case 18 => 4 case 19 => 7 case 20 => 15 case 21 => 2 case 22 => 8 case 23 => 14 case 24 => 12 case 25 => 0 case 26 => 1 case 27 => 10 case 28 => 6 case 29 => 9 case 30 => 11 case 31 => 5
    case 32 => 0 case 33 => 14 case 34 => 7 case 35 => 11 case 36 => 10 case 37 => 4 case 38 => 13 case 39 => 1 case 40 => 5 case 41 => 8 case 42 => 12 case 43 => 6 case 44 => 9 case 45 => 3 case 46 => 2 case 47 => 15
    case 48 => 13 case 49 => 8 case 50 => 10 case 51 => 1 case 52 => 3 case 53 => 15 case 54 => 4 case 55 => 2 case 56 => 11 case 57 => 6 case 58 => 7 case 59 => 12 case 60 => 0 case 61 => 5 case 62 => 14 case 63 => 9
    case _ => 0
  }

  /** S3, row-major: entry 16 * row + column. */
  function S3At(i: int): int {
    match i
    case 0 => 10 case 1 => 0 case 2 => 9 case 3 => 14 case 4 => 6 case 5 => 3 case 6 => 15 case 7 => 5 case 8 => 1 case 9 => 13 case 10 => 12 case 11 => 7 case 12 => 11 case 13 => 4 case 14 => 2 case 15 => 8
    case 16 => 13 case 17 => 7 case 18 => 0 case 19 => 9 case 20 => 3 case 21 => 4 case 22 => 6 case 23 => 10 case 24 => 2 case 25 => 8 case 26 => 5 case 27 => 14 case 28 => 12 case 29 => 11 case 30 => 15 case 31 => 1
    case 32 => 13 case 33 => 6 case 34 => 4 case 35 => 9 case 36 => 8 case 37 => 15 case 38 => 3 case 39 => 0 case 40 => 11 case 41 => 1 case 42 => 2 case 43 => 12 case 44 => 5 case 45 => 10 case 46 => 14 case 47 => 7
    case 48 => 1 case 49 => 10 case 50 => 13 case 51 => 0 case 52 => 6 case 53 => 9 case 54 => 8 case 55 => 7 case 56 => 4 case 57 => 15 case 58 => 14 case 59 => 3 case 60 => 11 case 61 => 5 case 62 => 2 case 63 => 12
    case _ => 0
  }

  /** S4, row-major: entry 16 * row + column. */
  function S4At(i: int): int {
    match i
    case 0 => 7 case 1 => 13 case 2 => 14 case 3 => 3 case 4 => 0 case 5 => 6 case 6 => 9 case 7 => 10 case 8 => 1 case 9 => 2 case 10 => 8 case 11 => 5 case 12 => 11 case 13 => 12 case 14 => 4 case 15 => 15
    case 16 => 13 case 17 => 8 case 18 => 11 case 19 => 5 case 20 => 6 case 21 => 15 case 22 => 0 case 23 => 3 case 24 => 4 case 25 => 7 case 26 => 2 case 27 => 12 case 28 => 1 case 29 => 10 case 30 => 14 case 31 => 9
    case 32 => 10 case 33 => 6 case 34 => 9 case 35 => 0 case 36 => 12 case 37 => 11 case 38 => 7 case 39 => 13 case 40 => 15 case 41 => 1 case 42 => 3 case 43 => 14 case 44 => 5 case 45 => 2 case 46 => 8 case 47 => 4
    case 48 => 3 case 49 => 15 case 50 => 0 case 51 => 6 case 52 => 10 case 53 => 1 case 54 => 13 case 55 => 8 case 56 => 9 case 57 => 4 case 58 => 5 case 59 => 11 case 60 => 12 case 61 => 7 case 62 => 2 case 63 => 14
    case _ => 0
  }

  /** S5, row-major: entry 16 * row + column. */
  function S5At(i: int): int {
    match i
    case 0 => 2 case 1 => 12 case 2 => 4 case 3 => 1 case 4 => 7 case 5 => 10 case 6 => 11 case 7 => 6 case 8 => 8 case 9 => 5 case 10 => 3 case 11 => 15 case 12 => 13 case 13 => 0 case 14 => 14 case 15 => 9
    case 16 => 14 case 17 => 11 case 18 => 2 case 19 => 12 case 20 => 4 case 21 => 7 case 22 => 13 case 23 => 1 case 24 => 5 case 25 => 0 case 26 => 15 case 27 => 10 case 28 => 3 case 29 => 9 case 30 => 8 case 31 => 6
    case 32 => 4 case 33 => 2 case 34 => 1 case 35 => 11 case 36 => 10 case 37 => 13 case 38 => 7 case 39 => 8 case 40 => 15 case 41 => 9 case 42 => 12 case 43 => 5 case 44 => 6 case 45 => 3 case 46 => 0 case 47 => 14
    case 48 => 11 case 49 => 8 case 50 => 12 case 51 => 7 case 52 => 1 case 53 => 14 case 54 => 2 case 55 => 13 case 56 => 6 case 57 => 15 case 58 => 0 case 59 => 9 case 60 => 10 case 61 => 4 case 62 => 5 case 63 => 3
    case _ => 0
  }

  /** S6, row-major: entry 16 * row + column. */
  function S6At(i: int): int {
    match i
    case 0 => 12 case 1 => 1 case 2 => 10 case 3 => 15 case 4 => 9 case 5 => 2 case 6 => 6 case 7 => 8 case 8 => 0 case 9 => 13 case 10 => 3 case 11 => 4 case 12 => 14 case 13 => 7 case 14 => 5 case 15 => 11
    case 16 => 10 case 17 => 15 case 18 => 4 case 19 => 2 case 20 => 7 case 21 => 12 case 22 => 9 case 23 => 5 case 24 => 6 case 25 => 1 case 26 => 13 case 27 => 14 case 28 => 0 case 29 => 11 case 30 => 3 case 31 => 8
    case 32 => 9 case 33 => 14 case 34 => 15 case 35 => 5 case 36 => 2 case 37 => 8 case 38 => 12 case 39 => 3 case 40 => 7 case 41 => 0 case 42 => 4 case 43 => 10 case 44 => 1 case 45 => 13 case 46 => 11 case 47 => 6
    case 48 => 4 case 49 => 3 case 50 => 2 case 51 => 12 case 52 => 9 case 53 => 5 case 54 => 15 case 55 => 10 case 56 => 11 case 57 => 14 case 58 => 1 case 59 => 7 case 60 => 6 case 61 => 0 case 62 => 8 case 63 => 13
    case _ => 0
  }

  /** S7, row-major: entry 16 * row + column. */
  function S7At(i: int): int {
    match i
    case 0 => 4 case 1 => 11 case 2 => 2 case 3 => 14 case 4 => 15 case 5 => 0 case 6 => 8 case 7 => 13 case 8 => 3 case 9 => 12 case 10 => 9 case 11 => 7 case 12 => 5 case 13 => 10 case 14 => 6 case 15 => 1
    case 16 => 13 case 17 => 0 case 18 => 11 case 19 => 7 case 20 => 4 case 21 => 9 case 22 => 1 case 23 => 10 case 24 => 14 case 25 => 3 case 26 => 5 case 27 => 12 case 28 => 2 case 29 => 15 case 30 => 8 case 31 => 6
    case 32 => 1 case 33 => 4 case 34 => 11 case 35 => 13 case 36 => 12 case 37 => 3 case 38 => 7 case 39 => 14 case 40 => 10 case 41 => 15 case 42 => 6 case 43 => 8 case 44 => 0 case 45 => 5 case 46 => 9 case 47 => 2
    case 48 => 6 case 49 => 11 case 50 => 13 case 51 => 8 case 52 => 1 case 53 => 4 case 54 => 10 case 55 => 7 case 56 => 9 case 57 => 5 case 58 => 0 case 59 => 15 case 60 => 14 case 61 => 2 case 62 => 3 case 63 => 12
    case _ => 0
  }

  /** S8, row-major: entry 16 * row + column. */
  function S8At(i: int): int {
    match i
    case 0 => 13 case 1 => 2 case 2 => 8 case 3 => 4 case 4 => 6 case 5 => 15 case 6 => 11 case 7 => 1 case 8 => 10 case 9 => 9 case 10 => 3 case 11 => 14 case 12 => 5 case 13 => 0 case 14 => 12 case 15 => 7
    case 16 => 1 case 17 => 15 case 18 => 13 case 19 => 8 case 20 => 10 case 21 => 3 case 22 => 7 case 23 => 4 case 24 => 12 case 25 => 5 case 26 => 6 case 27 => 11 case 28 => 0 case 29 => 14 case 30 => 9 case 31 => 2
    case 32 => 7 case 33 => 11 case 34 => 4 case 35 => 1 case 36 => 9 case 37 => 12 case 38 => 14 case 39 => 2 case 40 => 0 case 41 => 6 case 42 => 10 case 43 => 13 case 44 => 15 case 45 => 3 case 46 => 5 case 47 => 8
    case 48 => 2 case 49 => 1 case 50 => 14 case 51 => 7 case 52 => 4 case 53 => 10 case 54 => 8 case 55 => 13 case 56 => 15 case 57 => 12 case 58 => 9 case 59 => 0 case 60 => 3 case 61 => 5 case 62 => 6 case 63 => 11
    case _ => 0
  }

  /** Entry (row, column) of S-box `box`, counting boxes from 0. */
  function SBoxAt(box: int, row: int, col: int): int {
    var cell := 16 * row + col;
    match box
    case 0 => S1At(cell) case 1 => S2At(cell) case 2 => S3At(cell) case 3 => S4At(cell)
    case 4 => S5At(cell) case 5 => S6At(cell) case 6 => S7At(cell) case 7 => S8At(cell)
    case _ => 0
  }

  /** The eight S-boxes, each 4 rows of 16 columns. */
  function SBoxTable(): seq<seq<seq<int>>> {
    seq(8, box => seq(4, row => seq(16, col => SBoxAt(box, row, col))))
  }

  /** Each upper-case hexadecimal digit to its 4-bit big-endian binary string. */
  const HexToBinMapping: map<char, string> := map[
    '0' := "0000", '1' := "0001", '2' := "0010", '3' := "0011",
    '4' := "0100", '5' := "0101", '6' := "0110", '7' := "0111",
    '8' := "1000", '9' := "1001", 'A' := "1010", 'B' := "1011",
    'C' := "1100", 'D' := "1101", 'E' := "1110", 'F' := "1111"
  ]

  /** The inverse of HexToBinMapping. */
  const BinToHexMapping: map<string, char> := map[
    "0000" := '0', "0001" := '1', "0010" := '2', "0011" := '3',
    "0100" := '4', "0101" := '5', "0110" := '6', "0111" := '7',
    "1000" := '8', "1001" := '9', "1010" := 'A', "1011" := 'B',
    "1100" := 'C', "1101" := 'D', "1110" := 'E', "1111" := 'F'
  ]

  /** Every entry of `t` lies in lo..hi. */
  ghost predicate EntriesIn(t: seq<int>, lo: int, hi: int) {
    forall i | 0 <= i < |t| :: lo <= t[i] <= hi
  }

  /** An upper-case hexadecimal digit, the keys of HexToBinMapping. */
  predicate IsHexDigit(c: char) {
    '0' <= c <= '9' || 'A' <= c <= 'F'
  }

  lemma InitialPermutationShape()
    ensures |InitialPermutationTable()| == 64 && EntriesIn(InitialPermutationTable(), 1, 64)
    ensures InitialPermutationTable()[24] == 64
  {
  }

  lemma FinalPermutationShape()
    ensures |FinalPermutationTable()| == 64 && EntriesIn(FinalPermutationTable(), 1, 64)
    ensures FinalPermutationTable()[6] == 64
  {
  }

  lemma InitialUndoesFinalAt()
    ensures forall i | 0 <= i < 64 :: InitialPermutationAt(FinalPermutationAt(i) - 1) == i + 1
  {
    InitialUndoesFinalAtLow();
    InitialUndoesFinalAtHigh();
  }

  lemma InitialUndoesFinalAtLow()
    ensures forall i | 0 <= i < 32 :: InitialPermutationAt(FinalPermutationAt(i) - 1) == i + 1
  {
  }

  lemma InitialUndoesFinalAtHigh()
    ensures forall i | 32 <= i < 64 :: InitialPermutationAt(FinalPermutationAt(i) - 1) == i + 1
  {
  }

  lemma FinalUndoesInitialAt()
    ensures forall i | 0 <= i < 64 :: FinalPermutationAt(InitialPermutationAt(i) - 1) == i + 1
  {
    FinalUndoesInitialAtLow();
    FinalUndoesInitialAtHigh();
  }

  lemma FinalUndoesInitialAtLow()
    ensures forall i | 0 <= i < 32 :: FinalPermutationAt(InitialPermutationAt(i) - 1) == i + 1
  {
  }

  lemma FinalUndoesInitialAtHigh()
    ensures forall i | 32 <= i < 64 :: FinalPermutationAt(InitialPermutationAt(i) - 1) == i + 1
  {
  }

  /** IP^-1 undoes IP and IP undoes IP^-1. */
  lemma PermutationsInverse()
    ensures forall i | 0 <= i < 64 :: InitialPermutationTable()[FinalPermutationTable()[i] - 1] == i + 1
    ensures forall i | 0 <= i < 64 :: FinalPermutationTable()[InitialPermutationTable()[i] - 1] == i + 1
  {
    InitialPermutationShape();
    FinalPermutationShape();
    InitialUndoesFinalAt();
    FinalUndoesInitialAt();
  }

  lemma ExpansionShape()
    ensures |ExpansionDBoxTable()| == 48 && EntriesIn(ExpansionDBoxTable(), 1, 32)
    ensures ExpansionDBoxTable()[0] == 32
  {
  }

  lemma StraightPermutationShape()
    ensures |StraightPermutationTable()| == 32 && EntriesIn(StraightPermutationTable(), 1, 32)
  {
  }

  lemma KeyPermutationShape()
    ensures |KeyPermutationTable()| == 56 && EntriesIn(KeyPermutationTable(), 1, 63)
    ensures KeyPermutationTable()[28] == 63
  {
  }

  lemma KeyCompressionShape()
    ensures |KeyCompressionTable()| == 48 && EntriesIn(KeyCompressionTable(), 1, 56)
    ensures KeyCompressionTable()[39] == 56
  {
  }

  /** Sixteen rotations of one or two positions each. */
  lemma KeyShiftShape()
    ensures |KeyShiftTable()| == 16
    ensures forall i | 0 <= i < 16 :: 1 <= KeyShiftTable()[i] <= 2
  {
  }

  /** Eight boxes of 4 rows by 16 columns, every entry a 4-bit value. */
  lemma SBoxShape(box: int, row: int, col: int)
    requires 0 <= box < 8 && 0 <= row < 4 && 0 <= col < 16
    ensures |SBoxTable()| == 8 && |SBoxTable()[box]| == 4 && |SBoxTable()[box][row]| == 16
    ensures SBoxTable()[box][row][col] == SBoxAt(box, row, col)
    ensures 0 <= SBoxAt(box, row, col) <= 15
  {
    var cell := 16 * row + col;
    assert 0 <= cell < 64;
    match box
    case 0 => assert 0 <= S1At(cell) <= 15;
    case 1 => assert 0 <= S2At(cell) <= 15;
    case 2 => assert 0 <= S3At(cell) <= 15;
    case 3 => assert 0 <= S4At(cell) <= 15;
    case 4 => assert 0 <= S5At(cell) <= 15;
    case 5 => assert 0 <= S6At(cell) <= 15;
    case 6 => assert 0 <= S7At(cell) <= 15;
    case 7 => assert 0 <= S8At(cell) <= 15;
  }

  lemma HexToBinMappingDomain()
    ensures forall c :: c in HexToBinMapping <==> IsHexDigit(c)
  {
  }

  lemma HexToBinMappingValues()
    ensures forall c | c in HexToBinMapping :: |HexToBinMapping[c]| == 4 && IsBits(HexToBinMapping[c])
  {
  }

  lemma HexToBinThenBack()
    ensures forall c | c in HexToBinMapping ::
      HexToBinMapping[c] in BinToHexMapping && BinToHexMapping[HexToBinMapping[c]] == c
  {
  }

  lemma BinToHexThenBack()
    ensures forall b | b in BinToHexMapping ::
      |b| == 4 && BinToHexMapping[b] in HexToBinMapping && HexToBinMapping[BinToHexMapping[b]] == b
  {
  }

  lemma BinToHexMappingBits()
    ensures forall b | b in BinToHexMapping :: IsBits(b)
  {
  }

  lemma BinToHexMappingDigits()
    ensures forall b | b in BinToHexMapping :: IsHexDigit(BinToHexMapping[b])
  {
  }

  /** Every 4-bit string is a key of BinToHexMapping. */
  lemma BinToHexMappingTotal(b: string)
    requires |b| == 4 && IsBits(b)
    ensures b in BinToHexMapping
  {
    assert b == [b[0], b[1], b[2], b[3]];
    assert IsBit(b[0]) && IsBit(b[1]) && IsBit(b[2]) && IsBit(b[3]);
    if b[0] == '0' {
      if b[1] == '0' { } else { }
    } else {
      if b[1] == '0' { } else { }
    }
  }
}
