/**
 The n-gram utilities of `nltk_util.py` (both copies define `ngrams` and
 `calculate_ngram_freq` identically): sliding windows over a text that skip
 the windows holding whitespace, and frequency counts of them, where a
 Counter is a multiset.
 */
module NltkUtil {
  import opened Python

  /**
   The characters `\s` matches in a str pattern (those for which
   str.isspace() holds): the ASCII separators \t \n \v \f \r and space,
   the information separators U+001C to U+001F, and the Unicode spaces.
   */
  predicate IsSpace(c: char) {
    || c == ' '
    || '\t' <= c <= '\r'
    || '\U{1C}' <= c <= '\U{1F}'
    || c == '\U{85}' || c == '\U{A0}' || c == '\U{1680}'
    || '\U{2000}' <= c <= '\U{200A}'
    || c == '\U{2028}' || c == '\U{2029}' || c == '\U{202F}' || c == '\U{205F}' || c == '\U{3000}'
  }

  /** `re.search(r'\s', s)` finds nothing. */
  predicate NoSpace(s: string) {
    forall i | 0 <= i < |s| :: !IsSpace(s[i])
  }

  predicate IsUpper(c: char) {
    'A' <= c <= 'Z'
  }

  predicate IsLower(c: char) {
    'a' <= c <= 'z'
  }

  /** str.lower on one character, for the ASCII letters. */
  function Lower(c: char): (r: char)
    ensures !IsUpper(r)
    ensures IsUpper(c) ==> IsLower(r) && r as int == c as int + 32
    ensures !IsUpper(c) ==> r == c
  {
    if IsUpper(c) then (c as int + 32) as char else c
  }

  /* ---------------------------------------------------------------------- */
  /* ngrams                                                                  */
  /* ---------------------------------------------------------------------- */

  /** How many times the loop of `ngrams` runs: len(range(len(text) - n + 1)). */
  function WindowCount(n: nat, text: string): nat {
    if n <= |text| + 1 then |text| - n + 1 else 0
  }

  /** Every window `text[i:i+n]`, in ascending order of i. */
  function Windows(n: nat, text: string): (r: seq<string>)
    ensures |r| == WindowCount(n, text)
    ensures forall i | 0 <= i < |r| :: i + n <= |text| && r[i] == text[i..i + n]
  {
    seq(WindowCount(n, text), i requires 0 <= i < WindowCount(n, text) => text[i..i + n])
  }

  /** The elements of `ws` that hold no whitespace, in their order. */
  function Filter(ws: seq<string>): (r: seq<string>)
    ensures |r| <= |ws|
    ensures forall k | 0 <= k < |r| :: r[k] in ws && NoSpace(r[k])
  {
    if |ws| == 0 then [] else (if NoSpace(ws[0]) then [ws[0]] else []) + Filter(ws[1..])
  }

  /**
   `list(ngrams(n, text))`: the generator run from position i on. Every
   window it yields has length n and no whitespace.
   */
  function NgramsFrom(n: nat, text: string, i: nat): (r: seq<string>)
    ensures forall k | 0 <= k < |r| :: |r[k]| == n && NoSpace(r[k])
    decreases |text| + 1 - i
  {
    if |text| < i + n then
      []
    else
      var window := text[i..i + n];
      (if NoSpace(window) then [window] else []) + NgramsFrom(n, text, i + 1)
  }

  /** `list(ngrams(n, text))`. */
  function Ngrams(n: nat, text: string): (r: seq<string>)
    ensures forall k | 0 <= k < |r| :: |r[k]| == n && NoSpace(r[k])
    ensures |r| <= WindowCount(n, text)
  {
    NgramsAreFilteredWindows(n, text);
    NgramsFrom(n, text, 0)
  }

  /**
   The generator yields exactly the whitespace-free windows, in ascending
   order of their start.
   */
  lemma NgramsAreFilteredWindows(n: nat, text: string)
    ensures NgramsFrom(n, text, 0) == Filter(Windows(n, text))
  {
    NgramsFromFiltered(n, text, 0);
    assert Windows(n, text)[0..] == Windows(n, text);
  }

  lemma {:induction false} NgramsFromFiltered(n: nat, text: string, i: nat)
    requires i <= WindowCount(n, text)
    ensures NgramsFrom(n, text, i) == Filter(Windows(n, text)[i..])
    decreases WindowCount(n, text) - i
  {
    var ws := Windows(n, text);
    if i < WindowCount(n, text) {
      NgramsFromFiltered(n, text, i + 1);
      assert ws[i..][1..] == ws[i + 1..];
    }
  }

  /** The count of g among the kept elements is its count in `ws` when g holds no whitespace, and 0 otherwise. */
  lemma {:induction false} FilterCount(ws: seq<string>, g: string)
    ensures multiset(Filter(ws))[g] == if NoSpace(g) then multiset(ws)[g] else 0
  {
    if |ws| > 0 {
      FilterCount(ws[1..], g);
      assert ws == [ws[0]] + ws[1..];
    }
  }

  /** Nothing is dropped from a list none of whose elements holds whitespace. */
  lemma {:induction false} FilterKeepsAll(ws: seq<string>)
    requires forall k | 0 <= k < |ws| :: NoSpace(ws[k])
    ensures Filter(ws) == ws
  {
    if |ws| > 0 {
      FilterKeepsAll(ws[1..]);
    }
  }

  /** In a text without whitespace every window is an n-gram: the count reaches len(text) - n + 1. */
  lemma NgramsOfTextWithoutSpace(n: nat, text: string)
    requires NoSpace(text)
    ensures Ngrams(n, text) == Windows(n, text)
    ensures |Ngrams(n, text)| == WindowCount(n, text)
  {
    var ws := Windows(n, text);
    forall k | 0 <= k < |ws|
      ensures NoSpace(ws[k])
    {
      assert forall j | 0 <= j < n :: ws[k][j] == text[k + j];
    }
    FilterKeepsAll(ws);
    NgramsAreFilteredWindows(n, text);
  }

  /**
   The frequency of g among the n-grams is the number of windows equal to
   g when g holds no whitespace, and 0 when it does.
   */
  lemma NgramCount(n: nat, text: string, g: string)
    ensures multiset(Ngrams(n, text))[g] == if NoSpace(g) then multiset(Windows(n, text))[g] else 0
  {
    NgramsAreFilteredWindows(n, text);
    FilterCount(Windows(n, text), g);
  }

  /* ---------------------------------------------------------------------- */
  /* calculate_ngram_freq                                                    */
  /* ---------------------------------------------------------------------- */

  /** `[letter.lower() for letter in text]`. */
  function Unigrams(text: string): (r: seq<string>)
    ensures |r| == |text|
    ensures forall k | 0 <= k < |r| :: |r[k]| == 1 && !IsUpper(r[k][0])
  {
    seq(|text|, i requires 0 <= i < |text| => [Lower(text[i])])
  }

  /**
   The count of a one-character key [c]: a lower-case letter counts both its
   own occurrences and those of its capital, a capital never appears as a
   key, and every other character counts its own occurrences.
   */
  lemma {:induction false} UnigramCount(text: string, c: char)
    ensures multiset(Unigrams(text))[[c]] ==
      if IsLower(c) then multiset(text)[c] + multiset(text)[(c as int - 32) as char]
      else if IsUpper(c) then 0
      else multiset(text)[c]
    decreases |text|
  {
    if |text| > 0 {
      var init, last := text[..|text| - 1], text[|text| - 1];
      UnigramCount(init, c);
      UnigramsSnoc(init, last);
      LowerMatches(last, c);
      assert text == init + [last];
    }
  }

  /** The last character adds its lowercased unigram. */
  lemma UnigramsSnoc(init: string, last: char)
    ensures multiset(Unigrams(init + [last])) == multiset(Unigrams(init)) + multiset{[Lower(last)]}
  {
    assert Unigrams(init + [last]) == Unigrams(init) + [[Lower(last)]];
  }

  /** Which characters lowercase to c. */
  lemma LowerMatches(d: char, c: char)
    ensures [Lower(d)] == [c] <==>
      if IsLower(c) then d == c || d == (c as int - 32) as char
      else if IsUpper(c) then false
      else d == c
  {
  }

  /**
   `calculate_ngram_freq(text, type)`: the Counter of the unigrams, bigrams
   or trigrams of the text. Any other type leaves `ngrams_list` unbound, so
   reading it raises UnboundLocalError.
   */
  function CalculateNgramFreq(text: string, kind: string): (r: Result<multiset<string>>)
    ensures r.Success? <==> kind == "unigrams" || kind == "bigrams" || kind == "trigrams"
    ensures r.Failure? ==> r.error == UnboundLocalError
    ensures kind == "unigrams" ==> |r.value| == |text|
    ensures kind == "bigrams" ==> forall g | g in r.value :: |g| == 2 && NoSpace(g)
    ensures kind == "trigrams" ==> forall g | g in r.value :: |g| == 3 && NoSpace(g)
  {
    if kind == "unigrams" then
      Success(multiset(Unigrams(text)))
    else if kind == "bigrams" then
      Success(multiset(Ngrams(2, text)))
    else if kind == "trigrams" then
      Success(multiset(Ngrams(3, text)))
    else
      Failure(UnboundLocalError)
  }

  /**
   For bigrams and trigrams the frequency of g is the number of
   whitespace-free windows equal to g; the windows are not lowercased.
   */
  lemma NgramFreqCount(text: string, n: nat, g: string)
    requires n == 2 || n == 3
    ensures var r := CalculateNgramFreq(text, if n == 2 then "bigrams" else "trigrams");
      r.Success? && r.value[g] == if NoSpace(g) then multiset(Windows(n, text))[g] else 0
  {
    NgramCount(n, text, g);
  }
}
