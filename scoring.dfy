/** The answer scorer: `calculateSimilarity(str1, str2)` blends a word-overlap
    ratio (weight 0.7) with an edit-distance ratio (weight 0.3) over the
    normalised answers. Scores are exact rationals. */
module Scoring {
  import opened Text
  import opened Levenshtein
  import opened Maths

  /** The distinct tokens of a word list, as `new Set(words)` holds them. */
  function Distinct(ws: seq<string>): set<string> {
    set w | w in ws
  }

  lemma {:induction false} DistinctBound(ws: seq<string>)
    ensures |Distinct(ws)| <= |ws|
  {
    if ws != [] {
      var last := ws[|ws| - 1];
      var init := ws[..|ws| - 1];
      DistinctBound(init);
      assert ws == init + [last];
      assert Distinct(ws) == Distinct(init) + {last};
    }
  }

  /** The number of distinct tokens present in both word lists. The source
      visits the union of the two lists and counts the tokens found in each,
      so a token repeated on one side still counts once. */
  function CommonWordCount(words1: seq<string>, words2: seq<string>): (n: nat)
    ensures n <= |words1| && n <= |words2|
  {
    DistinctBound(words1);
    DistinctBound(words2);
    var common := Distinct(words1) * Distinct(words2);
    assert common <= Distinct(words1) && common <= Distinct(words2);
    LemmaSubsetCard(common, Distinct(words1));
    LemmaSubsetCard(common, Distinct(words2));
    |common|
  }

  lemma LemmaSubsetCard(a: set<string>, b: set<string>)
    requires a <= b
    ensures |a| <= |b|
  {
    assert b == a + (b - a);
  }

  /** The score the source returns, stated over the normalised answers. */
  function Similarity(str1: string, str2: string): real {
    Blend(Normalize(str1), Normalize(str2))
  }

  /** The score of two already normalised answers. */
  function Blend(text1: string, text2: string): real {
    if text1 == text2 then 1.0
    else
      var words1 := Split(text1);
      var words2 := Split(text2);
      var wordSimilarity := CommonWordCount(words1, words2) as real / Max(|words1|, |words2|) as real;
      var maxLength := Max(|text1|, |text2|);
      if maxLength == 0 then 1.0
      else
        var charSimilarity := 1.0 - EditDistance(text2, text1) as real / maxLength as real;
        wordSimilarity * 0.7 + charSimilarity * 0.3
  }

  lemma RatioInUnit(a: nat, b: nat)
    requires 0 < b && a <= b
    ensures 0.0 <= a as real / b as real <= 1.0
    ensures 0 < a ==> 0.0 < a as real / b as real
  {
  }

  /** The blend of the two ratios stays in [0, 1) once the distance is positive. */
  lemma BlendBelowOne(common: nat, words: nat, distance: nat, maxLength: nat)
    requires 0 < words && common <= words
    requires 0 < distance <= maxLength
    ensures var score := (common as real / words as real) * 0.7 + (1.0 - distance as real / maxLength as real) * 0.3;
      0.0 <= score < 1.0
  {
    RatioInUnit(common, words);
    RatioInUnit(distance, maxLength);
  }

  /** Equal normalised answers score exactly 1; different ones score in [0, 1),
      because the distance between two different texts is at least 1. */
  lemma SimilarityRange(str1: string, str2: string)
    ensures 0.0 <= Similarity(str1, str2) <= 1.0
    ensures Similarity(str1, str2) == 1.0 <==> Normalize(str1) == Normalize(str2)
  {
    BlendRange(Normalize(str1), Normalize(str2));
  }

  lemma BlendRange(text1: string, text2: string)
    ensures 0.0 <= Blend(text1, text2) <= 1.0
    ensures Blend(text1, text2) == 1.0 <==> text1 == text2
  {
    if text1 != text2 {
      var words1 := Split(text1);
      var words2 := Split(text2);
      var maxLength := Max(|text1|, |text2|);
      assert maxLength > 0;
      EditDistanceBounds(text2, text1);
      EditDistanceZeroIff(text2, text1);
      BlendBelowOne(CommonWordCount(words1, words2), Max(|words1|, |words2|), EditDistance(text2, text1), maxLength);
    }
  }

  /** Swapping the user's answer and the stored answer does not change the score. */
  lemma SimilaritySymmetric(str1: string, str2: string)
    ensures Similarity(str1, str2) == Similarity(str2, str1)
  {
    BlendSymmetric(Normalize(str1), Normalize(str2));
  }

  lemma BlendSymmetric(text1: string, text2: string)
    ensures Blend(text1, text2) == Blend(text2, text1)
  {
    EditDistanceSymmetric(text1, text2);
    var words1 := Split(text1);
    var words2 := Split(text2);
    assert Distinct(words1) * Distinct(words2) == Distinct(words2) * Distinct(words1);
    assert CommonWordCount(words1, words2) == CommonWordCount(words2, words1);
  }

  /** The `commonWords` loop: visits each token of the union once, in whatever
      order the set yields them, and counts those present in both lists. */
  method CountCommonWords(words1: seq<string>, words2: seq<string>) returns (commonWords: nat)
    ensures commonWords == CommonWordCount(words1, words2)
  {
    var allWords := Distinct(words1) + Distinct(words2);
    var common := Distinct(words1) * Distinct(words2);
    var remaining := allWords;
    commonWords := 0;
    while remaining != {}
      invariant remaining <= allWords
      invariant commonWords == |(allWords - remaining) * common|
      decreases |remaining|
    {
      var word :| word in remaining;
      assert allWords - (remaining - {word}) == (allWords - remaining) + {word};
      CountStep(allWords - remaining, common, word);
      if word in words1 && word in words2 {
        commonWords := commonWords + 1;
      }
      remaining := remaining - {word};
    }
    assert allWords * common == common;
  }

  /** Visiting one more token adds one to the count exactly when it is common. */
  lemma CountStep(visited: set<string>, common: set<string>, word: string)
    requires word !in visited
    ensures |(visited + {word}) * common| == |visited * common| + (if word in common then 1 else 0)
  {
    if word in common {
      assert (visited + {word}) * common == visited * common + {word};
    } else {
      assert (visited + {word}) * common == visited * common;
    }
  }

  /** `calculateSimilarity(str1, str2)` step by step. */
  method CalculateSimilarity(str1: string, str2: string) returns (score: real)
    ensures score == Similarity(str1, str2)
  {
    var text1 := Normalize(str1);
    var text2 := Normalize(str2);
    score := BlendNormalized(text1, text2);
  }

  /** The part of `calculateSimilarity` after the answers are normalised. */
  method BlendNormalized(text1: string, text2: string) returns (score: real)
    ensures score == Blend(text1, text2)
  {
    if text1 == text2 {
      return 1.0;
    }
    var words1 := Split(text1);
    var words2 := Split(text2);
    var commonWords := CountCommonWords(words1, words2);
    var wordSimilarity := commonWords as real / Max(|words1|, |words2|) as real;
    var maxLength := Max(|text1|, |text2|);
    if maxLength == 0 {
      return 1.0;
    }
    var distance := LevenshteinDistance(text1, text2);
    var charSimilarity := 1.0 - distance as real / maxLength as real;
    score := wordSimilarity * 0.7 + charSimilarity * 0.3;
  }
}
