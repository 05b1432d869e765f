/**
 * The smoothed scorer. A sentence's score is the sum of the logarithms of
 * three smoothed ratios per word; logarithms and floating point are not
 * modelled, so a score is the sequence of ratios whose logarithms would be
 * summed, each an exact numerator/denominator pair.
 */
module Scoring {
  import opened Vocabulary
  import opened BucketStore

  /** A smoothed probability before its logarithm is taken. */
  datatype Ratio = Ratio(num: real, den: real)

  /**
   * The guard of GetGram2Prob and GetGram3Prob: a count above the count of its
   * context can only come from a fingerprint collision and is used as 0.
   */
  function GuardedCount(count: nat, context: nat): (c: nat)
    ensures c <= context
    ensures c == count <==> count <= context
    ensures c != count ==> c == 0
  {
    if count > context then 0 else count
  }

  /**
   * What scoring reads from a built or loaded model: the smoothing constant K,
   * TotalWords, the vocabulary size (the number of distinct unigrams) and the
   * counter store.
   */
  datatype Scorer = Scorer(k: real, totalWords: nat, vocabSize: nat, store: Store) {

    /** GetGram1Prob: (count1(a) + K) / (TotalWords + vocabulary size). */
    function Gram1Prob(a: WordId): (r: Ratio)
      requires store.Ready()
      ensures r.num >= k && r.den == (totalWords + vocabSize) as real
      ensures a == UnknownWordId ==> r.num == k
    {
      Ratio(store.GetGram1HashCount(a) as real + k, (totalWords + vocabSize) as real)
    }

    /** GetGram2Prob: (guarded count2(a, b) + K) / (count1(a) + TotalWords). */
    function Gram2Prob(a: WordId, b: WordId): (r: Ratio)
      requires store.Ready()
      ensures k <= r.num <= store.GetGram1HashCount(a) as real + k
      ensures r.den == (store.GetGram1HashCount(a) + totalWords) as real
      ensures a == UnknownWordId || b == UnknownWordId ==> r.num == k
    {
      var c1 := store.GetGram1HashCount(a);
      var c2 := GuardedCount(store.GetGram2HashCount(a, b), c1);
      Ratio(c2 as real + k, (c1 + totalWords) as real)
    }

    /** GetGram3Prob: (guarded count3(a, b, c) + K) / (count2(a, b) + TotalWords). */
    function Gram3Prob(a: WordId, b: WordId, c: WordId): (r: Ratio)
      requires store.Ready()
      ensures k <= r.num <= store.GetGram2HashCount(a, b) as real + k
      ensures r.den == (store.GetGram2HashCount(a, b) + totalWords) as real
      ensures a == UnknownWordId || b == UnknownWordId || c == UnknownWordId ==> r.num == k
    {
      var c2 := store.GetGram2HashCount(a, b);
      var c3 := GuardedCount(store.GetGram3HashCount(a, b, c), c2);
      Ratio(c3 as real + k, (c2 + totalWords) as real)
    }

    /** The three ratios of the window starting at each position of `s` that has two words after it. */
    function Windows(s: seq<WordId>): (r: seq<Ratio>)
      requires store.Ready()
      ensures |s| < 3 ==> r == []
      ensures |s| >= 3 ==> |r| == 3 * (|s| - 2)
      decreases |s|
    {
      if |s| < 3 then []
      else [Gram1Prob(s[0]), Gram2Prob(s[0], s[1]), Gram3Prob(s[0], s[1], s[2])] + Windows(s[1..])
    }

    /**
     * Score: an empty sentence gives the sentinel; otherwise the sentence is
     * padded with two unknown ids and every window of three is scored.
     */
    function Score(ids: seq<WordId>): (r: ScoreResult)
      requires ids != [] ==> store.Ready()
      ensures r.MinSentinel? <==> ids == []
      ensures r.LogSumOf? ==> |r.factors| == 3 * |ids|
    {
      if ids == [] then MinSentinel
      else LogSumOf(Windows(ids + [UnknownWordId, UnknownWordId]))
    }
  }

  /**
   * The value Score returns: the sentinel numeric_limits<double>::min() for an
   * empty sentence, or the sum of the natural logarithms of the ratios.
   *
   * numeric_limits<double>::min() is the smallest positive double, not the
   * most negative one. A non-empty sentence whose ratios are all at most 1
   * (the usual case) sums to at most 0, so the empty sentence outranks it.
   * The model keeps the sentinel as its own constructor and does not order it
   * against the sums.
   */
  datatype ScoreResult = MinSentinel | LogSumOf(factors: seq<Ratio>)

  /** Window i of `s` scores the words at i, i + 1 and i + 2, and there is one window per word but the last two. */
  lemma {:induction false} WindowsAt(m: Scorer, s: seq<WordId>, i: nat)
    requires m.store.Ready()
    requires i + 2 < |s|
    ensures |m.Windows(s)| == 3 * (|s| - 2)
    ensures m.Windows(s)[3 * i] == m.Gram1Prob(s[i])
    ensures m.Windows(s)[3 * i + 1] == m.Gram2Prob(s[i], s[i + 1])
    ensures m.Windows(s)[3 * i + 2] == m.Gram3Prob(s[i], s[i + 1], s[i + 2])
    decreases |s|
  {
    if i == 0 {
      if |s| > 3 {
        WindowsAt(m, s[1..], 0);
      }
    } else {
      WindowsAt(m, s[1..], i - 1);
    }
  }

  /**
   * A non-empty sentence of n words is scored by exactly n windows; window i
   * reads word i and the two that follow it in the padded sentence, and the
   * padding makes the last word's bigram and trigram read no count.
   */
  lemma ScoreShape(m: Scorer, ids: seq<WordId>, i: nat)
    requires m.store.Ready()
    requires i < |ids|
    ensures m.Score(ids).LogSumOf?
    ensures |m.Score(ids).factors| == 3 * |ids|
    ensures var p := ids + [UnknownWordId, UnknownWordId];
            && m.Score(ids).factors[3 * i] == m.Gram1Prob(ids[i])
            && m.Score(ids).factors[3 * i + 1] == m.Gram2Prob(ids[i], p[i + 1])
            && m.Score(ids).factors[3 * i + 2] == m.Gram3Prob(ids[i], p[i + 1], p[i + 2])
    ensures m.Score(ids).factors[3 * |ids| - 2].num == m.k
    ensures m.Score(ids).factors[3 * |ids| - 1].num == m.k
  {
    var p := ids + [UnknownWordId, UnknownWordId];
    WindowsAt(m, p, i);
    WindowsAt(m, p, |ids| - 1);
    assert p[|ids|] == UnknownWordId && p[|ids| + 1] == UnknownWordId;
  }

  /**
   * With a positive smoothing constant and a non-empty training corpus, every
   * ratio a score sums the logarithm of is positive: no logarithm of 0 or of a
   * negative number is taken.
   */
  lemma {:induction false} FactorsPositive(m: Scorer, s: seq<WordId>)
    requires m.store.Ready()
    requires m.k > 0.0 && m.totalWords > 0
    ensures forall r :: r in m.Windows(s) ==> r.num > 0.0 && r.den > 0.0
    decreases |s|
  {
    if |s| >= 3 {
      FactorsPositive(m, s[1..]);
    }
  }

  /** An unseen word gets the pure smoothing floor K / (TotalWords + vocabulary size). */
  lemma UnknownWordFloor(m: Scorer)
    requires m.store.Ready()
    ensures m.Gram1Prob(UnknownWordId) == Ratio(m.k, (m.totalWords + m.vocabSize) as real)
  {
  }
}
