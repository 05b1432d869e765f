/**
 * What training counts: the unigrams, bigrams and trigrams of each sentence,
 * never across a sentence boundary. These functions are the specification the
 * counting loop of LangModel.CountNgrams is proved against.
 */
module NgramCounts {
  import opened Vocabulary
  import opened KeyEncoding

  /** The count a map holds for a key; an absent key counts 0 (`m[k]` default-inserts 0). */
  function Count<K>(m: map<K, nat>, k: K): nat {
    if k in m then m[k] else 0
  }

  /** `m[k] += 1` */
  function Inc<K>(m: map<K, nat>, k: K): (r: map<K, nat>)
    ensures r.Keys == m.Keys + {k}
    ensures Count(r, k) == Count(m, k) + 1
    ensures forall j :: j in m && j != k ==> r[j] == m[j]
  {
    m[k := Count(m, k) + 1]
  }

  /** The counts after `m[k] += 1` for every element `k` of `ks`, in order. */
  function AddAll<K>(m: map<K, nat>, ks: seq<K>): map<K, nat>
    decreases |ks|
  {
    if ks == [] then m else Inc(AddAll(m, ks[..|ks| - 1]), ks[|ks| - 1])
  }

  /** The distinct elements of a sequence. */
  ghost function Elems<T>(s: seq<T>): set<T> {
    set x | x in s
  }

  lemma ElemsAppend<T>(a: seq<T>, b: seq<T>)
    ensures Elems(a + b) == Elems(a) + Elems(b)
  {
  }

  /** Counting one more key is one more increment. */
  lemma AddAllSnoc<K>(m: map<K, nat>, ks: seq<K>, k: K)
    ensures AddAll(m, ks + [k]) == Inc(AddAll(m, ks), k)
  {
    assert (ks + [k])[..|ks|] == ks;
  }

  /** Counting adds exactly the number of occurrences of each key, and nothing else. */
  lemma {:induction false} AddAllCount<K>(m: map<K, nat>, ks: seq<K>, k: K)
    ensures Count(AddAll(m, ks), k) == Count(m, k) + multiset(ks)[k]
    decreases |ks|
  {
    if ks != [] {
      var init, last := ks[..|ks| - 1], ks[|ks| - 1];
      assert ks == init + [last];
      AddAllCount(m, init, k);
    }
  }

  /** A key is counted afterwards exactly when it was counted before or occurs in `ks`. */
  lemma {:induction false} AddAllKeys<K>(m: map<K, nat>, ks: seq<K>)
    ensures AddAll(m, ks).Keys == m.Keys + Elems(ks)
    decreases |ks|
  {
    if ks != [] {
      var init, last := ks[..|ks| - 1], ks[|ks| - 1];
      assert ks == init + [last];
      AddAllKeys(m, init);
    }
  }

  /** Counting `a` then `b` is counting `a + b`. */
  lemma {:induction false} AddAllAppend<K>(m: map<K, nat>, a: seq<K>, b: seq<K>)
    ensures AddAll(AddAll(m, a), b) == AddAll(m, a + b)
    decreases |b|
  {
    if b != [] {
      var init, last := b[..|b| - 1], b[|b| - 1];
      assert (a + b)[..|a + b| - 1] == a + init;
      assert (a + b)[|a + b| - 1] == last;
      AddAllAppend(m, a, init);
      calc {
        AddAll(AddAll(m, a), b);
        Inc(AddAll(AddAll(m, a), init), last);
        Inc(AddAll(m, a + init), last);
        AddAll(m, a + b);
      }
    } else {
      assert a + b == a;
    }
  }

  /** The bigrams of one sentence, left to right. */
  function Bigrams(ws: seq<WordId>): seq<Gram2Key>
    decreases |ws|
  {
    if |ws| < 2 then [] else [(ws[0], ws[1])] + Bigrams(ws[1..])
  }

  /** The trigrams of one sentence, left to right. */
  function Trigrams(ws: seq<WordId>): seq<Gram3Key>
    decreases |ws|
  {
    if |ws| < 3 then [] else [(ws[0], ws[1], ws[2])] + Trigrams(ws[1..])
  }

  /** A sentence of n words has max(n-1, 0) bigrams, the j-th being words j and j+1. */
  lemma {:induction false} BigramsAt(ws: seq<WordId>)
    ensures |Bigrams(ws)| == if |ws| < 2 then 0 else |ws| - 1
    ensures forall j :: 0 <= j < |Bigrams(ws)| ==> Bigrams(ws)[j] == (ws[j], ws[j + 1])
    decreases |ws|
  {
    if |ws| >= 2 {
      BigramsAt(ws[1..]);
    }
  }

  /** A sentence of n words has max(n-2, 0) trigrams, the j-th being words j, j+1, j+2. */
  lemma {:induction false} TrigramsAt(ws: seq<WordId>)
    ensures |Trigrams(ws)| == if |ws| < 3 then 0 else |ws| - 2
    ensures forall j :: 0 <= j < |Trigrams(ws)| ==> Trigrams(ws)[j] == (ws[j], ws[j + 1], ws[j + 2])
    decreases |ws|
  {
    if |ws| >= 3 {
      TrigramsAt(ws[1..]);
    }
  }

  /** All words of a corpus of sentences, in order. */
  function Flatten(sents: seq<seq<WordId>>): seq<WordId>
    decreases |sents|
  {
    if sents == [] then [] else Flatten(sents[..|sents| - 1]) + sents[|sents| - 1]
  }

  /** The bigrams of a corpus: those of each sentence, none spanning two sentences. */
  function CorpusBigrams(sents: seq<seq<WordId>>): seq<Gram2Key>
    decreases |sents|
  {
    if sents == [] then [] else CorpusBigrams(sents[..|sents| - 1]) + Bigrams(sents[|sents| - 1])
  }

  /** The trigrams of a corpus: those of each sentence, none spanning two sentences. */
  function CorpusTrigrams(sents: seq<seq<WordId>>): seq<Gram3Key>
    decreases |sents|
  {
    if sents == [] then [] else CorpusTrigrams(sents[..|sents| - 1]) + Trigrams(sents[|sents| - 1])
  }

  /** Every counted bigram is a pair of adjacent words inside one sentence. */
  lemma {:induction false} CorpusBigramsWithinSentences(sents: seq<seq<WordId>>, k: nat)
    requires k < |CorpusBigrams(sents)|
    ensures exists i, j :: 0 <= i < |sents| && 0 <= j && j + 1 < |sents[i]|
                           && CorpusBigrams(sents)[k] == (sents[i][j], sents[i][j + 1])
    decreases |sents|
  {
    var init, last := sents[..|sents| - 1], sents[|sents| - 1];
    if k < |CorpusBigrams(init)| {
      CorpusBigramsWithinSentences(init, k);
      var i, j :| 0 <= i < |init| && 0 <= j && j + 1 < |init[i]|
                  && CorpusBigrams(init)[k] == (init[i][j], init[i][j + 1]);
      assert sents[i] == init[i];
      assert CorpusBigrams(sents)[k] == (sents[i][j], sents[i][j + 1]);
    } else {
      BigramsAt(last);
      var i, j := |sents| - 1, k - |CorpusBigrams(init)|;
      assert sents[i] == last;
      assert CorpusBigrams(sents)[k] == Bigrams(last)[j] == (sents[i][j], sents[i][j + 1]);
    }
  }

  /** Every counted trigram is three adjacent words inside one sentence. */
  lemma {:induction false} CorpusTrigramsWithinSentences(sents: seq<seq<WordId>>, k: nat)
    requires k < |CorpusTrigrams(sents)|
    ensures exists i, j :: 0 <= i < |sents| && 0 <= j && j + 2 < |sents[i]|
                           && CorpusTrigrams(sents)[k] == (sents[i][j], sents[i][j + 1], sents[i][j + 2])
    decreases |sents|
  {
    var init, last := sents[..|sents| - 1], sents[|sents| - 1];
    if k < |CorpusTrigrams(init)| {
      CorpusTrigramsWithinSentences(init, k);
      var i, j :| 0 <= i < |init| && 0 <= j && j + 2 < |init[i]|
                  && CorpusTrigrams(init)[k] == (init[i][j], init[i][j + 1], init[i][j + 2]);
      assert sents[i] == init[i];
      assert CorpusTrigrams(sents)[k] == (sents[i][j], sents[i][j + 1], sents[i][j + 2]);
    } else {
      TrigramsAt(last);
      var i, j := |sents| - 1, k - |CorpusTrigrams(init)|;
      assert sents[i] == last;
      assert CorpusTrigrams(sents)[k] == Trigrams(last)[j] == (sents[i][j], sents[i][j + 1], sents[i][j + 2]);
    }
  }

  /**
   * Counting two sentences separately leaves out exactly the one bigram that
   * counting their concatenation would add: the pair across the boundary.
   */
  lemma {:induction false} BoundaryBigram(a: seq<WordId>, b: seq<WordId>)
    requires a != [] && b != []
    ensures CorpusBigrams([a, b]) == Bigrams(a) + Bigrams(b)
    ensures Bigrams(a + b) == Bigrams(a) + [(a[|a| - 1], b[0])] + Bigrams(b)
    decreases |a|
  {
    assert [a, b][..1] == [a];
    assert [a][..0] == [];
    assert CorpusBigrams([a]) == CorpusBigrams([]) + Bigrams(a);
    if |a| == 1 {
      assert (a + b)[1..] == b;
    } else {
      assert (a + b)[1..] == a[1..] + b;
      BoundaryBigram(a[1..], b);
    }
  }

  /** Sentence lengths minus one, summed: the number of bigrams a corpus yields. */
  function PairSlots(sents: seq<seq<WordId>>): nat
    decreases |sents|
  {
    if sents == [] then 0
    else
      var n := |sents[|sents| - 1]|;
      PairSlots(sents[..|sents| - 1]) + (if n < 2 then 0 else n - 1)
  }

  /** Sentence lengths minus two, summed: the number of trigrams a corpus yields. */
  function TripleSlots(sents: seq<seq<WordId>>): nat
    decreases |sents|
  {
    if sents == [] then 0
    else
      var n := |sents[|sents| - 1]|;
      TripleSlots(sents[..|sents| - 1]) + (if n < 3 then 0 else n - 2)
  }

  lemma {:induction false} CorpusGramLengths(sents: seq<seq<WordId>>)
    ensures |CorpusBigrams(sents)| == PairSlots(sents)
    ensures |CorpusTrigrams(sents)| == TripleSlots(sents)
    decreases |sents|
  {
    if sents != [] {
      CorpusGramLengths(sents[..|sents| - 1]);
      BigramsAt(sents[|sents| - 1]);
      TrigramsAt(sents[|sents| - 1]);
    }
  }
}
