/** Words, word ids and the reserved id of an out-of-vocabulary word. */
module Vocabulary {

  /** A word as the tokenizer hands it over: a run of (wide) characters. */
  type Word = seq<char>

  /** Word ids are 32-bit unsigned integers. */
  const WordIdLimit: nat := 0x1_0000_0000
  type WordId = x: nat | x < WordIdLimit

  /** The id every word outside the vocabulary maps to: the largest 32-bit value. */
  const UnknownWordId: WordId := 0xFFFF_FFFF

  /** Interning asserts that a word is non-empty and shorter than this. */
  const MaxWordLength: nat := 10000

  predicate Internable(w: Word) {
    0 < |w| < MaxWordLength
  }

  /** `++` on a 32-bit id counter: wraps to 0 after the largest value. */
  function NextWordId(id: WordId): (next: WordId)
    ensures id < UnknownWordId ==> next == id + 1
    ensures id == UnknownWordId ==> next == 0
  {
    (id + 1) % WordIdLimit
  }

  /** The ids of a vocabulary: the values of the word-to-id map. */
  ghost function IdsOf(vocab: map<Word, WordId>): set<WordId> {
    set w | w in vocab :: vocab[w]
  }

  /** Interning a new word adds its id to the ids of the vocabulary. */
  lemma IdsOfInsert(vocab: map<Word, WordId>, w: Word, id: WordId)
    requires w !in vocab
    ensures IdsOf(vocab[w := id]) == IdsOf(vocab) + {id}
  {
    var grown := vocab[w := id];
    forall x | x in IdsOf(grown)
      ensures x in IdsOf(vocab) + {id}
    {
      var v :| v in grown && grown[v] == x;
      if v != w {
        assert vocab[v] in IdsOf(vocab);
      }
    }
    forall x | x in IdsOf(vocab) + {id}
      ensures x in IdsOf(grown)
    {
      if x == id {
        assert grown[w] in IdsOf(grown);
      } else {
        var v :| v in vocab && vocab[v] == x;
        assert grown[v] in IdsOf(grown);
      }
    }
  }

  /** A vocabulary that gives distinct words distinct ids has as many ids as words. */
  lemma {:induction false} IdsOfSize(vocab: map<Word, WordId>)
    requires forall v, w :: v in vocab && w in vocab && vocab[v] == vocab[w] ==> v == w
    ensures |IdsOf(vocab)| == |vocab|
    decreases |vocab|
  {
    if vocab != map[] {
      var w :| w in vocab;
      var rest := vocab - {w};
      IdsOfSize(rest);
      assert IdsOf(vocab) == IdsOf(rest) + {vocab[w]} by {
        assert vocab == rest[w := vocab[w]];
        IdsOfInsert(rest, w, vocab[w]);
      }
      assert vocab[w] !in IdsOf(rest);
    }
  }

  /**
   * A vocabulary as training builds it: non-empty words, ids 0 .. n-1 with one
   * word each, within the 32-bit id space and below the unknown id.
   */
  ghost predicate DenseVocabulary(vocab: map<Word, WordId>) {
    && |vocab| <= UnknownWordId
    && (forall w :: w in vocab ==> w != [])
    && (forall v, w :: v in vocab && w in vocab && vocab[v] == vocab[w] ==> v == w)
    && (forall i: nat :: i in IdsOf(vocab) <==> i < |vocab|)
  }

  /** Every id of a dense vocabulary is below its size. */
  lemma DenseIdsBelow(vocab: map<Word, WordId>)
    requires DenseVocabulary(vocab)
    ensures forall w :: w in vocab ==> vocab[w] < |vocab|
  {
    forall w | w in vocab
      ensures vocab[w] < |vocab|
    {
      assert vocab[w] in IdsOf(vocab);
    }
  }
}
