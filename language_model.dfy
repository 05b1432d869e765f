/**
 * The language model object (TLangModel): the vocabulary maps, the training
 * counts, the perfect hash and the bucket vector, with the operations that
 * build, load, clear and query them.
 */
module LanguageModel {
  import opened Vocabulary
  import opened KeyEncoding
  import opened NgramCounts
  import opened BucketStore
  import opened Scoring
  import opened ModelFile

  /** Every word of every sentence can be interned. */
  predicate AllInternable(sentences: seq<seq<Word>>) {
    forall i, j :: 0 <= i < |sentences| && 0 <= j < |sentences[i]| ==> Internable(sentences[i][j])
  }

  /** `ids` is `sentences` with every word replaced by its id in `vocab`. */
  ghost predicate Converted(sentences: seq<seq<Word>>, ids: seq<seq<WordId>>, vocab: map<Word, WordId>) {
    && |ids| == |sentences|
    && (forall i :: 0 <= i < |ids| ==> |ids[i]| == |sentences[i]|)
    && (forall i, j :: 0 <= i < |ids| && 0 <= j < |ids[i]| ==>
          sentences[i][j] in vocab && ids[i][j] == vocab[sentences[i][j]])
  }

  /** `row` holds the ids in `vocab` of the first |row| words of `words`. */
  ghost predicate RowOf(words: seq<Word>, row: seq<WordId>, vocab: map<Word, WordId>) {
    |row| <= |words| && forall k :: 0 <= k < |row| ==> words[k] in vocab && row[k] == vocab[words[k]]
  }

  /** One more word converted, under a vocabulary that keeps every earlier entry. */
  lemma RowStep(words: seq<Word>, row: seq<WordId>, vocab: map<Word, WordId>, grown: map<Word, WordId>, id: WordId)
    requires RowOf(words, row, vocab) && Extends(vocab, grown)
    requires |row| < |words| && words[|row|] in grown && grown[words[|row|]] == id
    ensures RowOf(words, row + [id], grown)
  {
  }

  /** `grown` keeps every entry of `vocab`. */
  ghost predicate Extends(vocab: map<Word, WordId>, grown: map<Word, WordId>) {
    forall w :: w in vocab ==> w in grown && grown[w] == vocab[w]
  }

  /** Converting one more sentence, under a vocabulary that keeps every earlier entry. */
  lemma ConvertedStep(sentences: seq<seq<Word>>, ids: seq<seq<WordId>>, vocab: map<Word, WordId>,
                      grown: map<Word, WordId>, words: seq<Word>, row: seq<WordId>)
    requires Converted(sentences, ids, vocab) && Extends(vocab, grown)
    requires |row| == |words|
    requires forall j :: 0 <= j < |words| ==> words[j] in grown && row[j] == grown[words[j]]
    ensures Converted(sentences + [words], ids + [row], grown)
  {
  }

  /** Once `grams`' dumped keys are appended after `before`, they are all among `after`. */
  lemma KeysAppended<K>(grams: map<K, nat>, dump: K -> Bytes, before: seq<Bytes>, after: seq<Bytes>)
    requires |before| <= |after|
    requires forall k :: k in grams ==> dump(k) in after[|before|..]
    ensures KeyImage(grams.Keys, dump) <= Elems(after)
  {
    forall s | s in KeyImage(grams.Keys, dump)
      ensures s in Elems(after)
    {
      var k :| k in grams.Keys && dump(k) == s;
      var i :| |before| <= i < |after| && after[i] == s by {
        var j :| 0 <= j < |after[|before|..]| && after[|before|..][j] == s;
        assert after[|before| + j] == s;
      }
    }
  }

  /** Appending keeps every key already collected. */
  lemma KeysKept(before: seq<Bytes>, after: seq<Bytes>)
    requires |before| <= |after| && after[..|before|] == before
    ensures Elems(before) <= Elems(after)
  {
    forall s | s in Elems(before)
      ensures s in Elems(after)
    {
      var i :| 0 <= i < |before| && before[i] == s;
      assert after[i] == s;
    }
  }

  /**
   * A hash that is collision-free over the dumped keys of all three orders
   * separates the keys of each order, and keys of different orders (whose
   * dumped forms differ in length) never share a bucket.
   */
  lemma SeparatedOrders(ph: PerfectHash, all: set<Bytes>, g1: set<WordId>, g2: set<Gram2Key>, g3: set<Gram3Key>)
    requires CollisionFree(ph, all)
    requires KeyImage(g1, DumpKey1) <= all && KeyImage(g2, DumpKey2) <= all && KeyImage(g3, DumpKey3) <= all
    ensures SlotInjective(g1, DumpKey1, ph) && SlotInjective(g2, DumpKey2, ph) && SlotInjective(g3, DumpKey3, ph)
    ensures forall k :: k in g1 ==> ph.hash(DumpKey1(k)) !in Slots(g2, DumpKey2, ph)
    ensures forall k :: k in g1 ==> ph.hash(DumpKey1(k)) !in Slots(g3, DumpKey3, ph)
    ensures forall k :: k in g2 ==> ph.hash(DumpKey2(k)) !in Slots(g3, DumpKey3, ph)
  {
    forall a, b | DumpKey1(a) == DumpKey1(b)
      ensures a == b
    {
      Encode32Injective(a, b);
    }
    forall a, b | DumpKey2(a) == DumpKey2(b)
      ensures a == b
    {
      DumpKey2Injective(a, b);
    }
    forall a, b | DumpKey3(a) == DumpKey3(b)
      ensures a == b
    {
      DumpKey3Injective(a, b);
    }
    CollisionFreeSlots(g1, DumpKey1, ph);
    CollisionFreeSlots(g2, DumpKey2, ph);
    CollisionFreeSlots(g3, DumpKey3, ph);
    DisjointSlots(ph, all, g1, DumpKey1, g2, DumpKey2);
    DisjointSlots(ph, all, g1, DumpKey1, g3, DumpKey3);
    DisjointSlots(ph, all, g2, DumpKey2, g3, DumpKey3);
  }

  /** Every key of the three count maps, unless it contains the unknown id, reads back its count from `st`. */
  ghost predicate Stored(st: Store, g1: map<WordId, nat>, g2: map<Gram2Key, nat>, g3: map<Gram3Key, nat>) {
    && st.Ready()
    && (forall w :: w in g1 && w != UnknownWordId ==> st.GetGram1HashCount(w) == g1[w])
    && (forall g :: g in g2 && g.0 != UnknownWordId && g.1 != UnknownWordId ==>
          st.GetGram2HashCount(g.0, g.1) == g2[g])
    && (forall g :: g in g3 && g.0 != UnknownWordId && g.1 != UnknownWordId && g.2 != UnknownWordId ==>
          st.GetGram3HashCount(g.0, g.1, g.2) == g3[g])
  }

  /** `resize(n)` of the bucket vector: existing buckets up to n kept, new ones value-initialised. */
  function Resized(b: seq<Bucket>, n: nat): (r: seq<Bucket>)
    ensures |r| == n
    ensures forall i :: 0 <= i < n ==> r[i] == if i < |b| then b[i] else EmptyBucket
  {
    seq(n, i requires 0 <= i < n => if i < |b| then b[i] else EmptyBucket)
  }

  /**
   * The three fills of the build step, over a hash collision-free on every
   * dumped key: afterwards every key of every order reads back its count, and
   * the buckets no key hashes to are those of the resized vector.
   */
  lemma StoredAfterFill(ph: PerfectHash, city: Bytes -> U32, all: set<Bytes>,
                        g1: map<WordId, nat>, g2: map<Gram2Key, nat>, g3: map<Gram3Key, nat>,
                        resized: seq<Bucket>, after1: seq<Bucket>, after2: seq<Bucket>, final: seq<Bucket>)
    requires InRange(ph) && |final| == ph.bucketsNumber
    requires CollisionFree(ph, all)
    requires KeyImage(g1.Keys, DumpKey1) <= all && KeyImage(g2.Keys, DumpKey2) <= all && KeyImage(g3.Keys, DumpKey3) <= all
    requires Holds(after1, g1.Keys, g1, DumpKey1, ph, city)
    requires SameOutside(after1, resized, Slots(g1.Keys, DumpKey1, ph))
    requires Holds(after2, g2.Keys, g2, DumpKey2, ph, city)
    requires SameOutside(after2, after1, Slots(g2.Keys, DumpKey2, ph))
    requires Holds(final, g3.Keys, g3, DumpKey3, ph, city)
    requires SameOutside(final, after2, Slots(g3.Keys, DumpKey3, ph))
    ensures Stored(Store(ph, city, final), g1, g2, g3)
    ensures SameOutside(final, resized, Slots(g1.Keys, DumpKey1, ph) + Slots(g2.Keys, DumpKey2, ph) + Slots(g3.Keys, DumpKey3, ph))
  {
    SeparatedOrders(ph, all, g1.Keys, g2.Keys, g3.Keys);
    HoldsKept(after2, after1, Slots(g2.Keys, DumpKey2, ph), g1.Keys, g1, DumpKey1, ph, city);
    HoldsKept(final, after2, Slots(g3.Keys, DumpKey3, ph), g1.Keys, g1, DumpKey1, ph, city);
    HoldsKept(final, after2, Slots(g3.Keys, DumpKey3, ph), g2.Keys, g2, DumpKey2, ph, city);
    var st := Store(ph, city, final);
    forall w | w in g1 && w != UnknownWordId
      ensures st.GetGram1HashCount(w) == g1[w]
    {
      StoredKeyReadsBack(st, DumpKey1(w), g1[w]);
    }
    forall g | g in g2 && g.0 != UnknownWordId && g.1 != UnknownWordId
      ensures st.GetGram2HashCount(g.0, g.1) == g2[g]
    {
      StoredKeyReadsBack(st, DumpKey2(g), g2[g]);
    }
    forall g | g in g3 && g.0 != UnknownWordId && g.1 != UnknownWordId && g.2 != UnknownWordId
      ensures st.GetGram3HashCount(g.0, g.1, g.2) == g3[g]
    {
      StoredKeyReadsBack(st, DumpKey3(g), g3[g]);
    }
  }

  /**
   * The reverse index Load rebuilds: one entry per id of a dense vocabulary,
   * entry i holding the word whose id is i.
   */
  method ReverseIndex(vocab: map<Word, WordId>) returns (index: seq<Word>)
    requires DenseVocabulary(vocab)
    ensures |index| == |vocab|
    ensures forall w :: w in vocab ==> vocab[w] < |index| && index[vocab[w]] == w
    ensures forall i :: 0 <= i < |index| ==> index[i] in vocab && vocab[index[i]] == i
  {
    DenseIdsBelow(vocab);
    index := seq(|vocab|, _ => []);
    var rest := vocab.Keys;
    while rest != {}
      invariant rest <= vocab.Keys
      invariant |index| == |vocab|
      invariant forall w :: w in vocab && w !in rest ==> index[vocab[w]] == w
      decreases |rest|
    {
      var w :| w in rest;
      index := index[vocab[w] := w];
      rest := rest - {w};
    }
    forall i | 0 <= i < |index|
      ensures index[i] in vocab && vocab[index[i]] == i
    {
      assert i in IdsOf(vocab);
      var w :| w in vocab && vocab[w] == i;
    }
  }

  /** An entry of the reverse index as Load lays it out: a pointer to a vocabulary key, or null. */
  datatype Slot = Null | Points(word: Word)

  /**
   * The reverse index as Load builds it: |vocab| + 1 entries, all null, then
   * entry vocab[w] pointed at w for every word; the last entry stays null.
   */
  method ReverseIndexAsWritten(vocab: map<Word, WordId>) returns (slots: seq<Slot>)
    requires DenseVocabulary(vocab)
    ensures |slots| == |vocab| + 1
    ensures forall w :: w in vocab ==> vocab[w] < |vocab| && slots[vocab[w]] == Points(w)
    ensures slots[|vocab|] == Null
  {
    DenseIdsBelow(vocab);
    slots := seq(|vocab| + 1, _ => Null);
    var rest := vocab.Keys;
    while rest != {}
      invariant rest <= vocab.Keys
      invariant |slots| == |vocab| + 1 && slots[|vocab|] == Null
      invariant forall w :: w in vocab && w !in rest ==> slots[vocab[w]] == Points(w)
      decreases |rest|
    {
      var w :| w in rest;
      slots := slots[vocab[w] := Points(w)];
      rest := rest - {w};
    }
  }

  /** What GetWordById does over such an index: the guard, then a dereference. */
  datatype WordLookup = Found(word: Word) | NullDereference

  function GetWordByIdAsWritten(slots: seq<Slot>, wid: WordId): (r: WordLookup)
    ensures wid >= |slots| ==> r == Found([])
    ensures wid < |slots| ==> (r == NullDereference <==> slots[wid].Null?)
  {
    if wid >= |slots| then Found([])
    else match slots[wid]
      case Null => NullDereference
      case Points(w) => Found(w)
  }

  /**
   * The id one past the vocabulary passes GetWordById's bounds check on the
   * index Load builds and reaches the null entry.
   */
  lemma OnePastVocabularyDereferencesNull(vocab: map<Word, WordId>, slots: seq<Slot>)
    requires DenseVocabulary(vocab)
    requires |slots| == |vocab| + 1 && slots[|vocab|] == Null
    ensures |vocab| < WordIdLimit
    ensures GetWordByIdAsWritten(slots, |vocab|) == NullDereference
  {
  }

  /**
   * Away from the id one past the vocabulary, the index Load builds answers
   * every id as the corrected index does: the word of an id in use, the empty
   * word past the end. Only that one id dereferences null.
   */
  lemma AsWrittenIndexDiffersOnlyOnePast(vocab: map<Word, WordId>, slots: seq<Slot>, index: seq<Word>, wid: WordId)
    requires DenseVocabulary(vocab)
    requires |slots| == |vocab| + 1 && slots[|vocab|] == Null
    requires forall w :: w in vocab ==> vocab[w] < |vocab| && slots[vocab[w]] == Points(w)
    requires |index| == |vocab|
    requires forall i :: 0 <= i < |index| ==> index[i] in vocab && vocab[index[i]] == i
    ensures GetWordByIdAsWritten(slots, wid) == NullDereference <==> wid == |vocab|
    ensures wid != |vocab| ==> GetWordByIdAsWritten(slots, wid) == Found(if wid < |index| then index[wid] else [])
  {
    if wid < |index| {
      var w := index[wid];
      assert slots[vocab[w]] == Points(w);
    }
  }

  /** The id of `w` in `vocab`, or the unknown id. */
  function IdIn(vocab: map<Word, WordId>, w: Word): WordId {
    if w in vocab then vocab[w] else UnknownWordId
  }

  /** The words of a sentence to score, as ids: a word outside the vocabulary becomes the unknown id. */
  function LookupIds(vocab: map<Word, WordId>, words: seq<Word>): (ids: seq<WordId>)
    ensures |ids| == |words|
    ensures forall i :: 0 <= i < |words| ==> ids[i] == IdIn(vocab, words[i])
  {
    if words == [] then [] else [IdIn(vocab, words[0])] + LookupIds(vocab, words[1..])
  }

  class LangModel {
    var K: real
    var WordToId: map<Word, WordId>
    var LastWordID: WordId
    /** The reverse index: the word of each id (pointers to WordToId's keys in the source). */
    var IdToWord: seq<Word>
    var TotalWords: nat
    var Grams1: map<WordId, nat>
    var Grams2: map<Gram2Key, nat>
    var Grams3: map<Gram3Key, nat>
    var PerfectHash: PerfectHash
    var Buckets: array<Bucket>
    /** The fingerprint function (CityHash32). */
    const CityHash32: Bytes -> U32

    /** The two vocabulary indexes are inverse bijections between the words and the ids 0 .. n-1. */
    ghost predicate VocabConsistent()
      reads this`WordToId, this`IdToWord
    {
      && |IdToWord| == |WordToId| <= UnknownWordId
      && (forall w :: w in WordToId ==> w != [] && WordToId[w] < |IdToWord| && IdToWord[WordToId[w]] == w)
      && (forall i :: 0 <= i < |IdToWord| ==> IdToWord[i] in WordToId && WordToId[IdToWord[i]] == i)
    }

    /** While training: consistent indexes, and the next id to hand out is the vocabulary size. */
    ghost predicate Training()
      reads this`WordToId, this`IdToWord, this`LastWordID
    {
      VocabConsistent() && LastWordID == |WordToId|
    }

    /** Training's invariant holds, unless interning has run past the 32-bit id space. */
    ghost predicate TrainingOrExhausted()
      reads this`WordToId, this`IdToWord, this`LastWordID
    {
      Training() || |WordToId| > UnknownWordId
    }

    /** Every id of the vocabulary has a unigram count, and only those ids do. */
    ghost predicate CountsCover()
      reads this`Grams1, this`WordToId
    {
      Grams1.Keys == IdsOf(WordToId)
    }

    /** The perfect hash sends every key to a bucket that exists. */
    ghost predicate Ready()
      reads this`PerfectHash, this`Buckets
    {
      InRange(PerfectHash) && Buckets.Length == PerfectHash.bucketsNumber
    }

    /** The counter store the lookups read. */
    function CountStore(): (st: Store)
      reads this`PerfectHash, this`Buckets, Buckets
      ensures Ready() ==> st.Ready()
    {
      Store(PerfectHash, CityHash32, Buckets[..])
    }

    /** Every counted key of every order, unless it contains the unknown id, reads back its count. */
    ghost predicate CountsStored()
      reads this`PerfectHash, this`Buckets, this`Grams1, this`Grams2, this`Grams3, Buckets
    {
      Ready() && Stored(CountStore(), Grams1, Grams2, Grams3)
    }

    constructor (cityHash32: Bytes -> U32)
      ensures Training() && CountsCover()
      ensures K == DefaultK && WordToId == map[] && TotalWords == 0
      ensures Grams1 == map[] && Grams2 == map[] && Grams3 == map[]
      ensures Buckets.Length == 0 && fresh(Buckets)
      ensures CityHash32 == cityHash32
    {
      K := DefaultK;
      WordToId := map[];
      LastWordID := 0;
      IdToWord := [];
      TotalWords := 0;
      Grams1 := map[];
      Grams2 := map[];
      Grams3 := map[];
      PerfectHash := BucketStore.PerfectHash(_ => 0, 0);
      Buckets := new Bucket[0];
      CityHash32 := cityHash32;
    }

    /**
     * GetWordId: the id of a known word; a new word gets the current counter
     * value (which then advances, wrapping at 32 bits) and is appended to the
     * reverse index.
     */
    method GetWordId(w: Word) returns (id: WordId)
      requires Internable(w)
      modifies this`WordToId, this`LastWordID, this`IdToWord
      ensures w in WordToId && WordToId[w] == id
      ensures w in old(WordToId) ==>
                id == old(WordToId)[w] && WordToId == old(WordToId) &&
                LastWordID == old(LastWordID) && IdToWord == old(IdToWord)
      ensures w !in old(WordToId) ==>
                id == old(LastWordID) && LastWordID == NextWordId(old(LastWordID)) &&
                WordToId == old(WordToId)[w := id] && IdToWord == old(IdToWord) + [w]
      ensures IdsOf(WordToId) == IdsOf(old(WordToId)) + {id}
      ensures Extends(old(WordToId), WordToId)
      ensures old(TrainingOrExhausted()) ==> TrainingOrExhausted()
    {
      if w in WordToId {
        id := WordToId[w];
        assert id in IdsOf(WordToId);
        return;
      }
      id := LastWordID;
      LastWordID := NextWordId(LastWordID);
      IdsOfInsert(WordToId, w, id);
      WordToId := WordToId[w := id];
      IdToWord := IdToWord + [w];
    }

    /** GetWordIdNoCreate: the id of a known word, the unknown id otherwise; the vocabulary is left alone. */
    function GetWordIdNoCreate(w: Word): (id: WordId)
      reads this
      ensures w in WordToId ==> id == WordToId[w]
      ensures w !in WordToId ==> id == UnknownWordId
      ensures VocabConsistent() ==> (id == UnknownWordId <==> w !in WordToId)
    {
      IdIn(WordToId, w)
    }

    /** GetWordById: the word of an id, or the empty word for an id past the reverse index. */
    function GetWordById(wid: WordId): (w: Word)
      reads this
      ensures wid >= |IdToWord| ==> w == []
      ensures VocabConsistent() ==> (w == [] <==> wid >= |WordToId|)
      ensures VocabConsistent() && wid < |WordToId| ==> w in WordToId && WordToId[w] == wid
    {
      if wid >= |IdToWord| then [] else IdToWord[wid]
    }

    /** GetWord: the stored copy of a known word, the empty word otherwise. */
    function GetWord(word: Word): (w: Word)
      reads this
      ensures word in WordToId ==> w == word
      ensures word !in WordToId ==> w == []
    {
      if word in WordToId then word else []
    }

    /** GetWord answers as the id path does: the word resolved from its id, or the empty word. */
    lemma GetWordAgrees(w: Word)
      requires VocabConsistent()
      ensures GetWord(w) == GetWordById(GetWordIdNoCreate(w))
    {
    }

    /** Interning and resolving are inverse: a known word's id resolves to the word, and back. */
    lemma IdWordRoundTrip(w: Word, wid: WordId)
      requires VocabConsistent()
      ensures w in WordToId ==> GetWordById(GetWordIdNoCreate(w)) == w
      ensures wid < |WordToId| ==> GetWordIdNoCreate(GetWordById(wid)) == wid
    {
    }

    /** GetWordCount: the unigram count the store holds for an id. */
    function GetWordCount(wid: WordId): (c: nat)
      reads this, Buckets
      requires wid != UnknownWordId ==> Ready()
      ensures wid == UnknownWordId ==> c == 0
      ensures CountsStored() && wid in Grams1 && wid != UnknownWordId ==> c == Grams1[wid]
    {
      CountStore().GetGram1HashCount(wid)
    }

    /**
     * ConvertToIds: interns every word of every sentence, in order, and returns
     * the sentences as ids.
     */
    method ConvertToIds(sentences: seq<seq<Word>>) returns (ids: seq<seq<WordId>>)
      requires AllInternable(sentences)
      modifies this`WordToId, this`LastWordID, this`IdToWord
      ensures Converted(sentences, ids, WordToId)
      ensures Extends(old(WordToId), WordToId)
      ensures IdsOf(WordToId) == IdsOf(old(WordToId)) + Elems(Flatten(ids))
      ensures old(TrainingOrExhausted()) ==> TrainingOrExhausted()
    {
      ids := [];
      var i := 0;
      while i < |sentences|
        invariant 0 <= i <= |sentences|
        invariant Converted(sentences[..i], ids, WordToId)
        invariant Extends(old(WordToId), WordToId)
        invariant IdsOf(WordToId) == IdsOf(old(WordToId)) + Elems(Flatten(ids))
        invariant old(TrainingOrExhausted()) ==> TrainingOrExhausted()
      {
        ghost var before := WordToId;
        var wordIds := ConvertSentence(sentences[i]);
        ConvertedStep(sentences[..i], ids, before, WordToId, sentences[i], wordIds);
        assert Flatten(ids + [wordIds]) == Flatten(ids) + wordIds by {
          assert (ids + [wordIds])[..|ids|] == ids;
        }
        ElemsAppend(Flatten(ids), wordIds);
        assert sentences[..i + 1] == sentences[..i] + [sentences[i]];
        ids := ids + [wordIds];
        i := i + 1;
      }
      assert sentences[..i] == sentences;
    }

    /** The inner loop of ConvertToIds: the ids of one sentence's words. */
    method ConvertSentence(words: seq<Word>) returns (wordIds: seq<WordId>)
      requires forall j :: 0 <= j < |words| ==> Internable(words[j])
      modifies this`WordToId, this`LastWordID, this`IdToWord
      ensures |wordIds| == |words|
      ensures forall j :: 0 <= j < |words| ==> words[j] in WordToId && wordIds[j] == WordToId[words[j]]
      ensures Extends(old(WordToId), WordToId)
      ensures IdsOf(WordToId) == IdsOf(old(WordToId)) + Elems(wordIds)
      ensures old(TrainingOrExhausted()) ==> TrainingOrExhausted()
    {
      wordIds := [];
      var j := 0;
      while j < |words|
        invariant 0 <= j <= |words| && |wordIds| == j
        invariant RowOf(words, wordIds, WordToId)
        invariant Extends(old(WordToId), WordToId)
        invariant IdsOf(WordToId) == IdsOf(old(WordToId)) + Elems(wordIds)
        invariant old(TrainingOrExhausted()) ==> TrainingOrExhausted()
      {
        ghost var before := WordToId;
        var id := GetWordId(words[j]);
        RowStep(words, wordIds, before, WordToId, id);
        ElemsAppend(wordIds, [id]);
        wordIds := wordIds + [id];
        j := j + 1;
      }
    }

    /**
     * The counting pass: for every sentence, one unigram count and one unit of
     * TotalWords per word, one bigram count per adjacent pair and one trigram
     * count per adjacent triple, never across sentences.
     */
    method CountNgrams(ids: seq<seq<WordId>>)
      modifies this`Grams1, this`Grams2, this`Grams3, this`TotalWords
      ensures Grams1 == AddAll(old(Grams1), Flatten(ids))
      ensures Grams2 == AddAll(old(Grams2), CorpusBigrams(ids))
      ensures Grams3 == AddAll(old(Grams3), CorpusTrigrams(ids))
      ensures TotalWords == old(TotalWords) + |Flatten(ids)|
    {
      var i := 0;
      while i < |ids|
        invariant 0 <= i <= |ids|
        invariant Grams1 == AddAll(old(Grams1), Flatten(ids[..i]))
        invariant Grams2 == AddAll(old(Grams2), CorpusBigrams(ids[..i]))
        invariant Grams3 == AddAll(old(Grams3), CorpusTrigrams(ids[..i]))
        invariant TotalWords == old(TotalWords) + |Flatten(ids[..i])|
      {
        var words := ids[i];
        CountUnigrams(words);
        CountBigrams(words);
        CountTrigrams(words);
        assert ids[..i + 1][..i] == ids[..i] && ids[..i + 1][i] == words;
        AddAllAppend(old(Grams1), Flatten(ids[..i]), words);
        AddAllAppend(old(Grams2), CorpusBigrams(ids[..i]), Bigrams(words));
        AddAllAppend(old(Grams3), CorpusTrigrams(ids[..i]), Trigrams(words));
        i := i + 1;
      }
      assert ids[..i] == ids;
    }

    /** The first inner loop of the counting pass: `Grams1[w] += 1` and `TotalWords += 1` per word. */
    method CountUnigrams(words: seq<WordId>)
      modifies this`Grams1, this`TotalWords
      ensures Grams1 == AddAll(old(Grams1), words)
      ensures TotalWords == old(TotalWords) + |words|
    {
      var j := 0;
      while j < |words|
        invariant 0 <= j <= |words|
        invariant Grams1 == AddAll(old(Grams1), words[..j])
        invariant TotalWords == old(TotalWords) + j
      {
        var w := words[j];
        AddAllSnoc(old(Grams1), words[..j], w);
        assert words[..j + 1] == words[..j] + [w];
        Grams1 := Grams1[w := Count(Grams1, w) + 1];
        TotalWords := TotalWords + 1;
        j := j + 1;
      }
      assert words[..j] == words;
    }

    /** The second inner loop: `Grams2[(words[j], words[j+1])] += 1` for j below |words| - 1. */
    method CountBigrams(words: seq<WordId>)
      modifies this`Grams2
      ensures Grams2 == AddAll(old(Grams2), Bigrams(words))
    {
      BigramsAt(words);
      var pairs := Bigrams(words);
      var j: int := 0;
      while j < |words| - 1
        invariant 0 <= j <= |pairs|
        invariant Grams2 == AddAll(old(Grams2), pairs[..j])
      {
        var key := (words[j], words[j + 1]);
        AddAllSnoc(old(Grams2), pairs[..j], key);
        assert pairs[..j + 1] == pairs[..j] + [key];
        Grams2 := Grams2[key := Count(Grams2, key) + 1];
        j := j + 1;
      }
      assert pairs[..j] == pairs;
    }

    /** The third inner loop: `Grams3[(words[j], words[j+1], words[j+2])] += 1` for j below |words| - 2. */
    method CountTrigrams(words: seq<WordId>)
      modifies this`Grams3
      ensures Grams3 == AddAll(old(Grams3), Trigrams(words))
    {
      TrigramsAt(words);
      var triples := Trigrams(words);
      var j: int := 0;
      while j < |words| - 2
        invariant 0 <= j <= |triples|
        invariant Grams3 == AddAll(old(Grams3), triples[..j])
      {
        var key := (words[j], words[j + 1], words[j + 2]);
        AddAllSnoc(old(Grams3), triples[..j], key);
        assert triples[..j + 1] == triples[..j] + [key];
        Grams3 := Grams3[key := Count(Grams3, key) + 1];
        j := j + 1;
      }
      assert triples[..j] == triples;
    }

    /** The buckets the training keys of the three orders hash to. */
    ghost function KeySlots(): set<nat>
      reads this`PerfectHash, this`Grams1, this`Grams2, this`Grams3
    {
      Slots(Grams1.Keys, DumpKey1, PerfectHash) + Slots(Grams2.Keys, DumpKey2, PerfectHash) +
      Slots(Grams3.Keys, DumpKey3, PerfectHash)
    }

    /**
     * The key collection of Train: the dumped keys of the unigrams, then of
     * the bigrams, then of the trigrams, one per key.
     */
    method CollectKeys() returns (keys: seq<Bytes>)
      ensures |keys| == |Grams1| + |Grams2| + |Grams3|
      ensures KeyImage(Grams1.Keys, DumpKey1) <= Elems(keys)
      ensures KeyImage(Grams2.Keys, DumpKey2) <= Elems(keys)
      ensures KeyImage(Grams3.Keys, DumpKey3) <= Elems(keys)
    {
      keys := [];
      keys := PrepareNgramKeys(Grams1, DumpKey1, keys);
      ghost var keys1 := keys;
      keys := PrepareNgramKeys(Grams2, DumpKey2, keys);
      ghost var keys2 := keys;
      keys := PrepareNgramKeys(Grams3, DumpKey3, keys);
      KeysAppended(Grams1, DumpKey1, [], keys1);
      KeysAppended(Grams2, DumpKey2, keys1, keys2);
      KeysAppended(Grams3, DumpKey3, keys2, keys);
      KeysKept(keys1, keys2);
      KeysKept(keys2, keys);
    }

    /**
     * The build step of Train: the dumped keys of the three orders go to the
     * perfect hash; the bucket vector is resized to its bucket count; every
     * key's fingerprint and count is written into its bucket.
     */
    method BuildStore(init: seq<Bytes> -> PerfectHash)
      requires InitContract(init)
      modifies this`PerfectHash, this`Buckets
      ensures fresh(Buckets)
      ensures CountsStored()
      ensures SameOutside(Buckets[..], Resized(old(Buckets[..]), PerfectHash.bucketsNumber), KeySlots())
    {
      var keys := CollectKeys();
      var ph := init(keys);
      PerfectHash := ph;
      assert InRange(ph) && CollisionFree(ph, Elems(keys));
      SeparatedOrders(ph, Elems(keys), Grams1.Keys, Grams2.Keys, Grams3.Keys);

      var previous := Buckets[..];
      var n := ph.bucketsNumber;
      var buckets := new Bucket[n](i requires 0 <= i < n => if i < |previous| then previous[i] else EmptyBucket);
      Buckets := buckets;
      ghost var resized := buckets[..];
      assert resized == Resized(previous, n);

      var g1, g2, g3 := Grams1, Grams2, Grams3;
      InitializeBuckets(g1, DumpKey1, ph, CityHash32, buckets);
      ghost var after1 := buckets[..];
      InitializeBuckets(g2, DumpKey2, ph, CityHash32, buckets);
      ghost var after2 := buckets[..];
      InitializeBuckets(g3, DumpKey3, ph, CityHash32, buckets);
      StoredAfterFill(ph, CityHash32, Elems(keys), g1, g2, g3, resized, after1, after2, buckets[..]);
    }

    /**
     * The vocabulary and the counts after training on `sentences` (converted to
     * `ids`) from the vocabulary `vocab`, the counts `g1`, `g2`, `g3` and the
     * total `total`: every word interned, every n-gram inside a sentence counted
     * once more, TotalWords increased by the number of words.
     */
    ghost predicate TrainedOn(sentences: seq<seq<Word>>, ids: seq<seq<WordId>>, vocab: map<Word, WordId>,
                              g1: map<WordId, nat>, g2: map<Gram2Key, nat>, g3: map<Gram3Key, nat>, total: nat)
      reads this`WordToId, this`Grams1, this`Grams2, this`Grams3, this`TotalWords
    {
      && Converted(sentences, ids, WordToId) && Extends(vocab, WordToId)
      && Grams1 == AddAll(g1, Flatten(ids))
      && Grams2 == AddAll(g2, CorpusBigrams(ids))
      && Grams3 == AddAll(g3, CorpusTrigrams(ids))
      && TotalWords == total + |Flatten(ids)|
    }

    /** The counting part of Train: ConvertToIds, then the counting pass. */
    method CountCorpus(sentences: seq<seq<Word>>) returns (ids: seq<seq<WordId>>)
      requires AllInternable(sentences)
      modifies this`WordToId, this`LastWordID, this`IdToWord, this`Grams1, this`Grams2, this`Grams3, this`TotalWords
      ensures TrainedOn(sentences, ids, old(WordToId), old(Grams1), old(Grams2), old(Grams3), old(TotalWords))
      ensures old(TrainingOrExhausted()) ==> TrainingOrExhausted()
      ensures old(CountsCover()) ==> CountsCover()
    {
      ids := ConvertToIds(sentences);
      CountNgrams(ids);
      AddAllKeys(old(Grams1), Flatten(ids));
    }

    /**
     * Train: fails when the alphabet did not load or the tokenizer found no
     * sentence; otherwise interns the corpus, counts its n-grams on top of the
     * counts already held, and rebuilds the perfect hash and the buckets, after
     * which every counted key reads back its count.
     */
    method Train(alphabetLoaded: bool, sentences: seq<seq<Word>>, init: seq<Bytes> -> PerfectHash)
      returns (ok: bool, ghost ids: seq<seq<WordId>>)
      requires InitContract(init)
      requires AllInternable(sentences)
      modifies this
      ensures ok == (alphabetLoaded && sentences != [])
      ensures !ok ==> unchanged(this)
      ensures ok ==> TrainedOn(sentences, ids, old(WordToId), old(Grams1), old(Grams2), old(Grams3), old(TotalWords))
      ensures ok ==> K == old(K) && fresh(Buckets) && CountsStored()
      ensures old(TrainingOrExhausted()) ==> TrainingOrExhausted()
      ensures old(CountsCover()) ==> CountsCover()
    {
      if !alphabetLoaded || sentences == [] {
        return false, [];
      }
      ids := TrainOnSentences(sentences, init);
      ok := true;
    }

    /** Train past its two early failures: count, then build the store. */
    method TrainOnSentences(sentences: seq<seq<Word>>, init: seq<Bytes> -> PerfectHash) returns (ghost ids: seq<seq<WordId>>)
      requires InitContract(init)
      requires AllInternable(sentences)
      modifies this`WordToId, this`LastWordID, this`IdToWord, this`Grams1, this`Grams2, this`Grams3,
               this`TotalWords, this`PerfectHash, this`Buckets
      ensures TrainedOn(sentences, ids, old(WordToId), old(Grams1), old(Grams2), old(Grams3), old(TotalWords))
      ensures fresh(Buckets) && CountsStored()
      ensures old(TrainingOrExhausted()) ==> TrainingOrExhausted()
      ensures old(CountsCover()) ==> CountsCover()
    {
      var sentenceIds := CountCorpus(sentences);
      ids := sentenceIds;
      BuildStore(init);
    }

    /** The vocabulary, the counts and K are back at their initial values. */
    ghost predicate Cleared()
      reads this`K, this`WordToId, this`LastWordID, this`IdToWord, this`TotalWords,
            this`Grams1, this`Grams2, this`Grams3
    {
      && K == DefaultK && WordToId == map[] && LastWordID == 0 && IdToWord == []
      && TotalWords == 0 && Grams1 == map[] && Grams2 == map[] && Grams3 == map[]
    }

    /**
     * Clear: K back to its default, the vocabulary, the counter and the counts
     * emptied, and the reverse index emptied with the vocabulary it points
     * into; the perfect hash and the buckets are kept.
     */
    method Clear()
      modifies this`K, this`WordToId, this`LastWordID, this`IdToWord, this`TotalWords,
               this`Grams1, this`Grams2, this`Grams3
      ensures Cleared() && Training() && CountsCover()
    {
      K := DefaultK;
      WordToId := map[];
      LastWordID := 0;
      IdToWord := [];
      TotalWords := 0;
      Grams1 := map[];
      Grams2 := map[];
      Grams3 := map[];
    }

    /**
     * Clear as written: the reverse index is not emptied, so after clearing a
     * model that knew a word, id 0 still resolves to that word (through a
     * pointer into the cleared map) while the vocabulary is empty.
     */
    method ClearAsWritten()
      modifies this`K, this`WordToId, this`LastWordID, this`TotalWords, this`Grams1, this`Grams2, this`Grams3
      ensures K == DefaultK && WordToId == map[] && LastWordID == 0 && TotalWords == 0
      ensures Grams1 == map[] && Grams2 == map[] && Grams3 == map[]
      ensures IdToWord == old(IdToWord)
      ensures old(IdToWord) != [] ==> GetWordById(0) == old(IdToWord)[0] && !VocabConsistent()
    {
      K := DefaultK;
      WordToId := map[];
      LastWordID := 0;
      TotalWords := 0;
      Grams1 := map[];
      Grams2 := map[];
      Grams3 := map[];
    }

    /** The payload is in place: K, the vocabulary, TotalWords, the hash and the buckets, in a fresh array. */
    ghost predicate PayloadInPlace(p: SavedModel)
      reads this`K, this`WordToId, this`TotalWords, this`PerfectHash, this`Buckets, Buckets
    {
      && K == p.k && WordToId == p.wordToId && TotalWords == p.totalWords
      && PerfectHash == p.ph && Buckets[..] == p.buckets
    }

    /** Reading the payload: each persisted field is replaced by the saved one. */
    method LoadPayload(p: SavedModel)
      modifies this`K, this`WordToId, this`TotalWords, this`PerfectHash, this`Buckets
      ensures PayloadInPlace(p) && fresh(Buckets)
    {
      K := p.k;
      WordToId := p.wordToId;
      TotalWords := p.totalWords;
      PerfectHash := p.ph;
      Buckets := new Bucket[|p.buckets|](i requires 0 <= i < |p.buckets| => p.buckets[i]);
      assert Buckets[..] == p.buckets;
    }

    /**
     * Load: the leading magic number, then the version, must match, or
     * nothing changes; after the payload, a trailing magic number that does
     * not match clears the model; otherwise the reverse index is rebuilt from
     * the loaded vocabulary. The counts and the id counter are not persisted
     * and keep their values.
     */
    method Load(stream: seq<Token>) returns (ok: bool)
      modifies this
      ensures ok == Accepts(stream)
      ensures !HeaderOk(stream) ==> unchanged(this)
      ensures HeaderOk(stream) && !ok ==> Cleared() && Training() && CountsCover()
      ensures HeaderOk(stream) && !ok ==>
                if |stream| > 2 && stream[2].Payload?
                then PerfectHash == stream[2].model.ph && Buckets[..] == stream[2].model.buckets && fresh(Buckets)
                else PerfectHash == old(PerfectHash) && Buckets == old(Buckets) && Buckets[..] == old(Buckets[..])
      ensures ok ==> PayloadInPlace(stream[2].model) && fresh(Buckets) && VocabConsistent()
      ensures ok ==> LastWordID == old(LastWordID) && Grams1 == old(Grams1) && Grams2 == old(Grams2) && Grams3 == old(Grams3)
    {
      var magic := ReadInt(stream, 0);
      if magic.0 != MagicByte {
        return false;
      }
      var version := ReadInt(stream, magic.1);
      if version.0 != Version {
        return false;
      }
      var pos := version.1;
      if pos < |stream| && stream[pos].Payload? {
        LoadPayload(stream[pos].model);
        pos := pos + 1;
      } else {
        pos := |stream|;
      }
      var trailer := ReadInt(stream, pos);
      if trailer.0 != MagicByte {
        Clear();
        return false;
      }
      IdToWord := ReverseIndex(WordToId);
      ok := true;
    }

    /** Consistent indexes make a dense vocabulary: the ids are exactly 0 .. n-1, each used once. */
    lemma ConsistentIsDense()
      requires VocabConsistent()
      ensures DenseVocabulary(WordToId)
    {
      forall i: nat
        ensures i in IdsOf(WordToId) <==> i < |WordToId|
      {
        if i < |WordToId| {
          assert WordToId[IdToWord[i]] == i;
        }
      }
    }

    /** Save: the magic number, the version, the payload (K, vocabulary, TotalWords, hash, buckets), the magic number. */
    function Save(): (stream: seq<Token>)
      reads this, Buckets
      requires VocabConsistent()
      ensures Accepts(stream)
      ensures PayloadInPlace(stream[2].model)
    {
      ConsistentIsDense();
      SaveStream(Snapshot(K, WordToId, TotalWords, PerfectHash, Buckets[..]))
    }

    /** On a model whose counts cover its vocabulary, the number of unigram counts is the vocabulary size. */
    lemma VocabSizeAgrees()
      ensures VocabConsistent() && CountsCover() ==> |Grams1| == |WordToId|
    {
      if VocabConsistent() && CountsCover() {
        ConsistentIsDense();
        IdsOfSize(WordToId);
        assert |Grams1| == |Grams1.Keys|;
      }
    }

    /**
     * What scoring reads, with the vocabulary size taken as the number of
     * interned words: once the store is built, every counted unigram reads
     * back its count, and the vocabulary size is the size of the reverse index.
     */
    function CurrentScorer(): (sc: Scorer)
      reads this`K, this`TotalWords, this`WordToId, this`IdToWord, this`Grams1, this`Grams2, this`Grams3,
            this`PerfectHash, this`Buckets, Buckets
      requires Ready()
      ensures sc.store.Ready()
      ensures VocabConsistent() ==> sc.vocabSize == |IdToWord|
      ensures CountsStored() ==>
                forall id :: id in Grams1 && id != UnknownWordId ==> sc.store.GetGram1HashCount(id) == Grams1[id]
    {
      Scorer(K, TotalWords, |WordToId|, CountStore())
    }

    /**
     * What scoring reads as written: the vocabulary size is the number of
     * unigram counts held, which on a trained model (counts covering the
     * vocabulary) is the corrected reading.
     */
    function CurrentScorerAsWritten(): (sc: Scorer)
      reads this`K, this`TotalWords, this`WordToId, this`IdToWord, this`Grams1, this`Grams2, this`Grams3,
            this`PerfectHash, this`Buckets, Buckets
      requires Ready()
      ensures sc.store.Ready()
      ensures VocabConsistent() && CountsCover() ==> sc == CurrentScorer()
    {
      VocabSizeAgrees();
      Scorer(K, TotalWords, |Grams1|, CountStore())
    }

    /** Score: the words looked up without interning, then scored. */
    function Score(words: seq<Word>): (r: ScoreResult)
      reads this`K, this`TotalWords, this`WordToId, this`IdToWord, this`Grams1, this`Grams2, this`Grams3,
            this`PerfectHash, this`Buckets, Buckets
      requires words != [] ==> Ready()
      ensures r.MinSentinel? <==> words == []
      ensures r.LogSumOf? ==> |r.factors| == 3 * |words|
    {
      if words == [] then MinSentinel else CurrentScorer().Score(LookupIds(WordToId, words))
    }

    /**
     * Before any store is built or loaded, the paths that never reach the
     * hash still answer: no words score the sentinel, the unknown id counts 0.
     */
    lemma UnbuiltStoreAnswers()
      ensures Score([]) == MinSentinel
      ensures GetWordCount(UnknownWordId) == 0
    {
    }

    /** A word outside the vocabulary contributes the floor K / (TotalWords + vocabulary size) as its unigram ratio. */
    lemma UnknownWordScoresFloor(words: seq<Word>, i: nat)
      requires Ready()
      requires i < |words| && words[i] !in WordToId
      ensures Score(words).LogSumOf?
      ensures Score(words).factors[3 * i] == Ratio(K, (TotalWords + |WordToId|) as real)
    {
      ScoreShape(CurrentScorer(), LookupIds(WordToId, words), i);
    }

    /** A trained word contributes its own count plus K as its unigram numerator. */
    lemma KnownWordScoresCount(words: seq<Word>, i: nat)
      requires CountsStored()
      requires i < |words| && words[i] in WordToId
      requires WordToId[words[i]] in Grams1 && WordToId[words[i]] != UnknownWordId
      ensures Score(words).LogSumOf?
      ensures Score(words).factors[3 * i].num == Grams1[WordToId[words[i]]] as real + K
    {
      ScoreShape(CurrentScorer(), LookupIds(WordToId, words), i);
    }
  }

  /**
   * Saving a model and loading the file into another model gives back the
   * vocabulary, the reverse index and every score.
   */
  method SaveThenLoad(m: LangModel, target: LangModel) returns (ok: bool)
    requires m != target
    requires m.VocabConsistent() && m.Ready()
    requires target.CityHash32 == m.CityHash32
    modifies target
    ensures ok
    ensures target.WordToId == m.WordToId
    ensures forall wid :: target.GetWordById(wid) == m.GetWordById(wid)
    ensures target.Ready()
    ensures forall words :: target.Score(words) == m.Score(words)
  {
    ok := target.Load(m.Save());
  }

  /**
   * As written, the unigram denominator reads the size of Grams1, which the
   * file does not carry: a model that learned words, saved and loaded into a
   * fresh model, gives an unseen word a different unigram ratio.
   */
  method SaveThenLoadAsWritten(m: LangModel, target: LangModel) returns (ok: bool)
    requires m != target
    requires m.VocabConsistent() && m.Ready() && m.CountsCover() && m.WordToId != map[]
    requires target.CityHash32 == m.CityHash32 && target.Grams1 == map[]
    modifies target
    ensures ok && target.Ready()
    ensures target.CurrentScorerAsWritten().Gram1Prob(UnknownWordId) != m.CurrentScorerAsWritten().Gram1Prob(UnknownWordId)
    ensures target.CurrentScorer().Gram1Prob(UnknownWordId) == m.CurrentScorer().Gram1Prob(UnknownWordId)
  {
    ok := target.Load(m.Save());
  }
}
