# JamSpell language model, in Dafny

This project models the n-gram language model at the heart of the JamSpell
spelling corrector (`TLangModel`, `openspell/lang_model.cpp`). It covers:

- **Vocabulary interning.** Words are interned to dense 32-bit ids: a
  word-to-id map, a counter and a reverse index.
- **The training pass.** Every sentence of the tokenised corpus is interned,
  then its unigrams, bigrams and trigrams are counted, and the total word count
  is kept.
- **The counter store.** The count of every n-gram goes into one bucket
  vector. A perfect hash built over the byte form of every training key picks
  the bucket, and the bucket keeps a 32-bit fingerprint of its key. A lookup
  returns the stored count only when the fingerprints match.
- **Smoothed scoring.** A sentence is scored from the additively smoothed
  unigram, bigram and trigram ratios, and the bigram and trigram counts are
  guarded against fingerprint collisions.
- **Save, Load and Clear.** These follow the protocol of the model file:
  magic number, version, payload, magic number.

Modules:

- `Vocabulary`: words, 32-bit ids, the unknown id, and dense vocabularies.
- `KeyEncoding`: the byte form of a gram key (four bytes per id, least
  significant first) and its injectivity.
- `NgramCounts`: counting as a function, `AddAll(m, ks)`, and the bigrams and
  trigrams of a sentence and of a corpus.
- `BucketStore`: buckets, the perfect hash as a value with its contract, the
  read-only `Store` with its lookups, and the key collection and bucket fill
  loops.
- `Scoring`: the collision guard, the three smoothed ratios as exact rationals,
  and the score of a sentence of ids.
- `ModelFile`: the model file as a stream of tokens, and the payload a save
  writes.
- `LanguageModel`: the class `LangModel`, whose fields are those of the
  source object, and its operations. Interning, training, bucket building,
  loading and clearing are methods that update fields in place. The lookups are
  functions over the fields.

The perfect hash builder (`TPerfectHash::Init`) and `CityHash32` are foreign
code. They are parameters: `init` carries the contract the build relies on
(every key lands in range, no two training keys collide), and `CityHash32` is
any function into 32-bit values.

The model follows the code, with three exceptions. The class members carry
corrections for the three defects listed under "## Findings", and each
correction sits next to an as-written member that shows the defect:

- `Clear` also empties the reverse index (as written: `ClearAsWritten`).
- `Load` rebuilds a reverse index of exactly one entry per word (as written:
  `ReverseIndexAsWritten`).
- Scoring takes the vocabulary size as the number of interned words (as
  written: `CurrentScorerAsWritten`, which reads the number of unigram counts).

Other points where the code decides:

- A failed trailing magic number calls `Clear`, which resets the vocabulary,
  the counts and K. It leaves the perfect hash and the buckets as loaded.
- The payload is assumed to hold K, the vocabulary, TotalWords, the perfect
  hash and the buckets, and nothing else. Its layout is declared in
  `lang_model.hpp`, which is not part of this model. Under that assumption
  `Load` leaves the counts (`Grams1`-`Grams3`) and the id counter at their
  previous values.

## Model

| member | source | states |
|---|---|---|
| Vocabulary.NextWordId | openspell/lang_model.cpp:233 | `++LastWordID` on a 32-bit id: one more, or 0 after the largest id |
| KeyEncoding.Decode32Encode32 | openspell/lang_model.cpp:15-21 | the four-byte form of an id decodes back to the id |
| KeyEncoding.DumpKey2Injective | openspell/lang_model.cpp:15-21 | two bigram keys with the same byte form are the same key |
| KeyEncoding.DumpKey3Injective | openspell/lang_model.cpp:15-21 | two trigram keys with the same byte form are the same key |
| NgramCounts.AddAllCount | openspell/lang_model.cpp:78-90 | after counting a key sequence, each key's count has grown by exactly its number of occurrences |
| NgramCounts.AddAllKeys | openspell/lang_model.cpp:78-90 | a key has a count afterwards exactly when it had one before or occurs in the counted sequence |
| NgramCounts.AddAllAppend | openspell/lang_model.cpp:75-90 | counting one sequence and then another is counting their concatenation, so counting sentence by sentence is counting the corpus |
| NgramCounts.BigramsAt | openspell/lang_model.cpp:83-86 | a sentence of n words yields max(n-1, 0) bigrams, the j-th being words j and j+1 |
| NgramCounts.TrigramsAt | openspell/lang_model.cpp:87-90 | a sentence of n words yields max(n-2, 0) trigrams, the j-th being words j, j+1, j+2 |
| NgramCounts.CorpusBigramsWithinSentences | openspell/lang_model.cpp:75-86 | every bigram counted from a corpus is two adjacent words of a single sentence |
| NgramCounts.CorpusTrigramsWithinSentences | openspell/lang_model.cpp:75-90 | every trigram counted from a corpus is three adjacent words of a single sentence |
| NgramCounts.BoundaryBigram | openspell/lang_model.cpp:83-86 | two sentences yield their own bigrams only; the pair across the boundary, which joining them would add, is not counted |
| NgramCounts.CorpusGramLengths | openspell/lang_model.cpp:83-90 | a corpus yields the sum of max(n-1, 0) bigrams and the sum of max(n-2, 0) trigrams over its sentences |
| BucketStore.Store.GetGramHashCount | openspell/lang_model.cpp:304-317 | a lookup returns 0 or the count of the key's bucket, and 0 whenever the fingerprints differ |
| BucketStore.Store.GetGram1HashCount | openspell/lang_model.cpp:319-325 | the unknown id reads 0 without consulting the buckets: it needs no built store |
| BucketStore.Store.GetGram2HashCount | openspell/lang_model.cpp:327-333 | a bigram with an unknown id reads 0, and needs no built store |
| BucketStore.Store.GetGram3HashCount | openspell/lang_model.cpp:335-341 | a trigram with an unknown id reads 0, and needs no built store |
| BucketStore.StoredKeyReadsBack | openspell/lang_model.cpp:304-317 | a bucket holding a key's fingerprint and count gives that count back for the key |
| BucketStore.PrepareNgramKeys | openspell/lang_model.cpp:23-28 | appends one byte string per key of the map, keeps the earlier keys, and includes every key's byte form |
| BucketStore.InitializeBuckets | openspell/lang_model.cpp:30-44 | every key of the map sits in its bucket with its fingerprint and count; buckets no key hashes to are untouched |
| BucketStore.DisjointSlots | openspell/lang_model.cpp:108-121 | keys of two orders, whose byte forms differ, never share a bucket under a hash that is collision-free over all keys |
| Scoring.GuardedCount | openspell/lang_model.cpp:285-287 | the count used never exceeds its context count; it is the raw count exactly when that does not exceed the context, and 0 otherwise |
| Scoring.Scorer.Gram1Prob | openspell/lang_model.cpp:275-280 | numerator is count1 + K (just K for the unknown id), denominator TotalWords + vocabulary size |
| Scoring.Scorer.Gram2Prob | openspell/lang_model.cpp:282-291 | numerator between K and count1(a) + K, K when an id is unknown; denominator count1(a) + TotalWords |
| Scoring.Scorer.Gram3Prob | openspell/lang_model.cpp:293-302 | numerator between K and count2(a, b) + K, K when an id is unknown; denominator count2(a, b) + TotalWords |
| Scoring.Scorer.Windows | openspell/lang_model.cpp:141-145 | a padded sentence of m ids yields three ratios for each of its m-2 windows |
| Scoring.Scorer.Score | openspell/lang_model.cpp:128-147 | the sentinel exactly for an empty sentence, which needs no built store; otherwise three ratios per word |
| Scoring.WindowsAt | openspell/lang_model.cpp:141-145 | window i scores the unigram of word i, the bigram (i, i+1) and the trigram (i, i+1, i+2) |
| Scoring.ScoreShape | openspell/lang_model.cpp:133-145 | a sentence of n words is scored by exactly n windows over the sentence padded with two unknown ids, and the last word's bigram and trigram ratios fall back to K |
| Scoring.FactorsPositive | openspell/lang_model.cpp:140-145 | with K > 0 and a non-empty corpus, every ratio whose logarithm is taken is positive |
| Scoring.UnknownWordFloor | openspell/lang_model.cpp:275-280 | an unseen word gets exactly K / (TotalWords + vocabulary size) |
| ModelFile.ReadInt | openspell/lang_model.cpp:170-172 | a read that yields a non-zero value read an integer token at the current position and moves past it |
| ModelFile.SaveStream | openspell/lang_model.cpp:160-166 | a saved file is accepted by Load and carries the saved payload |
| LanguageModel.LookupIds | openspell/lang_model.cpp:129-132 | one id per word: the word's id, or the unknown id for a word outside the vocabulary |
| LanguageModel.SeparatedOrders | openspell/lang_model.cpp:108-121 | under a hash collision-free over all training keys, keys of one order never share a bucket, and no two orders share a bucket |
| LanguageModel.ReverseIndex | openspell/lang_model.cpp:187-191 | corrected half of the first finding (as written: ReverseIndexAsWritten). The rebuilt reverse index has one entry per id; entry i is the word whose id is i, and each word's id leads back to it |
| LanguageModel.ReverseIndexAsWritten | openspell/lang_model.cpp:187-191 | the index as built has vocabulary size + 1 entries; each word sits at its id, and the last entry is null |
| LanguageModel.AsWrittenIndexDiffersOnlyOnePast | openspell/lang_model.cpp:248-253 | on the index Load builds, GetWordById answers every id as the corrected index does (the word of an id in use, the empty word past the end); it dereferences null exactly at the id equal to the vocabulary size |
| LanguageModel.OnePastVocabularyDereferencesNull | openspell/lang_model.cpp:188 | on the index as built, the id equal to the vocabulary size passes the bounds check and dereferences null |
| LanguageModel.LangModel.GetWordId | openspell/lang_model.cpp:224-237 | a known word returns its id and changes nothing; a new word gets the old counter value, the counter advances by one, and the word is added to both indexes; the ids in use grow by the returned id only, and consistency is kept |
| LanguageModel.LangModel.GetWordIdNoCreate | openspell/lang_model.cpp:239-246 | the stored id of a known word, and the unknown id exactly for an absent word; reads only |
| LanguageModel.LangModel.GetWordById | openspell/lang_model.cpp:248-253 | the empty word for an id past the reverse index; under consistent indexes, the word whose id it is, and the empty word exactly for ids past the vocabulary |
| LanguageModel.LangModel.GetWordAgrees | openspell/lang_model.cpp:259-265 | on consistent indexes GetWord gives the word that resolving its id gives: the stored word for a known word, the empty word otherwise |
| LanguageModel.LangModel.IdWordRoundTrip | openspell/lang_model.cpp:239-253 | interning lookups and id resolution are inverse on consistent indexes |
| LanguageModel.LangModel.GetWordCount | openspell/lang_model.cpp:255-257 | 0 for the unknown id, with or without a built store; once the store is built, a counted id's unigram count |
| LanguageModel.LangModel.ConvertToIds | openspell/lang_model.cpp:210-222 | every word of every sentence is replaced by its id, earlier ids are kept, the ids in use grow by exactly the ids returned, and consistency is kept |
| LanguageModel.LangModel.ConvertSentence | openspell/lang_model.cpp:213-219 | one sentence converted word by word to ids of the grown vocabulary |
| LanguageModel.LangModel.CountNgrams | openspell/lang_model.cpp:75-90 | the counts become the old counts plus every word, every in-sentence bigram and every in-sentence trigram of the corpus; TotalWords grows by the number of words |
| LanguageModel.LangModel.CountUnigrams | openspell/lang_model.cpp:78-81 | each word of the sentence counted once more, and TotalWords grows by the sentence length |
| LanguageModel.LangModel.CountBigrams | openspell/lang_model.cpp:83-86 | each adjacent pair of the sentence counted once more |
| LanguageModel.LangModel.CountTrigrams | openspell/lang_model.cpp:87-90 | each adjacent triple of the sentence counted once more |
| LanguageModel.LangModel.CollectKeys | openspell/lang_model.cpp:100-110 | one byte string per key of the three orders, covering every key's byte form |
| LanguageModel.LangModel.BuildStore | openspell/lang_model.cpp:112-121 | after the build, every counted key without an unknown id reads back its count, and buckets no key hashes to keep their resized content |
| LanguageModel.LangModel.CountCorpus | openspell/lang_model.cpp:60-96 | the corpus is interned and counted on top of the previous counts; consistency and count coverage are kept |
| LanguageModel.LangModel.Train | openspell/lang_model.cpp:46-126 | fails and changes nothing when the alphabet is missing or there is no sentence; otherwise the corpus is interned and counted, and every counted key reads back its count |
| LanguageModel.LangModel.TrainOnSentences | openspell/lang_model.cpp:60-121 | the corpus is interned and counted, and the store is rebuilt so that every count reads back |
| LanguageModel.LangModel.Clear | openspell/lang_model.cpp:195-204 | corrected half of the third finding (as written: ClearAsWritten). K, the vocabulary, the counter, the reverse index, TotalWords and the counts are back to their initial values |
| LanguageModel.LangModel.ClearAsWritten | openspell/lang_model.cpp:195-204 | the reverse index survives: after clearing a model that knew a word, id 0 still resolves while the vocabulary is empty |
| LanguageModel.LangModel.LoadPayload | openspell/lang_model.cpp:180 | K, the vocabulary, TotalWords, the hash and the buckets are replaced by the saved ones |
| LanguageModel.LangModel.Load | openspell/lang_model.cpp:168-193 | uses the corrected ReverseIndex and Clear (as written: ReverseIndexAsWritten, ClearAsWritten). Load succeeds exactly on magic, version, payload, magic. A wrong header changes nothing. A wrong trailer clears the model and keeps the hash and buckets just read, or the old ones when no payload was read. On success the payload is in place and the reverse index is consistent with it |
| LanguageModel.LangModel.ConsistentIsDense | openspell/lang_model.cpp:232-236 | consistent indexes make a dense vocabulary: the ids in use are exactly 0 .. n-1 |
| LanguageModel.LangModel.Save | openspell/lang_model.cpp:160-166 | the file written is one Load accepts, and its payload is the model's |
| LanguageModel.LangModel.VocabSizeAgrees | openspell/lang_model.cpp:278 | when the unigram counts cover the vocabulary (a trained model), their number is the vocabulary size |
| LanguageModel.LangModel.CurrentScorer | openspell/lang_model.cpp:275-280 | corrected half of the second finding (as written: CurrentScorerAsWritten). The vocabulary size is the size of the reverse index, and once the store is built every counted unigram reads back its count |
| LanguageModel.LangModel.CurrentScorerAsWritten | openspell/lang_model.cpp:278 | the denominator reads the number of unigram counts; on a trained model, whose counts cover the vocabulary, this is the corrected scorer |
| LanguageModel.LangModel.Score | openspell/lang_model.cpp:128-147 | uses the corrected CurrentScorer (as written: CurrentScorerAsWritten). The sentinel exactly for no words, with or without a built store; otherwise three ratios per word |
| LanguageModel.LangModel.UnknownWordScoresFloor | openspell/lang_model.cpp:128-147 | a word outside the vocabulary gets K / (TotalWords + vocabulary size) as its unigram ratio |
| LanguageModel.LangModel.KnownWordScoresCount | openspell/lang_model.cpp:128-147 | a trained word gets its own count plus K as its unigram numerator |
| LanguageModel.SaveThenLoad | openspell/lang_model.cpp:160-193 | loading a saved model gives back its vocabulary, every id-to-word answer and every sentence score |
| LanguageModel.SaveThenLoadAsWritten | openspell/lang_model.cpp:275-280 | as written, a saved and reloaded model gives an unseen word a different unigram ratio than the original |

## Left out

- File and stream I/O, and the byte encoding of the integers, maps, perfect hash and bucket vector that make up the payload. A model file is a sequence of tokens (`ModelFile.Token`), and the payload is one token.
- LanguageModel.LangModel.Load: payloads are assumed to be what `Save` writes from a model with consistent indexes, i.e. a dense vocabulary whose ids are exactly 0 .. n-1, each used once. Other vocabularies are not modelled; with them the source writes outside the rebuilt reverse index or leaves entries unset. The hash and the buckets are loaded as they are, and a hash out of range of the buckets only shows when scoring, whose lookups require the hash in range (the source asserts it at line 311).
- LanguageModel.LangModel.Save: requires consistent indexes, which the source does not demand. They hold after construction, after `Clear` and after a successful `Load`, and interning keeps them when it starts from a training state (the counter equal to the vocabulary size). They do not hold after interning on top of a `Load`, so such a model cannot be saved in this model.
- LanguageModel.LangModel.Load: under the assumed payload the id counter is not restored, so interning new words after a `Load` hands out ids the loaded vocabulary already uses (a fresh model loading `{"a": 0}` gives the next new word id 0 again).
- LanguageModel.LangModel.Load: a payload that cannot be read at all is modelled as nothing loaded, followed by a failed trailer read. A partial payload read is not modelled. The payload layout is declared in `lang_model.hpp`, which is not part of this model.
- Representative choices for details declared outside `lang_model.cpp` (`lang_model.hpp` and the `NSaveLoad` serialiser are not part of this model):
  - the values of the magic number, the version and the default K. The proofs need only the magic number and the version to be non-zero.
  - the 32-bit width of a word id, and the unknown id as its largest value, 0xFFFF_FFFF.
  - the byte form of a gram key: four bytes per id, least significant first. The proofs need only that this form is injective and that keys of different orders differ in length.
- `TPerfectHash::Init` and `CityHash32` are parameters. The build relies only on the contract of `init`.
- The tokenizer (`LoadAlphabet`, `Process`, `GetAlphabet`, `Tokenize`, `Tokenizer.Clear`), `UTF8ToWide`, `ToLower` and `LoadFile`. `Train` receives the outcome of the alphabet load and the tokenised sentences.
- The logarithms and double arithmetic of `Score` and the `*Prob` functions. A ratio is an exact pair of reals, and a score is the sequence of ratios whose logarithms would be summed. The sentinel `numeric_limits<double>::min()` is a constructor of its own.
- `Score(const std::wstring&)`, which only tokenises and then calls `Score` on the words. `GetWordToId` only returns the map.
- Progress logging, `std::cerr` output and `GetCurrentTimeMs`.
- `TCount` overflow: counts are unbounded.
- BucketStore.PrepareNgramKeys: states the number of strings appended and that every key's byte form is among them. It does not state that each appended string is the byte form of a distinct key, which is all the perfect hash needs.
- LanguageModel.LangModel.GetWordId: the source asserts the word is non-empty and shorter than 10000 characters. The model turns this assertion into a precondition.
- After the id space is exhausted, the consistency of the indexes is no longer claimed. The 2^32-th new word is given id 0xFFFF_FFFF, which is the unknown id itself, so no lookup ever reads its counts. After that the counter wraps to 0 and hands out ids already in use.

## Findings

| source | as written | input that shows it | evidently intended | confidence | as-written member | corrected member |
|---|---|---|---|---|---|---|
| openspell/lang_model.cpp:188 | after a load the reverse index gets vocabulary size + 1 entries, all null before the fill, so the last entry stays null; `GetWordById` only rejects ids at or past the index size | any valid model file, then `GetWordById(n)` for a vocabulary of n words: the bound check passes and a null pointer is dereferenced | an index of exactly n entries, so id n resolves to the empty word as during training | medium; not executed | LanguageModel.OnePastVocabularyDereferencesNull | LanguageModel.ReverseIndex |
| openspell/lang_model.cpp:278 | the unigram denominator reads `Grams1.size()`, and the counts are not part of the saved payload | train on one sentence of two words, save, load into a new model: an unseen word's ratio is K / TotalWords instead of K / (TotalWords + 2) | the vocabulary size, i.e. the number of interned words, which equals `Grams1.size()` right after training | low; the payload layout is declared in `lang_model.hpp`, which is not part of this model; not executed | LanguageModel.SaveThenLoadAsWritten | LanguageModel.SaveThenLoad |
| openspell/lang_model.cpp:195-204 | `Clear` empties the vocabulary map but not the reverse index, whose entries point at the map's keys | intern one word, call `Clear`, then `GetWordById(0)`: a pointer into the cleared map is dereferenced | `Clear` also empties the reverse index | medium; not executed | LanguageModel.LangModel.ClearAsWritten | LanguageModel.LangModel.Clear |
