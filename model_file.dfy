/**
 * The saved model as the loader sees it: a stream of values. The byte
 * encoding of integers, maps and the perfect hash is foreign code; here a
 * stream is a sequence of tokens, each an integer or the whole payload.
 */
module ModelFile {
  import opened Vocabulary
  import opened BucketStore

  /**
   * The magic number written before and after the payload, the format version
   * and the default smoothing constant. lang_model.hpp, which declares their
   * values, is not part of this model: these are representative values, and
   * what is proved needs only the magic number and the version to be non-zero
   * and K to be positive.
   */
  const MagicByte: nat := 0x4A53_504C_4D4F_444C
  const Version: nat := 1
  const DefaultK: real := 0.05

  /** The payload: K, the vocabulary, TotalWords, the perfect hash and the buckets. */
  datatype Snapshot = Snapshot(k: real, wordToId: map<Word, WordId>, totalWords: nat,
                               ph: PerfectHash, buckets: seq<Bucket>)

  /**
   * What a save of a model with consistent indexes writes: a dense
   * vocabulary, whose ids are exactly 0 .. n-1, each used once. The hash and
   * the buckets are unconstrained.
   */
  ghost predicate WellFormed(s: Snapshot) {
    DenseVocabulary(s.wordToId)
  }

  type SavedModel = s: Snapshot | WellFormed(s)
    witness Snapshot(0.0, map[], 0, PerfectHash(_ => 0, 0), [])

  datatype Token = Int(value: nat) | Payload(model: SavedModel)

  predicate IsInt(t: Token, v: nat) {
    t.Int? && t.value == v
  }

  /**
   * Reading an integer at `pos`: the value and the position after it. A read
   * that fails leaves the destination at its initial 0 and the stream at its end.
   */
  function ReadInt(stream: seq<Token>, pos: nat): (r: (nat, nat))
    ensures r.1 <= |stream| || r.1 == pos
    ensures r.0 != 0 ==> pos < |stream| && stream[pos].Int? && r.0 == stream[pos].value && r.1 == pos + 1
  {
    if pos < |stream| && stream[pos].Int? then (stream[pos].value, pos + 1) else (0, |stream|)
  }

  /** The leading magic number and the version are right. */
  predicate HeaderOk(stream: seq<Token>) {
    |stream| >= 2 && IsInt(stream[0], MagicByte) && IsInt(stream[1], Version)
  }

  /** A stream Load accepts: magic, version, payload, magic (anything after is not read). */
  predicate Accepts(stream: seq<Token>) {
    HeaderOk(stream) && |stream| >= 4 && stream[2].Payload? && IsInt(stream[3], MagicByte)
  }

  /** Save: the magic number, the version, the payload and the magic number again. */
  function SaveStream(s: SavedModel): (stream: seq<Token>)
    ensures Accepts(stream) && stream[2].model == s
  {
    [Int(MagicByte), Int(Version), Payload(s), Int(MagicByte)]
  }
}
