/**
 * The perfect-hash counter store: one bucket array shared by the keys of all
 * three orders. A key's bucket is chosen by a perfect hash built over the byte
 * forms of every training key; the bucket keeps a 32-bit fingerprint of the key
 * next to its count, so that an unseen key that the hash sends to an occupied
 * bucket is recognised and reads as 0.
 *
 * The perfect hash (TPerfectHash) and the fingerprint (CityHash32) are foreign
 * code: they are values here, constrained only by their contracts.
 */
module BucketStore {
  import opened Vocabulary
  import opened KeyEncoding

  type U32 = x: nat | x < 0x1_0000_0000

  /** A bucket: the fingerprint of the key stored there and that key's count. */
  datatype Bucket = Bucket(fingerprint: U32, count: nat)

  /** What resizing the bucket vector puts in a new slot: a value-initialised pair. */
  const EmptyBucket := Bucket(0, 0)

  /** A perfect hash: a bucket index for every byte string, and the number of buckets. */
  datatype PerfectHash = PerfectHash(hash: Bytes -> nat, bucketsNumber: nat)

  /** Every key, seen at build time or not, is sent to some bucket in [0, N). */
  ghost predicate InRange(ph: PerfectHash) {
    forall s :: ph.hash(s) < ph.bucketsNumber
  }

  /** No two keys of `keys` share a bucket. */
  ghost predicate CollisionFree(ph: PerfectHash, keys: set<Bytes>) {
    forall s, t :: s in keys && t in keys && ph.hash(s) == ph.hash(t) ==> s == t
  }

  /** The contract of TPerfectHash::Init: the hash built over `keys` is in range and perfect over them. */
  ghost predicate InitContract(init: seq<Bytes> -> PerfectHash) {
    forall keys :: InRange(init(keys)) && CollisionFree(init(keys), set s | s in keys)
  }

  /** The byte forms of the keys of `keys`. */
  ghost function KeyImage<K>(keys: set<K>, dump: K -> Bytes): set<Bytes> {
    set k | k in keys :: dump(k)
  }

  /** The buckets the keys of `keys` hash to. */
  ghost function Slots<K>(keys: set<K>, dump: K -> Bytes, ph: PerfectHash): set<nat> {
    set k | k in keys :: ph.hash(dump(k))
  }

  /** The read-only store a built or loaded model scores with. */
  datatype Store = Store(ph: PerfectHash, city: Bytes -> U32, buckets: seq<Bucket>) {

    /** The hash sends every key in range and there is a bucket for every index. */
    ghost predicate Ready() {
      InRange(ph) && |buckets| == ph.bucketsNumber
    }

    /**
     * The count stored for the dumped key `s`: the count of the bucket `s`
     * hashes to when that bucket's fingerprint is the fingerprint of `s`, and 0
     * otherwise.
     */
    function GetGramHashCount(s: Bytes): (c: nat)
      requires Ready()
      ensures c == 0 || c == buckets[ph.hash(s)].count
      ensures buckets[ph.hash(s)].fingerprint != city(s) ==> c == 0
    {
      var b := ph.hash(s);
      if buckets[b].fingerprint == city(s) then buckets[b].count else 0
    }

    function GetGram1HashCount(w: WordId): (c: nat)
      requires w != UnknownWordId ==> Ready()
      ensures w == UnknownWordId ==> c == 0
    {
      if w == UnknownWordId then 0 else GetGramHashCount(DumpKey1(w))
    }

    function GetGram2HashCount(w1: WordId, w2: WordId): (c: nat)
      requires w1 != UnknownWordId && w2 != UnknownWordId ==> Ready()
      ensures w1 == UnknownWordId || w2 == UnknownWordId ==> c == 0
    {
      if w1 == UnknownWordId || w2 == UnknownWordId then 0
      else GetGramHashCount(DumpKey2((w1, w2)))
    }

    function GetGram3HashCount(w1: WordId, w2: WordId, w3: WordId): (c: nat)
      requires w1 != UnknownWordId && w2 != UnknownWordId && w3 != UnknownWordId ==> Ready()
      ensures w1 == UnknownWordId || w2 == UnknownWordId || w3 == UnknownWordId ==> c == 0
    {
      if w1 == UnknownWordId || w2 == UnknownWordId || w3 == UnknownWordId then 0
      else GetGramHashCount(DumpKey3((w1, w2, w3)))
    }
  }

  /** A bucket written for key `s` gives back the count written, whatever else the store holds. */
  lemma StoredKeyReadsBack(st: Store, s: Bytes, count: nat)
    requires st.Ready()
    requires st.buckets[st.ph.hash(s)] == Bucket(st.city(s), count)
    ensures st.GetGramHashCount(s) == count
  {
  }

  /**
   * PrepareNgramKeys: appends to `keys` the dumped form of every key of
   * `grams`, one string per key, in the order the map is walked.
   */
  method PrepareNgramKeys<K>(grams: map<K, nat>, dump: K -> Bytes, keys: seq<Bytes>) returns (out: seq<Bytes>)
    ensures |out| == |keys| + |grams|
    ensures out[..|keys|] == keys
    ensures forall k :: k in grams ==> dump(k) in out[|keys|..]
  {
    out := keys;
    var rest := grams.Keys;
    ghost var done: set<K> := {};
    ghost var added: seq<Bytes> := [];
    while rest != {}
      invariant rest !! done && rest + done == grams.Keys
      invariant out == keys + added
      invariant |added| == |done|
      invariant forall k :: k in done ==> dump(k) in added
      decreases |rest|
    {
      var k :| k in rest;
      out := out + [dump(k)];
      added := added + [dump(k)];
      rest := rest - {k};
      done := done + {k};
    }
    assert out[..|keys|] == keys && out[|keys|..] == added;
  }

  /** Distinct keys of `keys` hash to distinct buckets. */
  ghost predicate SlotInjective<K>(keys: set<K>, dump: K -> Bytes, ph: PerfectHash) {
    forall k, l :: k in keys && l in keys && ph.hash(dump(k)) == ph.hash(dump(l)) ==> k == l
  }

  /** A collision-free hash over the dumped keys, with an unambiguous dump, separates the keys. */
  lemma CollisionFreeSlots<K>(keys: set<K>, dump: K -> Bytes, ph: PerfectHash)
    requires CollisionFree(ph, KeyImage(keys, dump))
    requires forall a, b :: a in keys && b in keys && dump(a) == dump(b) ==> a == b
    ensures SlotInjective(keys, dump, ph)
  {
    forall k, l | k in keys && l in keys && ph.hash(dump(k)) == ph.hash(dump(l))
      ensures k == l
    {
      assert dump(k) in KeyImage(keys, dump) && dump(l) in KeyImage(keys, dump);
    }
  }

  /** Every key of `keys` sits in its bucket of `b` with its fingerprint and count. */
  ghost predicate Holds<K>(b: seq<Bucket>, keys: set<K>, grams: map<K, nat>, dump: K -> Bytes,
                           ph: PerfectHash, city: Bytes -> U32)
  {
    forall k :: k in keys && k in grams ==>
      ph.hash(dump(k)) < |b| && b[ph.hash(dump(k))] == Bucket(city(dump(k)), grams[k])
  }

  /** `b` is `a` except in the buckets of `slots`. */
  ghost predicate SameOutside(b: seq<Bucket>, a: seq<Bucket>, slots: set<nat>) {
    |b| == |a| && forall i :: 0 <= i < |b| && i !in slots ==> b[i] == a[i]
  }

  /** One step of the fill loop keeps both of its invariants. */
  lemma FillStep<K>(b: seq<Bucket>, orig: seq<Bucket>, done: set<K>, k: K, grams: map<K, nat>,
                    dump: K -> Bytes, ph: PerfectHash, city: Bytes -> U32)
    requires done <= grams.Keys && k in grams && k !in done
    requires SlotInjective(grams.Keys, dump, ph)
    requires ph.hash(dump(k)) < |b|
    requires Holds(b, done, grams, dump, ph, city)
    requires SameOutside(b, orig, Slots(done, dump, ph))
    ensures Holds(b[ph.hash(dump(k)) := Bucket(city(dump(k)), grams[k])], done + {k}, grams, dump, ph, city)
    ensures SameOutside(b[ph.hash(dump(k)) := Bucket(city(dump(k)), grams[k])], orig, Slots(done + {k}, dump, ph))
  {
    var slot := ph.hash(dump(k));
    var b' := b[slot := Bucket(city(dump(k)), grams[k])];
    forall l | l in done + {k} && l in grams
      ensures ph.hash(dump(l)) < |b'| && b'[ph.hash(dump(l))] == Bucket(city(dump(l)), grams[l])
    {
      if l != k {
        assert ph.hash(dump(l)) != slot;
      }
    }
    assert Slots(done + {k}, dump, ph) == Slots(done, dump, ph) + {slot};
  }

  /**
   * InitializeBuckets: writes `(fingerprint, count)` of every key of `grams` at
   * the bucket its dumped form hashes to; buckets no key hashes to keep their
   * content.
   */
  method InitializeBuckets<K>(grams: map<K, nat>, dump: K -> Bytes, ph: PerfectHash,
                              city: Bytes -> U32, buckets: array<Bucket>)
    requires forall k :: k in grams ==> ph.hash(dump(k)) < buckets.Length
    requires SlotInjective(grams.Keys, dump, ph)
    modifies buckets
    ensures Holds(buckets[..], grams.Keys, grams, dump, ph, city)
    ensures SameOutside(buckets[..], old(buckets[..]), Slots(grams.Keys, dump, ph))
  {
    var rest := grams.Keys;
    ghost var done: set<K> := {};
    while rest != {}
      invariant rest <= grams.Keys && done == grams.Keys - rest
      invariant Holds(buckets[..], done, grams, dump, ph, city)
      invariant SameOutside(buckets[..], old(buckets[..]), Slots(done, dump, ph))
      decreases |rest|
    {
      var k :| k in rest;
      var key := dump(k);
      var bucket := ph.hash(key);
      ghost var before := buckets[..];
      FillStep(before, old(buckets[..]), done, k, grams, dump, ph, city);
      buckets[bucket] := Bucket(city(key), grams[k]);
      assert buckets[..] == before[bucket := Bucket(city(key), grams[k])];
      rest := rest - {k};
      done := done + {k};
    }
    assert done == grams.Keys;
  }

  /**
   * Keys of two orders never share a bucket: their dumped forms differ (they
   * differ in length) and the hash is collision-free over all dumped keys.
   */
  lemma DisjointSlots<K, L>(ph: PerfectHash, all: set<Bytes>, a: set<K>, da: K -> Bytes,
                            b: set<L>, db: L -> Bytes)
    requires CollisionFree(ph, all)
    requires KeyImage(a, da) <= all && KeyImage(b, db) <= all
    requires forall x, y :: x in a && y in b ==> da(x) != db(y)
    ensures forall x :: x in a ==> ph.hash(da(x)) !in Slots(b, db, ph)
  {
  }

  /** Writing only buckets that no key of `keys` hashes to keeps those keys in place. */
  lemma HoldsKept<K>(b: seq<Bucket>, a: seq<Bucket>, slots: set<nat>, keys: set<K>, grams: map<K, nat>,
                     dump: K -> Bytes, ph: PerfectHash, city: Bytes -> U32)
    requires Holds(a, keys, grams, dump, ph, city)
    requires SameOutside(b, a, slots)
    requires forall k :: k in keys ==> ph.hash(dump(k)) !in slots
    ensures Holds(b, keys, grams, dump, ph, city)
  {
  }
}
