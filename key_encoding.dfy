/**
 * The byte form of an n-gram key. Both the perfect hash and the fingerprint are
 * computed over it, so every key order must have an unambiguous encoding: a key
 * is written as its ids, four bytes each, least significant byte first.
 */
module KeyEncoding {
  import opened Vocabulary

  type Byte = x: nat | x < 256

  type Bytes = seq<Byte>

  /** The four bytes of a 32-bit id, least significant first. */
  function Encode32(x: WordId): (b: Bytes)
    ensures |b| == 4
  {
    var x1 := x / 256;
    var x2 := x1 / 256;
    [x % 256, x1 % 256, x2 % 256, x2 / 256]
  }

  function Decode32(b: Bytes): nat
    requires |b| == 4
  {
    var b0, b1, b2, b3: nat := b[0], b[1], b[2], b[3];
    b0 + 256 * (b1 + 256 * (b2 + 256 * b3))
  }

  lemma Decode32Encode32(x: WordId)
    ensures Decode32(Encode32(x)) == x
  {
    var x1 := x / 256;
    var x2 := x1 / 256;
    assert x == x % 256 + 256 * x1;
    assert x1 == x1 % 256 + 256 * x2;
    assert x2 == x2 % 256 + 256 * (x2 / 256);
  }

  lemma Encode32Injective(x: WordId, y: WordId)
    requires Encode32(x) == Encode32(y)
    ensures x == y
  {
    Decode32Encode32(x);
    Decode32Encode32(y);
  }

  /** Gram keys of the three orders, as the training maps hold them. */
  type Gram2Key = (WordId, WordId)
  type Gram3Key = (WordId, WordId, WordId)

  function DumpKey1(k: WordId): (s: Bytes)
    ensures |s| == 4
  {
    Encode32(k)
  }

  function DumpKey2(k: Gram2Key): (s: Bytes)
    ensures |s| == 8
  {
    Encode32(k.0) + Encode32(k.1)
  }

  function DumpKey3(k: Gram3Key): (s: Bytes)
    ensures |s| == 12
  {
    Encode32(k.0) + Encode32(k.1) + Encode32(k.2)
  }

  lemma DumpKey2Injective(k: Gram2Key, l: Gram2Key)
    requires DumpKey2(k) == DumpKey2(l)
    ensures k == l
  {
    var s, t := DumpKey2(k), DumpKey2(l);
    assert s[..4] == Encode32(k.0) && t[..4] == Encode32(l.0);
    assert s[4..] == Encode32(k.1) && t[4..] == Encode32(l.1);
    Encode32Injective(k.0, l.0);
    Encode32Injective(k.1, l.1);
  }

  lemma DumpKey3Injective(k: Gram3Key, l: Gram3Key)
    requires DumpKey3(k) == DumpKey3(l)
    ensures k == l
  {
    var s, t := DumpKey3(k), DumpKey3(l);
    assert s[..4] == Encode32(k.0) && t[..4] == Encode32(l.0);
    assert s[4..8] == Encode32(k.1) && t[4..8] == Encode32(l.1);
    assert s[8..] == Encode32(k.2) && t[8..] == Encode32(l.2);
    Encode32Injective(k.0, l.0);
    Encode32Injective(k.1, l.1);
    Encode32Injective(k.2, l.2);
  }
}
