/** Embeddings as blobs of little-endian 32-bit words (src/cache/semantic_cache.rs). */
module EmbeddingCodec {

  /** The bit pattern of an `f32`. */
  type Word = w: int | 0 <= w < 0x1_0000_0000

  type Byte = b: int | 0 <= b < 0x100

  /** `f32::to_le_bytes`. */
  function ToLeBytes(w: Word): (b: seq<Byte>)
    ensures |b| == 4
  {
    var n := w as int;
    [n % 0x100, n / 0x100 % 0x100, n / 0x1_0000 % 0x100, n / 0x100_0000]
  }

  /** `f32::from_le_bytes`. */
  function FromLeBytes(b: seq<Byte>): Word
    requires |b| == 4
  {
    (b[0] as int) + 0x100 * (b[1] as int) + 0x1_0000 * (b[2] as int) + 0x100_0000 * (b[3] as int)
  }

  function F32ToBytes(floats: seq<Word>): (b: seq<Byte>)
    ensures |b| == 4 * |floats|
  {
    if floats == [] then [] else ToLeBytes(floats[0]) + F32ToBytes(floats[1..])
  }

  /** `chunks_exact(4)`: a remainder of fewer than four bytes is dropped. */
  function BytesToF32(bytes: seq<Byte>): (f: seq<Word>)
    ensures |f| == |bytes| / 4
  {
    if |bytes| < 4 then [] else [FromLeBytes(bytes[..4])] + BytesToF32(bytes[4..])
  }

  lemma {:induction false} WordRoundTrip(w: Word)
    ensures FromLeBytes(ToLeBytes(w)) == w
  {
    var n := w as int;
    assert n == n % 0x100 + 0x100 * (n / 0x100);
    assert n / 0x100 == n / 0x100 % 0x100 + 0x100 * (n / 0x1_0000);
    assert n / 0x1_0000 == n / 0x1_0000 % 0x100 + 0x100 * (n / 0x100_0000);
  }

  lemma {:induction false} BytesRoundTrip(b: seq<Byte>)
    requires |b| == 4
    ensures ToLeBytes(FromLeBytes(b)) == b
  {
    var w, b1, b2, b3 := FromLeBytes(b), b[1] as int, b[2] as int, b[3] as int;
    assert w / 0x100 == b1 + 0x100 * b2 + 0x1_0000 * b3;
    assert w / 0x1_0000 == b2 + 0x100 * b3;
    assert w / 0x100_0000 == b3;
  }

  /** Whatever was stored is read back. */
  lemma {:induction false} DecodeEncode(floats: seq<Word>)
    ensures BytesToF32(F32ToBytes(floats)) == floats
  {
    if floats != [] {
      DecodeEncode(floats[1..]);
      WordRoundTrip(floats[0]);
      assert F32ToBytes(floats)[..4] == ToLeBytes(floats[0]);
      assert F32ToBytes(floats)[4..] == F32ToBytes(floats[1..]);
    }
  }

  /** Reading any blob loses exactly the incomplete last word. */
  lemma {:induction false} EncodeDecode(bytes: seq<Byte>)
    ensures 4 * (|bytes| / 4) <= |bytes| && F32ToBytes(BytesToF32(bytes)) == bytes[..4 * (|bytes| / 4)]
  {
    if |bytes| >= 4 {
      EncodeDecode(bytes[4..]);
      BytesRoundTrip(bytes[..4]);
      assert bytes[..4 * (|bytes| / 4)] == bytes[..4] + bytes[4..][..4 * (|bytes[4..]| / 4)];
      assert BytesToF32(bytes)[1..] == BytesToF32(bytes[4..]);
    }
  }

  /** The byte order: byte `k` counts multiples of 256 to the power of `k`. */
  lemma {:induction false} BytesAreLittleEndian(w: Word)
    ensures var b := ToLeBytes(w);
            w as int == (b[0] as int) + 256 * (b[1] as int) + 65_536 * (b[2] as int) + 16_777_216 * (b[3] as int)
  {
    WordRoundTrip(w);
  }

  /** Word `i` of an embedding occupies the bytes from 4i on. */
  lemma {:induction false} WordPosition(floats: seq<Word>, i: nat)
    requires i < |floats|
    ensures F32ToBytes(floats)[4 * i..4 * i + 4] == ToLeBytes(floats[i])
  {
    var b, rest := F32ToBytes(floats), F32ToBytes(floats[1..]);
    assert b == ToLeBytes(floats[0]) + rest;
    if i > 0 {
      WordPosition(floats[1..], i - 1);
      assert b[4 * i..4 * i + 4] == rest[4 * (i - 1)..4 * (i - 1) + 4];
    }
  }
}
