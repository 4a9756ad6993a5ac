/** Fixed-width little-endian integers, the byte order of every virtio structure. */
module LittleEndian {
  import opened Primitives

  /** The number of values that fit in `n` bytes. */
  function Limit(n: nat): (limit: nat)
    ensures limit >= 1
  {
    if n == 0 then 1 else 256 * Limit(n - 1)
  }

  /** The `n` low bytes of `v`, least significant first. */
  function Encode(v: nat, n: nat): (bytes: seq<byte>)
    ensures |bytes| == n
  {
    if n == 0 then [] else [v % 256] + Encode(v / 256, n - 1)
  }

  function Decode(bytes: seq<byte>): (v: nat) {
    if bytes == [] then 0 else bytes[0] + 256 * Decode(bytes[1..])
  }

  lemma {:induction false} DecodeEncode(v: nat, n: nat)
    requires v < Limit(n)
    ensures Decode(Encode(v, n)) == v
  {
    if n > 0 {
      DecodeEncode(v / 256, n - 1);
      assert Encode(v, n)[1..] == Encode(v / 256, n - 1);
    }
  }

  lemma {:induction false} EncodeDecode(bytes: seq<byte>)
    ensures Decode(bytes) < Limit(|bytes|)
    ensures Encode(Decode(bytes), |bytes|) == bytes
  {
    if bytes != [] {
      EncodeDecode(bytes[1..]);
      assert bytes == [bytes[0]] + bytes[1..];
    }
  }

  lemma Limits()
    ensures Limit(2) == U16_LIMIT && Limit(4) == U32_LIMIT && Limit(8) == U64_LIMIT
  {
    assert Limit(2) == 256 * Limit(1);
    assert Limit(4) == 256 * Limit(3) == 256 * 256 * Limit(2);
    assert Limit(6) == 256 * Limit(5) == 256 * 256 * Limit(4);
    assert Limit(8) == 256 * Limit(7) == 256 * 256 * Limit(6);
  }

  /** Little-endian: a byte stands for itself, and what follows `n` bytes weighs 256^n. */
  lemma {:induction false} DecodeConcat(a: seq<byte>, b: seq<byte>)
    ensures Decode(a + b) == Decode(a) + Limit(|a|) * Decode(b)
    ensures |a| == 1 ==> Decode(a) == a[0] && Limit(|a|) == 256
  {
    if a == [] {
      assert a + b == b;
    } else {
      var rest := a[1..];
      DecodeConcat(rest, b);
      assert (a + b)[1..] == rest + b;
      Scale(Limit(|rest|), Decode(b));
      assert Limit(|a|) == 256 * Limit(|rest|) && Decode(a) == a[0] + 256 * Decode(rest);
    }
  }

  lemma Scale(w: int, v: int)
    ensures (256 * w) * v == 256 * (w * v)
  {
  }

  /** Reads two, four or eight bytes as the integer they encode. */
  function DecodeU16(bytes: seq<byte>): (v: u16)
    requires |bytes| == 2
  {
    EncodeDecode(bytes);
    Limits();
    Decode(bytes)
  }

  function DecodeU32(bytes: seq<byte>): (v: u32)
    requires |bytes| == 4
  {
    EncodeDecode(bytes);
    Limits();
    Decode(bytes)
  }

  function DecodeU64(bytes: seq<byte>): (v: u64)
    requires |bytes| == 8
  {
    EncodeDecode(bytes);
    Limits();
    Decode(bytes)
  }
}
