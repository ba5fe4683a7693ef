/**
 A key and its value as every format of the store writes them: each behind its length, two
 bytes for the key's and four for the value's.
 */
module PairFormat {
  import opened Wrappers
  import opened Keys
  import opened Buffers

  function PairBytes(k: Key, v: Bytes): Bytes {
    Encode(|k|, 2) + k + Encode(|v|, 4) + v
  }

  method WritePair(buffer: array<Byte>, k: Key, v: Bytes, start: nat) returns (offset: nat)
    requires start + 6 + |k| + |v| <= buffer.Length
    modifies buffer
    ensures offset == start + 6 + |k| + |v|
    ensures buffer[..offset] == old(buffer[..start]) + PairBytes(k, v)
  {
    ghost var before, keyLen, valueLen := buffer[..start], Encode(|k|, 2), Encode(|v|, 4);
    offset := start;
    WriteUInt(buffer, |k|, offset, 2);
    offset := offset + 2;
    assert buffer[..offset] == before + keyLen;
    CopyInto(buffer, k, offset);
    offset := offset + |k|;
    assert buffer[..offset] == before + keyLen + k;
    WriteUInt(buffer, |v|, offset, 4);
    offset := offset + 4;
    assert buffer[..offset] == before + keyLen + k + valueLen;
    CopyInto(buffer, v, offset);
    offset := offset + |v|;
    Append4(before, keyLen, k, valueLen, v);
  }

  lemma Append4<T>(a: seq<T>, b: seq<T>, c: seq<T>, d: seq<T>, e: seq<T>)
    ensures (((a + b) + c) + d) + e == a + (b + c + d + e)
  {
  }

  /** One key/value pair and the offset after it. */
  function ReadPair(payload: Bytes, offset: nat): Result<(Key, Bytes, nat)> {
    var keyLen :- ReadUInt(payload, offset, 2);
    var key := Slice(payload, offset + 2, offset + 2 + keyLen);
    var valueLen :- ReadUInt(payload, offset + 2 + keyLen, 4);
    var from := offset + 6 + keyLen;
    Ok((key, Slice(payload, from, from + valueLen), from + valueLen))
  }

  lemma ReadPairBack(b: Bytes, off: nat, k: Key, v: Bytes)
    requires |k| < 0x1_0000 && |v| < 0x1_0000_0000 && At(b, off, PairBytes(k, v))
    ensures ReadPair(b, off) == Ok((k, v, off + |PairBytes(k, v)|))
  {
    PowersOf256();
    AtConcat(b, off, Encode(|k|, 2) + k + Encode(|v|, 4), v);
    AtConcat(b, off, Encode(|k|, 2) + k, Encode(|v|, 4));
    AtConcat(b, off, Encode(|k|, 2), k);
    ReadBack(b, off, |k|, 2);
    ReadBack(b, off + 2 + |k|, |v|, 4);
  }

  lemma ReadPairThere(b: Bytes, off: nat, k: Key, v: Bytes, more: Bytes) returns (next: nat)
    requires |k| < 0x1_0000 && |v| < 0x1_0000_0000 && At(b, off, PairBytes(k, v) + more)
    ensures ReadPair(b, off) == Ok((k, v, next)) && At(b, next, more)
  {
    AtConcat(b, off, PairBytes(k, v), more);
    ReadPairBack(b, off, k, v);
    next := off + |PairBytes(k, v)|;
  }
}
