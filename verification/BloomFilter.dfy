/**
 The Bloom filter of a table file: bits in an array of bytes, positions by double hashing.
 A filter read from a buffer that is too short has fewer bits than it claims; a bit that is
 not there reads as clear.
 */
module BloomFilters {
  import opened Wrappers
  import opened Keys
  import opened Buffers
  import opened Sequences
  import Crc32

  // ----- Hashes -----

  function FnvStep(hash: bv32, b: Byte): bv32 {
    (hash ^ Crc32.Widen(b)) * 16777619
  }

  function DjbStep(hash: bv32, b: Byte): bv32 {
    ((hash << 5) + hash) ^ Crc32.Widen(b)
  }

  function Fnv1a(key: Key): nat {
    Crc32.Number(Crc32.Fold(FnvStep, 2166136261, key))
  }

  function Djb2(key: Key): nat {
    Crc32.Number(Crc32.Fold(DjbStep, 5381, key))
  }

  /** The loop both hash functions are. */
  method HashLoop(step: (bv32, Byte) -> bv32, seed: bv32, key: Key) returns (hash: bv32)
    ensures hash == Crc32.Fold(step, seed, key)
  {
    hash := seed;
    for i := 0 to |key|
      invariant hash == Crc32.Fold(step, seed, key[..i])
    {
      assert key[..i + 1][..i] == key[..i];
      hash := step(hash, key[i]);
    }
    assert key[..|key|] == key;
  }

  /** Both hashes at their seeds, and after one and two bytes: FNV-1a with its standard values, djb2 with exclusive or. */
  lemma KnownHashes()
    ensures Fnv1a([]) == 2166136261 && Fnv1a([0x61]) == 3826002220 && Fnv1a([0x61, 0x62]) == 1294271946
    ensures Djb2([]) == 5381 && Djb2([0x61]) == 177604 && Djb2([0x61, 0x62]) == 5860902
  {
    FoldTwo(FnvStep, 2166136261, 0x61, 0x62);
    FoldTwo(DjbStep, 5381, 0x61, 0x62);
    WidenKnown();
    FnvKnown();
    DjbKnown();
  }

  lemma FoldTwo<S>(step: (S, Byte) -> S, s: S, a: Byte, b: Byte)
    ensures Crc32.Fold(step, s, []) == s && Crc32.Fold(step, s, [a]) == step(s, a) && Crc32.Fold(step, s, [a, b]) == step(step(s, a), b)
  {
    assert [a, b][..1] == [a] && [a][..0] == [];
    assert Crc32.Fold(step, s, [a]) == step(s, a);
  }

  lemma WidenKnown()
    ensures Crc32.Widen(0x61) == 0x61 && Crc32.Widen(0x62) == 0x62
  {
  }

  lemma FnvKnown()
    ensures ((2166136261 as bv32) ^ 0x61) * 16777619 == 3826002220 && ((3826002220 as bv32) ^ 0x62) * 16777619 == 1294271946
  {
  }

  lemma DjbKnown()
    ensures (((5381 as bv32) << 5) + 5381) ^ 0x61 == 177604 && (((177604 as bv32) << 5) + 177604) ^ 0x62 == 5860902
  {
  }

  // ----- Bits -----

  function Mask(k: nat): bv8
    requires k < 8
  {
    if k == 0 then 1 else if k == 1 then 2 else if k == 2 then 4 else if k == 3 then 8
    else if k == 4 then 16 else if k == 5 then 32 else if k == 6 then 64 else 128
  }

  predicate HasBit(b: bv8, k: nat)
    requires k < 8
  {
    b & Mask(k) != 0
  }

  function WithBit(b: bv8, k: nat): bv8
    requires k < 8
  {
    b | Mask(k)
  }

  /** Setting a bit sets that bit and leaves the others as they are. */
  lemma WithBitHas(b: bv8, k: nat, j: nat)
    requires k < 8 && j < 8
    ensures HasBit(WithBit(b, k), j) <==> j == k || HasBit(b, j)
  {
  }

  /** A filter as a value. */
  datatype Filter = Filter(bits: seq<bv8>, numBits: nat, numHashes: nat)

  function ByteSize(numBits: nat): nat {
    (numBits + 7) / 8
  }

  predicate BitAt(bits: seq<bv8>, index: nat) {
    index / 8 < |bits| && HasBit(bits[index / 8], index % 8)
  }

  function SetBitAt(bits: seq<bv8>, index: nat): seq<bv8> {
    if index / 8 < |bits| then bits[index / 8 := WithBit(bits[index / 8], index % 8)] else bits
  }

  lemma SetBitAtBit(bits: seq<bv8>, index: nat, j: nat)
    requires index / 8 < |bits|
    ensures BitAt(SetBitAt(bits, index), j) <==> j == index || BitAt(bits, j)
  {
    if j / 8 == index / 8 {
      WithBitHas(bits[index / 8], index % 8, j % 8);
    }
  }

  /** The i-th position of a key. */
  function Position(numBits: nat, key: Key, i: nat): (p: nat)
    requires numBits > 0
    ensures p < numBits
  {
    (Fnv1a(key) + i * Djb2(key)) % 0x1_0000_0000 % numBits
  }

  /** Positions start at the first hash and go on by the second, modulo 2^32 and then modulo the filter's size. */
  lemma KnownPositions()
    ensures Position(1000, [0x61], 0) == 220 && Position(1000, [0x61], 1) == 824 && Position(1000, [0x61], 2) == 428
    ensures Position(1000, [0x61], 3000) == 924
  {
    hide Fnv1a, Djb2;
    KnownHashes();
  }

  /** Whether the first `n` positions of the key are set. */
  ghost predicate Marked(f: Filter, key: Key, n: nat) {
    n == 0 || (f.numBits > 0 && forall i :: 0 <= i < n ==> BitAt(f.bits, Position(f.numBits, key, i)))
  }

  /** What `mightContain` answers. */
  ghost predicate MayHold(f: Filter, key: Key) {
    Marked(f, key, f.numHashes)
  }

  ghost function MarkFirst(f: Filter, key: Key, n: nat): Filter {
    if n == 0 || f.numBits == 0 then f
    else
      var g := MarkFirst(f, key, n - 1);
      g.(bits := SetBitAt(g.bits, Position(f.numBits, key, n - 1)))
  }

  ghost function Added(f: Filter, key: Key): Filter {
    MarkFirst(f, key, f.numHashes)
  }

  ghost function AddedAll(f: Filter, keys: seq<Key>): Filter {
    if keys == [] then f else Added(AddedAll(f, keys[..|keys| - 1]), keys[|keys| - 1])
  }

  function Empty(numBits: nat, numHashes: nat): Filter {
    Filter(seq(ByteSize(numBits), _ => 0), numBits, numHashes)
  }

  /** The filter has all its bits. */
  ghost predicate Whole(f: Filter) {
    f.numBits > 0 && |f.bits| == ByteSize(f.numBits)
  }

  // ----- No false negatives -----

  lemma {:induction false} MarkFirstMarks(f: Filter, key: Key, n: nat)
    requires Whole(f)
    ensures var g := MarkFirst(f, key, n);
      Whole(g) && g.numBits == f.numBits && g.numHashes == f.numHashes && Marked(g, key, n) &&
      forall j :: BitAt(f.bits, j) ==> BitAt(g.bits, j)
  {
    if n > 0 {
      MarkFirstMarks(f, key, n - 1);
      var g := MarkFirst(f, key, n - 1);
      var p := Position(f.numBits, key, n - 1);
      forall j
        ensures BitAt(SetBitAt(g.bits, p), j) <==> j == p || BitAt(g.bits, j)
      {
        SetBitAtBit(g.bits, p, j);
      }
    }
  }

  /** Every key that was added may be held, whatever else was added. */
  lemma {:induction false} NoFalseNegatives(f: Filter, keys: seq<Key>)
    requires Whole(f)
    ensures var g := AddedAll(f, keys);
      Whole(g) && g.numBits == f.numBits && g.numHashes == f.numHashes && forall k :: k in keys ==> MayHold(g, k)
  {
    if keys != [] {
      var init, last := keys[..|keys| - 1], keys[|keys| - 1];
      NoFalseNegatives(f, init);
      var g := AddedAll(f, init);
      MarkFirstMarks(g, last, g.numHashes);
      assert forall k :: k in init ==> Marked(g, k, g.numHashes);
      assert keys == init + [last];
    }
  }

  // ----- The byte form -----

  function BitsByte(b: bv8): Byte {
    b as int as Byte
  }

  function BitsBytes(bits: seq<bv8>): Bytes {
    seq(|bits|, i requires 0 <= i < |bits| => BitsByte(bits[i]))
  }

  /** The bytes in a field of `n` zeros; what does not fit is cut off. */
  function InField(bytes: Bytes, n: nat): Bytes {
    if |bytes| >= n then bytes[..n] else bytes + seq(n - |bytes|, _ => 0)
  }

  function FilterBytes(f: Filter): Bytes {
    Encode(f.numBits, 4) + Encode(f.numHashes, 4) + InField(BitsBytes(f.bits), ByteSize(f.numBits))
  }

  function BytesBits(bytes: Bytes): seq<bv8> {
    seq(|bytes|, i requires 0 <= i < |bytes| => Crc32.Bits(bytes[i]))
  }

  function ParseFilter(buffer: Bytes): Result<Filter> {
    var numBits :- ReadUInt(buffer, 0, 4);
    var numHashes :- ReadUInt(buffer, 4, 4);
    Ok(Filter(BytesBits(Slice(buffer, 8, 8 + ByteSize(numBits))), numBits, numHashes))
  }

  lemma ByteAndBack(b: bv8)
    ensures Crc32.Bits(BitsByte(b)) == b
  {
  }

  /** A filter comes back from its bytes bit by bit. */
  lemma FilterRoundTrip(f: Filter)
    requires Whole(f) && f.numBits < 0x1_0000_0000 && f.numHashes < 0x1_0000_0000
    ensures ParseFilter(FilterBytes(f)) == Ok(f)
  {
    PowersOf256();
    var b := FilterBytes(f);
    assert InField(BitsBytes(f.bits), ByteSize(f.numBits)) == BitsBytes(f.bits);
    AtFour(b, 0, Encode(f.numBits, 4), Encode(f.numHashes, 4), BitsBytes(f.bits), []) by { assert At(b, 0, b + []); }
    ReadBack(b, 0, f.numBits, 4);
    ReadBack(b, 4, f.numHashes, 4);
    assert Slice(b, 8, 8 + ByteSize(f.numBits)) == BitsBytes(f.bits);
    forall i | 0 <= i < |f.bits|
      ensures BytesBits(BitsBytes(f.bits))[i] == f.bits[i]
    {
      ByteAndBack(f.bits[i]);
    }
    assert BytesBits(BitsBytes(f.bits)) == f.bits;
  }

  // ----- The program -----

  method GetBaseHashes(key: Key) returns (h1: nat, h2: nat)
    ensures h1 == Fnv1a(key) && h2 == Djb2(key)
  {
    var a := HashLoop(FnvStep, 2166136261, key);
    var b := HashLoop(DjbStep, 5381, key);
    h1, h2 := Crc32.Number(a), Crc32.Number(b);
  }

  /** The test, for a filter that is being filled and for one read from a file alike. */
  method Test(f: Filter, key: Key) returns (may: bool)
    ensures may == MayHold(f, key)
  {
    var h1, h2 := GetBaseHashes(key);
    for i := 0 to f.numHashes
      invariant Marked(f, key, i)
    {
      if f.numBits == 0 { return false; }
      if !BitAt(f.bits, (h1 + i * h2) % 0x1_0000_0000 % f.numBits) {
        assert !BitAt(f.bits, Position(f.numBits, key, i));
        return false;
      }
    }
    may := true;
  }

  class BloomFilter {
    const bits: array<bv8>
    const numBits: nat
    const numHashFunctions: nat

    ghost function View(): Filter
      reads this, bits
    {
      Filter(bits[..], numBits, numHashFunctions)
    }

    constructor (bits: array<bv8>, numBits: nat, numHashFunctions: nat)
      ensures this.bits == bits && this.numBits == numBits && this.numHashFunctions == numHashFunctions
    {
      this.bits, this.numBits, this.numHashFunctions := bits, numBits, numHashFunctions;
    }

    static method Create(numBits: nat, numHashFunctions: nat) returns (f: BloomFilter)
      ensures fresh(f) && fresh(f.bits) && f.View() == Empty(numBits, numHashFunctions)
    {
      var bits := new bv8[ByteSize(numBits)](_ => 0);
      f := new BloomFilter(bits, numBits, numHashFunctions);
    }

    method SetBit(index: nat)
      modifies bits
      ensures bits[..] == SetBitAt(old(bits[..]), index)
    {
      var byteIndex, bitOffset := index / 8, index % 8;
      if byteIndex < bits.Length {
        bits[byteIndex] := WithBit(bits[byteIndex], bitOffset);
      }
    }

    method Add(key: Key)
      modifies bits
      ensures View() == Added(old(View()), key)
    {
      var h1, h2 := GetBaseHashes(key);
      if numBits == 0 { return; }
      for i := 0 to numHashFunctions
        invariant View() == MarkFirst(old(View()), key, i)
      {
        SetBit((h1 + i * h2) % 0x1_0000_0000 % numBits);
      }
    }

    method MightContain(key: Key) returns (may: bool)
      ensures may == MayHold(View(), key)
    {
      may := Test(Filter(bits[..], numBits, numHashFunctions), key);
    }

    method Serialize() returns (bytes: Bytes)
      requires numBits < 0x1_0000_0000 && numHashFunctions < 0x1_0000_0000
      ensures bytes == FilterBytes(View())
    {
      var byteSize := ByteSize(numBits);
      var buffer := new Byte[8 + byteSize](_ => 0);
      WriteUInt(buffer, numBits, 0, 4);
      WriteUInt(buffer, numHashFunctions, 4, 4);
      ghost var head := buffer[..8];
      var copied := InField(BitsBytes(bits[..]), byteSize);
      CopyInto(buffer, copied, 8);
      assert buffer[..] == buffer[..8 + |copied|] == head + copied;
      bytes := buffer[..];
    }
  }
}
