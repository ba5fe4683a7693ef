/** The byte forms inside a table file: entries, sparse-index entries and the footer. */
module SSTableFormat {
  import opened Wrappers
  import opened Keys
  import opened Buffers
  import opened PairFormat
  import opened SortedEntries
  import opened Tables

  const SSTABLE_MAGIC: nat := 0x5353544C
  const SSTABLE_VERSION: nat := 2

  datatype IndexEntry = IndexEntry(key: Key, offset: nat)

  datatype Metadata = Metadata(
    fileNumber: nat, entryCount: nat, firstKey: Key, lastKey: Key, fileSize: nat, createdAt: nat,
    indexOffset: nat, dataOffset: nat, bloomFilterOffset: Option<nat>)

  const TWO_TO_64: nat := 0x1_0000_0000_0000_0000

  // ----- Entries -----

  predicate EntryFits(r: Record) {
    |r.key| < 0x1_0000 && |r.value.value| < 0x1_0000_0000 && r.value.timestamp < TWO_TO_64
  }

  function FlagByte(deleted: bool): Byte {
    if deleted then 1 else 0
  }

  function EntryBytes(r: Record): (s: Bytes)
    ensures |s| == 15 + |r.key| + |r.value.value|
  {
    PairBytes(r.key, r.value.value) + Encode(r.value.timestamp, 8) + [FlagByte(r.value.deleted)]
  }

  method SerializeEntry(r: Record) returns (bytes: Bytes)
    requires EntryFits(r)
    ensures bytes == EntryBytes(r)
  {
    var buffer := new Byte[15 + |r.key| + |r.value.value|];
    var offset := WritePair(buffer, r.key, r.value.value, 0);
    assert buffer[..offset] == PairBytes(r.key, r.value.value);
    WriteUInt(buffer, r.value.timestamp, offset, 8);
    ghost var before := buffer[..offset + 8];
    buffer[offset + 8] := FlagByte(r.value.deleted);
    assert buffer[..] == before + [FlagByte(r.value.deleted)];
    bytes := buffer[..];
  }

  /** The entry at an offset and how many bytes it takes. */
  function DeserializeEntry(buffer: Bytes, start: nat): Result<(Record, nat)> {
    var (key, value, offset) :- ReadPair(buffer, start);
    var timestamp :- ReadUInt(buffer, offset, 8);
    var flag :- ReadUInt(buffer, offset + 8, 1);
    Ok((Pair(key, Version(value, timestamp, flag == 1)), offset + 9 - start))
  }

  lemma ReadByte(b: Bytes, off: nat, x: Byte)
    requires At(b, off, [x])
    ensures ReadUInt(b, off, 1) == Ok(x as nat)
  {
    var c := b[off..off + 1];
    assert c == [x] && c[..0] == [];
    assert Decode(c) == 256 * Decode(c[..0]) + c[0] as nat;
  }

  lemma EntryRoundTrip(b: Bytes, off: nat, r: Record)
    requires EntryFits(r) && At(b, off, EntryBytes(r))
    ensures DeserializeEntry(b, off) == Ok((r, |EntryBytes(r)|))
  {
    PowersOf256();
    var pair, time, flag := PairBytes(r.key, r.value.value), Encode(r.value.timestamp, 8), [FlagByte(r.value.deleted)];
    AtConcat(b, off, pair + time, flag);
    AtConcat(b, off, pair, time);
    ReadPairBack(b, off, r.key, r.value.value);
    ReadBack(b, off + |pair|, r.value.timestamp, 8);
    ReadByte(b, off + |pair| + 8, FlagByte(r.value.deleted));
  }

  /** Where the two lengths stand in an entry. */
  lemma EntryLengths(r: Record)
    requires EntryFits(r)
    ensures var b := EntryBytes(r);
      ReadUInt(b, 0, 2) == Ok(|r.key|) && At(b, 2, r.key) && ReadUInt(b, 2 + |r.key|, 4) == Ok(|r.value.value|)
  {
    PowersOf256();
    var b := EntryBytes(r);
    var pair, rest := PairBytes(r.key, r.value.value), Encode(r.value.timestamp, 8) + [FlagByte(r.value.deleted)];
    assert b == pair + rest;
    assert At(b, 0, pair + rest);
    AtConcat(b, 0, pair, rest);
    AtFour(b, 0, Encode(|r.key|, 2), r.key, Encode(|r.value.value|, 4), r.value.value);
    ReadBack(b, 0, |r.key|, 2);
    ReadBack(b, 2 + |r.key|, |r.value.value|, 4);
  }

  lemma ReadInPrefix(b: Bytes, n: nat, off: nat, k: nat)
    requires off + k <= n <= |b|
    ensures ReadUInt(b[..n], off, k) == ReadUInt(b, off, k)
  {
    assert b[..n][off..off + k] == b[off..off + k];
  }

  /** An entry of which the last bytes are missing cannot be read. */
  lemma EntryCutOff(r: Record, n: nat)
    requires EntryFits(r) && 15 + |r.key| <= n < |EntryBytes(r)|
    ensures DeserializeEntry(EntryBytes(r)[..n], 0).Err?
  {
    EntryLengths(r);
    var b := EntryBytes(r);
    ReadInPrefix(b, n, 0, 2);
    ReadInPrefix(b, n, 2 + |r.key|, 4);
  }

  ghost function DataBytes(es: seq<Record>): Bytes {
    if es == [] then [] else DataBytes(es[..|es| - 1]) + EntryBytes(es[|es| - 1])
  }

  /** The entries are laid out one after the other. */
  lemma {:induction false} DataAt(es: seq<Record>, j: nat)
    requires j < |es|
    ensures At(DataBytes(es), |DataBytes(es[..j])|, EntryBytes(es[j]))
    ensures DataBytes(es[..j + 1]) == DataBytes(es[..j]) + EntryBytes(es[j])
    decreases |es|
  {
    var n := |es| - 1;
    assert es[..j + 1][..j] == es[..j];
    if j < n {
      DataAt(es[..n], j);
      assert es[..n][..j] == es[..j];
      AtLonger(DataBytes(es[..n]), EntryBytes(es[n]), |DataBytes(es[..j])|, EntryBytes(es[j]));
    } else {
      AtMiddle(DataBytes(es[..n]), EntryBytes(es[n]), []);
      assert DataBytes(es[..n]) + EntryBytes(es[n]) + [] == DataBytes(es);
    }
  }

  lemma AtLonger(b: Bytes, more: Bytes, off: nat, x: Bytes)
    requires At(b, off, x)
    ensures At(b + more, off, x)
  {
    assert (b + more)[off..off + |x|] == b[off..off + |x|];
  }

  // ----- Index entries -----

  predicate IndexEntryFits(e: IndexEntry) {
    |e.key| < 0x1_0000 && e.offset < TWO_TO_64
  }

  function IndexEntryBytes(e: IndexEntry): (s: Bytes)
    ensures |s| == 10 + |e.key|
  {
    Encode(|e.key|, 2) + e.key + Encode(e.offset, 8)
  }

  method SerializeIndexEntry(e: IndexEntry) returns (bytes: Bytes)
    requires IndexEntryFits(e)
    ensures bytes == IndexEntryBytes(e)
  {
    var buffer := new Byte[2 + |e.key| + 8];
    WriteUInt(buffer, |e.key|, 0, 2);
    CopyInto(buffer, e.key, 2);
    WriteUInt(buffer, e.offset, 2 + |e.key|, 8);
    bytes := buffer[..];
    assert bytes == buffer[..2 + |e.key| + 8];
  }

  function DeserializeIndexEntry(buffer: Bytes, start: nat): Result<(IndexEntry, nat)> {
    var keyLen :- ReadUInt(buffer, start, 2);
    var key := Slice(buffer, start + 2, start + 2 + keyLen);
    var offset :- ReadUInt(buffer, start + 2 + keyLen, 8);
    Ok((IndexEntry(key, offset), 10 + keyLen))
  }

  lemma IndexEntryRoundTrip(b: Bytes, off: nat, e: IndexEntry)
    requires IndexEntryFits(e) && At(b, off, IndexEntryBytes(e))
    ensures DeserializeIndexEntry(b, off) == Ok((e, |IndexEntryBytes(e)|))
    ensures ReadUInt(b, off, 2) == Ok(|e.key|)
  {
    PowersOf256();
    AtConcat(b, off, Encode(|e.key|, 2) + e.key, Encode(e.offset, 8));
    AtConcat(b, off, Encode(|e.key|, 2), e.key);
    ReadBack(b, off, |e.key|, 2);
    ReadBack(b, off + 2 + |e.key|, e.offset, 8);
  }

  ghost function IndexBytes(index: seq<IndexEntry>): Bytes {
    if index == [] then [] else IndexBytes(index[..|index| - 1]) + IndexEntryBytes(index[|index| - 1])
  }

  lemma {:induction false} IndexAt(index: seq<IndexEntry>, j: nat)
    requires j < |index|
    ensures At(IndexBytes(index), |IndexBytes(index[..j])|, IndexEntryBytes(index[j]))
    ensures IndexBytes(index[..j + 1]) == IndexBytes(index[..j]) + IndexEntryBytes(index[j])
    decreases |index|
  {
    var n := |index| - 1;
    assert index[..j + 1][..j] == index[..j];
    if j < n {
      IndexAt(index[..n], j);
      assert index[..n][..j] == index[..j];
      AtLonger(IndexBytes(index[..n]), IndexEntryBytes(index[n]), |IndexBytes(index[..j])|, IndexEntryBytes(index[j]));
    } else {
      AtMiddle(IndexBytes(index[..n]), IndexEntryBytes(index[n]), []);
      assert IndexBytes(index[..n]) + IndexEntryBytes(index[n]) + [] == IndexBytes(index);
    }
  }

  // ----- The footer -----

  predicate MetadataFits(m: Metadata) {
    m.fileNumber < 0x1_0000_0000 && m.entryCount < 0x1_0000_0000 && m.dataOffset < TWO_TO_64 && m.indexOffset < TWO_TO_64 &&
    m.bloomFilterOffset.Some? && m.bloomFilterOffset.value < TWO_TO_64 && |m.firstKey| < 0x1_0000 && |m.lastKey| < 0x1_0000 &&
    m.createdAt < TWO_TO_64
  }

  function CalculateFooterSize(firstKey: Key, lastKey: Key): nat {
    54 + |firstKey| + |lastKey|
  }

  /** File number, entry count and the three offsets. */
  function FooterNumbers(m: Metadata): (s: Bytes)
    requires m.bloomFilterOffset.Some?
    ensures |s| == 32
  {
    Encode(m.fileNumber, 4) + Encode(m.entryCount, 4) + Encode(m.dataOffset, 8) + Encode(m.indexOffset, 8) +
    Encode(m.bloomFilterOffset.value, 8)
  }

  function FooterKeys(m: Metadata): (s: Bytes)
    ensures |s| == 4 + |m.firstKey| + |m.lastKey|
  {
    Encode(|m.firstKey|, 2) + m.firstKey + Encode(|m.lastKey|, 2) + m.lastKey
  }

  /** Creation time, version, the footer's own size and the magic number. */
  function FooterTail(m: Metadata): (s: Bytes)
    ensures |s| == 18
  {
    Encode(m.createdAt, 8) + Encode(SSTABLE_VERSION, 2) + Encode(CalculateFooterSize(m.firstKey, m.lastKey), 4) +
    Encode(SSTABLE_MAGIC, 4)
  }

  function FooterBytes(m: Metadata): (s: Bytes)
    requires m.bloomFilterOffset.Some?
    ensures |s| == CalculateFooterSize(m.firstKey, m.lastKey)
  {
    FooterNumbers(m) + FooterKeys(m) + FooterTail(m)
  }

  method WriteFooterNumbers(buffer: array<Byte>, m: Metadata)
    requires m.bloomFilterOffset.Some? && buffer.Length >= 32
    modifies buffer
    ensures buffer[..32] == FooterNumbers(m)
  {
    WriteUInt(buffer, m.fileNumber, 0, 4);
    WriteUInt(buffer, m.entryCount, 4, 4);
    WriteUInt(buffer, m.dataOffset, 8, 8);
    WriteUInt(buffer, m.indexOffset, 16, 8);
    WriteUInt(buffer, m.bloomFilterOffset.value, 24, 8);
  }

  method WriteFooterKeys(buffer: array<Byte>, m: Metadata) returns (offset: nat)
    requires buffer.Length >= 36 + |m.firstKey| + |m.lastKey|
    modifies buffer
    ensures offset == 36 + |m.firstKey| + |m.lastKey| && buffer[..offset] == old(buffer[..32]) + FooterKeys(m)
  {
    ghost var before := buffer[..32];
    WriteUInt(buffer, |m.firstKey|, 32, 2);
    CopyInto(buffer, m.firstKey, 34);
    offset := 34 + |m.firstKey|;
    WriteUInt(buffer, |m.lastKey|, offset, 2);
    offset := offset + 2;
    CopyInto(buffer, m.lastKey, offset);
    offset := offset + |m.lastKey|;
    Append4(before, Encode(|m.firstKey|, 2), m.firstKey, Encode(|m.lastKey|, 2), m.lastKey);
  }

  method WriteFooterTail(buffer: array<Byte>, m: Metadata, start: nat)
    requires buffer.Length == start + 18
    modifies buffer
    ensures buffer[..] == old(buffer[..start]) + FooterTail(m)
  {
    ghost var before := buffer[..start];
    WriteUInt(buffer, m.createdAt, start, 8);
    WriteUInt(buffer, SSTABLE_VERSION, start + 8, 2);
    WriteUInt(buffer, CalculateFooterSize(m.firstKey, m.lastKey), start + 10, 4);
    WriteUInt(buffer, SSTABLE_MAGIC, start + 14, 4);
    Append4(before, Encode(m.createdAt, 8), Encode(SSTABLE_VERSION, 2),
            Encode(CalculateFooterSize(m.firstKey, m.lastKey), 4), Encode(SSTABLE_MAGIC, 4));
    assert buffer[..] == buffer[..start + 18];
  }

  method SerializeFooter(m: Metadata) returns (bytes: Bytes)
    requires MetadataFits(m)
    ensures bytes == FooterBytes(m)
  {
    var buffer := new Byte[CalculateFooterSize(m.firstKey, m.lastKey)];
    WriteFooterNumbers(buffer, m);
    var offset := WriteFooterKeys(buffer, m);
    WriteFooterTail(buffer, m, offset);
    bytes := buffer[..];
  }

  /** What a footer says; the Bloom offset is there from version 2 on. */
  function ParseFooter(footer: Bytes, fileSize: nat): Result<Metadata>
    requires |footer| >= 46
  {
    var fileNumber :- ReadUInt(footer, 0, 4);
    var entryCount :- ReadUInt(footer, 4, 4);
    var dataOffset :- ReadUInt(footer, 8, 8);
    var indexOffset :- ReadUInt(footer, 16, 8);
    var version :- ReadUInt(footer, |footer| - 10, 2);
    if version >= 2 then
      var bloom :- ReadUInt(footer, 24, 8);
      ParseFooterKeys(footer, 32, Metadata(fileNumber, entryCount, [], [], fileSize, 0, indexOffset, dataOffset, Some(bloom)))
    else
      ParseFooterKeys(footer, 24, Metadata(fileNumber, entryCount, [], [], fileSize, 0, indexOffset, dataOffset, None))
  }

  function ParseFooterKeys(footer: Bytes, pos: nat, m: Metadata): Result<Metadata> {
    var firstKeyLen :- ReadUInt(footer, pos, 2);
    var firstKey := Slice(footer, pos + 2, pos + 2 + firstKeyLen);
    var pos := pos + 2 + firstKeyLen;
    var lastKeyLen :- ReadUInt(footer, pos, 2);
    var lastKey := Slice(footer, pos + 2, pos + 2 + lastKeyLen);
    var createdAt :- ReadUInt(footer, pos + 2 + lastKeyLen, 8);
    Ok(m.(firstKey := firstKey, lastKey := lastKey, createdAt := createdAt))
  }

  lemma FooterNumbersBack(footer: Bytes, m: Metadata)
    requires MetadataFits(m) && At(footer, 0, FooterNumbers(m))
    ensures ReadUInt(footer, 0, 4) == Ok(m.fileNumber) && ReadUInt(footer, 4, 4) == Ok(m.entryCount)
    ensures ReadUInt(footer, 8, 8) == Ok(m.dataOffset) && ReadUInt(footer, 16, 8) == Ok(m.indexOffset)
    ensures ReadUInt(footer, 24, 8) == Ok(m.bloomFilterOffset.value)
  {
    PowersOf256();
    var a, b, c, d := Encode(m.fileNumber, 4), Encode(m.entryCount, 4), Encode(m.dataOffset, 8), Encode(m.indexOffset, 8);
    AtConcat(footer, 0, a + b + c + d, Encode(m.bloomFilterOffset.value, 8));
    AtFour(footer, 0, a, b, c, d);
    ReadBack(footer, 0, m.fileNumber, 4);
    ReadBack(footer, 4, m.entryCount, 4);
    ReadBack(footer, 8, m.dataOffset, 8);
    ReadBack(footer, 16, m.indexOffset, 8);
    ReadBack(footer, 24, m.bloomFilterOffset.value, 8);
  }

  lemma FooterKeysBack(footer: Bytes, m: Metadata, fresh_: Metadata)
    requires MetadataFits(m) && At(footer, 32, FooterKeys(m)) && At(footer, 36 + |m.firstKey| + |m.lastKey|, Encode(m.createdAt, 8))
    ensures ParseFooterKeys(footer, 32, fresh_) ==
      Ok(fresh_.(firstKey := m.firstKey, lastKey := m.lastKey, createdAt := m.createdAt))
  {
    PowersOf256();
    AtFour(footer, 32, Encode(|m.firstKey|, 2), m.firstKey, Encode(|m.lastKey|, 2), m.lastKey);
    ReadBack(footer, 32, |m.firstKey|, 2);
    ReadBack(footer, 34 + |m.firstKey|, |m.lastKey|, 2);
    ReadBack(footer, 36 + |m.firstKey| + |m.lastKey|, m.createdAt, 8);
  }

  lemma FooterParts(footer: Bytes, m: Metadata)
    requires MetadataFits(m) && footer == FooterBytes(m)
    ensures At(footer, 0, FooterNumbers(m)) && At(footer, 32, FooterKeys(m)) && At(footer, |footer| - 18, FooterTail(m))
  {
    assert At(footer, 0, FooterBytes(m));
    AtConcat(footer, 0, FooterNumbers(m) + FooterKeys(m), FooterTail(m));
    AtConcat(footer, 0, FooterNumbers(m), FooterKeys(m));
  }

  lemma FooterTailBack(footer: Bytes, n: nat, m: Metadata)
    requires MetadataFits(m) && At(footer, n, FooterTail(m)) && |footer| == n + 18
    ensures At(footer, n, Encode(m.createdAt, 8)) && ReadUInt(footer, n + 8, 2) == Ok(SSTABLE_VERSION)
    ensures ReadUInt(footer, n + 10, 4) == Ok(CalculateFooterSize(m.firstKey, m.lastKey))
    ensures ReadUInt(footer, n + 14, 4) == Ok(SSTABLE_MAGIC)
  {
    PowersOf256();
    var size := CalculateFooterSize(m.firstKey, m.lastKey);
    AtFour(footer, n, Encode(m.createdAt, 8), Encode(SSTABLE_VERSION, 2), Encode(size, 4), Encode(SSTABLE_MAGIC, 4));
    ReadBack(footer, n + 8, SSTABLE_VERSION, 2);
    ReadBack(footer, n + 10, size, 4);
    ReadBack(footer, n + 14, SSTABLE_MAGIC, 4);
  }

  /** A footer whose numbers are known, of the written version. */
  lemma ParseNumbers(footer: Bytes, m: Metadata)
    requires |footer| >= 46 && m.bloomFilterOffset.Some?
    requires ReadUInt(footer, 0, 4) == Ok(m.fileNumber) && ReadUInt(footer, 4, 4) == Ok(m.entryCount)
    requires ReadUInt(footer, 8, 8) == Ok(m.dataOffset) && ReadUInt(footer, 16, 8) == Ok(m.indexOffset)
    requires ReadUInt(footer, 24, 8) == Ok(m.bloomFilterOffset.value) && ReadUInt(footer, |footer| - 10, 2) == Ok(SSTABLE_VERSION)
    ensures ParseFooter(footer, m.fileSize) == ParseFooterKeys(footer, 32, m.(firstKey := [], lastKey := [], createdAt := 0))
  {
  }

  /** A footer that was written is read back exactly. */
  lemma FooterRoundTrip(m: Metadata)
    requires MetadataFits(m)
    ensures ParseFooter(FooterBytes(m), m.fileSize) == Ok(m)
  {
    var footer := FooterBytes(m);
    FooterParts(footer, m);
    FooterPartsParsed(footer, m);
  }

  lemma FooterPartsParsed(footer: Bytes, m: Metadata)
    requires MetadataFits(m) && |footer| == CalculateFooterSize(m.firstKey, m.lastKey)
    requires At(footer, 0, FooterNumbers(m)) && At(footer, 32, FooterKeys(m)) && At(footer, |footer| - 18, FooterTail(m))
    ensures ParseFooter(footer, m.fileSize) == Ok(m)
    ensures ReadUInt(footer, |footer| - 8, 4) == Ok(|footer|) && ReadUInt(footer, |footer| - 4, 4) == Ok(SSTABLE_MAGIC)
  {
    FooterTailBack(footer, |footer| - 18, m);
    FooterNumbersBack(footer, m);
    ParseNumbers(footer, m);
    FooterKeysBack(footer, m, m.(firstKey := [], lastKey := [], createdAt := 0));
  }
}
