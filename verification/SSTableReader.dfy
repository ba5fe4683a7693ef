/**
 The reader of table files.  Reads go through buffers whose memory is not cleared first, so
 what a read does not fill is arbitrary; a read beyond the runtime's limit fails.
 */
module SSTableReaders {
  import opened Wrappers
  import opened Keys
  import opened Buffers
  import opened SortedEntries
  import opened Tables
  import opened BloomFilters
  import opened SSTableFormat
  import opened SSTableLayout

  datatype ReaderState = ReaderState(file: Bytes, metadata: Metadata, sparseIndex: seq<IndexEntry>, bloomFilter: Option<Filter>)

  // ----- Reading from the file -----

  function Available(file: Bytes, length: nat, position: nat): nat {
    if position >= |file| then 0 else if position + length <= |file| then length else |file| - position
  }

  /** The buffer holds what the file has from a position on, as far as the file goes. */
  ghost predicate Got(file: Bytes, position: nat, buffer: Bytes) {
    position <= |file| ==>
      var n := Available(file, |buffer|, position); buffer[..n] == file[position..position + n]
  }

  /** Fill a buffer from a position on. */
  method ReadAt(file: Bytes, length: nat, position: nat) returns (buffer: Bytes)
    ensures |buffer| == length && Got(file, position, buffer)
  {
    var memory := new Byte[length];
    var n := Available(file, length, position);
    if position <= |file| {
      CopyInto(memory, file[position..position + n], 0);
      assert memory[..n] == file[position..position + n];
    }
    buffer := memory[..];
  }

  /** What stands in the file at a position is what a long enough read gets. */
  lemma ReadGets(file: Bytes, position: nat, buffer: Bytes, x: Bytes)
    requires Got(file, position, buffer) && At(file, position, x)
    ensures |x| <= |buffer| ==> x <= buffer
    ensures |buffer| <= |x| ==> buffer <= x
  {
    var n := Available(file, |buffer|, position);
    assert file[position..position + |x|] == x;
    if |x| <= |buffer| {
      assert buffer[..n][..|x|] == file[position..position + n][..|x|] == x;
    }
    if |buffer| <= |x| {
      assert file[position..position + n] == x[..n];
    }
  }

  lemma ReadExactly(file: Bytes, position: nat, buffer: Bytes, x: Bytes)
    requires Got(file, position, buffer) && At(file, position, x) && |buffer| == |x|
    ensures buffer == x
  {
    ReadGets(file, position, buffer, x);
  }

  /** One entry, through a window whose size is guessed from the first six bytes. */
  method ReadEntryAt(file: Bytes, offset: nat) returns (r: Result<(Record, nat)>)
    ensures r.Ok? ==> r.value.1 > 0
    ensures forall e :: EntryFits(e) && At(file, offset, EntryBytes(e)) ==>
      (r.Ok? <==> Covered(e)) && (r.Ok? ==> r.value == (e, |EntryBytes(e)|))
  {
    var headerBuf := ReadAt(file, 6, offset);
    var keyLen, valueLen := Decode(headerBuf[0..2]), Decode(headerBuf[2..6]);
    var entrySize := 2 + keyLen + 4 + valueLen + 8 + 1;
    forall e | EntryFits(e) && At(file, offset, EntryBytes(e))
      ensures keyLen == |e.key| && valueLen == ClaimedLength(e)
    {
      ReadGets(file, offset, headerBuf, EntryBytes(e));
      HeaderLengths(e, headerBuf);
    }
    if entrySize > IO_MAX {
      return Err("read too long");
    }
    var entryBuf := ReadAt(file, entrySize, offset);
    forall e | EntryFits(e) && At(file, offset, EntryBytes(e))
      ensures DeserializeEntry(entryBuf, 0).Ok? <==> |e.value.value| <= ClaimedLength(e)
      ensures DeserializeEntry(entryBuf, 0).Ok? ==> DeserializeEntry(entryBuf, 0).value == (e, |EntryBytes(e)|)
    {
      ReadGets(file, offset, entryBuf, EntryBytes(e));
      WindowDecodes(e, entryBuf);
    }
    r := DeserializeEntry(entryBuf, 0);
  }

  lemma HeaderLengths(e: Record, header: Bytes)
    requires EntryFits(e) && |header| == 6 && header <= EntryBytes(e)
    ensures Decode(header[0..2]) == |e.key| && Decode(header[2..6]) == ClaimedLength(e)
  {
    EntryLengths(e);
    assert header[0..2] == EntryBytes(e)[0..2] && header[2..6] == EntryBytes(e)[2..6];
  }

  // ----- The pieces behind the data -----

  /** A footer stands at the end of the file. */
  ghost predicate FooterStands(file: Bytes, m: Metadata) {
    MetadataFits(m) && m.fileSize == |file| >= |FooterBytes(m)| && file[|file| - |FooterBytes(m)|..] == FooterBytes(m)
  }

  /** The footer, found from the end of the file. */
  method ReadFooter(file: Bytes, ghost expected: Metadata) returns (r: Result<Metadata>)
    ensures FooterStands(file, expected) ==> r == Ok(expected)
  {
    if |file| < 8 {
      return Err("no footer");
    }
    var footerSize := Decode(file[|file| - 8..|file| - 4]);
    var magic := Decode(file[|file| - 4..]);
    if FooterStands(file, expected) {
      FooterEnds(file, expected);
    }
    if magic != SSTABLE_MAGIC {
      return Err("invalid magic number");
    }
    if footerSize > |file| || footerSize < 46 {
      return Err("invalid footer size");
    }
    var footerBuf := file[|file| - footerSize..];
    if FooterStands(file, expected) {
      FooterRoundTrip(expected);
    }
    r := ParseFooter(footerBuf, |file|);
  }

  lemma FooterEnds(file: Bytes, m: Metadata)
    requires FooterStands(file, m)
    ensures Decode(file[|file| - 8..|file| - 4]) == |FooterBytes(m)| && Decode(file[|file| - 4..]) == SSTABLE_MAGIC
  {
    var footer := FooterBytes(m);
    FooterParts(footer, m);
    LastEight(file, footer, m);
  }

  lemma LastEight(file: Bytes, footer: Bytes, m: Metadata)
    requires MetadataFits(m) && 18 <= |footer| <= |file| && file[|file| - |footer|..] == footer
    requires At(footer, |footer| - 18, FooterTail(m))
    ensures Decode(file[|file| - 8..|file| - 4]) == CalculateFooterSize(m.firstKey, m.lastKey)
    ensures Decode(file[|file| - 4..]) == SSTABLE_MAGIC
  {
    var n := |footer|;
    FooterTailBack(footer, n - 18, m);
    assert file[|file| - 8..|file| - 4] == footer[n - 8..n - 8 + 4];
    assert file[|file| - 4..] == footer[n - 4..n - 4 + 4];
  }

  /** A well-formed index stands in the file behind its count. */
  ghost predicate IndexStands(file: Bytes, offset: nat, index: seq<IndexEntry>) {
    (forall i :: 0 <= i < |index| ==> IndexEntryFits(index[i])) && |index| < 0x1_0000_0000 &&
    At(file, offset, Encode(|index|, 4)) && At(file, offset + 4, IndexBytes(index))
  }

  method LoadSparseIndex(file: Bytes, indexOffset: nat, ghost expected: seq<IndexEntry>) returns (r: Result<seq<IndexEntry>>)
    ensures IndexStands(file, indexOffset, expected) ==> r == Ok(expected)
  {
    ghost var good := IndexStands(file, indexOffset, expected);
    var countBuf := ReadAt(file, 4, indexOffset);
    var indexCount := Decode(countBuf);
    if good {
      IndexCountRead(file, indexOffset, countBuf, expected);
    }
    var offset: nat := indexOffset + 4;
    var index: seq<IndexEntry> := [];
    for i := 0 to indexCount
      invariant good ==> indexCount == |expected| && index == expected[..i] && offset == indexOffset + 4 + |IndexBytes(expected[..i])|
    {
      if good {
        assert IndexEntryFits(expected[i]);
        IndexEntryInFile(file, indexOffset + 4, expected, i);
      }
      ghost var there := if good then Some(expected[i]) else None;
      assert good ==> offset == indexOffset + 4 + |IndexBytes(expected[..i])| && At(file, offset, IndexEntryBytes(there.value));
      var entry :- LoadIndexEntry(file, offset, there);
      index := index + [entry.0];
      offset := offset + entry.1;
    }
    assert good ==> expected[..|expected|] == expected;
    r := Ok(index);
  }

  lemma IndexCountRead(file: Bytes, offset: nat, countBuf: Bytes, index: seq<IndexEntry>)
    requires Got(file, offset, countBuf) && |countBuf| == 4 && IndexStands(file, offset, index)
    ensures Decode(countBuf) == |index|
  {
    PowersOf256();
    ReadExactly(file, offset, countBuf, Encode(|index|, 4));
    NumberRoundTrip(|index|, 4);
  }

  lemma IndexEntryInFile(file: Bytes, offset: nat, index: seq<IndexEntry>, i: nat)
    requires i < |index| && At(file, offset, IndexBytes(index))
    ensures At(file, offset + |IndexBytes(index[..i])|, IndexEntryBytes(index[i]))
    ensures |IndexBytes(index[..i + 1])| == |IndexBytes(index[..i])| + |IndexEntryBytes(index[i])|
  {
    IndexAt(index, i);
    AtWithin(file, offset, IndexBytes(index), |IndexBytes(index[..i])|, IndexEntryBytes(index[i]));
  }

  lemma AtWithin(b: Bytes, off: nat, x: Bytes, within: nat, y: Bytes)
    requires At(b, off, x) && At(x, within, y)
    ensures At(b, off + within, y)
  {
    assert b[off..off + |x|] == x;
    forall i | 0 <= i < |y|
      ensures b[off + within + i] == y[i]
    {
      assert x[within + i] == x[within..within + |y|][i];
    }
  }

  method LoadIndexEntry(file: Bytes, offset: nat, ghost expected: Option<IndexEntry>) returns (r: Result<(IndexEntry, nat)>)
    ensures expected.Some? && IndexEntryFits(expected.value) && At(file, offset, IndexEntryBytes(expected.value)) ==>
      r == Ok((expected.value, |IndexEntryBytes(expected.value)|))
  {
    var keyLenBuf := ReadAt(file, 2, offset);
    var keyLen := Decode(keyLenBuf);
    var entrySize := 2 + keyLen + 8;
    var entryBuf := ReadAt(file, entrySize, offset);
    if expected.Some? && IndexEntryFits(expected.value) && At(file, offset, IndexEntryBytes(expected.value)) {
      IndexEntryRead(file, offset, keyLenBuf, entryBuf, expected.value);
    }
    var entry :- DeserializeIndexEntry(entryBuf, 0);
    r := Ok((entry.0, entrySize));
  }

  lemma IndexEntryRead(file: Bytes, offset: nat, keyLenBuf: Bytes, entryBuf: Bytes, e: IndexEntry)
    requires IndexEntryFits(e) && At(file, offset, IndexEntryBytes(e))
    requires |keyLenBuf| == 2 && |entryBuf| == 10 + Decode(keyLenBuf) && Got(file, offset, keyLenBuf) && Got(file, offset, entryBuf)
    ensures Decode(keyLenBuf) == |e.key| && DeserializeIndexEntry(entryBuf, 0) == Ok((e, |IndexEntryBytes(e)|))
  {
    var b := IndexEntryBytes(e);
    ReadGets(file, offset, keyLenBuf, b);
    assert At(b, 0, b);
    IndexEntryRoundTrip(b, 0, e);
    assert keyLenBuf == b[0..2];
    ReadExactly(file, offset, entryBuf, b);
  }

  /** A whole filter stands in the file, between the index and the footer. */
  ghost predicate FilterStands(file: Bytes, m: Metadata, f: Filter) {
    Whole(f) && f.numBits < 0x1_0000_0000 && f.numHashes < 0x1_0000_0000 && m.bloomFilterOffset.Some? &&
    At(file, m.bloomFilterOffset.value, FilterBytes(f)) &&
    m.bloomFilterOffset.value + |FilterBytes(f)| + CalculateFooterSize(m.firstKey, m.lastKey) == m.fileSize
  }

  method LoadBloomFilter(file: Bytes, m: Metadata, ghost expected: Filter) returns (r: Result<Option<Filter>>)
    ensures FilterStands(file, m, expected) ==> r == Ok(Some(expected))
  {
    if m.bloomFilterOffset == None {
      return Ok(None);
    }
    var bloomFilterOffset := m.bloomFilterOffset.value;
    var bloomFilterSize := m.fileSize - CalculateFooterSize(m.firstKey, m.lastKey) - bloomFilterOffset;
    if bloomFilterSize <= 0 {
      return Ok(None);
    }
    var bloomBuf := ReadAt(file, bloomFilterSize, bloomFilterOffset);
    if FilterStands(file, m, expected) {
      FilterRead(file, bloomFilterOffset, bloomBuf, expected);
    }
    var f :- ParseFilter(bloomBuf);
    r := Ok(Some(f));
  }

  lemma FilterRead(file: Bytes, offset: nat, bloomBuf: Bytes, f: Filter)
    requires Whole(f) && f.numBits < 0x1_0000_0000 && f.numHashes < 0x1_0000_0000
    requires At(file, offset, FilterBytes(f)) && Got(file, offset, bloomBuf) && |bloomBuf| == |FilterBytes(f)|
    ensures ParseFilter(bloomBuf) == Ok(f)
  {
    ReadExactly(file, offset, bloomBuf, FilterBytes(f));
    FilterRoundTrip(f);
  }

  // ----- The search for the first offset to look at -----

  method FindStartOffset(key: Key, sparseIndex: seq<IndexEntry>, dataOffset: nat) returns (result: nat)
    ensures SortedIndex(sparseIndex) ==> result == StartOffset(sparseIndex, key, dataOffset)
  {
    if |sparseIndex| == 0 {
      return dataOffset;
    }
    var left, right := 0, |sparseIndex| - 1;
    result := dataOffset;
    ghost var sorted := SortedIndex(sparseIndex);
    assert sparseIndex[..right + 1] == sparseIndex;
    while left <= right
      invariant 0 <= left <= right + 1 <= |sparseIndex|
      invariant sorted ==> StartOffset(sparseIndex, key, dataOffset) == StartOffset(sparseIndex[..right + 1], key, dataOffset)
      invariant if left == 0 then result == dataOffset else AtMost(sparseIndex[left - 1].key, key) && result == sparseIndex[left - 1].offset
      decreases right - left
    {
      var mid := (left + right) / 2;
      var indexEntry := sparseIndex[mid];
      if AtMost(indexEntry.key, key) {
        result := indexEntry.offset;
        left := mid + 1;
      } else {
        if sorted {
          StartBelow(sparseIndex, key, dataOffset, mid, right + 1);
        }
        right := mid - 1;
      }
    }
    assert left == right + 1;
    assert left > 0 ==> sparseIndex[..left][left - 1] == sparseIndex[left - 1];
  }

  /** Entries above the key do not matter. */
  lemma {:induction false} StartBelow(index: seq<IndexEntry>, key: Key, dataOffset: nat, m: nat, n: nat)
    requires SortedIndex(index) && m < n <= |index| && !AtMost(index[m].key, key)
    ensures StartOffset(index[..n], key, dataOffset) == StartOffset(index[..m], key, dataOffset)
  {
    LessTotal(index[m].key, key);
    OrderCycle(index[n - 1].key, key, index[m].key);
    assert index[..n][..n - 1] == index[..n - 1];
    if m < n - 1 {
      OrderCycle(index[m].key, index[n - 1].key, index[m].key);
      assert AtMost(index[m].key, index[n - 1].key);
      NotAtMost(index[m].key, index[n - 1].key, key);
      StartBelow(index, key, dataOffset, m, n - 1);
    }
  }

  lemma NotAtMost(a: Key, b: Key, k: Key)
    requires Less(k, a) && AtMost(a, b)
    ensures !AtMost(b, k)
  {
    OrderCycle(b, k, a);
  }

  // ----- The reader -----

  /** What a scan finds for a key: the entry with that key. */
  ghost function Found(es: seq<Record>, key: Key): Option<Record> {
    if key in MapOf(es) then Some(Pair(key, MapOf(es)[key])) else None
  }

  /** The reader's state once the file of these entries is open. */
  ghost function OpenState(es: seq<Record>, s: Settings): ReaderState
    requires es != []
  {
    ReaderState(FileBytes(es, s), MetadataOf(es, s), IndexOf(es, s.interval), Some(FilterOf(es, s)))
  }

  ghost predicate ServesFile(state: ReaderState, es: seq<Record>, s: Settings) {
    Sorted(es) && FileFits(es, s) && state == OpenState(es, s)
  }

  /** Everything that opening looks for is in a file that was built. */
  lemma BuiltFile(es: seq<Record>, s: Settings)
    requires Sorted(es) && FileFits(es, s)
    ensures FooterStands(FileBytes(es, s), MetadataOf(es, s))
    ensures IndexStands(FileBytes(es, s), |DataBytes(es)|, IndexOf(es, s.interval))
    ensures FilterStands(FileBytes(es, s), MetadataOf(es, s), FilterOf(es, s))
  {
    var body, bloom, footer := BodyBytes(es, s), FilterBytes(FilterOf(es, s)), FooterBytes(MetadataOf(es, s));
    assert FileBytes(es, s)[|body + bloom|..] == footer;
    IndexInFile(es, s);
    FilterHoldsKeys(es, s);
    AtMiddle(body, bloom, footer);
  }

  /** The four parts of a file, one behind the other. */
  lemma FourParts(a: Bytes, b: Bytes, c: Bytes, d: Bytes, e: Bytes)
    ensures At(a + b + c + d + e, 0, a) && At(a + b + c + d + e, |a|, b) && At(a + b + c + d + e, |a| + |b|, c)
  {
    AtMiddle([], a, b + c + d + e);
    assert [] + a + (b + c + d + e) == a + b + c + d + e;
    AtMiddle(a, b, c + d + e);
    assert a + b + (c + d + e) == a + b + c + d + e;
    AtMiddle(a + b, c, d + e);
    assert a + b + c + (d + e) == a + b + c + d + e;
  }

  lemma IndexStandsIn(data: Bytes, index: seq<IndexEntry>, bloom: Bytes, footer: Bytes)
    requires (forall e :: e in index ==> IndexEntryFits(e)) && |index| < 0x1_0000_0000
    ensures IndexStands(data + Encode(|index|, 4) + IndexBytes(index) + bloom + footer, |data|, index)
  {
    FourParts(data, Encode(|index|, 4), IndexBytes(index), bloom, footer);
  }

  lemma IndexInFile(es: seq<Record>, s: Settings)
    requires Sorted(es) && FileFits(es, s)
    ensures IndexStands(FileBytes(es, s), |DataBytes(es)|, IndexOf(es, s.interval))
  {
    IndexIsSorted(es, s.interval);
    IndexFits(es, s.interval);
    IndexStandsIn(DataBytes(es), IndexOf(es, s.interval), FilterBytes(FilterOf(es, s)), FooterBytes(MetadataOf(es, s)));
  }

  lemma EntryInFile(es: seq<Record>, s: Settings, j: nat)
    requires es != [] && j < |es|
    ensures At(FileBytes(es, s), |DataBytes(es[..j])|, EntryBytes(es[j]))
    ensures |DataBytes(es[..j + 1])| == |DataBytes(es[..j])| + |EntryBytes(es[j])|
  {
    DataAt(es, j);
    var index := IndexOf(es, s.interval);
    FourParts(DataBytes(es), Encode(|index|, 4), IndexBytes(index), FilterBytes(FilterOf(es, s)), FooterBytes(MetadataOf(es, s)));
    AtWithin(FileBytes(es, s), 0, DataBytes(es), |DataBytes(es[..j])|, EntryBytes(es[j]));
  }

  lemma KeysInRange(es: seq<Record>, key: Key)
    requires Sorted(es) && es != [] && key in MapOf(es)
    ensures AtMost(es[0].key, key) && AtMost(key, es[|es| - 1].key)
  {
    MapOfHas(es, key);
    var i :| 0 <= i < |es| && es[i].key == key;
  }

  lemma BelowStep(es: seq<Record>, key: Key, j: nat)
    requires j < |es| && SortedEntries.AllBelow(es[..j], key) && Less(es[j].key, key)
    ensures SortedEntries.AllBelow(es[..j + 1], key)
  {
    forall i | 0 <= i < j + 1
      ensures Less(es[i].key, key)
    {
      if i < j { assert es[i] == es[..j][i]; }
    }
  }

  lemma ScanHit(es: seq<Record>, j: nat)
    requires Sorted(es) && j < |es|
    ensures Found(es, es[j].key) == Some(es[j])
    ensures forall i :: 0 <= i < |es| && es[i].key == es[j].key ==> i == j
  {
    MapOfAt(es, j);
    forall i | 0 <= i < |es| && es[i].key == es[j].key ensures i == j { SortedUnique(es, i, j); }
  }

  /** Once all before are smaller and the next is greater, the key is not there. */
  lemma ScanMiss(es: seq<Record>, key: Key, j: nat)
    requires Sorted(es) && j <= |es| && SortedEntries.AllBelow(es[..j], key) && (j < |es| ==> Less(key, es[j].key))
    ensures Found(es, key) == None && forall i :: 0 <= i < |es| ==> es[i].key != key
  {
    LessIrreflexive(key);
    forall i | 0 <= i < |es|
      ensures es[i].key != key
    {
      if i < j {
        assert es[..j][i] == es[i];
      } else if i > j {
        LessTransitive(key, es[j].key, es[i].key);
      }
    }
    MapOfHas(es, key);
  }

  /** At the first key that is not smaller the scan has read all it reads. */
  lemma ScanStops(es: seq<Record>, interval: nat, key: Key, j: nat)
    requires j < |es| && AtMost(key, es[j].key)
    ensures forall i: nat :: ScannedFor(es, interval, key, i) ==> i <= j
  {
    forall i: nat | ScannedFor(es, interval, key, i)
      ensures i <= j
    {
      if i > j {
        assert es[..i][j] == es[j];
        OrderCycle(key, es[j].key, key);
        LessIrreflexive(key);
      }
    }
  }

  /** Behind the first entry above the range nothing is in it. */
  lemma RangeEnds(es: seq<Record>, lo: Key, hi: Key, j: nat)
    requires Sorted(es) && j < |es| && Less(hi, es[j].key)
    ensures RangeOf(es, lo, hi) == RangeOf(es[..j], lo, hi)
  {
    var above := es[j..];
    forall i | 0 <= i < |above|
      ensures Less(hi, above[i].key)
    {
      if i > 0 { LessTransitive(hi, es[j].key, es[j + i].key); }
    }
    RangeOfOutside(above, hi, lo, hi);
    RangeOfConcat(es[..j], above, lo, hi);
    assert es == es[..j] + above;
  }

  /** `get` on an open file: it answers exactly if all it has to read is covered, and then with what the entries hold. */
  ghost predicate GetAnswers(r: Result<Option<Record>>, es: seq<Record>, interval: nat, key: Key)
    requires es != []
  {
    (r.Ok? <==> LookupCovered(es, interval, key)) && (r.Ok? ==> r.value == Found(es, key))
  }

  ghost predicate IterateAnswers(r: Result<seq<Record>>, es: seq<Record>, interval: nat, lo: Key, hi: Key)
    requires es != []
  {
    (r.Ok? <==> RangeCovered(es, interval, lo, hi)) && (r.Ok? ==> r.value == RangeOf(es, lo, hi))
  }

  /** An offset is that of the j-th entry, or the end of the data. */
  ghost predicate AtEntry(es: seq<Record>, j: nat, offset: nat, endOffset: nat) {
    j <= |es| && offset == |DataBytes(es[..j])| && endOffset == |DataBytes(es)|
  }

  /** Where the scan for a key begins. */
  ghost predicate ScanStarts(es: seq<Record>, interval: nat, key: Key, start: nat, startOffset: nat, endOffset: nat) {
    start == StartIndex(es, interval, key) && AtEntry(es, start, startOffset, endOffset) && SortedEntries.AllBelow(es[..start], key)
  }

  lemma ScanCanStart(es: seq<Record>, s: Settings, key: Key) returns (j: nat)
    requires Sorted(es)
    ensures ScanStarts(es, s.interval, key, j, StartOffset(IndexOf(es, s.interval), key, 0), |DataBytes(es)|)
    ensures SortedIndex(IndexOf(es, s.interval))
  {
    IndexIsSorted(es, s.interval);
    j := StartIndex(es, s.interval, key);
    StartIsEarlyEnough(es, s.interval, key);
  }

  lemma EndOfData(es: seq<Record>, j: nat, offset: nat, endOffset: nat)
    requires AtEntry(es, j, offset, endOffset) && offset >= endOffset
    ensures j == |es| && es[..j] == es
  {
    if j < |es| {
      DataAt(es, j);
    }
  }

  lemma RangeStep(es: seq<Record>, lo: Key, hi: Key, j: nat)
    requires j < |es|
    ensures RangeOf(es[..j + 1], lo, hi) == RangeOf(es[..j], lo, hi) + (if InRange(es[j].key, lo, hi) then [es[j]] else [])
    ensures InRange(es[j].key, lo, hi) <==> !Less(es[j].key, lo) && !Less(hi, es[j].key)
  {
    assert es[..j + 1][..j] == es[..j];
    NotLess(es[j].key, lo);
    NotLess(hi, es[j].key);
  }

  lemma NotLess(a: Key, b: Key)
    ensures !Less(a, b) <==> AtMost(b, a)
  {
    LessTotal(a, b);
    OrderCycle(b, a, b);
  }

  lemma NothingInRange(es: seq<Record>, lo: Key, hi: Key)
    requires Sorted(es) && es != [] && (Less(es[|es| - 1].key, lo) || Less(hi, es[0].key))
    ensures RangeOf(es, lo, hi) == []
  {
    forall i | 0 <= i < |es|
      ensures !InRange(es[i].key, lo, hi)
    {
      assert AtMost(es[0].key, es[i].key) && AtMost(es[i].key, es[|es| - 1].key);
      OrderCycle(es[i].key, es[|es| - 1].key, lo);
      OrderCycle(es[i].key, hi, es[0].key);
      OrderCycle(es[0].key, es[i].key, lo);
    }
    RangeOfNone(es, lo, hi);
  }

  /** An open file.  What was read on opening never changes; after closing every operation fails. */
  class SSTableReader {
    const state: ReaderState
    var closed: bool

    constructor (state: ReaderState)
      ensures this.state == state && !closed
    {
      this.state, closed := state, false;
    }

    static method OpenFile(file: Bytes, ghost es: seq<Record>, ghost s: Settings) returns (r: Result<SSTableReader>)
      ensures r.Ok? ==> fresh(r.value) && !r.value.closed
      ensures Sorted(es) && FileFits(es, s) && file == FileBytes(es, s) ==> r.Ok? && ServesFile(r.value.state, es, s)
    {
      if Sorted(es) && FileFits(es, s) && file == FileBytes(es, s) {
        BuiltFile(es, s);
      }
      ghost var none := Metadata(0, 0, [], [], 0, 0, 0, 0, None);
      var metadata :- ReadFooter(file, if es == [] then none else MetadataOf(es, s));
      var sparseIndex :- LoadSparseIndex(file, metadata.indexOffset, IndexOf(es, s.interval));
      var bloomFilter :- LoadBloomFilter(file, metadata, FilterOf(es, s));
      var reader := new SSTableReader(ReaderState(file, metadata, sparseIndex, bloomFilter));
      r := Ok(reader);
    }

    method Close()
      modifies this
      ensures closed
    {
      closed := true;
    }

    method IsInRange(key: Key) returns (r: Result<bool>)
      ensures r == if closed then Err("not open")
        else Ok(AtMost(state.metadata.firstKey, key) && AtMost(key, state.metadata.lastKey))
    {
      if closed {
        return Err("not open");
      }
      var metadata := state.metadata;
      r := Ok(AtMost(metadata.firstKey, key) && AtMost(key, metadata.lastKey));
    }

    /**
     A table may be skipped on a negative answer: it never denies a key that is there, and it
     denies every key outside the file's range or with a bit that is not set.
     */
    method MayContain(key: Key, ghost es: seq<Record>, ghost s: Settings) returns (r: Result<bool>)
      ensures r.Ok? <==> !closed
      ensures r.Ok? ==>
        (r.value <==>
         (AtMost(state.metadata.firstKey, key) && AtMost(key, state.metadata.lastKey) &&
          (state.bloomFilter.Some? ==> MayHold(state.bloomFilter.value, key))))
      ensures r.Ok? && ServesFile(state, es, s) ==>
        (key in MapOf(es) ==> r.value) &&
        (r.value <==> InRange(key, es[0].key, es[|es| - 1].key) && MayHold(FilterOf(es, s), key))
    {
      if ServesFile(state, es, s) && key in MapOf(es) {
        KeysInRange(es, key);
        FilterHoldsKeys(es, s);
        MapOfHas(es, key);
      }
      var inRange :- IsInRange(key);
      if !inRange {
        return Ok(false);
      }
      if state.bloomFilter.Some? {
        var may := Test(state.bloomFilter.value, key);
        return Ok(may);
      }
      r := Ok(true);
    }

    /** On a built file, lookup in the list of entries, for present and absent keys alike. */
    method Get(key: Key, ghost es: seq<Record>, ghost s: Settings) returns (r: Result<Option<Record>>)
      ensures closed ==> r.Err?
      ensures !closed && ServesFile(state, es, s) ==> GetAnswers(r, es, s.interval, key)
    {
      ghost var good := ServesFile(state, es, s);
      var inRange :- IsInRange(key);
      if !inRange {
        if good && key in MapOf(es) {
          KeysInRange(es, key);
        }
        if good {
          MapOfHas(es, key);
        }
        return Ok(None);
      }
      var metadata, sparseIndex := state.metadata, state.sparseIndex;
      var offset := FindStartOffset(key, sparseIndex, metadata.dataOffset);
      ghost var j := 0;
      if good {
        j := ScanCanStart(es, s, key);
      }
      r := Scan(key, offset, metadata.indexOffset, es, s, j);
    }

    /** The entry at the offset of the j-th, and with its length the offset of the next. */
    method NextEntry(offset: nat, endOffset: nat, ghost es: seq<Record>, ghost s: Settings, ghost j: nat)
      returns (r: Result<(Record, nat)>)
      requires offset < endOffset
      ensures r.Ok? ==> r.value.1 > 0
      ensures ServesFile(state, es, s) && AtEntry(es, j, offset, endOffset) ==>
        (j < |es| && (r.Ok? <==> Covered(es[j])) &&
         (r.Ok? ==> r.value.0 == es[j] && AtEntry(es, j + 1, offset + r.value.1, endOffset)))
    {
      if ServesFile(state, es, s) && AtEntry(es, j, offset, endOffset) {
        assert es[..|es|] == es;
        EntryInFile(es, s, j);
        assert EntryFits(es[j]);
      }
      r := ReadEntryAt(state.file, offset);
    }

    method Scan(key: Key, startOffset: nat, endOffset: nat, ghost es: seq<Record>, ghost s: Settings, ghost start: nat)
      returns (r: Result<Option<Record>>)
      requires ServesFile(state, es, s) ==> ScanStarts(es, s.interval, key, start, startOffset, endOffset)
      ensures ServesFile(state, es, s) ==> (r.Ok? <==> AllScannedCovered(es, s.interval, key)) && (r.Ok? ==> r.value == Found(es, key))
    {
      hide FileFits, OpenState, StartIndex, DataBytes, Covered, Found;
      ghost var good, j: nat := ServesFile(state, es, s), start;
      var offset: nat := startOffset;
      while offset < endOffset
        invariant good ==> start <= j && AtEntry(es, j, offset, endOffset) && SortedEntries.AllBelow(es[..j], key)
        invariant good ==> forall i :: start <= i < j ==> Covered(es[i])
        decreases endOffset - offset
      {
        var next := NextEntry(offset, endOffset, es, s, j);
        if next.Err? {
          assert good ==> ScannedFor(es, s.interval, key, j);
          return Err(next.reason);
        }
        var (entry, bytesRead) := next.value;
        if entry.key == key {
          if good {
            ScanHit(es, j);
            ScanStops(es, s.interval, key, j);
          }
          return Ok(Some(entry));
        }
        LessTotal(key, entry.key);
        if Less(key, entry.key) {
          if good {
            ScanMiss(es, key, j);
            ScanStops(es, s.interval, key, j);
          }
          return Ok(None);
        }
        if good { BelowStep(es, key, j); }
        offset := offset + bytesRead;
        j := j + 1;
      }
      if good {
        EndOfData(es, j, offset, endOffset);
        ScanMiss(es, key, j);
      }
      r := Ok(None);
    }

    /** `iterate`, run to its end: the entries whose keys lie between the bounds, in order. */
    method Iterate(startKey: Option<Key>, endKey: Option<Key>, ghost es: seq<Record>, ghost s: Settings)
      returns (r: Result<seq<Record>>)
      ensures closed ==> r.Err?
      ensures !closed && ServesFile(state, es, s) ==>
        (var lo := if startKey.Some? then startKey.value else es[0].key;
         var hi := if endKey.Some? then endKey.value else es[|es| - 1].key;
         IterateAnswers(r, es, s.interval, lo, hi))
    {
      if closed {
        return Err("not open");
      }
      ghost var good := ServesFile(state, es, s);
      var metadata, sparseIndex := state.metadata, state.sparseIndex;
      var effectiveStart := if startKey.Some? then startKey.value else metadata.firstKey;
      var effectiveEnd := if endKey.Some? then endKey.value else metadata.lastKey;
      if Less(metadata.lastKey, effectiveStart) || Less(effectiveEnd, metadata.firstKey) {
        if good { NothingInRange(es, effectiveStart, effectiveEnd); }
        return Ok([]);
      }
      var offset := FindStartOffset(effectiveStart, sparseIndex, metadata.dataOffset);
      ghost var j := 0;
      if good {
        j := ScanCanStart(es, s, effectiveStart);
      }
      r := ScanRange(effectiveStart, effectiveEnd, offset, metadata.indexOffset, es, s, j);
    }

    method ScanRange(lo: Key, hi: Key, startOffset: nat, endOffset: nat, ghost es: seq<Record>, ghost s: Settings, ghost start: nat)
      returns (r: Result<seq<Record>>)
      requires ServesFile(state, es, s) ==> ScanStarts(es, s.interval, lo, start, startOffset, endOffset)
      ensures ServesFile(state, es, s) ==>
        (r.Ok? <==> AllWithinCovered(es, s.interval, lo, hi)) && (r.Ok? ==> r.value == RangeOf(es, lo, hi))
    {
      hide FileFits, OpenState, StartIndex, DataBytes, Covered, RangeOf;
      ghost var good, j: nat := ServesFile(state, es, s), start;
      var offset: nat := startOffset;
      var entries: seq<Record> := [];
      if good {
        RangeOfOutside(es[..j], lo, lo, hi);
      }
      while offset < endOffset
        invariant good ==> start <= j && AtEntry(es, j, offset, endOffset) && entries == RangeOf(es[..j], lo, hi)
        invariant good ==> forall i :: start <= i < j ==> Covered(es[i]) && (Less(es[i].key, lo) || !Less(hi, es[i].key))
        decreases endOffset - offset
      {
        var next := NextEntry(offset, endOffset, es, s, j);
        if next.Err? {
          assert good ==> ScannedWithin(es, s.interval, lo, hi, j);
          return Err(next.reason);
        }
        var (entry, bytesRead) := next.value;
        if good { RangeStep(es, lo, hi, j); }
        offset := offset + bytesRead;
        j := j + 1;
        if Less(entry.key, lo) {
          continue;
        }
        if Less(hi, entry.key) {
          if good { RangeEnds(es, lo, hi, j - 1); }
          return Ok(entries);
        }
        entries := entries + [entry];
      }
      if good {
        EndOfData(es, j, offset, endOffset);
      }
      r := Ok(entries);
    }
  }
}
