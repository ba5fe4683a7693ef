/** The writer of table files: entries are added in key order, then the file is built once. */
module SSTableWriters {
  import opened Wrappers
  import opened Keys
  import opened Buffers
  import opened SortedEntries
  import opened Tables
  import opened BloomFilters
  import opened SSTableFormat
  import opened SSTableLayout

  lemma DataAppend(es: seq<Record>, i: nat)
    requires i < |es|
    ensures DataBytes(es[..i + 1]) == DataBytes(es[..i]) + EntryBytes(es[i])
  {
    assert es[..i + 1][..i] == es[..i];
  }

  lemma IndexAppend(es: seq<Record>, interval: nat, i: nat)
    requires i < |es|
    ensures IndexOf(es[..i + 1], interval) ==
      IndexOf(es[..i], interval) + (if Sampled(i, interval) then [IndexEntry(es[i].key, |DataBytes(es[..i])|)] else [])
  {
    assert es[..i + 1][..i] == es[..i];
  }

  lemma FilterAppend(f: Filter, es: seq<Record>, i: nat)
    requires i < |es|
    ensures Filled(f, es[..i + 1]) == Added(Filled(f, es[..i]), es[i].key)
  {
    assert es[..i + 1][..i] == es[..i];
  }

  class SSTableWriter {
    const fileNumber: nat
    const interval: nat
    var entries: seq<Record>
    var sparseIndex: seq<IndexEntry>
    var lastKey: Option<Key>
    var built: bool

    ghost predicate Valid()
      reads this
    {
      Sorted(entries) && lastKey == (if entries == [] then None else Some(entries[|entries| - 1].key)) &&
      (!built ==> sparseIndex == [])
    }

    constructor (fileNumber: nat, interval: nat)
      ensures Valid() && entries == [] && !built
      ensures this.fileNumber == fileNumber && this.interval == interval
    {
      this.fileNumber, this.interval := fileNumber, interval;
      entries, sparseIndex, lastKey, built := [], [], None, false;
    }

    /** An entry is accepted exactly if nothing is built yet and its key is above the last one. */
    method Add(entry: Record) returns (r: Result<()>)
      requires Valid()
      modifies this
      ensures Valid() && built == old(built)
      ensures r.Ok? <==> !built && (old(entries) == [] || Less(old(entries)[|old(entries)| - 1].key, entry.key))
      ensures entries == if r.Ok? then old(entries) + [entry] else old(entries)
    {
      if built {
        return Err("cannot add after build");
      }
      if lastKey.Some? {
        LessTotal(entry.key, lastKey.value);
        LessIrreflexive(entry.key);
        OrderCycle(entry.key, lastKey.value, entry.key);
        if AtMost(entry.key, lastKey.value) {
          return Err("keys must be in sorted order");
        }
        AboveAll(entries, entry.key);
      }
      SortedAppend(entries, entry);
      entries := entries + [entry];
      lastKey := Some(entry.key);
      r := Ok(());
    }

    static lemma AboveAll(es: seq<Record>, k: Key)
      requires Sorted(es) && es != [] && Less(es[|es| - 1].key, k)
      ensures SortedEntries.AllBelow(es, k)
    {
      forall i | 0 <= i < |es|
        ensures Less(es[i].key, k)
      {
        if i < |es| - 1 { LessTransitive(es[i].key, es[|es| - 1].key, k); }
      }
    }

    ghost function TheSettings(numBits: nat, numHashes: nat, now: nat): Settings {
      Settings(fileNumber, interval, numBits, numHashes, now)
    }

    /**
     The file and its metadata.  The size of the Bloom filter and the time are parameters.
     Building fails for the second time, without entries, or if some number does not fit its
     field; after any attempt the writer counts as built.
     */
    method Build(numBits: nat, numHashes: nat, now: nat) returns (r: Result<(Bytes, Metadata)>)
      requires Valid() && 0 < numBits < 0x1_0000_0000 && numHashes < 0x1_0000_0000
      modifies this`built, this`sparseIndex
      ensures Valid() && (built || entries == [])
      ensures r.Ok? <==> !old(built) && entries != [] && FileFits(entries, TheSettings(numBits, numHashes, now))
      ensures r.Ok? ==>
        r.value == (FileBytes(entries, TheSettings(numBits, numHashes, now)), MetadataOf(entries, TheSettings(numBits, numHashes, now)))
    {
      if built {
        return Err("build already called");
      }
      if |entries| == 0 {
        return Err("cannot build an empty table");
      }
      built := true;
      ghost var s := TheSettings(numBits, numHashes, now);
      var bloomFilter := BloomFilter.Create(numBits, numHashes);
      var data := WriteData(bloomFilter);
      if data.Err? {
        return Err(data.reason);
      }
      r := WriteRest(data.value, bloomFilter, now, s);
    }

    /** The entries, each also entered into the Bloom filter and every so often into the index. */
    method WriteData(bloomFilter: BloomFilter) returns (r: Result<Bytes>)
      requires sparseIndex == []
      modifies this`sparseIndex, bloomFilter.bits
      ensures r.Ok? <==> forall i :: 0 <= i < |entries| ==> EntryFits(entries[i])
      ensures r.Ok? ==> r.value == DataBytes(entries) && sparseIndex == IndexOf(entries, interval)
      ensures r.Ok? ==> bloomFilter.View() == Filled(old(bloomFilter.View()), entries)
    {
      var file: Bytes := [];
      ghost var empty := bloomFilter.View();
      for i := 0 to |entries|
        invariant forall j :: 0 <= j < i ==> EntryFits(entries[j])
        invariant file == DataBytes(entries[..i])
        invariant sparseIndex == IndexOf(entries[..i], interval)
        invariant bloomFilter.View() == Filled(empty, entries[..i])
      {
        var entry := entries[i];
        if !EntryFits(entry) {
          return Err("value out of range");
        }
        FilterAppend(empty, entries, i);
        file := WriteOne(bloomFilter, i, file);
      }
      assert entries[..|entries|] == entries;
      r := Ok(file);
    }

    /** One entry: into the filter, into the index if it is its turn, and behind the others. */
    method WriteOne(bloomFilter: BloomFilter, i: nat, file: Bytes) returns (longer: Bytes)
      requires i < |entries| && EntryFits(entries[i])
      requires file == DataBytes(entries[..i]) && sparseIndex == IndexOf(entries[..i], interval)
      modifies this`sparseIndex, bloomFilter.bits
      ensures longer == DataBytes(entries[..i + 1]) && sparseIndex == IndexOf(entries[..i + 1], interval)
      ensures bloomFilter.View() == Added(old(bloomFilter.View()), entries[i].key)
    {
      DataAppend(entries, i);
      IndexAppend(entries, interval, i);
      var entry := entries[i];
      bloomFilter.Add(entry.key);
      var currentOffset := |file|;
      if Sampled(i, interval) {
        sparseIndex := sparseIndex + [IndexEntry(entry.key, currentOffset)];
      }
      var entryBuffer := SerializeEntry(entry);
      longer := file + entryBuffer;
    }

    /** The index behind its count. */
    method WriteIndex(data: Bytes) returns (file: Bytes)
      requires forall e :: e in sparseIndex ==> IndexEntryFits(e)
      ensures file == data + Encode(|sparseIndex|, 4) + IndexBytes(sparseIndex)
    {
      file := data + Encode(|sparseIndex|, 4);
      ghost var before := file;
      for i := 0 to |sparseIndex|
        invariant file == before + IndexBytes(sparseIndex[..i])
      {
        var indexBuffer := SerializeIndexEntry(sparseIndex[i]);
        assert sparseIndex[..i + 1][..i] == sparseIndex[..i];
        Sequences.Associative(before, IndexBytes(sparseIndex[..i]), indexBuffer);
        file := file + indexBuffer;
      }
      assert sparseIndex[..|sparseIndex|] == sparseIndex;
    }

    method WriteRest(data: Bytes, bloomFilter: BloomFilter, now: nat, ghost s: Settings) returns (r: Result<(Bytes, Metadata)>)
      requires Sorted(entries) && entries != [] && forall i :: 0 <= i < |entries| ==> EntryFits(entries[i])
      requires data == DataBytes(entries) && sparseIndex == IndexOf(entries, interval)
      requires 0 < s.numBits < 0x1_0000_0000 && s.numHashes < 0x1_0000_0000
      requires s.fileNumber == fileNumber && s.interval == interval && s.createdAt == now
      requires bloomFilter.View() == FilterOf(entries, s)
      ensures r.Ok? <==> FileFits(entries, s)
      ensures r.Ok? ==> r.value == (FileBytes(entries, s), MetadataOf(entries, s))
    {
      IndexIsSorted(entries, interval);
      if |data| >= TWO_TO_64 || |sparseIndex| >= 0x1_0000_0000 {
        return Err("value out of range");
      }
      IndexFits(entries, interval);
      var body := WriteIndex(data);
      assert body == BodyBytes(entries, s);
      FilterHoldsKeys(entries, s);
      var bloomFilterBuffer := bloomFilter.Serialize();
      r := WriteFooter(body, bloomFilterBuffer, |data|, now, s);
    }

    method WriteFooter(body: Bytes, bloom: Bytes, indexOffset: nat, now: nat, ghost s: Settings) returns (r: Result<(Bytes, Metadata)>)
      requires entries != [] && forall i :: 0 <= i < |entries| ==> EntryFits(entries[i])
      requires body == BodyBytes(entries, s) && bloom == FilterBytes(FilterOf(entries, s)) && indexOffset == |DataBytes(entries)|
      requires 0 < s.numBits < 0x1_0000_0000 && s.numHashes < 0x1_0000_0000 && s.fileNumber == fileNumber && s.createdAt == now
      ensures r.Ok? <==> FileFits(entries, s)
      ensures r.Ok? ==> r.value == (FileBytes(entries, s), MetadataOf(entries, s))
    {
      var firstKey, lastKey := entries[0].key, entries[|entries| - 1].key;
      var metadata := Metadata(fileNumber, |entries|, firstKey, lastKey,
                               |body| + |bloom| + CalculateFooterSize(firstKey, lastKey), now, indexOffset, 0, Some(|body|));
      assert metadata == MetadataOf(entries, s);
      if !MetadataFits(metadata) {
        return Err("value out of range");
      }
      var footerBuffer := SerializeFooter(metadata);
      r := Ok((body + bloom + footerBuffer, metadata));
    }
  }
}
