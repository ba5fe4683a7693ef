/**
 Compaction: all tables of the manifest are merged into one without tombstones, which takes
 their place; if nothing is live they just go.
 */
module Compactions {
  import opened Wrappers
  import opened Keys
  import opened Buffers
  import opened SortedEntries
  import opened Tables
  import opened SSTableFormat
  import opened SSTableLayout
  import opened SSTableReaders
  import opened Manifests
  import opened MergeIterators
  import opened TableFiles

  datatype CompactionResult =
    CompactionResult(newSSTable: Metadata, compactedFileNumbers: seq<nat>, entriesWritten: nat, entriesRemoved: nat)

  ghost function Sources(cs: seq<Content>): seq<seq<Record>> {
    seq(|cs|, i requires 0 <= i < |cs| => cs[i].entries)
  }

  /** The newest version of every key in the given files. */
  ghost function MergedContents(cs: seq<Content>): Table {
    Overlay(TablesOf(Sources(cs)))
  }

  /** The files that the manifest lists are on disk. */
  ghost predicate Intact(files: map<nat, Bytes>, metas: seq<Metadata>, cs: seq<Content>) {
    |metas| == |cs| && forall i :: 0 <= i < |metas| ==> OnDisk(files, metas[i], cs[i])
  }

  // ----- What is written -----

  /** The merged pairs as entries, all live and with one time stamp. */
  function Stamped(pairs: seq<Pair<Bytes>>, now: nat): seq<Record> {
    seq(|pairs|, i requires 0 <= i < |pairs| => Pair(pairs[i].key, Version(pairs[i].value, now, false)))
  }

  ghost function StampedMap(m: map<Key, Bytes>, now: nat): Table {
    map k | k in m :: Version(m[k], now, false)
  }

  lemma {:induction false} StampedMapOf(pairs: seq<Pair<Bytes>>, now: nat)
    requires Sorted(pairs)
    ensures Sorted(Stamped(pairs, now)) && MapOf(Stamped(pairs, now)) == StampedMap(MapOf(pairs), now)
  {
    if pairs != [] {
      var init, last := pairs[..|pairs| - 1], pairs[|pairs| - 1];
      StampedMapOf(init, now);
      assert Stamped(pairs, now)[..|pairs| - 1] == Stamped(init, now);
      StampUpdate(MapOf(init), last.key, last.value, now);
    }
  }

  lemma StampUpdate(m: map<Key, Bytes>, k: Key, v: Bytes, now: nat)
    ensures StampedMap(m[k := v], now) == StampedMap(m, now)[k := Version(v, now, false)]
  {
  }

  // ----- Counting -----

  lemma {:induction false} MapOfLength<V>(s: seq<Pair<V>>)
    requires Sorted(s)
    ensures |MapOf(s)| == |s|
  {
    if s != [] {
      MapOfLength(s[..|s| - 1]);
      KeyNotBelow(s[..|s| - 1], s[|s| - 1].key);
      AddOne(MapOf(s[..|s| - 1]), s[|s| - 1].key, s[|s| - 1].value);
    }
  }

  lemma AddOne<V>(m: map<Key, V>, k: Key, v: V)
    requires k !in m
    ensures |m[k := v]| == |m| + 1
  {
    assert m[k := v].Keys == m.Keys + {k};
  }

  /** How many entries have a key that an earlier source has too. */
  ghost function Shadowed(sources: seq<seq<Record>>): nat {
    if sources == [] then 0
    else
      var init, last := sources[..|sources| - 1], sources[|sources| - 1];
      Shadowed(init) + |MapOf(last).Keys * Overlay(TablesOf(init)).Keys|
  }

  /** The keys whose newest version is a tombstone. */
  ghost function Tombstones(t: Table): set<Key> {
    set k | k in t && t[k].deleted
  }

  lemma TablesOfAppend(init: seq<seq<Record>>, last: seq<Record>)
    ensures TablesOf(init + [last]) == TablesOf(init) + [MapOf(last)]
    ensures Overlay(TablesOf(init + [last])) == MapOf(last) + Overlay(TablesOf(init))
  {
    OverlayConcat(TablesOf(init), [MapOf(last)]);
    OverlayPush(MapOf(last), []);
    assert [MapOf(last)] + [] == [MapOf(last)];
    assert map[] + MapOf(last) == MapOf(last);
  }

  lemma UnionCount(a: set<Key>, b: set<Key>)
    ensures |a + b| + |a * b| == |a| + |b|
  {
    assert a + b == a + (b - a) && a * (b - a) == {};
    assert b == (b - a) + (a * b) && (b - a) * (a * b) == {};
    assert |a + (b - a)| == |a| + |b - a|;
    assert |(b - a) + (a * b)| == |b - a| + |a * b|;
  }

  lemma {:induction false} TotalLengthAppend(init: seq<seq<Record>>, last: seq<Record>)
    ensures TotalLength(init + [last]) == TotalLength(init) + |last|
  {
    if init == [] {
      assert init + [last] == [last];
    } else {
      TotalLengthAppend(init[1..], last);
      assert (init + [last])[1..] == init[1..] + [last];
    }
  }

  lemma {:induction false} KeysAndShadowed(sources: seq<seq<Record>>)
    requires forall i :: 0 <= i < |sources| ==> Sorted(sources[i])
    ensures |Overlay(TablesOf(sources)).Keys| + Shadowed(sources) == TotalLength(sources)
  {
    if sources == [] {
      assert TablesOf(sources) == [];
    } else {
      var init, last := sources[..|sources| - 1], sources[|sources| - 1];
      KeysAndShadowed(init);
      Sequences.InitAndLast(sources);
      TablesOfAppend(init, last);
      TotalLengthAppend(init, last);
      MapOfLength(last);
      UnionCount(MapOf(last).Keys, Overlay(TablesOf(init)).Keys);
      assert (MapOf(last) + Overlay(TablesOf(init))).Keys == MapOf(last).Keys + Overlay(TablesOf(init)).Keys;
    }
  }

  lemma LiveAndTombstones(t: Table)
    ensures |t.Keys| == |Live(t)| + |Tombstones(t)|
  {
    assert t.Keys == Live(t).Keys + Tombstones(t) && Live(t).Keys * Tombstones(t) == {};
    assert |Live(t).Keys + Tombstones(t)| == |Live(t).Keys| + |Tombstones(t)|;
  }

  /** Every entry read is written on, shadowed by a newer one, or a tombstone that wins. */
  lemma EntriesAreAccountedFor(sources: seq<seq<Record>>)
    requires forall i :: 0 <= i < |sources| ==> Sorted(sources[i])
    ensures var t := Overlay(TablesOf(sources));
      TotalLength(sources) == |Listing(Live(t))| + Shadowed(sources) + |Tombstones(t)|
  {
    var t := Overlay(TablesOf(sources));
    KeysAndShadowed(sources);
    LiveAndTombstones(t);
    MapOfLength(Listing(Live(t)));
  }

  // ----- The program -----

  /** Every entry of these files can be read back. */
  ghost predicate ContentsCovered(cs: seq<Content>) {
    forall i :: 0 <= i < |cs| ==> AllCovered(cs[i].entries)
  }

  lemma WholeRange(es: seq<Record>)
    requires Sorted(es) && es != []
    ensures RangeOf(es, es[0].key, es[|es| - 1].key) == es
  {
    forall i | 0 <= i < |es|
      ensures InRange(es[i].key, es[0].key, es[|es| - 1].key)
    {
    }
    RangeOfAll(es, es[0].key, es[|es| - 1].key);
  }

  lemma {:induction false} RangeOfAll(es: seq<Record>, lo: Key, hi: Key)
    requires forall i :: 0 <= i < |es| ==> InRange(es[i].key, lo, hi)
    ensures RangeOf(es, lo, hi) == es
  {
    if es != [] {
      RangeOfAll(es[..|es| - 1], lo, hi);
      Sequences.InitAndLast(es);
    }
  }

  /** Read from the beginning to the end, every entry is read. */
  lemma WholeScan(es: seq<Record>, interval: nat)
    requires Sorted(es) && es != []
    ensures RangeCovered(es, interval, es[0].key, es[|es| - 1].key) <==> AllCovered(es)
  {
    var lo, hi := es[0].key, es[|es| - 1].key;
    StartIndexIsLastSample(es, interval, lo);
    var start := StartIndex(es, interval, lo);
    OrderCycle(lo, es[start].key, lo);
    assert start == 0;
    forall i | 0 <= i < |es|
      ensures !Less(hi, es[i].key) && !Less(es[i].key, lo)
    {
      OrderCycle(es[i].key, hi, es[i].key);
      OrderCycle(lo, es[i].key, lo);
      LessIrreflexive(lo);
      LessIrreflexive(hi);
    }
    forall i: nat | i < |es|
      ensures ScannedWithin(es, interval, lo, hi, i)
    {
    }
  }

  /** All entries of a file, as the merge reads them. */
  method ReadFile(disk: Disk, m: Metadata, ghost c: Content) returns (r: Result<seq<Record>>)
    ensures OnDisk(disk.files, m, c) ==> (r.Ok? <==> AllCovered(c.entries)) && (r.Ok? ==> r.value == c.entries)
  {
    var reader :- OpenFile(disk, m, c);
    if OnDisk(disk.files, m, c) {
      WholeRange(c.entries);
      WholeScan(c.entries, c.settings.interval);
    }
    r := reader.Iterate(None, None, c.entries, c.settings);
    reader.Close();
  }

  lemma SourcesStep(cs: seq<Content>, i: nat)
    requires i < |cs|
    ensures Sources(cs[..i + 1]) == Sources(cs[..i]) + [cs[i].entries]
  {
  }

  method ReadAll(disk: Disk, metas: seq<Metadata>, ghost cs: seq<Content>) returns (r: Result<seq<seq<Record>>>)
    requires Intact(disk.files, metas, cs)
    ensures r.Ok? <==> ContentsCovered(cs)
    ensures r.Ok? ==> r.value == Sources(cs)
  {
    hide OnDisk, AllCovered;
    var sources: seq<seq<Record>> := [];
    for i := 0 to |metas|
      invariant sources == Sources(cs[..i]) && forall j :: 0 <= j < i ==> AllCovered(cs[j].entries)
    {
      assert OnDisk(disk.files, metas[i], cs[i]);
      var entries := ReadFile(disk, metas[i], cs[i]);
      if entries.Err? {
        return Err(entries.reason);
      }
      SourcesStep(cs, i);
      sources := sources + [entries.value];
    }
    assert cs[..|metas|] == cs;
    r := Ok(sources);
  }

  /** The merge over all sources, newest first, without tombstones. */
  method MergeAll(sources: seq<seq<Record>>) returns (pairs: seq<Pair<Bytes>>)
    requires forall i :: 0 <= i < |sources| ==> Sorted(sources[i])
    ensures pairs == Listing(Live(Overlay(TablesOf(sources))))
  {
    var merger := new MergeIterator(sources, false);
    VisibleIsLive(Overlay(TablesOf(sources)));
    pairs := merger.Collect(None);
  }

  function FileNumbers(metas: seq<Metadata>): seq<nat> {
    seq(|metas|, i requires 0 <= i < |metas| => metas[i].fileNumber)
  }

  ghost function EntryCounts(metas: seq<Metadata>): nat {
    if metas == [] then 0 else EntryCounts(metas[..|metas| - 1]) + metas[|metas| - 1].entryCount
  }

  method CountEntries(metas: seq<Metadata>) returns (total: nat)
    ensures total == EntryCounts(metas)
  {
    total := 0;
    for i := 0 to |metas|
      invariant total == EntryCounts(metas[..i])
    {
      assert metas[..i + 1][..i] == metas[..i];
      total := total + metas[i].entryCount;
    }
    assert metas[..|metas|] == metas;
  }

  lemma {:induction false} EntryCountsTotal(metas: seq<Metadata>, cs: seq<Content>)
    requires |metas| == |cs| && forall i :: 0 <= i < |metas| ==> metas[i].entryCount == |cs[i].entries|
    ensures EntryCounts(metas) == TotalLength(Sources(cs))
  {
    if metas == [] {
      assert Sources(cs) == [];
    } else {
      var n := |metas| - 1;
      EntryCountsTotal(metas[..n], cs[..n]);
      assert Sources(cs) == Sources(cs[..n]) + [cs[n].entries];
      TotalLengthAppend(Sources(cs[..n]), cs[n].entries);
    }
  }

  lemma IntactCounts(files: map<nat, Bytes>, metas: seq<Metadata>, cs: seq<Content>)
    requires Intact(files, metas, cs)
    ensures EntryCounts(metas) == TotalLength(Sources(cs)) && |Listing(Live(MergedContents(cs)))| <= TotalLength(Sources(cs))
  {
    forall i | 0 <= i < |metas|
      ensures metas[i].entryCount == |cs[i].entries| && Sorted(cs[i].entries)
    {
      assert OnDisk(files, metas[i], cs[i]);
    }
    EntryCountsTotal(metas, cs);
    EntriesAreAccountedFor(Sources(cs));
  }

  /** The manifest's numbers, all of them, leave nothing. */
  lemma NothingLeft(metas: seq<Metadata>)
    ensures Without(FileNumber, metas, Numbers(FileNumbers(metas))) == []
  {
    forall m | m in metas
      ensures FileNumber(m) in Numbers(FileNumbers(metas))
    {
      var i :| 0 <= i < |metas| && metas[i] == m;
      assert FileNumbers(metas)[i] == m.fileNumber;
    }
    WithoutAll(FileNumber, metas, Numbers(FileNumbers(metas)));
  }

  /** A file numbered above all of them stays when they go. */
  lemma OnlyTheNewest(m: Metadata, metas: seq<Metadata>)
    requires AllNumbersBelow(FileNumber, metas, m.fileNumber)
    ensures Without(FileNumber, [m] + metas, Numbers(FileNumbers(metas))) == [m]
    ensures m.fileNumber !in Numbers(FileNumbers(metas))
  {
    forall i | 0 <= i < |metas|
      ensures FileNumbers(metas)[i] != m.fileNumber
    {
      assert FileNumber(metas[i]) < m.fileNumber;
    }
    WithoutNone(FileNumber, [m], Numbers(FileNumbers(metas)));
    WithoutConcat(FileNumber, [m], metas, Numbers(FileNumbers(metas)));
    NothingLeft(metas);
  }

  /** What the output of a compaction of these files consists of. */
  ghost function OutputContent(cs: seq<Content>, number: nat, tuning: Tuning, now: nat): Content {
    Content(Stamped(Listing(Live(MergedContents(cs))), now), SettingsFor(number, tuning, now))
  }

  class CompactionManager {
    const manifest: Manifest
    const disk: Disk
    const tuning: Tuning
    var totalCompactions: nat
    var totalEntriesCompacted: nat
    var totalEntriesRemoved: nat

    constructor (manifest: Manifest, disk: Disk, tuning: Tuning)
      ensures this.manifest == manifest && this.disk == disk && this.tuning == tuning
      ensures totalCompactions == totalEntriesCompacted == totalEntriesRemoved == 0
    {
      this.manifest, this.disk, this.tuning := manifest, disk, tuning;
      totalCompactions, totalEntriesCompacted, totalEntriesRemoved := 0, 0, 0;
    }

    method UpdateStats(entriesCompacted: nat, entriesRemoved: nat)
      modifies this
      ensures totalCompactions == old(totalCompactions) + 1
      ensures totalEntriesCompacted == old(totalEntriesCompacted) + entriesCompacted
      ensures totalEntriesRemoved == old(totalEntriesRemoved) + entriesRemoved
    {
      totalCompactions := totalCompactions + 1;
      totalEntriesCompacted := totalEntriesCompacted + entriesCompacted;
      totalEntriesRemoved := totalEntriesRemoved + entriesRemoved;
    }

    method DeleteOldFiles(numbers: seq<nat>)
      modifies disk
      ensures disk.files == old(disk.files) - Numbers(numbers)
    {
      for i := 0 to |numbers|
        invariant disk.files == old(disk.files) - Numbers(numbers[..i])
      {
        assert Numbers(numbers[..i + 1]) == Numbers(numbers[..i]) + {numbers[i]};
        disk.files := disk.files - {numbers[i]};
      }
      assert numbers[..|numbers|] == numbers;
    }

    /** The inputs leave the manifest, and then the disk. */
    method RemoveInputs(inputs: seq<Metadata>)
      requires manifest.Valid()
      modifies manifest, disk
      ensures manifest.Valid() && manifest.sstables == Without(FileNumber, old(manifest.sstables), Numbers(FileNumbers(inputs)))
      ensures manifest.nextFileNumber == old(manifest.nextFileNumber)
      ensures disk.files == old(disk.files) - Numbers(FileNumbers(inputs))
    {
      manifest.RemoveSSTables(FileNumbers(inputs));
      DeleteOldFiles(FileNumbers(inputs));
    }

    /** Its inputs gone, the output is all that the manifest lists, and its file stays. */
    method Retire(output: Metadata, inputs: seq<Metadata>, ghost c: Content)
      requires manifest.Valid() && manifest.sstables == [output] + inputs && OnDisk(disk.files, output, c)
      modifies manifest, disk
      ensures manifest.Valid() && manifest.sstables == [output] && manifest.nextFileNumber == old(manifest.nextFileNumber)
      ensures OnDisk(disk.files, output, c) && disk.files == old(disk.files) - Numbers(FileNumbers(inputs))
    {
      forall i | 0 <= i < |inputs|
        ensures FileNumber(inputs[i]) < output.fileNumber
      {
        assert FileNumber(manifest.sstables[0]) > FileNumber(manifest.sstables[i + 1]);
      }
      OnlyTheNewest(output, inputs);
      RemoveInputs(inputs);
    }

    /** The output goes in the place of its inputs, in the manifest first, then on disk. */
    method Replace(output: Metadata, inputs: seq<Metadata>)
      requires manifest.Valid() && inputs == manifest.sstables && output.fileNumber == manifest.nextFileNumber
      modifies manifest, disk
      ensures manifest.Valid() && manifest.sstables == [output] && manifest.nextFileNumber == output.fileNumber + 1
      ensures disk.files == old(disk.files) - Numbers(FileNumbers(inputs))
      ensures output.fileNumber !in Numbers(FileNumbers(inputs))
    {
      OnlyTheNewest(output, inputs);
      manifest.AddSSTable(output);
      RemoveInputs(inputs);
    }

    /** All of the manifest's tables go. */
    method Drop(inputs: seq<Metadata>)
      requires manifest.Valid() && inputs == manifest.sstables
      modifies manifest, disk
      ensures manifest.Valid() && manifest.sstables == [] && manifest.nextFileNumber == old(manifest.nextFileNumber)
      ensures disk.files == old(disk.files) - Numbers(FileNumbers(inputs))
    {
      NothingLeft(inputs);
      RemoveInputs(inputs);
    }

    /** Read and merge everything that the manifest lists. */
    method MergeInputs(metas: seq<Metadata>, ghost cs: seq<Content>) returns (r: Result<seq<Pair<Bytes>>>)
      requires Intact(disk.files, metas, cs)
      ensures r.Ok? <==> ContentsCovered(cs)
      ensures r.Ok? ==> r.value == Listing(Live(MergedContents(cs)))
    {
      hide ContentsCovered;
      var sources := ReadAll(disk, metas, cs);
      if sources.Err? {
        return Err(sources.reason);
      }
      forall i | 0 <= i < |cs| ensures Sorted(Sources(cs)[i]) { assert OnDisk(disk.files, metas[i], cs[i]); }
      var pairs := MergeAll(sources.value);
      r := Ok(pairs);
    }

    /** A file of the merged pairs, under the next number. */
    method BuildOutput(pairs: seq<Pair<Bytes>>, now: nat) returns (r: Result<Metadata>)
      requires manifest.Valid() && ValidTuning(tuning) && Sorted(pairs) && pairs != []
      modifies disk
      ensures var c := Content(Stamped(pairs, now), SettingsFor(manifest.nextFileNumber, tuning, now));
        (r.Ok? <==> Built(c)) &&
        (r.Ok? ==> r.value.fileNumber == manifest.nextFileNumber && OnDisk(disk.files, r.value, c)) &&
        (r.Ok? ==> disk.files == old(disk.files)[manifest.nextFileNumber := FileBytes(c.entries, c.settings)]) &&
        (r.Err? ==> disk.files == old(disk.files))
    {
      hide FileFits, FileBytes;
      var newFileNumber := manifest.GetNextFileNumber();
      StampedMapOf(pairs, now);
      r := BuildTable(disk, Stamped(pairs, now), newFileNumber, tuning, now);
    }

    /** Nothing has changed. */
    twostate predicate Untouched()
      reads manifest, disk
    {
      manifest.sstables == old(manifest.sstables) && manifest.nextFileNumber == old(manifest.nextFileNumber) &&
      disk.files == old(disk.files)
    }

    /** With nothing live: the tables are gone, and all their entries count as removed. */
    twostate predicate AllDropped(total: nat)
      reads this, manifest, disk
    {
      manifest.sstables == [] && manifest.nextFileNumber == old(manifest.nextFileNumber) &&
      disk.files == old(disk.files) - Numbers(FileNumbers(old(manifest.sstables))) &&
      totalEntriesCompacted == old(totalEntriesCompacted) && totalEntriesRemoved == old(totalEntriesRemoved) + total
    }

    /** Otherwise: one table with the output is left, and every entry counts as written or removed. */
    twostate predicate Replaced(c: CompactionResult, output: Content, total: nat)
      reads this, manifest, disk
    {
      manifest.sstables == [c.newSSTable] && c.newSSTable.fileNumber == old(manifest.nextFileNumber) &&
      manifest.nextFileNumber == old(manifest.nextFileNumber) + 1 && OnDisk(disk.files, c.newSSTable, output) &&
      c.compactedFileNumbers == FileNumbers(old(manifest.sstables)) && c.entriesWritten == |output.entries| &&
      c.entriesWritten + c.entriesRemoved == total &&
      totalEntriesCompacted == old(totalEntriesCompacted) + c.entriesWritten &&
      totalEntriesRemoved == old(totalEntriesRemoved) + c.entriesRemoved
    }

    /**
     One compaction, given the contents of the files that the manifest lists.  With fewer than
     two tables nothing is done; if nothing is live all tables go; otherwise one table with
     exactly the live pairs takes their place.  It fails exactly if an entry cannot be read back
     or the output does not fit the file format.
     */
    method ExecuteCompaction(now: nat, ghost cs: seq<Content>) returns (r: Result<Option<CompactionResult>>)
      requires manifest.Valid() && ValidTuning(tuning) && Intact(disk.files, manifest.sstables, cs)
      modifies this, manifest, disk
      ensures manifest.Valid()
      ensures r.Err? || |cs| < 2 ==> (r.Ok? ==> r.value == None) && Untouched()
      ensures r.Ok? && |cs| >= 2 && Live(MergedContents(cs)) == map[] ==> r.value == None && AllDropped(TotalLength(Sources(cs)))
      ensures r.Ok? && |cs| >= 2 && Live(MergedContents(cs)) != map[] ==>
        r.value.Some? &&
        Replaced(r.value.value, OutputContent(cs, old(manifest.nextFileNumber), tuning, now), TotalLength(Sources(cs)))
      ensures r.Ok? <==>
        |cs| < 2 ||
        (ContentsCovered(cs) && (Live(MergedContents(cs)) == map[] || Built(OutputContent(cs, old(manifest.nextFileNumber), tuning, now))))
    {
      hide ContentsCovered, Built, OnDisk;
      var metas := manifest.sstables;
      if |metas| < 2 {
        return Ok(None);
      }
      var pairs := MergeInputs(metas, cs);
      if pairs.Err? {
        return Err(pairs.reason);
      }
      var totalEntriesRead := CountEntries(metas);
      IntactCounts(disk.files, metas, cs);
      NothingListed(Live(MergedContents(cs)));
      r := Finish(pairs.value, totalEntriesRead, now);
    }

    /** What follows the merge. */
    method Finish(pairs: seq<Pair<Bytes>>, totalEntriesRead: nat, now: nat) returns (r: Result<Option<CompactionResult>>)
      requires manifest.Valid() && ValidTuning(tuning) && Sorted(pairs) && |pairs| <= totalEntriesRead
      modifies this, manifest, disk
      ensures manifest.Valid()
      ensures r.Err? ==> Untouched()
      ensures r.Ok? && pairs == [] ==> r.value == None && AllDropped(totalEntriesRead)
      ensures r.Ok? && pairs != [] ==>
        r.value.Some? &&
        Replaced(r.value.value, Content(Stamped(pairs, now), SettingsFor(old(manifest.nextFileNumber), tuning, now)), totalEntriesRead)
      ensures r.Ok? <==> pairs == [] || Built(Content(Stamped(pairs, now), SettingsFor(old(manifest.nextFileNumber), tuning, now)))
    {
      if |pairs| == 0 {
        Drop(manifest.sstables);
        UpdateStats(0, totalEntriesRead);
        return Ok(None);
      }
      r := WriteOutput(pairs, totalEntriesRead, now);
    }

    method WriteOutput(pairs: seq<Pair<Bytes>>, totalEntriesRead: nat, now: nat) returns (r: Result<Option<CompactionResult>>)
      requires manifest.Valid() && ValidTuning(tuning) && Sorted(pairs) && 0 < |pairs| <= totalEntriesRead
      modifies this, manifest, disk
      ensures manifest.Valid()
      ensures r.Err? ==> Untouched()
      ensures r.Ok? ==>
        r.value.Some? &&
        Replaced(r.value.value, Content(Stamped(pairs, now), SettingsFor(old(manifest.nextFileNumber), tuning, now)), totalEntriesRead)
      ensures r.Ok? <==> Built(Content(Stamped(pairs, now), SettingsFor(old(manifest.nextFileNumber), tuning, now)))
    {
      hide Built, FileBytes, Manifest.Valid;
      var metas := manifest.sstables;
      var newMetadata := BuildOutput(pairs, now);
      if newMetadata.Err? {
        return Err(newMetadata.reason);
      }
      Replace(newMetadata.value, metas);
      var entriesWritten := |pairs|;
      UpdateStats(entriesWritten, totalEntriesRead - entriesWritten);
      r := Ok(Some(CompactionResult(newMetadata.value, FileNumbers(metas), entriesWritten, totalEntriesRead - entriesWritten)));
    }

    static lemma NothingListed(m: map<Key, Bytes>)
      ensures |Listing(m)| == 0 <==> m == map[]
    {
      MapOfLength(Listing(m));
    }
  }
}
