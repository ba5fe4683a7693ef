/**
 The store itself.  Its ghost field `state` is the state of the machine of module
 StoreMachine, and every method performs the machine's steps on the real data: memory tables,
 open readers, the manifest, the files and the log.
 */
module LSMStores {
  import opened Wrappers
  import opened Keys
  import opened SortedEntries
  import opened Sequences
  import opened Tables
  import opened LogEntries
  import opened WriteEffects
  import opened StoreMachine
  import opened MemTables
  import opened MergeIterators
  import opened SSTableFormat
  import opened SSTableLayout
  import opened SSTableReaders
  import opened Manifests
  import opened TableFiles
  import opened Compactions
  import opened ReadableStores
  import opened WriteAheadLogs
  import WalFormat

  datatype SSTableState = SSTableState(metadata: Metadata, reader: SSTableReader)

  function StateNumber(t: SSTableState): nat {
    t.metadata.fileNumber
  }

  /** Numbers of the first `k` readers, and of no other. */
  ghost predicate NumbersOfFirst(sstables: seq<SSTableState>, k: nat, numbers: set<nat>) {
    k <= |sstables| && (forall i :: 0 <= i < k ==> StateNumber(sstables[i]) in numbers) &&
    forall i :: k <= i < |sstables| ==> StateNumber(sstables[i]) !in numbers
  }

  /** Taking them out leaves the other readers. */
  lemma KeptReaders(sstables: seq<SSTableState>, k: nat, numbers: set<nat>)
    requires NumbersOfFirst(sstables, k, numbers)
    ensures Without(StateNumber, sstables, numbers) == sstables[k..]
  {
    hide Without;
    var first, rest := sstables[..k], sstables[k..];
    WithoutAll(StateNumber, first, numbers);
    WithoutNone(StateNumber, rest, numbers);
    WithoutConcat(StateNumber, first, rest, numbers);
    assert sstables == first + rest;
  }

  lemma SortedFrontIs(sstables: seq<SSTableState>, k: nat, kept: seq<SSTableState>, t: SSTableState)
    requires k <= |sstables| && kept == sstables[k..] && StrictlyDescending(StateNumber, sstables)
    requires AllNumbersBelow(StateNumber, sstables, StateNumber(t))
    ensures Sort(StateNumber, kept + [t]) == [t] + kept
  {
    forall i, j | 0 <= i < j < |kept| ensures StateNumber(kept[i]) > StateNumber(kept[j]) {
      assert StateNumber(sstables[k + i]) > StateNumber(sstables[k + j]);
    }
    forall i | 0 <= i < |kept| ensures StateNumber(kept[i]) < StateNumber(t) {
      assert StateNumber(sstables[k + i]) < StateNumber(t);
    }
    SortNewest(StateNumber, kept, t);
  }

  /** A new reader in front of those from the k-th on. */
  lemma SwitchedServe(sstables: seq<SSTableState>, contents: seq<Content>, tables: seq<TableFile>, k: nat,
                      t: SSTableState, c: Content, f: TableFile)
    requires AllServe(sstables, contents, tables) && k <= |sstables| && Serves(t, c, f)
    ensures k <= |contents| && k <= |tables| && AllServe([t] + sstables[k..], [c] + contents[k..], [f] + tables[k..])
  {
    hide Serves;
  }

  /** An open reader serves a table of the machine. */
  ghost predicate Serves(t: SSTableState, c: Content, f: TableFile) {
    Opened(t.reader, c) && t.metadata == MetadataOf(c.entries, c.settings) && f == TableFile(t.metadata.fileNumber, MapOf(c.entries))
  }

  /** The open readers serve the machine's tables, one each. */
  ghost predicate AllServe(sstables: seq<SSTableState>, contents: seq<Content>, tables: seq<TableFile>) {
    |sstables| == |contents| == |tables| && (forall i :: 0 <= i < |sstables| ==> Serves(sstables[i], contents[i], tables[i]))
  }

  /** If the tables can be read back, so can all that the readers serve. */
  lemma ServedCovered(sstables: seq<SSTableState>, contents: seq<Content>, tables: seq<TableFile>)
    requires AllServe(sstables, contents, tables) && CoveredFiles(tables)
    ensures ContentsCovered(contents)
  {
    hide FileFits, OpenState;
    forall i | 0 <= i < |contents|
      ensures AllCovered(contents[i].entries)
    {
      assert Serves(sstables[i], contents[i], tables[i]) && CoveredTable(tables[i].table);
      TableEntriesCovered(contents[i].entries);
    }
  }

  lemma TableEntriesCovered(es: seq<Record>)
    requires Sorted(es) && CoveredTable(MapOf(es))
    ensures AllCovered(es)
  {
    forall j | 0 <= j < |es|
      ensures Covered(es[j])
    {
      MapOfAt(es, j);
      CoveredIsStampless(es[j], 0, false);
    }
  }

  /** No reader has been closed, and none serves two tables. */
  ghost predicate AllOpen(sstables: seq<SSTableState>, readers: set<SSTableReader>)
    reads readers
  {
    (forall i :: 0 <= i < |sstables| ==> sstables[i].reader in readers && !sstables[i].reader.closed) &&
    forall i, j :: 0 <= i < j < |sstables| ==> sstables[i].reader != sstables[j].reader
  }

  /** The first `k` readers have been closed. */
  ghost predicate Closed(sstables: seq<SSTableState>, k: nat, readers: set<SSTableReader>)
    reads readers
  {
    k <= |sstables| && forall i :: 0 <= i < k ==> sstables[i].reader in readers && sstables[i].reader.closed
  }

  /** The manifest's files on disk are the machine's. */
  ghost predicate AllOnDisk(files: map<nat, Bytes>, metas: seq<Metadata>, listed: seq<Content>, manifest: seq<TableFile>) {
    Intact(files, metas, listed) && |manifest| == |metas| &&
    forall i :: 0 <= i < |metas| ==> manifest[i] == TableFile(metas[i].fileNumber, MapOf(listed[i].entries))
  }

  // ----- Lookup through the layers -----

  ghost function Lookup(m: map<Key, Bytes>, key: Key): Option<Bytes> {
    if key in m then Some(m[key]) else None
  }

  /** What the newest version of a key means to a reader. */
  function ValueOf(v: Version): Option<Bytes> {
    if v.deleted then None else Some(v.value)
  }

  lemma FoundIn(under: Table, top: Table, key: Key)
    requires key in top
    ensures Lookup(Live(under + top), key) == ValueOf(top[key])
  {
  }

  lemma NotFoundIn(under: Table, top: Table, key: Key)
    requires key !in top
    ensures Lookup(Live(under + top), key) == Lookup(Live(under), key)
  {
  }

  lemma FoundAt(files: seq<TableFile>, i: nat, key: Key)
    requires i < |files| && key in files[i].table && forall j :: 0 <= j < i ==> key !in files[j].table
    ensures Lookup(Live(Combined(files)), key) == ValueOf(files[i].table[key])
  {
    OverlayFirst(TablesIn(files), i, key);
  }

  lemma FoundNowhere(files: seq<TableFile>, key: Key)
    requires forall j :: 0 <= j < |files| ==> key !in files[j].table
    ensures Lookup(Live(Combined(files)), key) == None
  {
    OverlayAbsent(TablesIn(files), key);
  }

  // ----- Applying writes to a memory table -----

  lemma StoreAllStep(ks: seq<Key>, vs: seq<Bytes>, i: nat, t: Table, now: nat)
    requires i < |ks| && i < |vs|
    ensures StoreAll(ks[i..], vs[i..], t, now) == StoreAll(ks[i + 1..], vs[i + 1..], t[ks[i] := Version(vs[i], now, false)], now)
  {
    assert ks[i..][1..] == ks[i + 1..] && vs[i..][1..] == vs[i + 1..];
  }

  lemma StoreAllEnd(ks: seq<Key>, vs: seq<Bytes>, i: nat, t: Table, now: nat)
    requires i <= |ks| && i <= |vs| && (i == |ks| || i == |vs|)
    ensures StoreAll(ks[i..], vs[i..], t, now) == t
  {
  }

  method StorePairs(m: MemTable, ks: seq<Key>, vs: seq<Bytes>, now: nat)
    requires m.Valid()
    modifies m`currentSize, m.data, m.data.nodes
    ensures m.Valid() && fresh(m.Repr() - old(m.Repr())) && m.Table() == StoreAll(ks, vs, old(m.Table()), now)
  {
    hide StoreAll, MemTable.Valid, MemTable.Table;
    var i := 0;
    assert ks[0..] == ks && vs[0..] == vs;
    while i < |ks| && i < |vs|
      invariant i <= |ks| && i <= |vs| && m.Valid() && fresh(m.Repr() - old(m.Repr()))
      invariant StoreAll(ks, vs, old(m.Table()), now) == StoreAll(ks[i..], vs[i..], m.Table(), now)
    {
      StoreAllStep(ks, vs, i, m.Table(), now);
      m.Put(ks[i], vs[i], false, now);
      i := i + 1;
    }
    StoreAllEnd(ks, vs, i, m.Table(), now);
  }

  /** The size that a write takes off twice: that of the entry a delete hits. */
  ghost function TakenTwice(op: Operation, t: Table): nat {
    if op.Delete? && op.key in t then EntrySize(op.key, t[op.key]) else 0
  }

  method StoreOp(m: MemTable, op: Operation, now: nat)
    requires m.Valid()
    modifies m, m.data, m.data.nodes
    ensures m.Valid() && fresh(m.Repr() - old(m.Repr())) && m.Table() == Stored(op, old(m.Table()), now)
    ensures m.overcount == old(m.overcount) + TakenTwice(op, old(m.Table()))
  {
    match op
    case Put(k, v) => m.Put(k, v, false, now);
    case Delete(k) => m.Delete(k, now);
    case BatchPut(ks, vs) => StorePairs(m, ks, vs, now);
  }

  /** Two memory tables that share nothing. */
  ghost predicate Apart(m: MemTable, other: MemTable?)
    reads m, m.data, m.data.nodes
    reads if other == null then {} else {other, other.data}
    reads if other == null then {} else other.data.nodes
  {
    m.Valid() && (other != null ==> other.Valid() && m.Repr() !! other.Repr())
  }

  ghost function TableIn(m: MemTable?): Option<Table>
    reads if m == null then {} else {m.data}
  {
    if m == null then None else Some(m.Table())
  }

  /** A write into one table leaves the other one alone. */
  method StoreBeside(m: MemTable, other: MemTable?, op: Operation, now: nat)
    requires Apart(m, other)
    modifies m, m.data, m.data.nodes
    ensures Apart(m, other) && m.Table() == Stored(op, old(m.Table()), now) && TableIn(other) == old(TableIn(other))
    ensures m.overcount == old(m.overcount) + TakenTwice(op, old(m.Table()))
  {
    hide Stored, MemTable.Valid, MemTable.Table;
    StoreOp(m, op, now);
  }

  /** Replay of one logged write: pairs with an empty key are skipped. */
  method ApplyLogEntry(m: MemTable, op: Operation, now: nat)
    requires m.Valid()
    modifies m, m.data, m.data.nodes
    ensures m.Valid() && fresh(m.Repr() - old(m.Repr())) && m.Table() == Stored(Replayable(op), old(m.Table()), now)
    ensures m.overcount == old(m.overcount) + TakenTwice(Replayable(op), old(m.Table()))
  {
    match op
    case Put(k, v) =>
      if k != [] {
        m.Put(k, v, false, now);
      }
    case Delete(k) =>
      if k != [] {
        m.Delete(k, now);
      }
    case BatchPut(ks, vs) => ReplayPairs(m, ks, vs, now);
  }

  /** What replaying a batch makes of a table. */
  ghost function ReplayedPairs(ks: seq<Key>, vs: seq<Bytes>, t: Table, now: nat): Table {
    Stored(Replayable(BatchPut(ks, vs)), t, now)
  }

  method ReplayPairs(m: MemTable, ks: seq<Key>, vs: seq<Bytes>, now: nat)
    requires m.Valid()
    modifies m`currentSize, m.data, m.data.nodes
    ensures m.Valid() && fresh(m.Repr() - old(m.Repr())) && m.Table() == ReplayedPairs(ks, vs, old(m.Table()), now)
  {
    hide ReplayedPairs, MemTable.Valid, MemTable.Table;
    var i := 0;
    assert ks[0..] == ks && vs[0..] == vs;
    while i < |ks| && i < |vs|
      invariant i <= |ks| && i <= |vs| && m.Valid() && fresh(m.Repr() - old(m.Repr()))
      invariant ReplayedPairs(ks, vs, old(m.Table()), now) == ReplayedPairs(ks[i..], vs[i..], m.Table(), now)
    {
      ReplayStep(ks, vs, i, m.Table(), now);
      if ks[i] != [] {
        m.Put(ks[i], vs[i], false, now);
      }
      i := i + 1;
    }
    ReplayEnd(ks, vs, i, m.Table(), now);
  }

  lemma ReplayStep(ks: seq<Key>, vs: seq<Bytes>, i: nat, t: Table, now: nat)
    requires i < |ks| && i < |vs|
    ensures ReplayedPairs(ks[i..], vs[i..], t, now) ==
      ReplayedPairs(ks[i + 1..], vs[i + 1..], if ks[i] == [] then t else t[ks[i] := Version(vs[i], now, false)], now)
  {
    assert ks[i..][1..] == ks[i + 1..] && vs[i..][1..] == vs[i + 1..];
    SkipEmpty(ks[i..], vs[i..], t, now);
  }

  lemma ReplayEnd(ks: seq<Key>, vs: seq<Bytes>, i: nat, t: Table, now: nat)
    requires i <= |ks| && i <= |vs| && (i == |ks| || i == |vs|)
    ensures ReplayedPairs(ks[i..], vs[i..], t, now) == t
  {
  }

  lemma SkipEmpty(ks: seq<Key>, vs: seq<Bytes>, t: Table, now: nat)
    requires ks != [] && vs != []
    ensures ReplayedPairs(ks, vs, t, now) ==
      ReplayedPairs(ks[1..], vs[1..], if ks[0] == [] then t else t[ks[0] := Version(vs[0], now, false)], now)
  {
    var (ks', vs') := NonEmptyKeys(ks[1..], vs[1..]);
    assert ([ks[0]] + ks')[1..] == ks' && ([vs[0]] + vs')[1..] == vs';
  }

  method ReplayBeside(m: MemTable, other: MemTable?, op: Operation, now: nat)
    requires Apart(m, other)
    modifies m, m.data, m.data.nodes
    ensures Apart(m, other) && m.Table() == Stored(Replayable(op), old(m.Table()), now) && TableIn(other) == old(TableIn(other))
    ensures m.overcount == old(m.overcount) + TakenTwice(Replayable(op), old(m.Table()))
  {
    hide Stored, Replayable, MemTable.Valid, MemTable.Table;
    ApplyLogEntry(m, op, now);
  }

  method ReplayLog(m: MemTable, ops: seq<Operation>, now: nat)
    requires m.Valid()
    modifies m, m.data, m.data.nodes
    ensures m.Valid() && fresh(m.Repr() - old(m.Repr())) && m.Table() == ReplayAll(ops, old(m.Table()), now)
  {
    for i := 0 to |ops|
      invariant m.Valid() && fresh(m.Repr() - old(m.Repr())) && m.Table() == ReplayAll(ops[..i], old(m.Table()), now)
    {
      assert ops[..i + 1][..i] == ops[..i];
      ApplyLogEntry(m, ops[i], now);
    }
    assert ops[..|ops|] == ops;
  }

  /** A new table with the replayed log in it. */
  method Replayed(sizeLimit: int, ops: seq<Operation>, now: nat) returns (m: MemTable)
    ensures m.Valid() && fresh(m.Repr()) && m.Table() == ReplayAll(ops, map[], now) && m.sizeLimit == sizeLimit
  {
    m := new MemTable(sizeLimit);
    ReplayLog(m, ops, now);
  }

  method OpenOne(disk: Disk, m: Metadata, ghost c: Content, ghost f: TableFile) returns (t: SSTableState)
    requires OnDisk(disk.files, m, c) && f == TableFile(m.fileNumber, MapOf(c.entries))
    ensures Serves(t, c, f) && fresh(t.reader) && !t.reader.closed && t.metadata == m
  {
    var r := OpenFile(disk, m, c);
    t := SSTableState(m, r.value);
  }

  /** A reader for every file of the manifest. */
  method OpenAll(disk: Disk, metas: seq<Metadata>, ghost cs: seq<Content>, ghost files: seq<TableFile>) returns (ts: seq<SSTableState>, ghost readers: set<SSTableReader>)
    requires AllOnDisk(disk.files, metas, cs, files)
    ensures AllServe(ts, cs, files) && AllOpen(ts, readers) && fresh(readers)
  {
    hide OnDisk, Serves;
    ts, readers := [], {};
    for i := 0 to |metas|
      invariant |ts| == i && AllOpen(ts, readers) && fresh(readers)
      invariant forall j :: 0 <= j < i ==> Serves(ts[j], cs[j], files[j])
    {
      assert OnDisk(disk.files, metas[i], cs[i]);
      var t := OpenOne(disk, metas[i], cs[i], files[i]);
      ts, readers := ts + [t], readers + {t.reader};
    }
  }

  /** A new memory table shares nothing with an old one. */
  method NewBeside(other: MemTable, ghost third: MemTable?, sizeLimit: int) returns (m: MemTable)
    requires Apart(other, third)
    ensures Apart(m, other) && m.Table() == map[] && TableIn(other) == Some(old(other.Table())) && m.sizeLimit == sizeLimit && fresh(m)
  {
    hide MemTable.Valid, MemTable.Table;
    m := new MemTable(sizeLimit);
  }

  /** The sorted entries of the table beside another. */
  method EntriesOf(m: MemTable, ghost beside: MemTable) returns (entries: seq<Record>)
    requires Apart(beside, m)
    ensures Sorted(entries) && TableIn(m) == Some(MapOf(entries))
  {
    entries := m.GetAllSorted();
  }

  /** A file with a higher number leaves those on disk as they are. */
  lemma DiskKept(files: map<nat, Bytes>, metas: seq<Metadata>, listed: seq<Content>, manifest: seq<TableFile>, number: nat, bytes: Bytes)
    requires AllOnDisk(files, metas, listed, manifest) && AllNumbersBelow(FileNumber, metas, number)
    ensures AllOnDisk(files[number := bytes], metas, listed, manifest)
  {
    forall i | 0 <= i < |metas|
      ensures OnDisk(files[number := bytes], metas[i], listed[i])
    {
      assert OnDisk(files, metas[i], listed[i]) && FileNumber(metas[i]) < number;
    }
  }

  /** A file that is on disk can head the list. */
  lemma ListedPush(files: map<nat, Bytes>, metas: seq<Metadata>, listed: seq<Content>, manifest: seq<TableFile>,
                   m: Metadata, c: Content, f: TableFile)
    requires AllOnDisk(files, metas, listed, manifest) && OnDisk(files, m, c) && f == TableFile(m.fileNumber, MapOf(c.entries))
    ensures AllOnDisk(files, [m] + metas, [c] + listed, [f] + manifest)
  {
    hide OnDisk;
    forall i | 0 <= i < |metas| + 1
      ensures OnDisk(files, ([m] + metas)[i], ([c] + listed)[i])
    {
      assert i > 0 ==> OnDisk(files, metas[i - 1], listed[i - 1]);
    }
  }

  lemma SwappedOutSound(s: Store)
    requires Invariant(s) && s.flush.Swapped?
    ensures s.immutable.Some? && s.flush.number == s.nextFileNumber
  {
  }

  lemma CanBuild(s: Store)
    requires FlushEnabled(s, BuildFile)
    ensures s.flush.Swapped? && s.immutable.Some?
  {
  }

  lemma BuiltState(s: Store)
    requires FlushEnabled(s, BuildFile)
    ensures var t := FlushNext(s, BuildFile);
      t.flush == FileBuilt(TableFile(s.flush.number, s.immutable.value)) && t.active == s.active && t.immutable == s.immutable &&
      t.tables == s.tables && t.manifest == s.manifest && t.nextFileNumber == s.nextFileNumber && t.log == s.log &&
      t.compaction == s.compaction && t.inputs == s.inputs && t.torn == s.torn
  {
  }

  lemma FileBuiltSound(s: Store)
    requires Invariant(s) && s.flush.FileBuilt?
    ensures s.flush.file.number == s.nextFileNumber
  {
  }

  /** What each flush step makes possible; none touches the active table. */
  lemma FlushGoesOn(s: Store, a: FlushStep)
    requires Invariant(s) && FlushEnabled(s, a)
    ensures var t := FlushNext(s, a);
      Invariant(t) && View(t) == View(s) && (Readable(s) ==> Readable(t)) && t.active == s.active &&
      (a.BuildFile? ==> FlushEnabled(t, AddToManifest)) && (a.AddToManifest? ==> FlushEnabled(t, ListFile)) &&
      (a.ListFile? ==> FlushEnabled(t, Checkpoint)) && (a.Checkpoint? ==> FlushEnabled(t, ClearImmutable)) &&
      (a.ClearImmutable? ==> FlushEnabled(t, EndFlush)) && (a.EndFlush? ==> t.flush.NotFlushing? && t.immutable == None) &&
      (a.FailFlush? ==> t == s.(flush := Failed))
  {
    hide Readable, View;
    FlushStepKeeps(s, a);
    if Readable(s) { FlushReadable(s, a); }
  }

  /** The store after a flush: one more file, which holds the flushed table, and an empty log. */
  ghost function Flushed(s: Store): Store
    requires s.immutable.Some?
  {
    var f := TableFile(s.nextFileNumber, s.immutable.value);
    s.(manifest := [f] + s.manifest, tables := [f] + s.tables, nextFileNumber := s.nextFileNumber + 1,
       log := [], torn := false, immutable := None, immutableOps := [], flush := NotFlushing)
  }

  lemma FileIsAdded(s: Store, s1: Store, s2: Store, s3: Store)
    requires Invariant(s) && FlushEnabled(s, BuildFile) && s1 == FlushNext(s, BuildFile)
    requires Invariant(s1) && FlushEnabled(s1, AddToManifest) && s2 == FlushNext(s1, AddToManifest)
    requires FlushEnabled(s2, ListFile) && s3 == FlushNext(s2, ListFile)
    ensures s.immutable.Some? &&
      (var f := TableFile(s.nextFileNumber, s.immutable.value);
       s3 == s.(manifest := [f] + s.manifest, tables := [f] + s.tables, nextFileNumber := s.nextFileNumber + 1, flush := Listed))
  {
    hide View, Sort, FilesInOrder, CompactionSound;
    AddToManifestKeeps(s1);
  }

  lemma FlushEnds(s: Store, s1: Store, s2: Store, s3: Store)
    requires FlushEnabled(s, Checkpoint) && s1 == FlushNext(s, Checkpoint)
    requires FlushEnabled(s1, ClearImmutable) && s2 == FlushNext(s1, ClearImmutable)
    requires FlushEnabled(s2, EndFlush) && s3 == FlushNext(s2, EndFlush)
    ensures s3 == s.(log := [], torn := false, immutable := None, immutableOps := [], flush := NotFlushing)
  {
  }

  lemma TableCleared(s: Store)
    requires FlushEnabled(s, ClearImmutable)
    ensures FlushNext(s, ClearImmutable) == s.(immutable := None, flush := Cleared) && !s.flush.NotFlushing? && !s.flush.Failed?
  {
  }

  lemma NothingToFlush(s: Store, s1: Store, s2: Store)
    requires FlushEnabled(s, ClearImmutable) && s1 == FlushNext(s, ClearImmutable) && FlushEnabled(s1, EndFlush) && s2 == FlushNext(s1, EndFlush)
    ensures s2 == s.(immutable := None, flush := NotFlushing)
  {
  }

  /** If nothing has been logged since the swap, a flush forgets nothing. */
  lemma FlushSurvives(s: Store, t: Store)
    requires Durable(s) && s.activeOps == [] && s.inflight == [] && s.flush.Swapped? && Invariant(t)
    requires
      t == s.(flush := Failed) || (s.immutable == Some(map[]) && t == s.(immutable := None, flush := NotFlushing)) ||
      (s.immutable.Some? && t == Flushed(s))
    ensures Durable(t) && SurvivesCrash(t)
  {
    hide Invariant, Represents, Absorbs, SurvivesCrash;
    RepresentsNothing();
    assert [] + s.activeOps + s.inflight == [];
    DurableSurvives(t);
  }

  // ----- Compactions -----

  /** The manifest's files combine to what their contents merge to. */
  lemma ListedCombined(files: map<nat, Bytes>, metas: seq<Metadata>, listed: seq<Content>, manifest: seq<TableFile>)
    requires AllOnDisk(files, metas, listed, manifest)
    ensures MergedContents(listed) == Combined(manifest) && |metas| == |manifest|
  {
    hide OnDisk;
    assert TablesOf(Sources(listed)) == TablesIn(manifest);
  }

  /** Readers and machine tables have the same numbers. */
  lemma NumbersServed(sstables: seq<SSTableState>, contents: seq<Content>, tables: seq<TableFile>)
    requires AllServe(sstables, contents, tables)
    ensures |sstables| == |tables| && forall i :: 0 <= i < |sstables| ==> StateNumber(sstables[i]) == tables[i].number
  {
    hide Opened;
    forall i | 0 <= i < |sstables|
      ensures StateNumber(sstables[i]) == tables[i].number
    {
      assert Serves(sstables[i], contents[i], tables[i]);
    }
  }

  /** The inputs of a compaction are the files of the first readers, and no other reader has one of their numbers. */
  lemma InputReaders(sstables: seq<SSTableState>, metas: seq<Metadata>, s: Store)
    requires Invariant(s) && !s.compaction.NotCompacting? && Numbered(metas, s.inputs)
    requires |sstables| == |s.tables| && forall i :: 0 <= i < |sstables| ==> StateNumber(sstables[i]) == s.tables[i].number
    ensures NumbersOfFirst(sstables, |s.inputs|, Numbers(FileNumbers(metas))) && StrictlyDescending(StateNumber, sstables)
    ensures s.compaction.InputsRemoved? ==> AllNumbersBelow(StateNumber, sstables, s.compaction.output.number)
  {
    hide View, Invariant;
    CompactingAlone(s);
    var k, numbers := |s.inputs|, Numbers(FileNumbers(metas));
    forall i | 0 <= i < k
      ensures StateNumber(sstables[i]) in numbers
    {
      assert s.inputs[i] == s.tables[i] && FileNumber(metas[i]) == s.inputs[i].number;
      assert FileNumbers(metas)[i] == StateNumber(sstables[i]);
    }
    forall i | k <= i < |sstables|
      ensures StateNumber(sstables[i]) !in numbers
    {
      forall j | 0 <= j < k
        ensures FileNumbers(metas)[j] != StateNumber(sstables[i])
      {
        assert s.inputs[j] == s.tables[j] && FileNumber(metas[j]) == s.inputs[j].number;
        assert NumberOf(s.tables[j]) > NumberOf(s.tables[i]);
      }
    }
    forall i, j | 0 <= i < j < |sstables|
      ensures StateNumber(sstables[i]) > StateNumber(sstables[j])
    {
      assert NumberOf(s.tables[i]) > NumberOf(s.tables[j]);
    }
    if s.compaction.InputsRemoved? {
      forall i | 0 <= i < |sstables|
        ensures StateNumber(sstables[i]) < s.compaction.output.number
      {
        assert NumberOf(s.tables[i]) < s.compaction.output.number;
      }
    }
  }

  lemma ListedNone(files: map<nat, Bytes>)
    ensures AllOnDisk(files, [], [], [])
  {
  }

  lemma ListedOne(files: map<nat, Bytes>, m: Metadata, c: Content, f: TableFile)
    requires OnDisk(files, m, c) && f == TableFile(m.fileNumber, MapOf(c.entries))
    ensures AllOnDisk(files, [m], [c], [f])
  {
    hide OnDisk;
  }

  lemma ApartAlone(m: MemTable, other: MemTable?)
    requires Apart(m, other)
    ensures Apart(m, null)
  {
  }

  lemma ManifestNumbers(manifest: Manifest)
    requires manifest.Valid()
    ensures AllNumbersBelow(FileNumber, manifest.sstables, manifest.nextFileNumber)
  {
  }

  method BuildBeside(disk: Disk, manifest: Manifest, entries: seq<Record>, number: nat, tuning: Tuning, now: nat,
                     ghost listed: seq<Content>, ghost files: seq<TableFile>, ghost m: MemTable, ghost other: MemTable?)
    returns (r: Result<Metadata>)
    requires Apart(m, other) && Sorted(entries) && ValidTuning(tuning) && manifest.Valid() && number == manifest.nextFileNumber
    requires AllOnDisk(disk.files, manifest.sstables, listed, files)
    modifies disk
    ensures r.Ok? ==> OnlyAdded(old(disk.files), number, disk.files)
    ensures AllOnDisk(disk.files, manifest.sstables, listed, files)
    ensures Apart(m, other) && m.Table() == old(m.Table()) && TableIn(other) == old(TableIn(other))
    ensures r.Ok? ==> r.value.fileNumber == number && OnDisk(disk.files, r.value, Content(entries, SettingsFor(number, tuning, now)))
    ensures r.Err? ==> disk.files == old(disk.files)
    ensures r.Ok? <==> entries != [] && FileFits(entries, SettingsFor(number, tuning, now))
  {
    hide OnlyAdded, FileFits, OnDisk, AllOnDisk, Apart, TableIn, Manifest.Valid, MemTable.Table, FileBytes;
    ManifestNumbers(manifest);
    ghost var before := disk.files;
    r := BuildTable(disk, entries, number, tuning, now);
    if r.Ok? {
      DiskKept(before, manifest.sstables, listed, files, number, FileBytes(entries, SettingsFor(number, tuning, now)));
      JustAdded(before, number, FileBytes(entries, SettingsFor(number, tuning, now)));
    }
  }

  /** A write that is logged and at once applied. */
  ghost function Written(s: Store, op: Operation, now: nat, behind: seq<Operation>): Store
    requires s.inflight == []
  {
    Applied(Logged(s, op, behind), now)
  }

  /** What a write makes of the machine, with the swap that it may set off. */
  ghost predicate AfterWrite(s: Store, t: Store, u: Store) {
    u == t || (Idle(s.flush) && u == SwappedOut(t))
  }

  /** A swap came that nothing prevents: after a failed flush, or while a compaction runs. */
  ghost predicate Reckless(s: Store, u: Store) {
    Enabled(s, RecklessSwap) && u.flush.Swapped?
  }

  lemma SwapAfter(s: Store, t: Store, u: Store)
    requires AfterWrite(s, t, u) && SameFiles(s, t) && Invariant(t)
    ensures Reckless(s, u) || (Invariant(u) && View(u) == View(t))
    ensures Readable(t) ==> Readable(u)
  {
    hide Invariant, View, Readable;
    if u != t {
      if Enabled(t, Swap) {
        SwapKeeps(t);
        if Readable(t) { WriteReadable(t, Swap); }
      } else if Readable(t) {
        WriteReadable(t, RecklessSwap);
      }
    }
  }

  /** A crash at this point, whenever it is, changes nothing that readers see. */
  ghost predicate SurvivesCrash(s: Store) {
    forall now: nat {:trigger Reopened(s, now)} :: View(Reopened(s, now)) == View(s)
  }

  lemma DurableSurvives(s: Store)
    requires Invariant(s) && Durable(s) && s.inflight == []
    ensures SurvivesCrash(s)
  {
    hide View, Invariant, Durable, Reopened;
    ViewIsModel(s);
    NothingDone(s.inflight, s.model);
    forall now: nat
      ensures View(Reopened(s, now)) == View(s)
    {
      RecoveryIsExact(s, now);
    }
  }

  lemma SwapKeepsDurable(s: Store, t: Store, u: Store)
    requires AfterWrite(s, t, u) && SameFiles(s, t) && Invariant(t) && Durable(t) && t.inflight == [] && !Reckless(s, u)
    ensures Durable(u) && SurvivesCrash(u)
  {
    hide View, Invariant, Durable, SurvivesCrash;
    if u == t {
      DurableSurvives(u);
    } else {
      SwapDurable(t);
      SwapKeeps(t);
      DurableSurvives(u);
    }
  }

  /** An acknowledged write survives a crash. */
  lemma WrittenDurable(s: Store, op: Operation, now: nat, behind: seq<Operation>, u: Store)
    requires s.inflight == [] && Invariant(s) && Durable(s) && NoEmptyKey(op) && !s.torn
    requires AfterWrite(s, Written(s, op, now, behind), u) && !Reckless(s, u)
    ensures Durable(u) && SurvivesCrash(u)
  {
    hide View, Invariant, Durable, SurvivesCrash, Stored, Effect;
    LogDurable(s, op, behind);
    LogKeeps(s, op, behind);
    ApplyDurable(Logged(s, op, behind), now);
    ApplyKeeps(Logged(s, op, behind), now);
    SwapKeepsDurable(s, Written(s, op, now, behind), u);
  }

  lemma WriteSurvives(s: Store, op: Operation, now: nat, behind: seq<Operation>, u: Store, taken: bool)
    requires s.inflight == [] && Invariant(s) && (if taken then AfterWrite(s, Written(s, op, now, behind), u) else u == s)
    ensures Durable(s) && NoEmptyKey(op) && !s.torn && !Reckless(s, u) ==> Durable(u) && SurvivesCrash(u)
  {
    hide View, Invariant, Durable, SurvivesCrash, NoEmptyKey;
    if Durable(s) && NoEmptyKey(op) && !s.torn && !Reckless(s, u) {
      if taken {
        WrittenDurable(s, op, now, behind, u);
      } else {
        DurableSurvives(s);
      }
    }
  }

  lemma ReplicatedSurvives(s: Store, op: Operation, now: nat, behind: seq<Operation>, u: Store)
    requires s.inflight == [] && Invariant(s) && Durable(s) && NoEmptyKey(op) && !s.torn
    requires AfterWrite(s, Replicated(s, op, now, behind), u) && !Reckless(s, u)
    ensures Durable(u) && SurvivesCrash(u)
  {
    hide View, Invariant, Durable, SurvivesCrash, Stored, Effect, Replayable;
    ReplicatedDurable(s, op, now, behind);
    ReplicatedKeeps(s, op, now, behind);
    SwapKeepsDurable(s, Replicated(s, op, now, behind), u);
  }

  /** The record of a write is at the end of the newest log file, and nothing else has changed there. */
  ghost predicate RecordAdded(before: seq<Bytes>, sequenceId: nat, now: nat, op: Operation, after: seq<Bytes>) {
    before != [] && Storable(sequenceId, now, op) && after == Extended(before, WalFormat.RecordBytes(LogEntry(sequenceId, now, op)))
  }

  lemma WrittenView(s: Store, op: Operation, now: nat, behind: seq<Operation>, u: Store)
    requires s.inflight == [] && Invariant(s) && AfterWrite(s, Written(s, op, now, behind), u)
    ensures u.inflight == [] && (Reckless(s, u) || (Invariant(u) && View(u) == Effect(op, View(s))))
    ensures Readable(s) && CoveredOp(op) && (s.torn ==> CoveredOps(behind)) ==> Readable(u)
  {
    hide Invariant, View, Readable, CoveredOp, Effect, Stored, CoveredOps;
    var logged := Logged(s, op, behind);
    LogKeeps(s, op, behind);
    ApplyKeeps(logged, now);
    assert logged.inflight[0] == op;
    if Readable(s) && CoveredOp(op) && (s.torn ==> CoveredOps(behind)) {
      LoggedReadable(s, op, behind);
      WriteReadable(logged, ApplyWrite(now));
    }
    SwapAfter(s, Written(s, op, now, behind), u);
  }

  lemma ReplicatedFields(s: Store, op: Operation, now: nat, behind: seq<Operation>)
    requires s.inflight == []
    ensures var (t, u) := (Logged(s, op, behind), Replicated(s, op, now, behind));
      SameFiles(t, u) && u.log == t.log && u.torn == t.torn && t.active == s.active && u.active == Stored(Replayable(op), t.active, now)
  {
    hide Stored, Replayable, Effect;
  }

  lemma ActiveUnlogged(s: Store, op: Operation)
    ensures forall behind :: Logged(s, op, behind).active == s.active
  {
  }

  lemma ReplicatedView(s: Store, op: Operation, now: nat, behind: seq<Operation>, u: Store)
    requires s.inflight == [] && Invariant(s) && AfterWrite(s, Replicated(s, op, now, behind), u)
    ensures u.inflight == [] && (Reckless(s, u) || (Invariant(u) && View(u) == Effect(Replayable(op), View(s))))
    ensures Readable(s) && CoveredOp(op) && (s.torn ==> CoveredOps(behind)) ==> Readable(u)
  {
    hide Invariant, View, Readable, CoveredOp, Effect, Stored, Replayable, CoveredOps;
    ReplicatedKeeps(s, op, now, behind);
    if Readable(s) && CoveredOp(op) && (s.torn ==> CoveredOps(behind)) { ReplicatedReadable(s, op, now, behind); }
    SwapAfter(s, Replicated(s, op, now, behind), u);
  }

  /** What is found behind a torn record matters only if there is one. */
  lemma LoggedReadable(s: Store, op: Operation, behind: seq<Operation>)
    requires Readable(s) && CoveredOp(op) && (s.torn ==> CoveredOps(behind))
    ensures Readable(Logged(s, op, behind))
  {
    hide Readable, CoveredOp;
    var b := if s.torn then behind else [];
    WriteReadable(s, LogWrite(op, b));
    assert Logged(s, op, b) == Logged(s, op, behind);
  }

  lemma ReplicatedReadable(s: Store, op: Operation, now: nat, behind: seq<Operation>)
    requires s.inflight == [] && Readable(s) && CoveredOp(op) && (s.torn ==> CoveredOps(behind))
    ensures Readable(Replicated(s, op, now, behind))
  {
    hide Readable, CoveredOp, Stored, Replayable, Effect;
    var b := if s.torn then behind else [];
    WriteReadable(s, TakeReplicated(op, now, b));
    assert Replicated(s, op, now, b) == Replicated(s, op, now, behind);
  }

  /** A file on disk holds a table of the machine. */
  ghost predicate Holds(files: map<nat, Bytes>, m: Metadata, c: Content, f: TableFile) {
    OnDisk(files, m, c) && f == TableFile(m.fileNumber, MapOf(c.entries))
  }

  /** A file under this number, and otherwise the same files. */
  ghost predicate OnlyAdded(before: map<nat, Bytes>, number: nat, after: map<nat, Bytes>) {
    number in after && after - {number} == before - {number}
  }

  lemma JustAdded(before: map<nat, Bytes>, number: nat, bytes: Bytes)
    ensures OnlyAdded(before, number, before[number := bytes])
  {
    assert before[number := bytes] - {number} == before - {number};
  }

  lemma AddedThenRemoved(before: map<nat, Bytes>, number: nat, between: map<nat, Bytes>, gone: set<nat>)
    requires OnlyAdded(before, number, between) && number !in gone
    ensures OnlyAdded(before - gone, number, between - gone)
  {
    assert between - gone - {number} == between - {number} - gone;
    assert before - gone - {number} == before - {number} - gone;
  }

  ghost predicate Numbered(metas: seq<Metadata>, files: seq<TableFile>) {
    |metas| == |files| && forall i :: 0 <= i < |metas| ==> FileNumber(metas[i]) == files[i].number
  }

  /** The log can take it as one record. */
  predicate Storable(sequenceId: nat, now: nat, op: Operation) {
    WalFormat.Storable(LogEntry(sequenceId, now, op))
  }

  /** The table to flush fits the file format. */
  ghost predicate CanFlush(s: Store, tuning: Tuning, now: nat) {
    s.immutable.Some? && s.immutable.value != map[] &&
    FileFits(Listing(s.immutable.value), SettingsFor(s.nextFileNumber, tuning, now))
  }

  lemma FlushFits(entries: seq<Record>, s: Store, tuning: Tuning, now: nat)
    requires Sorted(entries) && s.immutable == Some(MapOf(entries))
    ensures CanFlush(s, tuning, now) <==> entries != [] && FileFits(entries, SettingsFor(s.nextFileNumber, tuning, now))
  {
    hide FileFits;
    EmptyMapList(entries);
    SortedListUnique(entries, Listing(MapOf(entries)));
  }

  lemma RotatedLog(s: Store)
    requires FlushEnabled(s, RotateLog)
    ensures FlushNext(s, RotateLog) == s.(torn := false)
  {
  }

  lemma DroppedLog(s: Store, from: nat, to: nat)
    requires FlushEnabled(s, DropLog(from, to))
    ensures var t := FlushNext(s, DropLog(from, to));
      t.log == s.log[..from] + s.log[to..] && SameFiles(s, t) && t.active == s.active && t.torn == s.torn
  {
  }

  /** The records of the i-th log file have gone. */
  ghost predicate FileDropped(s: Store, files: seq<Bytes>, i: nat, t: Store) {
    i < |files| &&
    (var from: nat := |ReadBack(files[..i])|;
     var to: nat := from + |WalFormat.Replayed(files[i])|;
     FlushEnabled(s, DropLog(from, to)) && t == FlushNext(s, DropLog(from, to)))
  }

  /** The output of a compaction: the live pairs of its inputs. */
  ghost function MergeOutput(s: Store, tuning: Tuning, now: nat): Content {
    Content(Stamped(Listing(Live(Combined(s.inputs))), now), SettingsFor(s.nextFileNumber, tuning, now))
  }

  lemma MergeOutputTable(s: Store, tuning: Tuning, now: nat)
    ensures MapOf(MergeOutput(s, tuning, now).entries) == Merged(s.inputs, now)
    ensures Live(Combined(s.inputs)) != map[] ==> Listing(Live(Combined(s.inputs))) != []
    ensures Sorted(Listing(Live(Combined(s.inputs))))
  {
    var live := Live(Combined(s.inputs));
    StampedMapOf(Listing(live), now);
    assert StampedMap(live, now) == Merged(s.inputs, now);
    EmptyMapList(Listing(live));
  }

  lemma NothingToMerge(pairs: seq<Pair<Bytes>>, live: map<Key, Bytes>)
    requires pairs == Listing(live)
    ensures pairs == [] <==> live == map[]
  {
    EmptyMapList(pairs);
  }

  lemma InputsAreListed(s: Store)
    requires Invariant(s) && s.compaction.Merging?
    ensures s.inputs == s.manifest
  {
  }

  /** What is known while a compaction runs. */
  lemma CompactingAlone(s: Store)
    requires Invariant(s) && !s.compaction.NotCompacting?
    ensures Idle(s.flush) && |s.inputs| <= |s.tables| && s.inputs == s.tables[..|s.inputs|]
    ensures |s.tables| - |s.inputs| == s.stale && Stale(s) == s.tables[|s.inputs|..]
    ensures StrictlyDescending(NumberOf, s.tables) && AllNumbersBelow(NumberOf, s.tables, s.nextFileNumber)
    ensures s.compaction.Merging? || s.compaction.OutputBuilt? ==> s.manifest == s.inputs
    ensures s.compaction.Merging? ==> s.compaction.number == s.nextFileNumber
    ensures s.compaction.OutputBuilt? ==> s.compaction.output.number == s.nextFileNumber
    ensures s.compaction.InputsRemoved? ==> AllNumbersBelow(NumberOf, s.tables, s.compaction.output.number)
  {
  }

  lemma ReadableTables(s: Store)
    requires Readable(s)
    ensures CoveredFiles(s.tables) && CoveredFiles(s.manifest)
  {
  }

  /** What each compaction step makes possible. */
  lemma CompactionGoesOn(s: Store, a: CompactionStep)
    requires Invariant(s) && CompactionEnabled(s, a)
    ensures var t := CompactionNext(s, a);
      Invariant(t) && View(t) == View(s) && (Readable(s) ==> Readable(t)) &&
      (a.StartCompaction? ==> t.compaction.Merging? && t.inputs == s.manifest && t == s.(inputs := s.manifest, compaction := t.compaction)) &&
      (a.BuildOutput? || a.AddOutput? || a.RemoveInputs? ==> t.inputs == s.inputs) &&
      (a.BuildOutput? ==> CompactionEnabled(t, AddOutput)) && (a.AddOutput? ==> CompactionEnabled(t, RemoveInputs)) &&
      (a.RemoveInputs? ==> CompactionEnabled(t, SwitchReaders) && |t.manifest| == 1) &&
      (a.SwitchReaders? ==> t.compaction.NotCompacting? && t.manifest == s.manifest) &&
      (a.DropInputs? ==> t.compaction.NotCompacting? && t.manifest == []) &&
      (a.Abandon? ==> t == s.(compaction := NotCompacting, inputs := []))
  {
    hide View, Invariant, Readable, Combined, Live, Merged, Sort, Without;
    CompactionStepKeeps(s, a);
    if Readable(s) { CompactionReadable(s, a); }
    if a.DropInputs? { DropInputsKeeps(s); }
    if a.RemoveInputs? { RemoveInputsKeeps(s); }
  }

  /** The store after a compaction of its files: one file with what is live, or none if nothing is. */
  ghost function Compacted(s: Store, now: nat): Store
    requires s.stale <= |s.tables|
  {
    var out := TableFile(s.nextFileNumber, Merged(s.manifest, now));
    if Live(Combined(s.manifest)) == map[] then s.(manifest := [], stale := |s.tables|, inputs := [])
    else s.(manifest := [out], nextFileNumber := s.nextFileNumber + 1, tables := [out] + Stale(s), inputs := [])
  }

  /** The output that was built is the one file of the manifest, and its reader heads the stale ones. */
  ghost predicate Installed(s: Store, t: Store) {
    s.compaction.OutputBuilt? && s.stale <= |s.tables| &&
    (var out := s.compaction.output;
     t == s.(manifest := [out], nextFileNumber := out.number + 1, tables := [out] + Stale(s), compaction := NotCompacting, inputs := []))
  }

  lemma OutputInstalled(s: Store, s1: Store, s2: Store, s3: Store)
    requires Invariant(s) && CompactionEnabled(s, AddOutput) && s1 == CompactionNext(s, AddOutput)
    requires Invariant(s1) && CompactionEnabled(s1, RemoveInputs) && s2 == CompactionNext(s1, RemoveInputs)
    requires Invariant(s2) && CompactionEnabled(s2, SwitchReaders) && s3 == CompactionNext(s2, SwitchReaders)
    ensures Installed(s, s3)
  {
    hide Invariant, CompactionNext;
    AddOutputKeeps(s);
    RemoveInputsKeeps(s1);
    SwitchReadersKeeps(s2);
    StaleAreTables(s);
  }

  lemma OutputOf(s: Store, t: Store, now: nat)
    requires Invariant(s) && CompactionEnabled(s, BuildOutput(now)) && t == CompactionNext(s, BuildOutput(now))
    ensures t == s.(compaction := OutputBuilt(TableFile(s.nextFileNumber, Merged(s.inputs, now))))
  {
    hide View, FilesInOrder;
  }

  lemma InputsDropped(s: Store, t: Store)
    requires Invariant(s) && CompactionEnabled(s, DropInputs) && t == CompactionNext(s, DropInputs)
    ensures t == s.(manifest := [], stale := |s.tables|, compaction := NotCompacting, inputs := [])
  {
    hide View, Invariant;
    DropInputsKeeps(s);
  }

  lemma StaleWithin(s: Store)
    requires Invariant(s)
    ensures s.stale <= |s.tables|
  {
    hide View, FlushSound, CompactionSound;
  }

  lemma OutputDependsOn(s: Store, t: Store, now: nat)
    requires t == s.(inputs := s.manifest, compaction := t.compaction)
    ensures forall tuning :: MergeOutput(t, tuning, now) == MergeOutput(s.(inputs := s.manifest), tuning, now)
    ensures s.stale <= |s.tables| ==> Stale(t) == Stale(s)
  {
  }

  /** A compaction has nothing to do with the log and the memory tables. */
  lemma CompactedSurvives(s: Store, t: Store, now: nat)
    requires Durable(s) && s.stale <= |s.tables| && Invariant(t) && (t == Compacted(s, now) || t == s.(inputs := []))
    ensures Durable(t) && (t.inflight == [] ==> SurvivesCrash(t))
  {
    hide Invariant, Represents, Absorbs, SurvivesCrash;
    if t.inflight == [] { DurableSurvives(t); }
  }

  /** A flush and a compaction do not overlap. */
  lemma FlushingAlone(s: Store)
    requires Invariant(s) && !Idle(s.flush)
    ensures s.compaction.NotCompacting?
  {
  }

  class LSMStore {
    const disk: Disk
    const manifest: Manifest
    const wal: WriteAheadLog
    const compaction: CompactionManager
    const tuning: Tuning
    const memTableSizeLimit: int
    var activeMemTable: MemTable
    var immutableMemTable: MemTable?
    var sstables: seq<SSTableState>
    var flushing: bool
    /** What the flush under way has built. */
    var flushMetadata: Metadata
    /** What the compaction under way reads, and what it has built. */
    var compactionInputs: seq<Metadata>
    var compactionOutput: Metadata
    ghost var state: Store
    ghost var readers: set<SSTableReader>
    ghost var contents: seq<Content>
    ghost var listed: seq<Content>
    ghost var flushContent: Content
    ghost var outputContent: Content

    ghost predicate MemoryMatches(active: Table, immutable: Option<Table>)
      reads this`activeMemTable, this`immutableMemTable, activeMemTable, activeMemTable.data, activeMemTable.data.nodes
      reads if immutableMemTable == null then {} else {immutableMemTable, immutableMemTable.data}
      reads if immutableMemTable == null then {} else immutableMemTable.data.nodes
    {
      Apart(activeMemTable, immutableMemTable) && activeMemTable.Table() == active && TableIn(immutableMemTable) == immutable &&
      activeMemTable.sizeLimit == memTableSizeLimit
    }

    ghost predicate ReadersMatch(tables: seq<TableFile>)
      reads this`sstables, this`contents, this`readers, readers
    {
      AllServe(sstables, contents, tables) && AllOpen(sstables, readers)
    }

    ghost predicate ManifestMatches(files: seq<TableFile>, next: nat)
      reads this`listed, disk, manifest
    {
      manifest.Valid() && manifest.nextFileNumber == next && AllOnDisk(disk.files, manifest.sstables, listed, files)
    }

    ghost predicate FlushMatches(phase: FlushPhase)
      reads this`flushing, this`flushMetadata, this`flushContent, disk
    {
      (flushing <==> !Idle(phase)) &&
      (phase.FileBuilt? || phase.InManifest? ==> Holds(disk.files, flushMetadata, flushContent, phase.file))
    }

    ghost predicate CompactionMatches(phase: CompactionPhase, inputs: seq<TableFile>)
      reads this`compactionInputs, this`compactionOutput, this`outputContent, disk, manifest
    {
      (!phase.NotCompacting? ==> Numbered(compactionInputs, inputs)) &&
      (phase.Merging? || phase.OutputBuilt? ==> manifest.sstables == compactionInputs) &&
      (phase.OutputAdded? ==> manifest.sstables == [compactionOutput] + compactionInputs) &&
      (phase.OutputBuilt? || phase.OutputAdded? || phase.InputsRemoved? ==>
         Holds(disk.files, compactionOutput, outputContent, phase.output))
    }

    ghost predicate LogMatches(log: seq<Operation>, torn: bool)
      reads wal
    {
      wal.Valid() && wal.Recorded() == log && (!torn ==> !wal.Torn())
    }

    ghost predicate Configured()
      reads compaction
    {
      compaction.manifest == manifest && compaction.disk == disk && compaction.tuning == tuning && ValidTuning(tuning)
    }

    /** Everything apart from what the two background jobs have in hand. */
    ghost predicate Base()
      reads this, disk, manifest, wal, compaction, activeMemTable, activeMemTable.data, activeMemTable.data.nodes
      reads if immutableMemTable == null then {} else {immutableMemTable, immutableMemTable.data}
      reads if immutableMemTable == null then {} else immutableMemTable.data.nodes
      reads readers
    {
      MemoryMatches(state.active, state.immutable) && ReadersMatch(state.tables) &&
      ManifestMatches(state.manifest, state.nextFileNumber) && LogMatches(state.log, state.torn) && Configured()
    }

    ghost predicate Valid()
      reads this, disk, manifest, wal, compaction, activeMemTable, activeMemTable.data, activeMemTable.data.nodes
      reads if immutableMemTable == null then {} else {immutableMemTable, immutableMemTable.data}
      reads if immutableMemTable == null then {} else immutableMemTable.data.nodes
      reads readers
    {
      Base() && FlushMatches(state.flush) && CompactionMatches(state.compaction, state.inputs)
    }

    /**
     Starting on what is on disk: the manifest's files are opened and the log's files are
     replayed, the newest torn or not.  After a crash in state `before` this is the state the
     machine reopens in.
     */
    constructor Initialize(disk: Disk, manifest: Manifest, wal: WriteAheadLog, compaction: CompactionManager, memTableSizeLimit: int,
                           now: nat, ghost before: Store, ghost listed: seq<Content>)
      requires wal.Valid() && wal.Recorded() == before.log && (!before.torn ==> !wal.Torn())
      requires ValidTuning(compaction.tuning) && compaction.manifest == manifest && compaction.disk == disk
      requires manifest.Valid() && manifest.nextFileNumber == before.nextFileNumber
      requires AllOnDisk(disk.files, manifest.sstables, listed, before.manifest)
      ensures Valid() && state == Reopened(before, now)
      ensures this.disk == disk && this.manifest == manifest && this.wal == wal && this.compaction == compaction
      ensures this.memTableSizeLimit == memTableSizeLimit && fresh(activeMemTable)
    {
      hide OnDisk, Serves, ReplayAll, AllOnDisk, AllServe, MemTable.Valid, MemTable.Table, WriteAheadLog.Valid, WriteAheadLog.Torn, ReadBack, AllOpen;
      this.disk, this.manifest, this.wal, this.compaction, this.tuning := disk, manifest, wal, compaction, compaction.tuning;
      this.memTableSizeLimit, flushing, this.listed, contents := memTableSizeLimit, false, listed, listed;
      var states, served := OpenAll(disk, manifest.sstables, listed, before.manifest);
      var entries := wal.Replay();
      var active := Replayed(memTableSizeLimit, Operations(entries), now);
      activeMemTable, immutableMemTable := active, null;
      sstables, this.readers := states, served;
      state := Reopened(before, now);
    }

    // ----- Writing -----

    /** The awaited part of a write: its record is at the end of the log, or it is rejected. */
    method Append(op: Operation, now: nat) returns (r: Result<()>)
      requires Valid()
      modifies this`state, wal
      ensures wal.sequenceId == old(wal.sequenceId) + 1
      ensures Valid() && (r.Ok? <==> Storable(old(wal.sequenceId), now, op))
      ensures state == if r.Ok? then Logged(old(state), op, wal.Recorded()) else old(state)
      ensures if r.Ok? then RecordAdded(old(wal.files), old(wal.sequenceId), now, op, wal.files) else wal.files == old(wal.files)
      ensures !old(state).torn ==> wal.Recorded() == if r.Ok? then old(wal.Recorded()) + [op] else old(wal.Recorded())
    {
      hide MemoryMatches, ReadersMatch, ManifestMatches, FlushMatches, CompactionMatches, WriteAheadLog.Recorded, WriteAheadLog.Torn;
      hide WalFormat.Storable, WalFormat.RecordBytes, Extended;
      ghost var before := wal.files;
      r := wal.Append(op, now);
      if r.Ok? {
        state := Logged(state, op, wal.Recorded());
      } else {
        SameRecorded(before);
      }
    }

    twostate lemma SameRecorded(files: seq<Bytes>)
      requires files == old(wal.files) && wal.files == old(wal.files)
      ensures wal.Recorded() == old(wal.Recorded()) && (old(wal.Valid()) ==> wal.Valid() && (wal.Torn() <==> old(wal.Torn())))
    {
    }

    /** A crash, or an error, in the middle of that leaves a part of the record. */
    method AppendPart(op: Operation, now: nat, n: nat)
      requires Valid() && Storable(wal.sequenceId, now, op) && n < |WalFormat.RecordBytes(LogEntry(wal.sequenceId, now, op))|
      modifies this`state, wal
      ensures wal.files == Extended(old(wal.files), WalFormat.RecordBytes(LogEntry(old(wal.sequenceId), now, op))[..n])
      ensures Valid() && state == Torn(old(state), wal.Recorded())
    {
      hide MemoryMatches, ReadersMatch, ManifestMatches, FlushMatches, CompactionMatches, WriteAheadLog.Recorded, WriteAheadLog.Torn;
      hide WalFormat.RecordBytes, Extended;
      wal.AppendPart(op, now, n);
      state := Torn(state, wal.Recorded());
    }

    /** What follows it: the next logged write goes into the active table. */
    method ApplyWrite(op: Operation, now: nat)
      requires Valid() && state.inflight != [] && op == state.inflight[0]
      modifies this`state, activeMemTable, activeMemTable.data, activeMemTable.data.nodes
      ensures Valid() && state == Applied(old(state), now)
      ensures activeMemTable.overcount == old(activeMemTable.overcount) + TakenTwice(op, old(state).active)
    {
      hide Apart, ReadersMatch, ManifestMatches, FlushMatches, CompactionMatches, LogMatches;
      StoreBeside(activeMemTable, immutableMemTable, op, now);
      state := Applied(state, now);
    }

    /** The size of the active table, as far as it is counted. */
    lemma CountedSize()
      requires Valid()
      ensures activeMemTable.currentSize == TotalSize(state.active) - activeMemTable.overcount
      ensures activeMemTable.sizeLimit == memTableSizeLimit
    {
      hide ReadersMatch, ManifestMatches, LogMatches, FlushMatches, CompactionMatches, TableIn, TotalSize;
    }

    /**
     From state `t`, a table that has reached its limit has been swapped out if no flush was running; otherwise
     nothing has happened.
     */
    ghost predicate SwappedIfFull(m: MemTable, other: MemTable?, wasFlushing: bool, t: Store)
      reads this`activeMemTable, this`immutableMemTable, this`flushing, this`state, m
    {
      if m.currentSize >= memTableSizeLimit && !wasFlushing
      then flushing && immutableMemTable == m && activeMemTable != m && state == SwappedOut(t)
      else flushing == wasFlushing && immutableMemTable == other && activeMemTable == m && state == t
    }

    /** The whole write, when no other is between its log record and its table. */
    method Write(op: Operation, now: nat) returns (r: Result<()>)
      requires Valid() && state.inflight == []
      modifies this`state, this`activeMemTable, this`immutableMemTable, this`flushing, wal
      modifies activeMemTable, activeMemTable.data, activeMemTable.data.nodes
      ensures wal.sequenceId == old(wal.sequenceId) + 1
      ensures Valid() && (r.Ok? <==> Storable(old(wal.sequenceId), now, op))
      ensures if r.Ok? then AfterWrite(old(state), Written(old(state), op, now, wal.Recorded()), state) else state == old(state)
      ensures if r.Ok? then RecordAdded(old(wal.files), old(wal.sequenceId), now, op, wal.files) else wal.files == old(wal.files)
      ensures r.Ok? && !old(state).torn ==> wal.Recorded() == old(wal.Recorded()) + [op]
      ensures r.Ok? ==>
        SwappedIfFull(old(activeMemTable), old(immutableMemTable), old(flushing), Written(old(state), op, now, wal.Recorded())) &&
        old(activeMemTable).overcount == old(activeMemTable.overcount) + TakenTwice(op, old(state).active)
    {
      hide Valid, Storable, RecordAdded, WriteAheadLog.Recorded;
      r := Append(op, now);
      if r.Ok? {
        ApplyWrite(op, now);
        MaybeFlush();
      }
    }

    method Put(key: Key, value: Bytes, now: nat) returns (r: Result<()>)
      requires Valid() && Invariant(state) && state.inflight == []
      modifies this`state, this`activeMemTable, this`immutableMemTable, this`flushing, wal
      modifies activeMemTable, activeMemTable.data, activeMemTable.data.nodes
      ensures wal.sequenceId == old(wal.sequenceId) + 1
      ensures Valid() && state.inflight == [] && (Reckless(old(state), state) || Invariant(state))
      ensures r.Ok? <==> Storable(old(wal.sequenceId), now, Operation.Put(key, value))
      ensures Reckless(old(state), state) || View(state) == if r.Ok? then View(old(state))[key := value] else View(old(state))
      ensures if r.Ok? then RecordAdded(old(wal.files), old(wal.sequenceId), now, Operation.Put(key, value), wal.files) else wal.files == old(wal.files)
      ensures r.Ok? && !old(state).torn ==> wal.Recorded() == old(wal.Recorded()) + [Operation.Put(key, value)]
      ensures r.Ok? ==>
        SwappedIfFull(old(activeMemTable), old(immutableMemTable), old(flushing), Written(old(state), Operation.Put(key, value), now, wal.Recorded())) &&
        old(activeMemTable).overcount == old(activeMemTable.overcount) + TakenTwice(Operation.Put(key, value), old(state).active)
      ensures !(r.Ok?) ==> state == old(state)
      ensures Durable(old(state)) && NoEmptyKey(Operation.Put(key, value)) && !old(state).torn && !Reckless(old(state), state) ==> Durable(state) && SurvivesCrash(state)
      ensures Readable(old(state)) && CoveredPair(key, value) && (old(state).torn ==> CoveredOps(wal.Recorded())) ==> Readable(state)
    {
      hide Durable, SurvivesCrash, NoEmptyKey, RecordAdded, TotalSize, Valid, Storable, Invariant, View, Readable, CoveredPair, CoveredOps, WriteAheadLog.Recorded;
      ghost var before := state;
      r := Write(Operation.Put(key, value), now);
      if r.Ok? { WrittenView(before, Operation.Put(key, value), now, wal.Recorded(), state); }
      WriteSurvives(before, Operation.Put(key, value), now, wal.Recorded(), state, r.Ok?);
    }

    method Delete(key: Key, now: nat) returns (r: Result<()>)
      requires Valid() && Invariant(state) && state.inflight == []
      modifies this`state, this`activeMemTable, this`immutableMemTable, this`flushing, wal
      modifies activeMemTable, activeMemTable.data, activeMemTable.data.nodes
      ensures wal.sequenceId == old(wal.sequenceId) + 1
      ensures Valid() && state.inflight == [] && (Reckless(old(state), state) || Invariant(state))
      ensures r.Ok? <==> Storable(old(wal.sequenceId), now, Operation.Delete(key))
      ensures Reckless(old(state), state) || View(state) == if r.Ok? then View(old(state)) - {key} else View(old(state))
      ensures if r.Ok? then RecordAdded(old(wal.files), old(wal.sequenceId), now, Operation.Delete(key), wal.files) else wal.files == old(wal.files)
      ensures r.Ok? && !old(state).torn ==> wal.Recorded() == old(wal.Recorded()) + [Operation.Delete(key)]
      ensures r.Ok? ==>
        SwappedIfFull(old(activeMemTable), old(immutableMemTable), old(flushing), Written(old(state), Operation.Delete(key), now, wal.Recorded())) &&
        old(activeMemTable).overcount == old(activeMemTable.overcount) + TakenTwice(Operation.Delete(key), old(state).active)
      ensures !(r.Ok?) ==> state == old(state)
      ensures Durable(old(state)) && NoEmptyKey(Operation.Delete(key)) && !old(state).torn && !Reckless(old(state), state) ==> Durable(state) && SurvivesCrash(state)
      ensures Readable(old(state)) && CoveredPair(key, []) && (old(state).torn ==> CoveredOps(wal.Recorded())) ==> Readable(state)
    {
      hide Durable, SurvivesCrash, NoEmptyKey, RecordAdded, TotalSize, Valid, Storable, Invariant, View, Readable, CoveredPair, CoveredOps, WriteAheadLog.Recorded;
      ghost var before := state;
      r := Write(Operation.Delete(key), now);
      if r.Ok? { WrittenView(before, Operation.Delete(key), now, wal.Recorded(), state); }
      WriteSurvives(before, Operation.Delete(key), now, wal.Recorded(), state, r.Ok?);
    }

    /** Nothing is logged for an empty batch. */
    method BatchPutAll(keys: seq<Key>, values: seq<Bytes>, now: nat) returns (r: Result<nat>)
      requires Valid() && Invariant(state) && state.inflight == [] && |keys| == |values|
      modifies this`state, this`activeMemTable, this`immutableMemTable, this`flushing, wal
      modifies activeMemTable, activeMemTable.data, activeMemTable.data.nodes
      ensures wal.sequenceId == old(wal.sequenceId) + if keys == [] then 0 else 1
      ensures Valid() && state.inflight == [] && (Reckless(old(state), state) || Invariant(state))
      ensures r.Ok? <==> keys == [] || Storable(old(wal.sequenceId), now, BatchPut(keys, values))
      ensures r.Ok? ==> r.value == |keys|
      ensures Reckless(old(state), state) || View(state) == if r.Ok? then PutAll(keys, values, View(old(state))) else View(old(state))
      ensures if r.Ok? && keys != [] then RecordAdded(old(wal.files), old(wal.sequenceId), now, BatchPut(keys, values), wal.files) else wal.files == old(wal.files)
      ensures r.Ok? && keys != [] && !old(state).torn ==> wal.Recorded() == old(wal.Recorded()) + [BatchPut(keys, values)]
      ensures r.Ok? && keys != [] ==>
        SwappedIfFull(old(activeMemTable), old(immutableMemTable), old(flushing), Written(old(state), BatchPut(keys, values), now, wal.Recorded())) &&
        old(activeMemTable).overcount == old(activeMemTable.overcount) + TakenTwice(BatchPut(keys, values), old(state).active)
      ensures !(r.Ok? && keys != []) ==> state == old(state)
      ensures Durable(old(state)) && NoEmptyKey(BatchPut(keys, values)) && !old(state).torn && !Reckless(old(state), state) ==> Durable(state) && SurvivesCrash(state)
      ensures Readable(old(state)) && CoveredOp(BatchPut(keys, values)) && (old(state).torn ==> CoveredOps(wal.Recorded())) ==> Readable(state)
    {
      hide Durable, SurvivesCrash, NoEmptyKey, RecordAdded, TotalSize, Valid, Storable, Invariant, View, Readable, CoveredOp, CoveredOps, WriteAheadLog.Recorded;
      ghost var before := state;
      if |keys| == 0 {
        WriteSurvives(before, BatchPut(keys, values), now, [], state, false);
        return Ok(0);
      }
      var w := Write(BatchPut(keys, values), now);
      WriteSurvives(before, BatchPut(keys, values), now, wal.Recorded(), state, w.Ok?);
      if w.Err? {
        return Err(w.reason);
      }
      WrittenView(before, BatchPut(keys, values), now, wal.Recorded(), state);
      r := Ok(|keys|);
    }

    /** A write that comes from the primary is logged as it came and applied as replay applies it. */
    method ApplyReplicatedEntry(op: Operation, now: nat) returns (r: Result<()>)
      requires Valid() && Invariant(state) && state.inflight == []
      modifies this`state, this`activeMemTable, this`immutableMemTable, this`flushing, wal
      modifies activeMemTable, activeMemTable.data, activeMemTable.data.nodes
      ensures wal.sequenceId == old(wal.sequenceId) + 1
      ensures Valid() && state.inflight == [] && (Reckless(old(state), state) || Invariant(state))
      ensures r.Ok? <==> Storable(old(wal.sequenceId), now, op)
      ensures if r.Ok? then AfterWrite(old(state), Replicated(old(state), op, now, wal.Recorded()), state) else state == old(state)
      ensures Reckless(old(state), state) || View(state) == if r.Ok? then Effect(Replayable(op), View(old(state))) else View(old(state))
      ensures if r.Ok? then RecordAdded(old(wal.files), old(wal.sequenceId), now, op, wal.files) else wal.files == old(wal.files)
      ensures r.Ok? && !old(state).torn ==> wal.Recorded() == old(wal.Recorded()) + [op]
      ensures r.Ok? ==>
        SwappedIfFull(old(activeMemTable), old(immutableMemTable), old(flushing), Replicated(old(state), op, now, wal.Recorded())) &&
        old(activeMemTable).overcount == old(activeMemTable.overcount) + TakenTwice(Replayable(op), old(state).active)
      ensures !(r.Ok?) ==> state == old(state)
      ensures Durable(old(state)) && NoEmptyKey(op) && !old(state).torn && !Reckless(old(state), state) ==> Durable(state) && SurvivesCrash(state)
      ensures Readable(old(state)) && CoveredOp(op) && (old(state).torn ==> CoveredOps(wal.Recorded())) ==> Readable(state)
    {
      hide Durable, SurvivesCrash, NoEmptyKey, RecordAdded, TotalSize, Valid, Storable, Invariant, View, Readable, CoveredOp, CoveredOps, Effect, Replayable, WriteAheadLog.Recorded;
      ghost var before := state;
      r := LogReplicated(op, now);
      if r.Ok? {
        MaybeFlush();
        ReplicatedView(before, op, now, wal.Recorded(), state);
        if Durable(before) && NoEmptyKey(op) && !before.torn && !Reckless(before, state) {
          ReplicatedSurvives(before, op, now, wal.Recorded(), state);
        }
      } else if Durable(before) {
        DurableSurvives(before);
      }
    }

    method LogReplicated(op: Operation, now: nat) returns (r: Result<()>)
      requires Valid() && state.inflight == []
      modifies this`state, wal, activeMemTable, activeMemTable.data, activeMemTable.data.nodes
      ensures wal.sequenceId == old(wal.sequenceId) + 1
      ensures Valid() && (r.Ok? <==> Storable(old(wal.sequenceId), now, op))
      ensures state == if r.Ok? then Replicated(old(state), op, now, wal.Recorded()) else old(state)
      ensures if r.Ok? then RecordAdded(old(wal.files), old(wal.sequenceId), now, op, wal.files) else wal.files == old(wal.files)
      ensures r.Ok? && !old(state).torn ==> wal.Recorded() == old(wal.Recorded()) + [op]
      ensures r.Ok? ==> activeMemTable.overcount == old(activeMemTable.overcount) + TakenTwice(Replayable(op), old(state).active)
    {
      hide Valid, Storable, Logged, RecordAdded, WriteAheadLog.Recorded, Replayable;
      ActiveUnlogged(state, op);
      ghost var before := state;
      r := Append(op, now);
      if r.Ok? {
        ApplyReplicated(op, now, before);
      }
    }

    method ApplyReplicated(op: Operation, now: nat, ghost before: Store)
      requires Valid() && before.inflight == [] && state == Logged(before, op, wal.Recorded())
      modifies this`state, activeMemTable, activeMemTable.data, activeMemTable.data.nodes
      ensures Valid() && state == Replicated(before, op, now, wal.Recorded())
      ensures activeMemTable.overcount == old(activeMemTable.overcount) + TakenTwice(Replayable(op), before.active)
    {
      hide Apart, ReadersMatch, ManifestMatches, FlushMatches, CompactionMatches, LogMatches, Stored, Replayable, Effect, Replicated, Logged;
      ReplicatedFields(before, op, now, wal.Recorded());
      ReplayBeside(activeMemTable, immutableMemTable, op, now);
      state := Replicated(before, op, now, wal.Recorded());
    }

    // ----- Flushing -----

    /** A full table is swapped out unless a flush is under way. */
    method MaybeFlush()
      requires Valid()
      modifies this`activeMemTable, this`immutableMemTable, this`flushing, this`state
      ensures Valid() && AfterWrite(old(state), old(state), state)
      ensures SwappedIfFull(old(activeMemTable), old(immutableMemTable), old(flushing), old(state))
    {
      hide Valid;
      var full := ActiveIsFull();
      if !full {
        return;
      }
      if flushing {
        return;
      }
      TriggerFlush();
    }

    method ActiveIsFull() returns (full: bool)
      requires Valid()
      ensures full <==> activeMemTable.currentSize >= memTableSizeLimit
    {
      hide ReadersMatch, ManifestMatches, LogMatches, FlushMatches, CompactionMatches, MemTable.Table, TableIn;
      full := activeMemTable.IsFull();
    }

    method TriggerFlush()
      requires Valid() && !flushing
      modifies this`activeMemTable, this`immutableMemTable, this`flushing, this`state
      ensures Valid() && Idle(old(state).flush) && state == SwappedOut(old(state))
      ensures flushing && immutableMemTable == old(activeMemTable) && fresh(activeMemTable)
    {
      hide MemoryMatches, ReadersMatch, ManifestMatches, LogMatches, CompactionMatches;
      SwapTables(state.active, state.immutable);
      flushing := true;
      state := SwappedOut(state);
    }

    method SwapTables(ghost active: Table, ghost immutable: Option<Table>)
      requires MemoryMatches(active, immutable)
      modifies this`activeMemTable, this`immutableMemTable
      ensures MemoryMatches(map[], Some(active)) && immutableMemTable == old(activeMemTable) && fresh(activeMemTable)
    {
      hide Apart, MemTable.Table, MemTable.Valid;
      var fresh_ := NewBeside(activeMemTable, immutableMemTable, memTableSizeLimit);
      immutableMemTable := activeMemTable;
      activeMemTable := fresh_;
    }

    /** A table file under the next number, while nothing else changes. */
    method WriteTable(entries: seq<Record>, now: nat) returns (number: nat, r: Result<Metadata>)
      requires Valid() && Sorted(entries)
      modifies disk
      ensures if r.Ok? then OnlyAdded(old(disk.files), number, disk.files) else disk.files == old(disk.files)
      ensures number == state.nextFileNumber && Base()
      ensures r.Ok? ==> r.value.fileNumber == number && OnDisk(disk.files, r.value, Content(entries, SettingsFor(number, tuning, now)))
      ensures r.Err? ==> Valid()
      ensures r.Ok? <==> entries != [] && FileFits(entries, SettingsFor(number, tuning, now))
    {
      hide OnlyAdded, OnDisk, Apart, AllOnDisk, FileFits, ReadersMatch, LogMatches;
      number := manifest.GetNextFileNumber();
      r := BuildBeside(disk, manifest, entries, number, tuning, now, listed, state.manifest, activeMemTable, immutableMemTable);
    }

    /** The immutable table is written to a file under the number that was next at the swap. */
    method BuildFlushFile(now: nat) returns (r: Result<()>)
      requires Valid() && Invariant(state) && FlushEnabled(state, BuildFile)
      modifies this`flushMetadata, this`flushContent, this`state, disk
      ensures if r.Ok? then OnlyAdded(old(disk.files), old(state).nextFileNumber, disk.files) else disk.files == old(disk.files)
      ensures Valid() && state == if r.Ok? then FlushNext(old(state), BuildFile) else old(state)
      ensures r.Ok? <==> CanFlush(old(state), tuning, now)
    {
      hide OnlyAdded, Valid, Base, View, Invariant, FlushNext, FlushEnabled, FileFits, CanFlush, OnDisk;
      CanBuild(state);
      FlushUnderWay();
      var entries := FlushEntries();
      var number, built := WriteTable(entries, now);
      FlushFits(entries, state, tuning, now);
      if built.Err? {
        return Err(built.reason);
      }
      RecordFlushFile(built.value, Content(entries, SettingsFor(number, tuning, now)));
      r := Ok(());
    }

    lemma FlushUnderWay()
      requires Valid() && !Idle(state.flush)
      ensures flushing
    {
      hide Base, CompactionMatches;
    }

    method RecordFlushFile(metadata: Metadata, ghost c: Content)
      requires Base() && flushing && Invariant(state) && FlushEnabled(state, BuildFile) && OnDisk(disk.files, metadata, c)
      requires metadata.fileNumber == state.nextFileNumber && Some(MapOf(c.entries)) == state.immutable
      modifies this`flushMetadata, this`flushContent, this`state
      ensures Valid() && state == FlushNext(old(state), BuildFile)
    {
      hide OnDisk, MemoryMatches, ReadersMatch, ManifestMatches, LogMatches, View, Invariant, FlushNext, FlushEnabled;
      CanBuild(state);
      SwappedOutSound(state);
      BuiltState(state);
      FlushingAlone(state);
      flushMetadata, flushContent := metadata, c;
      state := FlushNext(state, BuildFile);
    }

    method FlushEntries() returns (entries: seq<Record>)
      requires Valid() && state.immutable.Some?
      ensures Sorted(entries) && MapOf(entries) == state.immutable.value
    {
      hide Apart, ReadersMatch, ManifestMatches, CompactionMatches, LogMatches;
      entries := EntriesOf(immutableMemTable, activeMemTable);
    }

    /** The new file heads the manifest. */
    method AddFlushFile()
      requires Valid() && Invariant(state) && FlushEnabled(state, AddToManifest)
      modifies this`listed, this`state, manifest
      ensures Valid() && state == FlushNext(old(state), AddToManifest)
    {
      hide OnDisk, MemoryMatches, ReadersMatch, LogMatches, ManifestMatches, View, Invariant, FlushNext;
      FlushingAlone(state);
      AddToManifestKeeps(state);
      FileBuiltSound(state);
      PushListed(flushMetadata, flushContent, state.flush.file, state.manifest, state.nextFileNumber);
      state := FlushNext(state, AddToManifest);
    }

    method PushListed(metadata: Metadata, ghost c: Content, ghost f: TableFile, ghost files: seq<TableFile>, ghost next: nat)
      requires ManifestMatches(files, next) && Holds(disk.files, metadata, c, f) && metadata.fileNumber == next
      modifies this`listed, manifest
      ensures ManifestMatches([f] + files, next + 1) && manifest.sstables == [metadata] + old(manifest.sstables)
    {
      hide OnDisk, AllOnDisk, Edited, Sort;
      ListedPush(disk.files, manifest.sstables, listed, files, metadata, c, f);
      manifest.AddSSTable(metadata);
      listed := [c] + listed;
    }

    /** Its reader heads the readers. */
    method ListFlushFile()
      requires Valid() && FlushEnabled(state, ListFile)
      modifies this`sstables, this`contents, this`readers, this`state
      ensures Valid() && state == FlushNext(old(state), ListFile)
    {
      hide OnDisk, MemoryMatches, ReadersMatch, ManifestMatches, LogMatches;
      PushReader(state.tables, state.flush.file);
      state := FlushNext(state, ListFile);
    }

    method PushReader(ghost tables: seq<TableFile>, ghost f: TableFile)
      requires ReadersMatch(tables) && Holds(disk.files, flushMetadata, flushContent, f)
      modifies this`sstables, this`contents, this`readers
      ensures ReadersMatch([f] + tables)
    {
      hide OnDisk, Serves;
      var t := OpenOne(disk, flushMetadata, flushContent, f);
      sstables, readers := [t] + sstables, readers + {t.reader};
      contents := [flushContent] + contents;
    }

    /** The log starts a new file: nothing recorded is lost yet, and a torn record is behind. */
    method RotateLog()
      requires Valid() && FlushEnabled(state, FlushStep.RotateLog)
      modifies this`state, wal
      ensures wal.files == old(wal.files) + [[]]
      ensures Valid() && state == FlushNext(old(state), FlushStep.RotateLog)
    {
      hide MemoryMatches, ReadersMatch, ManifestMatches, CompactionMatches, FlushNext, WriteAheadLog.Recorded, WriteAheadLog.Torn;
      wal.Rotate();
      RotatedLog(state);
      state := FlushNext(state, FlushStep.RotateLog);
    }

    /** One of the older log files is deleted, with the records in it. */
    method DeleteLogFile(i: nat)
      requires Valid() && state.flush.Listed? && i < |wal.files| - 1
      modifies this`state, wal
      ensures wal.files == old(wal.files[..i] + wal.files[i + 1..])
      ensures Valid() && FileDropped(old(state), old(wal.files), i, state)
    {
      hide MemoryMatches, ReadersMatch, ManifestMatches, CompactionMatches, FlushMatches, ReadBack, FlushNext, WalFormat.Replayed, WriteAheadLog.Torn;
      ghost var from: nat := |ReadBack(wal.files[..i])|;
      ghost var to: nat := from + |WalFormat.Replayed(wal.files[i])|;
      wal.Unlink(i);
      DroppedLog(state, from, to);
      state := FlushNext(state, DropLog(from, to));
    }

    /** The log is rotated, and the older log files go with everything in them. */
    method CheckpointLog()
      requires Valid() && FlushEnabled(state, Checkpoint)
      modifies this`state, wal
      ensures Valid() && state == FlushNext(old(state), Checkpoint) && wal.files == [[]]
    {
      hide MemoryMatches, ReadersMatch, ManifestMatches, CompactionMatches, WriteAheadLog.Recorded, WriteAheadLog.Torn;
      wal.Checkpoint();
      state := FlushNext(state, Checkpoint);
    }

    method DropImmutable()
      requires Valid() && FlushEnabled(state, ClearImmutable)
      modifies this`immutableMemTable, this`state
      ensures Valid() && state == FlushNext(old(state), ClearImmutable)
    {
      hide ReadersMatch, ManifestMatches, CompactionMatches, LogMatches, Apart, MemTable.Table, FlushNext, FlushEnabled;
      ApartAlone(activeMemTable, immutableMemTable);
      TableCleared(state);
      immutableMemTable := null;
      state := FlushNext(state, ClearImmutable);
    }

    method FinishFlush()
      requires Valid() && FlushEnabled(state, EndFlush)
      modifies this`flushing, this`state
      ensures Valid() && state == FlushNext(old(state), EndFlush)
    {
      hide MemoryMatches, ReadersMatch, ManifestMatches, CompactionMatches, LogMatches;
      flushing := false;
      state := FlushNext(state, EndFlush);
    }

    /** The flush has failed: its flag goes, and the table it could not write stays. */
    method GiveUpFlush()
      requires Valid() && FlushEnabled(state, FailFlush)
      modifies this`flushing, this`state
      ensures Valid() && state == FlushNext(old(state), FailFlush)
    {
      hide MemoryMatches, ReadersMatch, ManifestMatches, CompactionMatches, LogMatches;
      flushing := false;
      state := FlushNext(state, FailFlush);
    }

    /**
     A whole flush, when nothing comes in between.  Readers see the same before and after.  It
     fails exactly if the table to flush does not fit the file format; then that table stays, and
     nothing keeps the next swap from dropping it.  Otherwise the table is in one more file, and
     the log is one empty file.
     */
    method DoFlush(now: nat) returns (r: Result<()>)
      requires Valid() && Invariant(state) && state.flush.Swapped?
      modifies this`state, this`immutableMemTable, this`sstables, this`contents, this`readers, this`listed, this`flushing
      modifies this`flushMetadata, this`flushContent, disk, manifest, wal
      ensures
        if r.Ok? && old(state).immutable != Some(map[]) then OnlyAdded(old(disk.files), old(state).nextFileNumber, disk.files)
        else disk.files == old(disk.files)
      ensures Valid() && Invariant(state) && View(state) == View(old(state))
      ensures Readable(old(state)) ==> Readable(state)
      ensures r.Ok? <==> old(state).immutable == Some(map[]) || CanFlush(old(state), tuning, now)
      ensures r.Err? ==> state == old(state).(flush := Failed) && wal.files == old(wal.files)
      ensures r.Ok? && old(state).immutable == Some(map[]) ==>
        state == old(state).(immutable := None, flush := NotFlushing) && wal.files == old(wal.files)
      ensures r.Ok? && old(state).immutable != Some(map[]) ==>
        old(state).immutable.Some? && state == Flushed(old(state)) && wal.files == [[]]
      ensures Durable(old(state)) && old(state).activeOps == [] && old(state).inflight == [] ==> Durable(state) && SurvivesCrash(state)
    {
      hide OnlyAdded, Valid, View, FlushNext, Invariant, Readable, CanFlush, Durable, SurvivesCrash, Flushed;
      SwappedOutSound(state);
      ghost var before := state;
      var empty := ImmutableIsEmpty();
      if !empty {
        r := FlushFile(now);
      } else {
        FlushGoesOn(state, ClearImmutable);
        DropImmutable();
        ghost var cleared := state;
        FlushGoesOn(state, EndFlush);
        FinishFlush();
        NothingToFlush(before, cleared, state);
        r := Ok(());
      }
      if Durable(before) && before.activeOps == [] && before.inflight == [] { FlushSurvives(before, state); }
    }

    /** The flush of a table that is not empty. */
    method FlushFile(now: nat) returns (r: Result<()>)
      requires Valid() && Invariant(state) && FlushEnabled(state, BuildFile)
      modifies this`state, this`immutableMemTable, this`sstables, this`contents, this`readers, this`listed, this`flushing
      modifies this`flushMetadata, this`flushContent, disk, manifest, wal
      ensures if r.Ok? then OnlyAdded(old(disk.files), old(state).nextFileNumber, disk.files) else disk.files == old(disk.files)
      ensures Valid() && Invariant(state) && View(state) == View(old(state))
      ensures Readable(old(state)) ==> Readable(state)
      ensures r.Ok? <==> CanFlush(old(state), tuning, now)
      ensures r.Err? ==> state == old(state).(flush := Failed) && wal.files == old(wal.files)
      ensures r.Ok? ==> old(state).immutable.Some? && state == Flushed(old(state)) && wal.files == [[]]
    {
      hide OnlyAdded, Valid, View, FlushNext, Invariant, Readable, CanFlush;
      ghost var before := state;
      FlushGoesOn(state, BuildFile);
      var built := BuildFlushFile(now);
      if built.Err? {
        FlushGoesOn(state, FailFlush);
        GiveUpFlush();
        return Err(built.reason);
      }
      ghost var s1 := state;
      FlushGoesOn(state, AddToManifest);
      AddFlushFile();
      ghost var s2 := state;
      FlushGoesOn(state, ListFile);
      ListFlushFile();
      FileIsAdded(before, s1, s2, state);
      EndWithCheckpoint();
      r := Ok(());
    }

    method EndWithCheckpoint()
      requires Valid() && Invariant(state) && FlushEnabled(state, Checkpoint)
      modifies this`state, this`immutableMemTable, this`flushing, wal
      ensures Valid() && Invariant(state) && View(state) == View(old(state)) && (Readable(old(state)) ==> Readable(state))
      ensures state == old(state).(log := [], torn := false, immutable := None, immutableOps := [], flush := NotFlushing) && wal.files == [[]]
    {
      hide Valid, View, FlushNext, Invariant, Readable;
      ghost var before := state;
      FlushGoesOn(state, Checkpoint);
      CheckpointLog();
      ghost var s1 := state;
      FlushGoesOn(state, ClearImmutable);
      DropImmutable();
      ghost var s2 := state;
      FlushGoesOn(state, EndFlush);
      FinishFlush();
      FlushEnds(before, s1, s2, state);
    }

    method ImmutableIsEmpty() returns (empty: bool)
      requires Valid() && state.immutable.Some?
      ensures empty <==> state.immutable == Some(map[])
    {
      hide Valid;
      var entries := FlushEntries();
      EmptyMapList(entries);
      empty := |entries| == 0;
    }

    // ----- Compacting -----

    /** A compaction starts on the files that the manifest lists. */
    method BeginCompaction()
      requires Valid() && CompactionEnabled(state, StartCompaction)
      modifies this`compactionInputs, this`state
      ensures Valid() && state == CompactionNext(old(state), StartCompaction) && compactionInputs == manifest.sstables
    {
      hide OnDisk, MemoryMatches, ReadersMatch, LogMatches, Manifest.Valid;
      compactionInputs := manifest.sstables;
      state := CompactionNext(state, StartCompaction);
    }

    /** They are read and merged. */
    method MergeFiles() returns (r: Result<seq<Pair<Bytes>>>)
      requires Valid() && Invariant(state) && state.compaction.Merging?
      ensures r.Ok? <==> ContentsCovered(listed)
      ensures r.Ok? ==> r.value == Listing(Live(Combined(state.inputs)))
    {
      hide OnDisk, MemoryMatches, ReadersMatch, LogMatches, Manifest.Valid, Live, Combined, View, MergedContents, ContentsCovered;
      InputsAreListed(state);
      ListedCombined(disk.files, manifest.sstables, listed, state.manifest);
      r := compaction.MergeInputs(compactionInputs, listed);
    }

    /** It is over, and nothing has changed. */
    method AbandonCompaction()
      requires Valid() && CompactionEnabled(state, Abandon)
      modifies this`state
      ensures Valid() && state == CompactionNext(old(state), Abandon)
    {
      hide MemoryMatches, ReadersMatch, ManifestMatches, LogMatches;
      state := CompactionNext(state, Abandon);
    }

    /** Nothing is live: the files go, and their readers become stale. */
    method DropCompaction()
      requires Valid() && Invariant(state) && CompactionEnabled(state, DropInputs)
      modifies this`listed, this`state, disk, manifest
      ensures Valid() && state == CompactionNext(old(state), DropInputs)
      ensures disk.files == old(disk.files) - Numbers(FileNumbers(compactionInputs))
    {
      hide OnDisk, MemoryMatches, ReadersMatch, LogMatches, Manifest.Valid, View, Invariant, CompactionNext, FileNumbers, Numbers;
      CompactingAlone(state);
      DropInputsKeeps(state);
      compaction.Drop(compactionInputs);
      ListedNone(disk.files);
      listed := [];
      state := CompactionNext(state, DropInputs);
    }

    /** A file of the merged pairs under the next number, while nothing else changes. */
    method WriteMerged(pairs: seq<Pair<Bytes>>, now: nat) returns (r: Result<Metadata>)
      requires Valid() && pairs == Listing(Live(Combined(state.inputs))) && pairs != []
      modifies disk
      ensures Base() && (r.Err? ==> Valid())
      ensures if r.Err? then disk.files == old(disk.files) else OnlyAdded(old(disk.files), state.nextFileNumber, disk.files)
      ensures r.Ok? ==> r.value.fileNumber == state.nextFileNumber && OnDisk(disk.files, r.value, MergeOutput(state, tuning, now))
      ensures r.Ok? <==> Built(MergeOutput(state, tuning, now))
    {
      hide OnlyAdded, OnDisk, MemoryMatches, ReadersMatch, LogMatches, AllOnDisk, Live, Combined, Built, FileBytes, Manifest.Valid;
      ManifestNumbers(manifest);
      ghost var before := disk.files;
      ghost var c := MergeOutput(state, tuning, now);
      r := compaction.BuildOutput(pairs, now);
      if r.Ok? {
        DiskKept(before, manifest.sstables, listed, state.manifest, manifest.nextFileNumber, FileBytes(c.entries, c.settings));
        JustAdded(before, manifest.nextFileNumber, FileBytes(c.entries, c.settings));
      }
    }

    /** The merged pairs are written to a file under the number that was next at the start. */
    method BuildOutputFile(pairs: seq<Pair<Bytes>>, now: nat) returns (r: Result<()>)
      requires Valid() && Invariant(state) && CompactionEnabled(state, BuildOutput(now))
      requires pairs == Listing(Live(Combined(state.inputs)))
      modifies this`compactionOutput, this`outputContent, this`state, disk
      ensures Valid() && state == if r.Ok? then CompactionNext(old(state), BuildOutput(now)) else old(state)
      ensures if r.Err? then disk.files == old(disk.files) else OnlyAdded(old(disk.files), old(state).nextFileNumber, disk.files)
      ensures r.Ok? <==> Built(MergeOutput(old(state), tuning, now))
    {
      hide Valid, Base, OnDisk, View, Invariant, Live, Combined, Built, MergeOutput, Merged;
      CompactingAlone(state);
      MergeOutputTable(state, tuning, now);
      InputsKnown();
      var built := WriteMerged(pairs, now);
      if built.Err? {
        return Err(built.reason);
      }
      RecordOutputFile(built.value, MergeOutput(state, tuning, now), now);
      r := Ok(());
    }

    lemma InputsKnown()
      requires Valid() && state.compaction.Merging?
      ensures Numbered(compactionInputs, state.inputs) && manifest.sstables == compactionInputs
      ensures Idle(state.flush) ==> !flushing
    {
      hide Base;
    }

    method RecordOutputFile(metadata: Metadata, ghost c: Content, ghost now: nat)
      requires Base() && !flushing && Invariant(state) && CompactionEnabled(state, BuildOutput(now))
      requires Numbered(compactionInputs, state.inputs) && manifest.sstables == compactionInputs
      requires OnDisk(disk.files, metadata, c) && metadata.fileNumber == state.nextFileNumber && MapOf(c.entries) == Merged(state.inputs, now)
      modifies this`compactionOutput, this`outputContent, this`state
      ensures Valid() && state == CompactionNext(old(state), BuildOutput(now))
    {
      hide OnDisk, MemoryMatches, ReadersMatch, ManifestMatches, LogMatches, View, Invariant, Merged, Live, Combined;
      CompactingAlone(state);
      compactionOutput, outputContent := metadata, c;
      state := CompactionNext(state, BuildOutput(now));
    }

    /** The output heads the manifest. */
    method AddOutputFile()
      requires Valid() && Invariant(state) && CompactionEnabled(state, AddOutput)
      modifies this`listed, this`state, manifest
      ensures Valid() && state == CompactionNext(old(state), AddOutput)
    {
      hide OnDisk, MemoryMatches, ReadersMatch, LogMatches, ManifestMatches, View, Invariant, CompactionNext;
      CompactingAlone(state);
      AddOutputKeeps(state);
      PushListed(compactionOutput, outputContent, state.compaction.output, state.manifest, state.nextFileNumber);
      state := CompactionNext(state, AddOutput);
    }

    /** The inputs leave the manifest and the disk. */
    method RemoveInputFiles()
      requires Valid() && Invariant(state) && CompactionEnabled(state, RemoveInputs)
      modifies this`listed, this`state, disk, manifest
      ensures Valid() && state == CompactionNext(old(state), RemoveInputs)
      ensures disk.files == old(disk.files) - Numbers(FileNumbers(compactionInputs))
    {
      hide OnDisk, MemoryMatches, ReadersMatch, LogMatches, ManifestMatches, View, Invariant, CompactionNext, FileNumbers, Numbers;
      CompactingAlone(state);
      RemoveInputsKeeps(state);
      RetireInputs(state.manifest, state.nextFileNumber, state.compaction.output);
      state := CompactionNext(state, RemoveInputs);
    }

    method RetireInputs(ghost files: seq<TableFile>, ghost next: nat, ghost out: TableFile)
      requires ManifestMatches(files, next) && Configured() && Holds(disk.files, compactionOutput, outputContent, out)
      requires manifest.sstables == [compactionOutput] + compactionInputs
      modifies this`listed, disk, manifest
      ensures ManifestMatches([out], next) && Configured() && Holds(disk.files, compactionOutput, outputContent, out)
      ensures disk.files == old(disk.files) - Numbers(FileNumbers(compactionInputs))
    {
      hide OnDisk, AllOnDisk, FileNumbers, Numbers;
      compaction.Retire(compactionOutput, compactionInputs, outputContent);
      ListedOne(disk.files, compactionOutput, outputContent, out);
      listed := [outputContent];
    }

    /** The inputs' readers are closed, and the output's is opened in their place. */
    method HandleCompactionComplete()
      requires Valid() && Invariant(state) && CompactionEnabled(state, SwitchReaders)
      modifies this`sstables, this`contents, this`state, this`readers, readers
      ensures Closed(old(sstables), |old(state).inputs|, old(readers))
      ensures Valid() && state == CompactionNext(old(state), SwitchReaders)
    {
      hide Closed, OnDisk, MemoryMatches, ManifestMatches, LogMatches, ReadersMatch, View, Invariant, CompactionNext;
      CompactingAlone(state);
      SwitchReadersKeeps(state);
      ReplaceReaders();
      state := CompactionNext(state, SwitchReaders);
    }

    method ReplaceReaders()
      requires ReadersMatch(state.tables) && Invariant(state) && state.compaction.InputsRemoved?
      requires Numbered(compactionInputs, state.inputs) && Holds(disk.files, compactionOutput, outputContent, state.compaction.output)
      modifies this`sstables, this`contents, this`readers, readers
      ensures Closed(old(sstables), |state.inputs|, old(readers))
      ensures |state.inputs| <= |state.tables| && ReadersMatch([state.compaction.output] + state.tables[|state.inputs|..])
    {
      hide OnDisk, AllServe, View, Invariant, AllOpen, FileNumbers, Numbers, NumbersOfFirst, StrictlyDescending, AllNumbersBelow;
      CompactingAlone(state);
      NumbersServed(sstables, contents, state.tables);
      InputReaders(sstables, compactionInputs, state);
      CloseAll(Numbers(FileNumbers(compactionInputs)), |state.inputs|);
      SwitchToOutput(|state.inputs|);
    }

    method CloseAll(numbers: set<nat>, ghost k: nat)
      requires AllOpen(sstables, readers) && NumbersOfFirst(sstables, k, numbers)
      modifies readers
      ensures Closed(sstables, k, readers)
      ensures AllOpen(sstables[k..], readers)
      ensures forall i :: 0 <= i < k ==> sstables[i].reader.closed
    {
      for i := 0 to |sstables|
        invariant forall j :: 0 <= j < |sstables| ==> (sstables[j].reader.closed <==> j < i && StateNumber(sstables[j]) in numbers)
      {
        if StateNumber(sstables[i]) in numbers {
          sstables[i].reader.Close();
        }
      }
    }

    /** The output's reader takes the place of the first `k`. */
    method SwitchToOutput(ghost k: nat)
      requires AllServe(sstables, contents, state.tables) && k <= |sstables| && AllOpen(sstables[k..], readers)
      requires state.compaction.InputsRemoved? && Holds(disk.files, compactionOutput, outputContent, state.compaction.output)
      requires NumbersOfFirst(sstables, k, Numbers(FileNumbers(compactionInputs)))
      requires StrictlyDescending(StateNumber, sstables) && AllNumbersBelow(StateNumber, sstables, compactionOutput.fileNumber)
      modifies this`sstables, this`contents, this`readers
      ensures k <= |state.tables| && ReadersMatch([state.compaction.output] + state.tables[k..])
    {
      hide OnDisk, Serves, AllServe;
      KeptReaders(sstables, k, Numbers(FileNumbers(compactionInputs)));
      var newSSTables := Without(StateNumber, sstables, Numbers(FileNumbers(compactionInputs)));
      var t := OpenOne(disk, compactionOutput, outputContent, state.compaction.output);
      SwitchedServe(sstables, contents, state.tables, k, t, outputContent, state.compaction.output);
      SortedFrontIs(sstables, k, newSSTables, t);
      sstables := Sort(StateNumber, newSSTables + [t]);
      contents, readers := [outputContent] + contents[k..], readers + {t.reader};
    }

    /**
     A whole compaction while no flush is under way.  Readers see the same before and after; it
     fails exactly if an entry cannot be read back or the output does not fit the file format,
     and then nothing has changed.  Otherwise one file with what is live, or none, is left in the
     manifest, and the other files of the manifest are gone from the disk.
     */
    method Compact(now: nat) returns (r: Result<()>)
      requires Valid() && Invariant(state) && Idle(state.flush) && state.compaction.NotCompacting?
      modifies this`sstables, this`contents, this`readers, this`listed, this`state, this`compactionInputs, this`compactionOutput, this`outputContent
      modifies disk, manifest, readers
      ensures r.Ok? && |old(state).manifest| >= 2 && Live(Combined(old(state).manifest)) != map[] ==> Closed(old(sstables), |old(state).manifest|, old(readers))
      ensures Valid() && Invariant(state) && View(state) == View(old(state)) && state.compaction.NotCompacting?
      ensures Readable(old(state)) ==> Readable(state)
      ensures |old(state).manifest| < 2 ==> r.Ok? && state == old(state) && disk.files == old(disk.files)
      ensures r.Err? ==> state == old(state).(inputs := []) && disk.files == old(disk.files)
      ensures r.Ok? && |old(state).manifest| >= 2 ==> old(state).stale <= |old(state).tables| && state == Compacted(old(state), now)
      ensures r.Ok? && |old(state).manifest| >= 2 ==>
        var left := old(disk.files) - Numbers(FileNumbers(old(manifest.sstables)));
        if Live(Combined(old(state).manifest)) == map[] then disk.files == left else OnlyAdded(left, old(state).nextFileNumber, disk.files)
      ensures r.Ok? <==>
        |old(state).manifest| < 2 ||
        (ContentsCovered(old(listed)) &&
         (Live(Combined(old(state).manifest)) == map[] || Built(MergeOutput(old(state).(inputs := old(state).manifest), tuning, now))))
      ensures Durable(old(state)) ==> Durable(state) && (state.inflight == [] ==> SurvivesCrash(state))
    {
      hide Closed, Valid, View, Invariant, Readable, CompactionNext, Live, Combined, ContentsCovered, Built, Durable, SurvivesCrash, OnlyAdded, FileNumbers, Numbers;
      ghost var before := state;
      var few := FewFiles();
      if few {
        if Durable(before) && before.inflight == [] { DurableSurvives(before); }
        return Ok(());
      }
      r := MergeAndReplace(now);
      StaleWithin(before);
      if Durable(before) { CompactedSurvives(before, state, now); }
    }

    method MergeAndReplace(now: nat) returns (r: Result<()>)
      requires Valid() && Invariant(state) && CompactionEnabled(state, StartCompaction)
      modifies this`sstables, this`contents, this`readers, this`listed, this`state, this`compactionInputs, this`compactionOutput, this`outputContent
      modifies disk, manifest, readers
      ensures r.Ok? && Live(Combined(old(state).manifest)) != map[] ==> Closed(old(sstables), |old(state).manifest|, old(readers))
      ensures Valid() && Invariant(state) && View(state) == View(old(state)) && (Readable(old(state)) ==> Readable(state))
      ensures r.Err? ==> state == old(state).(inputs := []) && disk.files == old(disk.files)
      ensures r.Ok? ==> old(state).stale <= |old(state).tables| && state == Compacted(old(state), now)
      ensures r.Ok? ==>
        var left := old(disk.files) - Numbers(FileNumbers(old(manifest.sstables)));
        if Live(Combined(old(state).manifest)) == map[] then disk.files == left else OnlyAdded(left, old(state).nextFileNumber, disk.files)
      ensures r.Ok? <==>
        ContentsCovered(old(listed)) &&
        (Live(Combined(old(state).manifest)) == map[] || Built(MergeOutput(old(state).(inputs := old(state).manifest), tuning, now)))
    {
      hide Closed, Valid, View, Invariant, Readable, CompactionNext, Live, Combined, ContentsCovered, Built, OnlyAdded, FileNumbers, Numbers, Merged;
      StaleWithin(state);
      CompactionGoesOn(state, StartCompaction);
      BeginCompaction();
      CompactionGoesOn(state, Abandon);
      OutputDependsOn(old(state), state, now);
      var pairs := MergeFiles();
      if pairs.Err? {
        AbandonCompaction();
        return Err(pairs.reason);
      }
      NothingToMerge(pairs.value, Live(Combined(state.inputs)));
      if |pairs.value| == 0 {
        ghost var merging := state;
        CompactionGoesOn(state, DropInputs);
        DropCompaction();
        InputsDropped(merging, state);
        return Ok(());
      }
      r := BuildAndInstall(pairs.value, now);
    }

    /** What follows the merge when something is live. */
    method BuildAndInstall(pairs: seq<Pair<Bytes>>, now: nat) returns (r: Result<()>)
      requires Valid() && Invariant(state) && CompactionEnabled(state, BuildOutput(now))
      requires pairs == Listing(Live(Combined(state.inputs)))
      modifies this`sstables, this`contents, this`readers, this`listed, this`state, this`compactionOutput, this`outputContent
      modifies disk, manifest, readers
      ensures r.Ok? ==> Closed(old(sstables), |old(state).inputs|, old(readers))
      ensures Valid() && Invariant(state) && View(state) == View(old(state)) && (Readable(old(state)) ==> Readable(state))
      ensures r.Err? ==> state == old(state).(compaction := NotCompacting, inputs := []) && disk.files == old(disk.files)
      ensures r.Ok? ==>
        var s, out := old(state), TableFile(old(state).nextFileNumber, Merged(old(state).inputs, now));
        s.stale <= |s.tables| &&
        state == s.(manifest := [out], nextFileNumber := s.nextFileNumber + 1, tables := [out] + Stale(s), compaction := NotCompacting, inputs := [])
      ensures r.Ok? ==> OnlyAdded(old(disk.files) - Numbers(FileNumbers(compactionInputs)), old(state).nextFileNumber, disk.files)
      ensures r.Ok? <==> Built(MergeOutput(old(state), tuning, now))
    {
      hide Closed, Valid, View, Invariant, Readable, CompactionNext, Live, Combined, Built, OnlyAdded, FileNumbers, Numbers;
      ghost var before, files := state, disk.files;
      CompactionGoesOn(state, Abandon);
      CompactionGoesOn(state, BuildOutput(now));
      NumberIsNew();
      var built := BuildOutputFile(pairs, now);
      if built.Err? {
        AbandonCompaction();
        return Err(built.reason);
      }
      OutputOf(before, state, now);
      AddedThenRemoved(files, before.nextFileNumber, disk.files, Numbers(FileNumbers(compactionInputs)));
      InstallOutput();
      r := Ok(());
    }

    /** The next number is none of the inputs'. */
    lemma NumberIsNew()
      requires Valid() && Invariant(state) && state.compaction.Merging?
      ensures state.nextFileNumber !in Numbers(FileNumbers(compactionInputs))
    {
      hide OnDisk, MemoryMatches, ReadersMatch, LogMatches, AllOnDisk, View, Invariant;
      ManifestNumbers(manifest);
      forall i | 0 <= i < |compactionInputs|
        ensures FileNumbers(compactionInputs)[i] != state.nextFileNumber
      {
        assert FileNumber(manifest.sstables[i]) < manifest.nextFileNumber;
      }
    }

    /** The output takes the place of the inputs: in the manifest, on disk, and among the readers. */
    method InstallOutput()
      requires Valid() && Invariant(state) && CompactionEnabled(state, AddOutput)
      modifies this`sstables, this`contents, this`readers, this`listed, this`state, disk, manifest, readers
      ensures Closed(old(sstables), |old(state).inputs|, old(readers))
      ensures Valid() && Invariant(state) && View(state) == View(old(state)) && (Readable(old(state)) ==> Readable(state))
      ensures Installed(old(state), state)
      ensures disk.files == old(disk.files) - Numbers(FileNumbers(compactionInputs))
    {
      hide Closed, Valid, View, Invariant, Readable, CompactionNext;
      ghost var before := state;
      CompactionGoesOn(state, AddOutput);
      AddOutputFile();
      ghost var s1 := state;
      CompactionGoesOn(state, RemoveInputs);
      RemoveInputFiles();
      ghost var s2 := state;
      CompactionGoesOn(state, SwitchReaders);
      HandleCompactionComplete();
      OutputInstalled(before, s1, s2, state);
    }

    method FewFiles() returns (few: bool)
      requires Valid()
      ensures few <==> |state.manifest| < 2
    {
      hide OnDisk, MemoryMatches, ReadersMatch, LogMatches, Manifest.Valid;
      few := |manifest.sstables| < 2;
    }

    // ----- Reading -----

    /** What readers see; it answers whenever all there is can be read back. */
    method Get(key: Key) returns (r: Result<Option<Bytes>>)
      requires Valid()
      ensures r.Ok? ==> r.value == Lookup(View(state), key)
      ensures Readable(state) ==> r.Ok?
    {
      hide MemoryMatches, ManifestMatches, FlushMatches, CompactionMatches, LogMatches, ReadersMatch, Readable, Combined, Live, View;
      var found := LookInMemory(key);
      if found.Some? {
        return Ok(found.value);
      }
      r := GetFromTables(key);
    }

    /** The part of a lookup that does not wait: if the memory tables do not tell, the files do. */
    method LookInMemory(key: Key) returns (found: Option<Option<Bytes>>)
      requires Valid()
      ensures found.Some? ==> found.value == Lookup(View(state), key)
      ensures found == None ==> Lookup(View(state), key) == Lookup(Live(Combined(state.tables)), key)
    {
      hide ManifestMatches, FlushMatches, CompactionMatches, LogMatches, ReadersMatch, Combined, Live;
      var activeEntry := activeMemTable.GetEntry(key);
      ghost var below := Combined(state.tables) + ImmutableTable(state);
      if activeEntry.Some? {
        FoundIn(below, state.active, key);
        return Some(ValueOf(activeEntry.value));
      }
      NotFoundIn(below, state.active, key);
      if immutableMemTable != null {
        var immutableEntry := immutableMemTable.GetEntry(key);
        if immutableEntry.Some? {
          FoundIn(Combined(state.tables), state.immutable.value, key);
          return Some(ValueOf(immutableEntry.value));
        }
      }
      NotFoundIn(Combined(state.tables), ImmutableTable(state), key);
      found := None;
    }

    lemma ReadersServe()
      requires Valid()
      ensures AllServe(sstables, contents, state.tables) && AllOpen(sstables, readers)
    {
      hide MemoryMatches, ManifestMatches, FlushMatches, CompactionMatches, LogMatches, AllServe, AllOpen;
    }

    /** The memory tables' parts of a range. */
    method TakeMemory(lo: Key, hi: Key) returns (sources: seq<seq<Record>>)
      requires Valid()
      ensures Gathered(sources, ImmutableTable(state) + state.active, lo, hi)
    {
      hide MemoryMatches, ManifestMatches, FlushMatches, CompactionMatches, LogMatches, ReadersMatch, Gathered;
      sources := MemorySources(lo, hi);
    }

    /** The first `limit` live pairs of the range in key order; a limit of 0 acts like 1. */
    method ReadKeyRange(startKey: Key, endKey: Key, limit: Option<nat>) returns (r: Result<seq<Pair<Bytes>>>)
      requires Valid()
      ensures r.Ok? ==> r.value == FirstOf(limit, Listing(Restrict(View(state), startKey, endKey)))
      ensures Readable(state) ==> r.Ok?
    {
      hide ManifestMatches, FlushMatches, CompactionMatches, LogMatches, Apart, AllServe, AllOpen, Gathered, View, Restrict, FirstOf, Readable;
      if Less(endKey, startKey) {
        NothingBetween(View(state), startKey, endKey);
        NothingToList(limit, Restrict(View(state), startKey, endKey));
        return Ok([]);
      }
      var sources := MemorySources(startKey, endKey);
      ghost var top := ImmutableTable(state) + state.active;
      if Readable(state) { ReadableTables(state); }
      var all := GatherTables(sstables, sources, startKey, endKey, contents, state.tables, readers, top);
      if all.Err? {
        return Err(all.reason);
      }
      var pairs := MergeLimited(all.value, limit, startKey, endKey, Combined(state.tables) + top);
      ViewIsLive(state);
      r := Ok(pairs);
    }

    method MemorySources(lo: Key, hi: Key) returns (sources: seq<seq<Record>>)
      requires MemoryMatches(state.active, state.immutable)
      ensures Gathered(sources, ImmutableTable(state) + state.active, lo, hi)
    {
      hide Gathered;
      ghost var nothing: Table := map[];
      NothingGathered(lo, hi);
      sources := GatherMemory(activeMemTable, [], lo, hi, nothing);
      assert state.active + nothing == state.active;
      assert nothing + state.active == state.active;
      if immutableMemTable != null {
        sources := GatherMemory(immutableMemTable, sources, lo, hi, state.active);
      }
    }

    method GetFromTables(key: Key) returns (r: Result<Option<Bytes>>)
      requires ReadersMatch(state.tables)
      ensures r.Ok? ==> r.value == Lookup(Live(Combined(state.tables)), key)
      ensures Readable(state) ==> r.Ok?
    {
      hide Serves, Combined, Live, AllCovered, CoveredFiles, CoveredTable;
      ghost var tables := state.tables;
      if Readable(state) { ServedCovered(sstables, contents, tables); }
      for i := 0 to |sstables|
        invariant forall j :: 0 <= j < i ==> key !in tables[j].table
      {
        assert Serves(sstables[i], contents[i], tables[i]);
        var value := GetFromTable(sstables[i], key, contents[i], tables[i]);
        if value.Err? {
          return Err(value.reason);
        }
        if value.value.Some? {
          FoundAt(tables, i, key);
          return Ok(ValueOf(value.value.value));
        }
      }
      FoundNowhere(tables, key);
      r := Ok(None);
    }
  }

  // ----- Range reads -----

  /** Sorted sources, newest first, that together hold what a table has in a range. */
  ghost predicate Gathered(sources: seq<seq<Record>>, t: Table, lo: Key, hi: Key) {
    (forall i :: 0 <= i < |sources| ==> Sorted(sources[i])) && Overlay(TablesOf(sources)) == Restrict(t, lo, hi)
  }

  lemma ViewIsLive(s: Store)
    ensures View(s) == Live(Combined(s.tables) + (ImmutableTable(s) + s.active))
  {
    MapPlusAssociative(Combined(s.tables), ImmutableTable(s), s.active);
  }

  lemma NothingGathered(lo: Key, hi: Key)
    ensures Gathered([], map[], lo, hi)
  {
    assert TablesOf([]) == [];
  }

  lemma RestrictPlus(a: Table, b: Table, lo: Key, hi: Key)
    ensures Restrict(a + b, lo, hi) == Restrict(a, lo, hi) + Restrict(b, lo, hi)
  {
  }

  /** An older source goes to the end; it may be left out if it has nothing in the range. */
  lemma GatherOlder(sources: seq<seq<Record>>, entries: seq<Record>, older: Table, t: Table, lo: Key, hi: Key)
    requires Gathered(sources, t, lo, hi) && Sorted(entries) && MapOf(entries) == Restrict(older, lo, hi)
    ensures Gathered(sources + [entries], older + t, lo, hi)
    ensures entries == [] ==> Gathered(sources, older + t, lo, hi)
  {
    TablesOfAppend(sources, entries);
    RestrictPlus(older, t, lo, hi);
    if entries == [] {
      assert map[] + Restrict(t, lo, hi) == Restrict(t, lo, hi);
    }
  }

  lemma RestrictLive(t: Table, lo: Key, hi: Key)
    ensures Live(Restrict(t, lo, hi)) == Restrict(Live(t), lo, hi)
  {
  }

  lemma NothingBetween(m: map<Key, Bytes>, lo: Key, hi: Key)
    requires Less(hi, lo)
    ensures Restrict(m, lo, hi) == map[]
  {
    forall k | k in m
      ensures !InRange(k, lo, hi)
    {
      OrderCycle(k, hi, lo);
    }
  }

  lemma NothingToList(limit: Option<nat>, m: map<Key, Bytes>)
    requires m == map[]
    ensures FirstOf(limit, Listing(m)) == []
  {
    EmptyMapList(Listing(m));
  }

  /** One more table below those combined so far. */
  lemma CombinedBelow(files: seq<TableFile>, i: nat, top: Table)
    requires i < |files|
    ensures Combined(files[..i + 1]) + top == files[i].table + (Combined(files[..i]) + top)
  {
    assert files[..i + 1] == files[..i] + [files[i]];
    CombinedConcat(files[..i], [files[i]]);
    NothingCombined([]);
    CombinedPush(files[i], []);
    assert [files[i]] + [] == [files[i]];
    assert map[] + files[i].table == files[i].table;
  }

  /** What a table file has in a range. */
  method RangeOfTable(t: SSTableState, lo: Key, hi: Key, ghost c: Content, ghost f: TableFile) returns (r: Result<seq<Record>>)
    ensures Serves(t, c, f) ==>
      (r.Ok? ==> Sorted(r.value) && MapOf(r.value) == Restrict(f.table, lo, hi)) &&
      (!t.reader.closed && AllCovered(c.entries) ==> r.Ok?)
  {
    if Serves(t, c, f) {
      RangeOfMap(c.entries, lo, hi);
      EmptyList(c.entries, lo, hi);
    }
    if Less(t.metadata.lastKey, lo) || Less(hi, t.metadata.firstKey) {
      if Serves(t, c, f) { NothingInRange(c.entries, lo, hi); }
      return Ok([]);
    }
    r := t.reader.Iterate(Some(lo), Some(hi), c.entries, c.settings);
  }

  lemma EmptyList(es: seq<Record>, lo: Key, hi: Key)
    ensures Sorted<Version>([]) && (RangeOf(es, lo, hi) == [] ==> MapOf(RangeOf(es, lo, hi)) == map[])
  {
  }

  /** The tables' parts of a range, below what the memory tables have. */
  method GatherTables(sstables: seq<SSTableState>, memory: seq<seq<Record>>, lo: Key, hi: Key,
                      ghost contents: seq<Content>, ghost tables: seq<TableFile>, ghost readers: set<SSTableReader>, ghost top: Table)
    returns (r: Result<seq<seq<Record>>>)
    requires AllServe(sstables, contents, tables) && Gathered(memory, top, lo, hi)
    ensures r.Ok? ==> Gathered(r.value, Combined(tables) + top, lo, hi)
    ensures AllOpen(sstables, readers) && CoveredFiles(tables) ==> r.Ok?
  {
    hide Serves, Gathered, AllCovered, CoveredFiles;
    if CoveredFiles(tables) { ServedCovered(sstables, contents, tables); }
    var sources := memory;
    NothingCombined(tables[..0]);
    assert Combined(tables[..0]) + top == top;
    for i := 0 to |sstables|
      invariant Gathered(sources, Combined(tables[..i]) + top, lo, hi)
    {
      assert Serves(sstables[i], contents[i], tables[i]);
      var entries := RangeOfTable(sstables[i], lo, hi, contents[i], tables[i]);
      if entries.Err? {
        return Err(entries.reason);
      }
      GatherOlder(sources, entries.value, tables[i].table, Combined(tables[..i]) + top, lo, hi);
      CombinedBelow(tables, i, top);
      if |entries.value| > 0 {
        sources := sources + [entries.value];
      }
    }
    assert tables[..|tables|] == tables;
    r := Ok(sources);
  }

  method GatherMemory(m: MemTable, sources: seq<seq<Record>>, lo: Key, hi: Key, ghost top: Table) returns (more: seq<seq<Record>>)
    requires m.Valid() && Gathered(sources, top, lo, hi)
    ensures Gathered(more, m.Table() + top, lo, hi)
  {
    var entries := m.GetRange(lo, hi);
    GatherOlder(sources, entries, m.Table(), top, lo, hi);
    more := if |entries| > 0 then sources + [entries] else sources;
  }

  method MergeLimited(sources: seq<seq<Record>>, limit: Option<nat>, lo: Key, hi: Key, ghost t: Table) returns (out: seq<Pair<Bytes>>)
    requires Gathered(sources, t, lo, hi)
    ensures out == FirstOf(limit, Listing(Restrict(Live(t), lo, hi)))
  {
    VisibleIsLive(Restrict(t, lo, hi));
    RestrictLive(t, lo, hi);
    var merger := new MergeIterator(sources, false);
    out := merger.Collect(limit);
  }

  /** One table: skipped when out of range or denied by its Bloom filter, else searched. */
  method GetFromTable(t: SSTableState, key: Key, ghost c: Content, ghost f: TableFile) returns (r: Result<Option<Version>>)
    ensures Serves(t, c, f) ==>
      (r.Ok? ==> r.value == if key in f.table then Some(f.table[key]) else None) && (!t.reader.closed && AllCovered(c.entries) ==> r.Ok?)
  {
    if Serves(t, c, f) && key in f.table {
      KeysInRange(c.entries, key);
    }
    var inRange :- t.reader.IsInRange(key);
    if !inRange {
      return Ok(None);
    }
    var may := t.reader.MayContain(key, c.entries, c.settings);
    if may == Ok(false) {
      return Ok(None);
    }
    var entry :- t.reader.Get(key, c.entries, c.settings);
    r := Ok(if entry.Some? then Some(entry.value.value) else None);
  }
}
