/**
 The store as a state machine: writes, the steps of a background flush, the steps of a
 compaction, and crashes, in any order in which a flush and a compaction do not overlap.
 `model` is the plain map that the same writes make.
 */
module StoreMachine {
  import opened Wrappers
  import opened Keys
  import opened LogEntries
  import opened Manifests
  import opened Sequences
  import opened Tables
  import opened WriteEffects

  datatype TableFile = TableFile(number: nat, table: Table)

  function NumberOf(f: TableFile): nat {
    f.number
  }

  datatype FlushPhase =
    | NotFlushing
    | Failed
    | Swapped(number: nat)
    | FileBuilt(file: TableFile)
    | InManifest(file: TableFile)
    | Listed
    | Checkpointed
    | Cleared

  datatype CompactionPhase =
    | NotCompacting
    | Merging(number: nat)
    | OutputBuilt(output: TableFile)
    | OutputAdded(output: TableFile)
    | InputsRemoved(output: TableFile)

  /**
   `tables` are the open readers, newest first, the last `stale` of them for files that are no
   longer in the manifest.  `log` holds the records of all log files; `inflight` the writes
   that are logged but not yet applied; `immutableOps` and `activeOps` the writes that made the
   two memory tables, as far as their records are in the log.  `torn` tells that the newest log
   file may end in a part of a record.  `inputs` are the files that the running compaction reads.
   */
  datatype Store = Store(
    active: Table, immutable: Option<Table>, tables: seq<TableFile>, stale: nat,
    manifest: seq<TableFile>, nextFileNumber: nat, flush: FlushPhase, compaction: CompactionPhase, inputs: seq<TableFile>,
    log: seq<Operation>, torn: bool, inflight: seq<Operation>, immutableOps: seq<Operation>, activeOps: seq<Operation>,
    model: map<Key, Bytes>)

  /**
   A checkpoint starts a new log file and deletes the others one at a time: `RotateLog` does the
   one, `DropLog` removes the records of one file, and `Checkpoint` is all of it.
   */
  datatype FlushStep =
    | BuildFile | FailFlush | AddToManifest | ListFile | RotateLog | DropLog(from: nat, to: nat) | Checkpoint | ClearImmutable | EndFlush

  datatype CompactionStep = StartCompaction | BuildOutput(now: nat) | DropInputs | Abandon | AddOutput | RemoveInputs | SwitchReaders

  /**
   `TearLog` leaves a part of a record in the log, as a crash in the middle of an append does.
   What is appended behind such a part goes where replay may not find it: `behind` is what replay
   then finds in the whole log.  `RecklessSwap` is a swap that nothing prevents when a flush has
   failed or a compaction is running.
   */
  datatype Action =
    | LogWrite(op: Operation, behind: seq<Operation>)
    | TearLog(behind: seq<Operation>)
    | ApplyWrite(now: nat)
    | TakeReplicated(op: Operation, now: nat, behind: seq<Operation>)
    | Swap
    | RecklessSwap
    | Flush(flushStep: FlushStep)
    | Compact(compactionStep: CompactionStep)
    | Crash(now: nat)

  ghost function TablesIn(files: seq<TableFile>): seq<Table> {
    seq(|files|, i requires 0 <= i < |files| => files[i].table)
  }

  ghost function Combined(files: seq<TableFile>): Table {
    Overlay(TablesIn(files))
  }

  ghost function ImmutableTable(s: Store): Table {
    if s.immutable.Some? then s.immutable.value else map[]
  }

  /** What a reader sees: the active table over the immutable one over the files. */
  ghost function View(s: Store): map<Key, Bytes> {
    Live(Combined(s.tables) + ImmutableTable(s) + s.active)
  }

  /** What a merge without tombstones writes. */
  ghost function Merged(inputs: seq<TableFile>, now: nat): Table {
    var live := Live(Combined(inputs));
    map k | k in live :: Version(live[k], now, false)
  }

  /** No flush is running. */
  ghost predicate Idle(phase: FlushPhase) {
    phase.NotFlushing? || phase.Failed?
  }

  ghost predicate FlushEnabled(s: Store, a: FlushStep) {
    match a
    case BuildFile => s.flush.Swapped? && s.immutable.Some? && s.immutable.value != map[]
    case FailFlush => s.flush.Swapped?
    case AddToManifest => s.flush.FileBuilt?
    case ListFile => s.flush.InManifest?
    case RotateLog => s.flush.Listed?
    case DropLog(from, to) => s.flush.Listed? && from <= to <= |s.log|
    case Checkpoint => s.flush.Listed?
    case ClearImmutable => s.flush.Checkpointed? || (s.flush.Swapped? && s.immutable == Some(map[]))
    case EndFlush => s.flush.Cleared?
  }

  ghost predicate CompactionEnabled(s: Store, a: CompactionStep) {
    match a
    case StartCompaction => s.compaction.NotCompacting? && Idle(s.flush) && |s.manifest| >= 2
    case BuildOutput(_) => s.compaction.Merging? && Live(Combined(s.inputs)) != map[]
    case DropInputs => s.compaction.Merging? && Live(Combined(s.inputs)) == map[]
    case Abandon => s.compaction.Merging?
    case AddOutput => s.compaction.OutputBuilt?
    case RemoveInputs => s.compaction.OutputAdded?
    case SwitchReaders => s.compaction.InputsRemoved?
  }

  ghost predicate Enabled(s: Store, a: Action) {
    match a
    case LogWrite(_, _) => true
    case TearLog(_) => true
    case ApplyWrite(_) => s.inflight != []
    case TakeReplicated(_, _, _) => s.inflight == []
    case Swap => s.flush.NotFlushing? && s.compaction.NotCompacting?
    case RecklessSwap => Idle(s.flush) && !(s.flush.NotFlushing? && s.compaction.NotCompacting?)
    case Flush(f) => FlushEnabled(s, f)
    case Compact(c) => CompactionEnabled(s, c)
    case Crash(_) => true
  }

  ghost function InputNumbers(s: Store): set<nat> {
    set f | f in s.inputs :: f.number
  }

  /** Starting again: the manifest's files are opened, and the log is replayed into an empty table. */
  ghost function Reopened(s: Store, now: nat): Store {
    s.(active := ReplayAll(s.log, map[], now), immutable := None, tables := s.manifest, stale := 0,
       flush := NotFlushing, compaction := NotCompacting, inputs := [],
       inflight := [], immutableOps := [], activeOps := s.log, model := Effects(s.inflight, s.model))
  }

  // ----- The steps -----

  /** What replay finds once one more record is in the log. */
  ghost function LogAfter(s: Store, op: Operation, behind: seq<Operation>): seq<Operation> {
    if s.torn then behind else s.log + [op]
  }

  ghost function Logged(s: Store, op: Operation, behind: seq<Operation>): Store {
    s.(log := LogAfter(s, op, behind), inflight := s.inflight + [op])
  }

  ghost function Torn(s: Store, behind: seq<Operation>): Store {
    s.(log := if s.torn then behind else s.log, torn := true)
  }

  ghost function Applied(s: Store, now: nat): Store
    requires s.inflight != []
  {
    var op := s.inflight[0];
    s.(active := Stored(op, s.active, now), inflight := s.inflight[1..], activeOps := s.activeOps + [op], model := Effect(op, s.model))
  }

  /** A replicated write: logged as it came, applied as replay applies it. */
  ghost function Replicated(s: Store, op: Operation, now: nat, behind: seq<Operation>): Store {
    s.(log := LogAfter(s, op, behind), active := Stored(Replayable(op), s.active, now), activeOps := s.activeOps + [op],
       model := Effect(Replayable(op), s.model))
  }

  ghost function SwappedOut(s: Store): Store {
    s.(immutable := Some(s.active), active := map[], immutableOps := s.immutableOps + s.activeOps, activeOps := [],
       flush := Swapped(s.nextFileNumber))
  }

  /** Without the elements from `from` to `to`, as far as there are any. */
  ghost function Cut(ops: seq<Operation>, from: int, to: int): seq<Operation>
    requires from <= to
  {
    ops[..Within(from, |ops|)] + ops[Within(to, |ops|)..]
  }

  function Within(i: int, n: nat): (j: nat)
    ensures j <= n
  {
    if i < 0 then 0 else if i > n then n else i
  }

  ghost function LogCut(s: Store, from: nat, to: nat): Store
    requires from <= to
  {
    var k := |s.immutableOps|;
    s.(log := Cut(s.log, from, to), immutableOps := Cut(s.immutableOps, from, to), activeOps := Cut(s.activeOps, from - k, to - k))
  }

  ghost function AddedToManifest(s: Store, f: TableFile): Store {
    s.(manifest := Sort(NumberOf, s.manifest + [f]), nextFileNumber := f.number + 1)
  }

  ghost function RemovedFromManifest(s: Store): Store {
    s.(manifest := Sort(NumberOf, Without(NumberOf, s.manifest, InputNumbers(s))))
  }

  ghost function SwitchedReaders(s: Store, out: TableFile): Store {
    s.(tables := Sort(NumberOf, Without(NumberOf, s.tables, InputNumbers(s)) + [out]), compaction := NotCompacting, inputs := [])
  }

  ghost function FlushNext(s: Store, a: FlushStep): Store
    requires FlushEnabled(s, a)
  {
    match a
    case BuildFile => s.(flush := FileBuilt(TableFile(s.flush.number, s.immutable.value)))
    case AddToManifest => AddedToManifest(s, s.flush.file).(flush := InManifest(s.flush.file))
    case FailFlush => s.(flush := Failed)
    case ListFile => s.(tables := [s.flush.file] + s.tables, flush := Listed)
    case RotateLog => s.(torn := false)
    case DropLog(from, to) => LogCut(s, from, to)
    case Checkpoint => s.(log := [], torn := false, immutableOps := [], flush := Checkpointed)
    case ClearImmutable => s.(immutable := None, flush := Cleared)
    case EndFlush => s.(flush := NotFlushing)
  }

  ghost function CompactionNext(s: Store, a: CompactionStep): Store
    requires CompactionEnabled(s, a)
  {
    match a
    case StartCompaction => s.(compaction := Merging(s.nextFileNumber), inputs := s.manifest)
    case BuildOutput(now) => s.(compaction := OutputBuilt(TableFile(s.compaction.number, Merged(s.inputs, now))))
    case DropInputs => RemovedFromManifest(s).(stale := |s.tables|, compaction := NotCompacting, inputs := [])
    case Abandon => s.(compaction := NotCompacting, inputs := [])
    case AddOutput => AddedToManifest(s, s.compaction.output).(compaction := OutputAdded(s.compaction.output))
    case RemoveInputs => RemovedFromManifest(s).(compaction := InputsRemoved(s.compaction.output))
    case SwitchReaders => SwitchedReaders(s, s.compaction.output)
  }

  ghost function Next(s: Store, a: Action): Store
    requires Enabled(s, a)
  {
    match a
    case LogWrite(op, behind) => Logged(s, op, behind)
    case TearLog(behind) => Torn(s, behind)
    case ApplyWrite(now) => Applied(s, now)
    case TakeReplicated(op, now, behind) => Replicated(s, op, now, behind)
    case Swap => SwappedOut(s)
    case RecklessSwap => SwappedOut(s)
    case Flush(f) => FlushNext(s, f)
    case Compact(c) => CompactionNext(s, c)
    case Crash(now) => Reopened(s, now)
  }

  ghost function Initial(): Store {
    Store(map[], None, [], 0, [], 1, NotFlushing, NotCompacting, [], [], false, [], [], [], map[])
  }

  ghost function Run(s: Store, actions: seq<Action>): Option<Store> {
    if actions == [] then Some(s)
    else
      match Run(s, actions[..|actions| - 1])
      case None => None
      case Some(t) => if Enabled(t, actions[|actions| - 1]) then Some(Next(t, actions[|actions| - 1])) else None
  }

  // ----- The invariant of the view -----

  /** The readers of files that the manifest lists, or listed when the running compaction began. */
  ghost function Current(s: Store): seq<TableFile>
    requires s.stale <= |s.tables|
  {
    s.tables[..|s.tables| - s.stale]
  }

  ghost function Stale(s: Store): seq<TableFile>
    requires s.stale <= |s.tables|
  {
    s.tables[|s.tables| - s.stale..]
  }

  /** What the manifest lists, given what is open. */
  ghost function Expected(s: Store): seq<TableFile>
    requires s.stale <= |s.tables|
  {
    match s.compaction
    case OutputAdded(out) => [out] + Current(s)
    case InputsRemoved(out) => [out]
    case _ => if s.flush.InManifest? then [s.flush.file] + Current(s) else Current(s)
  }

  ghost predicate FlushSound(s: Store) {
    match s.flush
    case NotFlushing => s.immutable == None
    case Failed => s.immutable.Some?
    case Swapped(n) => s.immutable.Some? && n == s.nextFileNumber
    case FileBuilt(f) => s.immutable == Some(f.table) && f.number == s.nextFileNumber
    case InManifest(f) => s.immutable == Some(f.table) && f.number < s.nextFileNumber && AllNumbersBelow(NumberOf, s.tables, f.number)
    case Listed => s.immutable.Some? && s.stale < |s.tables| && s.tables[0].table == s.immutable.value
    case Checkpointed => s.immutable.Some? && s.stale < |s.tables| && s.tables[0].table == s.immutable.value
    case Cleared => s.immutable == None
  }

  ghost predicate CompactionSound(s: Store)
    requires s.stale <= |s.tables|
  {
    match s.compaction
    case NotCompacting => true
    case Merging(n) => Idle(s.flush) && s.inputs == Current(s) && n == s.nextFileNumber
    case OutputBuilt(out) => Idle(s.flush) && s.inputs == Current(s) && Live(out.table) == Live(Combined(s.inputs)) && out.number == s.nextFileNumber
    case OutputAdded(out) => Idle(s.flush) && s.inputs == Current(s) && Live(out.table) == Live(Combined(s.inputs)) && OutputNewest(s, out)
    case InputsRemoved(out) => Idle(s.flush) && s.inputs == Current(s) && Live(out.table) == Live(Combined(s.inputs)) && OutputNewest(s, out)
  }

  ghost predicate OutputNewest(s: Store, out: TableFile) {
    AllNumbersBelow(NumberOf, s.tables, out.number) && out.number < s.nextFileNumber
  }

  ghost predicate FilesInOrder(s: Store) {
    s.stale <= |s.tables| && s.manifest == Expected(s) && Live(Combined(Stale(s))) == map[] &&
    StrictlyDescending(NumberOf, s.tables) && AllNumbersBelow(NumberOf, s.tables, s.nextFileNumber) &&
    StrictlyDescending(NumberOf, s.manifest) && AllNumbersBelow(NumberOf, s.manifest, s.nextFileNumber)
  }

  ghost predicate Invariant(s: Store) {
    FilesInOrder(s) && FlushSound(s) && CompactionSound(s) && View(s) == s.model
  }

  // ----- Combining files -----

  lemma CombinedPush(f: TableFile, files: seq<TableFile>)
    ensures Combined([f] + files) == Combined(files) + f.table
  {
    assert TablesIn([f] + files) == [f.table] + TablesIn(files);
    OverlayPush(f.table, TablesIn(files));
  }

  lemma CombinedConcat(a: seq<TableFile>, b: seq<TableFile>)
    ensures Combined(a + b) == Combined(b) + Combined(a)
  {
    assert TablesIn(a + b) == TablesIn(a) + TablesIn(b);
    OverlayConcat(TablesIn(a), TablesIn(b));
  }

  /** Tables in which nothing is live do not show through. */
  lemma DeadBelow(dead: Table, t: Table)
    requires Live(dead) == map[]
    ensures Live(dead + t) == Live(t)
  {
    LiveUnder(t, dead, map[]);
    assert map[] + t == t;
  }

  lemma SplitTables(s: Store)
    requires s.stale <= |s.tables| && Live(Combined(Stale(s))) == map[]
    ensures Combined(s.tables) == Combined(Stale(s)) + Combined(Current(s)) && Live(Combined(s.tables)) == Live(Combined(Current(s)))
  {
    assert s.tables == Current(s) + Stale(s);
    CombinedConcat(Current(s), Stale(s));
    DeadBelow(Combined(Stale(s)), Combined(Current(s)));
  }

  /** The merge output shows what its inputs show. */
  lemma MergedIsLive(inputs: seq<TableFile>, now: nat)
    ensures Live(Merged(inputs, now)) == Live(Combined(inputs))
  {
  }

  /** The table on top of the files is already among them. */
  lemma OnTopAlready(files: seq<TableFile>, t: Table)
    requires files != [] && files[0].table == t
    ensures Combined(files) + t == Combined(files)
  {
    CombinedPush(files[0], files[1..]);
    HeadAndTail(files);
  }

  // ----- Every step keeps it -----

  lemma ApplyKeeps(s: Store, now: nat)
    requires Invariant(s) && Enabled(s, ApplyWrite(now))
    ensures Invariant(Applied(s, now)) && View(Applied(s, now)) == Effect(s.inflight[0], View(s))
  {
    hide Live, Combined, Stored, Effect;
    LiveStored(s.inflight[0], Combined(s.tables) + ImmutableTable(s), s.active, now);
    MemoryOnly(s, Applied(s, now));
  }

  lemma ReplicatedKeeps(s: Store, op: Operation, now: nat, behind: seq<Operation>)
    requires Invariant(s)
    ensures var t := Replicated(s, op, now, behind); Invariant(t) && View(t) == Effect(Replayable(op), View(s))
  {
    hide Live, Combined, Stored, Effect, Replayable;
    LiveStored(Replayable(op), Combined(s.tables) + ImmutableTable(s), s.active, now);
    MemoryOnly(s, Replicated(s, op, now, behind));
  }

  /** Nothing that the listings and the two background jobs depend on has changed. */
  ghost predicate SameFiles(s: Store, t: Store) {
    t.tables == s.tables && t.stale == s.stale && t.manifest == s.manifest && t.nextFileNumber == s.nextFileNumber &&
    t.flush == s.flush && t.compaction == s.compaction && t.inputs == s.inputs && t.immutable == s.immutable
  }

  lemma MemoryOnly(s: Store, t: Store)
    requires Invariant(s) && SameFiles(s, t)
    ensures Invariant(t) <==> View(t) == t.model
  {
    hide Live, Combined;
    assert Current(t) == Current(s) && Stale(t) == Stale(s);
  }

  lemma SwapKeeps(s: Store)
    requires Invariant(s) && Enabled(s, Swap)
    ensures s.immutable == None && Invariant(SwappedOut(s)) && View(SwappedOut(s)) == View(s)
  {
    hide Live, Combined;
    var s' := SwappedOut(s);
    assert Current(s') == Current(s) && Stale(s') == Stale(s);
    var c := Combined(s.tables);
    assert c + map[] + s.active == c + s.active + map[];
  }

  /** A file with the next number goes to the front of the manifest and leaves room for the number after it. */
  lemma NewestFile(files: seq<TableFile>, others: seq<TableFile>, f: TableFile)
    requires StrictlyDescending(NumberOf, files) && AllNumbersBelow(NumberOf, files, f.number) && AllNumbersBelow(NumberOf, others, f.number)
    ensures Sort(NumberOf, files + [f]) == [f] + files && StrictlyDescending(NumberOf, [f] + files)
    ensures AllNumbersBelow(NumberOf, [f] + files, f.number + 1) && AllNumbersBelow(NumberOf, others, f.number + 1)
  {
    SortNewest(NumberOf, files, f);
  }

  lemma FlushListed(s: Store, f: TableFile)
    requires Invariant(s) && s.flush == FileBuilt(f) && StrictlyDescending(NumberOf, [f] + s.manifest)
    requires AllNumbersBelow(NumberOf, s.tables, f.number) && AllNumbersBelow(NumberOf, [f] + s.manifest, f.number + 1)
    requires AllNumbersBelow(NumberOf, s.tables, f.number + 1)
    ensures var s' := s.(manifest := [f] + s.manifest, nextFileNumber := f.number + 1, flush := InManifest(f));
      Invariant(s') && View(s') == View(s)
  {
    hide Combined, Live, StrictlyDescending, AllNumbersBelow;
    var s' := s.(manifest := [f] + s.manifest, nextFileNumber := f.number + 1, flush := InManifest(f));
    assert Current(s') == Current(s) && Stale(s') == Stale(s);
    assert FilesInOrder(s') && FlushSound(s');
  }

  lemma AddToManifestKeeps(s: Store)
    requires Invariant(s) && FlushEnabled(s, AddToManifest)
    ensures Invariant(FlushNext(s, AddToManifest)) && View(FlushNext(s, AddToManifest)) == View(s)
    ensures FlushNext(s, AddToManifest) ==
      s.(manifest := [s.flush.file] + s.manifest, nextFileNumber := s.flush.file.number + 1, flush := InManifest(s.flush.file))
  {
    hide View, Live, Combined, StrictlyDescending, AllNumbersBelow, Sort;
    var f := s.flush.file;
    NewestFile(s.manifest, s.tables, f);
    FlushListed(s, f);
    assert FlushNext(s, AddToManifest) == s.(manifest := [f] + s.manifest, nextFileNumber := f.number + 1, flush := InManifest(f));
  }

  lemma ListedTwice(files: seq<TableFile>, f: TableFile, top: Table)
    ensures Live(Combined([f] + files) + f.table + top) == Live(Combined(files) + f.table + top)
  {
    CombinedPush(f, files);
    var c := Combined(files);
    assert c + f.table + f.table == c + f.table;
  }

  lemma BelowHigher(files: seq<TableFile>, n: nat, m: nat)
    requires AllNumbersBelow(NumberOf, files, n) && n <= m
    ensures AllNumbersBelow(NumberOf, files, m)
  {
  }

  lemma FileListed(s: Store, f: TableFile)
    requires Invariant(s) && s.flush == InManifest(f)
    ensures var s' := s.(tables := [f] + s.tables, flush := Listed); FilesInOrder(s') && FlushSound(s') && CompactionSound(s')
  {
    hide Live, Combined, View, StrictlyDescending, AllNumbersBelow, InputNumbers;
    var s' := s.(tables := [f] + s.tables, flush := Listed);
    assert Current(s') == [f] + Current(s) && Stale(s') == Stale(s);
    NoneBelow([], f.number);
    NewestFile(s.tables, [], f);
    BelowHigher([f] + s.tables, f.number + 1, s.nextFileNumber);
  }

  lemma NoneBelow(files: seq<TableFile>, n: nat)
    ensures files == [] ==> AllNumbersBelow(NumberOf, files, n)
  {
  }

  lemma ListFileKeeps(s: Store)
    requires Invariant(s) && FlushEnabled(s, ListFile)
    ensures Invariant(FlushNext(s, ListFile)) && View(FlushNext(s, ListFile)) == View(s)
  {
    hide Live, Combined, FilesInOrder, CompactionSound;
    var f := s.flush.file;
    ListedTwice(s.tables, f, s.active);
    FileListed(s, f);
  }

  lemma ClearKeeps(s: Store)
    requires Invariant(s) && FlushEnabled(s, ClearImmutable)
    ensures Invariant(FlushNext(s, ClearImmutable)) && View(FlushNext(s, ClearImmutable)) == View(s)
  {
    hide Live, Combined;
    var c, s' := Combined(s.tables), FlushNext(s, ClearImmutable);
    assert Current(s') == Current(s) && Stale(s') == Stale(s);
    if s.flush.Checkpointed? {
      OnTopAlready(s.tables, s.immutable.value);
    }
    assert c + map[] == c;
  }

  lemma StartCompactionKeeps(s: Store)
    requires Invariant(s) && CompactionEnabled(s, StartCompaction)
    ensures Invariant(CompactionNext(s, StartCompaction)) && View(CompactionNext(s, StartCompaction)) == View(s)
  {
    hide Live, Combined;
    var s' := CompactionNext(s, StartCompaction);
    assert Current(s') == Current(s) && Stale(s') == Stale(s);
  }

  lemma AbandonKeeps(s: Store)
    requires Invariant(s) && CompactionEnabled(s, Abandon)
    ensures Invariant(CompactionNext(s, Abandon)) && View(CompactionNext(s, Abandon)) == View(s)
  {
    hide Live, Combined;
    var s' := CompactionNext(s, Abandon);
    assert Current(s') == Current(s) && Stale(s') == Stale(s);
  }

  /** The numbers of the current files are above those of the stale ones. */
  lemma StaleNumbers(s: Store, f: TableFile, g: TableFile)
    requires FilesInOrder(s) && f in Stale(s) && g in Current(s)
    ensures f.number < g.number
  {
    var j :| 0 <= j < |Stale(s)| && Stale(s)[j] == f;
    var i :| 0 <= i < |Current(s)| && Current(s)[i] == g;
    assert s.tables[i] == g && s.tables[|s.tables| - s.stale + j] == f;
  }

  lemma StaleKept(s: Store)
    requires FilesInOrder(s) && s.inputs == Current(s)
    ensures Without(NumberOf, Stale(s), InputNumbers(s)) == Stale(s)
  {
    forall f | f in Stale(s)
      ensures NumberOf(f) !in InputNumbers(s)
    {
      forall g | g in s.inputs ensures g.number != f.number { StaleNumbers(s, f, g); }
    }
    WithoutNone(NumberOf, Stale(s), InputNumbers(s));
  }

  lemma WithoutSplit(current: seq<TableFile>, stale: seq<TableFile>, gone: set<nat>)
    requires Without(NumberOf, current, gone) == [] && Without(NumberOf, stale, gone) == stale
    ensures Without(NumberOf, current + stale, gone) == stale
  {
    WithoutConcat(NumberOf, current, stale, gone);
  }

  lemma CurrentAndStale(s: Store)
    requires s.stale <= |s.tables|
    ensures s.tables == Current(s) + Stale(s)
  {
  }

  lemma InputsAreGone(s: Store)
    ensures Without(NumberOf, s.inputs, InputNumbers(s)) == []
  {
    WithoutAll(NumberOf, s.inputs, InputNumbers(s));
  }

  lemma InputsGone(s: Store)
    requires FilesInOrder(s) && s.inputs == Current(s)
    ensures Without(NumberOf, s.tables, InputNumbers(s)) == Stale(s)
    ensures Without(NumberOf, s.inputs, InputNumbers(s)) == []
  {
    var gone, current, stale := InputNumbers(s), Current(s), Stale(s);
    InputsAreGone(s);
    StaleKept(s);
    WithoutSplit(current, stale, gone);
    CurrentAndStale(s);
  }

  lemma EmptyListing(s: Store)
    requires Invariant(s) && s.compaction.Merging? && Live(Combined(s.inputs)) == map[]
    ensures var s' := s.(manifest := [], stale := |s.tables|, compaction := NotCompacting, inputs := []);
      Invariant(s') && View(s') == View(s)
  {
    SplitTables(s);
    var s' := s.(manifest := [], stale := |s.tables|, compaction := NotCompacting, inputs := []);
    assert Current(s') == [] && Stale(s') == s.tables;
    assert FilesInOrder(s');
  }

  lemma DropInputsKeeps(s: Store)
    requires Invariant(s) && CompactionEnabled(s, DropInputs)
    ensures Invariant(CompactionNext(s, DropInputs)) && View(CompactionNext(s, DropInputs)) == View(s)
    ensures CompactionNext(s, DropInputs) == s.(manifest := [], stale := |s.tables|, compaction := NotCompacting, inputs := [])
  {
    InputsAreGone(s);
    assert s.manifest == s.inputs;
    EmptyListing(s);
    assert CompactionNext(s, DropInputs) == s.(manifest := [], stale := |s.tables|, compaction := NotCompacting, inputs := []);
  }

  lemma OutputListed(s: Store, f: TableFile)
    requires Invariant(s) && s.compaction == OutputBuilt(f) && StrictlyDescending(NumberOf, [f] + s.manifest)
    requires AllNumbersBelow(NumberOf, [f] + s.manifest, f.number + 1) && AllNumbersBelow(NumberOf, s.tables, f.number + 1)
    ensures var s' := s.(manifest := [f] + s.manifest, nextFileNumber := f.number + 1, compaction := OutputAdded(f));
      Invariant(s') && View(s') == View(s)
  {
    hide Live, Combined, StrictlyDescending;
    var s' := s.(manifest := [f] + s.manifest, nextFileNumber := f.number + 1, compaction := OutputAdded(f));
    assert Current(s') == Current(s) && Stale(s') == Stale(s);
    assert FilesInOrder(s') && CompactionSound(s');
  }

  lemma AddOutputKeeps(s: Store)
    requires Invariant(s) && CompactionEnabled(s, AddOutput)
    ensures Invariant(CompactionNext(s, AddOutput)) && View(CompactionNext(s, AddOutput)) == View(s)
    ensures CompactionNext(s, AddOutput) ==
      s.(manifest := [s.compaction.output] + s.manifest, nextFileNumber := s.compaction.output.number + 1,
         compaction := OutputAdded(s.compaction.output))
  {
    hide View, Live, Combined, StrictlyDescending, AllNumbersBelow, Sort;
    var f := s.compaction.output;
    NewestFile(s.manifest, s.tables, f);
    OutputListed(s, f);
    assert CompactionNext(s, AddOutput) == s.(manifest := [f] + s.manifest, nextFileNumber := f.number + 1, compaction := OutputAdded(f));
  }

  /** Without its inputs, the manifest lists the output alone. */
  lemma InputsRemovedFrom(s: Store, out: TableFile)
    requires FilesInOrder(s) && s.inputs == Current(s) && AllNumbersBelow(NumberOf, s.tables, out.number)
    ensures Sort(NumberOf, Without(NumberOf, [out] + s.inputs, InputNumbers(s))) == [out]
  {
    InputsGone(s);
    WithoutConcat(NumberOf, [out], s.inputs, InputNumbers(s));
    forall g | g in s.inputs
      ensures NumberOf(g) != NumberOf(out)
    {
      var i :| 0 <= i < |s.inputs| && s.inputs[i] == g;
      assert s.tables[i] == g;
    }
    WithoutNone(NumberOf, [out], InputNumbers(s));
    SortDescending(NumberOf, [out]);
    assert [out] + [] == [out];
  }

  lemma OutputAlone(s: Store, out: TableFile)
    requires Invariant(s) && s.compaction == OutputAdded(out)
    ensures var s' := s.(manifest := [out], compaction := InputsRemoved(out)); Invariant(s') && View(s') == View(s)
  {
    var s' := s.(manifest := [out], compaction := InputsRemoved(out));
    assert Current(s') == Current(s) && Stale(s') == Stale(s);
    assert FilesInOrder(s') && CompactionSound(s');
  }

  lemma RemoveInputsKeeps(s: Store)
    requires Invariant(s) && CompactionEnabled(s, RemoveInputs)
    ensures Invariant(CompactionNext(s, RemoveInputs)) && View(CompactionNext(s, RemoveInputs)) == View(s)
    ensures CompactionNext(s, RemoveInputs) == s.(manifest := [s.compaction.output], compaction := InputsRemoved(s.compaction.output))
  {
    var out := s.compaction.output;
    InputsRemovedFrom(s, out);
    OutputAlone(s, out);
    assert s.manifest == [out] + s.inputs;
    assert CompactionNext(s, RemoveInputs) == s.(manifest := [out], compaction := InputsRemoved(out));
  }

  /** The new reader takes the place of its inputs, in front of the stale ones. */
  lemma ReadersSwitched(s: Store, out: TableFile)
    requires FilesInOrder(s) && s.inputs == Current(s) && AllNumbersBelow(NumberOf, s.tables, out.number)
    ensures Sort(NumberOf, Without(NumberOf, s.tables, InputNumbers(s)) + [out]) == [out] + Stale(s)
    ensures StrictlyDescending(NumberOf, [out] + Stale(s))
  {
    InputsGone(s);
    SortNewest(NumberOf, Stale(s), out);
  }

  lemma SwitchedView(s: Store, out: TableFile)
    requires FilesInOrder(s) && Live(out.table) == Live(Combined(Current(s)))
    ensures Live(Combined([out] + Stale(s)) + ImmutableTable(s) + s.active) == Live(Combined(s.tables) + ImmutableTable(s) + s.active)
  {
    hide Live, Combined;
    var new_, old_ := Combined([out] + Stale(s)), Combined(s.tables);
    assert Live(new_) == Live(old_) by {
      SplitTables(s);
      CombinedPush(out, Stale(s));
      DeadBelow(Combined(Stale(s)), out.table);
    }
    LiveUnder(ImmutableTable(s), new_, old_);
    LiveUnder(s.active, new_ + ImmutableTable(s), old_ + ImmutableTable(s));
  }

  lemma OutputInPlace(s: Store, out: TableFile)
    requires Invariant(s) && s.compaction == InputsRemoved(out) && StrictlyDescending(NumberOf, [out] + Stale(s))
    ensures var s' := s.(tables := [out] + Stale(s), compaction := NotCompacting, inputs := []);
      Invariant(s') && View(s') == View(s)
  {
    hide Live, Combined;
    var s' := s.(tables := [out] + Stale(s), compaction := NotCompacting, inputs := []);
    SwitchedView(s, out);
    assert Current(s') == [out] && Stale(s') == Stale(s);
    assert FilesInOrder(s');
  }

  lemma SwitchReadersKeeps(s: Store)
    requires Invariant(s) && CompactionEnabled(s, SwitchReaders)
    ensures Invariant(CompactionNext(s, SwitchReaders)) && View(CompactionNext(s, SwitchReaders)) == View(s)
    ensures CompactionNext(s, SwitchReaders) ==
      s.(tables := [s.compaction.output] + Stale(s), compaction := NotCompacting, inputs := [])
  {
    var out := s.compaction.output;
    ReadersSwitched(s, out);
    OutputInPlace(s, out);
    assert CompactionNext(s, SwitchReaders) == s.(tables := [out] + Stale(s), compaction := NotCompacting, inputs := []);
  }

  lemma BuildFileKeeps(s: Store)
    requires Invariant(s) && FlushEnabled(s, BuildFile)
    ensures Invariant(FlushNext(s, BuildFile)) && View(FlushNext(s, BuildFile)) == View(s)
  {
    hide Live, Combined;
    var s' := FlushNext(s, BuildFile);
    assert Current(s') == Current(s) && Stale(s') == Stale(s);
  }

  /** Neither the log nor the way a flush ends has to do with what readers see. */
  lemma LogDropKeeps(s: Store, a: FlushStep)
    requires Invariant(s) && FlushEnabled(s, a) && (a.FailFlush? || a.RotateLog? || a.DropLog? || a.Checkpoint? || a.EndFlush?)
    ensures Invariant(FlushNext(s, a)) && View(FlushNext(s, a)) == View(s)
  {
    hide Live, Combined, Cut;
    var s' := FlushNext(s, a);
    assert Current(s') == Current(s) && Stale(s') == Stale(s);
  }

  lemma FlushStepKeeps(s: Store, a: FlushStep)
    requires Invariant(s) && FlushEnabled(s, a)
    ensures Invariant(FlushNext(s, a)) && View(FlushNext(s, a)) == View(s)
  {
    hide View, Invariant, FlushNext;
    match a
    case BuildFile => BuildFileKeeps(s);
    case AddToManifest => AddToManifestKeeps(s);
    case FailFlush => LogDropKeeps(s, a);
    case ListFile => ListFileKeeps(s);
    case RotateLog => LogDropKeeps(s, a);
    case DropLog(_, _) => LogDropKeeps(s, a);
    case Checkpoint => LogDropKeeps(s, a);
    case ClearImmutable => ClearKeeps(s);
    case EndFlush => LogDropKeeps(s, a);
  }

  lemma BuildOutputKeeps(s: Store, now: nat)
    requires Invariant(s) && CompactionEnabled(s, BuildOutput(now))
    ensures Invariant(CompactionNext(s, BuildOutput(now))) && View(CompactionNext(s, BuildOutput(now))) == View(s)
  {
    hide Live, Combined, Merged;
    MergedIsLive(s.inputs, now);
    var s' := CompactionNext(s, BuildOutput(now));
    assert Current(s') == Current(s) && Stale(s') == Stale(s);
  }

  lemma CompactionStepKeeps(s: Store, a: CompactionStep)
    requires Invariant(s) && CompactionEnabled(s, a)
    ensures Invariant(CompactionNext(s, a)) && View(CompactionNext(s, a)) == View(s)
  {
    match a
    case StartCompaction => StartCompactionKeeps(s);
    case BuildOutput(now) => BuildOutputKeeps(s, now);
    case DropInputs => DropInputsKeeps(s);
    case Abandon => AbandonKeeps(s);
    case AddOutput => AddOutputKeeps(s);
    case RemoveInputs => RemoveInputsKeeps(s);
    case SwitchReaders => SwitchReadersKeeps(s);
  }

  lemma LogKeeps(s: Store, op: Operation, behind: seq<Operation>)
    requires Invariant(s)
    ensures Invariant(Logged(s, op, behind)) && View(Logged(s, op, behind)) == View(s)
    ensures Invariant(Torn(s, behind)) && View(Torn(s, behind)) == View(s)
  {
    MemoryOnly(s, Logged(s, op, behind));
    MemoryOnly(s, Torn(s, behind));
  }

  /** Only a write changes what readers see, and the model with it; a swap finds no immutable table. */
  lemma StepKeepsView(s: Store, a: Action)
    requires Invariant(s) && Enabled(s, a) && !a.Crash? && !a.RecklessSwap?
    ensures Invariant(Next(s, a))
    ensures View(Next(s, a)) == match a
      case ApplyWrite(_) => Effect(s.inflight[0], View(s))
      case TakeReplicated(op, _, _) => Effect(Replayable(op), View(s))
      case _ => View(s)
    ensures a.Swap? ==> s.immutable == None
  {
    hide View, Invariant, FlushNext, CompactionNext, Effect, Replayable;
    match a
    case LogWrite(op, behind) => LogKeeps(s, op, behind);
    case TearLog(behind) => LogKeeps(s, Delete([]), behind);
    case ApplyWrite(now) => ApplyKeeps(s, now);
    case TakeReplicated(op, now, behind) => ReplicatedKeeps(s, op, now, behind);
    case Swap => SwapKeeps(s);
    case Flush(f) => FlushStepKeeps(s, f);
    case Compact(c) => CompactionStepKeeps(s, c);
  }

  // ----- Swaps that nothing prevents -----

  /** When no flush is running, a table is waiting to be flushed exactly if the last flush has failed. */
  lemma TableIsLeftExactlyAfterFailure(s: Store)
    requires Invariant(s) && Idle(s.flush)
    ensures s.immutable.Some? <==> s.flush.Failed?
  {
  }

  /** Only a failing flush brings that about. */
  lemma OnlyFailureFails(s: Store, a: Action)
    requires Enabled(s, a)
    ensures Next(s, a).flush.Failed? ==> s.flush.Failed? || a == Flush(FailFlush)
  {
    hide Sort, Without, Combined, Live, Merged, View, ReplayAll, Stored;
  }

  /**
   The next swap then drops that table: readers go on seeing the same exactly if it shows nothing
   that the files or the active table do not.
   */
  lemma RecklessSwapShows(s: Store)
    requires Invariant(s) && Enabled(s, RecklessSwap)
    ensures View(SwappedOut(s)) == Live(Combined(s.tables) + s.active)
    ensures !s.flush.Failed? ==> View(SwappedOut(s)) == View(s)
  {
    hide Live, Combined;
    var c := Combined(s.tables);
    assert c + map[] == c;
    assert c + s.active + map[] == c + s.active;
  }

  /** No step, not even a crash, takes the next file number back, and the file added by a step gets the old one. */
  lemma NumbersOnlyGrow(s: Store, a: Action)
    requires Invariant(s) && Enabled(s, a)
    ensures Next(s, a).nextFileNumber >= s.nextFileNumber
    ensures a == Flush(AddToManifest) || a == Compact(AddOutput) ==>
      Next(s, a).nextFileNumber == s.nextFileNumber + 1 && |Next(s, a).manifest| == |s.manifest| + 1 &&
      Next(s, a).manifest[0].number == s.nextFileNumber
  {
    hide View, FilesInOrder;
    if a == Flush(AddToManifest) { AddToManifestKeeps(s); }
    if a == Compact(AddOutput) { AddOutputKeeps(s); }
  }

  /** In every run without a crash or a reckless swap, readers see the plain map, and no internal step changes what they see. */
  lemma {:induction false} ReadersSeeTheModel(actions: seq<Action>)
    requires Run(Initial(), actions).Some? && forall i :: 0 <= i < |actions| ==> !actions[i].Crash? && !actions[i].RecklessSwap?
    ensures Invariant(Run(Initial(), actions).value)
    ensures View(Run(Initial(), actions).value) == Run(Initial(), actions).value.model
  {
    if actions == [] {
      InitialKeeps();
    } else {
      ReadersSeeTheModel(actions[..|actions| - 1]);
      StepKeepsView(Run(Initial(), actions[..|actions| - 1]).value, actions[|actions| - 1]);
    }
  }

  lemma NothingCombined(files: seq<TableFile>)
    requires files == []
    ensures Combined(files) == map[]
  {
    assert TablesIn(files) == [];
  }

  lemma EmptyStore(s: Store)
    requires s.tables == [] && s.manifest == [] && s.stale == 0 && s.immutable == None && s.active == map[] && s.model == map[]
    requires s.flush.NotFlushing? && s.compaction.NotCompacting?
    ensures Invariant(s)
  {
    NothingCombined(s.tables);
    assert Current(s) == [] && Stale(s) == [];
    assert Live(s.active) == map[];
    assert View(s) == map[] by { assert Combined(s.tables) + ImmutableTable(s) + s.active == map[]; }
  }

  lemma InitialKeeps()
    ensures Invariant(Initial())
  {
    EmptyStore(Initial());
  }

  // ----- Recovery -----

  /** Doing these writes again on top of the table changes nothing, whatever lies below it. */
  ghost predicate Absorbs(t: Table, ops: seq<Operation>) {
    forall base: Table {:trigger Live(base + t)} :: Effects(ops, Live(base + t)) == Live(base + t)
  }

  lemma AbsorbsOwn(t: Table, ops: seq<Operation>)
    requires Represents(t, ops)
    ensures Absorbs(t, ops)
  {
    forall base: Table
      ensures Effects(ops, Live(base + t)) == Live(base + t)
    {
      EffectsTwice(ops, Live(base));
    }
  }

  /** What a table absorbs it absorbs from any point on. */
  lemma AbsorbsLater(t: Table, ops: seq<Operation>, n: nat)
    requires Absorbs(t, ops) && n <= |ops|
    ensures Absorbs(t, ops[n..])
  {
    forall base: Table
      ensures Effects(ops[n..], Live(base + t)) == Live(base + t)
    {
      assert ops == ops[..n] + ops[n..];
      EffectsConcat(ops[..n], ops[n..], Live(base + t));
      EffectsTwice(ops[n..], Effects(ops[..n], Live(base + t)));
    }
  }

  /**
   The log holds, in order, the writes of both memory tables and those in flight, and nothing
   else; once the flushed table is listed, the first of its writes may be gone.
   */
  ghost predicate Durable(s: Store) {
    Clean(s.log) && s.log == s.immutableOps + s.activeOps + s.inflight && Represents(s.active, s.activeOps) &&
    (if s.flush.Checkpointed? then s.immutableOps == []
     else if s.flush.Listed? then Absorbs(ImmutableTable(s), s.immutableOps)
     else Represents(ImmutableTable(s), s.immutableOps))
  }

  lemma InitialDurable()
    ensures Durable(Initial())
  {
    RepresentsNothing();
  }

  lemma Represented(t: Table, ops: seq<Operation>, base: Table)
    requires Represents(t, ops)
    ensures Live(base + t) == Effects(ops, Live(base))
  {
  }

  /** What the manifest's files show: what the readers show, with the table being flushed once it is listed. */
  lemma ManifestShows(s: Store)
    requires Invariant(s)
    ensures Live(Combined(s.manifest)) ==
      if s.flush.InManifest? then Live(Combined(s.tables) + s.flush.file.table) else Live(Combined(s.tables))
  {
    hide View, Live, Combined;
    SplitTables(s);
    NothingCombined([]);
    var current := Combined(Current(s));
    if s.flush.InManifest? {
      CombinedPush(s.flush.file, Current(s));
      LiveUnder(s.flush.file.table, current, Combined(s.tables));
    } else if s.compaction.OutputAdded? {
      CombinedPush(s.compaction.output, Current(s));
      OutputOverInputs(current, s.compaction.output.table);
    } else if s.compaction.InputsRemoved? {
      CombinedPush(s.compaction.output, []);
      assert [s.compaction.output] + [] == [s.compaction.output];
      assert map[] + s.compaction.output.table == s.compaction.output.table;
    }
  }

  /** A merge output on top of its own inputs shows the same: it has no tombstones, and all that is live. */
  lemma OutputOverInputs(inputs: Table, out: Table)
    requires Live(out) == Live(inputs)
    ensures Live(inputs + out) == Live(inputs)
  {
  }

  lemma FlushedOnce(s: Store)
    requires Invariant(s) && Durable(s) && !s.flush.Listed? && !s.flush.Checkpointed?
    ensures Effects(s.immutableOps, Live(Combined(s.manifest))) == Live(Combined(s.tables) + ImmutableTable(s))
  {
    ManifestShows(s);
    Represented(ImmutableTable(s), s.immutableOps, Combined(s.tables));
    EffectsTwice(s.immutableOps, Live(Combined(s.tables)));
  }

  lemma FlushedTwice(s: Store)
    requires Invariant(s) && Durable(s) && s.flush.Listed?
    ensures Effects(s.immutableOps, Live(Combined(s.tables))) == Live(Combined(s.tables) + ImmutableTable(s))
  {
    OnTopAlready(s.tables, ImmutableTable(s));
    assert Live(Combined(s.tables) + ImmutableTable(s)) == Live(Combined(s.tables));
  }

  /** Replaying the log over what the manifest shows gives the writes up to the flushed ones, whatever the flush has done. */
  lemma FlushedPart(s: Store)
    requires Invariant(s) && Durable(s)
    ensures Effects(s.immutableOps, Live(Combined(s.manifest))) == Live(Combined(s.tables) + ImmutableTable(s))
  {
    if s.flush.Listed? {
      ManifestShows(s);
      FlushedTwice(s);
    } else if s.flush.Checkpointed? {
      ManifestShows(s);
      OnTopAlready(s.tables, ImmutableTable(s));
    } else {
      FlushedOnce(s);
    }
  }

  lemma RecoveryIsExact(s: Store, now: nat)
    requires Invariant(s) && Durable(s)
    ensures View(Reopened(s, now)) == Effects(s.inflight, s.model)
  {
    hide Live, Combined, ReplayAll, FilesInOrder, FlushSound, CompactionSound;
    var base, m := Combined(s.manifest), Live(Combined(s.manifest));
    ReopenedSound(s, now);
    ReplayRepresents(s.log, now);
    Represented(ReplayAll(s.log, map[], now), s.log, base);
    EffectsConcat(s.immutableOps + s.activeOps, s.inflight, m);
    EffectsConcat(s.immutableOps, s.activeOps, m);
    FlushedPart(s);
    Represented(s.active, s.activeOps, Combined(s.tables) + ImmutableTable(s));
  }

  lemma ReopenedSound(s: Store, now: nat)
    requires Invariant(s)
    ensures var s' := Reopened(s, now);
      FilesInOrder(s') && FlushSound(s') && CompactionSound(s') && View(s') == Live(Combined(s.manifest) + s'.active)
  {
    hide Live, Combined, ReplayAll;
    var s' := Reopened(s, now);
    assert Current(s') == s.manifest && Stale(s') == [];
    NothingLive(Stale(s'));
    assert Combined(s.manifest) + map[] == Combined(s.manifest);
  }

  lemma NothingLive(files: seq<TableFile>)
    requires files == []
    ensures Live(Combined(files)) == map[]
  {
    NothingCombined(files);
  }

  lemma ReopenedDurable(s: Store, now: nat)
    requires Durable(s)
    ensures Durable(Reopened(s, now))
  {
    hide Represents, Effects;
    ReplayRepresents(s.log, now);
    RepresentsNothing();
    assert [] + s.log + [] == s.log;
  }

  lemma CrashKeeps(s: Store, now: nat)
    requires Invariant(s) && Durable(s)
    ensures Invariant(Reopened(s, now)) && Durable(Reopened(s, now))
  {
    hide View, FilesInOrder, FlushSound, CompactionSound, Durable;
    RecoveryIsExact(s, now);
    ReopenedSound(s, now);
    ReopenedDurable(s, now);
  }

  /**
   What durability asks of a step: no empty key is written, nothing is appended behind a torn
   record where replay would not find it, log files go oldest first, no record was logged
   between the swap and the checkpoint that drops the log, and no swap is reckless.
   */
  ghost predicate Careful(s: Store, a: Action) {
    match a
    case LogWrite(op, behind) => NoEmptyKey(op) && (s.torn ==> behind == s.log + [op])
    case TearLog(behind) => s.torn ==> behind == s.log
    case TakeReplicated(op, _, behind) => NoEmptyKey(op) && (s.torn ==> behind == s.log + [op])
    case RecklessSwap => false
    case Flush(f) => CarefulFlush(s, f)
    case _ => true
  }

  ghost predicate CarefulFlush(s: Store, a: FlushStep) {
    match a
    case DropLog(from, to) => from == 0 && to <= |s.immutableOps|
    case Checkpoint => s.activeOps == [] && s.inflight == []
    case _ => true
  }

  lemma SwapDurable(s: Store)
    requires Invariant(s) && Durable(s) && Enabled(s, Swap)
    ensures Durable(SwappedOut(s))
  {
    RepresentsNothing();
    forall base: Table
      ensures Live(base + s.active) == Effects(s.immutableOps + s.activeOps, Live(base))
    {
      Represented(map[], s.immutableOps, base);
      assert base + map[] == base;
      Represented(s.active, s.activeOps, base);
      EffectsConcat(s.immutableOps, s.activeOps, Live(base));
    }
    assert s.immutableOps + s.activeOps + [] == s.immutableOps + s.activeOps;
  }

  lemma ApplyDurable(s: Store, now: nat)
    requires Durable(s) && Enabled(s, ApplyWrite(now))
    ensures Durable(Applied(s, now))
  {
    RepresentsOneMore(s.active, s.activeOps, s.inflight[0], now);
    HeadAndTail(s.inflight);
    var s' := Applied(s, now);
    assert s'.immutableOps + s'.activeOps + s'.inflight == s.log;
  }

  lemma LogDurable(s: Store, op: Operation, behind: seq<Operation>)
    requires Durable(s) && NoEmptyKey(op) && LogAfter(s, op, behind) == s.log + [op]
    ensures Durable(Logged(s, op, behind))
  {
    hide Represents, Absorbs;
    Associative(s.immutableOps + s.activeOps, s.inflight, [op]);
  }

  lemma DropDurable(s: Store, to: nat)
    requires Durable(s) && FlushEnabled(s, DropLog(0, to)) && to <= |s.immutableOps|
    ensures Durable(LogCut(s, 0, to))
  {
    hide Represents, Absorbs, Effects;
    var s' := LogCut(s, 0, to);
    AbsorbsLater(ImmutableTable(s), s.immutableOps, to);
    assert s'.immutableOps == s.immutableOps[to..] && s'.activeOps == s.activeOps && s'.log == s.log[to..];
    assert s.log[to..] == s.immutableOps[to..] + s.activeOps + s.inflight;
  }

  lemma FlushDurable(s: Store, a: FlushStep)
    requires Invariant(s) && Durable(s) && FlushEnabled(s, a) && CarefulFlush(s, a)
    ensures Durable(FlushNext(s, a))
  {
    hide Represents, Absorbs, Effects, View, FilesInOrder, CompactionSound, LogCut;
    match a
    case DropLog(_, to) => DropDurable(s, to);
    case ListFile => AbsorbsOwn(ImmutableTable(s), s.immutableOps);
    case ClearImmutable => ClearDurable(s);
    case _ =>
  }

  lemma ClearDurable(s: Store)
    requires Durable(s) && FlushEnabled(s, ClearImmutable)
    ensures Durable(FlushNext(s, ClearImmutable))
  {
    hide Represents, Absorbs, Effects;
    RepresentsNothing();
  }

  lemma CompactionDurable(s: Store, a: CompactionStep)
    requires Durable(s) && CompactionEnabled(s, a)
    ensures Durable(CompactionNext(s, a))
  {
    var t := CompactionNext(s, a);
    assert t.log == s.log && t.active == s.active && t.immutable == s.immutable && t.flush == s.flush;
    assert t.immutableOps == s.immutableOps && t.activeOps == s.activeOps && t.inflight == s.inflight;
  }

  lemma ReplicatedDurable(s: Store, op: Operation, now: nat, behind: seq<Operation>)
    requires Durable(s) && s.inflight == [] && NoEmptyKey(op) && LogAfter(s, op, behind) == s.log + [op]
    ensures Durable(Replicated(s, op, now, behind))
  {
    hide Absorbs, Effects;
    RepresentsReplayed(s.active, s.activeOps, op, now);
    var s' := Replicated(s, op, now, behind);
    assert s'.immutableOps + s'.activeOps + s'.inflight == s.log + [op];
  }

  lemma TornDurable(s: Store, behind: seq<Operation>)
    requires Durable(s) && (s.torn ==> behind == s.log)
    ensures Durable(Torn(s, behind))
  {
    hide Represents, Absorbs;
  }

  lemma StepKeepsDurable(s: Store, a: Action)
    requires Invariant(s) && Durable(s) && Enabled(s, a) && Careful(s, a)
    ensures Durable(Next(s, a))
  {
    hide Invariant, Durable, FlushNext, CompactionNext;
    match a
    case LogWrite(op, behind) => LogDurable(s, op, behind);
    case TearLog(behind) => TornDurable(s, behind);
    case ApplyWrite(now) => ApplyDurable(s, now);
    case TakeReplicated(op, now, behind) => ReplicatedDurable(s, op, now, behind);
    case Swap => SwapDurable(s);
    case Flush(f) => FlushDurable(s, f);
    case Compact(c) => CompactionDurable(s, c);
    case Crash(now) => CrashKeeps(s, now);
  }

  /** Every step of the run was careful. */
  ghost predicate CarefulRun(s: Store, actions: seq<Action>) {
    actions == [] ||
    (var before := Run(s, actions[..|actions| - 1]);
     CarefulRun(s, actions[..|actions| - 1]) && before.Some? && Careful(before.value, actions[|actions| - 1]))
  }

  /**
   In every careful run with any number of crashes anywhere, in the middle of an append too, no
   acknowledged write is lost and none comes back.
   */
  lemma {:induction false} CrashesLoseNothing(actions: seq<Action>)
    requires Run(Initial(), actions).Some? && CarefulRun(Initial(), actions)
    ensures Invariant(Run(Initial(), actions).value) && Durable(Run(Initial(), actions).value)
    ensures View(Run(Initial(), actions).value) == Run(Initial(), actions).value.model
  {
    if actions == [] {
      InitialKeeps();
      InitialDurable();
    } else {
      CrashesLoseNothing(actions[..|actions| - 1]);
      var s, a := Run(Initial(), actions[..|actions| - 1]).value, actions[|actions| - 1];
      StepKeepsDurable(s, a);
      if a.Crash? {
        CrashKeeps(s, a.now);
      } else {
        StepKeepsView(s, a);
      }
    }
  }

  // ----- What a checkpoint forgets -----

  lemma ListedTableShows(s: Store)
    requires Invariant(s) && s.flush.Listed?
    ensures Live(Combined(s.manifest)) == Live(Combined(s.tables) + ImmutableTable(s))
  {
    hide Live, Combined, View;
    ManifestShows(s);
    OnTopAlready(s.tables, ImmutableTable(s));
  }

  lemma CheckpointForgets(s: Store, now: nat)
    requires Invariant(s) && FlushEnabled(s, Checkpoint)
    ensures View(Reopened(FlushNext(s, Checkpoint), now)) == Live(Combined(s.tables) + ImmutableTable(s))
  {
    hide Live, Combined, View, Invariant, FilesInOrder, FlushSound, CompactionSound;
    LogDropKeeps(s, Checkpoint);
    ReopenedSound(FlushNext(s, Checkpoint), now);
    ListedTableShows(s);
    assert Combined(s.manifest) + map[] == Combined(s.manifest);
  }

  /** So a crash then is harmless exactly if the writes since the swap, done again, would change nothing there. */
  lemma CheckpointIsSafeExactlyWhen(s: Store, now: nat)
    requires Invariant(s) && Durable(s) && FlushEnabled(s, Checkpoint)
    ensures var base := Live(Combined(s.tables) + ImmutableTable(s));
      View(Reopened(FlushNext(s, Checkpoint), now)) == Effects(s.inflight, s.model) <==> Effects(s.activeOps + s.inflight, base) == base
  {
    CheckpointForgets(s, now);
    var base := Combined(s.tables) + ImmutableTable(s);
    Represented(s.active, s.activeOps, base);
    EffectsConcat(s.activeOps, s.inflight, Live(base));
  }

  /** What a crash finds after log files have gone: the records that are left, done on what the manifest shows. */
  lemma ReopenedAfterDrop(s: Store, from: nat, to: nat, now: nat)
    requires Invariant(s) && Durable(s) && FlushEnabled(s, DropLog(from, to))
    ensures View(Reopened(LogCut(s, from, to), now)) == Effects(Cut(s.log, from, to), Live(Combined(s.manifest)))
  {
    hide Live, Combined, ReplayAll, FilesInOrder, FlushSound, CompactionSound;
    var t := LogCut(s, from, to);
    LogDropKeeps(s, DropLog(from, to));
    ReopenedSound(t, now);
    ReplayRepresents(t.log, now);
    Represented(ReplayAll(t.log, map[], now), t.log, Combined(s.manifest));
  }

  /** Leaving some records out makes no difference exactly if they change only keys that are written again later. */
  lemma WithoutRecords(log: seq<Operation>, from: nat, to: nat, m: map<Key, Bytes>)
    requires from <= to <= |log|
    ensures var later := AllTouched(log[to..]);
      Effects(log[..from] + log[to..], m) == Effects(log, m) <==> Effects(log[..to], m) - later == Effects(log[..from], m) - later
  {
    var a, b, rest := Effects(log[..from], m), Effects(log[..to], m), log[to..];
    var t := AllTouched(rest);
    EffectsConcat(log[..from], rest, m);
    EffectsConcat(log[..to], rest, m);
    assert log == log[..to] + rest;
    assert t + {} == t;
    EffectsLocal(rest, a, a, {});
    EffectsLocal(rest, b, b, {});
    if a - t == b - t {
      EffectsLocal(rest, a, b, {});
      assert Effects(rest, a) - {} == Effects(rest, a) && Effects(rest, b) - {} == Effects(rest, b);
    }
  }

  /**
   So deleting a log file, and crashing then, is harmless exactly if its records, done after those
   before them, change only keys that the files behind it write again.
   */
  lemma DropIsSafeExactlyWhen(s: Store, from: nat, to: nat, now: nat)
    requires Invariant(s) && Durable(s) && FlushEnabled(s, DropLog(from, to))
    ensures var (m, later) := (Live(Combined(s.manifest)), AllTouched(s.log[to..]));
      View(Reopened(LogCut(s, from, to), now)) == Effects(s.inflight, s.model) <==>
      Effects(s.log[..to], m) - later == Effects(s.log[..from], m) - later
  {
    hide View, Reopened, LogCut, Invariant, Live, Combined, Effects, AllTouched;
    ReopenedAfterDrop(s, from, to, now);
    RecoveryIsExact(s, now);
    ReopenedAfterDrop(s, 0, 0, now);
    NothingCut(s);
    WithoutRecords(s.log, from, to, Live(Combined(s.manifest)));
  }

  /** Oldest first is harmless as long as only records of the flushed table go. */
  lemma OldestFirstIsSafe(s: Store, to: nat, now: nat)
    requires Invariant(s) && Durable(s) && FlushEnabled(s, DropLog(0, to)) && to <= |s.immutableOps|
    ensures View(Reopened(LogCut(s, 0, to), now)) == Effects(s.inflight, s.model)
  {
    hide View, Reopened, LogCut, Invariant, Effects, Durable;
    DropDurable(s, to);
    LogDropKeeps(s, DropLog(0, to));
    RecoveryIsExact(LogCut(s, 0, to), now);
    assert LogCut(s, 0, to).inflight == s.inflight && LogCut(s, 0, to).model == s.model by { CutKeepsTheRest(s, to); }
  }

  lemma CutKeepsTheRest(s: Store, to: nat)
    ensures LogCut(s, 0, to).inflight == s.inflight && LogCut(s, 0, to).model == s.model
  {
  }

  /** A write whose record stands behind a torn one, where replay does not find it, is gone after the next crash. */
  lemma BehindTornIsLost(s: Store, op: Operation, now: nat)
    requires Invariant(s) && Durable(s) && s.torn && s.inflight == []
    ensures var t := Applied(Logged(s, op, s.log), now);
      View(t) == Effect(op, s.model) && View(Reopened(t, now)) == s.model
  {
    hide View, Live, Combined, ReplayAll, FilesInOrder, FlushSound, CompactionSound, Stored, Effect;
    var u := Logged(s, op, s.log);
    LogKeeps(s, op, s.log);
    ApplyKeeps(u, now);
    ReopenedSound(s, now);
    ReopenedSound(Applied(u, now), now);
    RecoveryIsExact(s, now);
    assert Effects(s.inflight, s.model) == s.model;
  }

  lemma NothingCut(s: Store)
    ensures LogCut(s, 0, 0) == s && Cut(s.log, 0, 0) == s.log
  {
  }

  // ----- Runs in which something goes wrong -----

  /** A write from its record to its table. */
  function WriteOne(k: Key, v: Bytes): seq<Action> {
    [LogWrite(Put(k, v), [])] + [ApplyWrite(0)]
  }

  /** A run up to the point where the table of the first write is listed but the log not yet dropped. */
  function FlushOne(k: Key, v: Bytes): seq<Action> {
    WriteOne(k, v) + UpToListing()
  }

  function UpToListing(): seq<Action> {
    [Swap] + [Flush(BuildFile)] + [Flush(AddToManifest)] + [Flush(ListFile)]
  }

  lemma RunOneMore(s: Store, actions: seq<Action>, a: Action)
    requires Run(s, actions).Some? && Enabled(Run(s, actions).value, a)
    ensures Run(s, actions + [a]) == Some(Next(Run(s, actions).value, a))
  {
    assert (actions + [a])[..|actions|] == actions;
  }

  lemma NothingRuns(s: Store)
    ensures Run(s, []) == Some(s)
  {
  }

  lemma InitialWrites()
    ensures var s := Initial();
      Invariant(s) && s.inflight == [] && !s.torn && s.log == [] && s.model == map[] && Enabled(s, Swap) && Durable(s)
  {
    hide Invariant, Durable;
    InitialKeeps();
    InitialDurable();
  }

  /** One more write, at any point at which none is in flight; `behind` matters only behind a torn record. */
  lemma WriteRuns(before: seq<Action>, k: Key, v: Bytes, behind: seq<Operation>)
    requires Run(Initial(), before).Some? && Invariant(Run(Initial(), before).value) && Run(Initial(), before).value.inflight == []
    ensures var s, r := Run(Initial(), before).value, Run(Initial(), before + [LogWrite(Put(k, v), behind)] + [ApplyWrite(0)]);
      r.Some? && r.value == Applied(Logged(s, Put(k, v), behind), 0) && Invariant(r.value) && r.value.model == s.model[k := v] &&
      SameFiles(s, r.value) && r.value.inflight == [] && r.value.active != map[] && r.value.torn == s.torn &&
      r.value.log == LogAfter(s, Put(k, v), behind)
  {
    hide Invariant, View, Run;
    var s, put := Run(Initial(), before).value, LogWrite(Put(k, v), behind);
    RunOneMore(Initial(), before, put);
    StepKeepsView(s, put);
    RunOneMore(Initial(), before + [put], ApplyWrite(0));
    StepKeepsView(Next(s, put), ApplyWrite(0));
    assert k in Next(Next(s, put), ApplyWrite(0)).active;
  }

  lemma FirstWrite(k: Key, v: Bytes)
    ensures var r := Run(Initial(), WriteOne(k, v));
      r.Some? && Invariant(r.value) && Enabled(r.value, Swap) && r.value.inflight == [] && r.value.model == map[k := v] &&
      r.value.active != map[] && r.value.log == [Put(k, v)] && !r.value.torn && (k != [] ==> Durable(r.value))
  {
    hide Invariant, View, Run, Durable;
    InitialWrites();
    NothingRuns(Initial());
    WriteRuns([], k, v, []);
    assert [] + [LogWrite(Put(k, v), [])] == [LogWrite(Put(k, v), [])];
    if k != [] {
      LogDurable(Initial(), Put(k, v), []);
      ApplyDurable(Logged(Initial(), Put(k, v), []), 0);
    }
  }

  /** The flush steps after a swap of a table that is not empty. */
  lemma FlushRuns(before: seq<Action>)
    requires Run(Initial(), before).Some?
    requires var s := Run(Initial(), before).value; Invariant(s) && Enabled(s, Swap) && s.active != map[]
    ensures var s, r := Run(Initial(), before).value, Run(Initial(), before + UpToListing());
      r.Some? && Invariant(r.value) && r.value.flush.Listed? && r.value.active == map[] && r.value.inflight == s.inflight &&
      r.value.model == s.model && r.value.log == s.log && r.value.torn == s.torn && (Durable(s) ==> Durable(r.value))
  {
    hide Invariant, View, Run, Durable;
    var s := Run(Initial(), before).value;
    RunOneMore(Initial(), before, Swap);
    StepKeepsView(s, Swap);
    var t := Next(s, Swap);
    RunOneMore(Initial(), before + [Swap], Flush(BuildFile));
    StepKeepsView(t, Flush(BuildFile));
    var u := Next(t, Flush(BuildFile));
    RunOneMore(Initial(), before + [Swap] + [Flush(BuildFile)], Flush(AddToManifest));
    StepKeepsView(u, Flush(AddToManifest));
    var w := Next(u, Flush(AddToManifest));
    RunOneMore(Initial(), before + [Swap] + [Flush(BuildFile)] + [Flush(AddToManifest)], Flush(ListFile));
    StepKeepsView(w, Flush(ListFile));
    if Durable(s) {
      SwapDurable(s);
      FlushDurable(t, BuildFile);
      FlushDurable(u, AddToManifest);
      FlushDurable(w, ListFile);
    }
    assert before + UpToListing() == before + [Swap] + [Flush(BuildFile)] + [Flush(AddToManifest)] + [Flush(ListFile)];
  }

  lemma FlushOneRuns(k: Key, v: Bytes)
    ensures var r := Run(Initial(), FlushOne(k, v));
      r.Some? && Invariant(r.value) && r.value.flush.Listed? && r.value.active == map[] && r.value.inflight == [] &&
      r.value.model == map[k := v] && r.value.log == [Put(k, v)] && !r.value.torn && (k != [] ==> Durable(r.value))
  {
    hide Invariant, View, Run, Durable, WriteOne, UpToListing;
    FirstWrite(k, v);
    FlushRuns(WriteOne(k, v));
  }

  /** A write between the swap and the checkpoint can be lost in a crash, although it was acknowledged. */
  lemma WriteDuringFlushCanBeLost(j: Key, k: Key, v: Bytes)
    requires j != k
    ensures var actions := FlushOne(j, v) + [LogWrite(Put(k, v), [])] + [ApplyWrite(0)] + [Flush(Checkpoint)];
      var r := Run(Initial(), actions);
      r.Some? && k in r.value.model && k in View(r.value) && k !in View(Reopened(r.value, 0))
  {
    hide Invariant, Run, Combined, FlushOne, Durable;
    FlushOneRuns(j, v);
    var s := Run(Initial(), FlushOne(j, v)).value;
    WriteRuns(FlushOne(j, v), k, v, []);
    var actions := FlushOne(j, v) + [LogWrite(Put(k, v), [])] + [ApplyWrite(0)];
    var u := Run(Initial(), actions).value;
    RunOneMore(Initial(), actions, Flush(Checkpoint));
    StepKeepsView(u, Flush(Checkpoint));
    CheckpointForgets(u, 0);
    ViewIsModel(s);
    ViewIsModel(u);
    var under := Combined(s.tables) + ImmutableTable(s);
    assert under + map[] == under;
  }

  /** A crash once the log is rotated and before the first file is deleted, which leaves two files. */
  function CrashWithTwoLogs(k: Key, v: Bytes): seq<Action> {
    FlushOne(k, v) + [Flush(RotateLog)] + [Crash(0)]
  }

  /** The key is written again and flushed, up to the deletion of the log files. */
  function RewriteAndFlush(k: Key, v: Bytes, w: Bytes): seq<Action> {
    CrashWithTwoLogs(k, v) + [LogWrite(Put(k, w), [])] + [ApplyWrite(0)] + UpToListing() + [Flush(RotateLog)]
  }

  lemma CrashRuns(k: Key, v: Bytes)
    requires k != []
    ensures var r := Run(Initial(), CrashWithTwoLogs(k, v));
      r.Some? && Invariant(r.value) && Durable(r.value) && Enabled(r.value, Swap) && r.value.inflight == [] && !r.value.torn &&
      r.value.log == [Put(k, v)] && r.value.model == map[k := v]
  {
    hide Invariant, View, Run, Durable, FlushOne;
    FlushOneRuns(k, v);
    var s := Run(Initial(), FlushOne(k, v)).value;
    RunOneMore(Initial(), FlushOne(k, v), Flush(RotateLog));
    LogDropKeeps(s, RotateLog);
    FlushDurable(s, RotateLog);
    var t := Next(s, Flush(RotateLog));
    RunOneMore(Initial(), FlushOne(k, v) + [Flush(RotateLog)], Crash(0));
    CrashKeeps(t, 0);
    NothingDone(t.inflight, t.model);
  }

  lemma NothingDone(ops: seq<Operation>, m: map<Key, Bytes>)
    ensures ops == [] ==> Effects(ops, m) == m
  {
  }

  /** When the later of two log files goes before the earlier one, a crash in between brings an overwritten value back. */
  lemma LaterLogFirstRevives(k: Key, v: Bytes, w: Bytes)
    requires k != []
    ensures var r := Run(Initial(), RewriteAndFlush(k, v, w) + [Flush(DropLog(1, 2))]);
      r.Some? && View(r.value) == map[k := w] && k in View(Reopened(r.value, 0)) && View(Reopened(r.value, 0))[k] == v
  {
    hide Invariant, View, Reopened, Run, Durable, CrashWithTwoLogs, UpToListing;
    CrashRuns(k, v);
    var crashed := CrashWithTwoLogs(k, v);
    WriteRuns(crashed, k, w, []);
    var written := crashed + [LogWrite(Put(k, w), [])] + [ApplyWrite(0)];
    FlushRuns(written);
    var s := Run(Initial(), written + UpToListing()).value;
    RunOneMore(Initial(), written + UpToListing(), Flush(RotateLog));
    LogDropKeeps(s, RotateLog);
    var t := Next(s, Flush(RotateLog));
    RunOneMore(Initial(), RewriteAndFlush(k, v, w), Flush(DropLog(1, 2)));
    LogDropKeeps(t, DropLog(1, 2));
    ViewIsModel(t);
    RevivedBy(t, k, v, w);
  }

  /** A write, a crash in the middle of the next one, and a write behind what that one left of its record. */
  function WriteBehindTorn(j: Key, v: Bytes, k: Key, w: Bytes): seq<Action> {
    WriteOne(j, v) + [TearLog([])] + [Crash(0)] + [LogWrite(Put(k, w), [Put(j, v)])] + [ApplyWrite(0)]
  }

  /** The second write is acknowledged, and lost in the next crash. */
  lemma TornLogLosesWrites(j: Key, v: Bytes, k: Key, w: Bytes)
    requires j != [] && j != k
    ensures var r := Run(Initial(), WriteBehindTorn(j, v, k, w));
      r.Some? && View(r.value) == map[j := v, k := w] && View(Reopened(r.value, 0)) == map[j := v]
  {
    hide Invariant, View, Run, Durable, WriteOne, Reopened;
    FirstWrite(j, v);
    var s := Run(Initial(), WriteOne(j, v)).value;
    RunOneMore(Initial(), WriteOne(j, v), TearLog([]));
    LogKeeps(s, Delete([]), []);
    TornDurable(s, []);
    var t := Next(s, TearLog([]));
    RunOneMore(Initial(), WriteOne(j, v) + [TearLog([])], Crash(0));
    CrashKeeps(t, 0);
    TornStaysTorn(t, 0);
    var u := Reopened(t, 0);
    NothingDone(t.inflight, t.model);
    WriteRuns(WriteOne(j, v) + [TearLog([])] + [Crash(0)], k, w, [Put(j, v)]);
    BehindTornIsLost(u, Put(k, w), 0);
  }

  lemma TornStaysTorn(s: Store, now: nat)
    ensures var t := Reopened(s, now); t.torn == s.torn && t.log == s.log && t.inflight == [] && t.model == Effects(s.inflight, s.model)
  {
  }

  /** A flush that fails, a write, and the next swap. */
  function SwapAfterFailure(j: Key, v: Bytes, k: Key, w: Bytes): seq<Action> {
    WriteOne(j, v) + [Swap] + [Flush(FailFlush)] + [LogWrite(Put(k, w), [])] + [ApplyWrite(0)] + [RecklessSwap]
  }

  /** The write before the failure is acknowledged, and readers no longer see it. */
  lemma FailedFlushIsOverwritten(j: Key, v: Bytes, k: Key, w: Bytes)
    requires j != k
    ensures var r := Run(Initial(), SwapAfterFailure(j, v, k, w));
      r.Some? && r.value.model == map[j := v, k := w] && j !in View(r.value)
  {
    hide Invariant, View, Run, Durable, Stored;
    InitialWrites();
    NothingRuns(Initial());
    WriteRuns([], j, v, []);
    assert [] + [LogWrite(Put(j, v), [])] == [LogWrite(Put(j, v), [])];
    var s := Run(Initial(), WriteOne(j, v)).value;
    RunOneMore(Initial(), WriteOne(j, v), Swap);
    StepKeepsView(s, Swap);
    var t := Next(s, Swap);
    RunOneMore(Initial(), WriteOne(j, v) + [Swap], Flush(FailFlush));
    LogDropKeeps(t, FailFlush);
    WriteRuns(WriteOne(j, v) + [Swap] + [Flush(FailFlush)], k, w, []);
    var before := WriteOne(j, v) + [Swap] + [Flush(FailFlush)] + [LogWrite(Put(k, w), [])] + [ApplyWrite(0)];
    var u := Run(Initial(), before).value;
    RunOneMore(Initial(), before, RecklessSwap);
    RecklessSwapShows(u);
    OnlyTheLastWrite(u, k, w);
  }

  lemma OnlyTheLastWrite(u: Store, k: Key, w: Bytes)
    requires u.tables == [] && u.active == Stored(Put(k, w), map[], 0)
    ensures Live(Combined(u.tables) + u.active) == map[k := w]
  {
    NothingCombined(u.tables);
  }

  lemma ViewIsModel(s: Store)
    requires Invariant(s)
    ensures View(s) == s.model
  {
  }

  lemma ReplayOne(op: Operation, now: nat)
    ensures ReplayAll([op], map[], now) == Stored(Replayable(op), map[], now)
  {
    var one := [op];
    assert one[..|one| - 1] == [];
  }

  lemma RevivedBy(s: Store, k: Key, v: Bytes, w: Bytes)
    requires s.log == [Put(k, v)] + [Put(k, w)] && k != []
    ensures var t := Reopened(LogCut(s, 1, 2), 0); k in View(t) && View(t)[k] == v
  {
    hide Combined, ReplayAll;
    assert LogCut(s, 1, 2).log == [Put(k, v)];
    ReplayOne(Put(k, v), 0);
  }
}
