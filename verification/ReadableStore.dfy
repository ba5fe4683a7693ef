/**
 Which writes can be read back from table files: those whose entries the read windows cover.
 If only such are written, everything in every state of the store can be read.
 */
module ReadableStores {
  import opened Keys
  import opened Buffers
  import opened LogEntries
  import opened SortedEntries
  import opened Sequences
  import opened SSTableFormat
  import opened SSTableLayout
  import opened StoreMachine
  import opened Tables
  import opened WriteEffects

  /** An entry with this key and value is covered, whatever its time stamp. */
  ghost predicate CoveredPair(k: Key, v: Bytes) {
    Covered(Pair(k, Version(v, 0, false)))
  }

  ghost predicate CoveredOp(op: Operation) {
    match op
    case Put(k, v) => CoveredPair(k, v)
    case Delete(k) => CoveredPair(k, [])
    case BatchPut(ks, vs) => forall i :: 0 <= i < |ks| && i < |vs| ==> CoveredPair(ks[i], vs[i])
  }

  ghost predicate CoveredOps(ops: seq<Operation>) {
    forall i :: 0 <= i < |ops| ==> CoveredOp(ops[i])
  }

  ghost predicate CoveredTable(t: Table) {
    forall k :: k in t ==> CoveredPair(k, t[k].value)
  }

  ghost predicate CoveredFiles(files: seq<TableFile>) {
    forall i :: 0 <= i < |files| ==> CoveredTable(files[i].table)
  }

  ghost predicate CoveredFlush(phase: FlushPhase) {
    phase.FileBuilt? || phase.InManifest? ==> CoveredTable(phase.file.table)
  }

  ghost predicate CoveredCompaction(phase: CompactionPhase) {
    phase.OutputBuilt? || phase.OutputAdded? || phase.InputsRemoved? ==> CoveredTable(phase.output.table)
  }

  /** Whatever is in a table, in a file, on its way into one, or in the log. */
  ghost predicate Readable(s: Store) {
    CoveredTable(s.active) && CoveredTable(ImmutableTable(s)) && CoveredFiles(s.tables) && CoveredFiles(s.manifest) &&
    CoveredFiles(s.inputs) && CoveredFlush(s.flush) && CoveredCompaction(s.compaction) && CoveredOps(s.log) && CoveredOps(s.inflight)
  }

  /** A key that starts with a printable ASCII byte, and a value of less than half a gigabyte. */
  predicate Printable(k: Key, v: Bytes) {
    0 < |k| < 0x1_0000 && 0x20 <= k[0] <= 0x7E && |v| < 0x2000_0000
  }

  lemma PrintablePairs(k: Key, v: Bytes)
    ensures Printable(k, v) ==> CoveredPair(k, v)
  {
    if Printable(k, v) {
      PrintableIsCovered(Pair(k, Version(v, 0, false)));
    }
  }

  /** Such writes can be read back. */
  lemma PrintableOps(op: Operation)
    requires match op
      case Put(k, v) => Printable(k, v)
      case Delete(k) => Printable(k, [])
      case BatchPut(ks, vs) => forall i :: 0 <= i < |ks| && i < |vs| ==> Printable(ks[i], vs[i])
    ensures CoveredOp(op)
  {
    hide Printable, CoveredPair;
    match op
    case Put(k, v) => PrintablePairs(k, v);
    case Delete(k) => PrintablePairs(k, []);
    case BatchPut(ks, vs) =>
      forall i | 0 <= i < |ks| && i < |vs|
        ensures CoveredPair(ks[i], vs[i])
      {
        PrintablePairs(ks[i], vs[i]);
      }
  }

  // ----- Every step keeps it -----

  lemma {:induction false} StoreAllCovered(ks: seq<Key>, vs: seq<Bytes>, t: Table, now: nat)
    requires CoveredTable(t) && CoveredOp(BatchPut(ks, vs))
    ensures CoveredTable(StoreAll(ks, vs, t, now))
  {
    hide CoveredPair;
    if ks != [] && vs != [] {
      assert CoveredOp(BatchPut(ks[1..], vs[1..])) by {
        forall i | 0 <= i < |ks[1..]| && i < |vs[1..]| ensures CoveredPair(ks[1..][i], vs[1..][i]) {
          assert CoveredPair(ks[i + 1], vs[i + 1]);
        }
      }
      assert CoveredPair(ks[0], vs[0]);
      StoreAllCovered(ks[1..], vs[1..], t[ks[0] := Version(vs[0], now, false)], now);
    }
  }

  lemma StoredCovered(op: Operation, t: Table, now: nat)
    requires CoveredTable(t) && CoveredOp(op)
    ensures CoveredTable(Stored(op, t, now))
  {
    hide CoveredPair;
    if op.BatchPut? { StoreAllCovered(op.keys, op.values, t, now); }
  }

  lemma {:induction false} NonEmptyKeysCovered(ks: seq<Key>, vs: seq<Bytes>)
    requires CoveredOp(BatchPut(ks, vs))
    ensures var (ks', vs') := NonEmptyKeys(ks, vs); CoveredOp(BatchPut(ks', vs'))
  {
    hide CoveredPair;
    if ks != [] && vs != [] {
      assert CoveredOp(BatchPut(ks[1..], vs[1..])) by {
        forall i | 0 <= i < |ks[1..]| && i < |vs[1..]| ensures CoveredPair(ks[1..][i], vs[1..][i]) {
          assert CoveredPair(ks[i + 1], vs[i + 1]);
        }
      }
      assert CoveredPair(ks[0], vs[0]);
      NonEmptyKeysCovered(ks[1..], vs[1..]);
    }
  }

  lemma ReplayableCovered(op: Operation)
    requires CoveredOp(op)
    ensures CoveredOp(Replayable(op))
  {
    hide CoveredPair;
    if op.BatchPut? { NonEmptyKeysCovered(op.keys, op.values); }
  }

  lemma {:induction false} ReplayAllCovered(ops: seq<Operation>, t: Table, now: nat)
    requires CoveredTable(t) && CoveredOps(ops)
    ensures CoveredTable(ReplayAll(ops, t, now))
  {
    hide CoveredOp, CoveredTable;
    if ops != [] {
      ReplayAllCovered(ops[..|ops| - 1], t, now);
      ReplayableCovered(ops[|ops| - 1]);
      StoredCovered(Replayable(ops[|ops| - 1]), ReplayAll(ops[..|ops| - 1], t, now), now);
    }
  }

  lemma MergedCovered(inputs: seq<TableFile>, now: nat)
    requires CoveredFiles(inputs)
    ensures CoveredTable(Merged(inputs, now))
  {
    hide CoveredPair;
    forall k | k in Merged(inputs, now)
      ensures CoveredPair(k, Merged(inputs, now)[k].value)
    {
      var i := OverlayFrom(TablesIn(inputs), k);
      assert CoveredTable(inputs[i].table);
    }
  }

  lemma FlushReadable(s: Store, a: FlushStep)
    requires Invariant(s) && Readable(s) && FlushEnabled(s, a)
    ensures Readable(FlushNext(s, a))
  {
    hide CoveredOp, CoveredTable, Invariant, View;
    match a
    case AddToManifest => AddToManifestKeeps(s);
    case ClearImmutable => NothingCovered();
    case _ =>
  }

  lemma NothingCovered()
    ensures CoveredTable(map[])
  {
  }

  lemma CompactionReadable(s: Store, a: CompactionStep)
    requires Invariant(s) && Readable(s) && CompactionEnabled(s, a)
    ensures Readable(CompactionNext(s, a))
  {
    hide CoveredOp, CoveredTable, Invariant, View, Merged;
    match a
    case StartCompaction =>
    case BuildOutput(now) => MergedCovered(s.inputs, now);
    case DropInputs => DropInputsKeeps(s);
    case Abandon =>
    case AddOutput => AddOutputKeeps(s);
    case RemoveInputs => RemoveInputsKeeps(s);
    case SwitchReaders =>
      StaleAreTables(s);
      SwitchReadersKeeps(s);
  }

  lemma StaleAreTables(s: Store)
    requires Invariant(s)
    ensures s.stale <= |s.tables| && Stale(s) == s.tables[|s.tables| - s.stale..]
  {
  }

  lemma CrashReadable(s: Store, now: nat)
    requires Readable(s)
    ensures Readable(Reopened(s, now))
  {
    hide CoveredOp, CoveredTable, Effects;
    NothingCovered();
    ReplayAllCovered(s.log, map[], now);
  }

  /** What is written is covered, and what replay finds behind a torn record is. */
  ghost predicate CoveredAction(a: Action) {
    match a
    case LogWrite(op, behind) => CoveredOp(op) && CoveredOps(behind)
    case TearLog(behind) => CoveredOps(behind)
    case TakeReplicated(op, _, behind) => CoveredOp(op) && CoveredOps(behind)
    case _ => true
  }

  lemma WriteReadable(s: Store, a: Action)
    requires Readable(s) && Enabled(s, a) && CoveredAction(a) && !a.Flush? && !a.Compact? && !a.Crash?
    ensures Readable(Next(s, a))
  {
    hide CoveredOp, CoveredTable, Effect, Stored;
    match a
    case LogWrite(op, behind) =>
    case TearLog(behind) =>
    case ApplyWrite(now) => StoredCovered(s.inflight[0], s.active, now);
    case TakeReplicated(op, now, behind) =>
      ReplayableCovered(op);
      StoredCovered(Replayable(op), s.active, now);
    case Swap => NothingCovered();
    case RecklessSwap => NothingCovered();
  }

  lemma StepReadable(s: Store, a: Action)
    requires Invariant(s) && Readable(s) && Enabled(s, a) && CoveredAction(a)
    ensures Readable(Next(s, a))
  {
    hide Readable, CoveredAction, Invariant, FlushNext, CompactionNext;
    match a
    case Flush(f) => FlushReadable(s, f);
    case Compact(c) => CompactionReadable(s, c);
    case Crash(now) => CrashReadable(s, now);
    case LogWrite(_, _) => WriteReadable(s, a);
    case TearLog(_) => WriteReadable(s, a);
    case ApplyWrite(_) => WriteReadable(s, a);
    case TakeReplicated(_, _, _) => WriteReadable(s, a);
    case Swap => WriteReadable(s, a);
    case RecklessSwap => WriteReadable(s, a);
  }

  /** In every careful run in which only covered pairs are written, everything can be read. */
  lemma {:induction false} RunsAreReadable(actions: seq<Action>)
    requires Run(Initial(), actions).Some? && CarefulRun(Initial(), actions)
    requires forall i :: 0 <= i < |actions| ==> CoveredAction(actions[i])
    ensures Readable(Run(Initial(), actions).value)
  {
    hide Readable, CoveredAction, Invariant, Durable, View;
    if actions == [] {
      NothingReadable(Initial());
    } else {
      var before, a := actions[..|actions| - 1], actions[|actions| - 1];
      RunsAreReadable(before);
      CrashesLoseNothing(before);
      StepReadable(Run(Initial(), before).value, a);
    }
  }

  lemma NothingReadable(s: Store)
    requires s.active == map[] && s.immutable.None? && s.tables == [] && s.manifest == [] && s.inputs == []
    requires s.flush.NotFlushing? && s.compaction.NotCompacting? && s.log == [] && s.inflight == []
    ensures Readable(s)
  {
  }
}
