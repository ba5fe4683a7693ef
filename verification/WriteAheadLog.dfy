/**
 The files of the write-ahead log: appending to the newest, replaying all of them, and the
 checkpoint that starts a new one and deletes the others.  The newest file may end in a part
 of a record.
 */
module WriteAheadLogs {
  import opened Wrappers
  import opened Keys
  import opened LogEntries
  import opened Sequences
  import opened WalFormat

  // ----- What files hold -----

  /** What replay finds in files, oldest first. */
  ghost function ReadBack(files: seq<Bytes>): seq<LogEntry> {
    if files == [] then [] else ReadBack(files[..|files| - 1]) + Replayed(files[|files| - 1])
  }

  ghost function OperationsIn(logs: seq<seq<LogEntry>>): seq<Operation> {
    if logs == [] then [] else OperationsIn(logs[..|logs| - 1]) + Operations(logs[|logs| - 1])
  }

  /** Each file is what appending its entries made. */
  ghost predicate Hold(files: seq<Bytes>, logs: seq<seq<LogEntry>>) {
    |files| == |logs| && forall i :: 0 <= i < |files| ==> AllStorable(logs[i]) && files[i] == LogBytes(logs[i])
  }

  /** The file ends with a whole record: it is what appending the entries that replay finds makes. */
  ghost predicate Whole(file: Bytes) {
    AllStorable(Replayed(file)) && file == LogBytes(Replayed(file))
  }

  lemma {:induction false} ReadBackConcat(a: seq<Bytes>, b: seq<Bytes>)
    ensures ReadBack(a + b) == ReadBack(a) + ReadBack(b)
  {
    hide Replayed;
    if b == [] {
      assert a + b == a;
    } else {
      var n := |b| - 1;
      assert (a + b)[..|a + b| - 1] == a + b[..n];
      ReadBackConcat(a, b[..n]);
      Associative(ReadBack(a), ReadBack(b[..n]), Replayed(b[n]));
    }
  }

  lemma ReadBackOne(file: Bytes)
    ensures ReadBack([file]) == Replayed(file)
  {
    hide Replayed;
    var one := [file];
    assert one[..|one| - 1] == [];
  }

  lemma OperationsConcat(a: seq<LogEntry>, b: seq<LogEntry>)
    ensures Operations(a + b) == Operations(a) + Operations(b)
  {
  }

  /** Replaying whole files gives back the operations that were appended, in order. */
  lemma {:induction false} ReadBackWhole(files: seq<Bytes>, logs: seq<seq<LogEntry>>)
    requires Hold(files, logs)
    ensures Operations(ReadBack(files)) == OperationsIn(logs)
  {
    hide AllStorable, LogBytes, Replayed;
    if files != [] {
      var n := |files| - 1;
      ReadBackWhole(files[..n], logs[..n]);
      ReplayWhole(logs[n]);
      OperationsConcat(ReadBack(files[..n]), logs[n]);
    }
  }

  /** With the newest file cut off after `n` bytes, it gives back those whose records are whole. */
  lemma ReadBackTorn(files: seq<Bytes>, logs: seq<seq<LogEntry>>, last: seq<LogEntry>, n: nat)
    requires Hold(files, logs) && AllStorable(last) && n <= |LogBytes(last)|
    ensures WholeEntries(last, n) <= |last|
    ensures Operations(ReadBack(files + [LogBytes(last)[..n]])) == OperationsIn(logs) + Operations(last[..WholeEntries(last, n)])
  {
    hide AllStorable, LogBytes, Replayed, WholeEntries;
    ReadBackWhole(files, logs);
    ReplayTruncated(last, n);
    var all := files + [LogBytes(last)[..n]];
    assert all[..|all| - 1] == files;
    OperationsConcat(ReadBack(files), last[..WholeEntries(last, n)]);
  }

  /** Without one of the files, its entries are missing and the others stay in order. */
  lemma WithoutFile(files: seq<Bytes>, i: nat)
    requires i < |files|
    ensures var from := |ReadBack(files[..i])|; var to := from + |Replayed(files[i])|;
      to <= |ReadBack(files)| && ReadBack(files[..i] + files[i + 1..]) == ReadBack(files)[..from] + ReadBack(files)[to..]
  {
    hide Replayed;
    var a, b, c := files[..i], [files[i]], files[i + 1..];
    assert files == a + b + c;
    ReadBackConcat(a + b, c);
    ReadBackConcat(a, b);
    ReadBackOne(files[i]);
    ReadBackConcat(a, c);
  }

  lemma CutOperations(all: seq<LogEntry>, from: nat, to: nat)
    requires from <= to <= |all|
    ensures Operations(all[..from] + all[to..]) == Operations(all)[..from] + Operations(all)[to..]
  {
  }

  /** An appended file that is empty adds nothing. */
  lemma EmptyFileBehind(files: seq<Bytes>)
    ensures ReadBack(files + [[]]) == ReadBack(files) && Whole([])
  {
    EmptyFile();
    ReadBackConcat(files, [[]]);
    ReadBackOne([]);
  }

  lemma EmptyFile()
    ensures Replayed([]) == [] && Whole([])
  {
    assert AllStorable([]) && LogBytes([]) == [];
  }

  /** A record appended to a whole file makes a whole file with one more entry. */
  lemma WholeAppend(file: Bytes, e: LogEntry)
    requires Whole(file) && Storable(e)
    ensures Replayed(file + RecordBytes(e)) == Replayed(file) + [e] && Whole(file + RecordBytes(e))
  {
    hide Replayed, Storable, LogBytes, RecordBytes;
    LogAppend(Replayed(file), e);
    ReplayWhole(Replayed(file) + [e]);
  }

  /** A part of a record appended to a whole file changes nothing that replay finds. */
  lemma TornAppend(file: Bytes, e: LogEntry, n: nat)
    requires Whole(file) && Storable(e) && n < |RecordBytes(e)|
    ensures Replayed(file + RecordBytes(e)[..n]) == Replayed(file)
  {
    hide Storable, LogBytes, RecordBytes;
    TornRecord(Replayed(file), e, n);
  }

  /** The number behind the last of these entries. */
  ghost function NextId(es: seq<LogEntry>): nat {
    if es == [] then 0 else es[|es| - 1].sequenceId + 1
  }

  /** If the numbers in a file increase, as group commit writes them, that is above all of them. */
  lemma NextIdIsAbove(es: seq<LogEntry>)
    requires forall i, j :: 0 <= i < j < |es| ==> es[i].sequenceId < es[j].sequenceId
    ensures forall i :: 0 <= i < |es| ==> es[i].sequenceId < NextId(es)
  {
    forall i | 0 <= i < |es|
      ensures es[i].sequenceId < NextId(es)
    {
      if i < |es| - 1 { assert es[i].sequenceId < es[|es| - 1].sequenceId; }
    }
  }

  lemma NewestReplaced(files: seq<Bytes>, file: Bytes)
    requires files != []
    ensures ReadBack(files[|files| - 1 := file]) == ReadBack(files[..|files| - 1]) + Replayed(file)
  {
    hide Replayed;
    assert files[|files| - 1 := file][..|files| - 1] == files[..|files| - 1];
  }

  // ----- The log -----

  class WriteAheadLog {
    /** Oldest first; records go to the last one. */
    var files: seq<Bytes>
    var sequenceId: nat

    ghost predicate Valid()
      reads this
    {
      files != []
    }

    /** What replay finds. */
    ghost function Recorded(): seq<Operation>
      reads this
    {
      Operations(ReadBack(files))
    }

    /** The newest file does not end with a whole record. */
    ghost predicate Torn()
      reads this
      requires Valid()
    {
      !Whole(files[|files| - 1])
    }

    /** Opening what is there, torn or not, or a first file; numbers go on behind the last that replay finds in the newest file. */
    constructor Open(found: seq<Bytes>)
      ensures Valid() && Recorded() == Operations(ReadBack(found))
      ensures found != [] ==> files == found
      ensures found == [] ==> !Torn()
      ensures sequenceId == NextId(if found == [] then [] else Replayed(found[|found| - 1]))
    {
      if |found| == 0 {
        EmptyFileBehind(found);
        assert found + [[]] == [[]];
        files, sequenceId := [[]], 0;
      } else {
        var entries := ReadLogFile(found[|found| - 1]);
        files := found;
        sequenceId := if |entries| > 0 then entries[|entries| - 1].sequenceId + 1 else 0;
      }
    }

    /** A record at the end of the newest file, whatever stands before it, or nothing. */
    method Append(op: Operation, now: nat) returns (r: Result<()>)
      requires Valid()
      modifies this
      ensures Valid() && (r.Ok? <==> Storable(LogEntry(old(sequenceId), now, op)))
      ensures sequenceId == old(sequenceId) + 1
      ensures files == if r.Ok? then Extended(old(files), RecordBytes(LogEntry(old(sequenceId), now, op))) else old(files)
      ensures !old(Torn()) ==> !Torn() && Recorded() == if r.Ok? then old(Recorded()) + [op] else old(Recorded())
    {
      hide Storable, LogBytes, RecordBytes, Replayed, Whole;
      var e := LogEntry(sequenceId, now, op);
      sequenceId := sequenceId + 1;
      var record := SerializeEntry(e);
      if record.Err? {
        return Err(record.reason);
      }
      var n := |files| - 1;
      if !Torn() {
        WholeAppend(files[n], e);
        NewestReplaced(files, files[n] + record.value);
        Associative(ReadBack(files[..n]), Replayed(files[n]), [e]);
        OperationsConcat(ReadBack(files), [e]);
      }
      files := files[n := files[n] + record.value];
      r := Ok(());
    }

    /** A crash, or an error, in the middle of an append leaves only the first `n` bytes of the record. */
    method AppendPart(op: Operation, now: nat, n: nat)
      requires Valid() && Storable(LogEntry(sequenceId, now, op)) && n < |RecordBytes(LogEntry(sequenceId, now, op))|
      modifies this
      ensures Valid() && files == Extended(old(files), RecordBytes(LogEntry(old(sequenceId), now, op))[..n])
      ensures !old(Torn()) ==> Recorded() == old(Recorded())
    {
      hide Storable, LogBytes, RecordBytes, Replayed, Whole;
      var e := LogEntry(sequenceId, now, op);
      sequenceId := sequenceId + 1;
      var record := SerializeEntry(e);
      var last := |files| - 1;
      if !Torn() {
        TornAppend(files[last], e, n);
        NewestReplaced(files, files[last] + record.value[..n]);
      }
      files := files[last := files[last] + record.value[..n]];
    }

    method Replay() returns (entries: seq<LogEntry>)
      ensures entries == ReadBack(files)
    {
      hide Replayed;
      entries := [];
      for i := 0 to |files|
        invariant entries == ReadBack(files[..i])
      {
        var fileEntries := ReadLogFile(files[i]);
        assert files[..i + 1][..i] == files[..i];
        entries := entries + fileEntries;
      }
      assert files[..|files|] == files;
    }

    method Rotate()
      requires Valid()
      modifies this`files
      ensures Valid() && files == old(files) + [[]] && Recorded() == old(Recorded()) && !Torn()
    {
      hide Replayed, Whole;
      EmptyFileBehind(files);
      files := files + [[]];
    }

    /** One of the older files goes. */
    method Unlink(i: nat)
      requires Valid() && i < |files| - 1
      modifies this`files
      ensures Valid() && files == old(files[..i] + files[i + 1..]) && (Torn() <==> old(Torn()))
      ensures var from := |ReadBack(old(files[..i]))|; var to := from + |Replayed(old(files[i]))|;
        to <= |old(Recorded())| && Recorded() == old(Recorded())[..from] + old(Recorded())[to..]
    {
      hide Replayed, ReadBack, Whole;
      WithoutFile(files, i);
      CutOperations(ReadBack(files), |ReadBack(files[..i])|, |ReadBack(files[..i])| + |Replayed(files[i])|);
      files := files[..i] + files[i + 1..];
    }

    /** A new file, and the older ones go in whatever order the directory lists them. */
    method Checkpoint()
      requires Valid()
      modifies this`files
      ensures Valid() && files == [[]] && Recorded() == [] && !Torn()
    {
      hide Replayed, ReadBack, Whole;
      Rotate();
      while |files| > 1
        invariant Valid() && files[|files| - 1] == []
        decreases |files|
      {
        var i: nat :| i < |files| - 1;
        Unlink(i);
      }
      NothingRecorded();
    }
  }

  /** The newest file with more bytes at its end. */
  ghost function Extended(files: seq<Bytes>, more: Bytes): seq<Bytes>
    requires files != []
  {
    files[|files| - 1 := files[|files| - 1] + more]
  }

  lemma NothingRecorded()
    ensures ReadBack([[]]) == [] && Whole([])
  {
    EmptyFile();
    ReadBackOne([]);
  }
}
