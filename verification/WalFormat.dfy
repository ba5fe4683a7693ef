/**
 The record format of the write-ahead log, the replay loop, and what replay recovers from a
 log that is cut short or damaged.
 */
module WalFormat {
  import opened Wrappers
  import opened Keys
  import opened Buffers
  import opened Crc32
  import opened Framing
  import opened LogEntries
  import PairFormat
  import Sequences

  /** The operations the log accepts: no empty key or value on its own, and batches that match up. */
  predicate Writable(op: Operation) {
    match op
    case Put(k, v) => k != [] && v != []
    case Delete(k) => k != []
    case BatchPut(ks, vs) => |ks| == |vs|
  }

  /** Sequence ids and timestamps are numbers a 64-bit field holds. */
  predicate Numbered(e: LogEntry) {
    e.sequenceId < 0x1_0000_0000_0000_0000 && e.timestamp < 0x1_0000_0000_0000_0000
  }

  /** The part of a record that the checksum covers. */
  function DataBytes(e: LogEntry): Bytes
    requires Fits(e.operation)
  {
    Encode(e.sequenceId, 8) + Encode(e.timestamp, 8) + [OperationCode(e.operation)] + PayloadBytes(e.operation)
  }

  /** Everything a record needs to be written: accepted, and every length in its field. */
  predicate Storable(e: LogEntry) {
    Writable(e.operation) && Fits(e.operation) && Numbered(e) && 4 + |DataBytes(e)| < 0x1_0000_0000
  }

  function ChecksumBytes(data: Bytes): Bytes {
    Encode(Checksum(data), 4)
  }

  /** A record without its length field: the checksum, then the data. */
  function BodyBytes(e: LogEntry): Bytes
    requires Fits(e.operation)
  {
    ChecksumBytes(DataBytes(e)) + DataBytes(e)
  }

  function RecordBytes(e: LogEntry): Bytes
    requires Fits(e.operation)
  {
    Frame(BodyBytes(e))
  }

  // ----- Writing -----

  /** Everything behind the checksum field. */
  method WriteData(buffer: array<Byte>, e: LogEntry, payload: Bytes)
    requires buffer.Length == 25 + |payload|
    modifies buffer
    ensures buffer[..8] == old(buffer[..8])
    ensures buffer[8..] == Encode(e.sequenceId, 8) + Encode(e.timestamp, 8) + [OperationCode(e.operation)] + payload
  {
    ghost var head := buffer[..8];
    WriteUInt(buffer, e.sequenceId, 8, 8);
    WriteUInt(buffer, e.timestamp, 16, 8);
    ghost var before := buffer[..24];
    buffer[24] := OperationCode(e.operation);
    assert buffer[..25] == before + [OperationCode(e.operation)];
    CopyInto(buffer, payload, 25);
    ghost var data := Encode(e.sequenceId, 8) + Encode(e.timestamp, 8) + [OperationCode(e.operation)] + payload;
    PairFormat.Append4(head, Encode(e.sequenceId, 8), Encode(e.timestamp, 8), [OperationCode(e.operation)], payload);
    assert buffer[..] == buffer[..25 + |payload|];
    assert buffer[..] == head + data;
  }

  method SerializeEntry(e: LogEntry) returns (r: Result<Bytes>)
    ensures r == if Storable(e) then Ok(RecordBytes(e)) else Err("cannot be written")
  {
    if !Writable(e.operation) || !Fits(e.operation) || !Numbered(e) {
      return Err("cannot be written");
    }
    var payload := SerializePayload(e.operation);
    var entrySize := 4 + 8 + 8 + 1 + |payload|;
    assert entrySize == 4 + |DataBytes(e)|;
    if entrySize >= 0x1_0000_0000 {
      return Err("cannot be written");
    }
    var bytes := BuildRecord(e, payload);
    r := Ok(bytes);
  }

  /** The checksum field is filled in last, over the bytes already written behind it. */
  method BuildRecord(e: LogEntry, payload: Bytes) returns (record: Bytes)
    requires Fits(e.operation) && payload == PayloadBytes(e.operation)
    ensures record == RecordBytes(e)
  {
    hide Encode, PayloadBytes, Fits;
    var entrySize := 4 + 8 + 8 + 1 + |payload|;
    var buffer := new Byte[4 + entrySize];
    WriteUInt(buffer, entrySize, 0, 4);
    ghost var length, data := Encode(entrySize, 4), DataBytes(e);
    assert buffer[..8][..4] == buffer[..4] == length;
    WriteData(buffer, e, payload);
    assert buffer[..4] == buffer[..8][..4];
    FillChecksum(buffer, data);
    record := buffer[..];
    Sequences.Associative(length, ChecksumBytes(data), data);
  }

  method FillChecksum(buffer: array<Byte>, ghost data: Bytes)
    requires buffer.Length >= 8 && buffer[8..] == data
    modifies buffer
    ensures buffer[..] == old(buffer[..4]) + ChecksumBytes(data) + data
  {
    var checksum := CalculateChecksum(buffer[8..]);
    WriteUInt(buffer, checksum, 4, 4);
    assert buffer[..] == buffer[..8] + buffer[8..];
  }

  // ----- Reading -----

  function DecodeEntry(buffer: Bytes): Result<LogEntry> {
    var sequenceId :- ReadUInt(buffer, 4, 8);
    var timestamp :- ReadUInt(buffer, 12, 8);
    var code :- ReadUInt(buffer, 20, 1);
    var op :- DecodePayload(code, buffer[21..]);
    Ok(LogEntry(sequenceId, timestamp, op))
  }

  function ValidChecksum(buffer: Bytes): bool {
    |buffer| >= 4 && Decode(buffer[..4]) == Checksum(buffer[4..])
  }

  /** The entry a record body holds, if it can be decoded and its checksum is right. */
  function Accept(buffer: Bytes): Option<LogEntry> {
    match DecodeEntry(buffer)
    case Err(_) => None
    case Ok(e) => if ValidChecksum(buffer) then Some(e) else None
  }

  /** What replay recovers from one log file: it stops at the first record it cannot accept. */
  ghost function Replayed(file: Bytes): seq<LogEntry> {
    ReadFrom(Accept, file, 0)
  }

  method ReadLogFile(file: Bytes) returns (entries: seq<LogEntry>)
    ensures entries == Replayed(file)
  {
    entries := ReadRecords(Accept, file);
  }

  // ----- Logs -----

  ghost predicate AllStorable(es: seq<LogEntry>) {
    forall i :: 0 <= i < |es| ==> Storable(es[i])
  }

  ghost function Bodies(es: seq<LogEntry>): (bs: seq<Bytes>)
    requires AllStorable(es)
    ensures |bs| == |es|
  {
    seq(|es|, i requires 0 <= i < |es| => BodyBytes(es[i]))
  }

  /** The file that appending the entries one after the other makes. */
  ghost function LogBytes(es: seq<LogEntry>): Bytes
    requires AllStorable(es)
  {
    Stream(Bodies(es))
  }

  /** Appending an entry's record to a log's file gives the file of the longer log. */
  lemma LogAppend(es: seq<LogEntry>, e: LogEntry)
    requires AllStorable(es) && Storable(e)
    ensures AllStorable(es + [e]) && LogBytes(es + [e]) == LogBytes(es) + RecordBytes(e)
  {
    hide Storable;
    assert AllStorable(es + [e]);
    var bs := Bodies(es + [e]);
    assert bs[..|bs| - 1] == Bodies(es);
  }

  lemma DecodeBack(e: LogEntry, body: Bytes, sum: Bytes)
    requires Storable(e) && |sum| == 4 && body == sum + DataBytes(e)
    ensures DecodeEntry(body) == Ok(e)
  {
    PowersOf256();
    var payload := PayloadBytes(e.operation);
    assert At(body, 4, DataBytes(e));
    AtFour(body, 4, Encode(e.sequenceId, 8), Encode(e.timestamp, 8), [OperationCode(e.operation)], payload);
    ReadBack(body, 4, e.sequenceId, 8);
    ReadBack(body, 12, e.timestamp, 8);
    ReadCode(body, 20, e.operation);
    AtEnd(body, 21, payload);
    PayloadRoundTrip(e.operation);
  }

  lemma AtEnd(b: Bytes, off: nat, x: Bytes)
    requires At(b, off, x) && |b| == off + |x|
    ensures b[off..] == x
  {
  }

  lemma ReadCode(b: Bytes, off: nat, op: Operation)
    requires At(b, off, [OperationCode(op)])
    ensures ReadUInt(b, off, 1) == Ok(OperationCode(op) as nat)
  {
    var c := b[off..off + 1];
    assert c == [OperationCode(op)] && c[..0] == [];
    assert Decode(c) == 256 * Decode(c[..0]) + c[0] as nat;
  }

  /** A stored checksum is valid exactly for the data it was computed over or data that shares it. */
  lemma ChecksumValid(stored: Bytes, data: Bytes)
    ensures ValidChecksum(ChecksumBytes(stored) + data) <==> Checksum(stored) == Checksum(data)
  {
    PowersOf256();
    var buffer := ChecksumBytes(stored) + data;
    assert buffer[..4] == ChecksumBytes(stored) && buffer[4..] == data;
    NumberRoundTrip(Checksum(stored), 4);
  }

  /** A record that was written is accepted and read back as it was. */
  lemma RecordRoundTrip(e: LogEntry)
    requires Storable(e)
    ensures Accept(BodyBytes(e)) == Some(e)
  {
    DecodeBack(e, BodyBytes(e), ChecksumBytes(DataBytes(e)));
    ChecksumValid(DataBytes(e), DataBytes(e));
  }

  lemma LogReadable(es: seq<LogEntry>)
    requires AllStorable(es)
    ensures Readable(Accept, Bodies(es), es)
  {
    forall i | 0 <= i < |es|
      ensures |Bodies(es)[i]| < 0x1_0000_0000 && Accept(Bodies(es)[i]) == Some(es[i])
    {
      RecordRoundTrip(es[i]);
    }
  }

  /** How many entries of a log lie wholly within its first `n` bytes. */
  ghost function WholeEntries(es: seq<LogEntry>, n: nat): nat
    requires AllStorable(es)
  {
    WholeRecords(Bodies(es), n)
  }

  /** It is the greatest number of entries that fit. */
  lemma WholeEntriesIsGreatest(es: seq<LogEntry>, n: nat)
    requires AllStorable(es)
    ensures var k := WholeEntries(es, n); k <= |es| && |LogBytes(es[..k])| <= n
    ensures var k := WholeEntries(es, n); k < |es| ==> n < |LogBytes(es[..k + 1])|
  {
    var k := WholeEntries(es, n);
    WholeRecordsIsGreatest(Bodies(es), n);
    BodiesPrefix(es, k);
    if k < |es| {
      BodiesPrefix(es, k + 1);
    }
  }

  /** Replaying a whole log gives back every entry. */
  lemma ReplayWhole(es: seq<LogEntry>)
    requires AllStorable(es)
    ensures Replayed(LogBytes(es)) == es
  {
    LogReadable(es);
    ReadWhole(Accept, Bodies(es), es);
  }

  /** Replaying a log cut off anywhere gives back exactly the entries that are whole. */
  lemma ReplayTruncated(es: seq<LogEntry>, n: nat)
    requires AllStorable(es) && n <= |LogBytes(es)|
    ensures WholeEntries(es, n) <= |es| && Replayed(LogBytes(es)[..n]) == es[..WholeEntries(es, n)]
  {
    LogReadable(es);
    ReadTruncated(Accept, Bodies(es), es, n);
  }

  // ----- Where replay stops -----

  /** No acceptable record begins here: the length field or what it points to leaves the file, or the body is not accepted. */
  ghost predicate StopsAt(file: Bytes, at: nat) {
    at + 4 > |file| ||
    (var next := at + 4 + Decode(file[at..at + 4]);
     next > |file| || Accept(file[at + 4..next]).None?)
  }

  /** Whatever follows whole records, they are replayed; and nothing else is, exactly if replay stops right behind them. */
  lemma ReplayStopsExactlyWhen(es: seq<LogEntry>, file: Bytes)
    requires AllStorable(es) && LogBytes(es) <= file
    ensures es <= Replayed(file) && (Replayed(file) == es <==> StopsAt(file, |LogBytes(es)|))
  {
    LogReadable(es);
    ReadPrefix(Accept, Bodies(es), es, file);
    assert StopsAt(file, |LogBytes(es)|) <==> ReadFrom(Accept, file, |LogBytes(es)|) == [];
  }

  lemma FilledUp(whole: Bytes, s: Bytes, f: Bytes, n: nat, more: Bytes)
    requires 4 <= n <= |f| && whole == s + f[..n] + more
    ensures s <= whole && |whole| == |s| + n + |more| && whole[|s|..|s| + 4] == f[..4]
    ensures n + |more| >= |f| ==> whole[|s| + 4..|s| + |f|] == (f[..n] + more)[4..|f|]
  {
    assert whole == s + (f[..n] + more);
    assert whole[|s|..] == f[..n] + more;
  }

  lemma LengthField(e: LogEntry)
    requires Storable(e)
    ensures Fits(e.operation) && |RecordBytes(e)| >= 4 && Decode(RecordBytes(e)[..4]) == |RecordBytes(e)| - 4
  {
    hide DataBytes;
    PowersOf256();
    NumberRoundTrip(|BodyBytes(e)|, 4);
    assert RecordBytes(e)[..4] == Encode(|BodyBytes(e)|, 4);
  }

  /**
   Behind the first part of a record, its length field included, replay finds what is appended only
   if that fills the record up to a body that is accepted: the checksum of the torn record has to
   fit bytes that are not its own.  Appends that do not fill it up are never found.
   */
  lemma BehindTornRecord(es: seq<LogEntry>, e: LogEntry, n: nat, more: Bytes)
    requires AllStorable(es) && Storable(e) && 4 <= n <= |RecordBytes(e)|
    ensures var r := RecordBytes(e);
      Replayed(LogBytes(es) + r[..n] + more) == es <==> n + |more| < |r| || Accept((r[..n] + more)[4..|r|]).None?
  {
    hide Replayed, Accept, Storable, LogBytes, RecordBytes, Decode;
    LengthField(e);
    var r, s := RecordBytes(e), LogBytes(es);
    var file := s + r[..n] + more;
    FilledUp(file, s, r, n, more);
    ReplayStopsExactlyWhen(es, file);
  }

  /** Of a torn record nothing is replayed, however little of it there is. */
  lemma TornRecord(es: seq<LogEntry>, e: LogEntry, n: nat)
    requires AllStorable(es) && Storable(e) && n < |RecordBytes(e)|
    ensures Replayed(LogBytes(es) + RecordBytes(e)[..n]) == es
  {
    LogReadable(es);
    var file := LogBytes(es) + RecordBytes(e)[..n];
    ReadPrefix(Accept, Bodies(es), es, file);
    ReadCutRecord(Accept, LogBytes(es), BodyBytes(e), RecordBytes(e)[..n]);
  }

  /** A length field damaged so that it points beyond the file hides its record and all behind it. */
  lemma LongLengthHides(es: seq<LogEntry>, rest: Bytes)
    requires AllStorable(es) && |rest| < 0xFFFF_FFFF
    ensures Replayed(LogBytes(es) + [255, 255, 255, 255] + rest) == es
  {
    var file, at := LogBytes(es) + [255, 255, 255, 255] + rest, |LogBytes(es)|;
    assert file[at..at + 4] == [255, 255, 255, 255];
    PowersOf256();
    GreatestLength([255, 255, 255, 255]);
    ReplayStopsExactlyWhen(es, file);
  }

  lemma GreatestLength(b: Bytes)
    requires b == [255, 255, 255, 255]
    ensures Decode(b) == 0xFFFF_FFFF
  {
    assert b[..3][..2] == b[..2] && b[..2][..1] == b[..1] && b[..1][..0] == [];
    assert Decode(b[..1]) == 256 * Decode(b[..0]) + 255;
    assert Decode(b[..2]) == 256 * Decode(b[..1]) + 255;
    assert Decode(b[..3]) == 256 * Decode(b[..2]) + 255;
  }

  // ----- Damage -----

  /** The same length, and the same bytes outside [from, to). */
  ghost predicate DiffersWithin(a: Bytes, b: Bytes, from: nat, to: nat) {
    from <= to <= |a| && |b| == |a| && b[..from] == a[..from] && b[to..] == a[to..] && b != a
  }

  lemma BodiesPrefix(es: seq<LogEntry>, k: nat)
    requires AllStorable(es) && k <= |es|
    ensures Bodies(es[..k]) == Bodies(es)[..k]
  {
  }

  /** A log around its entry `k`. */
  lemma LogAround(es: seq<LogEntry>, k: nat)
    requires AllStorable(es) && k < |es|
    ensures LogBytes(es[..k]) + RecordBytes(es[k]) <= LogBytes(es)
    ensures |LogBytes(es[..k + 1])| == |LogBytes(es[..k])| + |RecordBytes(es[k])|
  {
    BodiesPrefix(es, k);
    BodiesPrefix(es, k + 1);
    var bs := Bodies(es);
    StreamPrefix(bs, k);
    StreamPrefix(bs, k + 1);
    assert bs[k] == BodyBytes(es[k]);
  }

  lemma ReplayBadBody(es: seq<LogEntry>, bad: Bytes, rest: Bytes)
    requires AllStorable(es) && |bad| < 0x1_0000_0000 && Accept(bad).None?
    ensures Replayed(LogBytes(es) + Frame(bad) + rest) == es
  {
    LogReadable(es);
    ReadDamaged(Accept, Bodies(es), es, bad, rest);
  }

  /** Where the window lies in the file, and what the record it hits becomes. */
  lemma SplitDamage(whole: Bytes, s: Bytes, f: Bytes, file: Bytes, from: nat, to: nat)
    requires s + f <= whole && DiffersWithin(whole, file, from, to) && |s| <= from && to <= |s| + |f|
    ensures var f' := file[|s|..|s| + |f|]; file == s + f' + file[|s| + |f|..] && DiffersWithin(f, f', from - |s|, to - |s|)
  {
    var n := |s| + |f|;
    var f' := file[|s|..n];
    assert whole[..n] == s + f;
    forall i | 0 <= i < from ensures file[i] == whole[i] { assert file[i] == file[..from][i]; assert whole[i] == whole[..from][i]; }
    forall i | to <= i < |file| ensures file[i] == whole[i] { assert file[i] == file[to..][i - to]; assert whole[i] == whole[to..][i - to]; }
    forall i | 0 <= i < |s| ensures file[i] == s[i] { assert whole[i] == whole[..n][i]; }
    assert file == s + f' + file[n..];
    assert forall i :: 0 <= i < |f| ==> f[i] == whole[..n][|s| + i] == whole[|s| + i];
    assert whole == s + f + file[n..];
  }

  /** Behind a part that is not touched, the difference is the same. */
  lemma DiffersBehind(a: Bytes, b: Bytes, n: nat, from: nat, to: nat)
    requires DiffersWithin(a, b, from, to) && n <= from
    ensures b[..n] == a[..n] && DiffersWithin(a[n..], b[n..], from - n, to - n)
  {
    assert b[..n] == b[..from][..n] && a[..n] == a[..from][..n];
    assert b[n..][..from - n] == b[..from][n..] && a[n..][..from - n] == a[..from][n..];
    assert b[n..][to - n..] == b[to..] && a[n..][to - n..] == a[to..];
    assert b == b[..n] + b[n..] && a == a[..n] + a[n..];
  }

  lemma DiffersInMiddle(a: Bytes, b: Bytes, from: nat, to: nat)
    requires DiffersWithin(a, b, from, to)
    ensures a == a[..from] + a[from..to] + a[to..] && b == a[..from] + b[from..to] + a[to..] && a[from..to] != b[from..to]
  {
    assert b == b[..from] + b[from..to] + b[to..];
  }

  lemma DamagedBody(e: LogEntry, f: Bytes, from: nat, to: nat)
    requires Storable(e) && DiffersWithin(RecordBytes(e), f, from, to) && 4 <= from
    ensures f == Frame(f[4..]) && |f[4..]| < 0x1_0000_0000 && DiffersWithin(BodyBytes(e), f[4..], from - 4, to - 4)
  {
    DiffersBehind(RecordBytes(e), f, 4, from, to);
    assert RecordBytes(e)[4..] == BodyBytes(e);
    assert f == f[..4] + f[4..];
  }

  lemma ChecksumDiffers(d: Bytes, d': Bytes, from: nat, to: nat)
    requires DiffersWithin(d, d', from, to) && to - from <= 4
    ensures Checksum(d) != Checksum(d')
  {
    DiffersInMiddle(d, d', from, to);
    DetectsWindow(d[..from], d[from..to], d'[from..to], d[to..]);
  }

  /** Data that differs in four consecutive bytes at most does not go with the stored checksum. */
  lemma DamagedData(e: LogEntry, body: Bytes, from: nat, to: nat)
    requires Storable(e) && DiffersWithin(BodyBytes(e), body, from, to) && 4 <= from && to - from <= 4
    ensures Accept(body).None?
  {
    var d, d' := DataBytes(e), body[4..];
    DiffersBehind(BodyBytes(e), body, 4, from, to);
    assert BodyBytes(e)[4..] == d && BodyBytes(e)[..4] == ChecksumBytes(d);
    ChecksumDiffers(d, d', from - 4, to - 4);
    assert body == ChecksumBytes(d) + d';
    ChecksumValid(d, d');
  }

  lemma DamagedChecksum(e: LogEntry, body: Bytes, from: nat, to: nat)
    requires Storable(e) && DiffersWithin(BodyBytes(e), body, from, to) && to <= 4
    ensures Accept(body).None?
  {
    var d, b := DataBytes(e), BodyBytes(e);
    assert body[4..] == body[to..][4 - to..] == b[to..][4 - to..] == d;
    assert body == body[..4] + d;
    if Decode(body[..4]) == Checksum(d) {
      PowersOf256();
      NumberRoundTrip(Checksum(d), 4);
      DecodeInjective(body[..4], ChecksumBytes(d));
    }
  }

  lemma {:induction false} DecodeInjective(a: Bytes, b: Bytes)
    requires |a| == |b| && Decode(a) == Decode(b)
    ensures a == b
  {
    if a != [] {
      var x, y := a[|a| - 1], b[|b| - 1];
      assert Decode(a) % 256 == x as nat && Decode(b) % 256 == y as nat;
      DecodeInjective(a[..|a| - 1], b[..|b| - 1]);
      assert a == a[..|a| - 1] + [x] && b == b[..|b| - 1] + [y];
    }
  }

  /** What becomes of a record damaged within four bytes of its data, or within its checksum. */
  lemma DamagedRecord(e: LogEntry, f: Bytes, from: nat, to: nat)
    requires Storable(e) && DiffersWithin(RecordBytes(e), f, from, to) && to - from <= 4
    requires 8 <= from || (4 <= from && to <= 8)
    ensures f == Frame(f[4..]) && |f[4..]| < 0x1_0000_0000 && Accept(f[4..]).None?
  {
    DamagedBody(e, f, from, to);
    if 8 <= from {
      DamagedData(e, f[4..], from - 4, to - 4);
    } else {
      DamagedChecksum(e, f[4..], from - 4, to - 4);
    }
  }

  lemma ReplayBeforeDamage(es: seq<LogEntry>, e: LogEntry, whole: Bytes, file: Bytes, from: nat, to: nat)
    requires AllStorable(es) && Storable(e) && LogBytes(es) + RecordBytes(e) <= whole
    requires DiffersWithin(whole, file, from, to) && to - from <= 4
    requires var at := |LogBytes(es)|; (at + 8 <= from && to <= at + |RecordBytes(e)|) || (at + 4 <= from && to <= at + 8)
    ensures Replayed(file) == es
  {
    var s, r := LogBytes(es), RecordBytes(e);
    SplitDamage(whole, s, r, file, from, to);
    var f, rest := file[|s|..|s| + |r|], file[|s| + |r|..];
    DamagedRecord(e, f, from - |s|, to - |s|);
    ReplayBadBody(es, f[4..], rest);
  }

  /**
   A log damaged within four consecutive bytes of what entry `k`'s checksum covers, or within
   the checksum itself, is replayed up to that entry and no further.
   */
  lemma ReplayDamaged(es: seq<LogEntry>, k: nat, file: Bytes, from: nat, to: nat)
    requires AllStorable(es) && k < |es| && DiffersWithin(LogBytes(es), file, from, to) && to - from <= 4
    requires var data := |LogBytes(es[..k])| + 8;
      (data <= from && to <= |LogBytes(es[..k + 1])|) || (data - 4 <= from && to <= data)
    ensures Replayed(file) == es[..k]
  {
    LogAround(es, k);
    ReplayBeforeDamage(es[..k], es[k], LogBytes(es), file, from, to);
  }
}
