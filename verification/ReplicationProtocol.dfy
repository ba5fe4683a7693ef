/**
 The messages between a primary and its backup: their byte form, and parsing them out of a
 stream that arrives in arbitrary pieces.
 */
module ReplicationProtocol {
  import opened Wrappers
  import opened Keys
  import opened Buffers
  import opened Sequences
  import opened Framing
  import opened LogEntries
  import WalFormat

  const REPLICATE: Byte := 0x10
  const REPLICATE_ACK: Byte := 0x11
  const ACK_OK: Byte := 0
  const ACK_ERROR: Byte := 1

  datatype Message = Replicate(entry: LogEntry) | Ack(status: Byte, sequenceId: nat)

  /** What a buffer begins with: nothing whole yet, a message and its size, or bytes that are none. */
  datatype Parsed = Incomplete | Found(message: Message, bytesConsumed: nat) | Malformed(reason: string)

  // ----- Writing -----

  /** An entry without length and checksum is the data part of its log record. */
  function Body(m: Message): Bytes
    requires m.Replicate? ==> Fits(m.entry.operation)
  {
    match m
    case Replicate(e) => [REPLICATE] + WalFormat.DataBytes(e)
    case Ack(status, id) => [REPLICATE_ACK] + [status] + Encode(id, 8)
  }

  predicate Sendable(m: Message) {
    match m
    case Replicate(e) => Fits(e.operation) && WalFormat.Numbered(e) && 1 + |WalFormat.DataBytes(e)| < 0x1_0000_0000
    case Ack(_, id) => id < 0x1_0000_0000_0000_0000
  }

  function MessageBytes(m: Message): Bytes
    requires Sendable(m)
  {
    Frame(Body(m))
  }

  method SerializeLogEntry(e: LogEntry) returns (bytes: Bytes)
    requires Fits(e.operation) && WalFormat.Numbered(e)
    ensures bytes == WalFormat.DataBytes(e)
  {
    var payload := SerializePayload(e.operation);
    var buffer := new Byte[8 + 8 + 1 + |payload|];
    WriteUInt(buffer, e.sequenceId, 0, 8);
    WriteUInt(buffer, e.timestamp, 8, 8);
    ghost var before := buffer[..16];
    buffer[16] := OperationCode(e.operation);
    assert buffer[..17] == before + [OperationCode(e.operation)];
    CopyInto(buffer, payload, 17);
    bytes := buffer[..];
    assert bytes == buffer[..17 + |payload|];
  }

  method SerializeReplicate(e: LogEntry) returns (r: Result<Bytes>)
    requires WalFormat.Numbered(e)
    ensures r == if Sendable(Replicate(e)) then Ok(MessageBytes(Replicate(e))) else Err("cannot be sent")
  {
    if !Fits(e.operation) {
      return Err("cannot be sent");
    }
    var entryBuffer := SerializeLogEntry(e);
    var payloadSize := 1 + |entryBuffer|;
    if payloadSize >= 0x1_0000_0000 {
      return Err("cannot be sent");
    }
    var bytes := FrameOf(REPLICATE, entryBuffer);
    r := Ok(bytes);
  }

  method SerializeAck(status: Byte, sequenceId: nat) returns (bytes: Bytes)
    requires sequenceId < 0x1_0000_0000_0000_0000
    ensures bytes == MessageBytes(Ack(status, sequenceId))
  {
    var rest := new Byte[9];
    rest[0] := status;
    WriteUInt(rest, sequenceId, 1, 8);
    assert rest[..] == rest[..9] == [status] + Encode(sequenceId, 8);
    bytes := FrameOf(REPLICATE_ACK, rest[..]);
    Associative([REPLICATE_ACK], [status], Encode(sequenceId, 8));
  }

  /** Length, opcode, and what follows it. */
  method FrameOf(opcode: Byte, rest: Bytes) returns (bytes: Bytes)
    ensures bytes == Frame([opcode] + rest)
  {
    var payloadSize := 1 + |rest|;
    var buffer := new Byte[4 + payloadSize];
    WriteUInt(buffer, payloadSize, 0, 4);
    ghost var length := buffer[..4];
    buffer[4] := opcode;
    assert buffer[..5] == length + [opcode];
    CopyInto(buffer, rest, 5);
    bytes := buffer[..];
    assert bytes == buffer[..5 + |rest|];
    Associative(length, [opcode], rest);
  }

  // ----- Reading -----

  function DeserializeLogEntry(buffer: Bytes): Result<LogEntry> {
    var sequenceId :- ReadUInt(buffer, 0, 8);
    var timestamp :- ReadUInt(buffer, 8, 8);
    var code :- ReadUInt(buffer, 16, 1);
    var op :- DecodePayload(code, buffer[17..]);
    Ok(LogEntry(sequenceId, timestamp, op))
  }

  function ParseReplicate(buffer: Bytes, length: nat): Parsed
    requires 4 + length <= |buffer|
  {
    var entryBuffer := if length >= 1 then buffer[5..4 + length] else [];
    match DeserializeLogEntry(entryBuffer)
    case Err(e) => Malformed(e)
    case Ok(entry) => Found(Replicate(entry), 4 + length)
  }

  function ParseAck(buffer: Bytes, length: nat): Parsed {
    match ReadUInt(buffer, 6, 8)
    case Err(e) => Malformed(e)
    case Ok(sequenceId) => Found(Ack(buffer[5], sequenceId), 4 + length)
  }

  function ParseMessage(buffer: Bytes): (p: Parsed)
    ensures p.Found? ==> 4 <= p.bytesConsumed <= |buffer|
  {
    if |buffer| < 5 then Incomplete
    else
      var length := Decode(buffer[0..4]);
      if |buffer| < 4 + length then Incomplete
      else if buffer[4] == REPLICATE then ParseReplicate(buffer, length)
      else if buffer[4] == REPLICATE_ACK then ParseAck(buffer, length)
      else Malformed("Unknown replication opcode")
  }

  lemma EntryBack(e: LogEntry, b: Bytes)
    requires Fits(e.operation) && WalFormat.Numbered(e) && b == WalFormat.DataBytes(e)
    ensures DeserializeLogEntry(b) == Ok(e)
  {
    PowersOf256();
    var payload := PayloadBytes(e.operation);
    assert At(b, 0, b);
    AtFour(b, 0, Encode(e.sequenceId, 8), Encode(e.timestamp, 8), [OperationCode(e.operation)], payload);
    ReadBack(b, 0, e.sequenceId, 8);
    ReadBack(b, 8, e.timestamp, 8);
    WalFormat.ReadCode(b, 16, e.operation);
    WalFormat.AtEnd(b, 17, payload);
    PayloadRoundTrip(e.operation);
  }

  lemma ParsedReplicate(e: LogEntry, buffer: Bytes, body: Bytes)
    requires Sendable(Replicate(e)) && body == [REPLICATE] + WalFormat.DataBytes(e) && Frame(body) <= buffer
    ensures ParseReplicate(buffer, |body|) == Found(Replicate(e), |Frame(body)|)
  {
    assert buffer[5..4 + |body|] == Frame(body)[5..] == WalFormat.DataBytes(e);
    EntryBack(e, WalFormat.DataBytes(e));
  }

  lemma ParsedAck(status: Byte, id: nat, buffer: Bytes, body: Bytes)
    requires id < 0x1_0000_0000_0000_0000 && body == [REPLICATE_ACK] + [status] + Encode(id, 8) && Frame(body) <= buffer
    ensures ParseAck(buffer, |body|) == Found(Ack(status, id), |Frame(body)|)
  {
    PowersOf256();
    assert buffer[5] == Frame(body)[5] == status;
    assert buffer[6..14] == Frame(body)[6..14] == Encode(id, 8);
    ReadBack(buffer, 6, id, 8);
  }

  lemma FrameLength(body: Bytes, buffer: Bytes)
    requires Frame(body) <= buffer && 1 <= |body| < 0x1_0000_0000
    ensures |buffer| >= 5 && Decode(buffer[0..4]) == |body| && buffer[4] == body[0] && 4 + |body| <= |buffer|
  {
    PowersOf256();
    NumberRoundTrip(|body|, 4);
    assert buffer[0..4] == Frame(body)[0..4] == Encode(|body|, 4);
    assert buffer[4] == Frame(body)[4];
  }

  /** A whole message at the front of a buffer is parsed as it was, whatever follows it. */
  lemma ParseBack(m: Message, buffer: Bytes)
    requires Sendable(m) && MessageBytes(m) <= buffer
    ensures ParseMessage(buffer) == Found(m, |MessageBytes(m)|)
  {
    FrameLength(Body(m), buffer);
    match m
    case Replicate(e) => ParsedReplicate(e, buffer, Body(m));
    case Ack(status, id) => ParsedAck(status, id, buffer, Body(m));
  }

  /** Of a message that has not arrived whole, nothing is parsed. */
  lemma ParsePart(m: Message, part: Bytes)
    requires Sendable(m) && part < MessageBytes(m)
    ensures ParseMessage(part) == Incomplete
  {
    if |part| >= 5 {
      PowersOf256();
      NumberRoundTrip(|Body(m)|, 4);
      assert part[0..4] == MessageBytes(m)[0..4] == Encode(|Body(m)|, 4);
    }
  }

  // ----- Parsing a stream -----

  /** The messages at the front of a buffer, and what is left over. */
  function ParseAll(buffer: Bytes): (seq<Message>, Bytes) {
    match ParseMessage(buffer)
    case Found(m, n) => var (ms, rest) := ParseAll(buffer[n..]); ([m] + ms, rest)
    case _ => ([], buffer)
  }

  ghost function StreamOf(ms: seq<Message>): Bytes
    requires forall i :: 0 <= i < |ms| ==> Sendable(ms[i])
  {
    if ms == [] then [] else MessageBytes(ms[0]) + StreamOf(ms[1..])
  }

  lemma ParseFirst(m: Message, later: Bytes)
    requires Sendable(m)
    ensures ParseAll(MessageBytes(m) + later) == ([m] + ParseAll(later).0, ParseAll(later).1)
  {
    ParseBack(m, MessageBytes(m) + later);
    assert (MessageBytes(m) + later)[|MessageBytes(m)|..] == later;
  }

  lemma ParseNothing(m: Message, part: Bytes)
    requires Sendable(m) && part < MessageBytes(m)
    ensures ParseAll(part) == ([], part)
  {
    ParsePart(m, part);
  }

  lemma PrefixOfConcat(a: Bytes, b: Bytes, c: Bytes)
    requires c <= a + b
    ensures |c| < |a| ==> c < a
    ensures |c| >= |a| ==> c == a + c[|a|..] && c[|a|..] <= b
  {
    if |c| < |a| {
      assert c == (a + b)[..|c|] == a[..|c|];
    } else {
      assert a == (a + b)[..|a|] == c[..|a|];
      assert c[|a|..] == (a + b)[..|c|][|a|..] == b[..|c| - |a|];
    }
  }

  /** What has arrived of a stream: whole messages, and at most the beginning of one more. */
  lemma {:induction false} ParseArrived(ms: seq<Message>, arrived: Bytes) returns (k: nat)
    requires (forall i :: 0 <= i < |ms| ==> Sendable(ms[i])) && arrived <= StreamOf(ms)
    ensures k <= |ms| && ParseAll(arrived).0 == ms[..k] && arrived == StreamOf(ms[..k]) + ParseAll(arrived).1
    ensures k < |ms| ==> ParseAll(arrived).1 < MessageBytes(ms[k])
    ensures k == |ms| ==> ParseAll(arrived).1 == []
    decreases |ms|
  {
    hide MessageBytes, ParseAll, Sendable;
    if ms == [] {
      k := 0;
      NothingArrived();
    } else {
      var first := MessageBytes(ms[0]);
      PrefixOfConcat(first, StreamOf(ms[1..]), arrived);
      if |arrived| < |first| {
        k := 0;
        ParseNothing(ms[0], arrived);
      } else {
        var later := arrived[|first|..];
        ParseFirst(ms[0], later);
        var j := ParseArrived(ms[1..], later);
        k := j + 1;
        assert ms[..k][1..] == ms[1..][..j] && ms[..k] == [ms[0]] + ms[1..][..j];
        Associative(first, StreamOf(ms[1..][..j]), ParseAll(later).1);
      }
    }
  }

  lemma NothingArrived()
    ensures ParseAll([]) == ([], [])
  {
  }

  // ----- Bytes that are no message -----

  lemma ReadLonger(b: Bytes, more: Bytes, off: nat, k: nat)
    ensures ReadUInt(b, off, k).Ok? ==> ReadUInt(b + more, off, k) == ReadUInt(b, off, k)
  {
    if off + k <= |b| {
      assert (b + more)[off..off + k] == b[off..off + k];
    }
  }

  /** A message that was found is found again with more behind it. */
  lemma FoundStays(b: Bytes, more: Bytes)
    ensures ParseMessage(b).Found? ==> ParseMessage(b + more) == ParseMessage(b)
  {
    hide DeserializeLogEntry;
    if ParseMessage(b).Found? {
      var length := Decode(b[0..4]);
      assert (b + more)[0..4] == b[0..4] && (b + more)[4] == b[4];
      ReadLonger(b, more, 6, 8);
      assert length >= 1 ==> (b + more)[5..4 + length] == b[5..4 + length];
    }
  }

  /** What stands before such bytes is parsed again, in full, from the same buffer with more behind it. */
  lemma {:induction false} ParsedAgain(b: Bytes, more: Bytes)
    ensures ParseAll(b).0 <= ParseAll(b + more).0
    decreases |b|
  {
    hide ParseMessage;
    FoundStays(b, more);
    if ParseMessage(b).Found? {
      var n := ParseMessage(b).bytesConsumed;
      ParsedAgain(b[n..], more);
      assert (b + more)[n..] == b[n..] + more;
    }
  }

  /** A frame with an opcode that is none. */
  lemma UnknownOpcode(b: Bytes)
    requires b == [0, 0, 0, 1, 0x7F]
    ensures ParseMessage(b).Malformed?
  {
    assert Encode(0, 1) == Encode(0, 0) + [0];
    assert Encode(0, 2) == Encode(0, 1) + [0];
    assert Encode(0, 3) == Encode(0, 2) + [0];
    assert Encode(1, 4) == Encode(0, 3) + [1];
    assert b[0..4] == Encode(1, 4);
    PowersOf256();
    NumberRoundTrip(1, 4);
  }
}
