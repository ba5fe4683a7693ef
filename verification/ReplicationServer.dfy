/** The backup's end of the replication connection. */
module ReplicationServers {
  import opened Wrappers
  import opened Keys
  import opened Buffers
  import opened LogEntries
  import opened ReplicationProtocol
  import opened ReplicationSession
  import opened Sequences

  lemma {:induction false} DecodeBelow(s: Bytes)
    ensures Decode(s) < Pow256(|s|)
  {
    if s != [] {
      DecodeBelow(s[..|s| - 1]);
    }
  }

  /** A number that was read fits the answer that repeats it. */
  lemma ParsedNumber(buffer: Bytes)
    ensures var p := ParseMessage(buffer); p.Found? && p.message.Replicate? ==> p.message.entry.sequenceId < 0x1_0000_0000_0000_0000
  {
    hide Decode, DecodePayload;
    var p := ParseMessage(buffer);
    if p.Found? && p.message.Replicate? {
      var entryBuffer := buffer[5..p.bytesConsumed];
      PowersOf256();
      DecodeBelow(entryBuffer[0..8]);
    }
  }

  /** `written` is what has been handed to the primary's socket; `applied` the entries the store took. */
  class ReplicationServer {
    const entryHandler: Handler
    var buffer: Bytes
    var lastAppliedSequence: int
    var entriesReplicated: nat
    var failedAttempts: nat
    var written: Bytes
    ghost var applied: seq<LogEntry>

    ghost function State(): Backup
      reads this
    {
      Backup(applied, lastAppliedSequence, entriesReplicated, failedAttempts)
    }

    constructor (handler: Handler)
      ensures entryHandler == handler
      ensures State() == START.backup && buffer == START.backupBuffer && written == START.toPrimary
    {
      entryHandler, buffer, lastAppliedSequence, entriesReplicated, failedAttempts, written, applied := handler, [], -1, 0, 0, [], [];
    }

    /**
     Some bytes arrive.  When they turn out to be no message, the whole messages before them
     have been handled but stay in the buffer.
     */
    method HandleData(chunk: Bytes)
      modifies this
      ensures var (ms, rest) := ParseAll(old(buffer) + chunk);
        var (b, answers) := AfterReplicates(entryHandler, old(State()), ms);
        State() == b && written == old(written) + answers &&
        buffer == if ParseMessage(rest).Malformed? then old(buffer) + chunk else rest
    {
      buffer := buffer + chunk;
      var remaining := ProcessBuffer();
      if remaining.Ok? {
        buffer := remaining.value;
      }
    }

    method ProcessBuffer() returns (r: Result<Bytes>)
      modifies this`lastAppliedSequence, this`entriesReplicated, this`failedAttempts, this`written, this`applied
      ensures var (ms, rest) := ParseAll(buffer);
        var (b, answers) := AfterReplicates(entryHandler, old(State()), ms);
        State() == b && written == old(written) + answers && (r.Err? <==> ParseMessage(rest).Malformed?) && (r.Ok? ==> r.value == rest)
    {
      hide ParseMessage, AckBytes;
      ghost var (ms, rest) := ParseAll(buffer);
      ghost var was := State();
      var offset: nat := 0;
      while offset < |buffer|
        invariant offset <= |buffer|
        invariant var (b, answers) := AfterReplicates(entryHandler, State(), ParseAll(buffer[offset..]).0);
          (b, written + answers) == (AfterReplicates(entryHandler, was, ms).0, old(written) + AfterReplicates(entryHandler, was, ms).1)
        invariant ParseAll(buffer[offset..]).1 == rest
      {
        var remaining := buffer[offset..];
        var result := ParseMessage(remaining);
        if result.Malformed? {
          return Err(result.reason);
        }
        if result.Incomplete? { break; }
        ghost var b, before := State(), written;
        if result.message.Replicate? {
          ParsedNumber(remaining);
          HandleReplicate(result.message.entry);
        }
        FirstHandled(entryHandler, b, before, remaining, result);
        assert before + [] == before;
        assert remaining[result.bytesConsumed..] == buffer[offset + result.bytesConsumed..];
        offset := offset + result.bytesConsumed;
      }
      NothingLeft(buffer[offset..]);
      r := Ok(buffer[offset..]);
    }

    /** The entry goes to the store, and the primary is told what became of it. */
    method HandleReplicate(entry: LogEntry)
      requires entry.sequenceId < 0x1_0000_0000_0000_0000
      modifies this`lastAppliedSequence, this`entriesReplicated, this`failedAttempts, this`written, this`applied
      ensures (State(), written) ==
        (AfterReplicate(entryHandler, old(State()), Replicate(entry)).0,
         old(written) + AfterReplicate(entryHandler, old(State()), Replicate(entry)).1)
    {
      var ack: Bytes;
      if entryHandler(entriesReplicated + failedAttempts, entry) {
        applied := applied + [entry];
        lastAppliedSequence := entry.sequenceId;
        entriesReplicated := entriesReplicated + 1;
        ack := SerializeAck(ACK_OK, entry.sequenceId);
      } else {
        failedAttempts := failedAttempts + 1;
        ack := SerializeAck(ACK_ERROR, entry.sequenceId);
      }
      written := written + ack;
    }
  }

  /** Handling the first message and then the others. */
  lemma FirstHandled(handler: Handler, b: Backup, written: Bytes, remaining: Bytes, p: Parsed)
    requires p.Found? && p == ParseMessage(remaining)
    ensures var (b1, answer) := AfterReplicate(handler, b, p.message);
      var (all, answers) := AfterReplicates(handler, b, ParseAll(remaining).0);
      var (rest, others) := AfterReplicates(handler, b1, ParseAll(remaining[p.bytesConsumed..]).0);
      all == rest && written + answers == written + answer + others && ParseAll(remaining).1 == ParseAll(remaining[p.bytesConsumed..]).1
  {
    hide ParseMessage, AfterReplicate;
    var later := ParseAll(remaining[p.bytesConsumed..]).0;
    assert ParseAll(remaining).0 == [p.message] + later && ([p.message] + later)[1..] == later;
    var (b1, answer) := AfterReplicate(handler, b, p.message);
    Associative(written, answer, AfterReplicates(handler, b1, later).1);
  }

  lemma NothingLeft(b: Bytes)
    ensures b == [] ==> ParseMessage(b).Incomplete?
  {
  }
}
