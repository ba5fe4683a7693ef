/** The primary's end of the replication connection. */
module ReplicationManagers {
  import opened Wrappers
  import opened Keys
  import opened LogEntries
  import opened ReplicationProtocol
  import opened ReplicationSession
  import WalFormat

  /** `written` is what has been handed to the socket. */
  class ReplicationManager {
    var connected: bool
    var connecting: bool
    var reconnectScheduled: bool
    var buffer: Bytes
    var pendingAcks: seq<LogEntry>
    var lastReplicatedSequence: int
    var entriesReplicated: nat
    var failedAttempts: nat
    var written: Bytes

    function State(): Primary
      reads this
    {
      Primary(pendingAcks, lastReplicatedSequence, entriesReplicated, failedAttempts)
    }

    constructor ()
      ensures !connected && !connecting && !reconnectScheduled && State() == START.primary && buffer == START.primaryBuffer && written == START.toBackup
    {
      connected, connecting, reconnectScheduled := false, false, false;
      buffer, pendingAcks, lastReplicatedSequence := [], [], -1;
      entriesReplicated, failedAttempts, written := 0, 0, [];
    }

    /** Connecting begins unless it is done or under way; the half-received bytes of the last connection stay. */
    method BeginConnect() returns (begun: bool)
      modifies this`connecting
      ensures begun <==> !connected && !old(connecting)
      ensures connecting == (old(connecting) || begun)
    {
      begun := !connected && !connecting;
      if begun {
        connecting := true;
      }
    }

    method FinishConnect(succeeded: bool)
      modifies this`connected, this`connecting
      ensures !connecting && connected == (old(connected) || succeeded)
    {
      connected := connected || succeeded;
      connecting := false;
    }

    /** A new attempt is scheduled unless one is, or a connection is being made. */
    method ScheduleReconnect()
      modifies this`reconnectScheduled
      ensures reconnectScheduled == (old(reconnectScheduled) || !connecting)
    {
      if reconnectScheduled || connecting {
        return;
      }
      reconnectScheduled := true;
    }

    /** An entry is sent at once and waits for its answer; without a connection it is dropped. */
    method Replicate(entry: LogEntry) returns (r: Result<()>)
      requires WalFormat.Numbered(entry)
      modifies this
      ensures connected == old(connected) && buffer == old(buffer) && connecting == old(connecting)
      ensures reconnectScheduled == (old(reconnectScheduled) || (!connected && !connecting))
      ensures r.Err? <==> connected && !Sendable(Message.Replicate(entry))
      ensures
        if connected && r.Ok? then
          State() == old(State()).(pending := old(pendingAcks) + [entry]) &&
          written == old(written) + MessageBytes(Message.Replicate(entry))
        else State() == old(State()) && written == old(written)
    {
      if !connected {
        ScheduleReconnect();
        return Ok(());
      }
      var message := SerializeReplicate(entry);
      if message.Err? {
        return Err(message.reason);
      }
      pendingAcks := pendingAcks + [entry];
      written := written + message.value;
      r := Ok(());
    }

    /** Every message that is whole by now is handled; bytes that are no message make it throw. */
    method HandleData(chunk: Bytes) returns (r: Result<()>)
      modifies this`buffer, this`pendingAcks, this`lastReplicatedSequence, this`entriesReplicated, this`failedAttempts
      ensures var (ms, rest) := ParseAll(old(buffer) + chunk);
        State() == AfterAcks(old(State()), ms) && buffer == rest && (r.Err? <==> ParseMessage(rest).Malformed?)
    {
      hide ParseMessage;
      buffer := buffer + chunk;
      ghost var (ms, rest) := ParseAll(buffer);
      while |buffer| >= 5
        invariant AfterAcks(State(), ParseAll(buffer).0) == AfterAcks(old(State()), ms) && ParseAll(buffer).1 == rest
        decreases |buffer|
      {
        var result := ParseMessage(buffer);
        if result.Malformed? {
          return Err(result.reason);
        }
        if result.Incomplete? { break; }
        if result.message.Ack? {
          HandleAck(result.message);
        }
        buffer := buffer[result.bytesConsumed..];
      }
      ShortIsIncomplete(buffer);
      r := Ok(());
    }

    /** The first pending entry is taken from the queue without a look at the answer's number. */
    method HandleAck(ack: Message)
      requires ack.Ack?
      modifies this`pendingAcks, this`lastReplicatedSequence, this`entriesReplicated, this`failedAttempts
      ensures State() == AfterAck(old(State()), ack)
    {
      if pendingAcks == [] {
        return;
      }
      var pending := pendingAcks[0];
      pendingAcks := pendingAcks[1..];
      if ack.status == ACK_OK {
        lastReplicatedSequence := pending.sequenceId;
        entriesReplicated := entriesReplicated + 1;
      } else {
        failedAttempts := failedAttempts + 1;
      }
    }

    method RejectAllPending()
      modifies this`pendingAcks, this`failedAttempts
      ensures State() == old(State()).(pending := [], failedAttempts := old(failedAttempts) + |old(pendingAcks)|)
    {
      for i := 0 to |pendingAcks|
        invariant State() == old(State()).(failedAttempts := old(failedAttempts) + i)
      {
        failedAttempts := failedAttempts + 1;
      }
      pendingAcks := [];
    }

    /** What was pending counts as failed, and so does the connection; what was half received is kept. */
    method HandleConnectionError()
      modifies this
      ensures !connected && buffer == old(buffer) && written == old(written) && connecting == old(connecting)
      ensures reconnectScheduled == (old(reconnectScheduled) || !connecting)
      ensures State() == old(State()).(pending := [], failedAttempts := old(failedAttempts) + 1 + |old(pendingAcks)|)
    {
      failedAttempts := failedAttempts + 1;
      connected := false;
      RejectAllPending();
      ScheduleReconnect();
    }

    /** A close that follows an error finds nothing left to do. */
    method HandleConnectionClose()
      modifies this
      ensures !connected && buffer == old(buffer) && written == old(written) && connecting == old(connecting)
      ensures reconnectScheduled == (old(reconnectScheduled) || (old(connected) && !connecting))
      ensures State() == if old(connected) then old(State()).(pending := [], failedAttempts := old(failedAttempts) + |old(pendingAcks)|) else old(State())
    {
      if connected {
        connected := false;
        RejectAllPending();
        ScheduleReconnect();
      }
    }
  }

  lemma ShortIsIncomplete(buffer: Bytes)
    ensures |buffer| < 5 ==> ParseMessage(buffer).Incomplete?
  {
  }
}
