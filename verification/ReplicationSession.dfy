/**
 One replication session: the primary's and the backup's event handlers, and the two byte
 streams between them, which arrive in arbitrary pieces.
 */
module ReplicationSession {
  import opened Wrappers
  import opened Keys
  import opened Buffers
  import opened Framing
  import opened Sequences
  import opened LogEntries
  import opened ReplicationProtocol
  import WalFormat

  // ----- Pieces of a stream -----

  ghost function Joined(chunks: seq<Bytes>): Bytes {
    if chunks == [] then [] else Joined(chunks[..|chunks| - 1]) + chunks[|chunks| - 1]
  }

  /** What a receiver has parsed and what it has left after these pieces. */
  ghost function Received(chunks: seq<Bytes>): (seq<Message>, Bytes) {
    if chunks == [] then ([], [])
    else
      var (ms, rest) := Received(chunks[..|chunks| - 1]);
      var (more, rest') := ParseAll(rest + chunks[|chunks| - 1]);
      (ms + more, rest')
  }

  ghost predicate AllSendable(ms: seq<Message>) {
    forall i :: 0 <= i < |ms| ==> Sendable(ms[i])
  }

  /** Whole messages in front of something are parsed, and then that. */
  lemma {:induction false} ParseBehind(ms: seq<Message>, later: Bytes)
    requires AllSendable(ms)
    ensures ParseAll(StreamOf(ms) + later) == (ms + ParseAll(later).0, ParseAll(later).1)
  {
    hide ParseAll, MessageBytes, Sendable;
    if ms == [] {
      assert StreamOf(ms) + later == later && ms + ParseAll(later).0 == ParseAll(later).0;
    } else {
      ParseBehind(ms[1..], later);
      ParseFirst(ms[0], StreamOf(ms[1..]) + later);
      Associative(MessageBytes(ms[0]), StreamOf(ms[1..]), later);
      HeadAndTail(ms);
      Associative([ms[0]], ms[1..], ParseAll(later).0);
    }
  }

  lemma {:induction false} StreamConcat(a: seq<Message>, b: seq<Message>)
    requires AllSendable(a) && AllSendable(b)
    ensures AllSendable(a + b) && StreamOf(a + b) == StreamOf(a) + StreamOf(b)
  {
    hide MessageBytes, Sendable;
    if a == [] {
      assert a + b == b;
    } else {
      StreamConcat(a[1..], b);
      TailOfConcat(a, b);
      Associative(MessageBytes(a[0]), StreamOf(a[1..]), StreamOf(b));
    }
  }

  /**
   However the bytes of a stream of messages are split into pieces, what has been parsed is
   exactly the messages that have arrived whole, in order, and what is left over is the
   beginning of the next.
   */
  lemma {:induction false} PiecesDoNotMatter(ms: seq<Message>, chunks: seq<Bytes>) returns (k: nat)
    requires AllSendable(ms) && Joined(chunks) <= StreamOf(ms)
    ensures k <= |ms| && Received(chunks).0 == ms[..k] && Joined(chunks) == StreamOf(ms[..k]) + Received(chunks).1
    ensures if k < |ms| then Received(chunks).1 < MessageBytes(ms[k]) else Received(chunks).1 == []
  {
    hide ParseAll, MessageBytes, Sendable;
    if chunks == [] {
      k := 0;
      NothingYet(ms);
    } else {
      var init, last := chunks[..|chunks| - 1], chunks[|chunks| - 1];
      assert Joined(init) <= StreamOf(ms) by { assert Joined(init) == StreamOf(ms)[..|Joined(chunks)|][..|Joined(init)|]; }
      var j := PiecesDoNotMatter(ms, init);
      k := NextPiece(ms, j, Received(init).1, last);
    }
  }

  lemma NothingYet(ms: seq<Message>)
    requires AllSendable(ms)
    ensures ms != [] ==> [] < MessageBytes(ms[0])
    ensures StreamOf(ms[..0]) == []
  {
  }

  lemma NextPiece(ms: seq<Message>, j: nat, rest: Bytes, chunk: Bytes) returns (k: nat)
    requires AllSendable(ms) && j <= |ms| && StreamOf(ms[..j]) + rest + chunk <= StreamOf(ms)
    ensures j <= k <= |ms|
    ensures var (more, rest') := ParseAll(rest + chunk);
      ms[..j] + more == ms[..k] && StreamOf(ms[..j]) + rest + chunk == StreamOf(ms[..k]) + rest' &&
      if k < |ms| then rest' < MessageBytes(ms[k]) else rest' == []
  {
    hide ParseAll, MessageBytes, Sendable;
    var a, b := ms[..j], ms[j..];
    assert ms == a + b;
    StreamConcat(a, b);
    Associative(StreamOf(a), rest, chunk);
    PrefixOfConcat(StreamOf(a), StreamOf(b), StreamOf(a) + (rest + chunk));
    assert (StreamOf(a) + (rest + chunk))[|StreamOf(a)|..] == rest + chunk;
    var i := ParseArrived(b, rest + chunk);
    k := j + i;
    assert ms[..k] == a + b[..i];
    StreamConcat(a, b[..i]);
    Associative(StreamOf(a), StreamOf(b[..i]), ParseAll(rest + chunk).1);
  }

  // ----- Both ends, without their buffers -----

  /** The primary: entries not yet acknowledged, oldest first, and its counters. */
  datatype Primary = Primary(pending: seq<LogEntry>, lastReplicated: int, entriesReplicated: nat, failedAttempts: nat)

  /** The backup: the entries its store has taken, in order, and its counters. */
  datatype Backup = Backup(applied: seq<LogEntry>, lastApplied: int, entriesReplicated: nat, failedAttempts: nat)

  /**
   Whether the backup's store takes an entry may depend on how many came before it: the
   handler is a call into a store with its own state.
   */
  type Handler = (nat, LogEntry) -> bool

  function Handled(b: Backup): nat {
    b.entriesReplicated + b.failedAttempts
  }

  /** An acknowledgement settles the oldest pending entry, whatever its number; anything else is passed over. */
  function AfterAck(p: Primary, m: Message): Primary {
    if m.Replicate? || p.pending == [] then p
    else if m.status == ACK_OK then
      p.(pending := p.pending[1..], lastReplicated := p.pending[0].sequenceId, entriesReplicated := p.entriesReplicated + 1)
    else
      p.(pending := p.pending[1..], failedAttempts := p.failedAttempts + 1)
  }

  function AfterAcks(p: Primary, ms: seq<Message>): Primary
    decreases |ms|
  {
    if ms == [] then p else AfterAcks(AfterAck(p, ms[0]), ms[1..])
  }

  function AckBytes(status: Byte, id: nat): Bytes {
    Frame([REPLICATE_ACK] + [status] + Encode(id, 8))
  }

  /** An entry is offered to the store; the answer tells whether it was taken. */
  function AfterReplicate(handler: Handler, b: Backup, m: Message): (Backup, Bytes) {
    match m
    case Ack(_, _) => (b, [])
    case Replicate(e) =>
      if handler(Handled(b), e) then
        (b.(applied := b.applied + [e], lastApplied := e.sequenceId, entriesReplicated := b.entriesReplicated + 1),
         AckBytes(ACK_OK, e.sequenceId))
      else
        (b.(failedAttempts := b.failedAttempts + 1), AckBytes(ACK_ERROR, e.sequenceId))
  }

  function AfterReplicates(handler: Handler, b: Backup, ms: seq<Message>): (Backup, Bytes)
    decreases |ms|
  {
    if ms == [] then (b, [])
    else
      var (b1, answer) := AfterReplicate(handler, b, ms[0]);
      var (b2, answers) := AfterReplicates(handler, b1, ms[1..]);
      (b2, answer + answers)
  }

  // ----- The session -----

  /** `toBackup` and `toPrimary` are the bytes under way; `sent` is every entry handed to the primary so far. */
  datatype Session = Session(
    primary: Primary, primaryBuffer: Bytes, toPrimary: Bytes,
    backup: Backup, backupBuffer: Bytes, toBackup: Bytes,
    sent: seq<LogEntry>)

  /** Some bytes arrive at an end, or the primary's log hands over one more entry. */
  datatype Event = Send(entry: LogEntry) | ArriveAtBackup(count: nat) | ArriveAtPrimary(count: nat)

  const START := Session(Primary([], -1, 0, 0), [], [], Backup([], -1, 0, 0), [], [], [])

  predicate Possible(s: Session, e: Event) {
    match e
    case Send(entry) => Sendable(Replicate(entry))
    case ArriveAtBackup(n) => n <= |s.toBackup|
    case ArriveAtPrimary(n) => n <= |s.toPrimary|
  }

  function AfterSend(s: Session, entry: LogEntry): Session
    requires Sendable(Replicate(entry))
  {
    s.(primary := s.primary.(pending := s.primary.pending + [entry]), toBackup := s.toBackup + MessageBytes(Replicate(entry)),
       sent := s.sent + [entry])
  }

  function AfterArrivalAtBackup(handler: Handler, s: Session, n: nat): Session
    requires n <= |s.toBackup|
  {
    var (ms, rest) := ParseAll(s.backupBuffer + s.toBackup[..n]);
    var (backup, answers) := AfterReplicates(handler, s.backup, ms);
    s.(backup := backup, backupBuffer := rest, toBackup := s.toBackup[n..], toPrimary := s.toPrimary + answers)
  }

  function AfterArrivalAtPrimary(s: Session, n: nat): Session
    requires n <= |s.toPrimary|
  {
    var (ms, rest) := ParseAll(s.primaryBuffer + s.toPrimary[..n]);
    s.(primary := AfterAcks(s.primary, ms), primaryBuffer := rest, toPrimary := s.toPrimary[n..])
  }

  function After(handler: Handler, s: Session, e: Event): Session
    requires Possible(s, e)
  {
    match e
    case Send(entry) => AfterSend(s, entry)
    case ArriveAtBackup(n) => AfterArrivalAtBackup(handler, s, n)
    case ArriveAtPrimary(n) => AfterArrivalAtPrimary(s, n)
  }

  function Run(handler: Handler, s: Session, events: seq<Event>): Option<Session> {
    if events == [] then Some(s)
    else
      match Run(handler, s, events[..|events| - 1])
      case None => None
      case Some(t) =>
        var e := events[|events| - 1];
        if Possible(t, e) then Some(After(handler, t, e)) else None
  }

  // ----- What every run keeps -----

  function Requests(entries: seq<LogEntry>): seq<Message> {
    seq(|entries|, i requires 0 <= i < |entries| => Replicate(entries[i]))
  }

  function StatusOf(handler: Handler, i: nat, e: LogEntry): Byte {
    if handler(i, e) then ACK_OK else ACK_ERROR
  }

  /** The answers to some entries of which the first was handled as number `from`. */
  function Answers(handler: Handler, entries: seq<LogEntry>, from: nat): seq<Message> {
    seq(|entries|, i requires 0 <= i < |entries| => Ack(StatusOf(handler, from + i, entries[i]), entries[i].sequenceId))
  }

  /** The entries among these that the backup's store takes. */
  function Taken(handler: Handler, entries: seq<LogEntry>, from: nat): seq<LogEntry> {
    if entries == [] then []
    else (if handler(from, entries[0]) then [entries[0]] else []) + Taken(handler, entries[1..], from + 1)
  }

  function LastOf(entries: seq<LogEntry>, otherwise: int): int {
    if entries == [] then otherwise else entries[|entries| - 1].sequenceId
  }

  function Acknowledged(p: Primary): nat {
    p.entriesReplicated + p.failedAttempts
  }

  predicate AllFit(entries: seq<LogEntry>) {
    forall i :: 0 <= i < |entries| ==> Sendable(Replicate(entries[i]))
  }

  /**
   Of the entries sent, the backup has handled the first ones; of these the primary knows the
   outcome of the first ones; the others' requests and answers are under way, in order.
   */
  ghost predicate Invariant(handler: Handler, s: Session) {
    var a, h := Acknowledged(s.primary), Handled(s.backup);
    a <= h <= |s.sent| && AllFit(s.sent) &&
    s.primary.pending == s.sent[a..] &&
    InFlight(s.backupBuffer + s.toBackup, Requests(s.sent[h..])) &&
    InFlight(s.primaryBuffer + s.toPrimary, Answers(handler, s.sent[a..h], a)) &&
    s.backup.applied == Taken(handler, s.sent[..h], 0) && s.backup.entriesReplicated == |s.backup.applied| &&
    s.backup.lastApplied == LastOf(s.backup.applied, -1) &&
    s.primary.entriesReplicated == |Taken(handler, s.sent[..a], 0)| &&
    s.primary.lastReplicated == LastOf(Taken(handler, s.sent[..a], 0), -1)
  }

  /** These bytes are exactly these messages. */
  ghost predicate InFlight(bytes: Bytes, ms: seq<Message>) {
    AllSendable(ms) && bytes == StreamOf(ms)
  }

  lemma AnswersSendable(handler: Handler, entries: seq<LogEntry>, from: nat)
    requires AllFit(entries)
    ensures AllSendable(Answers(handler, entries, from))
  {
    hide Fits, WalFormat.DataBytes;
    forall i | 0 <= i < |entries| ensures Sendable(Answers(handler, entries, from)[i]) {
      assert Sendable(Replicate(entries[i]));
    }
  }

  lemma {:induction false} TakenConcat(handler: Handler, x: seq<LogEntry>, y: seq<LogEntry>, from: nat)
    ensures Taken(handler, x + y, from) == Taken(handler, x, from) + Taken(handler, y, from + |x|)
  {
    if x == [] {
      assert x + y == y;
    } else {
      TailOfConcat(x, y);
      TakenConcat(handler, x[1..], y, from + 1);
      var first := if handler(from, x[0]) then [x[0]] else [];
      Associative(first, Taken(handler, x[1..], from + 1), Taken(handler, y, from + |x|));
    }
  }

  /** More bytes behind those in flight. */
  lemma FlightLonger(buffer: Bytes, wire: Bytes, ms: seq<Message>, more: Bytes, ms': seq<Message>)
    requires InFlight(buffer + wire, ms) && InFlight(more, ms')
    ensures InFlight(buffer + (wire + more), ms + ms')
  {
    hide MessageBytes, Sendable, StreamOf;
    Associative(buffer, wire, more);
    StreamConcat(ms, ms');
  }

  /** Some bytes arrive: what is parsed are the first messages in flight, and the others remain in flight. */
  lemma FlightArrives(buffer: Bytes, wire: Bytes, ms: seq<Message>, n: nat) returns (k: nat)
    requires InFlight(buffer + wire, ms) && n <= |wire|
    ensures var (parsed, rest) := ParseAll(buffer + wire[..n]);
      k <= |ms| && parsed == ms[..k] && InFlight(rest + wire[n..], ms[k..])
    ensures ParseMessage(ParseAll(buffer + wire[..n]).1).Incomplete?
  {
    hide MessageBytes, Sendable, StreamOf, ParseAll, ParseMessage;
    var arrived := buffer + wire[..n];
    Associative(buffer, wire[..n], wire[n..]);
    assert wire == wire[..n] + wire[n..];
    assert arrived <= StreamOf(ms);
    k := ParseArrived(ms, arrived);
    var rest := ParseAll(arrived).1;
    assert ms == ms[..k] + ms[k..];
    StreamConcat(ms[..k], ms[k..]);
    Associative(StreamOf(ms[..k]), rest, wire[n..]);
    SameBehind(StreamOf(ms[..k]), rest + wire[n..], StreamOf(ms[k..]));
    if k < |ms| { ParsePart(ms[k], rest); } else { NothingThere(rest); }
  }

  lemma NothingThere(b: Bytes)
    requires b == []
    ensures ParseMessage(b).Incomplete?
  {
  }

  lemma SameBehind(a: Bytes, b: Bytes, c: Bytes)
    requires a + b == a + c
    ensures b == c
  {
    assert b == (a + b)[|a|..] == (a + c)[|a|..] == c;
  }

  // ----- The steps -----

  lemma LastOfConcat(x: seq<LogEntry>, y: seq<LogEntry>, otherwise: int)
    ensures LastOf(x + y, otherwise) == LastOf(y, LastOf(x, otherwise))
  {
  }

  /** What the backup makes of a run of requests. */
  lemma {:induction false} RequestsHandled(handler: Handler, b: Backup, entries: seq<LogEntry>)
    requires AllFit(entries)
    ensures AllSendable(Answers(handler, entries, Handled(b)))
    ensures var (b', answers) := AfterReplicates(handler, b, Requests(entries));
      var taken := Taken(handler, entries, Handled(b));
      answers == StreamOf(Answers(handler, entries, Handled(b))) && Handled(b') == Handled(b) + |entries| &&
      b'.applied == b.applied + taken && b'.entriesReplicated == b.entriesReplicated + |taken| &&
      b'.lastApplied == LastOf(taken, b.lastApplied)
    decreases |entries|
  {
    hide Sendable, AckBytes, MessageBytes, LastOf;
    AnswersSendable(handler, entries, Handled(b));
    var all := Answers(handler, entries, Handled(b));
    if entries == [] {
      LastOfNothing(entries, b.lastApplied);
    } else {
      var ms := Requests(entries);
      var (b1, answer) := AfterReplicate(handler, b, ms[0]);
      var from := Handled(b);
      assert ms[1..] == Requests(entries[1..]) && ms[0] == Replicate(entries[0]);
      RequestsHandled(handler, b1, entries[1..]);
      assert Handled(b1) == from + 1;
      assert all[1..] == Answers(handler, entries[1..], from + 1);
      assert all[0] == Ack(StatusOf(handler, from, entries[0]), entries[0].sequenceId);
      AnswerBytes(handler, from, entries[0]);
      var one, more := if handler(from, entries[0]) then [entries[0]] else [], Taken(handler, entries[1..], from + 1);
      Associative(b.applied, one, more);
      LastOfConcat(one, more, b.lastApplied);
      LastOfOne(entries[0], b.lastApplied);
      LastOfNothing([], b.lastApplied);
      assert b.applied + [] == b.applied;
    }
  }

  lemma LastOfNothing(none: seq<LogEntry>, otherwise: int)
    requires none == []
    ensures LastOf(none, otherwise) == otherwise
  {
  }

  lemma LastOfOne(e: LogEntry, otherwise: int)
    ensures LastOf([e], otherwise) == e.sequenceId
  {
  }

  lemma AnswerBytes(handler: Handler, i: nat, e: LogEntry)
    requires Sendable(Ack(StatusOf(handler, i, e), e.sequenceId))
    ensures AckBytes(StatusOf(handler, i, e), e.sequenceId) == MessageBytes(Ack(StatusOf(handler, i, e), e.sequenceId))
  {
  }

  /** What the primary makes of the answers to its oldest pending entries. */
  lemma {:induction false} AnswersHandled(handler: Handler, p: Primary, entries: seq<LogEntry>, others: seq<LogEntry>, from: nat)
    requires p.pending == entries + others
    ensures var p' := AfterAcks(p, Answers(handler, entries, from));
      var taken := Taken(handler, entries, from);
      p'.pending == others && Acknowledged(p') == Acknowledged(p) + |entries| &&
      p'.entriesReplicated == p.entriesReplicated + |taken| && p'.lastReplicated == LastOf(taken, p.lastReplicated)
    decreases |entries|
  {
    hide LastOf;
    var ms := Answers(handler, entries, from);
    if entries == [] {
      LastOfNothing(entries, p.lastReplicated);
      assert p.pending == others;
    } else {
      TailOfConcat(entries, others);
      assert ms[1..] == Answers(handler, entries[1..], from + 1);
      var one, more := if handler(from, entries[0]) then [entries[0]] else [], Taken(handler, entries[1..], from + 1);
      AnswersHandled(handler, AfterAck(p, ms[0]), entries[1..], others, from + 1);
      LastOfConcat(one, more, p.lastReplicated);
      LastOfOne(entries[0], p.lastReplicated);
      LastOfNothing([], p.lastReplicated);
    }
  }

  lemma SendKeeps(handler: Handler, s: Session, e: LogEntry)
    requires Invariant(handler, s) && Sendable(Replicate(e))
    ensures Invariant(handler, AfterSend(s, e))
  {
    hide Sendable, MessageBytes, StreamOf, Taken, LastOf;
    var a, h := Acknowledged(s.primary), Handled(s.backup);
    var sent := s.sent + [e];
    assert sent[a..] == s.sent[a..] + [e] && sent[..a] == s.sent[..a] && sent[..h] == s.sent[..h] && sent[a..h] == s.sent[a..h];
    OneInFlight(e);
    FlightLonger(s.backupBuffer, s.toBackup, Requests(s.sent[h..]), MessageBytes(Replicate(e)), [Replicate(e)]);
    assert Requests(sent[h..]) == Requests(s.sent[h..]) + [Replicate(e)];
  }

  lemma OneInFlight(e: LogEntry)
    requires Sendable(Replicate(e))
    ensures InFlight(MessageBytes(Replicate(e)), [Replicate(e)])
  {
    var m := Replicate(e);
    assert StreamOf([m]) == MessageBytes(m) + StreamOf([m][1..]) && [m][1..] == [];
  }

  lemma BackupKeeps(handler: Handler, s: Session, n: nat)
    requires Invariant(handler, s) && n <= |s.toBackup|
    ensures Invariant(handler, AfterArrivalAtBackup(handler, s, n))
  {
    hide Sendable, MessageBytes, StreamOf, Taken, LastOf, ParseAll, AfterReplicates, ParseMessage;
    var a, h := Acknowledged(s.primary), Handled(s.backup);
    var k := FlightArrives(s.backupBuffer, s.toBackup, Requests(s.sent[h..]), n);
    var entries := s.sent[h..][..k];
    assert Requests(s.sent[h..])[..k] == Requests(entries) && Requests(s.sent[h..])[k..] == Requests(s.sent[h + k..]);
    RequestsHandled(handler, s.backup, entries);
    var answers := AfterReplicates(handler, s.backup, Requests(entries)).1;
    FlightLonger(s.primaryBuffer, s.toPrimary, Answers(handler, s.sent[a..h], a), answers, Answers(handler, entries, h));
    assert Answers(handler, s.sent[a..h + k], a) == Answers(handler, s.sent[a..h], a) + Answers(handler, entries, h);
    assert s.sent[..h + k] == s.sent[..h] + entries;
    TakenConcat(handler, s.sent[..h], entries, 0);
    LastOfConcat(s.backup.applied, Taken(handler, entries, h), -1);
  }

  lemma PrimaryKeeps(handler: Handler, s: Session, n: nat)
    requires Invariant(handler, s) && n <= |s.toPrimary|
    ensures Invariant(handler, AfterArrivalAtPrimary(s, n))
  {
    hide Sendable, MessageBytes, StreamOf, Taken, LastOf, ParseAll, AfterAcks, ParseMessage;
    var a, h := Acknowledged(s.primary), Handled(s.backup);
    var k := FlightArrives(s.primaryBuffer, s.toPrimary, Answers(handler, s.sent[a..h], a), n);
    var entries := s.sent[a..h][..k];
    assert Answers(handler, s.sent[a..h], a)[..k] == Answers(handler, entries, a);
    assert Answers(handler, s.sent[a..h], a)[k..] == Answers(handler, s.sent[a + k..h], a + k);
    assert s.sent[a..] == entries + s.sent[a + k..];
    AnswersHandled(handler, s.primary, entries, s.sent[a + k..], a);
    assert s.sent[..a + k] == s.sent[..a] + entries;
    TakenConcat(handler, s.sent[..a], entries, 0);
    LastOfConcat(Taken(handler, s.sent[..a], 0), Taken(handler, entries, a), -1);
  }

  lemma StepKeeps(handler: Handler, s: Session, e: Event)
    requires Invariant(handler, s) && Possible(s, e)
    ensures Invariant(handler, After(handler, s, e))
  {
    hide Invariant, AfterSend, AfterArrivalAtBackup, AfterArrivalAtPrimary, Sendable;
    match e
    case Send(entry) => SendKeeps(handler, s, entry);
    case ArriveAtBackup(n) => BackupKeeps(handler, s, n);
    case ArriveAtPrimary(n) => PrimaryKeeps(handler, s, n);
  }

  /** Before anything is sent. */
  lemma StartKeeps(handler: Handler, s: Session)
    requires s.sent == [] && s.primary.pending == [] && s.backup.applied == []
    requires s.primaryBuffer == [] && s.toPrimary == [] && s.backupBuffer == [] && s.toBackup == []
    requires s.primary.entriesReplicated == s.primary.failedAttempts == s.backup.entriesReplicated == s.backup.failedAttempts == 0
    requires s.primary.lastReplicated == s.backup.lastApplied == -1
    ensures Invariant(handler, s)
  {
    hide MessageBytes, Sendable;
    assert Answers(handler, s.sent[0..0], 0) == [] && Requests(s.sent[0..]) == [];
  }

  lemma {:induction false} RunKeeps(handler: Handler, events: seq<Event>)
    ensures Run(handler, START, events).Some? ==> Invariant(handler, Run(handler, START, events).value)
  {
    hide Invariant, After, Possible;
    if events == [] {
      StartKeeps(handler, START);
    } else {
      RunKeeps(handler, events[..|events| - 1]);
      var before := Run(handler, START, events[..|events| - 1]);
      if before.Some? && Possible(before.value, events[|events| - 1]) {
        StepKeeps(handler, before.value, events[|events| - 1]);
      }
    }
  }

  // ----- What follows -----

  function Ids(entries: seq<LogEntry>): seq<nat> {
    seq(|entries|, i requires 0 <= i < |entries| => entries[i].sequenceId)
  }

  function MessageIds(ms: seq<Message>): seq<nat> {
    seq(|ms|, i requires 0 <= i < |ms| => if ms[i].Replicate? then ms[i].entry.sequenceId else ms[i].sequenceId)
  }

  lemma ParseFlight(bytes: Bytes, ms: seq<Message>)
    requires InFlight(bytes, ms)
    ensures ParseAll(bytes) == (ms, [])
  {
    hide ParseAll, MessageBytes, Sendable;
    ParseBehind(ms, []);
    NothingArrived();
    assert StreamOf(ms) + [] == bytes && ms + [] == ms;
  }

  /**
   At any point of any run the numbers of the pending entries are those of the answers under
   way and then those of the requests under way.
   */
  lemma PendingIsUnderWay(handler: Handler, events: seq<Event>)
    ensures var r := Run(handler, START, events);
      r.Some? ==>
        Ids(r.value.primary.pending)
        == MessageIds(ParseAll(r.value.primaryBuffer + r.value.toPrimary).0) + MessageIds(ParseAll(r.value.backupBuffer + r.value.toBackup).0)
  {
    hide Run, ParseAll, InFlight, Taken, LastOf, Sendable;
    RunKeeps(handler, events);
    if Run(handler, START, events).Some? {
      var s := Run(handler, START, events).value;
      var a, h := Acknowledged(s.primary), Handled(s.backup);
      ParseFlight(s.primaryBuffer + s.toPrimary, Answers(handler, s.sent[a..h], a));
      ParseFlight(s.backupBuffer + s.toBackup, Requests(s.sent[h..]));
    }
  }

  /**
   Whenever bytes arrive at the primary, every answer among them meets the pending entry it
   answers at the head of the queue, and says whether the backup has taken it; what is left
   over is the beginning of an answer.
   */
  lemma AnswersMeetTheirEntries(handler: Handler, events: seq<Event>, n: nat)
    ensures var r := Run(handler, START, events);
      r.Some? && n <= |r.value.toPrimary| ==>
        var s := r.value;
        var (ms, rest) := ParseAll(s.primaryBuffer + s.toPrimary[..n]);
        |ms| <= |s.primary.pending| && ParseMessage(rest).Incomplete? &&
        forall i :: 0 <= i < |ms| ==>
          ms[i] == Ack(StatusOf(handler, Acknowledged(s.primary) + i, s.primary.pending[i]), s.primary.pending[i].sequenceId)
  {
    hide Run, ParseAll, InFlight, Taken, LastOf, Sendable, ParseMessage;
    RunKeeps(handler, events);
    var r := Run(handler, START, events);
    if r.Some? && n <= |r.value.toPrimary| {
      var s := r.value;
      var a, h := Acknowledged(s.primary), Handled(s.backup);
      var k := FlightArrives(s.primaryBuffer, s.toPrimary, Answers(handler, s.sent[a..h], a), n);
    }
  }

  lemma {:induction false} AllTaken(handler: Handler, entries: seq<LogEntry>, from: nat)
    requires forall i :: 0 <= i < |entries| ==> handler(from + i, entries[i])
    ensures Taken(handler, entries, from) == entries
  {
    if entries != [] {
      assert handler(from + 0, entries[0]);
      AllTaken(handler, entries[1..], from + 1);
      HeadAndTail(entries);
    }
  }

  /**
   If the backup refuses nothing, what it has taken is always a first part of what was sent,
   and all of it once nothing is under way to it.
   */
  lemma BackupTakesThemInOrder(handler: Handler, events: seq<Event>)
    ensures var r := Run(handler, START, events);
      r.Some? && AcceptsAll(handler, r.value.sent) ==>
        var (s, h) := (r.value, Handled(r.value.backup));
        h <= |s.sent| && s.backup.applied == s.sent[..h] && (s.backupBuffer == [] && s.toBackup == [] ==> h == |s.sent|)
  {
    hide Run, Taken, LastOf, Sendable;
    RunKeeps(handler, events);
    var r := Run(handler, START, events);
    if r.Some? && AcceptsAll(handler, r.value.sent) {
      var s := r.value;
      var part := s.sent[..Handled(s.backup)];
      assert forall i :: 0 <= i < |part| ==> handler(0 + i, part[i]);
      AllTaken(handler, part, 0);
      NothingUnderWay(s.backupBuffer + s.toBackup, Requests(s.sent[Handled(s.backup)..]));
    }
  }

  ghost predicate AcceptsAll(handler: Handler, sent: seq<LogEntry>) {
    forall i :: 0 <= i < |sent| ==> handler(i, sent[i])
  }

  /**
   Once nothing is under way in either direction, nothing is pending, and the primary's
   counters and last number are the backup's, whatever the backup took or refused.
   */
  lemma DrainedSessionsAgree(handler: Handler, events: seq<Event>)
    ensures var r := Run(handler, START, events);
      r.Some? && r.value.primaryBuffer + r.value.toPrimary == [] && r.value.backupBuffer + r.value.toBackup == [] ==>
        var (p, b) := (r.value.primary, r.value.backup);
        p == Primary([], b.lastApplied, b.entriesReplicated, b.failedAttempts) && Handled(b) == |r.value.sent|
  {
    hide Run, Taken, LastOf, Sendable;
    RunKeeps(handler, events);
    if Run(handler, START, events).Some? {
      var s := Run(handler, START, events).value;
      var a, h := Acknowledged(s.primary), Handled(s.backup);
      NothingUnderWay(s.backupBuffer + s.toBackup, Requests(s.sent[h..]));
      NothingUnderWay(s.primaryBuffer + s.toPrimary, Answers(handler, s.sent[a..h], a));
    }
  }

  lemma NothingUnderWay(bytes: Bytes, ms: seq<Message>)
    requires InFlight(bytes, ms)
    ensures bytes == [] ==> ms == []
  {
    if ms != [] {
      assert |MessageBytes(ms[0])| >= 4;
    }
  }
}
