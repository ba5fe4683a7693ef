/**
 Appending to the write-ahead log under its asynchronous lock.  Every stretch of code between
 two awaits is one step; any number of appends, timer and size-triggered flushes and
 checkpoints may be under way at once.  Entries are represented by their sequence ids.
 */
module GroupCommit {
  import opened Sequences
  import opened Wrappers

  /** What an asynchronous call does once it has the lock. */
  datatype Task = AppendOne(id: nat) | FlushBatch | Checkpoint

  /** How far a call that has been granted the lock has come. */
  datatype Phase = Entered | Writing(batch: seq<nat>, done: nat) | Rotating

  datatype Call = Call(task: Task, phase: Phase)

  datatype Settlement = Settlement(id: nat, resolved: bool)

  /**
   `locked` and `queue` are the lock's own fields; `inside` lists the calls between the grant
   of the lock and its release.  The last four fields record what has happened: how each
   append was settled, what has been written and synced, and who asked for and got the lock.
   */
  datatype State = State(
    everyWrite: bool, nextId: nat, pending: seq<nat>, locked: bool, queue: seq<Task>, inside: seq<Call>, file: seq<nat>,
    settled: seq<Settlement>, durable: set<nat>, asked: seq<Task>, admitted: seq<Task>)

  datatype Action =
    | Append
    | Tick
    | StartCheckpoint
    | Begin(call: nat)
    | Write(call: nat)
    | Sync(call: nat)
    | Fail(call: nat)
    | Rotate(call: nat, sameName: bool)

  const BATCH_LIMIT: nat := 100

  // ----- The lock -----

  function Acquire(s: State, t: Task): State {
    var s := s.(asked := s.asked + [t]);
    if !s.locked then s.(locked := true, inside := s.inside + [Call(t, Entered)], admitted := s.admitted + [t])
    else s.(queue := s.queue + [t])
  }

  function Release(s: State, i: nat): State
    requires i < |s.inside|
  {
    var s := s.(inside := s.inside[..i] + s.inside[i + 1..]);
    if s.queue == [] then s.(locked := false)
    else
      var next := s.queue[0];
      s.(queue := s.queue[1..], inside := s.inside + [Call(next, Entered)], admitted := s.admitted + [next])
  }

  // ----- Steps -----

  predicate Enabled(s: State, a: Action) {
    match a
    case Append => true
    case Tick => true
    case StartCheckpoint => true
    case Begin(i) => i < |s.inside| && s.inside[i].phase.Entered?
    case Write(i) => i < |s.inside| && s.inside[i].phase.Writing? && s.inside[i].phase.done < |s.inside[i].phase.batch|
    case Sync(i) => i < |s.inside| && s.inside[i].phase.Writing? && s.inside[i].phase.done == |s.inside[i].phase.batch|
    case Fail(i) => i < |s.inside| && s.inside[i].phase.Writing?
    case Rotate(i, _) => i < |s.inside| && s.inside[i].phase.Rotating?
  }

  function Enter(s: State, i: nat, p: Phase): State
    requires i < |s.inside|
  {
    s.(inside := s.inside[i := s.inside[i].(phase := p)])
  }

  /** The call takes all pending writes as its batch. */
  function TakeBatch(s: State, i: nat): State
    requires i < |s.inside|
  {
    Enter(s, i, Writing(s.pending, 0)).(pending := [])
  }

  function Settle(batch: seq<nat>, resolved: bool): seq<Settlement> {
    seq(|batch|, i requires 0 <= i < |batch| => Settlement(batch[i], resolved))
  }

  /** A batch is resolved after the sync of its file, or rejected. */
  function Settled(s: State, i: nat, resolved: bool): State
    requires i < |s.inside| && s.inside[i].phase.Writing?
  {
    s.(settled := s.settled + Settle(s.inside[i].phase.batch, resolved),
       durable := if resolved then s.durable + (set x | x in s.file) else s.durable)
  }

  function Appended(s: State): State {
    var id := s.nextId;
    var s := s.(nextId := id + 1);
    if s.everyWrite then Acquire(s, AppendOne(id))
    else
      var s := s.(pending := s.pending + [id]);
      if |s.pending| >= BATCH_LIMIT then Acquire(s, FlushBatch) else s
  }

  function Begun(s: State, i: nat): State
    requires i < |s.inside|
  {
    match s.inside[i].task
    case AppendOne(id) => Enter(s, i, Writing([id], 0))
    case FlushBatch => if s.pending == [] then Release(s, i) else TakeBatch(s, i)
    case Checkpoint => if s.pending == [] then Enter(s, i, Rotating) else TakeBatch(s, i)
  }

  /** After its sync a call releases the lock, or, if it is a checkpoint, goes on to rotate the log. */
  function Synced(s: State, i: nat): State
    requires i < |s.inside| && s.inside[i].phase.Writing?
  {
    var s' := Settled(s, i, true);
    if s.inside[i].task.Checkpoint? then Enter(s', i, Rotating) else Release(s', i)
  }

  function Next(s: State, a: Action): State
    requires Enabled(s, a)
  {
    match a
    case Append => Appended(s)
    case Tick => if s.pending == [] then s else Acquire(s, FlushBatch)
    case StartCheckpoint => Acquire(s, Checkpoint)
    case Begin(i) => Begun(s, i)
    case Write(i) =>
      var p := s.inside[i].phase;
      Enter(s.(file := s.file + [p.batch[p.done]]), i, Writing(p.batch, p.done + 1))
    case Sync(i) => Synced(s, i)
    case Fail(i) => Release(Settled(s, i, false), i)
    case Rotate(i, sameName) => Release(if sameName then s else s.(file := []), i)
  }

  function Initial(everyWrite: bool, firstId: nat, file: seq<nat>): State {
    State(everyWrite, firstId, [], false, [], [], file, [], {}, [], [])
  }

  /** The state after a run, if every step of it was possible. */
  function Run(s: State, actions: seq<Action>): Option<State> {
    if actions == [] then Some(s)
    else
      match Run(s, actions[..|actions| - 1])
      case None => None
      case Some(t) => if Enabled(t, actions[|actions| - 1]) then Some(Next(t, actions[|actions| - 1])) else None
  }

  // ----- The invariant -----

  ghost function CallIds(c: Call): seq<nat> {
    match c.phase
    case Entered => if c.task.AppendOne? then [c.task.id] else []
    case Writing(batch, _) => batch
    case Rotating => []
  }

  ghost function QueueIds(q: seq<Task>): seq<nat> {
    if q == [] then []
    else QueueIds(q[..|q| - 1]) + (if q[|q| - 1].AppendOne? then [q[|q| - 1].id] else [])
  }

  /** The appends that are not settled, in the order in which they will be written. */
  ghost function Unsettled(s: State): seq<nat> {
    (if s.inside == [] then [] else CallIds(s.inside[0])) + QueueIds(s.queue) + s.pending
  }

  ghost function IdsFrom(first: nat, n: nat): seq<nat> {
    seq(n, i => first + i)
  }

  ghost function Ids(settled: seq<Settlement>): seq<nat> {
    seq(|settled|, i requires 0 <= i < |settled| => settled[i].id)
  }

  ghost predicate Increasing(q: seq<nat>) {
    forall i, j :: 0 <= i < j < |q| ==> q[i] < q[j]
  }

  ghost predicate AllBelow(q: seq<nat>, bound: nat) {
    forall i :: 0 <= i < |q| ==> q[i] < bound
  }

  /** At most one call is inside, exactly when the lock is taken; nobody waits for a free lock. */
  ghost predicate Exclusive(s: State) {
    |s.inside| == (if s.locked then 1 else 0) && (!s.locked ==> s.queue == []) && s.asked == s.admitted + s.queue
  }

  /** Each write policy queues its appends in one place only. */
  ghost predicate OnePolicy(s: State) {
    if s.everyWrite then s.pending == []
    else (forall t :: t in s.queue ==> !t.AppendOne?) && (forall c :: c in s.inside ==> !c.task.AppendOne?)
  }

  /** How many of the unsettled appends are in the file already: the first ones. */
  ghost function WrittenAhead(s: State): nat {
    if s.inside != [] && s.inside[0].phase.Writing? then s.inside[0].phase.done else 0
  }

  ghost predicate WriteInProgress(s: State) {
    s.inside != [] && s.inside[0].phase.Writing? ==>
      var p := s.inside[0].phase;
      p.done <= |p.batch| && p.done <= |s.file| && s.file[|s.file| - p.done..] == p.batch[..p.done]
  }

  ghost predicate Invariant(s: State, first: nat) {
    Exclusive(s) && OnePolicy(s) && WriteInProgress(s) &&
    first <= s.nextId && Ids(s.settled) + Unsettled(s) == IdsFrom(first, s.nextId - first) &&
    Increasing(s.file) && AllBelow(s.file, first + |s.settled| + WrittenAhead(s)) &&
    (forall i :: 0 <= i < |s.settled| && s.settled[i].resolved ==> s.settled[i].id in s.durable)
  }

  // ----- Every step keeps it -----

  lemma {:induction false} QueueIdsHead(q: seq<Task>)
    requires q != []
    ensures QueueIds(q) == CallIds(Call(q[0], Entered)) + QueueIds(q[1..])
  {
    var n := |q| - 1;
    var init, last, tail := q[..n], q[n], q[1..];
    if n > 0 {
      QueueIdsHead(init);
      assert init[1..] == tail[..n - 1] && init[0] == q[0] && tail[n - 1] == last;
      Associative(CallIds(Call(q[0], Entered)), QueueIds(tail[..n - 1]), if last.AppendOne? then [last.id] else []);
    } else {
      assert init == [] && tail == [];
    }
  }

  lemma QueueIdsAppend(q: seq<Task>, t: Task)
    ensures QueueIds(q + [t]) == QueueIds(q) + CallIds(Call(t, Entered))
  {
    assert (q + [t])[..|q|] == q;
  }

  lemma AcquireKeeps(s: State, t: Task)
    requires Exclusive(s) && OnePolicy(s) && (t.AppendOne? ==> s.everyWrite)
    ensures var s' := Acquire(s, t);
      (WriteInProgress(s) ==> WriteInProgress(s')) && Exclusive(s') && OnePolicy(s') && WrittenAhead(s') == WrittenAhead(s) &&
      Unsettled(s') == Unsettled(s) + CallIds(Call(t, Entered))
  {
    if s.locked {
      QueueIdsAppend(s.queue, t);
    }
  }

  /** Releasing hands the lock to the first in the queue; what the leaving call had is no longer unsettled. */
  lemma ReleaseKeeps(s: State)
    requires Exclusive(s) && OnePolicy(s) && s.inside != []
    ensures var s' := Release(s, 0);
      Exclusive(s') && OnePolicy(s') && WriteInProgress(s') && WrittenAhead(s') == 0 &&
      Unsettled(s') == QueueIds(s.queue) + s.pending
  {
    if s.queue != [] {
      QueueIdsHead(s.queue);
      HeadAndTail(s.queue);
    }
  }

  lemma SettleIds(settled: seq<Settlement>, batch: seq<nat>, resolved: bool)
    ensures Ids(settled + Settle(batch, resolved)) == Ids(settled) + batch
  {
  }

  lemma NextIdIsNew(first: nat, n: nat)
    ensures IdsFrom(first, n) + [first + n] == IdsFrom(first, n + 1)
  {
  }

  /** The parts of the invariant that do not count entries. */
  ghost predicate Sound(s: State) {
    Exclusive(s) && OnePolicy(s) && WriteInProgress(s)
  }

  lemma PendingKeeps(s: State, id: nat)
    requires Sound(s) && !s.everyWrite
    ensures var t := s.(nextId := id + 1, pending := s.pending + [id]);
      Sound(t) && WrittenAhead(t) == WrittenAhead(s) && Unsettled(t) == Unsettled(s) + [id]
  {
  }

  lemma AcquireSound(s: State, t: Task)
    requires Sound(s) && (t.AppendOne? ==> s.everyWrite)
    ensures var s' := Acquire(s, t);
      Sound(s') && WrittenAhead(s') == WrittenAhead(s) && Unsettled(s') == Unsettled(s) + CallIds(Call(t, Entered))
  {
    AcquireKeeps(s, t);
  }

  lemma AppendUnsettled(s: State)
    requires Sound(s)
    ensures var s' := Appended(s);
      Sound(s') && WrittenAhead(s') == WrittenAhead(s) && Unsettled(s') == Unsettled(s) + [s.nextId]
  {
    hide Sound, WrittenAhead, Unsettled, Acquire;
    if s.everyWrite {
      AppendAtOnce(s);
    } else {
      AppendPending(s);
    }
  }

  lemma AppendAtOnce(s: State)
    requires Sound(s) && s.everyWrite
    ensures var s' := Acquire(s.(nextId := s.nextId + 1), AppendOne(s.nextId));
      Sound(s') && WrittenAhead(s') == WrittenAhead(s) && Unsettled(s') == Unsettled(s) + [s.nextId]
  {
    hide Acquire;
    var t := s.(nextId := s.nextId + 1);
    assert Sound(t) && Unsettled(t) == Unsettled(s);
    AcquireSound(t, AppendOne(s.nextId));
  }

  lemma AppendPending(s: State)
    requires Sound(s) && !s.everyWrite
    ensures var t := s.(nextId := s.nextId + 1, pending := s.pending + [s.nextId]);
      Sound(t) && WrittenAhead(t) == WrittenAhead(s) && Unsettled(t) == Unsettled(s) + [s.nextId] &&
      Sound(Acquire(t, FlushBatch)) && WrittenAhead(Acquire(t, FlushBatch)) == WrittenAhead(s) &&
      Unsettled(Acquire(t, FlushBatch)) == Unsettled(s) + [s.nextId]
  {
    hide Sound, WrittenAhead, Unsettled, Acquire;
    PendingKeeps(s, s.nextId);
    var t := s.(nextId := s.nextId + 1, pending := s.pending + [s.nextId]);
    AcquireSound(t, FlushBatch);
    assert Unsettled(t) + [] == Unsettled(t);
  }

  lemma AppendKeeps(s: State, first: nat)
    requires Invariant(s, first)
    ensures Invariant(Appended(s), first)
  {
    AppendUnsettled(s);
    NextIdIsNew(first, s.nextId - first);
    Associative(Ids(s.settled), Unsettled(s), [s.nextId]);
  }

  lemma TakeBatchKeeps(s: State, first: nat)
    requires Invariant(s, first) && Enabled(s, Begin(0)) && !s.inside[0].task.AppendOne? && s.pending != []
    ensures Invariant(TakeBatch(s, 0), first)
  {
    QueueWithoutAppends(s.queue);
    assert Unsettled(TakeBatch(s, 0)) == s.pending;
    assert Unsettled(s) == s.pending;
  }

  /** A call goes on to a phase with the same unsettled entries, none of them written yet. */
  lemma EnterKeeps(s: State, p: Phase, first: nat)
    requires Invariant(s, first) && s.inside != [] && WrittenAhead(s) == 0
    requires CallIds(Call(s.inside[0].task, p)) == CallIds(s.inside[0]) && (p.Writing? ==> p.done == 0)
    ensures Invariant(Enter(s, 0, p), first)
  {
    var s' := Enter(s, 0, p);
    assert Unsettled(s') == Unsettled(s) && WrittenAhead(s') == 0;
    assert s.file[|s.file|..] == [];
  }

  lemma LeaveKeeps(s: State, first: nat)
    requires Invariant(s, first) && s.inside != [] && CallIds(s.inside[0]) == []
    ensures Invariant(Release(s, 0), first)
  {
    ReleaseKeeps(s);
    assert Unsettled(s) == QueueIds(s.queue) + s.pending;
  }

  lemma BeginKeeps(s: State, i: nat, first: nat)
    requires Invariant(s, first) && Enabled(s, Begin(i))
    ensures Invariant(Begun(s, i), first)
  {
    match s.inside[0].task
    case AppendOne(id) => EnterKeeps(s, Writing([id], 0), first);
    case FlushBatch => if s.pending == [] { LeaveKeeps(s, first); } else { TakeBatchKeeps(s, first); }
    case Checkpoint => if s.pending == [] { EnterKeeps(s, Rotating, first); } else { TakeBatchKeeps(s, first); }
  }

  lemma {:induction false} QueueWithoutAppends(q: seq<Task>)
    requires forall t :: t in q ==> !t.AppendOne?
    ensures QueueIds(q) == []
  {
    if q != [] {
      QueueWithoutAppends(q[..|q| - 1]);
    }
  }

  /** The next entry to be written is the first unsettled one that is not in the file. */
  lemma NextToWrite(s: State, first: nat)
    requires Invariant(s, first) && Enabled(s, Write(0))
    ensures var p := s.inside[0].phase; p.batch[p.done] == first + |s.settled| + p.done
  {
    var p := s.inside[0].phase;
    var k := |s.settled| + p.done;
    var all := Ids(s.settled) + Unsettled(s);
    assert Unsettled(s)[p.done] == p.batch[p.done];
    assert all[k] == p.batch[p.done];
    assert all[k] == IdsFrom(first, s.nextId - first)[k];
  }

  lemma WriteKeeps(s: State, i: nat, first: nat)
    requires Invariant(s, first) && Enabled(s, Write(i))
    ensures Invariant(Next(s, Write(i)), first)
  {
    NextToWrite(s, first);
    var p := s.inside[0].phase;
    var s' := Next(s, Write(i));
    assert s'.file[|s'.file| - p.done - 1..] == s.file[|s.file| - p.done..] + [p.batch[p.done]];
    assert p.batch[..p.done + 1] == p.batch[..p.done] + [p.batch[p.done]];
  }

  lemma SettleKeeps(s: State, first: nat, resolved: bool)
    requires Invariant(s, first) && s.inside != [] && s.inside[0].phase.Writing?
    requires resolved ==> s.inside[0].phase.done == |s.inside[0].phase.batch|
    ensures var batch := s.inside[0].phase.batch; var settled := s.settled + Settle(batch, resolved);
      Ids(settled) + (QueueIds(s.queue) + s.pending) == IdsFrom(first, s.nextId - first) &&
      AllBelow(s.file, first + |settled|) && (resolved ==> forall x :: x in batch ==> x in s.file)
  {
    var p := s.inside[0].phase;
    var rest := QueueIds(s.queue) + s.pending;
    SettleIds(s.settled, p.batch, resolved);
    assert Unsettled(s) == p.batch + rest;
    Associative(Ids(s.settled), p.batch, rest);
    if resolved {
      assert p.batch[..p.done] == p.batch;
      assert forall x :: x in p.batch ==> x in s.file[|s.file| - p.done..];
    }
  }

  /** The state in which the current batch is settled and the call has nothing left. */
  function AfterBatch(s: State, resolved: bool): State
    requires s.inside != [] && s.inside[0].phase.Writing?
  {
    Enter(Settled(s, 0, resolved), 0, Rotating)
  }

  lemma AfterBatchKeeps(s: State, first: nat, resolved: bool)
    requires Invariant(s, first) && s.inside != [] && s.inside[0].phase.Writing?
    requires resolved ==> s.inside[0].phase.done == |s.inside[0].phase.batch|
    ensures Invariant(AfterBatch(s, resolved), first)
  {
    var batch := s.inside[0].phase.batch;
    SettleKeeps(s, first, resolved);
    var t := AfterBatch(s, resolved);
    assert Unsettled(t) == QueueIds(s.queue) + s.pending;
    forall j | 0 <= j < |t.settled| && t.settled[j].resolved
      ensures t.settled[j].id in t.durable
    {
      if j >= |s.settled| {
        assert t.settled[j] == Settle(batch, resolved)[j - |s.settled|];
        assert t.settled[j].id in batch;
      }
    }
  }

  /** It does not matter which phase a call leaves from. */
  lemma ReleaseFrom(s: State, p: Phase)
    requires |s.inside| == 1
    ensures Release(Enter(s, 0, p), 0) == Release(s, 0)
  {
  }

  lemma SyncKeeps(s: State, i: nat, first: nat)
    requires Invariant(s, first) && Enabled(s, Sync(i))
    ensures Invariant(Synced(s, i), first)
  {
    AfterBatchKeeps(s, first, true);
    var t := AfterBatch(s, true);
    if !s.inside[0].task.Checkpoint? {
      LeaveKeeps(t, first);
      ReleaseFrom(Settled(s, 0, true), Rotating);
    }
  }

  lemma FailKeeps(s: State, i: nat, first: nat)
    requires Invariant(s, first) && Enabled(s, Fail(i))
    ensures Invariant(Next(s, Fail(i)), first)
  {
    AfterBatchKeeps(s, first, false);
    LeaveKeeps(AfterBatch(s, false), first);
    ReleaseFrom(Settled(s, 0, false), Rotating);
  }

  lemma AskKeeps(s: State, t: Task, first: nat)
    requires Invariant(s, first) && !t.AppendOne?
    ensures Invariant(Acquire(s, t), first)
  {
    AcquireKeeps(s, t);
    assert Unsettled(Acquire(s, t)) == Unsettled(s);
  }

  lemma RotateKeeps(s: State, i: nat, sameName: bool, first: nat)
    requires Invariant(s, first) && Enabled(s, Rotate(i, sameName))
    ensures Invariant(Next(s, Rotate(i, sameName)), first)
  {
    var t := if sameName then s else s.(file := []);
    assert Unsettled(t) == Unsettled(s);
    LeaveKeeps(t, first);
  }

  lemma StepKeeps(s: State, a: Action, first: nat)
    requires Invariant(s, first) && Enabled(s, a)
    ensures Invariant(Next(s, a), first)
  {
    match a
    case Append => AppendKeeps(s, first);
    case Tick => AskKeeps(s, FlushBatch, first);
    case StartCheckpoint => AskKeeps(s, Checkpoint, first);
    case Begin(i) => BeginKeeps(s, i, first);
    case Write(i) => WriteKeeps(s, i, first);
    case Sync(i) => SyncKeeps(s, i, first);
    case Fail(i) => FailKeeps(s, i, first);
    case Rotate(i, sameName) => RotateKeeps(s, i, sameName, first);
  }

  /** The invariant holds after every run. */
  lemma {:induction false} RunKeeps(everyWrite: bool, first: nat, file: seq<nat>, actions: seq<Action>)
    requires Increasing(file) && AllBelow(file, first) && Run(Initial(everyWrite, first, file), actions).Some?
    ensures Invariant(Run(Initial(everyWrite, first, file), actions).value, first)
  {
    if actions == [] {
      assert IdsFrom(first, 0) == [];
    } else {
      var before := actions[..|actions| - 1];
      RunKeeps(everyWrite, first, file, before);
      StepKeeps(Run(Initial(everyWrite, first, file), before).value, actions[|actions| - 1], first);
    }
  }

  /**
   In every run: at most one call is inside the lock; the lock is granted in the order in
   which it was asked for; the file's ids increase strictly; appends are settled in the order
   of their ids, each at most once and none skipped; and one that is resolved was written to
   the file and synced before.
   */
  lemma GroupCommitIsSafe(everyWrite: bool, first: nat, file: seq<nat>, actions: seq<Action>)
    requires Increasing(file) && AllBelow(file, first) && Run(Initial(everyWrite, first, file), actions).Some?
    ensures var s := Run(Initial(everyWrite, first, file), actions).value;
      |s.inside| <= 1 && s.admitted <= s.asked && Increasing(s.file) &&
      (forall k :: 0 <= k < |s.settled| ==> s.settled[k].id == first + k) &&
      (forall k :: 0 <= k < |s.settled| && s.settled[k].resolved ==> s.settled[k].id in s.durable)
  {
    RunKeeps(everyWrite, first, file, actions);
    var s := Run(Initial(everyWrite, first, file), actions).value;
    forall k | 0 <= k < |s.settled|
      ensures s.settled[k].id == first + k
    {
      assert (Ids(s.settled) + Unsettled(s))[k] == s.settled[k].id;
      assert IdsFrom(first, s.nextId - first)[k] == first + k;
    }
  }

  // ----- Rejected, and in the file all the same -----

  /** The ids of a batch follow those that are settled. */
  lemma BatchIds(s: State, first: nat, k: nat)
    requires Invariant(s, first) && s.inside != [] && s.inside[0].phase.Writing? && k < |s.inside[0].phase.batch|
    ensures s.inside[0].phase.batch[k] == first + |s.settled| + k
  {
    var all := Ids(s.settled) + Unsettled(s);
    assert Unsettled(s)[k] == s.inside[0].phase.batch[k];
    assert all[|s.settled| + k] == s.inside[0].phase.batch[k];
    assert all[|s.settled| + k] == IdsFrom(first, s.nextId - first)[|s.settled| + k];
  }

  /** When a batch fails all of it is rejected, and exactly the part that was written stays in the file. */
  lemma FailedBatch(s: State, i: nat, first: nat)
    requires Invariant(s, first) && Enabled(s, Fail(i))
    ensures var (p, t) := (s.inside[i].phase, Next(s, Fail(i)));
      t.file == s.file && t.settled == s.settled + Settle(p.batch, false) &&
      forall k :: 0 <= k < |p.batch| ==> (p.batch[k] in t.file <==> k < p.done)
  {
    var p := s.inside[0].phase;
    forall k | 0 <= k < |p.batch|
      ensures p.batch[k] in s.file <==> k < p.done
    {
      BatchIds(s, first, k);
      if k < p.done {
        assert p.batch[..p.done][k] == p.batch[k];
        assert s.file[|s.file| - p.done..][k] == s.file[|s.file| - p.done + k];
      }
    }
  }

  /** An append that was rejected although its record is in the file, where replay will find it. */
  ghost predicate Stray(s: State, id: nat) {
    id in s.file && Settlement(id, false) in s.settled
  }

  /** A batch of which this append was among those written. */
  ghost predicate WrittenIn(s: State, i: nat, id: nat) {
    i < |s.inside| && s.inside[i].phase.Writing? && s.inside[i].phase.done <= |s.inside[i].phase.batch| &&
    id in s.inside[i].phase.batch[..s.inside[i].phase.done]
  }

  lemma SettledIsNotNext(s: State, first: nat, resolved: bool)
    requires Invariant(s, first) && Enabled(s, Write(0))
    ensures Settlement(s.inside[0].phase.batch[s.inside[0].phase.done], resolved) !in s.settled
  {
    NextToWrite(s, first);
    forall k | 0 <= k < |s.settled|
      ensures s.settled[k].id == first + k
    {
      assert (Ids(s.settled) + Unsettled(s))[k] == s.settled[k].id;
      assert IdsFrom(first, s.nextId - first)[k] == first + k;
    }
  }

  lemma StrayAfterFailure(s: State, i: nat, first: nat, id: nat)
    requires Invariant(s, first) && Enabled(s, Fail(i)) && Stray(Next(s, Fail(i)), id) && !Stray(s, id)
    ensures WrittenIn(s, i, id)
  {
    hide Invariant, Next;
    FailedBatch(s, i, first);
    OneInside(s, i, first);
    var p := s.inside[i].phase;
    assert Settlement(id, false) in Settle(p.batch, false);
    var k :| 0 <= k < |p.batch| && Settle(p.batch, false)[k] == Settlement(id, false);
    assert p.batch[..p.done][k] == id;
  }

  lemma OneInside(s: State, i: nat, first: nat)
    requires Invariant(s, first) && Enabled(s, Fail(i))
    ensures s.inside[i].phase.done <= |s.inside[i].phase.batch|
  {
  }

  /** Only a failing batch leaves a stray. */
  lemma StepStray(s: State, a: Action, first: nat, id: nat)
    requires Invariant(s, first) && Enabled(s, a) && Stray(Next(s, a), id)
    ensures Stray(s, id) || (a.Fail? && WrittenIn(s, a.call, id))
  {
    match a
    case Append =>
    case Tick =>
    case StartCheckpoint =>
    case Begin(i) =>
    case Write(i) =>
      assert i == 0;
      SettledIsNotNext(s, first, false);
    case Sync(i) =>
      assert forall k :: 0 <= k < |Settle(s.inside[i].phase.batch, true)| ==> Settle(s.inside[i].phase.batch, true)[k].resolved;
    case Fail(i) =>
      if !Stray(s, id) { StrayAfterFailure(s, i, first, id); }
    case Rotate(i, sameName) =>
  }

  /**
   In every run, an append that was rejected and is in the file was one of the written ones of a
   batch that failed: entries before the one that could not be written.
   */
  lemma {:induction false} StraysComeFromFailedBatches(everyWrite: bool, first: nat, file: seq<nat>, actions: seq<Action>, id: nat)
    returns (j: nat)
    requires Increasing(file) && AllBelow(file, first) && Run(Initial(everyWrite, first, file), actions).Some?
    requires Stray(Run(Initial(everyWrite, first, file), actions).value, id)
    ensures j < |actions| && actions[j].Fail? && Run(Initial(everyWrite, first, file), actions[..j]).Some?
    ensures WrittenIn(Run(Initial(everyWrite, first, file), actions[..j]).value, actions[j].call, id)
  {
    hide Invariant, Next, WrittenIn;
    var n := |actions| - 1;
    assert actions != [];
    var before := actions[..n];
    RunKeeps(everyWrite, first, file, before);
    var s := Run(Initial(everyWrite, first, file), before).value;
    StepStray(s, actions[n], first, id);
    if Stray(s, id) {
      j := StraysComeFromFailedBatches(everyWrite, first, file, before, id);
      assert before[..j] == actions[..j];
    } else {
      j := n;
    }
  }

  // ----- Every append is settled in the end -----

  /** Steps that go on with what is there: no new append, no new checkpoint, no failure. */
  predicate GoesOn(a: Action) {
    a.Tick? || a.Begin? || a.Write? || a.Sync? || a.Rotate?
  }

  ghost predicate Drained(s: State) {
    s.inside == [] && s.pending == []
  }

  /** What comes next for the call inside, or else the timer. */
  function NextStep(s: State): Action {
    if s.inside == [] then Tick
    else
      match s.inside[0].phase
      case Entered => Begin(0)
      case Writing(batch, done) => if done < |batch| then Write(0) else Sync(0)
      case Rotating => Rotate(0, false)
  }

  /** With appends pending: how far it is to the call that takes them.  Without: how many calls there are. */
  function Stage(s: State): nat {
    if s.pending == [] then |s.queue| + |s.inside|
    else if s.inside == [] then 1
    else if s.inside[0].phase.Entered? then 0
    else 2
  }

  function StepsLeft(s: State): nat {
    if s.inside == [] then 0
    else
      match s.inside[0].phase
      case Entered => 4
      case Writing(batch, done) => if done <= |batch| then 2 + |batch| - done else 2
      case Rotating => 1
  }

  ghost predicate Nearer(s: State, t: State) {
    |t.pending| < |s.pending| ||
    (|t.pending| == |s.pending| && (Stage(t) < Stage(s) || (Stage(t) == Stage(s) && StepsLeft(t) < StepsLeft(s))))
  }

  /** Nothing that was settled changes, and what is new is resolved. */
  ghost predicate OnlyResolves(s: State, t: State) {
    t.nextId == s.nextId && s.settled <= t.settled && forall k :: |s.settled| <= k < |t.settled| ==> t.settled[k].resolved
  }

  lemma ReleaseIsNearer(s: State, t: State, first: nat)
    requires Invariant(s, first) && s.inside != [] && (s.pending == [] || !s.inside[0].phase.Entered?)
    requires t.pending == s.pending && t.queue == s.queue && t.inside == s.inside
    ensures Nearer(s, Release(t, 0)) && OnlyResolves(t, Release(t, 0))
  {
  }

  lemma BeginIsNearer(s: State, first: nat)
    requires Invariant(s, first) && s.inside != [] && s.inside[0].phase.Entered?
    ensures Nearer(s, Begun(s, 0)) && OnlyResolves(s, Begun(s, 0))
  {
    if s.inside[0].task.FlushBatch? && s.pending == [] { ReleaseIsNearer(s, s, first); }
  }

  lemma SyncIsNearer(s: State, first: nat)
    requires Invariant(s, first) && Enabled(s, Sync(0))
    ensures Nearer(s, Synced(s, 0)) && OnlyResolves(s, Synced(s, 0))
  {
    var t := Settled(s, 0, true);
    assert OnlyResolves(s, t);
    if !s.inside[0].task.Checkpoint? { ReleaseIsNearer(s, t, first); }
  }

  lemma RotateIsNearer(s: State, first: nat)
    requires Invariant(s, first) && Enabled(s, Rotate(0, false))
    ensures Nearer(s, Next(s, Rotate(0, false))) && OnlyResolves(s, Next(s, Rotate(0, false)))
  {
    ReleaseIsNearer(s, s.(file := []), first);
  }

  lemma WriteIsNearer(s: State, first: nat)
    requires Invariant(s, first) && Enabled(s, Write(0))
    ensures Nearer(s, Next(s, Write(0))) && OnlyResolves(s, Next(s, Write(0)))
  {
  }

  lemma TickIsNearer(s: State, first: nat)
    requires Invariant(s, first) && s.inside == [] && s.pending != []
    ensures Nearer(s, Next(s, Tick)) && OnlyResolves(s, Next(s, Tick))
  {
  }

  lemma NextStepIsPossible(s: State, first: nat)
    requires Invariant(s, first) && !Drained(s)
    ensures Enabled(s, NextStep(s)) && GoesOn(NextStep(s))
  {
  }

  lemma NextStepIsNearer(s: State, first: nat)
    requires Invariant(s, first) && !Drained(s) && Enabled(s, NextStep(s))
    ensures Nearer(s, Next(s, NextStep(s))) && OnlyResolves(s, Next(s, NextStep(s)))
  {
    hide Invariant, Nearer, OnlyResolves;
    if s.inside == [] {
      TickIsNearer(s, first);
    } else {
      match s.inside[0].phase
      case Entered => BeginIsNearer(s, first);
      case Writing(batch, done) => if done < |batch| { WriteIsNearer(s, first); } else { SyncIsNearer(s, first); }
      case Rotating => RotateIsNearer(s, first);
    }
  }

  lemma {:induction false} RunFirst(s: State, a: Action, rest: seq<Action>)
    requires Enabled(s, a)
    ensures Run(s, [a] + rest) == Run(Next(s, a), rest)
  {
    hide Enabled, Next;
    if rest == [] {
      assert [a] + rest == [a] && [a][..0] == [];
    } else {
      var n := |rest| - 1;
      assert ([a] + rest)[..n + 1] == [a] + rest[..n] && ([a] + rest)[n + 1] == rest[n];
      RunFirst(s, a, rest[..n]);
    }
  }

  lemma DrainedIsSettled(s: State, first: nat)
    requires Invariant(s, first) && Drained(s)
    ensures first + |s.settled| == s.nextId && !s.locked && s.queue == []
    ensures forall k :: 0 <= k < |s.settled| ==> s.settled[k].id == first + k && (s.settled[k].resolved ==> s.settled[k].id in s.durable)
  {
    assert Unsettled(s) == [];
    forall k | 0 <= k < |s.settled|
      ensures s.settled[k].id == first + k
    {
      assert (Ids(s.settled) + Unsettled(s))[k] == s.settled[k].id;
      assert IdsFrom(first, s.nextId - first)[k] == first + k;
    }
  }

  /** From `s` on every append that was not settled has been resolved, written and synced, and nobody has or wants the lock. */
  ghost predicate AllSettled(s: State, t: State, first: nat) {
    Invariant(t, first) && OnlyResolves(s, t) && first + |t.settled| == s.nextId && !t.locked && t.queue == [] && t.pending == [] &&
    forall k :: |s.settled| <= k < |t.settled| ==> t.settled[k] == Settlement(first + k, true) && first + k in t.durable
  }

  lemma DrainedIsAllSettled(s: State, first: nat)
    requires Invariant(s, first) && Drained(s)
    ensures AllSettled(s, s, first)
  {
    hide Invariant;
    DrainedIsSettled(s, first);
  }

  /**
   From every state that a run reaches, ticks of the timer and the steps of calls settle every
   append that is not settled yet, as resolved, written and synced.
   */
  lemma {:induction false} AllAppendsSettle(s: State, first: nat) returns (actions: seq<Action>)
    requires Invariant(s, first)
    ensures (forall i :: 0 <= i < |actions| ==> GoesOn(actions[i])) && Run(s, actions).Some?
    ensures AllSettled(s, Run(s, actions).value, first)
    decreases |s.pending|, Stage(s), StepsLeft(s)
  {
    hide Invariant, Next, Enabled, Stage, StepsLeft, AllSettled, Run, OnlyResolves, Drained, GoesOn;
    if Drained(s) {
      actions := [];
      NothingRun(s);
      DrainedIsAllSettled(s, first);
    } else {
      var a := NextStep(s);
      NextStepIsPossible(s, first);
      NextStepIsNearer(s, first);
      StepKeeps(s, a, first);
      var rest := AllAppendsSettle(Next(s, a), first);
      actions := [a] + rest;
      RunFirst(s, a, rest);
      SettledOnTheWay(s, Next(s, a), Run(s, actions).value, first);
    }
  }

  lemma SettledOnTheWay(s: State, u: State, t: State, first: nat)
    requires OnlyResolves(s, u) && AllSettled(u, t, first)
    ensures AllSettled(s, t, first)
  {
    forall k | |s.settled| <= k < |t.settled|
      ensures t.settled[k] == Settlement(first + k, true)
    {
      if k < |u.settled| { assert t.settled[k] == u.settled[k]; }
      assert (Ids(t.settled) + Unsettled(t))[k] == t.settled[k].id;
      assert IdsFrom(first, t.nextId - first)[k] == first + k;
    }
  }

  // ----- One call after the other -----

  function Writes(n: nat): seq<Action> {
    seq(n, _ => Write(0))
  }

  /** A tick and the steps of the call that it makes. */
  function FlushActions(n: nat): seq<Action> {
    [Tick] + [Begin(0)] + Writes(n) + [Sync(0)]
  }

  lemma RunMore(s: State, actions: seq<Action>, a: Action)
    requires Run(s, actions).Some? && Enabled(Run(s, actions).value, a)
    ensures Run(s, actions + [a]) == Some(Next(Run(s, actions).value, a))
  {
    assert (actions + [a])[..|actions|] == actions;
  }

  lemma NothingRun(s: State)
    ensures Run(s, []) == Some(s)
  {
  }

  /** A call has taken its batch and written nothing yet. */
  ghost predicate BatchTaken(s: State) {
    |s.inside| == 1 && s.inside[0].phase.Writing? && s.inside[0].phase.done == 0
  }

  ghost function AfterWrites(s: State, k: nat): State
    requires BatchTaken(s) && k <= |s.inside[0].phase.batch|
  {
    var batch := s.inside[0].phase.batch;
    s.(file := s.file + batch[..k], inside := [Call(s.inside[0].task, Writing(batch, k))])
  }

  lemma NoWrites(s: State)
    requires BatchTaken(s)
    ensures AfterWrites(s, 0) == s
  {
    var batch := s.inside[0].phase.batch;
    assert s.file + batch[..0] == s.file;
    assert s.inside == [Call(s.inside[0].task, Writing(batch, 0))];
  }

  lemma OneMoreWrite(s: State, k: nat)
    requires BatchTaken(s) && k < |s.inside[0].phase.batch|
    ensures Enabled(AfterWrites(s, k), Write(0)) && Next(AfterWrites(s, k), Write(0)) == AfterWrites(s, k + 1)
  {
    var batch := s.inside[0].phase.batch;
    assert batch[..k + 1] == batch[..k] + [batch[k]];
    Associative(s.file, batch[..k], [batch[k]]);
  }

  /** Behind some actions, a call that has taken its batch writes the first `k` entries of it. */
  lemma {:induction false} WritesRun(s: State, before: seq<Action>, k: nat)
    requires Run(s, before).Some? && BatchTaken(Run(s, before).value) && k <= |Run(s, before).value.inside[0].phase.batch|
    ensures Run(s, before + Writes(k)) == Some(AfterWrites(Run(s, before).value, k))
  {
    hide Run, Next, AfterWrites, Enabled;
    var t := Run(s, before).value;
    if k == 0 {
      assert before + Writes(0) == before;
      NoWrites(t);
    } else {
      WritesRun(s, before, k - 1);
      assert before + Writes(k) == before + Writes(k - 1) + [Write(0)];
      OneMoreWrite(t, k - 1);
      RunMore(s, before + Writes(k - 1), Write(0));
    }
  }

  /** A tick on a free lock: exactly the pending appends are written, in order, synced, and resolved, and the lock is free again. */
  lemma OneFlush(s: State, first: nat)
    requires Invariant(s, first) && !s.locked && s.pending != []
    ensures var r := Run(s, FlushActions(|s.pending|));
      r.Some? && r.value.file == s.file + s.pending && r.value.settled == s.settled + Settle(s.pending, true) &&
      (forall id :: id in s.pending ==> id in r.value.durable) && r.value.pending == [] && !r.value.locked && r.value.inside == []
  {
    hide Invariant;
    FreeLock(s, first);
    NothingRun(s);
    RunMore(s, [], Tick);
    assert [] + [Tick] == [Tick];
    RunMore(s, [Tick], Begin(0));
    var n, started := |s.pending|, [Tick] + [Begin(0)];
    WritesRun(s, started, n);
    assert s.pending[..n] == s.pending;
    RunMore(s, started + Writes(n), Sync(0));
  }

  lemma FreeLock(s: State, first: nat)
    requires Invariant(s, first) && !s.locked
    ensures s.inside == [] && s.queue == []
  {
  }

  /** Writing every append at once: on a free lock it is written, synced and resolved on its own. */
  lemma OneAppend(s: State, first: nat)
    requires Invariant(s, first) && !s.locked && s.everyWrite
    ensures var r := Run(s, [Append] + [Begin(0)] + Writes(1) + [Sync(0)]);
      r.Some? && r.value.file == s.file + [s.nextId] && r.value.settled == s.settled + [Settlement(s.nextId, true)] &&
      s.nextId in r.value.durable && !r.value.locked && r.value.nextId == s.nextId + 1
  {
    hide Invariant;
    FreeLock(s, first);
    NothingRun(s);
    RunMore(s, [], Append);
    assert [] + [Append] == [Append];
    RunMore(s, [Append], Begin(0));
    var started := [Append] + [Begin(0)];
    WritesRun(s, started, 1);
    assert [s.nextId][..1] == [s.nextId];
    RunMore(s, started + Writes(1), Sync(0));
    assert Settle([s.nextId], true) == [Settlement(s.nextId, true)];
  }

  /** A checkpoint on a free lock: the pending appends are written and resolved first, then the log is one empty file. */
  lemma OneCheckpoint(s: State, first: nat)
    requires Invariant(s, first) && !s.locked
    ensures var writing := if s.pending == [] then [] else Writes(|s.pending|) + [Sync(0)];
      var r := Run(s, [StartCheckpoint] + [Begin(0)] + writing + [Rotate(0, false)]);
      r.Some? && r.value.file == [] && r.value.settled == s.settled + Settle(s.pending, true) &&
      (forall id :: id in s.pending ==> id in r.value.durable) && r.value.pending == [] && !r.value.locked
  {
    hide Invariant;
    FreeLock(s, first);
    NothingRun(s);
    RunMore(s, [], StartCheckpoint);
    assert [] + [StartCheckpoint] == [StartCheckpoint];
    RunMore(s, [StartCheckpoint], Begin(0));
    var started := [StartCheckpoint] + [Begin(0)];
    if s.pending == [] {
      assert started + [] == started && Settle(s.pending, true) == [];
      RunMore(s, started, Rotate(0, false));
    } else {
      var n := |s.pending|;
      WritesRun(s, started, n);
      assert s.pending[..n] == s.pending;
      RunMore(s, started + Writes(n), Sync(0));
      assert started + (Writes(n) + [Sync(0)]) == started + Writes(n) + [Sync(0)];
      RunMore(s, started + Writes(n) + [Sync(0)], Rotate(0, false));
    }
  }

  /** The hundredth pending append asks for the lock without waiting for a tick; one before does not. */
  lemma FullBatchAsks(s: State)
    requires !s.everyWrite
    ensures var t := Next(s, Append);
      t.pending == s.pending + [s.nextId] && t.asked == if |t.pending| >= 100 then s.asked + [FlushBatch] else s.asked
  {
  }

  // ----- The program -----

  class AsyncMutex {
    var locked: bool
    var waitQueue: seq<Task>

    constructor ()
      ensures !locked && waitQueue == []
    {
      locked, waitQueue := false, [];
    }

    /** Either the lock is granted at once, or the caller waits in the queue. */
    method Acquire(t: Task) returns (granted: bool)
      modifies this
      ensures granted == !old(locked) && locked
      ensures waitQueue == if granted then old(waitQueue) else old(waitQueue) + [t]
    {
      if !locked {
        locked := true;
        return true;
      }
      waitQueue := waitQueue + [t];
      granted := false;
    }

    /** The lock passes to the first waiter without becoming free in between. */
    method Release() returns (next: Option<Task>)
      modifies this
      ensures next == if old(waitQueue) == [] then None else Some(old(waitQueue)[0])
      ensures waitQueue == if next == None then [] else old(waitQueue)[1..]
      ensures locked == (next != None && old(locked))
    {
      if |waitQueue| > 0 {
        next := Some(waitQueue[0]);
        waitQueue := waitQueue[1..];
      } else {
        next := None;
        locked := false;
      }
    }
  }

  /** The log as the calls under way see it between two awaits. */
  class LogWriter {
    const everyWrite: bool
    const writeLock: AsyncMutex
    var sequenceId: nat
    var pendingWrites: seq<nat>
    var inside: seq<Call>
    var file: seq<nat>
    ghost var settled: seq<Settlement>
    ghost var durable: set<nat>
    ghost var asked: seq<Task>
    ghost var admitted: seq<Task>

    ghost function View(): State
      reads this, writeLock
    {
      State(everyWrite, sequenceId, pendingWrites, writeLock.locked, writeLock.waitQueue, inside, file, settled, durable, asked, admitted)
    }

    constructor (everyWrite: bool, firstId: nat, file: seq<nat>)
      ensures View() == Initial(everyWrite, firstId, file) && fresh(writeLock)
    {
      this.everyWrite, sequenceId, this.file := everyWrite, firstId, file;
      writeLock := new AsyncMutex();
      pendingWrites, inside, settled, durable, asked, admitted := [], [], [], {}, [], [];
    }

    method Ask(t: Task)
      modifies this`inside, this`asked, this`admitted, writeLock
      ensures View() == Acquire(old(View()), t)
    {
      asked := asked + [t];
      var granted := writeLock.Acquire(t);
      if granted {
        inside, admitted := inside + [Call(t, Entered)], admitted + [t];
      }
    }

    method Leave(i: nat)
      requires i < |inside|
      modifies this`inside, this`admitted, writeLock
      ensures View() == Release(old(View()), i)
    {
      inside := inside[..i] + inside[i + 1..];
      var next := writeLock.Release();
      if next.Some? {
        inside, admitted := inside + [Call(next.value, Entered)], admitted + [next.value];
      }
    }

    method Append()
      modifies this, writeLock
      ensures View() == Next(old(View()), Action.Append)
    {
      var id := sequenceId;
      sequenceId := sequenceId + 1;
      if everyWrite {
        Ask(AppendOne(id));
      } else {
        pendingWrites := pendingWrites + [id];
        if |pendingWrites| >= BATCH_LIMIT {
          Ask(FlushBatch);
        }
      }
    }

    method FlushTimer()
      modifies this, writeLock
      ensures View() == Next(old(View()), Tick)
    {
      if |pendingWrites| == 0 { return; }
      Ask(FlushBatch);
    }

    /** The call at `i` goes on after `acquire`. */
    method GoOn(i: nat)
      requires Enabled(View(), Begin(i))
      modifies this, writeLock
      ensures View() == Next(old(View()), Begin(i))
    {
      var call := inside[i];
      if call.task.AppendOne? {
        inside := inside[i := Call(call.task, Writing([call.task.id], 0))];
      } else if |pendingWrites| > 0 {
        inside := inside[i := Call(call.task, Writing(pendingWrites, 0))];
        pendingWrites := [];
      } else if call.task.Checkpoint? {
        inside := inside[i := Call(call.task, Rotating)];
      } else {
        Leave(i);
      }
    }

    method WriteEntry(i: nat)
      requires Enabled(View(), Write(i))
      modifies this`file, this`inside
      ensures View() == Next(old(View()), Write(i))
    {
      var p := inside[i].phase;
      file := file + [p.batch[p.done]];
      inside := inside[i := Call(inside[i].task, Writing(p.batch, p.done + 1))];
    }

    method SyncBatch(i: nat)
      requires Enabled(View(), Sync(i))
      modifies this, writeLock
      ensures View() == Next(old(View()), Sync(i))
    {
      durable := durable + (set x | x in file);
      settled := settled + Settle(inside[i].phase.batch, true);
      if inside[i].task.Checkpoint? {
        inside := inside[i := Call(inside[i].task, Rotating)];
      } else {
        Leave(i);
      }
    }

    method RejectBatch(i: nat)
      requires Enabled(View(), Fail(i))
      modifies this, writeLock
      ensures View() == Next(old(View()), Fail(i))
    {
      settled := settled + Settle(inside[i].phase.batch, false);
      Leave(i);
    }

    method RotateLog(i: nat, sameName: bool)
      requires Enabled(View(), Rotate(i, sameName))
      modifies this, writeLock
      ensures View() == Next(old(View()), Rotate(i, sameName))
    {
      if !sameName {
        file := [];
      }
      Leave(i);
    }
  }
}
