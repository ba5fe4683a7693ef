/**
 A primary's store and a backup's store on the two ends of a replication session.  Both are
 runs of the store machine, with flushes and compactions anywhere.
 */
module ReplicatedStores {
  import opened Wrappers
  import opened Keys
  import opened LogEntries
  import opened Sequences
  import opened StoreMachine
  import opened WriteEffects
  import Session = ReplicationSession

  /** The writes that a run logs. */
  ghost function LoggedIn(actions: seq<Action>): seq<Operation> {
    if actions == [] then []
    else
      var a := actions[|actions| - 1];
      LoggedIn(actions[..|actions| - 1]) + (if a.LogWrite? then [a.op] else [])
  }

  /** The replicated writes that a run takes. */
  ghost function TakenIn(actions: seq<Action>): seq<Operation> {
    if actions == [] then []
    else
      var a := actions[|actions| - 1];
      TakenIn(actions[..|actions| - 1]) + (if a.TakeReplicated? then [a.op] else [])
  }

  /** Writes come from clients alone, nothing crashes, and no swap is reckless. */
  ghost predicate PrimaryRun(actions: seq<Action>) {
    forall i :: 0 <= i < |actions| ==> !actions[i].Crash? && !actions[i].RecklessSwap? && !actions[i].TakeReplicated?
  }

  /** Writes come from the primary alone, nothing crashes, and no swap is reckless. */
  ghost predicate BackupRun(actions: seq<Action>) {
    forall i :: 0 <= i < |actions| ==> !actions[i].Crash? && !actions[i].RecklessSwap? && !actions[i].LogWrite? && !actions[i].ApplyWrite?
  }

  function Replayables(ops: seq<Operation>): seq<Operation> {
    seq(|ops|, i requires 0 <= i < |ops| => Replayable(ops[i]))
  }

  // ----- One store -----

  /** What readers of the primary see, with the writes still in flight, is what its logged writes make. */
  lemma {:induction false} PrimaryView(s: Store, actions: seq<Action>)
    requires Invariant(s) && PrimaryRun(actions) && Run(s, actions).Some?
    ensures var t := Run(s, actions).value;
      Invariant(t) && Effects(t.inflight, View(t)) == Effects(LoggedIn(actions), Effects(s.inflight, View(s)))
  {
    hide Invariant, View, Effects;
    if actions == [] {
      NoEffects(LoggedIn(actions), Effects(s.inflight, View(s)));
    } else {
      var before, a := actions[..|actions| - 1], actions[|actions| - 1];
      PrimaryView(s, before);
      PrimaryStep(Run(s, before).value, a);
      EffectsConcat(LoggedIn(before), if a.LogWrite? then [a.op] else [], Effects(s.inflight, View(s)));
    }
  }

  lemma NoEffects(ops: seq<Operation>, m: map<Key, Bytes>)
    ensures ops == [] ==> Effects(ops, m) == m
  {
  }

  lemma PrimaryStep(s: Store, a: Action)
    requires Invariant(s) && Enabled(s, a) && !a.Crash? && !a.RecklessSwap? && !a.TakeReplicated?
    ensures var t := Next(s, a);
      Invariant(t) && Effects(t.inflight, View(t)) == Effects(if a.LogWrite? then [a.op] else [], Effects(s.inflight, View(s)))
  {
    hide Invariant, View, Effects, Effect;
    StepKeepsView(s, a);
    NoEffects([], Effects(s.inflight, View(s)));
    match a
    case LogWrite(op, _) => EffectsConcat(s.inflight, [op], View(s));
    case TearLog(_) =>
    case ApplyWrite(_) =>
      HeadAndTail(s.inflight);
      EffectsConcat([s.inflight[0]], s.inflight[1..], View(s));
      EffectsOne(s.inflight[0], View(s));
    case Swap =>
    case Flush(_) =>
    case Compact(_) =>
  }

  /** What readers of the backup see is what the writes it took make, applied as replay applies them. */
  lemma {:induction false} BackupView(s: Store, actions: seq<Action>)
    requires Invariant(s) && BackupRun(actions) && Run(s, actions).Some?
    ensures var t := Run(s, actions).value; Invariant(t) && View(t) == Effects(Replayables(TakenIn(actions)), View(s))
  {
    hide Invariant, View, Effects, Effect, Replayable;
    var taken := TakenIn(actions);
    if actions == [] {
      NoEffects(Replayables(taken), View(s));
    } else {
      var before, a := actions[..|actions| - 1], actions[|actions| - 1];
      BackupView(s, before);
      StepKeepsView(Run(s, before).value, a);
      if a.TakeReplicated? {
        assert Replayables(taken) == Replayables(TakenIn(before)) + [Replayable(a.op)];
        EffectsConcat(Replayables(TakenIn(before)), [Replayable(a.op)], View(s));
        EffectsOne(Replayable(a.op), Effects(Replayables(TakenIn(before)), View(s)));
      } else {
        assert taken == TakenIn(before);
      }
    }
  }

  lemma {:induction false} CleanReplay(ops: seq<Operation>, m: map<Key, Bytes>)
    requires Clean(ops)
    ensures Effects(Replayables(ops), m) == Effects(ops, m)
  {
    if ops != [] {
      var init, last := ops[..|ops| - 1], ops[|ops| - 1];
      assert Replayables(ops)[..|ops| - 1] == Replayables(init);
      CleanReplay(init, m);
      ReplayAgrees(last);
      assert Effect(Replayable(last), Effects(init, m)) == Effect(last, Effects(init, m));
    }
  }

  lemma CleanPart(entries: seq<LogEntry>, h: nat)
    requires h <= |entries| && Clean(Operations(entries))
    ensures Clean(Operations(entries[..h]))
  {
    forall i | 0 <= i < h ensures NoEmptyKey(Operations(entries[..h])[i]) {
      assert Operations(entries[..h])[i] == Operations(entries)[i];
    }
  }

  // ----- Both -----

  /** What the primary logs is what the session sends, and what the session hands on is what the backup takes. */
  ghost predicate Connected(r: Session.Session, atPrimary: seq<Action>, atBackup: seq<Action>) {
    PrimaryRun(atPrimary) && BackupRun(atBackup) && LoggedIn(atPrimary) == Operations(r.sent) && TakenIn(atBackup) == Operations(r.backup.applied)
  }

  /**
   If readers of two stores see the same when a session starts, no empty key is written and
   the backup refuses nothing, then readers of the backup always see what a first part of the
   primary's log makes of that; once nothing is under way to the backup they see all of it; and
   if then nothing is in flight in the primary either, they see what the primary's readers see.
   */
  lemma BackupFollows(p: Store, atPrimary: seq<Action>, b: Store, atBackup: seq<Action>,
                      handler: Session.Handler, events: seq<Session.Event>)
    requires Invariant(p) && Invariant(b) && p.inflight == [] && View(p) == View(b)
    requires Run(p, atPrimary).Some? && Run(b, atBackup).Some? && Session.Run(handler, Session.START, events).Some?
    requires var r := Session.Run(handler, Session.START, events).value;
      Connected(r, atPrimary, atBackup) && Clean(Operations(r.sent)) && Session.AcceptsAll(handler, r.sent)
    ensures var r := Session.Run(handler, Session.START, events).value;
      var (p', b', h) := (Run(p, atPrimary).value, Run(b, atBackup).value, Session.Handled(r.backup));
      h <= |r.sent| && View(b') == Effects(Operations(r.sent[..h]), View(p)) &&
      (r.backupBuffer == [] && r.toBackup == [] ==> View(b') == Effects(p'.inflight, View(p'))) &&
      (r.backupBuffer == [] && r.toBackup == [] && p'.inflight == [] ==> View(b') == View(p'))
  {
    hide Run, Session.Run, View, Invariant, Effects, Clean, Session.AcceptsAll;
    var r := Session.Run(handler, Session.START, events).value;
    var h := Session.Handled(r.backup);
    Session.BackupTakesThemInOrder(handler, events);
    CleanPart(r.sent, h);
    CleanReplay(Operations(r.sent[..h]), View(b));
    BackupView(b, atBackup);
    PrimaryView(p, atPrimary);
    NoEffects(p.inflight, View(p));
    NoEffects(Run(p, atPrimary).value.inflight, View(Run(p, atPrimary).value));
    if h == |r.sent| { assert r.sent[..h] == r.sent; }
  }
}
