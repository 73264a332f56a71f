/** The whole replication protocol: one state owner, any number of presenter sessions, and every
    interleaving of their steps. The theorems are about all runs. */
module Replication {
  import opened Wrappers
  import opened Protocol
  import opened Messages
  import opened Records
  import opened Generations
  import opened Snapshots
  import opened Presenter
  import opened Sessions

  /** `log` and `views` are history: the changes published so far and the published state after each. */
  datatype System = System(
    table: Table, sequence: uint64, sink: Option<nat>, sessions: map<nat, Session>,
    ghost log: seq<Delta>, ghost views: seq<View>)

  datatype Step =
    | Owner(command: Command, size: nat)
    | Connect(id: nat)
    | Attach(id: nat)
    | Begin(id: nat, helloSize: nat, snapshotSize: nat)
    | Detach(id: nat)
    | Local(id: nat, action: Action)

  ghost const INITIAL := System(EMPTY_TABLE, 0, None, map[], [], [EMPTY_VIEW])

  /** publish: number the change, then offer it to the sink; a sink that refuses is dropped. */
  ghost function Publish(y: System, d: Delta, size: nat): System {
    var sequence := Bump(y.sequence);
    var m := Outbound(StateFrame(sequence, d), size, sequence);
    var z := y.(sequence := sequence, log := y.log + [d], views := y.views + [ViewOf(y.table)]);
    if y.sink.None? || y.sink.value !in y.sessions then z
    else
      var s := y.sessions[y.sink.value];
      var (c, outcome) := Send(s.conn, m);
      z.(sessions := y.sessions[y.sink.value := s.(conn := c)], sink := if outcome == Taken then y.sink else None)
  }

  ghost function Next(y: System, step: Step): System {
    match step
    case Owner(command, size) =>
      var (t, d) := Apply(y.table, command);
      if d.None? then y.(table := t) else Publish(y.(table := t), d.value, size)
    case Connect(id) =>
      if id in y.sessions then y else y.(sessions := y.sessions[id := NEW_SESSION])
    case Attach(id) =>
      if id !in y.sessions || !y.sessions[id].phase.New? then y
      else
        var s := y.sessions[id].(phase := Attached(y.sequence, Snapshot(y.table)));
        y.(sink := Some(id), sessions := y.sessions[id := s])
    case Begin(id, helloSize, snapshotSize) =>
      if id !in y.sessions then y
      else y.(sessions := y.sessions[id := Sessions.Begin(y.sessions[id], helloSize, snapshotSize)])
    case Detach(id) =>
      if y.sink == Some(id) then y.(sink := None) else y
    case Local(id, action) =>
      if id !in y.sessions then y else y.(sessions := y.sessions[id := Act(y.sessions[id], action)])
  }

  ghost function Run(steps: seq<Step>): System {
    if steps == [] then INITIAL else Next(Run(steps[..|steps| - 1]), steps[|steps| - 1])
  }

  /** The commands the owner has carried out, in order. */
  ghost function Commands(steps: seq<Step>): seq<Command> {
    if steps == [] then []
    else
      var front, last := steps[..|steps| - 1], steps[|steps| - 1];
      Commands(front) + if last.Owner? then [last.command] else []
  }

  /** Sessions leave no trace with the owner: its table and log depend on its commands alone. */
  lemma {:induction false} RunPlays(steps: seq<Step>)
    ensures Played(Commands(steps)) == History(Run(steps).table, Run(steps).log)
  {
    hide Next, Play;
    if steps == [] {
    } else {
      var front, last := steps[..|steps| - 1], steps[|steps| - 1];
      RunPlays(front);
      StepPlays(Run(front), last);
      if last.Owner? {
        Snoc(Commands(front), last.command);
      } else {
        assert Commands(front) + [] == Commands(front);
      }
    }
  }

  lemma StepPlays(y: System, step: Step)
    ensures var z, h := Next(y, step), History(y.table, y.log);
            History(z.table, z.log) == if step.Owner? then Play(h, step.command) else h
  {
    hide Apply, Send, Sessions.Begin, Act, ViewOf, Snapshot;
    assert y.log + [] == y.log;
    if step.Owner? {
      var (t, d) := Apply(y.table, step.command);
      if d.Some? {
        assert Publish(y.(table := t), d.value, step.size).log == y.log + [d.value];
      }
    }
  }

  /** In any run, a late command that names a key no longer live leaves the whole system as it was. */
  lemma StaleIsSilent(steps: seq<Step>, c: Command, size: nat)
    requires !c.Add? && !Current(Run(steps).table, c.key)
    ensures Run(steps + [Owner(c, size)]) == Run(steps)
  {
    hide Apply, Current;
    assert (steps + [Owner(c, size)])[..|steps|] == steps;
    StaleIsIgnored(Run(steps).table, c);
  }

  // The owner's history.

  /** The log explains the views one legal change at a time, ending in the published state. */
  ghost predicate HistoryOk(y: System) {
    && TableOk(y.table)
    && |y.views| == |y.log| + 1 && y.views[0] == EMPTY_VIEW && y.views[|y.log|] == ViewOf(y.table)
    && (forall k :: 0 <= k < |y.log| ==> Legal(y.views[k], y.log[k]) && y.views[k + 1] == After(y.views[k], y.log[k]))
    && (forall k :: 0 <= k < |y.views| ==> OneGeneration(y.views[k]) && y.views[k].menus.Keys <= y.views[k].items.Keys)
  }

  /** The snapshot a session attached with is the published state at its baseline. */
  ghost predicate Based(s: Session, views: seq<View>) {
    (s.phase.Attached? || s.phase.Running?) ==>
      s.phase.base < |views| && ByKey(s.phase.items) == views[s.phase.base].items
  }

  ghost predicate SystemOk(y: System) {
    && HistoryOk(y)
    && y.sequence == |y.log|
    && (y.sink.Some? ==> y.sink.value in y.sessions)
    && (forall id :: id in y.sessions ==>
          SessionOk(y.sessions[id], y.log, y.sink == Some(id)) && Based(y.sessions[id], y.views))
  }

  lemma HistoryStep(y: System, command: Command, size: nat)
    requires HistoryOk(y)
    ensures HistoryOk(Next(y, Owner(command, size)))
  {
    hide Legal, ViewOf, After, OneGeneration, TableOk, Apply, Send;
    ApplyKeeps(y.table, command);
    ApplyPublishes(y.table, command);
    ViewHasOneGeneration(Apply(y.table, command).0);
  }

  lemma EmptyTableOk()
    ensures TableOk(EMPTY_TABLE) && ViewOf(EMPTY_TABLE) == EMPTY_VIEW
  {
  }

  /** A change the session is not sent leaves its script intact. */
  lemma LogGrows(s: Session, log: seq<Delta>, live: bool, d: Delta)
    requires SessionOk(s, log, live)
    ensures SessionOk(s, log + [d], false)
  {
    hide Stream, Accounted;
  }

  /** Offering the next change to the live session: queued in sequence, buffered, or refused for lack
      of room, but never for its number. */
  lemma LiveSend(s: Session, log: seq<Delta>, d: Delta, size: nat)
    requires SessionOk(s, log, true) && |log| < U64_MAX
    ensures var m := Outbound(StateFrame(|log| + 1, d), size, |log| + 1);
            var (c, outcome) := Send(s.conn, m);
            && (!s.phase.Over? ==> outcome in {Taken, Closed, Overflow})
            && SessionOk(s.(conn := c), log + [d], outcome == Taken)
  {
    LogGrows(s, log, true, d);
    if s.phase.Attached? {
      LiveSendBuffers(s, log, d, size);
    } else if s.phase.Running? {
      LiveSendQueues(s, log, d, size);
    }
  }

  lemma LiveSendBuffers(s: Session, log: seq<Delta>, d: Delta, size: nat)
    requires SessionOk(s, log, true) && SessionOk(s, log + [d], false) && |log| < U64_MAX && s.phase.Attached?
    ensures var m := Outbound(StateFrame(|log| + 1, d), size, |log| + 1);
            var (c, outcome) := Send(s.conn, m);
            outcome in {Taken, Closed, Overflow} && SessionOk(s.(conn := c), log + [d], outcome == Taken)
  {
    hide Buffered;
    var m := Outbound(StateFrame(|log| + 1, d), size, |log| + 1);
    SendAccounts(s.conn, [], m);
    if Send(s.conn, m).1 == Taken {
      BufferedSnoc(s.conn.pending, s.phase.base, log, d, m);
    }
  }

  lemma LiveSendQueues(s: Session, log: seq<Delta>, d: Delta, size: nat)
    requires SessionOk(s, log, true) && SessionOk(s, log + [d], false) && |log| < U64_MAX && s.phase.Running?
    ensures var m := Outbound(StateFrame(|log| + 1, d), size, |log| + 1);
            var (c, outcome) := Send(s.conn, m);
            outcome in {Taken, Closed, Overflow} && SessionOk(s.(conn := c), log + [d], outcome == Taken)
  {
    hide Stream, Scripted;
    var m := Outbound(StateFrame(|log| + 1, d), size, |log| + 1);
    var (c, outcome) := Send(s.conn, m);
    SendAccounts(s.conn, Held(s.writer), m);
    ReservationMeansRoom(s.conn, Held(s.writer), m);
    if outcome == Taken {
      StreamQueued(s, c, m);
      FiltersSnoc(Stream(s), m.frame);
      ScriptSnoc(Stream(s), s.phase.base, s.phase.items, log + [d], m.frame);
    }
  }

  lemma BufferedSnoc(pending: seq<Outbound>, base: nat, log: seq<Delta>, d: Delta, m: Outbound)
    requires Buffered(pending, base, log) && base + |pending| == |log| < U64_MAX
    requires m.frame == StateFrame(|log| + 1, d) && m.sequence == |log| + 1
    ensures Buffered(pending + [m], base, log + [d])
  {
    var fs, gs := FramesOf(pending), FramesOf(pending + [m]);
    assert gs == fs + [m.frame];
    assert forall i :: 0 <= i < |fs| ==> gs[i] == fs[i] && (log + [d])[base + i] == log[base + i];
  }

  lemma OwnerStep(y: System, command: Command, size: nat)
    requires SystemOk(y) && |Next(y, Owner(command, size)).log| <= U64_MAX
    ensures SystemOk(Next(y, Owner(command, size)))
  {
    hide HistoryOk, SessionOk, Send, Apply, ViewOf;
    var y' := Next(y, Owner(command, size));
    HistoryStep(y, command, size);
    var d := Apply(y.table, command).1;
    if d.Some? {
      forall id | id in y'.sessions
        ensures SessionOk(y'.sessions[id], y'.log, y'.sink == Some(id)) && Based(y'.sessions[id], y'.views)
      {
        LogGrows(y.sessions[id], y.log, y.sink == Some(id), d.value);
        if y.sink == Some(id) {
          LiveSend(y.sessions[id], y.log, d.value, size);
        }
      }
    }
  }

  lemma {:induction false} FiltersOfHandshake(base: nat, items: seq<Item>, fs: seq<Frame>)
    requires forall i :: 0 <= i < |fs| ==> fs[i].StateFrame?
    ensures States([HelloFrame, SnapshotFrame(base, items)] + fs) == fs
    ensures Replies([HelloFrame, SnapshotFrame(base, items)] + fs) == []
  {
    var head := [HelloFrame, SnapshotFrame(base, items)];
    if fs == [] {
      assert head + fs == head;
      assert head[..1] == [HelloFrame] && [HelloFrame][..0] == [];
    } else {
      var front, last := fs[..|fs| - 1], fs[|fs| - 1];
      FiltersOfHandshake(base, items, front);
      assert head + fs == head + front + [last];
      FiltersSnoc(head + front, last);
    }
  }

  lemma StartedScript(base: nat, items: seq<Item>, pending: seq<Outbound>, log: seq<Delta>)
    requires Buffered(pending, base, log)
    ensures var stream := [HelloFrame, SnapshotFrame(base, items)] + FramesOf(pending);
            Scripted(stream, base, items, log) && |States(stream)| == |pending| && Replies(stream) == []
  {
    FiltersOfHandshake(base, items, FramesOf(pending));
  }

  lemma StreamOfQueue(s: Session, first: Outbound, second: Outbound, rest: seq<Outbound>)
    requires s.wire == [] && s.writer.Idle? && s.conn.queue == [first, second] + rest
    ensures Stream(s) == [first.frame, second.frame] + FramesOf(rest)
  {
  }

  lemma BeginKeeps(s: Session, helloSize: nat, snapshotSize: nat, log: seq<Delta>, live: bool)
    requires SessionOk(s, log, live)
    ensures SessionOk(Sessions.Begin(s, helloSize, snapshotSize), log, live)
  {
    hide SnapshotOk, Start, Scripted, Stream, Buffered, Accounted, Consecutive, States, Replies;
    if s.phase.Attached? && SnapshotOk(s.phase.items) {
      var base, items := s.phase.base, s.phase.items;
      var prologue := Prologue(s, helloSize, snapshotSize);
      assert Consecutive(s.conn.pending, base) by { BufferedIsConsecutive(s.conn.pending, base, log); }
      StartFlushes(s.conn, base, prologue);
      var s' := Sessions.Begin(s, helloSize, snapshotSize);
      if s'.phase.Running? {
        StreamOfQueue(s', prologue[0], prologue[1], s.conn.pending);
        StartedScript(base, items, s.conn.pending, log);
      }
    }
  }

  lemma BufferedIsConsecutive(pending: seq<Outbound>, base: nat, log: seq<Delta>)
    requires Buffered(pending, base, log)
    ensures Consecutive(pending, base)
  {
  }

  lemma AttachedOk(s: Session, base: uint64, items: seq<Item>, log: seq<Delta>, live: bool)
    requires SessionOk(s, log, live) && s.phase.New? && base == |log|
    ensures SessionOk(s.(phase := Attached(base, items)), log, true)
  {
  }

  lemma SessionReplaced(y: System, id: nat, s: Session)
    requires SystemOk(y) && SessionOk(s, y.log, y.sink == Some(id)) && Based(s, y.views)
    ensures SystemOk(y.(sessions := y.sessions[id := s]))
  {
    hide TableOk, ViewOf, OneGeneration, Legal, SessionOk, Based;
  }

  lemma SinkDropped(y: System)
    requires SystemOk(y)
    ensures SystemOk(y.(sink := None))
  {
    hide TableOk, ViewOf, OneGeneration, Legal, SessionOk, Based;
    forall id | id in y.sessions ensures SessionOk(y.sessions[id], y.log, false) {
      Unlive(y.sessions[id], y.log, y.sink == Some(id));
    }
  }

  lemma AttachKeeps(y: System, id: nat)
    requires SystemOk(y) && |y.log| <= U64_MAX
    ensures SystemOk(Next(y, Attach(id)))
  {
    hide HistoryOk, ViewOf, Snapshot, SessionOk;
    HistoryEnds(y);
    SnapshotMirrors(y.table, 0);
    if id in y.sessions && y.sessions[id].phase.New? {
      SinkDropped(y);
      AttachedOk(y.sessions[id], y.sequence, Snapshot(y.table), y.log, y.sink == Some(id));
      var s := y.sessions[id].(phase := Attached(y.sequence, Snapshot(y.table)));
      AttachSwaps(y.(sink := None), id, s);
    }
  }

  lemma AttachSwaps(y: System, id: nat, s: Session)
    requires SystemOk(y) && y.sink.None? && id in y.sessions && SessionOk(s, y.log, true) && Based(s, y.views)
    ensures SystemOk(y.(sink := Some(id), sessions := y.sessions[id := s]))
  {
    hide TableOk, ViewOf, OneGeneration, Legal, SessionOk, Based;
  }

  lemma HistoryEnds(y: System)
    requires HistoryOk(y)
    ensures TableOk(y.table) && |y.views| == |y.log| + 1 && y.views[|y.log|] == ViewOf(y.table)
  {
  }

  lemma Unlive(s: Session, log: seq<Delta>, live: bool)
    requires SessionOk(s, log, live)
    ensures SessionOk(s, log, false)
  {
    hide Stream, Scripted;
  }

  lemma StepKeeps(y: System, step: Step)
    requires SystemOk(y) && |Next(y, step).log| <= U64_MAX
    ensures SystemOk(Next(y, step))
  {
    match step
    case Owner(command, size) => OwnerStep(y, command, size);
    case Attach(id) => AttachKeeps(y, id);
    case _ => SessionStepKeeps(y, step);
  }

  lemma SessionStepKeeps(y: System, step: Step)
    requires SystemOk(y) && !step.Owner? && !step.Attach?
    ensures SystemOk(Next(y, step))
  {
    hide HistoryOk, SessionOk, Sessions.Begin, Act;
    match step
    case Begin(id, helloSize, snapshotSize) =>
      if id in y.sessions {
        BeginKeeps(y.sessions[id], helloSize, snapshotSize, y.log, y.sink == Some(id));
        BaseStays(y.sessions[id], helloSize, snapshotSize, FailNow);
        SessionReplaced(y, id, Sessions.Begin(y.sessions[id], helloSize, snapshotSize));
      }
    case Local(id, action) =>
      if id in y.sessions {
        ActKeeps(y.sessions[id], action, y.log, y.sink == Some(id));
        BaseStays(y.sessions[id], 0, 0, action);
        SessionReplaced(y, id, Act(y.sessions[id], action));
      }
    case Detach(id) => SinkDropped(y);
    case Connect(id) =>
      if id !in y.sessions {
        NewSessionOk(y.log, y.views);
        SessionReplaced(y, id, NEW_SESSION);
      }
  }

  lemma NewSessionOk(log: seq<Delta>, views: seq<View>)
    ensures SessionOk(NEW_SESSION, log, false) && Based(NEW_SESSION, views)
  {
  }

  lemma BaseStays(s: Session, helloSize: nat, snapshotSize: nat, a: Action)
    ensures Act(s, a).phase == s.phase
    ensures var p := Sessions.Begin(s, helloSize, snapshotSize).phase;
            p == s.phase || p.Over? || (s.phase.Attached? && p == Running(s.phase.base, s.phase.items))
  {
    hide SnapshotOk, Start;
  }

  /** The owner's own invariant needs no bound on the sequence: it holds in every run. */
  lemma {:induction false} HistoryRun(steps: seq<Step>)
    ensures HistoryOk(Run(steps))
  {
    hide HistoryOk, Next;
    if steps == [] {
      InitialHistory();
    } else {
      var front, last := steps[..|steps| - 1], steps[|steps| - 1];
      HistoryRun(front);
      if last.Owner? {
        HistoryStep(Run(front), last.command, last.size);
      } else {
        HistoryUntouched(Run(front), last);
      }
    }
  }

  lemma InitialHistory()
    ensures HistoryOk(INITIAL)
  {
    EmptyTableOk();
  }

  lemma HistoryUntouched(y: System, step: Step)
    requires HistoryOk(y) && !step.Owner?
    ensures HistoryOk(Next(y, step))
  {
    hide TableOk, ViewOf, OneGeneration, Legal, After, Sessions.Begin, Act, Snapshot;
  }

  lemma LogNeverShrinks(y: System, step: Step)
    ensures |Next(y, step).log| >= |y.log|
  {
    hide Apply, Send, Sessions.Begin, Act, ViewOf, Snapshot;
  }

  /** The invariant of every reachable state. */
  lemma {:induction false} RunOk(steps: seq<Step>)
    requires |Run(steps).log| <= U64_MAX
    ensures SystemOk(Run(steps))
  {
    hide SystemOk, Next;
    if steps == [] {
      InitialOk();
    } else {
      var front, last := steps[..|steps| - 1], steps[|steps| - 1];
      LogNeverShrinks(Run(front), last);
      RunOk(front);
      StepKeeps(Run(front), last);
    }
  }

  lemma InitialOk()
    ensures SystemOk(INITIAL)
  {
    EmptyTableOk();
  }
}
