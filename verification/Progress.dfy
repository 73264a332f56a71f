/** What gets done: which messages are taken in a reachable state, what a connecting presenter is told,
    and that a published change reaches the presenter, given room and a writer that goes on. */
module Progress {
  import opened Utf8
  import opened Wrappers
  import opened Protocol
  import opened Messages
  import opened Records
  import opened Snapshots
  import opened Presenter
  import opened Sessions
  import opened Replication
  import opened Mirroring

  /** In every reachable state, the next change offered to the owner's attached or running presenter is
      taken exactly when its connection has not failed and there is room; it is then the last message
      pending or queued. */
  lemma OffersTaken(steps: seq<Step>, id: nat, d: Delta, size: nat)
    requires |Run(steps).log| < U64_MAX && Run(steps).sink == Some(id) && id in Run(steps).sessions
    requires Run(steps).sessions[id].phase.Attached? || Run(steps).sessions[id].phase.Running?
    ensures var y := Run(steps);
            var s := y.sessions[id];
            var (c, outcome) := Send(s.conn, Outbound(StateFrame(|y.log| + 1, d), size, |y.log| + 1));
            && (outcome == Taken <==> !s.conn.failed && Room(s.conn, Held(s.writer), size))
            && (outcome == Taken ==> c.queue + c.pending == s.conn.queue + s.conn.pending
                                                            + [Outbound(StateFrame(|y.log| + 1, d), size, |y.log| + 1)])
            && (outcome == Taken && s.phase.Running? ==> c.pending == [])
            && (outcome == Taken && s.phase.Attached? ==> c.queue == [])
  {
    hide Run, HistoryOk, SessionOk, Send, Room, Held;
    RunOk(steps);
    OfferTaken(Run(steps).sessions[id], Run(steps).log, d, size);
  }

  lemma OfferTaken(s: Session, log: seq<Delta>, d: Delta, size: nat)
    requires SessionOk(s, log, true) && |log| < U64_MAX && (s.phase.Attached? || s.phase.Running?)
    ensures var m := Outbound(StateFrame(|log| + 1, d), size, |log| + 1);
            var (c, outcome) := Send(s.conn, m);
            && (outcome == Taken <==> !s.conn.failed && Room(s.conn, Held(s.writer), size))
            && (outcome == Taken ==> c.queue + c.pending == s.conn.queue + s.conn.pending + [m])
            && (outcome == Taken && s.phase.Running? ==> c.pending == [])
            && (outcome == Taken && s.phase.Attached? ==> c.queue == [])
  {
    hide Stream, Scripted, Send, Room, Accounted, Buffered, Answered, Rising;
    var m := Outbound(StateFrame(|log| + 1, d), size, |log| + 1);
    assert Accounted(s.conn, Held(s.writer));
    SendTaken(s.conn, Held(s.writer), m);
    if s.phase.Attached? {
      assert s.conn.queue == [] && !s.conn.started;
      assert [] + (s.conn.pending + [m]) == [] + s.conn.pending + [m];
    } else {
      assert s.conn.pending == [] && s.conn.started;
      assert s.conn.queue + [m] + [] == s.conn.queue + [] + [m];
    }
  }

  /** A reply is taken on the same terms, and is then the last message queued. */
  lemma RepliesTaken(steps: seq<Step>, id: nat, reply: Outbound)
    requires |Run(steps).log| <= U64_MAX && id in Run(steps).sessions && Run(steps).sessions[id].phase.Running?
    ensures var s := Run(steps).sessions[id];
            var (c, outcome) := Reply(s.conn, reply);
            && (outcome == Taken <==> !s.conn.failed && Room(s.conn, Held(s.writer), reply.size))
            && (outcome == Taken ==> c.queue == s.conn.queue + [reply] && c.pending == s.conn.pending)
  {
    hide Run, HistoryOk, Stream, Scripted, Reply, Room, Accounted, Sizes, Answered, Rising;
    RunOk(steps);
    var y := Run(steps);
    var s := y.sessions[id];
    assert SessionOk(s, y.log, y.sink == Some(id));
    ReplyTaken(s.conn, Held(s.writer), reply);
  }

  /** An attached connection starts exactly when it has not failed and the handshake fits. */
  lemma StartsTaken(steps: seq<Step>, id: nat, helloSize: nat, snapshotSize: nat)
    requires |Run(steps).log| <= U64_MAX && id in Run(steps).sessions && Run(steps).sessions[id].phase.Attached?
    ensures var s := Run(steps).sessions[id];
            Start(s.conn, s.phase.base, Prologue(s, helloSize, snapshotSize)).1 == Taken <==>
            && !s.conn.failed && |s.conn.pending| + 2 <= MAX_QUEUE_MESSAGES
            && Sizes(s.conn.pending) + helloSize + snapshotSize <= MAX_QUEUE_BYTES
  {
    hide Run, HistoryOk, Stream, Start, Accounted, Sizes;
    RunOk(steps);
    var y := Run(steps);
    var s := y.sessions[id];
    assert SessionOk(s, y.log, y.sink == Some(id));
    StartTaken(s.conn, s.phase.base, Prologue(s, helloSize, snapshotSize));
    ConsecutiveAbove(s.conn.pending, s.phase.base);
    PrologueSizes(s, helloSize, snapshotSize);
  }

  lemma PrologueSizes(s: Session, helloSize: nat, snapshotSize: nat)
    requires s.phase.Attached?
    ensures Sizes(Prologue(s, helloSize, snapshotSize)) == helloSize + snapshotSize
  {
    var p := Prologue(s, helloSize, snapshotSize);
    assert Sizes(p) == p[0].size + Sizes(p[1..]);
    assert Sizes(p[1..]) == p[1].size + Sizes(p[1..][1..]);
    assert p[1..][1..] == [];
  }

  lemma {:induction false} AllAbove(todo: seq<Outbound>, baseline: nat)
    requires forall i :: 0 <= i < |todo| ==> todo[i].sequence > baseline
    ensures Above(todo, baseline) == todo
  {
    if todo == [] {
    } else {
      assert forall i :: 0 <= i < |todo| - 1 ==> todo[1..][i] == todo[i + 1];
      AllAbove(todo[1..], baseline);
    }
  }

  lemma ConsecutiveAbove(todo: seq<Outbound>, baseline: nat)
    requires Consecutive(todo, baseline)
    ensures Above(todo, baseline) == todo
  {
    AllAbove(todo, baseline);
  }

  // The writer goes on.

  function ActAll(s: Session, actions: seq<Action>): Session
    decreases |actions|
  {
    if actions == [] then s else ActAll(Act(s, actions[0]), actions[1..])
  }

  /** The writer takes, writes and releases `n` messages. */
  function Cycles(n: nat): seq<Action> {
    if n == 0 then [] else [Take, Write, Settle] + Cycles(n - 1)
  }

  /** What the writer may hold is finished first. */
  function Flush(n: nat): seq<Action> {
    [Write, Settle] + Cycles(n)
  }

  lemma {:induction false} CyclesDrain(s: Session, n: nat)
    requires s.phase.Running? && s.writer.Idle? && |s.conn.queue| == n
    ensures var z := ActAll(s, Cycles(n));
            && z.writer.Idle? && z.conn.queue == [] && z.wire == s.wire + FramesOf(s.conn.queue)
            && z.phase == s.phase && z.conn.failed == s.conn.failed
    decreases n
  {
    hide FramesOf;
    if n == 0 {
      NoFrames();
      assert s.conn.queue == [] && s.wire + [] == s.wire;
    } else {
      var m := s.conn.queue[0];
      var a := Act(s, Take);
      var b := Act(a, Write);
      var c := Act(b, Settle);
      var all := Cycles(n);
      assert all[1..][1..][1..] == Cycles(n - 1);
      assert all[0] == Take && all[1..][0] == Write && all[1..][1..][0] == Settle;
      assert ActAll(s, all) == ActAll(a, all[1..]) == ActAll(b, all[1..][1..]) == ActAll(c, Cycles(n - 1));
      CyclesDrain(c, n - 1);
      FramesCons(s.conn.queue);
      assert s.wire + [m.frame] + FramesOf(s.conn.queue[1..]) == s.wire + ([m.frame] + FramesOf(s.conn.queue[1..]));
    }
  }

  lemma NoFrames()
    ensures FramesOf([]) == []
  {
  }

  lemma FramesCons(ms: seq<Outbound>)
    requires ms != []
    ensures FramesOf(ms) == [ms[0].frame] + FramesOf(ms[1..])
  {
  }

  /** A writer that has not exited and keeps going puts everything on the wire, in order. */
  lemma FlushDrains(s: Session)
    requires s.phase.Running? && !s.writer.Exited?
    ensures var z := ActAll(s, Flush(|s.conn.queue|));
            && z.writer.Idle? && z.conn.queue == [] && z.wire == Stream(s)
            && z.phase == s.phase && z.conn.failed == s.conn.failed
  {
    var a := Act(s, Write);
    var b := Act(a, Settle);
    var all := Flush(|s.conn.queue|);
    assert all[0] == Write && all[1..][0] == Settle && all[1..][1..] == Cycles(|s.conn.queue|);
    assert ActAll(s, all) == ActAll(b, Cycles(|s.conn.queue|));
    StreamWritten(s, Write);
    StreamWritten(a, Settle);
    NoFrames();
    assert b.wire + [] == b.wire;
    CyclesDrain(b, |s.conn.queue|);
  }

  function Locally(id: nat, actions: seq<Action>): seq<Step> {
    seq(|actions|, i requires 0 <= i < |actions| => Local(id, actions[i]))
  }

  lemma RunSnoc(steps: seq<Step>, step: Step)
    ensures Run(steps + [step]) == Next(Run(steps), step)
  {
    hide Next;
    assert (steps + [step])[..|steps|] == steps;
  }

  lemma LocalNext(y: System, id: nat, action: Action)
    requires id in y.sessions
    ensures Next(y, Local(id, action)) == y.(sessions := y.sessions[id := Act(y.sessions[id], action)])
  {
    hide Act;
  }

  lemma LocallyCons(id: nat, actions: seq<Action>)
    requires actions != []
    ensures Locally(id, actions) == [Local(id, actions[0])] + Locally(id, actions[1..])
  {
  }

  lemma {:induction false} RunLocally(steps: seq<Step>, id: nat, actions: seq<Action>)
    requires id in Run(steps).sessions
    ensures var y := Run(steps);
            Run(steps + Locally(id, actions)) == y.(sessions := y.sessions[id := ActAll(y.sessions[id], actions)])
    decreases |actions|
  {
    hide Act, Run, Next, Locally;
    var y := Run(steps);
    if actions == [] {
      assert Locally(id, actions) == [] by {
        NothingLocal(id);
      }
      assert steps + [] == steps && y.sessions[id := y.sessions[id]] == y.sessions;
    } else {
      var first := Local(id, actions[0]);
      RunSnoc(steps, first);
      LocalNext(y, id, actions[0]);
      RunLocally(steps + [first], id, actions[1..]);
      LocallyCons(id, actions);
      assert steps + ([first] + Locally(id, actions[1..])) == steps + [first] + Locally(id, actions[1..]);
      var once := Act(y.sessions[id], actions[0]);
      assert y.sessions[id := once][id := ActAll(once, actions[1..])] == y.sessions[id := ActAll(once, actions[1..])];
    }
  }

  lemma NothingLocal(id: nat)
    ensures Locally(id, []) == []
  {
  }

  lemma OfferedNext(y: System, id: nat, command: Command, size: nat)
    requires y.sink == Some(id) && id in y.sessions && y.sequence == |y.log| < U64_MAX
    requires Apply(y.table, command).1.Some?
    requires Send(y.sessions[id].conn,
                  Outbound(StateFrame(|y.log| + 1, Apply(y.table, command).1.value), size, |y.log| + 1)).1 == Taken
    ensures var (t, d) := Apply(y.table, command);
            var c := Send(y.sessions[id].conn, Outbound(StateFrame(|y.log| + 1, d.value), size, |y.log| + 1)).0;
            var z := Next(y, Owner(command, size));
            && z.table == t && z.log == y.log + [d.value] && z.sink == Some(id)
            && id in z.sessions && z.sessions[id] == y.sessions[id].(conn := c)
  {
    hide Apply, Send, ViewOf;
  }

  /** Progress: while the owner's running presenter has room and its writer goes on, whatever the owner
      publishes next is put on the wire after everything before it, the presenter stays the owner's,
      and once it has read its wire it holds what the owner publishes. */
  lemma PublishedChangeArrives(steps: seq<Step>, id: nat, command: Command, size: nat)
    requires |Run(steps).log| < U64_MAX && Run(steps).sink == Some(id) && id in Run(steps).sessions
    requires var s := Run(steps).sessions[id];
             && s.phase.Running? && !s.conn.failed && !s.writer.Exited? && Room(s.conn, Held(s.writer), size)
    requires Apply(Run(steps).table, command).1.Some?
    ensures var y := Run(steps);
            var s := y.sessions[id];
            var (t, d) := Apply(y.table, command);
            var z := Run(steps + [Owner(command, size)] + Locally(id, Flush(|s.conn.queue| + 1)));
            && z.table == t && z.sink == Some(id) && id in z.sessions
            && z.sessions[id].wire == Stream(s) + [StateFrame(|y.log| + 1, d.value)]
            && Replay(z.sessions[id].wire).sequence == |y.log| + 1
            && Replay(z.sessions[id].wire).view.items == ViewOf(t).items
  {
    hide Run, Next, Apply, ViewOf, HistoryOk, Stream, Scripted, Send, Room, Accounted, Act, Flush, ActAll, Replay,
         Locally, Held, FramesOf, Answered, Rising, Sizes;
    var y := Run(steps);
    var s := y.sessions[id];
    var d := Apply(y.table, command).1.value;
    var step := Owner(command, size);
    RunOk(steps);
    OffersTaken(steps, id, d, size);
    var m := Outbound(StateFrame(|y.log| + 1, d), size, |y.log| + 1);
    var c := Send(s.conn, m).0;
    SendTaken(s.conn, Held(s.writer), m);
    RunSnoc(steps, step);
    OfferedNext(y, id, command, size);
    StreamQueued(s, c, m);
    Flushed(steps + [step], id);
  }

  /** From any reachable state of the owner's running presenter, finishing the queue leaves it current. */
  lemma Flushed(steps: seq<Step>, id: nat)
    requires |Run(steps).log| <= U64_MAX && Run(steps).sink == Some(id) && id in Run(steps).sessions
    requires Run(steps).sessions[id].phase.Running? && !Run(steps).sessions[id].writer.Exited?
    ensures var y := Run(steps);
            var s := y.sessions[id];
            var z := Run(steps + Locally(id, Flush(|s.conn.queue|)));
            && z.table == y.table && z.log == y.log && z.sink == Some(id) && id in z.sessions
            && z.sessions[id].phase == s.phase && z.sessions[id].wire == Stream(s)
            && Replay(z.sessions[id].wire).sequence == |y.log|
            && Replay(z.sessions[id].wire).view.items == ViewOf(y.table).items
  {
    hide Run, Next, ViewOf, HistoryOk, Stream, Scripted, Accounted, Act, Flush, ActAll, Replay, Locally, SessionOk;
    var s := Run(steps).sessions[id];
    FlushDrains(s);
    RunLocally(steps, id, Flush(|s.conn.queue|));
    NoneUnwritten(ActAll(s, Flush(|s.conn.queue|)).writer);
    DrainedClientIsCurrent(steps + Locally(id, Flush(|s.conn.queue|)), id);
    RunOk(steps + Locally(id, Flush(|s.conn.queue|)));
  }

  lemma NoneUnwritten(w: Writer)
    requires w.Idle?
    ensures Unwritten(w) == []
  {
  }

  /** A well-formed command with a higher request ID is dispatched once and, given room, answered: its
      reply follows everything before it, and the reader reads on. */
  lemma CommandAnswered(steps: seq<Step>, id: nat, requestID: uint64, payload: Text, size: nat)
    requires |Run(steps).log| <= U64_MAX && id in Run(steps).sessions
    requires var s := Run(steps).sessions[id];
             && s.phase.Running? && s.reader.Reading? && s.conn.lastRequestID < requestID
             && !s.conn.failed && Room(s.conn, Held(s.writer), size)
    ensures var s := Run(steps).sessions[id];
            var turn := [Receive(Envelope(CommandKind, requestID, 0, true, true)), Answer(payload, size)];
            var z := Run(steps + Locally(id, turn));
            && id in z.sessions && z.sessions[id].reader.Reading?
            && z.sessions[id].dispatched == s.dispatched + [requestID]
            && Stream(z.sessions[id]) == Stream(s) + [ReplyFrame(requestID, payload)]
            && z.sessions[id].wire == s.wire
  {
    hide Run, HistoryOk, Scripted, Stream, Locally, Accounted;
    RunOk(steps);
    var y := Run(steps);
    var s := y.sessions[id];
    assert SessionOk(s, y.log, y.sink == Some(id));
    var turn := [Receive(Envelope(CommandKind, requestID, 0, true, true)), Answer(payload, size)];
    RunLocally(steps, id, turn);
    assert turn[1..] == [turn[1]] && turn[1..][1..] == [];
    assert ActAll(s, turn) == ActAll(Act(s, turn[0]), turn[1..]) == Act(Act(s, turn[0]), turn[1]);
    AnswersOne(s, requestID, payload, size);
  }

  lemma AnswersOne(s: Session, requestID: uint64, payload: Text, size: nat)
    requires s.phase.Running? && s.reader.Reading? && s.conn.lastRequestID < requestID
    requires Accounted(s.conn, Held(s.writer)) && !s.conn.failed && Room(s.conn, Held(s.writer), size)
    ensures var z := Act(Act(s, Receive(Envelope(CommandKind, requestID, 0, true, true))), Answer(payload, size));
            && z.reader.Reading? && z.dispatched == s.dispatched + [requestID]
            && Stream(z) == Stream(s) + [ReplyFrame(requestID, payload)] && z.wire == s.wire
  {
    hide Accounted, Stream, Reply;
    var e := Envelope(CommandKind, requestID, 0, true, true);
    CommandDispatched(s.conn, e, requestID);
    var c := s.conn.(lastRequestID := requestID);
    var m := Outbound(ReplyFrame(requestID, payload), size, 0);
    assert Accounted(c, Held(s.writer)) by {
      SameAccounts(s.conn, c, Held(s.writer));
    }
    ReplyTaken(c, Held(s.writer), m);
    StreamQueued(s, Reply(c, m).0, m);
    var z := Act(Act(s, Receive(e)), Answer(payload, size));
    SameStream(s.(conn := Reply(c, m).0), z);
  }

  lemma SameAccounts(c: Conn, r: Conn, held: seq<Outbound>)
    requires Accounted(c, held) && r == c.(lastRequestID := r.lastRequestID)
    ensures Accounted(r, held)
  {
  }

  // What is written would be accepted.

  /** The envelope a frame travels in. */
  function EnvelopeOf(f: Frame): Inbound
    requires f.SnapshotFrame? || f.StateFrame? ==> f.sequence <= U64_MAX
    requires f.ReplyFrame? ==> f.requestID <= U64_MAX
  {
    match f
    case HelloFrame => Envelope(HelloKind, 0, 0, true, false)
    case SnapshotFrame(sequence, _) => Envelope(SnapshotKind, 0, sequence, true, false)
    case StateFrame(sequence, _) => Envelope(StateKind, 0, sequence, true, false)
    case ReplyFrame(requestID, _) => Envelope(ReplyKind, requestID, 0, true, false)
  }

  /** The valid envelopes are, by kind: exactly those that carry a frame of the protocol, numbered where
      the protocol numbers it, and commands with a request ID. */
  lemma ValidEnvelopes(e: Inbound)
    requires e.Envelope? && e.payloadOk && !e.commandOk
    ensures EnvelopeOk(e) <==>
            || e == EnvelopeOf(HelloFrame)
            || e == EnvelopeOf(SnapshotFrame(e.sequence, []))
            || (e.sequence > 0 && e == EnvelopeOf(StateFrame(e.sequence, ItemRemoved(ItemKey([], [], 0)))))
            || (e.requestID > 0 && e == EnvelopeOf(ReplyFrame(e.requestID, [])))
            || (e.requestID > 0 && e == Envelope(CommandKind, e.requestID, 0, true, false))
  {
  }

  /** Every frame on every wire is a valid envelope to its reader. */
  lemma WireIsValid(steps: seq<Step>, id: nat, i: nat)
    requires |Run(steps).log| <= U64_MAX && id in Run(steps).sessions && i < |Run(steps).sessions[id].wire|
    ensures var f := Run(steps).sessions[id].wire[i];
            && (f.SnapshotFrame? || f.StateFrame? ==> f.sequence <= U64_MAX)
            && (f.ReplyFrame? ==> f.requestID <= U64_MAX)
            && EnvelopeOk(EnvelopeOf(f))
  {
    hide Run, HistoryOk, Replies, States, SessionOk, Based;
    RunOk(steps);
    WireFollowsScript(steps, id);
    RepliesFollowRequests(steps, id);
    var s := Run(steps).sessions[id];
    DispatchedInRange(s, Run(steps).log, Run(steps).sink == Some(id));
    FrameIsCounted(s.wire, i);
    if s.wire[i].ReplyFrame? {
      var j :| 0 <= j < |Replies(s.wire)| && Replies(s.wire)[j] == s.wire[i].requestID;
      assert s.dispatched[j] == s.wire[i].requestID;
    }
  }

  lemma DispatchedInRange(s: Session, log: seq<Delta>, live: bool)
    requires SessionOk(s, log, live)
    ensures forall i :: 0 <= i < |s.dispatched| ==> s.dispatched[i] <= U64_MAX
  {
    hide Stream, Scripted, Accounted, Buffered, Answered;
  }

  lemma {:induction false} FrameIsCounted(wire: seq<Frame>, i: nat)
    requires i < |wire|
    ensures wire[i].StateFrame? ==> exists j :: 0 <= j < |States(wire)| && States(wire)[j] == wire[i]
    ensures wire[i].ReplyFrame? ==> exists j :: 0 <= j < |Replies(wire)| && Replies(wire)[j] == wire[i].requestID
  {
    var front, last := wire[..|wire| - 1], wire[|wire| - 1];
    if i == |wire| - 1 {
      if last.StateFrame? {
        assert States(wire)[|States(front)|] == last;
      }
      if last.ReplyFrame? {
        assert Replies(wire)[|Replies(front)|] == last.requestID;
      }
    } else {
      FrameIsCounted(front, i);
      assert States(front) <= States(wire) && Replies(front) <= Replies(wire);
    }
  }

  // A presenter connects.

  /** An attached presenter catches up: if the handshake fits beside the changes published meanwhile,
      starting and writing on leaves it holding what the owner publishes, those changes included. */
  lemma StartedClientCatchesUp(steps: seq<Step>, id: nat, helloSize: nat, snapshotSize: nat)
    requires |Run(steps).log| <= U64_MAX && Run(steps).sink == Some(id) && id in Run(steps).sessions
    requires var s := Run(steps).sessions[id];
             && s.phase.Attached? && SnapshotOk(s.phase.items) && !s.conn.failed
             && |s.conn.pending| + 2 <= MAX_QUEUE_MESSAGES
             && Sizes(s.conn.pending) + helloSize + snapshotSize <= MAX_QUEUE_BYTES
    ensures var y := Run(steps);
            var s := y.sessions[id];
            var z := Run(steps + [Begin(id, helloSize, snapshotSize)] + Locally(id, Flush(|s.conn.pending| + 2)));
            && z.table == y.table && z.sink == Some(id) && id in z.sessions && z.sessions[id].phase.Running?
            && |z.sessions[id].wire| == |s.conn.pending| + 2
            && Replay(z.sessions[id].wire).sequence == y.sequence
            && Replay(z.sessions[id].wire).view.items == ViewOf(y.table).items
  {
    hide Run, Next, ViewOf, HistoryOk, Scripted, Start, Accounted, Act, Flush, ActAll, Replay, SnapshotOk, Buffered,
         Stream, Locally, Consecutive;
    var y := Run(steps);
    var s := y.sessions[id];
    var step := Begin(id, helloSize, snapshotSize);
    RunOk(steps);
    assert SessionOk(s, y.log, true);
    Starts(s, y.log, helloSize, snapshotSize);
    RunSnoc(steps, step);
    BegunNext(y, id, helloSize, snapshotSize);
    StreamLength(Sessions.Begin(s, helloSize, snapshotSize));
    Flushed(steps + [step], id);
  }

  lemma BegunNext(y: System, id: nat, helloSize: nat, snapshotSize: nat)
    requires id in y.sessions
    ensures var z := Next(y, Begin(id, helloSize, snapshotSize));
            && z.table == y.table && z.log == y.log && z.sink == y.sink
            && id in z.sessions && z.sessions[id] == Sessions.Begin(y.sessions[id], helloSize, snapshotSize)
  {
    hide Sessions.Begin;
  }

  lemma Starts(s: Session, log: seq<Delta>, helloSize: nat, snapshotSize: nat)
    requires SessionOk(s, log, true) && s.phase.Attached? && SnapshotOk(s.phase.items) && !s.conn.failed
    requires |s.conn.pending| + 2 <= MAX_QUEUE_MESSAGES
    requires Sizes(s.conn.pending) + helloSize + snapshotSize <= MAX_QUEUE_BYTES
    ensures var z := Sessions.Begin(s, helloSize, snapshotSize);
            && z.phase == Running(s.phase.base, s.phase.items) && z.writer.Idle? && z.wire == []
            && z.conn.queue == Prologue(s, helloSize, snapshotSize) + s.conn.pending
  {
    hide Start, Accounted, SnapshotOk, Consecutive;
    var prologue := Prologue(s, helloSize, snapshotSize);
    BufferedIsConsecutive(s.conn.pending, s.phase.base, log);
    ConsecutiveAbove(s.conn.pending, s.phase.base);
    PrologueSizes(s, helloSize, snapshotSize);
    StartTaken(s.conn, s.phase.base, prologue);
    StartFlushes(s.conn, s.phase.base, prologue);
  }

  lemma StreamLength(s: Session)
    requires s.wire == [] && s.writer.Idle?
    ensures |Stream(s)| == |s.conn.queue|
  {
  }

  /** A new presenter is told everything: whenever the snapshot is within the aggregate and the handshake
      fits, connecting, attaching, starting and writing leave it the owner's presenter, holding exactly
      the published items and no menus. */
  lemma ConnectedClientIsTold(steps: seq<Step>, id: nat, helloSize: nat, snapshotSize: nat)
    requires |Run(steps).log| <= U64_MAX && id !in Run(steps).sessions
    requires SnapshotBytes(Snapshot(Run(steps).table)) <= MAX_PIXMAP_BYTES_AGGREGATE
    requires helloSize + snapshotSize <= MAX_QUEUE_BYTES
    ensures var y := Run(steps);
            var z := Run(steps + [Connect(id), Attach(id)] + [Begin(id, helloSize, snapshotSize)]
                         + Locally(id, Flush(2)));
            && z.table == y.table && z.sink == Some(id) && id in z.sessions && z.sessions[id].phase.Running?
            && z.sessions[id].wire == [HelloFrame, SnapshotFrame(y.sequence, Snapshot(y.table))]
            && Replay(z.sessions[id].wire) == Client(View(ViewOf(y.table).items, map[]), y.sequence)
  {
    hide Run, Next, ViewOf, HistoryOk, Snapshot, SnapshotOk, SnapshotBytes, Start, Flush, ByKey, TableOk, Replay,
         Stream, Locally, Sizes, Lists, Sorted, OfGeneration;
    var y := Run(steps);
    HistoryRun(steps);
    HistoryEnds(y);
    SnapshotMirrors(y.table, 0);
    var second := steps + [Connect(id), Attach(id)];
    RunSnoc(steps, Connect(id));
    RunSnoc(steps + [Connect(id)], Attach(id));
    assert second == steps + [Connect(id)] + [Attach(id)];
    AttachedNext(y, id);
    NothingSized();
    StartedClientCatchesUp(second, id, helloSize, snapshotSize);
    ToldExactly(second, id, helloSize, snapshotSize);
    HandshakeReplay(y.sequence, Snapshot(y.table));
  }

  lemma AttachedNext(y: System, id: nat)
    requires id !in y.sessions
    ensures var z := Next(Next(y, Connect(id)), Attach(id));
            && z.table == y.table && z.log == y.log && z.sink == Some(id) && z.sequence == y.sequence
            && id in z.sessions && z.sessions[id] == NEW_SESSION.(phase := Attached(y.sequence, Snapshot(y.table)))
  {
    hide Snapshot;
  }

  /** A start with nothing pending writes the handshake and nothing else. */
  lemma ToldExactly(steps: seq<Step>, id: nat, helloSize: nat, snapshotSize: nat)
    requires |Run(steps).log| <= U64_MAX && Run(steps).sink == Some(id) && id in Run(steps).sessions
    requires helloSize + snapshotSize <= MAX_QUEUE_BYTES
    requires var s := Run(steps).sessions[id];
             s.phase.Attached? && SnapshotOk(s.phase.items) && s == NEW_SESSION.(phase := s.phase)
    ensures var p := Run(steps).sessions[id].phase;
            var z := Run(steps + [Begin(id, helloSize, snapshotSize)] + Locally(id, Flush(2)));
            id in z.sessions && z.sessions[id].wire == [HelloFrame, SnapshotFrame(p.base, p.items)]
  {
    hide Run, Next, ViewOf, HistoryOk, Scripted, Start, Accounted, Flush, Replay, SnapshotOk, Buffered, Stream, Locally;
    var y := Run(steps);
    var s := y.sessions[id];
    RunOk(steps);
    assert SessionOk(s, y.log, true);
    assert Sizes(s.conn.pending) == 0;
    Starts(s, y.log, helloSize, snapshotSize);
    RunSnoc(steps, Begin(id, helloSize, snapshotSize));
    BegunNext(y, id, helloSize, snapshotSize);
    var prologue := Prologue(s, helloSize, snapshotSize);
    assert prologue + [] == prologue == [prologue[0], prologue[1]] + [];
    StreamOfQueue(Sessions.Begin(s, helloSize, snapshotSize), prologue[0], prologue[1], []);
    NoFrames();
    Flushed(steps + [Begin(id, helloSize, snapshotSize)], id);
  }

  lemma HandshakeReplay(sequence: uint64, items: seq<Item>)
    ensures Replay([HelloFrame, SnapshotFrame(sequence, items)]) == Client(View(ByKey(items), map[]), sequence)
  {
    hide ByKey;
    var wire := [HelloFrame, SnapshotFrame(sequence, items)];
    assert wire[..1] == [HelloFrame] && [HelloFrame][..0] == [];
  }

  // A presenter goes.

  lemma {:induction false} SinkStaysAway(steps: seq<Step>, more: seq<Step>, id: nat)
    requires id in Run(steps).sessions && !Run(steps).sessions[id].phase.New? && Run(steps).sink != Some(id)
    ensures id in Run(steps + more).sessions && !Run(steps + more).sessions[id].phase.New?
    ensures Run(steps + more).sink != Some(id)
    ensures Run(steps).sessions[id].conn.failed ==> Run(steps + more).sessions[id].conn.failed
    decreases |more|
  {
    hide Next;
    if more == [] {
      assert steps + more == steps;
    } else {
      var front, last := more[..|more| - 1], more[|more| - 1];
      SinkStaysAway(steps, front, id);
      assert (steps + more)[..|steps + more| - 1] == steps + front;
      OneStepAway(Run(steps + front), last, id);
    }
  }

  lemma OneStepAway(y: System, step: Step, id: nat)
    requires id in y.sessions && !y.sessions[id].phase.New? && y.sink != Some(id)
    ensures var z := Next(y, step);
            && id in z.sessions && !z.sessions[id].phase.New? && z.sink != Some(id)
            && (y.sessions[id].conn.failed ==> z.sessions[id].conn.failed)
  {
    hide Apply, ViewOf, Snapshot, SnapshotOk, FlushPrologue, FlushPending, EnvelopeOk;
  }

  /** Dropping is final: once the owner has let go of a presenter that attached, because it detached or
      because it refused a change, it never sends to it again. */
  lemma DroppedStaysDropped(steps: seq<Step>, more: seq<Step>, id: nat)
    requires id in Run(steps).sessions && !Run(steps).sessions[id].phase.New?
    ensures Run(steps).sink != Some(id) ==> Run(steps + more).sink != Some(id)
    ensures Run(steps + [Detach(id)] + more).sink != Some(id)
  {
    hide Next;
    if Run(steps).sink != Some(id) {
      SinkStaysAway(steps, more, id);
    }
    assert (steps + [Detach(id)])[..|steps|] == steps;
    Detached(Run(steps), id);
    SinkStaysAway(steps + [Detach(id)], more, id);
  }

  lemma Detached(y: System, id: nat)
    ensures Next(y, Detach(id)).sink != Some(id) && Next(y, Detach(id)).sessions == y.sessions
    ensures forall other :: other != id && y.sink == Some(other) ==> Next(y, Detach(id)).sink == Some(other)
  {
  }

  /** Failing is final: from then on the connection takes no state message, no reply and no start, and
      what it had queued only runs out. */
  lemma {:induction false} FailureIsFinal(steps: seq<Step>, more: seq<Step>, id: nat, m: Outbound)
    requires id in Run(steps).sessions
    ensures var y := Run(steps + [Local(id, FailNow)] + more);
            && id in y.sessions && y.sessions[id].conn.failed
            && Send(y.sessions[id].conn, m).1 == Closed && Reply(y.sessions[id].conn, m).1 == Closed
            && |y.sessions[id].conn.queue| <= |Run(steps).sessions[id].conn.queue|
    decreases |more|
  {
    hide Run, Next;
    RunSnoc(steps, Local(id, FailNow));
    LocalNext(Run(steps), id, FailNow);
    var failed := steps + [Local(id, FailNow)];
    if more == [] {
      assert failed + more == failed;
    } else {
      var front, last := more[..|more| - 1], more[|more| - 1];
      FailureIsFinal(steps, front, id, m);
      assert failed + more == failed + front + [last];
      RunSnoc(failed + front, last);
      OneStepFailed(Run(failed + front), last, id);
    }
  }

  lemma OneStepFailed(y: System, step: Step, id: nat)
    requires id in y.sessions && y.sessions[id].conn.failed
    ensures var z := Next(y, step);
            && id in z.sessions && z.sessions[id].conn.failed
            && |z.sessions[id].conn.queue| <= |y.sessions[id].conn.queue|
  {
    hide Apply, ViewOf, Snapshot, SnapshotOk, FlushPrologue, FlushPending, EnvelopeOk;
  }

  /** A writer that stops, for a failed write or for any other reason, writes nothing more, so a frame cut
      short is never followed by another. */
  lemma {:induction false} StoppedWriterIsSilent(steps: seq<Step>, more: seq<Step>, id: nat, stop: Action)
    requires stop in {WriteFails, StopWriting} && id in Run(steps).sessions
    requires var s := Run(steps).sessions[id];
             s.phase.Running? && (if stop.WriteFails? then s.writer.Holding? else s.writer.Idle?)
    ensures var y := Run(steps + [Local(id, stop)] + more);
            && id in y.sessions && y.sessions[id].writer.Exited?
            && y.sessions[id].wire == Run(steps).sessions[id].wire
    decreases |more|
  {
    hide Run, Next;
    RunSnoc(steps, Local(id, stop));
    LocalNext(Run(steps), id, stop);
    var stopped := steps + [Local(id, stop)];
    if more == [] {
      assert stopped + more == stopped;
    } else {
      var front, last := more[..|more| - 1], more[|more| - 1];
      StoppedWriterIsSilent(steps, front, id, stop);
      assert stopped + more == stopped + front + [last];
      RunSnoc(stopped + front, last);
      OneStepSilent(Run(stopped + front), last, id);
    }
  }

  lemma OneStepSilent(y: System, step: Step, id: nat)
    requires id in y.sessions && y.sessions[id].writer.Exited?
    ensures var z := Next(y, step);
            id in z.sessions && z.sessions[id].writer.Exited? && z.sessions[id].wire == y.sessions[id].wire
  {
    hide Apply, ViewOf, Snapshot, SnapshotOk, Start, Send, Reply, EnvelopeOk;
  }

  /** Anything but a well-formed command with a higher request ID ends the reading: nothing is dispatched
      after it. */
  lemma {:induction false} BadFrameEndsReading(steps: seq<Step>, more: seq<Step>, id: nat, e: Inbound)
    requires id in Run(steps).sessions
    requires Run(steps).sessions[id].phase.Running? && Run(steps).sessions[id].reader.Reading?
    requires e.Unreadable? || e != Envelope(CommandKind, e.requestID, 0, true, true)
             || e.requestID <= Run(steps).sessions[id].conn.lastRequestID
    ensures var y := Run(steps + [Local(id, Receive(e))] + more);
            && id in y.sessions && y.sessions[id].reader.Stopped?
            && y.sessions[id].dispatched == Run(steps).sessions[id].dispatched
    decreases |more|
  {
    hide Run, Next;
    RunSnoc(steps, Local(id, Receive(e)));
    LocalNext(Run(steps), id, Receive(e));
    var ended := steps + [Local(id, Receive(e))];
    if more == [] {
      assert ended + more == ended;
    } else {
      var front, last := more[..|more| - 1], more[|more| - 1];
      BadFrameEndsReading(steps, front, id, e);
      assert ended + more == ended + front + [last];
      RunSnoc(ended + front, last);
      OneStepUnread(Run(ended + front), last, id);
    }
  }

  lemma OneStepUnread(y: System, step: Step, id: nat)
    requires id in y.sessions && y.sessions[id].reader.Stopped?
    ensures var z := Next(y, step);
            && id in z.sessions && z.sessions[id].reader.Stopped?
            && z.sessions[id].dispatched == y.sessions[id].dispatched
  {
    hide Apply, ViewOf, Snapshot, SnapshotOk, Start, Send, Reply, EnvelopeOk;
  }
}
