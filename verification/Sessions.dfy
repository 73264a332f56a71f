/** One presenter session: its connection, its writer and reader goroutines and the frames written so
    far. Every mutex-protected section and every channel operation is one step. */
module Sessions {
  import opened Utf8
  import opened Wrappers
  import opened Protocol
  import opened Messages
  import opened Presenter

  /** How far the handler of internal/presenter/server.go has come. `Over` is a handler that returned
      before the writer was started. */
  datatype Phase = New | Attached(base: uint64, items: seq<Item>) | Running(base: uint64, items: seq<Item>) | Over

  datatype Writer = Idle | Holding(m: Outbound) | Wrote(m: Outbound) | Exited(lost: Option<Outbound>)
  datatype Reader = Reading | Busy(requestID: uint64) | Stopped

  datatype Session = Session(
    conn: Conn, phase: Phase, writer: Writer, reader: Reader, wire: seq<Frame>, dispatched: seq<nat>)

  const NEW_SESSION := Session(FRESH, New, Idle, Reading, [], [])

  datatype Action =
    | FailNow
    | Take
    | Write
    | WriteFails
    | Settle
    | StopWriting
    | Receive(e: Inbound)
    | Answer(payload: Text, size: nat)

  /** A step of the session's own goroutines; a step that is not enabled changes nothing. */
  function Act(s: Session, a: Action): Session {
    match a
    case FailNow => s.(conn := s.conn.(failed := true))
    case Take =>
      if s.phase.Running? && s.writer.Idle? && s.conn.queue != []
      then s.(conn := s.conn.(queue := s.conn.queue[1..]), writer := Holding(s.conn.queue[0])) else s
    case Write =>
      if s.phase.Running? && s.writer.Holding?
      then s.(writer := Wrote(s.writer.m), wire := s.wire + [s.writer.m.frame]) else s
    case WriteFails =>
      if s.phase.Running? && s.writer.Holding? then s.(writer := Exited(Some(s.writer.m))) else s
    case Settle =>
      if s.phase.Running? && s.writer.Wrote?
      then s.(conn := Released(s.conn, s.writer.m), writer := Idle) else s
    case StopWriting =>
      if s.phase.Running? && s.writer.Idle? then s.(writer := Exited(None)) else s
    case Receive(e) =>
      if !s.phase.Running? || !s.reader.Reading? then s
      else
        var (c, dispatch) := Presenter.Receive(s.conn, e);
        if dispatch.None? then s.(conn := c, reader := Stopped)
        else s.(conn := c, reader := Busy(dispatch.value), dispatched := s.dispatched + [dispatch.value])
    case Answer(payload, size) =>
      if !s.phase.Running? || !s.reader.Busy? then s
      else
        var (c, outcome) := Reply(s.conn, Outbound(ReplyFrame(s.reader.requestID, payload), size, 0));
        s.(conn := c, reader := if outcome == Taken then Reading else Stopped)
  }

  /** What the handler sends first. */
  function Prologue(s: Session, helloSize: nat, snapshotSize: nat): seq<Outbound>
    requires s.phase.Attached?
  {
    [Outbound(HelloFrame, helloSize, 0), Outbound(SnapshotFrame(s.phase.base, s.phase.items), snapshotSize, 0)]
  }

  /** The handler after Attach: validate the snapshot, then hand hello and snapshot to the queue. */
  function Begin(s: Session, helloSize: nat, snapshotSize: nat): Session {
    if !s.phase.Attached? then s
    else if !SnapshotOk(s.phase.items) then s.(phase := Over)
    else
      var (c, outcome) := Start(s.conn, s.phase.base, Prologue(s, helloSize, snapshotSize));
      if outcome == Taken then s.(conn := c, phase := Running(s.phase.base, s.phase.items))
      else s.(conn := c, phase := Over)
  }

  // Queue accounting.

  function Sizes(ms: seq<Outbound>): nat {
    if ms == [] then 0 else ms[0].size + Sizes(ms[1..])
  }

  /** The message the writer has taken from the queue and not yet released. */
  function Held(w: Writer): seq<Outbound> {
    match w
    case Holding(m) => [m]
    case Wrote(m) => [m]
    case Exited(Some(m)) => [m]
    case _ => []
  }

  predicate Accounted(c: Conn, held: seq<Outbound>) {
    && c.queuedMessages == |c.pending| + |c.queue| + |held| <= MAX_QUEUE_MESSAGES
    && c.queuedBytes == Sizes(c.pending) + Sizes(c.queue) + Sizes(held) <= MAX_QUEUE_BYTES
  }

  lemma {:induction false} SizesSplit(a: seq<Outbound>, b: seq<Outbound>)
    ensures Sizes(a + b) == Sizes(a) + Sizes(b)
  {
    if a == [] {
      assert a + b == b;
    } else {
      SizesSplit(a[1..], b);
      assert (a + b)[1..] == a[1..] + b;
    }
  }

  lemma SizesSnoc(a: seq<Outbound>, m: Outbound)
    ensures Sizes(a + [m]) == Sizes(a) + m.size
  {
    SizesSplit(a, [m]);
    assert [m][1..] == [];
  }

  /** With the accounting intact a reserved message always finds room in the channel. */
  lemma ReservationMeansRoom(c: Conn, held: seq<Outbound>, m: Outbound)
    requires Accounted(c, held)
    ensures CanReserve(c, m) ==> |c.queue| < MAX_QUEUE_MESSAGES
    ensures Send(c, m).1 != Full && Reply(c, m).1 != Full
  {
  }

  lemma SendAccounts(c: Conn, held: seq<Outbound>, m: Outbound)
    requires Accounted(c, held)
    ensures Accounted(Send(c, m).0, held) && Accounted(Reply(c, m).0, held)
  {
    SizesSnoc(c.pending, m);
    SizesSnoc(c.queue, m);
  }

  lemma {:induction false} PrologueFlushes(c: Conn, held: seq<Outbound>, prologue: seq<Outbound>)
    requires Accounted(c, held)
    ensures var (r, outcome) := FlushPrologue(c, prologue);
            && Accounted(r, held) && outcome in {Taken, Overflow} && r.pending == c.pending
            && (outcome == Taken ==>
                  r == c.(queue := c.queue + prologue,
                          queuedMessages := r.queuedMessages, queuedBytes := r.queuedBytes))
    decreases |prologue|
  {
    if prologue == [] {
      assert c.queue + prologue == c.queue;
    } else if CanReserve(c, prologue[0]) {
      SizesSnoc(c.queue, prologue[0]);
      PrologueFlushes(Reserved(c, prologue[0]).(queue := c.queue + [prologue[0]]), held, prologue[1..]);
      assert c.queue + [prologue[0]] + prologue[1..] == c.queue + prologue;
    }
  }

  /** `todo` carries exactly the sequence numbers after `last`. */
  predicate Consecutive(todo: seq<Outbound>, last: nat) {
    last + |todo| <= U64_MAX && forall i :: 0 <= i < |todo| ==> todo[i].sequence == last + i + 1
  }

  /** Consecutive deltas after the baseline are all queued: none is filtered, refused or blocked. */
  lemma {:induction false} PendingFlushes(c: Conn, baseline: uint64, todo: seq<Outbound>)
    requires baseline <= c.lastSequence && Consecutive(todo, c.lastSequence)
    requires |c.queue| + |todo| <= MAX_QUEUE_MESSAGES
    ensures FlushPending(c, baseline, todo) ==
            (c.(queue := c.queue + todo, lastSequence := c.lastSequence + |todo|), Taken)
    decreases |todo|
  {
    if todo == [] {
      assert c.queue + todo == c.queue;
    } else {
      var m := todo[0];
      assert forall i :: 0 <= i < |todo| - 1 ==> todo[1..][i] == todo[i + 1];
      PendingFlushes(c.(lastSequence := m.sequence, queue := c.queue + [m]), baseline, todo[1..]);
      assert c.queue + [m] + todo[1..] == c.queue + todo;
    }
  }

  /** A start over an owner-fed connection either refuses for lack of room in the prologue or queues
      hello, snapshot and every pending delta, in that order. */
  lemma StartFlushes(c: Conn, baseline: uint64, prologue: seq<Outbound>)
    requires Accounted(c, []) && !c.started && c.queue == [] && Consecutive(c.pending, baseline)
    ensures var (r, outcome) := Start(c, baseline, prologue);
            && outcome in {Closed, Overflow, Taken}
            && (outcome == Taken ==>
                  && r.queue == prologue + c.pending && r.pending == [] && r.started
                  && r.lastSequence == baseline + |c.pending|
                  && r.lastRequestID == c.lastRequestID && r.failed == c.failed
                  && Accounted(r, []))
  {
    if !c.failed {
      var begun := c.(lastSequence := baseline);
      PrologueFlushes(begun, [], prologue);
      var (p, first) := FlushPrologue(begun, prologue);
      if first == Taken {
        assert [] + prologue == prologue;
        PendingFlushes(p, baseline, p.pending);
        SizesSplit(prologue, c.pending);
      }
    }
  }

  // When a message is taken.

  /** Room for one more message of this size beside everything pending, queued or being written. */
  predicate Room(c: Conn, held: seq<Outbound>, size: nat) {
    && |c.pending| + |c.queue| + |held| < MAX_QUEUE_MESSAGES
    && Sizes(c.pending) + Sizes(c.queue) + Sizes(held) + size <= MAX_QUEUE_BYTES
  }

  /** A connection takes a state message exactly when it has not failed, there is room, and once started
      the message is next in sequence or carries none; it is then the last one pending or queued. What it
      does not take leaves it as it was. */
  lemma SendTaken(c: Conn, held: seq<Outbound>, m: Outbound)
    requires Accounted(c, held)
    ensures var (r, outcome) := Send(c, m);
            && (outcome == Taken <==>
                  && !c.failed && Room(c, held, m.size)
                  && (c.started ==> m.sequence == 0 || m.sequence == c.lastSequence + 1))
            && (outcome == Taken ==>
                  && r.queue == c.queue + (if c.started then [m] else [])
                  && r.pending == c.pending + (if c.started then [] else [m])
                  && r.lastSequence == (if c.started then m.sequence else c.lastSequence))
            && (outcome != Taken ==> r == c)
            && (outcome == Closed <==> c.failed)
            && (outcome == Overflow <==> !c.failed && !Room(c, held, m.size))
            && r.started == c.started && r.failed == c.failed && r.lastRequestID == c.lastRequestID
  {
    assert c.queue + [] == c.queue && c.pending + [] == c.pending;
  }

  /** A reply is queued last exactly when the connection has not failed and there is room. */
  lemma ReplyTaken(c: Conn, held: seq<Outbound>, m: Outbound)
    requires Accounted(c, held)
    ensures var (r, outcome) := Reply(c, m);
            && (outcome == Taken <==> !c.failed && Room(c, held, m.size))
            && (outcome == Taken ==> r == c.(queue := c.queue + [m],
                                             queuedMessages := r.queuedMessages, queuedBytes := r.queuedBytes))
            && (outcome != Taken ==> r == c)
  {
  }

  /** The pending messages above the baseline: a snapshot already covers the others. */
  function Above(todo: seq<Outbound>, baseline: nat): seq<Outbound> {
    if todo == [] then []
    else (if todo[0].sequence > baseline then [todo[0]] else []) + Above(todo[1..], baseline)
  }

  lemma {:induction false} AboveSizes(todo: seq<Outbound>, baseline: nat)
    ensures |Above(todo, baseline)| <= |todo| && Sizes(Above(todo, baseline)) <= Sizes(todo)
  {
    if todo == [] {
    } else {
      AboveSizes(todo[1..], baseline);
      var head := if todo[0].sequence > baseline then [todo[0]] else [];
      SizesSplit(head, Above(todo[1..], baseline));
      assert [todo[0]][1..] == [];
    }
  }

  lemma ConsecutiveCons(m: Outbound, rest: seq<Outbound>, last: uint64)
    ensures Consecutive([m] + rest, last) <==> m.sequence == last + 1 && Consecutive(rest, m.sequence)
  {
    var all := [m] + rest;
    assert all[0] == m;
    assert forall i :: 0 <= i < |rest| ==> all[i + 1] == rest[i];
    if Consecutive(all, last) {
      forall i | 0 <= i < |rest| ensures rest[i].sequence == m.sequence + i + 1 {
        assert all[i + 1].sequence == last + (i + 1) + 1;
      }
    }
  }

  lemma SizesCons(todo: seq<Outbound>)
    requires todo != []
    ensures Sizes(todo) == todo[0].size + Sizes(todo[1..])
  {
  }

  lemma NothingSized()
    ensures Sizes([]) == 0
  {
  }

  /** Whoever sent what is pending, it is flushed exactly when the part above the baseline is
      consecutive; what a snapshot covers is given back to the bounds. */
  lemma {:induction false} PendingTaken(c: Conn, baseline: uint64, todo: seq<Outbound>)
    requires baseline <= c.lastSequence && |c.queue| + |todo| <= MAX_QUEUE_MESSAGES
    requires c.queuedMessages == |todo| + |c.queue| && c.queuedBytes == Sizes(todo) + Sizes(c.queue)
    ensures var (r, outcome) := FlushPending(c, baseline, todo);
            && outcome in {Taken, Gap}
            && (outcome == Taken <==> Consecutive(Above(todo, baseline), c.lastSequence))
            && (outcome == Taken ==>
                  && r.queue == c.queue + Above(todo, baseline)
                  && r.queuedMessages == |r.queue| && r.queuedBytes == Sizes(r.queue)
                  && r == c.(queue := r.queue, queuedMessages := r.queuedMessages, queuedBytes := r.queuedBytes,
                             lastSequence := c.lastSequence + |Above(todo, baseline)|))
    decreases |todo|
  {
    hide Consecutive, Sizes;
    if todo == [] {
      NothingSized();
      assert c.queue + [] == c.queue;
      NothingConsecutive(c.lastSequence);
    } else {
      var m, rest := todo[0], todo[1..];
      SizesCons(todo);
      if m.sequence <= baseline {
        PendingTaken(Released(c, m), baseline, rest);
        assert [] + Above(rest, baseline) == Above(rest, baseline);
      } else {
        ConsecutiveCons(m, Above(rest, baseline), c.lastSequence);
        if m.sequence == c.lastSequence + 1 {
          SizesSnoc(c.queue, m);
          PendingTaken(c.(lastSequence := m.sequence, queue := c.queue + [m]), baseline, rest);
          assert c.queue + [m] + Above(rest, baseline) == c.queue + ([m] + Above(rest, baseline));
        }
      }
    }
  }

  lemma NothingConsecutive(last: uint64)
    ensures Consecutive([], last)
  {
  }

  lemma {:induction false} PrologueTaken(c: Conn, held: seq<Outbound>, prologue: seq<Outbound>)
    requires Accounted(c, held)
    ensures FlushPrologue(c, prologue).1 == Taken <==>
            && |c.pending| + |c.queue| + |held| + |prologue| <= MAX_QUEUE_MESSAGES
            && Sizes(c.pending) + Sizes(c.queue) + Sizes(held) + Sizes(prologue) <= MAX_QUEUE_BYTES
    decreases |prologue|
  {
    if prologue == [] {
    } else if CanReserve(c, prologue[0]) {
      SizesSnoc(c.queue, prologue[0]);
      PrologueTaken(Reserved(c, prologue[0]).(queue := c.queue + [prologue[0]]), held, prologue[1..]);
    }
  }

  /** A connection starts exactly when it has not failed, the handshake fits beside what is pending, and
      the pending messages above the baseline are consecutive from it, whoever sent them. */
  lemma StartTaken(c: Conn, baseline: uint64, prologue: seq<Outbound>)
    requires Accounted(c, []) && !c.started && c.queue == []
    ensures var (r, outcome) := Start(c, baseline, prologue);
            && (outcome == Taken <==>
                  && !c.failed
                  && |c.pending| + |prologue| <= MAX_QUEUE_MESSAGES
                  && Sizes(c.pending) + Sizes(prologue) <= MAX_QUEUE_BYTES
                  && Consecutive(Above(c.pending, baseline), baseline))
            && (outcome == Taken ==>
                  && r.started && r.pending == [] && r.queue == prologue + Above(c.pending, baseline)
                  && Accounted(r, []) && r.lastSequence == baseline + |Above(c.pending, baseline)|)
  {
    hide Consecutive;
    if !c.failed {
      var begun := c.(lastSequence := baseline);
      PrologueFlushes(begun, [], prologue);
      PrologueTaken(begun, [], prologue);
      var (p, first) := FlushPrologue(begun, prologue);
      if first == Taken {
        assert [] + prologue == prologue;
        AboveSizes(c.pending, baseline);
        SizesSplit(prologue, Above(c.pending, baseline));
        PendingTaken(p, baseline, p.pending);
      }
    }
  }

  /** The reader dispatches a request exactly when it gets a well-formed command envelope, whose request
      ID exceeds all earlier ones, holding a decodable command. */
  lemma CommandDispatched(c: Conn, e: Inbound, id: uint64)
    ensures Presenter.Receive(c, e).1 == Some(id) <==>
            e == Envelope(CommandKind, id, 0, true, true) && id > c.lastRequestID
    ensures Presenter.Receive(c, e).1 == Some(id) ==> Presenter.Receive(c, e).0 == c.(lastRequestID := id)
  {
  }

  // What the session has put on its way to the wire.

  function FramesOf(ms: seq<Outbound>): seq<Frame> {
    seq(|ms|, i requires 0 <= i < |ms| => ms[i].frame)
  }

  function Unwritten(w: Writer): seq<Outbound> {
    match w
    case Holding(m) => [m]
    case Exited(Some(m)) => [m]
    case _ => []
  }

  /** The frames written, being written and queued, in order. The wire is always a prefix of it. */
  function Stream(s: Session): seq<Frame> {
    s.wire + FramesOf(Unwritten(s.writer)) + FramesOf(s.conn.queue)
  }

  lemma StreamQueued(s: Session, c: Conn, m: Outbound)
    requires c.queue == s.conn.queue + [m]
    ensures Stream(s.(conn := c)) == Stream(s) + [m.frame]
  {
    assert FramesOf(s.conn.queue + [m]) == FramesOf(s.conn.queue) + [m.frame];
  }

  lemma WireIsPrefix(s: Session)
    ensures s.wire <= Stream(s)
  {
  }

  /** Taking a message from the queue and writing it only moves it along the stream. */
  lemma StreamTaken(s: Session)
    ensures Stream(Act(s, Take)) == Stream(s)
  {
    if s.conn.queue != [] {
      var first, rest := s.conn.queue[0], s.conn.queue[1..];
      assert s.conn.queue == [first] + rest;
      assert FramesOf(s.conn.queue) == FramesOf([first]) + FramesOf(rest);
      assert s.wire + FramesOf([]) == s.wire;
      assert s.wire + (FramesOf([first]) + FramesOf(rest)) == s.wire + FramesOf([first]) + FramesOf(rest);
    }
  }

  lemma StreamWritten(s: Session, a: Action)
    requires a in {Write, WriteFails, Settle, StopWriting}
    ensures Stream(Act(s, a)) == Stream(s)
  {
    if s.writer.Holding? {
      assert FramesOf([s.writer.m]) == [s.writer.m.frame];
      assert s.wire + [s.writer.m.frame] + [] == s.wire + [s.writer.m.frame];
    }
  }

  /** State messages number `base + 1`, `base + 2`, … and carry the owner's changes in that order. */
  predicate Numbered(frames: seq<Frame>, base: nat, log: seq<Delta>) {
    base + |frames| <= |log| && forall i :: 0 <= i < |frames| ==> frames[i] == StateFrame(base + i + 1, log[base + i])
  }

  /** Hello, then the snapshot, then numbered state messages interleaved with replies. */
  predicate Scripted(stream: seq<Frame>, base: nat, items: seq<Item>, log: seq<Delta>) {
    && |stream| >= 2 && stream[0] == HelloFrame && stream[1] == SnapshotFrame(base, items)
    && (forall i :: 2 <= i < |stream| ==> stream[i].StateFrame? || stream[i].ReplyFrame?)
    && Numbered(States(stream), base, log)
  }

  predicate Rising(ids: seq<nat>, last: nat) {
    && (forall i :: 0 <= i < |ids| ==> 0 < ids[i] <= last)
    && forall i, j :: 0 <= i < j < |ids| ==> ids[i] < ids[j]
  }

  predicate Answered(s: Session) {
    var replies := Replies(Stream(s));
    match s.reader
    case Reading => replies == s.dispatched
    case Busy(r) => replies + [r] == s.dispatched
    case Stopped => replies <= s.dispatched
  }

  /** The pending deltas of a connection that has not started. */
  predicate Buffered(pending: seq<Outbound>, base: nat, log: seq<Delta>) {
    Consecutive(pending, base) && Numbered(FramesOf(pending), base, log)
  }

  /** What every step keeps. `live` says that the session's connection is the owner's sink. */
  predicate SessionOk(s: Session, log: seq<Delta>, live: bool) {
    match s.phase
    case New => s == NEW_SESSION.(conn := FRESH.(failed := s.conn.failed)) && !live
    case Attached(base, items) =>
      && s == NEW_SESSION.(conn := s.conn, phase := s.phase)
      && !s.conn.started && s.conn.queue == [] && s.conn.lastRequestID == 0
      && Accounted(s.conn, [])
      && Buffered(s.conn.pending, base, log)
      && (live ==> base + |s.conn.pending| == |log|)
    case Running(base, items) =>
      && s.conn.started && s.conn.pending == []
      && Accounted(s.conn, Held(s.writer))
      && Scripted(Stream(s), base, items, log)
      && s.conn.lastSequence == base + |States(Stream(s))|
      && (live ==> s.conn.lastSequence == |log|)
      && Rising(s.dispatched, s.conn.lastRequestID) && Answered(s)
    case Over => s.wire == [] && s.dispatched == []
  }

  lemma ScriptSnoc(stream: seq<Frame>, base: nat, items: seq<Item>, log: seq<Delta>, f: Frame)
    requires Scripted(stream, base, items, log)
    requires var k := base + |States(stream)|;
             f.ReplyFrame? || (k < |log| && f == StateFrame(k + 1, log[k]))
    ensures Scripted(stream + [f], base, items, log)
    ensures |States(stream + [f])| == |States(stream)| + if f.StateFrame? then 1 else 0
  {
    FiltersSnoc(stream, f);
  }

  lemma ActKeeps(s: Session, a: Action, log: seq<Delta>, live: bool)
    requires SessionOk(s, log, live)
    ensures SessionOk(Act(s, a), log, live)
  {
    if s.phase.Running? {
      RunningActKeeps(s, a, log, live);
    }
  }

  lemma RunningActKeeps(s: Session, a: Action, log: seq<Delta>, live: bool)
    requires s.phase.Running? && SessionOk(s, log, live)
    ensures SessionOk(Act(s, a), log, live)
  {
    hide Scripted, Stream;
    match a
    case Receive(e) => ReceiveKeeps(s, e, log, live);
    case Answer(payload, size) => AnswerKeeps(s, payload, size, log, live);
    case FailNow => SameStream(s, Act(s, a));
    case _ => WriterKeeps(s, a, log, live);
  }

  lemma SameStream(s: Session, s': Session)
    requires s'.wire == s.wire && s'.writer == s.writer && s'.conn.queue == s.conn.queue
    ensures Stream(s') == Stream(s)
  {
  }

  lemma WriterKeeps(s: Session, a: Action, log: seq<Delta>, live: bool)
    requires s.phase.Running? && SessionOk(s, log, live)
    requires a in {Take, Write, WriteFails, Settle, StopWriting}
    ensures SessionOk(Act(s, a), log, live)
  {
    hide Scripted, Stream;
    if a.Take? {
      StreamTaken(s);
    } else {
      StreamWritten(s, a);
    }
    if s.writer.Wrote? {
      SizesSnoc([], s.writer.m);
      assert [] + [s.writer.m] == [s.writer.m];
    }
    if s.conn.queue != [] {
      SizesSnoc([], s.conn.queue[0]);
      assert [] + [s.conn.queue[0]] == [s.conn.queue[0]];
      SizesSplit([s.conn.queue[0]], s.conn.queue[1..]);
      assert s.conn.queue == [s.conn.queue[0]] + s.conn.queue[1..];
    }
  }

  lemma ReceiveKeeps(s: Session, e: Inbound, log: seq<Delta>, live: bool)
    requires s.phase.Running? && SessionOk(s, log, live)
    ensures SessionOk(Act(s, Receive(e)), log, live)
  {
    hide Scripted, Stream;
    SameStream(s, Act(s, Receive(e)));
  }

  lemma AnswerKeeps(s: Session, payload: Text, size: nat, log: seq<Delta>, live: bool)
    requires s.phase.Running? && SessionOk(s, log, live)
    ensures SessionOk(Act(s, Answer(payload, size)), log, live)
  {
    hide Scripted, Stream;
    if s.reader.Busy? {
      var m := Outbound(ReplyFrame(s.reader.requestID, payload), size, 0);
      var (c, outcome) := Reply(s.conn, m);
      SendAccounts(s.conn, Held(s.writer), m);
      ReservationMeansRoom(s.conn, Held(s.writer), m);
      if outcome == Taken {
        StreamQueued(s, c, m);
        FiltersSnoc(Stream(s), m.frame);
        ScriptSnoc(Stream(s), s.phase.base, s.phase.items, log, m.frame);
        SameStream(s.(conn := c), Act(s, Answer(payload, size)));
      } else {
        SameStream(s, Act(s, Answer(payload, size)));
      }
    }
  }
}
