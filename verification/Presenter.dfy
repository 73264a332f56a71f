/** One presenter connection (internal/presenter/connection.go). The functions on `Conn` are the
    mutex-protected sections as values; the class `Connection` is the code, proved against them. */
module Presenter {
  import opened Wrappers
  import opened Protocol
  import opened Messages

  const MAX_QUEUE_MESSAGES: nat := 256
  const MAX_QUEUE_BYTES: nat := 0x200_0000

  /** A marshalled frame: what it says, how long it is, and the state sequence it carries (or 0). */
  datatype Outbound = Outbound(frame: Frame, size: nat, sequence: uint64)

  datatype Conn = Conn(
    queue: seq<Outbound>, pending: seq<Outbound>, queuedMessages: int, queuedBytes: int,
    lastSequence: uint64, lastRequestID: uint64, started: bool, failed: bool)

  const FRESH := Conn([], [], 0, 0, 0, 0, false, false)

  /** How a locked section ends. `Full` is the select's default branch, `Blocked` a send on a full
      channel while the mutex is held. */
  datatype Outcome = Taken | Closed | Overflow | Gap | Full | Blocked

  /** ValidateNextSequence of protocol/validate.go. */
  predicate NextSequence(previous: uint64, next: uint64) {
    previous != U64_MAX && next == previous + 1
  }

  predicate Follows(last: uint64, sequence: uint64) {
    sequence == 0 || NextSequence(last, sequence)
  }

  predicate CanReserve(c: Conn, m: Outbound) {
    c.queuedMessages + 1 <= MAX_QUEUE_MESSAGES && c.queuedBytes + m.size <= MAX_QUEUE_BYTES
  }

  function Reserved(c: Conn, m: Outbound): Conn {
    c.(queuedMessages := c.queuedMessages + 1, queuedBytes := c.queuedBytes + m.size)
  }

  function Released(c: Conn, m: Outbound): Conn {
    c.(queuedMessages := c.queuedMessages - 1, queuedBytes := c.queuedBytes - m.size)
  }

  function Send(c: Conn, m: Outbound): (Conn, Outcome) {
    if c.failed then (c, Closed)
    else if !CanReserve(c, m) then (c, Overflow)
    else if !c.started then (Reserved(c, m).(pending := c.pending + [m]), Taken)
    else if !Follows(c.lastSequence, m.sequence) then (c, Gap)
    else if |c.queue| >= MAX_QUEUE_MESSAGES then (c, Full)
    else (Reserved(c, m).(queue := c.queue + [m], lastSequence := m.sequence), Taken)
  }

  function FlushPrologue(c: Conn, prologue: seq<Outbound>): (Conn, Outcome)
    decreases |prologue|
  {
    if prologue == [] then (c, Taken)
    else if !CanReserve(c, prologue[0]) then (c, Overflow)
    else if |c.queue| >= MAX_QUEUE_MESSAGES then (Reserved(c, prologue[0]), Blocked)
    else FlushPrologue(Reserved(c, prologue[0]).(queue := c.queue + [prologue[0]]), prologue[1..])
  }

  function FlushPending(c: Conn, baseline: uint64, todo: seq<Outbound>): (Conn, Outcome)
    decreases |todo|
  {
    if todo == [] then (c, Taken)
    else
      var m := todo[0];
      if m.sequence <= baseline then FlushPending(Released(c, m), baseline, todo[1..])
      else if !Follows(c.lastSequence, m.sequence) then (c, Gap)
      else if |c.queue| >= MAX_QUEUE_MESSAGES then (c.(lastSequence := m.sequence), Full)
      else FlushPending(c.(lastSequence := m.sequence, queue := c.queue + [m]), baseline, todo[1..])
  }

  function Start(c: Conn, baseline: uint64, prologue: seq<Outbound>): (Conn, Outcome) {
    if c.failed then (c, Closed)
    else
      var (p, first) := FlushPrologue(c.(lastSequence := baseline), prologue);
      if first != Taken then (p, first)
      else
        var (q, second) := FlushPending(p, baseline, p.pending);
        if second != Taken then (q, second) else (q.(pending := [], started := true), Taken)
  }

  function Reply(c: Conn, m: Outbound): (Conn, Outcome) {
    if c.failed then (c, Closed)
    else if !CanReserve(c, m) then (c, Overflow)
    else if |c.queue| >= MAX_QUEUE_MESSAGES then (c, Full)
    else (Reserved(c, m).(queue := c.queue + [m]), Taken)
  }

  datatype Kind = HelloKind | SnapshotKind | StateKind | CommandKind | ReplyKind | UnknownKind

  /** What the reader gets from the socket: nothing usable, or a decoded envelope. */
  datatype Inbound =
    | Unreadable
    | Envelope(kind: Kind, requestID: uint64, sequence: uint64, payloadOk: bool, commandOk: bool)

  /** Envelope.Validate of protocol/validate.go. */
  predicate EnvelopeOk(e: Inbound)
    requires e.Envelope?
  {
    e.payloadOk &&
    match e.kind
    case HelloKind => e.requestID == 0 && e.sequence == 0
    case SnapshotKind => e.requestID == 0
    case StateKind => e.sequence != 0 && e.requestID == 0
    case CommandKind => e.requestID != 0 && e.sequence == 0
    case ReplyKind => e.requestID != 0 && e.sequence == 0
    case UnknownKind => false
  }

  /** One turn of the read loop up to dispatch: the request to dispatch, or None to stop reading. */
  function Receive(c: Conn, e: Inbound): (Conn, Option<uint64>) {
    if e.Unreadable? || !EnvelopeOk(e) || e.kind != CommandKind || e.requestID <= c.lastRequestID then (c, None)
    else (c.(lastRequestID := e.requestID), if e.commandOk then Some(e.requestID) else None)
  }

  class Connection {
    var queue: seq<Outbound>
    var pending: seq<Outbound>
    var queuedMessages: int
    var queuedBytes: int
    var lastSequence: uint64
    var lastRequestID: uint64
    var started: bool
    var failed: bool

    function State(): Conn
      reads this
    {
      Conn(queue, pending, queuedMessages, queuedBytes, lastSequence, lastRequestID, started, failed)
    }

    constructor ()
      ensures State() == FRESH
    {
      queue, pending, queuedMessages, queuedBytes := [], [], 0, 0;
      lastSequence, lastRequestID, started, failed := 0, 0, false, false;
    }

    method Reserve(m: Outbound) returns (ok: bool)
      modifies this`queuedMessages, this`queuedBytes
      ensures ok <==> CanReserve(old(State()), m)
      ensures State() == if ok then Reserved(old(State()), m) else old(State())
    {
      if queuedMessages + 1 > MAX_QUEUE_MESSAGES {
        return false;
      }
      if queuedBytes + m.size > MAX_QUEUE_BYTES {
        return false;
      }
      queuedMessages := queuedMessages + 1;
      queuedBytes := queuedBytes + m.size;
      ok := true;
    }

    method Release(m: Outbound)
      modifies this`queuedMessages, this`queuedBytes
      ensures State() == Released(old(State()), m)
    {
      queuedMessages := queuedMessages - 1;
      queuedBytes := queuedBytes - m.size;
    }

    method Fail()
      modifies this`failed
      ensures State() == old(State()).(failed := true)
    {
      failed := true;
    }

    /** The state sink. A refused message fails the connection once the lock is released. */
    method SendMessage(m: Outbound) returns (ok: bool)
      modifies this
      ensures var (c, outcome) := Send(old(State()), m);
              && (ok <==> outcome == Taken)
              && State() == if outcome == Taken || outcome == Closed then c else c.(failed := true)
    {
      if failed {
        return false;
      }
      var reserved := Reserve(m);
      if !reserved {
        Fail();
        return false;
      }
      if !started {
        pending := pending + [m];
        return true;
      }
      if !Follows(lastSequence, m.sequence) {
        Release(m);
        Fail();
        return false;
      }
      if |queue| < MAX_QUEUE_MESSAGES {
        queue := queue + [m];
        lastSequence := m.sequence;
        return true;
      }
      Release(m);
      Fail();
      ok := false;
    }

    /** Flushes the handshake and then whatever the owner queued while the snapshot was prepared. */
    method StartWriting(baseline: uint64, prologue: seq<Outbound>) returns (outcome: Outcome)
      modifies this
      ensures (State(), outcome) == Start(old(State()), baseline, prologue)
    {
      if failed {
        return Closed;
      }
      lastSequence := baseline;
      ghost var began := State();
      assert prologue[0..] == prologue;
      for i := 0 to |prologue|
        invariant !failed && pending == began.pending
        invariant FlushPrologue(began, prologue) == FlushPrologue(State(), prologue[i..])
      {
        assert prologue[i..][1..] == prologue[i + 1..];
        var reserved := Reserve(prologue[i]);
        if !reserved {
          return Overflow;
        }
        if |queue| >= MAX_QUEUE_MESSAGES {
          return Blocked;
        }
        queue := queue + [prologue[i]];
      }
      ghost var flushed := State();
      assert pending[0..] == pending;
      for i := 0 to |pending|
        invariant pending == began.pending
        invariant FlushPending(flushed, baseline, pending) == FlushPending(State(), baseline, pending[i..])
      {
        assert pending[i..][1..] == pending[i + 1..];
        var m := pending[i];
        if m.sequence <= baseline {
          Release(m);
        } else {
          if !Follows(lastSequence, m.sequence) {
            return Gap;
          }
          lastSequence := m.sequence;
          if |queue| >= MAX_QUEUE_MESSAGES {
            return Full;
          }
          queue := queue + [m];
        }
      }
      pending := [];
      started := true;
      outcome := Taken;
    }

    /** The writer's channel receive; the message stays accounted for until it is written. */
    method TakeForWriting() returns (m: Outbound)
      requires queue != []
      modifies this`queue
      ensures m == old(queue)[0] && State() == old(State()).(queue := old(queue)[1..])
    {
      m := queue[0];
      queue := queue[1..];
    }

    method ReplyTo(m: Outbound) returns (outcome: Outcome)
      modifies this
      ensures (State(), outcome) == Reply(old(State()), m)
    {
      if failed {
        return Closed;
      }
      var reserved := Reserve(m);
      if !reserved {
        return Overflow;
      }
      if |queue| < MAX_QUEUE_MESSAGES {
        queue := queue + [m];
        return Taken;
      }
      Release(m);
      outcome := Full;
    }

    method ReceiveCommand(e: Inbound) returns (dispatch: Option<uint64>)
      modifies this`lastRequestID
      ensures (State(), dispatch) == Receive(old(State()), e)
    {
      if e.Unreadable? || !EnvelopeOk(e) || e.kind != CommandKind {
        return None;
      }
      if e.requestID <= lastRequestID {
        return None;
      }
      lastRequestID := e.requestID;
      dispatch := if e.commandOk then Some(e.requestID) else None;
    }
  }
}
