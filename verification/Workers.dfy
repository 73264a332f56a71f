/** The hand-over of menu readers between bindMenu, dropWorker and shutdown in internal/app/run.go.
    Each lock section is one step, and so is each Close or Start done with the lock released. */
module Workers {
  import opened Utf8
  import opened Wrappers
  import opened Protocol

  /** A worker's menu reader, by the number it was started under, and the path it was bound to. */
  datatype Worker = Worker(menu: Option<nat>, path: Text)

  datatype Table = Table(workers: map<ItemKey, Worker>, closing: bool)

  // The lock sections.

  function AddWorker(t: Table, key: ItemKey): Table {
    if t.closing then t else t.(workers := t.workers[key := Worker(None, [])])
  }

  /** bindMenu's first section: the previous reader to close, or None to do nothing. */
  function BeginBind(t: Table, key: ItemKey, path: Text): (Table, Option<Option<nat>>) {
    if key !in t.workers || t.closing || t.workers[key].path == path then (t, None)
    else (t.(workers := t.workers[key := Worker(None, path)]), Some(t.workers[key].menu))
  }

  /** bindMenu's second section: whether the worker took the reader. */
  function CommitBind(t: Table, key: ItemKey, path: Text, reader: nat): (Table, bool) {
    if key !in t.workers || t.closing || t.workers[key].path != path then (t, false)
    else (t.(workers := t.workers[key := t.workers[key].(menu := Some(reader))]), true)
  }

  function TakeWorker(t: Table, key: ItemKey): (Table, Option<Worker>) {
    (t.(workers := t.workers - {key}), if key in t.workers then Some(t.workers[key]) else None)
  }

  class App {
    var workers: map<ItemKey, Worker>
    var closing: bool

    function Now(): Table
      reads this
    {
      Table(workers, closing)
    }

    constructor ()
      ensures Now() == Table(map[], false)
    {
      workers, closing := map[], false;
    }

    method Register(key: ItemKey)
      modifies this`workers
      ensures Now() == AddWorker(old(Now()), key)
    {
      if closing {
        return;
      }
      workers := workers[key := Worker(None, [])];
    }

    method BindMenuBegin(key: ItemKey, path: Text) returns (previous: Option<Option<nat>>)
      modifies this`workers
      ensures (Now(), previous) == BeginBind(old(Now()), key, path)
    {
      if key !in workers || closing || workers[key].path == path {
        return None;
      }
      previous := Some(workers[key].menu);
      workers := workers[key := Worker(None, path)];
    }

    method BindMenuCommit(key: ItemKey, path: Text, reader: nat) returns (taken: bool)
      modifies this`workers
      ensures (Now(), taken) == CommitBind(old(Now()), key, path, reader)
    {
      if key !in workers || closing || workers[key].path != path {
        return false;
      }
      workers := workers[key := workers[key].(menu := Some(reader))];
      taken := true;
    }

    method DropWorker(key: ItemKey) returns (worker: Option<Worker>)
      modifies this`workers
      ensures (Now(), worker) == TakeWorker(old(Now()), key)
    {
      worker := if key in workers then Some(workers[key]) else None;
      workers := workers - {key};
    }

    /** stopWorkers: takes every worker out of the map, to be closed with the lock released. */
    method StopWorkers() returns (taken: map<ItemKey, Worker>)
      modifies this`workers
      ensures taken == old(workers) && Now() == Table(map[], closing)
    {
      taken := map[];
      while workers.Keys != {}
        invariant taken.Keys + workers.Keys == old(workers).Keys
        invariant forall k :: k in workers ==> workers[k] == old(workers)[k]
        invariant forall k :: k in taken ==> taken[k] == old(workers)[k]
        decreases workers.Keys
      {
        var key :| key in workers.Keys;
        taken := taken[key := workers[key]];
        workers := workers - {key};
      }
      assert taken.Keys == old(workers).Keys;
    }
  }

  // Every interleaving.

  /** Where a bind for a key stands between its lock sections. */
  datatype Bind =
    | Closing(previous: Option<nat>, path: Text)
    | Starting(path: Text)
    | Committing(reader: nat, path: Text)
    | Discarding(reader: nat)

  /** `dropped` holds workers taken out of the map and not yet closed; `used` every key ever added;
      `started` and `closed` are the history of menu readers. */
  datatype System = System(
    table: Table, binds: map<ItemKey, Bind>, dropped: map<ItemKey, Option<nat>>,
    used: set<ItemKey>, started: map<nat, ItemKey>, closed: set<nat>)

  datatype Step =
    | Register(key: ItemKey)
    | BindBegin(key: ItemKey, path: Text)
    | BindClose(key: ItemKey, connected: bool)
    | BindStart(key: ItemKey, reader: nat, ok: bool)
    | BindCommit(key: ItemKey)
    | BindDiscard(key: ItemKey)
    | DropTake(key: ItemKey)
    | DropClose(key: ItemKey)
    | Shutdown
    | StopTake

  const INITIAL := System(Table(map[], false), map[], map[], {}, map[], {})

  function Closed(y: System, reader: Option<nat>): System {
    if reader.None? then y else y.(closed := y.closed + {reader.value})
  }

  /** A step that is not enabled changes nothing. Binds are sequential per key, keys are added once
      and every reader started is a new one. */
  function Next(y: System, step: Step): System {
    match step
    case Register(key) =>
      if key in y.used || y.table.closing then y
      else y.(table := AddWorker(y.table, key), used := y.used + {key})
    case BindBegin(key, path) =>
      if key in y.binds then y
      else
        var (t, previous) := BeginBind(y.table, key, path);
        if previous.None? then y else y.(table := t, binds := y.binds[key := Closing(previous.value, path)])
    case BindClose(key, connected) =>
      if key !in y.binds || !y.binds[key].Closing? then y
      else
        var b := y.binds[key];
        var z := Closed(y, b.previous);
        if b.path == [] || !connected then z.(binds := z.binds - {key})
        else z.(binds := z.binds[key := Starting(b.path)])
    case BindStart(key, reader, ok) =>
      if key !in y.binds || !y.binds[key].Starting? || reader in y.started then y
      else if !ok then y.(binds := y.binds - {key})
      else y.(binds := y.binds[key := Committing(reader, y.binds[key].path)], started := y.started[reader := key])
    case BindCommit(key) =>
      if key !in y.binds || !y.binds[key].Committing? then y
      else
        var b := y.binds[key];
        var (t, taken) := CommitBind(y.table, key, b.path, b.reader);
        if taken then y.(table := t, binds := y.binds - {key}) else y.(binds := y.binds[key := Discarding(b.reader)])
    case BindDiscard(key) =>
      if key !in y.binds || !y.binds[key].Discarding? then y
      else Closed(y, Some(y.binds[key].reader)).(binds := y.binds - {key})
    case DropTake(key) =>
      var (t, w) := TakeWorker(y.table, key);
      if w.None? then y else y.(table := t, dropped := y.dropped[key := w.value.menu])
    case DropClose(key) =>
      if key !in y.dropped then y else Closed(y, y.dropped[key]).(dropped := y.dropped - {key})
    case Shutdown => y.(table := y.table.(closing := true))
    case StopTake =>
      y.(table := y.table.(workers := map[]),
         dropped := map k | k in y.dropped.Keys + y.table.workers.Keys ::
           if k in y.table.workers then y.table.workers[k].menu else y.dropped[k])
  }

  function Run(steps: seq<Step>): System {
    if steps == [] then INITIAL else Next(Run(steps[..|steps| - 1]), steps[|steps| - 1])
  }

  function BindHolds(b: Bind): Option<nat> {
    match b
    case Closing(previous, _) => previous
    case Starting(_) => None
    case Committing(reader, _) => Some(reader)
    case Discarding(reader) => Some(reader)
  }

  /** The one place that is responsible for a key's open reader. */
  function Holder(y: System, key: ItemKey): Option<nat> {
    if key in y.binds then BindHolds(y.binds[key])
    else if key in y.table.workers then y.table.workers[key].menu
    else if key in y.dropped then y.dropped[key]
    else None
  }

  predicate Open(y: System, key: ItemKey, reader: nat) {
    reader in y.started && y.started[reader] == key && reader !in y.closed
  }

  /** Every open reader is held in exactly one place, and that place holds nothing else. */
  ghost predicate KeyOk(y: System, key: ItemKey) {
    && (forall r: nat :: Open(y, key, r) <==> Holder(y, key) == Some(r))
    && (key in y.table.workers ==> key in y.used && key !in y.dropped)
    && (key in y.dropped ==> key in y.used)
    && (key in y.binds ==>
          && key in y.used
          && (key in y.table.workers ==> y.table.workers[key].menu.None?)
          && (key in y.dropped ==> y.dropped[key].None?))
  }

  ghost predicate SystemOk(y: System) {
    && y.closed <= y.started.Keys
    && (forall key :: KeyOk(y, key))
  }

  /** The key a step works on; the others keep everything that concerns them. */
  ghost predicate Untouched(y: System, z: System, key: ItemKey) {
    SameEntries(y, z, key) && forall r :: Open(y, key, r) <==> Open(z, key, r)
  }

  predicate SameEntries(y: System, z: System, key: ItemKey) {
    && (key in y.binds <==> key in z.binds) && (key in y.binds ==> y.binds[key] == z.binds[key])
    && (key in y.table.workers <==> key in z.table.workers)
    && (key in y.table.workers ==> y.table.workers[key] == z.table.workers[key])
    && (key in y.dropped <==> key in z.dropped) && (key in y.dropped ==> y.dropped[key] == z.dropped[key])
    && (key in y.used <==> key in z.used)
  }

  lemma UntouchedKeeps(y: System, z: System, key: ItemKey)
    requires KeyOk(y, key) && Untouched(y, z, key)
    ensures KeyOk(z, key)
  {
    hide Open;
    assert Holder(y, key) == Holder(z, key);
  }

  /** Whatever a step closes was started for the key it works on. */
  lemma HeldIsOwn(y: System, key: ItemKey, r: nat)
    requires SystemOk(y)
    ensures Holder(y, key) == Some(r) || (key in y.dropped && y.dropped[key] == Some(r)) ==>
              r in y.started && y.started[r] == key
  {
    assert KeyOk(y, key);
    assert Open(y, key, r) <==> Holder(y, key) == Some(r);
  }

  lemma OthersSameEntries(y: System, step: Step, key: ItemKey)
    requires !step.Shutdown? && !step.StopTake? && key != step.key
    ensures SameEntries(y, Next(y, step), key)
  {
  }

  lemma OthersSameOpen(y: System, step: Step, key: ItemKey, r: nat)
    requires SystemOk(y)
    requires !step.Shutdown? && !step.StopTake? && key != step.key
    ensures Open(y, key, r) <==> Open(Next(y, step), key, r)
  {
    hide SystemOk, KeyOk, BeginBind, CommitBind, AddWorker, TakeWorker;
    HeldIsOwn(y, step.key, r);
  }

  lemma OthersUntouched(y: System, step: Step, key: ItemKey)
    requires SystemOk(y)
    requires !step.Shutdown? && !step.StopTake? && key != step.key
    ensures Untouched(y, Next(y, step), key)
  {
    hide Next, Open, SystemOk, SameEntries;
    OthersSameEntries(y, step, key);
    forall r: nat ensures Open(y, key, r) <==> Open(Next(y, step), key, r) {
      OthersSameOpen(y, step, key, r);
    }
  }

  lemma OwnKeyKept(y: System, step: Step)
    requires SystemOk(y) && !step.Shutdown? && !step.StopTake?
    ensures KeyOk(Next(y, step), step.key)
  {
    assert KeyOk(y, step.key);
    var z, key := Next(y, step), step.key;
    if step.BindStart? && key in y.binds && y.binds[key].Starting? && step.reader !in y.started {
      assert forall r: nat :: Open(z, key, r) ==> Open(y, key, r) || r == step.reader;
    }
  }

  lemma StopKeeps(y: System, key: ItemKey)
    requires SystemOk(y)
    ensures KeyOk(Next(y, StopTake), key)
  {
    assert KeyOk(y, key);
    assert forall r: nat :: Open(y, key, r) <==> Open(Next(y, StopTake), key, r);
    assert Holder(y, key) == Holder(Next(y, StopTake), key);
  }

  lemma StepKeeps(y: System, step: Step)
    requires SystemOk(y)
    ensures SystemOk(Next(y, step))
  {
    hide KeyOk, Open, Untouched, Holder;
    forall key ensures KeyOk(Next(y, step), key) {
      hide Next;
      if step.Shutdown? {
        ShutdownKeeps(y, key);
      } else if step.StopTake? {
        StopKeeps(y, key);
      } else if key == step.key {
        OwnKeyKept(y, step);
      } else {
        OthersUntouched(y, step, key);
        UntouchedKeeps(y, Next(y, step), key);
      }
    }
    ClosedWasStarted(y, step);
  }

  lemma ShutdownKeeps(y: System, key: ItemKey)
    requires SystemOk(y)
    ensures KeyOk(Next(y, Shutdown), key)
  {
    assert KeyOk(y, key);
    assert Untouched(y, Next(y, Shutdown), key);
    UntouchedKeeps(y, Next(y, Shutdown), key);
  }

  lemma ClosedWasStarted(y: System, step: Step)
    requires SystemOk(y)
    ensures Next(y, step).closed <= Next(y, step).started.Keys
  {
    if step.BindClose? || step.BindDiscard? || step.DropClose? {
      assert KeyOk(y, step.key);
      if Holder(y, step.key).Some? {
        assert Open(y, step.key, Holder(y, step.key).value);
      }
    }
  }

  lemma {:induction false} RunOk(steps: seq<Step>)
    ensures SystemOk(Run(steps))
  {
    hide SystemOk, Next;
    if steps == [] {
      InitialOk();
    } else {
      RunOk(steps[..|steps| - 1]);
      StepKeeps(Run(steps[..|steps| - 1]), steps[|steps| - 1]);
    }
  }

  lemma InitialOk()
    ensures SystemOk(INITIAL)
  {
  }

  /** Under every interleaving a key has at most one open menu reader, and a reader that a live worker
      shows is open. */
  lemma OneReaderPerKey(steps: seq<Step>, key: ItemKey, r: nat, r': nat)
    ensures Open(Run(steps), key, r) && Open(Run(steps), key, r') ==> r == r'
    ensures key in Run(steps).table.workers && Run(steps).table.workers[key].menu == Some(r) ==>
              Open(Run(steps), key, r)
  {
    RunOk(steps);
    assert KeyOk(Run(steps), key);
  }

  /** No leak: once a worker is dropped and closed and its binds have returned, every menu reader ever
      started for it has been closed. */
  lemma DroppedWorkersLeakNothing(steps: seq<Step>, key: ItemKey, r: nat)
    requires var y := Run(steps);
             key !in y.table.workers && key !in y.binds && key !in y.dropped && r in y.started && y.started[r] == key
    ensures r in Run(steps).closed
  {
    RunOk(steps);
    assert KeyOk(Run(steps), key);
    assert Open(Run(steps), key, r) <==> Holder(Run(steps), key) == Some(r);
  }

  /** After shutdown has taken the workers no new one appears. */
  lemma {:induction false} ShutdownStaysEmpty(steps: seq<Step>, more: seq<Step>)
    requires Run(steps).table == Table(map[], true)
    ensures Run(steps + more).table == Table(map[], true)
    decreases |more|
  {
    if more == [] {
      assert steps + more == steps;
    } else {
      ShutdownStaysEmpty(steps, more[..|more| - 1]);
      assert (steps + more)[..|steps + more| - 1] == steps + more[..|more| - 1];
      EmptyStaysEmpty(Run(steps + more[..|more| - 1]), more[|more| - 1]);
    }
  }

  /** So whatever happens after shutdown has taken the workers, once the outstanding binds and closes are
      through every menu reader ever started has been closed. */
  lemma ShutdownLeaksNothing(steps: seq<Step>, more: seq<Step>)
    requires Run(steps).table == Table(map[], true)
    requires Run(steps + more).binds == map[] && Run(steps + more).dropped == map[]
    ensures Run(steps + more).closed == Run(steps + more).started.Keys
  {
    hide Run;
    ShutdownStaysEmpty(steps, more);
    RunOk(steps + more);
    var y := Run(steps + more);
    forall r | r in y.started ensures r in y.closed {
      DroppedWorkersLeakNothing(steps + more, y.started[r], r);
    }
  }

  /** Shutdown takes every worker, each with the reader it showed, to be closed. */
  lemma ShutdownTakesAll(steps: seq<Step>, key: ItemKey)
    ensures var y, z := Run(steps), Run(steps + [Shutdown, StopTake]);
            && z.table == Table(map[], true) && z.binds == y.binds
            && (key in y.table.workers ==> key in z.dropped && z.dropped[key] == y.table.workers[key].menu)
            && (key in y.dropped ==> key in z.dropped && z.dropped[key] == y.dropped[key])
  {
    hide Run;
    RunTwo(steps, Shutdown, StopTake);
    RunOk(steps);
    assert KeyOk(Run(steps), key);
  }

  lemma EmptyStaysEmpty(y: System, step: Step)
    requires y.table == Table(map[], true)
    ensures Next(y, step).table == Table(map[], true)
  {
  }

  // What the lock sections achieve.

  /** A commit installs the reader exactly when the key is live, the service is open and the worker still
      wants that path; otherwise, and for every other key, nothing changes. */
  lemma CommitInstalls(t: Table, key: ItemKey, path: Text, reader: nat)
    ensures var (t', taken) := CommitBind(t, key, path, reader);
            && (taken <==> key in t.workers && !t.closing && t.workers[key].path == path)
            && (taken ==> key in t'.workers && t'.workers[key] == Worker(Some(reader), path))
            && (!taken ==> t' == t)
            && t'.closing == t.closing
            && forall k :: k != key ==>
                 (k in t'.workers <==> k in t.workers) && (k in t.workers ==> t'.workers[k] == t.workers[k])
  {
  }

  /** A bind begins exactly when the key is live, the service is open and the path is a new one; it hands
      over the reader there was and leaves the worker wanting the path. A refresh with the same path
      disturbs nothing. */
  lemma BeginTakesOver(t: Table, key: ItemKey, path: Text)
    ensures var (t', previous) := BeginBind(t, key, path);
            && (previous.Some? <==> key in t.workers && !t.closing && t.workers[key].path != path)
            && (previous.Some? ==>
                  && previous.value == t.workers[key].menu
                  && key in t'.workers && t'.workers[key] == Worker(None, path))
            && (previous.None? ==> t' == t)
            && t'.closing == t.closing
            && forall k :: k != key ==>
                 (k in t'.workers <==> k in t.workers) && (k in t.workers ==> t'.workers[k] == t.workers[k])
  {
  }

  /** A key becomes live with no menu and no path exactly when the service is open. */
  lemma AddedIsLive(t: Table, key: ItemKey)
    ensures var t' := AddWorker(t, key);
            && t'.closing == t.closing
            && (!t.closing ==> t'.workers.Keys == t.workers.Keys + {key} && t'.workers[key] == Worker(None, []))
            && (t.closing ==> t' == t)
            && forall k :: k != key && k in t.workers ==> k in t'.workers && t'.workers[k] == t.workers[k]
  {
  }

  /** Dropping hands over the worker there was, and only that one. */
  lemma TakenIsGone(t: Table, key: ItemKey)
    ensures var (t', w) := TakeWorker(t, key);
            && t'.closing == t.closing && t'.workers.Keys == t.workers.Keys - {key}
            && (forall k :: k in t'.workers ==> t'.workers[k] == t.workers[k])
            && w == if key in t.workers then Some(t.workers[key]) else None
  {
  }

  // What a bind and a drop come to, whatever the other keys do meanwhile.

  /** Steps for other keys only. */
  predicate Elsewhere(steps: seq<Step>, key: ItemKey) {
    forall i :: 0 <= i < |steps| ==> !steps[i].Shutdown? && !steps[i].StopTake? && steps[i].key != key
  }

  lemma {:induction false} ElsewhereKeeps(steps: seq<Step>, quiet: seq<Step>, key: ItemKey)
    requires Elsewhere(quiet, key)
    ensures SameEntries(Run(steps), Run(steps + quiet), key)
    ensures Run(steps + quiet).table.closing == Run(steps).table.closing
    decreases |quiet|
  {
    hide Next, SameEntries;
    if quiet == [] {
      assert steps + quiet == steps;
      SameAsItself(Run(steps), key);
    } else {
      var front, last := quiet[..|quiet| - 1], quiet[|quiet| - 1];
      ElsewhereKeeps(steps, front, key);
      assert (steps + quiet)[..|steps + quiet| - 1] == steps + front;
      OthersSameEntries(Run(steps + front), last, key);
      StaysOpen(Run(steps + front), last);
      SameAcross(Run(steps), Run(steps + front), Run(steps + quiet), key);
    }
  }

  lemma SameAsItself(y: System, key: ItemKey)
    ensures SameEntries(y, y, key)
  {
  }

  lemma SameAcross(a: System, b: System, c: System, key: ItemKey)
    requires SameEntries(a, b, key) && SameEntries(b, c, key)
    ensures SameEntries(a, c, key)
  {
  }

  lemma StaysOpen(y: System, step: Step)
    requires !step.Shutdown?
    ensures Next(y, step).table.closing == y.table.closing
  {
  }

  /** One step of the key's own, after steps of other keys. */
  lemma OwnStep(steps: seq<Step>, quiet: seq<Step>, step: Step, key: ItemKey)
    requires Elsewhere(quiet, key)
    ensures Run(steps + quiet + [step]) == Next(Run(steps + quiet), step)
    ensures SameEntries(Run(steps), Run(steps + quiet), key)
    ensures Run(steps + quiet).table.closing == Run(steps).table.closing
  {
    hide Next, SameEntries;
    ElsewhereKeeps(steps, quiet, key);
    assert (steps + quiet + [step])[..|steps + quiet|] == steps + quiet;
  }

  /** A key that was never added becomes live, with no menu, exactly when the service is open. */
  lemma RegisteredIsLive(steps: seq<Step>, key: ItemKey)
    requires key !in Run(steps).used
    ensures var z := Run(steps + [Register(key)]);
            && (key in z.table.workers <==> !Run(steps).table.closing)
            && (key in z.table.workers ==> z.table.workers[key] == Worker(None, []))
            && key !in z.binds && key !in z.dropped
  {
    assert (steps + [Register(key)])[..|steps|] == steps;
    RunOk(steps);
    assert KeyOk(Run(steps), key);
  }

  /** A bind succeeds: when a live key with no bind under way wants a new, non-empty path, the item is
      connected and its reader starts, then whatever other keys do between the sections the worker ends
      up showing that reader, and the reader is open. */
  lemma BindInstalls(
    steps: seq<Step>, key: ItemKey, path: Text, r: nat, q1: seq<Step>, q2: seq<Step>, q3: seq<Step>)
    requires Elsewhere(q1, key) && Elsewhere(q2, key) && Elsewhere(q3, key) && path != []
    requires var y := Run(steps);
             key in y.table.workers && key !in y.binds && !y.table.closing && y.table.workers[key].path != path
    requires r !in Run(steps + [BindBegin(key, path)] + q1 + [BindClose(key, true)] + q2).started
    ensures var z := Run(steps + [BindBegin(key, path)] + q1 + [BindClose(key, true)] + q2
                         + [BindStart(key, r, true)] + q3 + [BindCommit(key)]);
            && key in z.table.workers && z.table.workers[key] == Worker(Some(r), path)
            && key !in z.binds && Open(z, key, r)
  {
    hide Run, Elsewhere, Next, SameEntries, Open;
    var s1 := steps + [BindBegin(key, path)];
    var s2 := s1 + q1 + [BindClose(key, true)];
    var s3 := s2 + q2 + [BindStart(key, r, true)];
    var s4 := s3 + q3 + [BindCommit(key)];
    NothingElsewhere(key);
    assert steps + [] == steps;
    OwnStep(steps, [], BindBegin(key, path), key);
    Begins(Run(steps), Run(steps), key, path);
    OwnStep(s1, q1, BindClose(key, true), key);
    ClosesOn(Run(s1), Run(s1 + q1), key, path);
    OwnStep(s2, q2, BindStart(key, r, true), key);
    Starts(Run(s2), Run(s2 + q2), key, path, r);
    OwnStep(s3, q3, BindCommit(key), key);
    Commits(Run(s3), Run(s3 + q3), key, path, r);
    OneReaderPerKey(s4, key, r, r);
  }

  /** A menu that goes away: when the item no longer names a path, the reader there was is closed and the
      worker shows none. */
  lemma EmptyPathUnbinds(steps: seq<Step>, key: ItemKey, connected: bool, q1: seq<Step>, r: nat)
    requires Elsewhere(q1, key)
    requires var y := Run(steps);
             key in y.table.workers && key !in y.binds && !y.table.closing && y.table.workers[key].path != []
    ensures var z := Run(steps + [BindBegin(key, [])] + q1 + [BindClose(key, connected)]);
            && key in z.table.workers && z.table.workers[key] == Worker(None, []) && key !in z.binds
            && !Open(z, key, r)
  {
    hide Run, Elsewhere, Next, SameEntries, Open, KeyOk;
    var s1 := steps + [BindBegin(key, [])];
    var s2 := s1 + q1 + [BindClose(key, connected)];
    NothingElsewhere(key);
    assert steps + [] == steps;
    OwnStep(steps, [], BindBegin(key, []), key);
    Begins(Run(steps), Run(steps), key, []);
    OwnStep(s1, q1, BindClose(key, connected), key);
    ClosesOff(Run(s1), Run(s1 + q1), key, connected);
    RunOk(s2);
    NothingHeldOpen(Run(s2), key, r);
  }

  lemma ClosesOff(y: System, z: System, key: ItemKey, connected: bool)
    requires SameEntries(y, z, key) && z.table.closing == y.table.closing
    requires key in y.table.workers && y.table.workers[key] == Worker(None, [])
    requires key in y.binds && y.binds[key].Closing? && y.binds[key].path == []
    ensures var x := Next(z, BindClose(key, connected));
            key in x.table.workers && x.table.workers[key] == Worker(None, []) && key !in x.binds
  {
  }

  lemma NothingHeldOpen(y: System, key: ItemKey, r: nat)
    requires SystemOk(y) && key in y.table.workers && y.table.workers[key].menu.None? && key !in y.binds
    ensures !Open(y, key, r)
  {
    assert KeyOk(y, key);
  }

  lemma NothingElsewhere(key: ItemKey)
    ensures Elsewhere([], key)
  {
  }

  /** The key's entry while a bind is between two of its sections. */
  predicate Binding(y: System, key: ItemKey, path: Text, b: Bind) {
    && key in y.table.workers && y.table.workers[key] == Worker(None, path) && !y.table.closing
    && key in y.binds && y.binds[key] == b
  }

  lemma Begins(y: System, z: System, key: ItemKey, path: Text)
    requires SameEntries(y, z, key) && z.table.closing == y.table.closing
    requires key in y.table.workers && key !in y.binds && !y.table.closing && y.table.workers[key].path != path
    ensures Binding(Next(z, BindBegin(key, path)), key, path, Closing(y.table.workers[key].menu, path))
  {
  }

  lemma ClosesOn(y: System, z: System, key: ItemKey, path: Text)
    requires SameEntries(y, z, key) && z.table.closing == y.table.closing && path != []
    requires key in y.binds && y.binds[key].Closing? && y.binds[key].path == path && Binding(y, key, path, y.binds[key])
    ensures Binding(Next(z, BindClose(key, true)), key, path, Starting(path))
  {
  }

  lemma Starts(y: System, z: System, key: ItemKey, path: Text, r: nat)
    requires SameEntries(y, z, key) && z.table.closing == y.table.closing && r !in z.started
    requires Binding(y, key, path, Starting(path))
    ensures Binding(Next(z, BindStart(key, r, true)), key, path, Committing(r, path))
  {
  }

  lemma Commits(y: System, z: System, key: ItemKey, path: Text, r: nat)
    requires SameEntries(y, z, key) && z.table.closing == y.table.closing
    requires Binding(y, key, path, Committing(r, path))
    ensures var x := Next(z, BindCommit(key));
            key in x.table.workers && x.table.workers[key] == Worker(Some(r), path) && key !in x.binds
  {
  }

  /** A drop completes: from any reachable state, dropping a key and letting its worker and whatever bind
      is under way run out leaves every menu reader ever started for it closed. */
  lemma DropCloses(steps: seq<Step>, key: ItemKey, unused: nat, r: nat)
    requires unused !in Run(steps).started
    ensures var z := Run(steps + [DropTake(key), DropClose(key), BindClose(key, false),
                                  BindStart(key, unused, false), BindCommit(key), BindDiscard(key)]);
            && key !in z.table.workers && key !in z.binds && key !in z.dropped
            && (r in z.started && z.started[r] == key ==> r in z.closed)
  {
    hide Run, Next;
    var finish := [DropTake(key), DropClose(key), BindClose(key, false),
                   BindStart(key, unused, false), BindCommit(key), BindDiscard(key)];
    var y := Run(steps);
    var a := Next(y, DropTake(key));
    var b := Next(a, DropClose(key));
    var c := Next(b, BindClose(key, false));
    var d := Next(c, BindStart(key, unused, false));
    var e := Next(d, BindCommit(key));
    RunTwo(steps, finish[0], finish[1]);
    RunTwo(steps + finish[..2], finish[2], finish[3]);
    RunTwo(steps + finish[..4], finish[4], finish[5]);
    assert steps + finish[..2] == steps + [finish[0], finish[1]];
    assert steps + finish[..4] == steps + finish[..2] + [finish[2], finish[3]];
    assert steps + finish == steps + finish[..4] + [finish[4], finish[5]];
    RunsOut(y, key, unused);
    var all := steps + finish;
    if r in Run(all).started && Run(all).started[r] == key {
      DroppedWorkersLeakNothing(all, key, r);
    }
  }

  lemma RunTwo(steps: seq<Step>, a: Step, b: Step)
    ensures Run(steps + [a, b]) == Next(Next(Run(steps), a), b)
  {
    hide Next;
    assert (steps + [a, b])[..|steps| + 1] == steps + [a];
    assert (steps + [a])[..|steps|] == steps;
  }

  lemma RunsOut(y: System, key: ItemKey, unused: nat)
    requires unused !in y.started
    ensures var c := Next(Next(Next(y, DropTake(key)), DropClose(key)), BindClose(key, false));
            var z := Next(Next(Next(c, BindStart(key, unused, false)), BindCommit(key)), BindDiscard(key));
            key !in z.table.workers && key !in z.binds && key !in z.dropped
  {
    hide Next;
    var b := Next(Next(y, DropTake(key)), DropClose(key));
    DropRunsOut(y, key);
    var c := Next(b, BindClose(key, false));
    CloseRunsOut(b, key);
    StartRunsOut(c, key, unused);
    CommitRunsOut(Next(c, BindStart(key, unused, false)), key);
  }

  predicate Dropped(y: System, key: ItemKey) {
    key !in y.table.workers && key !in y.dropped
  }

  lemma DropRunsOut(y: System, key: ItemKey)
    ensures var b := Next(Next(y, DropTake(key)), DropClose(key));
            Dropped(b, key) && b.started == y.started
  {
  }

  lemma CloseRunsOut(y: System, key: ItemKey)
    requires Dropped(y, key)
    ensures var z := Next(y, BindClose(key, false));
            Dropped(z, key) && z.started == y.started && (key in z.binds ==> !z.binds[key].Closing?)
  {
  }

  lemma StartRunsOut(y: System, key: ItemKey, unused: nat)
    requires Dropped(y, key) && unused !in y.started && (key in y.binds ==> !y.binds[key].Closing?)
    ensures var z := Next(y, BindStart(key, unused, false));
            Dropped(z, key) && (key in z.binds ==> z.binds[key].Committing? || z.binds[key].Discarding?)
  {
  }

  lemma CommitRunsOut(y: System, key: ItemKey)
    requires Dropped(y, key) && (key in y.binds ==> y.binds[key].Committing? || y.binds[key].Discarding?)
    ensures var z := Next(Next(y, BindCommit(key)), BindDiscard(key));
            Dropped(z, key) && key !in z.binds
  {
  }
}
