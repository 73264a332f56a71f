/** The promises of the replication protocol, for every run of the system. */
module Mirroring {
  import opened Wrappers
  import opened Protocol
  import opened MenuTree
  import opened Messages
  import opened Records
  import opened Generations
  import opened Snapshots
  import opened Presenter
  import opened Sessions
  import opened Replication

  // What the history means.

  ghost function Folded(log: seq<Delta>): View {
    if log == [] then EMPTY_VIEW else After(Folded(log[..|log| - 1]), log[|log| - 1])
  }

  lemma {:induction false} FoldedIsView(y: System, k: nat)
    requires HistoryOk(y) && k <= |y.log|
    ensures Folded(y.log[..k]) == y.views[k]
  {
    hide ViewOf, TableOk, OneGeneration, Legal;
    if k == 0 {
      assert y.log[..0] == [];
    } else {
      FoldedIsView(y, k - 1);
      assert y.log[..k][..k - 1] == y.log[..k - 1];
      assert y.views[k - 1 + 1] == After(y.views[k - 1], y.log[k - 1]);
    }
  }

  /** The published change log is legal for a client that only applies it: nothing is added twice,
      changed without difference or addressed once gone, and no two generations of one address are
      ever live together. What the log adds up to is what the owner publishes. */
  lemma DeltaLogIsLegal(steps: seq<Step>, k: nat)
    requires k <= |Run(steps).log|
    ensures var log := Run(steps).log;
            && (k < |log| ==> Legal(Folded(log[..k]), log[k]))
            && OneGeneration(Folded(log[..k]))
            && Folded(log) == ViewOf(Run(steps).table)
  {
    hide Run, ViewOf, Legal, OneGeneration, Folded, TableOk;
    HistoryRun(steps);
    var y := Run(steps);
    FoldedIsView(y, k);
    FoldedIsView(y, |y.log|);
    assert y.log[..|y.log|] == y.log;
  }

  lemma HistoryExtends(y: System, step: Step)
    requires |y.views| == |y.log| + 1
    ensures y.views <= Next(y, step).views && y.log <= Next(y, step).log
    ensures |Next(y, step).views| == |Next(y, step).log| + 1
  {
    hide Apply, Send, Sessions.Begin, Act, ViewOf, Snapshot;
  }

  lemma {:induction false} HistoryOfPrefix(steps: seq<Step>, n: nat)
    requires n <= |steps|
    ensures Run(steps[..n]).views <= Run(steps).views && Run(steps[..n]).log <= Run(steps).log
    ensures |Run(steps).views| == |Run(steps).log| + 1
    decreases |steps|
  {
    hide Next;
    if steps == [] {
      assert steps[..n] == steps;
    } else {
      var front, last := steps[..|steps| - 1], steps[|steps| - 1];
      HistoryOfPrefix(front, if n < |steps| then n else 0);
      HistoryExtends(Run(front), last);
      if n < |steps| {
        assert front[..n] == steps[..n];
      } else {
        assert steps[..n] == steps;
      }
    }
  }

  /** `views[k]` really is the published state at the time the k-th change had just been published:
      whenever the owner had published k changes, its table showed exactly that view. */
  lemma HistoryIsFaithful(steps: seq<Step>, n: nat)
    requires n <= |steps|
    ensures var then_ := Run(steps[..n]);
            |then_.log| < |Run(steps).views| && Run(steps).views[|then_.log|] == ViewOf(then_.table)
  {
    hide Run, ViewOf;
    HistoryOfPrefix(steps, n);
    HistoryRun(steps[..n]);
    HistoryEnds(Run(steps[..n]));
  }

  /** In every reachable state each live address is ordered exactly once, keys sit at their address, at
      most 128 are live and only valid items and menus are published; and the snapshot lists exactly
      the published items by generation, valid precisely when their pixmaps fit the aggregate. */
  lemma ReachableSnapshotsAreFaithful(steps: seq<Step>, g: int)
    ensures var t := Run(steps).table;
            var items := Snapshot(t);
            && TableOk(t)
            && Sorted(items) && Lists(items, ViewOf(t)) && ByKey(items) == ViewOf(t).items
            && OfGeneration(items, g) == OfGeneration(Listed(t.items, t.order), g)
            && (SnapshotOk(items) <==> SnapshotBytes(items) <= MAX_PIXMAP_BYTES_AGGREGATE)
  {
    hide Run, TableOk, Sorted, Lists, ViewOf, SnapshotOk;
    HistoryRun(steps);
    HistoryEnds(Run(steps));
    SnapshotMirrors(Run(steps).table, g);
  }

  // What the wire says.

  /** Every wire is a prefix of hello, a snapshot at n, then changes n+1, n+2, … with no gap or repeat;
      replies come only after the snapshot. */
  ghost predicate WireScripted(wire: seq<Frame>, base: nat, items: seq<Item>, log: seq<Delta>) {
    && (|wire| > 0 ==> wire[0] == HelloFrame)
    && (|wire| > 1 ==> wire[1] == SnapshotFrame(base, items))
    && (forall i :: 2 <= i < |wire| ==> wire[i].StateFrame? || wire[i].ReplyFrame?)
    && Numbered(States(wire), base, log)
  }

  lemma WireFollowsScript(steps: seq<Step>, id: nat)
    requires |Run(steps).log| <= U64_MAX && id in Run(steps).sessions
    ensures var y := Run(steps);
            var s := y.sessions[id];
            if s.phase.Running? then
              && s.phase.base < |y.views|
              && WireScripted(s.wire, s.phase.base, s.phase.items, y.log)
              && ByKey(s.phase.items) == y.views[s.phase.base].items
            else s.wire == []
  {
    hide Run, HistoryOk, Stream, Accounted;
    RunOk(steps);
    var y := Run(steps);
    var s := y.sessions[id];
    assert SessionOk(s, y.log, y.sink == Some(id)) && Based(s, y.views);
    if s.phase.Running? {
      WireOfScript(s, y.log);
    }
  }

  lemma WireOfScript(s: Session, log: seq<Delta>)
    requires s.phase.Running? && Scripted(Stream(s), s.phase.base, s.phase.items, log)
    ensures WireScripted(s.wire, s.phase.base, s.phase.items, log)
    ensures s.wire <= Stream(s)
  {
    WireIsPrefix(s);
    hide Stream;
    assert s.wire == Stream(s)[..|s.wire|];
    FiltersOfPrefix(Stream(s), |s.wire|);
  }

  /** Requests are dispatched under strictly rising, non-zero IDs, and the replies on the wire are a
      prefix of the dispatched requests, in order. */
  lemma RepliesFollowRequests(steps: seq<Step>, id: nat)
    requires |Run(steps).log| <= U64_MAX && id in Run(steps).sessions
    ensures var s := Run(steps).sessions[id];
            && Replies(s.wire) <= s.dispatched
            && (forall i :: 0 <= i < |s.dispatched| ==> s.dispatched[i] > 0)
            && (forall i, j :: 0 <= i < j < |s.dispatched| ==> s.dispatched[i] < s.dispatched[j])
  {
    hide Run, HistoryOk, Stream, Accounted, Scripted;
    RunOk(steps);
    var y := Run(steps);
    var s := y.sessions[id];
    assert SessionOk(s, y.log, y.sink == Some(id));
    if s.phase.Running? {
      WireIsPrefix(s);
      assert s.wire == Stream(s)[..|s.wire|];
      FiltersOfPrefix(Stream(s), |s.wire|);
    }
  }

  /** Reservations account for every message that is pending, queued or with the writer, within both
      bounds, so a send on the channel always finds room: the default branches and the blocking send
      of the handshake are never reached. And what the owner offers the live session always follows
      in sequence, before and after the start; nothing pending falls under the baseline. */
  lemma QueuesNeverOverrun(
    steps: seq<Step>, id: nat, m: Outbound, d: Delta, size: nat, helloSize: nat, snapshotSize: nat)
    requires |Run(steps).log| < U64_MAX && id in Run(steps).sessions
    requires Run(steps).sessions[id].phase.Attached? || Run(steps).sessions[id].phase.Running?
    ensures var y := Run(steps);
            var s := y.sessions[id];
            var next := Outbound(StateFrame(|y.log| + 1, d), size, |y.log| + 1);
            && Accounted(s.conn, Held(s.writer))
            && Send(s.conn, m).1 != Full && Reply(s.conn, m).1 != Full
            && (y.sink == Some(id) ==> Send(s.conn, next).1 in {Taken, Closed, Overflow})
            && (s.phase.Attached? ==>
                  var prologue := Prologue(s, helloSize, snapshotSize);
                  var (r, outcome) := Start(s.conn, s.phase.base, prologue);
                  && outcome in {Taken, Closed, Overflow}
                  && (forall i :: 0 <= i < |s.conn.pending| ==> s.conn.pending[i].sequence > s.phase.base)
                  && (outcome == Taken ==> r.queue == prologue + s.conn.pending))
  {
    hide Run, HistoryOk, Stream, Scripted, Start, Send, Reply;
    RunOk(steps);
    var y := Run(steps);
    var s := y.sessions[id];
    assert SessionOk(s, y.log, y.sink == Some(id));
    ReservationMeansRoom(s.conn, Held(s.writer), m);
    if y.sink == Some(id) {
      LiveSend(s, y.log, d, size);
    }
    if s.phase.Attached? {
      StartFlushes(s.conn, s.phase.base, Prologue(s, helloSize, snapshotSize));
    }
  }

  // What the client holds.

  /** The keys whose menu was updated after the baseline and that were not removed since. */
  ghost function Touched(log: seq<Delta>, base: nat, k: nat): set<ItemKey>
    requires base <= k <= |log|
  {
    if k == base then {}
    else
      match log[k - 1]
      case MenuUpdated(key, _) => Touched(log, base, k - 1) + {key}
      case ItemRemoved(key) => Touched(log, base, k - 1) - {key}
      case _ => Touched(log, base, k - 1)
  }

  ghost predicate UpdatedLast(log: seq<Delta>, base: nat, k: nat, key: ItemKey, j: nat)
    requires k <= |log|
  {
    && base <= j < k && log[j].MenuUpdated? && log[j].key == key
    && forall i :: j < i < k ==> log[i] != ItemRemoved(key)
  }

  lemma {:induction false} TouchedMeans(log: seq<Delta>, base: nat, k: nat, key: ItemKey)
    requires base <= k <= |log|
    ensures key in Touched(log, base, k) <==> exists j: nat :: UpdatedLast(log, base, k, key, j)
  {
    if k == base {
    } else {
      TouchedMeans(log, base, k - 1, key);
      if key in Touched(log, base, k - 1) && log[k - 1] != ItemRemoved(key) {
        var j: nat :| UpdatedLast(log, base, k - 1, key, j);
        assert UpdatedLast(log, base, k, key, j);
      }
      if log[k - 1].MenuUpdated? && log[k - 1].key == key {
        assert UpdatedLast(log, base, k, key, k - 1);
      }
      forall j: nat | UpdatedLast(log, base, k, key, j) ensures key in Touched(log, base, k) {
        if j < k - 1 {
          assert UpdatedLast(log, base, k - 1, key, j);
        }
      }
    }
  }

  /** The client holds the owner's items as of the last state sequence number it read, and exactly the
      menus updated since its baseline for keys still live, in their latest version. */
  ghost predicate Mirrors(c: Client, log: seq<Delta>, views: seq<View>, base: nat) {
    && base <= c.sequence <= |log| < |views|
    && c.view.items == views[c.sequence].items
    && c.view.menus.Keys == Touched(log, base, c.sequence)
    && (forall k :: k in c.view.menus ==>
          k in c.view.items && k in views[c.sequence].menus && c.view.menus[k] == views[c.sequence].menus[k])
  }

  /** The part of the menus that a client can know. */
  ghost function Restrict(menus: map<ItemKey, Menu>, keys: set<ItemKey>): map<ItemKey, Menu> {
    map k | k in menus && k in keys :: menus[k]
  }

  ghost function MenusSince(y: System, id: nat, sequence: nat): set<ItemKey> {
    if id in y.sessions && y.sessions[id].phase.Running? && y.sessions[id].phase.base <= sequence <= |y.log|
    then Touched(y.log, y.sessions[id].phase.base, sequence) else {}
  }

  lemma MirrorStep(c: Client, y: System, base: nat)
    requires HistoryOk(y) && Mirrors(c, y.log, y.views, base) && c.sequence < |y.log|
    ensures Mirrors(Applied(c, StateFrame(c.sequence + 1, y.log[c.sequence])), y.log, y.views, base)
  {
    hide TableOk, ViewOf, OneGeneration;
    var k := c.sequence;
    assert Legal(y.views[k], y.log[k]) && y.views[k + 1] == After(y.views[k], y.log[k]);
  }

  lemma {:induction false} ReplayMirrors(stream: seq<Frame>, y: System, base: nat, items: seq<Item>, n: nat)
    requires HistoryOk(y) && Scripted(stream, base, items, y.log) && 2 <= n <= |stream|
    requires ByKey(items) == y.views[base].items
    ensures Mirrors(Replay(stream[..n]), y.log, y.views, base)
    ensures Replay(stream[..n]).sequence == base + |States(stream[..n])|
  {
    hide HistoryOk, ByKey, Mirrors;
    if n == 2 {
      HandshakeMirrors(stream, y, base, items);
    } else {
      ReplayMirrors(stream, y, base, items, n - 1);
      var front, f := stream[..n - 1], stream[n - 1];
      assert stream[..n] == front + [f];
      assert stream[..n][..n - 1] == front;
      FiltersSnoc(front, f);
      FiltersOfPrefix(stream, n);
      if f.StateFrame? {
        assert f == States(stream[..n])[|States(front)|] == States(stream)[|States(front)|];
        MirrorStep(Replay(front), y, base);
      }
    }
  }

  lemma HandshakeMirrors(stream: seq<Frame>, y: System, base: nat, items: seq<Item>)
    requires HistoryOk(y) && Scripted(stream, base, items, y.log)
    requires ByKey(items) == y.views[base].items
    ensures Mirrors(Replay(stream[..2]), y.log, y.views, base)
    ensures Replay(stream[..2]).sequence == base && States(stream[..2]) == []
  {
    hide HistoryOk, ByKey;
    assert |y.views| == |y.log| + 1 by { HistoryEnds(y); }
    assert stream[..2] == [HelloFrame, SnapshotFrame(base, items)] + [];
    FiltersOfHandshake(base, items, []);
    assert stream[..2][..1] == [HelloFrame] && [HelloFrame][..0] == [];
    assert stream[..2][1] == SnapshotFrame(base, items);
  }

  /** Replication end to end. In every run, whatever prefix of its wire a presenter has read, applying
      it to an empty client gives exactly the owner's published items as of the last state sequence
      number read, and exactly the menus updated since its baseline for the keys still live. */
  lemma ClientMirrorsOwner(steps: seq<Step>, id: nat, n: nat)
    requires |Run(steps).log| <= U64_MAX && id in Run(steps).sessions && n <= |Run(steps).sessions[id].wire|
    ensures var y := Run(steps);
            var s := y.sessions[id];
            if n < 2 then Replay(s.wire[..n]) == NEW_CLIENT
            else s.phase.Running? && Mirrors(Replay(s.wire[..n]), y.log, y.views, s.phase.base)
  {
    hide Run, HistoryOk, Stream, Accounted, Mirrors;
    RunOk(steps);
    var y := Run(steps);
    var s := y.sessions[id];
    assert SessionOk(s, y.log, y.sink == Some(id)) && Based(s, y.views);
    if n == 1 {
      WireOfScript(s, y.log);
      assert s.wire[..1][..0] == [];
    } else if n >= 2 {
      WireOfScript(s, y.log);
      assert s.wire[..n] == Stream(s)[..n];
      ReplayMirrors(Stream(s), y, s.phase.base, s.phase.items, n);
    }
  }

  /** Convergence: once everything queued for the owner's live presenter is on its wire, the presenter
      that has read it holds what the owner publishes now, with every menu updated since its baseline. */
  lemma DrainedClientIsCurrent(steps: seq<Step>, id: nat)
    requires |Run(steps).log| <= U64_MAX && id in Run(steps).sessions
    requires var y := Run(steps);
             var s := y.sessions[id];
             y.sink == Some(id) && s.phase.Running? && s.conn.queue == [] && Unwritten(s.writer) == []
    ensures var y := Run(steps);
            var s := y.sessions[id];
            var c := Replay(s.wire);
            && c.sequence == y.sequence
            && c.view.items == ViewOf(y.table).items
            && c.view.menus.Keys == MenusSince(y, id, |y.log|)
            && c.view.menus == Restrict(ViewOf(y.table).menus, c.view.menus.Keys)
  {
    hide Run, HistoryOk, ViewOf, Accounted, ByKey, States;
    RunOk(steps);
    var y := Run(steps);
    var s := y.sessions[id];
    assert SessionOk(s, y.log, true) && Based(s, y.views);
    assert Stream(s) == s.wire && s.wire[..|s.wire|] == s.wire;
    HistoryEnds(y);
    ReplayMirrors(s.wire, y, s.phase.base, s.phase.items, |s.wire|);
  }

  ghost predicate Concerns(d: Delta, key: ItemKey) {
    d == ItemRemoved(key) || (d.MenuUpdated? && d.key == key)
  }

  /** A menu shows from the change that brought it until the next change of that menu or key. */
  lemma {:induction false} MenuStays(y: System, k: nat, n: nat, key: ItemKey, menu: Menu)
    requires HistoryOk(y) && k < n <= |y.log| && y.log[k] == MenuUpdated(key, menu)
    requires forall i :: k < i < n ==> !Concerns(y.log[i], key)
    ensures key in y.views[n].menus && y.views[n].menus[key] == menu
  {
    hide TableOk, ViewOf, OneGeneration, Legal;
    assert y.views[n - 1 + 1] == After(y.views[n - 1], y.log[n - 1]);
    if n == k + 1 {
    } else {
      MenuStays(y, k, n - 1, key, menu);
    }
  }

  /** A published menu reaches every presenter that was attached before: once it has read that change,
      and until a later one about that menu or key, it holds exactly that menu. */
  lemma MenuReachesClient(steps: seq<Step>, id: nat, n: nat, k: nat, key: ItemKey, menu: Menu)
    requires |Run(steps).log| <= U64_MAX && id in Run(steps).sessions
    requires 2 <= n <= |Run(steps).sessions[id].wire|
    requires k < |Run(steps).log| && Run(steps).log[k] == MenuUpdated(key, menu)
    requires var s := Run(steps).sessions[id];
             s.phase.Running? && s.phase.base <= k < Replay(s.wire[..n]).sequence
    requires forall i :: k < i < Replay(Run(steps).sessions[id].wire[..n]).sequence && i < |Run(steps).log| ==>
               !Concerns(Run(steps).log[i], key)
    ensures var c := Replay(Run(steps).sessions[id].wire[..n]);
            key in c.view.menus && c.view.menus[key] == menu
  {
    hide Run, HistoryOk, Replay;
    ClientMirrorsOwner(steps, id, n);
    HistoryRun(steps);
    var y := Run(steps);
    var c := Replay(y.sessions[id].wire[..n]);
    var base := y.sessions[id].phase.base;
    MenuStays(y, k, c.sequence, key, menu);
    TouchedMeans(y.log, base, c.sequence, key);
    assert UpdatedLast(y.log, base, c.sequence, key, k);
  }

  ghost predicate ConcernsItem(d: Delta, key: ItemKey) {
    match d
    case ItemAdded(item) => item.key == key
    case ItemChanged(item) => item.key == key
    case ItemRemoved(k) => k == key
    case MenuUpdated(_, _) => false
  }

  /** What is shown of a key changes only with a change about it. */
  lemma {:induction false} ItemStays(y: System, k: nat, n: nat, key: ItemKey)
    requires HistoryOk(y) && k <= n <= |y.log|
    requires forall i :: k <= i < n ==> !ConcernsItem(y.log[i], key)
    ensures key in y.views[n].items <==> key in y.views[k].items
    ensures key in y.views[n].items ==> y.views[n].items[key] == y.views[k].items[key]
  {
    hide TableOk, ViewOf, OneGeneration, Legal;
    if n == k {
    } else {
      assert y.views[n - 1 + 1] == After(y.views[n - 1], y.log[n - 1]);
      ItemStays(y, k, n - 1, key);
    }
  }

  /** A published item reaches every presenter: whoever has read up to that point, by snapshot or by
      changes, holds exactly that item until it reads a later change about it. */
  lemma ItemReachesClient(steps: seq<Step>, id: nat, n: nat, k: nat, key: ItemKey, item: Item)
    requires |Run(steps).log| <= U64_MAX && id in Run(steps).sessions
    requires 2 <= n <= |Run(steps).sessions[id].wire|
    requires k < |Run(steps).views| && key in Run(steps).views[k].items && Run(steps).views[k].items[key] == item
    requires k <= Replay(Run(steps).sessions[id].wire[..n]).sequence
    requires forall i :: k <= i < Replay(Run(steps).sessions[id].wire[..n]).sequence && i < |Run(steps).log| ==>
               !ConcernsItem(Run(steps).log[i], key)
    ensures var c := Replay(Run(steps).sessions[id].wire[..n]);
            key in c.view.items && c.view.items[key] == item
  {
    hide Run, HistoryOk, Replay, ConcernsItem;
    ClientMirrorsOwner(steps, id, n);
    HistoryRun(steps);
    ItemStays(Run(steps), k, Replay(Run(steps).sessions[id].wire[..n]).sequence, key);
  }

  // A retired generation does not come back.

  /** If each generation is announced to the owner once, it publishes each key's addition at most
      once and never after its removal; if in rising order, the generations added at one address rise. */
  lemma PublishedKeysLiveOnce(steps: seq<Step>)
    requires OnceEach(Adds(Commands(steps)))
    ensures LivesOnce(Run(steps).log)
    ensures Ascending(Adds(Commands(steps))) ==> GenerationsRise(Run(steps).log)
  {
    hide Run, Played, Commands, Adds, OnceEach, Ascending, LivesOnce, GenerationsRise, AllRemembered, Ahead;
    RunPlays(steps);
    KeysLiveOnce(Commands(steps));
    if Ascending(Adds(Commands(steps))) {
      PublishedGenerationsRise(Commands(steps));
    }
  }

  /** A key comes into the published state by its addition and leaves it by its removal. */
  lemma {:induction false} ComesByAddition(y: System, a: nat, b: nat, key: ItemKey) returns (i: nat)
    requires HistoryOk(y) && a <= b <= |y.log| && key !in y.views[a].items && key in y.views[b].items
    ensures a <= i < b && y.log[i].ItemAdded? && y.log[i].item.key == key
  {
    hide TableOk, ViewOf, OneGeneration;
    i := b - 1;
    assert Legal(y.views[i], y.log[i]) && y.views[i + 1] == After(y.views[i], y.log[i]);
    if key in y.views[b - 1].items {
      i := ComesByAddition(y, a, b - 1, key);
    }
  }

  lemma {:induction false} GoesByRemoval(y: System, a: nat, b: nat, key: ItemKey) returns (i: nat)
    requires HistoryOk(y) && a <= b <= |y.log| && key in y.views[a].items && key !in y.views[b].items
    ensures a <= i < b && y.log[i] == ItemRemoved(key)
  {
    hide TableOk, ViewOf, OneGeneration, Legal;
    i := b - 1;
    assert y.views[i + 1] == After(y.views[i], y.log[i]);
    if key !in y.views[b - 1].items {
      i := GoesByRemoval(y, a, b - 1, key);
    }
  }

  /** A presenter, and how many frames of its wire it has read. */
  datatype Glimpse = Glimpse(id: nat, frames: nat)

  ghost predicate Legible(y: System, r: Glimpse) {
    r.id in y.sessions && 2 <= r.frames <= |y.sessions[r.id].wire|
  }

  ghost function Read(y: System, r: Glimpse): Client
    requires Legible(y, r)
  {
    Replay(y.sessions[r.id].wire[..r.frames])
  }

  /** No presenter ever sees a retired generation come back: of three moments in the order of their
      sequence numbers, over one connection or several, if the first shows a key and the second does
      not, neither does the third. */
  lemma RetiredIsNeverShownAgain(steps: seq<Step>, first: Glimpse, second: Glimpse, third: Glimpse, key: ItemKey)
    requires |Run(steps).log| <= U64_MAX && OnceEach(Adds(Commands(steps)))
    requires var y := Run(steps);
             && Legible(y, first) && Legible(y, second) && Legible(y, third)
             && Read(y, first).sequence <= Read(y, second).sequence <= Read(y, third).sequence
             && key in Read(y, first).view.items && key !in Read(y, second).view.items
    ensures key !in Read(Run(steps), third).view.items
  {
    hide Run, Replay, HistoryOk, Commands, Adds, OnceEach;
    var y := Run(steps);
    ClientMirrorsOwner(steps, first.id, first.frames);
    ClientMirrorsOwner(steps, second.id, second.frames);
    ClientMirrorsOwner(steps, third.id, third.frames);
    HistoryRun(steps);
    PublishedKeysLiveOnce(steps);
    if key in Read(y, third).view.items {
      var i := GoesByRemoval(y, Read(y, first).sequence, Read(y, second).sequence, key);
      var j := ComesByAddition(y, Read(y, second).sequence, Read(y, third).sequence, key);
    }
  }

  lemma StepPublishesAtMostOne(y: System, step: Step)
    ensures |y.log| <= |Next(y, step).log| <= |y.log| + 1
  {
    hide Apply, Send, Sessions.Begin, Act, ViewOf, Snapshot;
  }

  /** Every number of published changes was reached at some moment of the run. */
  lemma {:induction false} MomentOf(steps: seq<Step>, k: nat) returns (n: nat)
    requires k <= |Run(steps).log|
    ensures n <= |steps| && |Run(steps[..n]).log| == k
    decreases |steps|
  {
    hide Next;
    n := |steps|;
    assert steps[..n] == steps;
    if k < |Run(steps).log| {
      var front := steps[..n - 1];
      StepPublishesAtMostOne(Run(front), steps[n - 1]);
      n := MomentOf(front, k);
      assert front[..n] == steps[..n];
    }
  }

  /** The same as one moment of the run: what a client holds is what the owner's table showed when it had
      published as many changes as the client has seen, menus narrowed to those updated since the
      client's baseline. */
  lemma ClientHoldsAPublishedState(steps: seq<Step>, id: nat, n: nat) returns (moment: nat)
    requires |Run(steps).log| <= U64_MAX && id in Run(steps).sessions && 2 <= n <= |Run(steps).sessions[id].wire|
    ensures moment <= |steps|
    ensures var c := Replay(Run(steps).sessions[id].wire[..n]);
            var then_ := Run(steps[..moment]);
            && c.sequence == then_.sequence
            && c.view.items == ViewOf(then_.table).items
            && c.view.menus.Keys == MenusSince(Run(steps), id, c.sequence)
            && c.view.menus == Restrict(ViewOf(then_.table).menus, c.view.menus.Keys)
  {
    hide Run, ViewOf, Replay;
    ClientMirrorsOwner(steps, id, n);
    var c := Replay(Run(steps).sessions[id].wire[..n]);
    moment := MomentOf(steps, c.sequence);
    HistoryIsFaithful(steps, moment);
    RunOk(steps[..moment]);
  }
}
