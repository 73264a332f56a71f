/** Sequences of owner commands, whoever sends them: which keys can be live, and what is published
    about them, when every generation is announced to the owner at most once. */
module Generations {
  import opened Protocol
  import opened MenuTree
  import opened Messages
  import opened Records

  /** The owner's table and the changes it has published. */
  datatype History = History(table: Table, log: seq<Delta>)

  function Play(h: History, c: Command): History {
    var (t, d) := Apply(h.table, c);
    History(t, h.log + if d.Some? then [d.value] else [])
  }

  function Played(commands: seq<Command>): History {
    if commands == [] then History(EMPTY_TABLE, [])
    else Play(Played(commands[..|commands| - 1]), commands[|commands| - 1])
  }

  /** The keys announced, in order. */
  function Adds(commands: seq<Command>): seq<ItemKey> {
    if commands == [] then []
    else
      var front, last := commands[..|commands| - 1], commands[|commands| - 1];
      Adds(front) + if last.Add? then [last.key] else []
  }

  predicate OnceEach(keys: seq<ItemKey>) {
    forall k :: k in keys ==> multiset(keys)[k] == 1
  }

  predicate Ascending(keys: seq<ItemKey>) {
    forall i, j :: 0 <= i < j < |keys| ==> keys[i].generation < keys[j].generation
  }

  lemma {:induction false} AscendingIsOnceEach(keys: seq<ItemKey>)
    requires Ascending(keys)
    ensures OnceEach(keys)
  {
    if keys == [] {
    } else {
      var front, last := keys[..|keys| - 1], keys[|keys| - 1];
      AscendingIsOnceEach(front);
      assert keys == front + [last];
      assert last !in front;
    }
  }

  lemma FewerOnceEach(keys: seq<ItemKey>, among: seq<ItemKey>)
    requires OnceEach(among) && multiset(keys) <= multiset(among)
    ensures OnceEach(keys)
  {
    forall k | k in keys ensures multiset(keys)[k] == 1 {
      assert k in multiset(among);
    }
  }

  lemma Snoc(commands: seq<Command>, c: Command)
    ensures Played(commands + [c]) == Play(Played(commands), c)
    ensures Adds(commands + [c]) == Adds(commands) + if c.Add? then [c.key] else []
  {
    hide Play;
    assert (commands + [c])[..|commands|] == commands;
  }

  lemma {:induction false} AddsSplit(a: seq<Command>, b: seq<Command>)
    ensures Adds(a + b) == Adds(a) + Adds(b)
  {
    if b == [] {
      assert a + b == a;
    } else {
      var front, last := b[..|b| - 1], b[|b| - 1];
      AddsSplit(a, front);
      assert a + b == a + front + [last];
      Snoc(a + front, last);
    }
  }

  lemma {:induction false} PlayedOk(commands: seq<Command>)
    ensures TableOk(Played(commands).table)
  {
    hide TableOk, Apply;
    if commands == [] {
      assert TableOk(EMPTY_TABLE) by {
        NothingIsOk();
      }
    } else {
      var front, last := commands[..|commands| - 1], commands[|commands| - 1];
      PlayedOk(front);
      ApplyKeeps(Played(front).table, last);
    }
  }

  lemma NothingIsOk()
    ensures TableOk(EMPTY_TABLE)
  {
  }

  /** Only its own announcement makes a key live. */
  lemma BecomesCurrent(t: Table, c: Command, key: ItemKey)
    requires Current(Apply(t, c).0, key)
    ensures Current(t, key) || c == Add(key)
  {
    hide RemoveFirst, ItemOk;
  }

  lemma {:induction false} CurrentWasAdded(commands: seq<Command>, key: ItemKey)
    requires Current(Played(commands).table, key)
    ensures key in Adds(commands)
  {
    hide Apply, Current;
    if commands == [] {
      assert false by {
        NothingIsCurrent(key);
      }
    } else {
      var front, last := commands[..|commands| - 1], commands[|commands| - 1];
      BecomesCurrent(Played(front).table, last, key);
      if Current(Played(front).table, key) {
        CurrentWasAdded(front, key);
      }
    }
  }

  lemma NothingIsCurrent(key: ItemKey)
    ensures !Current(EMPTY_TABLE, key)
  {
  }

  lemma AddedTwice(commands: seq<Command>, c: Command, key: ItemKey)
    requires key in Adds(commands)
    ensures c == Add(key) ==> !OnceEach(Adds(commands + [c]))
  {
    Snoc(commands, c);
    if c == Add(key) {
      var keys := Adds(commands + [c]);
      assert key in multiset(Adds(commands));
      assert multiset(keys) == multiset(Adds(commands)) + multiset{key};
      assert key in keys;
    }
  }

  lemma OnceEachBefore(commands: seq<Command>, c: Command)
    requires OnceEach(Adds(commands + [c]))
    ensures OnceEach(Adds(commands))
  {
    Snoc(commands, c);
    assert multiset(Adds(commands)) <= multiset(Adds(commands + [c]));
    FewerOnceEach(Adds(commands), Adds(commands + [c]));
  }

  /** A key the owner has retired, for whatever reason, is never live again. */
  lemma {:induction false} RetiredStays(before: seq<Command>, then_: seq<Command>, more: seq<Command>, key: ItemKey)
    requires OnceEach(Adds(before + then_ + more))
    requires Current(Played(before).table, key) && !Current(Played(before + then_).table, key)
    ensures !Current(Played(before + then_ + more).table, key)
    decreases |more|
  {
    hide Current, Play, OnceEach;
    var all := before + then_ + more;
    if more == [] {
      assert all == before + then_;
    } else {
      var front, last := more[..|more| - 1], more[|more| - 1];
      var soFar := before + then_ + front;
      assert all == soFar + [last];
      OnceEachBefore(soFar, last);
      RetiredStays(before, then_, front, key);
      CurrentWasAdded(before, key);
      assert soFar == before + (then_ + front);
      AddsSplit(before, then_ + front);
      AddedTwice(soFar, last, key);
      Snoc(soFar, last);
      if Current(Played(all).table, key) {
        PlayedCurrent(soFar, last, key);
      }
    }
  }

  lemma PlayedCurrent(commands: seq<Command>, c: Command, key: ItemKey)
    requires Current(Play(Played(commands), c).table, key)
    ensures Current(Played(commands).table, key) || c == Add(key)
  {
    BecomesCurrent(Played(commands).table, c, key);
  }

  // What is published about a key.

  /** Each key is added at most once, and not after its removal. */
  predicate LivesOnce(log: seq<Delta>) {
    forall i, j :: 0 <= i < j < |log| && log[j].ItemAdded? ==>
      log[i] != ItemRemoved(log[j].item.key) && (log[i].ItemAdded? ==> log[i].item.key != log[j].item.key)
  }

  /** The generations added at one address rise. */
  predicate GenerationsRise(log: seq<Delta>) {
    forall i, j :: 0 <= i < j < |log| && log[i].ItemAdded? && log[j].ItemAdded? ==>
      AddressOf(log[i].item.key) == AddressOf(log[j].item.key) ==>
        log[i].item.key.generation < log[j].item.key.generation
  }

  /** What the table still knows about the keys in the log. */
  predicate Remembered(t: Table, d: Delta, adds: seq<ItemKey>) {
    match d
    case ItemRemoved(key) => key in adds && !Current(t, key)
    case ItemAdded(item) => item.key in adds && (Current(t, item.key) ==> t.items[AddressOf(item.key)].published)
    case _ => true
  }

  predicate AllRemembered(h: History, adds: seq<ItemKey>) {
    forall i :: 0 <= i < |h.log| ==> Remembered(h.table, h.log[i], adds)
  }

  /** No live generation is behind one that was published at its address. */
  predicate Ahead(t: Table, d: Delta) {
    d.ItemAdded? && AddressOf(d.item.key) in t.items ==>
      d.item.key.generation <= t.items[AddressOf(d.item.key)].key.generation
  }

  lemma StillRemembered(t: Table, c: Command, d: Delta, adds: seq<ItemKey>)
    requires TableOk(t) && Remembered(t, d, adds) && (c.Add? ==> c.key !in adds)
    ensures Remembered(Apply(t, c).0, d, adds + if c.Add? then [c.key] else [])
  {
    hide ItemOk, RemoveFirst, NoRepeats;
    if d.ItemRemoved? && Current(Apply(t, c).0, d.key) {
      BecomesCurrent(t, c, d.key);
    }
    if d.ItemAdded? && Current(Apply(t, c).0, d.item.key) {
      BecomesCurrent(t, c, d.item.key);
    }
  }

  lemma PublishedIsRemembered(t: Table, c: Command, adds: seq<ItemKey>)
    requires TableOk(t) && Apply(t, c).1.Some?
    requires forall k :: Current(t, k) ==> k in adds
    requires c.Add? ==> c.key !in adds
    ensures Remembered(Apply(t, c).0, Apply(t, c).1.value, adds)
  {
    hide ItemOk, RemoveFirst, NoRepeats, WellFormed;
    var spot := AddressOf(c.key);
    if spot in t.items {
      assert EntryOk(spot, t.items[spot]);
      assert Current(t, t.items[spot].key);
    }
  }

  lemma AddedWasHidden(t: Table, c: Command)
    requires Apply(t, c).1.Some? && Apply(t, c).1.value.ItemAdded?
    ensures var key := Apply(t, c).1.value.item.key;
            Current(t, key) && !t.items[AddressOf(key)].published
  {
    hide ItemOk, RemoveFirst, WellFormed;
  }

  lemma CurrentKeysWereAdded(commands: seq<Command>)
    ensures forall k :: Current(Played(commands).table, k) ==> k in Adds(commands)
  {
    hide Played, Adds, Current;
    forall k | Current(Played(commands).table, k) ensures k in Adds(commands) {
      CurrentWasAdded(commands, k);
    }
  }

  /** In every sequence of commands that announces each key at most once, each key is added for the
      presenter at most once, and never after its removal. */
  lemma {:induction false} KeysLiveOnce(commands: seq<Command>)
    requires OnceEach(Adds(commands))
    ensures AllRemembered(Played(commands), Adds(commands)) && LivesOnce(Played(commands).log)
  {
    hide Apply, OnceEach, Remembered, TableOk;
    if commands == [] {
    } else {
      var front, c := commands[..|commands| - 1], commands[|commands| - 1];
      assert commands == front + [c];
      OnceEachBefore(front, c);
      KeysLiveOnce(front);
      Snoc(front, c);
      PlayedOk(front);
      CurrentKeysWereAdded(front);
      if c.Add? && c.key in Adds(front) {
        AddedTwice(front, c, c.key);
      }
      OnePlayed(Played(front), c, Adds(front));
    }
  }

  lemma OnePlayed(h: History, c: Command, adds: seq<ItemKey>)
    requires TableOk(h.table) && (c.Add? ==> c.key !in adds)
    requires forall k :: Current(h.table, k) ==> k in adds
    requires AllRemembered(h, adds) && LivesOnce(h.log)
    ensures AllRemembered(Play(h, c), adds + if c.Add? then [c.key] else []) && LivesOnce(Play(h, c).log)
  {
    hide Apply, TableOk, Current, Remembered;
    var log := Play(h, c).log;
    forall i | 0 <= i < |log|
      ensures Remembered(Play(h, c).table, log[i], adds + if c.Add? then [c.key] else [])
    {
      if i < |h.log| {
        StillRemembered(h.table, c, h.log[i], adds);
      } else {
        PublishedIsRemembered(h.table, c, adds);
        RememberedLonger(Play(h, c).table, log[i], adds, if c.Add? then [c.key] else []);
      }
    }
    forall i, j | 0 <= i < j < |log| && log[j].ItemAdded?
      ensures log[i] != ItemRemoved(log[j].item.key)
      ensures log[i].ItemAdded? ==> log[i].item.key != log[j].item.key
    {
      if j == |h.log| {
        AddedWasHidden(h.table, c);
        assert Remembered(h.table, h.log[i], adds);
        HiddenIsNew(h.table, h.log[i], adds, log[j].item.key);
      }
    }
  }

  lemma RememberedLonger(t: Table, d: Delta, adds: seq<ItemKey>, more: seq<ItemKey>)
    requires Remembered(t, d, adds)
    ensures Remembered(t, d, adds + more)
  {
  }

  lemma HiddenIsNew(t: Table, d: Delta, adds: seq<ItemKey>, key: ItemKey)
    requires Remembered(t, d, adds) && Current(t, key) && !t.items[AddressOf(key)].published
    ensures d != ItemRemoved(key) && (d.ItemAdded? ==> d.item.key != key)
  {
  }

  lemma StillAhead(t: Table, c: Command, d: Delta)
    requires TableOk(t) && Ahead(t, d)
    requires c.Add? && d.ItemAdded? ==> d.item.key.generation < c.key.generation
    ensures Ahead(Apply(t, c).0, d)
  {
    hide ItemOk, RemoveFirst, NoRepeats, WellFormed;
  }

  lemma PublishedIsAhead(t: Table, c: Command)
    requires Apply(t, c).1.Some?
    ensures Ahead(Apply(t, c).0, Apply(t, c).1.value)
  {
    hide ItemOk, RemoveFirst, WellFormed;
  }

  /** When generations are announced in rising order, those published at one address rise as well. */
  lemma {:induction false} PublishedGenerationsRise(commands: seq<Command>)
    requires Ascending(Adds(commands))
    ensures forall i :: 0 <= i < |Played(commands).log| ==> Ahead(Played(commands).table, Played(commands).log[i])
    ensures GenerationsRise(Played(commands).log)
  {
    hide Apply, Ahead, TableOk, OnceEach, Remembered, Current;
    if commands == [] {
    } else {
      var front, c := commands[..|commands| - 1], commands[|commands| - 1];
      assert commands == front + [c];
      Snoc(front, c);
      assert Adds(front) == Adds(commands)[..|Adds(front)|];
      PublishedGenerationsRise(front);
      AscendingIsOnceEach(Adds(front));
      AscendingIsOnceEach(Adds(commands));
      KeysLiveOnce(front);
      KeysLiveOnce(commands);
      PlayedOk(front);
      var h, log := Played(front), Played(commands).log;
      forall i | 0 <= i < |log| ensures Ahead(Played(commands).table, log[i]) {
        if i < |h.log| {
          LaterThanLogged(h, Adds(front), c, i);
          StillAhead(h.table, c, h.log[i]);
        } else {
          PublishedIsAhead(h.table, c);
        }
      }
      if |log| > |h.log| && log[|h.log|].ItemAdded? {
        RisesAtLast(h, c, log);
      }
    }
  }

  lemma LaterThanLogged(h: History, adds: seq<ItemKey>, c: Command, i: nat)
    requires AllRemembered(h, adds) && i < |h.log|
    requires Ascending(adds + if c.Add? then [c.key] else [])
    ensures c.Add? && h.log[i].ItemAdded? ==> h.log[i].item.key.generation < c.key.generation
  {
    hide TableOk;
    assert Remembered(h.table, h.log[i], adds);
    if c.Add? && h.log[i].ItemAdded? {
      var all := adds + [c.key];
      var j :| 0 <= j < |adds| && adds[j] == h.log[i].item.key;
      assert all[j].generation < all[|adds|].generation;
    }
  }

  lemma RisesAtLast(h: History, c: Command, log: seq<Delta>)
    requires log == Play(h, c).log && |log| > |h.log| && log[|h.log|].ItemAdded?
    requires LivesOnce(log) && GenerationsRise(h.log)
    requires forall i :: 0 <= i < |h.log| ==> Ahead(h.table, h.log[i])
    ensures GenerationsRise(log)
  {
    hide Apply;
    AddedWasHidden(h.table, c);
    var key := log[|h.log|].item.key;
    forall i | 0 <= i < |h.log| && log[i].ItemAdded? && AddressOf(log[i].item.key) == AddressOf(key)
      ensures log[i].item.key.generation < key.generation
    {
      assert Ahead(h.table, h.log[i]) && log[i] == h.log[i];
      assert log[i].item.key != key;
    }
  }
}
