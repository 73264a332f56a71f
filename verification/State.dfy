/** The state owner of internal/state/owner.go. Each command runs alone on the owning goroutine, so
    each method is one step; it does to the fields what `Records.Apply` does to the table and offers
    the sink exactly the change that `Apply` publishes. */
module State {
  import opened Wrappers
  import opened Protocol
  import opened MenuTree
  import opened Messages
  import opened Records
  import opened Snapshots
  import opened Presenter

  lemma {:induction false} RemoveFirstAt(order: seq<Address>, spot: Address, i: nat)
    requires i <= |order| && spot !in order[..i] && (i < |order| ==> order[i] == spot)
    ensures RemoveFirst(order, spot) == if i < |order| then order[..i] + order[i + 1..] else order
  {
    if i == 0 {
    } else {
      var rest := order[1..];
      assert order[0] == order[..i][0] != spot;
      assert rest[..i - 1] == order[..i][1..];
      RemoveFirstAt(rest, spot, i - 1);
      if i < |order| {
        assert [order[0]] + rest[..i - 1] == order[..i] && rest[i..] == order[i + 1..];
        assert [order[0]] + (rest[..i - 1] + rest[i..]) == order[..i] + order[i + 1..];
      } else {
        assert [order[0]] + rest == order;
      }
    }
  }

  class Owner {
    var items: map<Address, Entry>
    var order: seq<Address>
    var sequence: uint64
    var sink: Connection?

    function Now(): Table
      reads this
    {
      Table(items, order)
    }

    constructor ()
      ensures Now() == EMPTY_TABLE && sequence == 0 && sink == null
    {
      items, order, sequence, sink := map[], [], 0, null;
    }

    /** What the sequence and the sink make of at most one change; `was` is the sink before. */
    twostate predicate Published(was: Connection?, d: Option<Delta>, size: nat)
      reads this, was
    {
      if d.None? || was == null then
        && sequence == (if d.None? then old(sequence) else Bump(old(sequence)))
        && sink == was
        && (was != null ==> was.State() == old(was.State()))
      else
        var next := Bump(old(sequence));
        var (c, outcome) := Send(old(was.State()), Outbound(StateFrame(next, d.value), size, next));
        && sequence == next
        && sink == (if outcome == Taken then was else null)
        && was.State() == if outcome == Taken || outcome == Closed then c else c.(failed := true)
    }

    method Publish(d: Delta, size: nat)
      modifies this`sequence, this`sink, sink
      ensures Published(old(sink), Some(d), size)
    {
      sequence := Bump(sequence);
      if sink == null {
        return;
      }
      var ok := sink.SendMessage(Outbound(StateFrame(sequence, d), size, sequence));
      if !ok {
        sink := null;
      }
    }

    method RetireEntry(spot: Address, size: nat)
      requires spot in items
      modifies this, sink
      ensures var (t, d) := Retire(old(Now()), spot);
              Now() == t && Published(old(sink), d, size)
    {
      var record := items[spot];
      items := items - {spot};
      var i := 0;
      while i < |order| && order[i] != spot
        invariant 0 <= i <= |order| && spot !in order[..i]
      {
        i := i + 1;
      }
      RemoveFirstAt(order, spot, i);
      if i < |order| {
        order := order[..i] + order[i + 1..];
      }
      if record.published {
        Publish(ItemRemoved(record.key), size);
      }
    }

    method AddItem(key: ItemKey, size: nat)
      modifies this, sink
      ensures var (t, d) := Apply(old(Now()), Add(key));
              Now() == t && Published(old(sink), d, size)
    {
      var spot := AddressOf(key);
      if spot in items {
        if items[spot].key.generation >= key.generation {
          return;
        }
        RetireEntry(spot, size);
      } else if |items| >= MAX_ITEMS {
        return;
      }
      items := items[spot := Entry(key, None, None, false)];
      order := order + [spot];
    }

    method UpdateItem(key: ItemKey, item: Item, size: nat)
      modifies this, sink
      ensures var (t, d) := Apply(old(Now()), Update(key, item));
              Now() == t && Published(old(sink), d, size)
    {
      hide ItemOk;
      if !Current(Now(), key) {
        return;
      }
      var spot := AddressOf(key);
      var record := items[spot];
      var next := item.(key := key);
      if !ItemOk(next) {
        return;
      }
      if record.published && record.item == Some(next) {
        return;
      }
      items := items[spot := record.(item := Some(next), published := true)];
      if record.published {
        Publish(ItemChanged(next), size);
        return;
      }
      Publish(ItemAdded(next), size);
    }

    method UpdateMenuTree(key: ItemKey, menu: Menu, size: nat)
      modifies this, sink
      ensures var (t, d) := Apply(old(Now()), UpdateMenu(key, menu));
              Now() == t && Published(old(sink), d, size)
    {
      hide WellFormed;
      if !Current(Now(), key) || !items[AddressOf(key)].published {
        return;
      }
      var valid := ValidateRecursive(menu);
      if !valid {
        return;
      }
      items := items[AddressOf(key) := items[AddressOf(key)].(menu := Some(menu))];
      Publish(MenuUpdated(key, menu), size);
    }

    method RemoveItem(key: ItemKey, size: nat)
      modifies this, sink
      ensures var (t, d) := Apply(old(Now()), Remove(key));
              Now() == t && Published(old(sink), d, size)
    {
      if Current(Now(), key) {
        RetireEntry(AddressOf(key), size);
      }
    }

    /** The menu a live generation shows, if it has one. */
    method MenuOf(key: ItemKey) returns (menu: Option<Menu>)
      requires TableOk(Now())
      ensures menu == if key in ViewOf(Now()).menus then Some(ViewOf(Now()).menus[key]) else None
    {
      hide WellFormed, ItemOk, ViewOf;
      ViewAt(Now(), key);
      if !Current(Now(), key) || items[AddressOf(key)].menu.None? {
        return None;
      }
      assert EntryOk(AddressOf(key), items[AddressOf(key)]);
      menu := items[AddressOf(key)].menu;
    }

    method TakeSnapshot() returns (listed: seq<Item>)
      ensures listed == Snapshot(Now())
    {
      listed := [];
      for i := 0 to |order|
        invariant listed == Listed(items, order[..i])
      {
        assert order[..i + 1][..i] == order[..i];
        if order[i] in items && items[order[i]].published && items[order[i]].item.Some? {
          listed := listed + [items[order[i]].item.value];
        }
      }
      assert order[..|order|] == order;
      listed := StableSort(listed);
    }

    /** Installing the sink and reading the baseline are one step: nothing falls in between. */
    method AttachSink(c: Connection?) returns (baseline: Option<(uint64, seq<Item>)>)
      modifies this`sink
      ensures c == null ==> baseline.None? && sink == old(sink)
      ensures c != null ==> sink == c && baseline == Some((sequence, Snapshot(Now())))
    {
      if c == null {
        return None;
      }
      sink := c;
      var listed := TakeSnapshot();
      baseline := Some((sequence, listed));
    }

    method DetachSink(c: Connection)
      modifies this`sink
      ensures sink == if old(sink) == c then null else old(sink)
    {
      if sink == c {
        sink := null;
      }
    }
  }
}
