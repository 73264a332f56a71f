/** The owner's records as values: what each command of internal/state/owner.go does to the item map
    and its order, and which change it publishes. The class in State.dfy is proved against this. */
module Records {
  import opened Utf8
  import opened Wrappers
  import opened Protocol
  import opened MenuTree
  import opened Messages

  datatype Address = Address(owner: Text, path: Text)

  function AddressOf(key: ItemKey): Address {
    Address(key.owner, key.objectPath)
  }

  datatype Entry = Entry(key: ItemKey, item: Option<Item>, menu: Option<Menu>, published: bool)

  datatype Table = Table(items: map<Address, Entry>, order: seq<Address>)

  datatype Command =
    | Add(key: ItemKey)
    | Update(key: ItemKey, item: Item)
    | UpdateMenu(key: ItemKey, menu: Menu)
    | Remove(key: ItemKey)

  const EMPTY_TABLE := Table(map[], [])

  predicate Current(t: Table, key: ItemKey) {
    AddressOf(key) in t.items && t.items[AddressOf(key)].key == key
  }

  function RemoveFirst(order: seq<Address>, spot: Address): seq<Address> {
    if order == [] then []
    else if order[0] == spot then order[1..]
    else [order[0]] + RemoveFirst(order[1..], spot)
  }

  function Retire(t: Table, spot: Address): (Table, Option<Delta>)
    requires spot in t.items
  {
    (Table(t.items - {spot}, RemoveFirst(t.order, spot)),
     if t.items[spot].published then Some(ItemRemoved(t.items[spot].key)) else None)
  }

  function Apply(t: Table, c: Command): (Table, Option<Delta>) {
    var spot := AddressOf(c.key);
    match c
    case Add(key) =>
      if spot in t.items then
        if t.items[spot].key.generation >= key.generation then (t, None)
        else
          var (r, d) := Retire(t, spot);
          (Table(r.items[spot := Entry(key, None, None, false)], r.order + [spot]), d)
      else if |t.items| >= MAX_ITEMS then (t, None)
      else (Table(t.items[spot := Entry(key, None, None, false)], t.order + [spot]), None)
    case Update(key, item) =>
      if !Current(t, key) then (t, None)
      else
        var next, e := item.(key := key), t.items[spot];
        if !ItemOk(next) || (e.published && e.item == Some(next)) then (t, None)
        else
          (t.(items := t.items[spot := e.(item := Some(next), published := true)]),
           Some(if e.published then ItemChanged(next) else ItemAdded(next)))
    case UpdateMenu(key, menu) =>
      if !Current(t, key) || !t.items[spot].published || !WellFormed(menu) then (t, None)
      else (t.(items := t.items[spot := t.items[spot].(menu := Some(menu))]), Some(MenuUpdated(key, menu)))
    case Remove(key) =>
      if Current(t, key) then Retire(t, spot) else (t, None)
  }

  predicate NoRepeats(order: seq<Address>) {
    forall i, j :: 0 <= i < j < |order| ==> order[i] != order[j]
  }

  predicate EntryOk(a: Address, e: Entry) {
    && AddressOf(e.key) == a
    && (e.published <==> e.item.Some?)
    && (e.item.Some? ==> e.item.value.key == e.key && ItemOk(e.item.value))
    && (e.menu.Some? ==> e.published && WellFormed(e.menu.value))
  }

  /** What every command keeps: each live address ordered exactly once, keys at their own address,
      only valid items and menus, and no more than the item cap. */
  ghost predicate TableOk(t: Table) {
    && NoRepeats(t.order) && (forall a :: a in t.order <==> a in t.items)
    && (forall a :: a in t.items ==> EntryOk(a, t.items[a]))
    && |t.items| <= MAX_ITEMS
  }

  predicate Shown(t: Table, key: ItemKey) {
    Current(t, key) && t.items[AddressOf(key)].published && t.items[AddressOf(key)].item.Some?
  }

  ghost function LiveKeys(t: Table): set<ItemKey> {
    set a | a in t.items :: t.items[a].key
  }

  /** The published state: what a presenter is to mirror. */
  ghost function ViewOf(t: Table): View {
    View(map k | k in LiveKeys(t) && Shown(t, k) :: t.items[AddressOf(k)].item.value,
         map k | k in LiveKeys(t) && Shown(t, k) && t.items[AddressOf(k)].menu.Some? ::
           t.items[AddressOf(k)].menu.value)
  }

  lemma {:induction false} RemoveFirstKeepsOrder(order: seq<Address>, spot: Address)
    requires NoRepeats(order)
    ensures var r := RemoveFirst(order, spot);
            NoRepeats(r) && (forall a :: a in r <==> a in order && a != spot)
  {
    if order == [] {
    } else {
      var rest := order[1..];
      assert order == [order[0]] + rest;
      assert order[0] !in rest;
      RemoveFirstKeepsOrder(rest, spot);
    }
  }

  lemma AppendedOrder(order: seq<Address>, spot: Address)
    requires NoRepeats(order) && spot !in order
    ensures NoRepeats(order + [spot]) && forall a :: a in order + [spot] <==> a in order || a == spot
  {
  }

  lemma RetireKeeps(t: Table, spot: Address)
    requires TableOk(t) && spot in t.items
    ensures TableOk(Retire(t, spot).0) && |Retire(t, spot).0.items| < |t.items|
  {
    hide EntryOk;
    RemoveFirstKeepsOrder(t.order, spot);
    var items := t.items - {spot};
    assert items.Keys == t.items.Keys - {spot};
  }

  lemma NewEntryOk(key: ItemKey)
    ensures EntryOk(AddressOf(key), Entry(key, None, None, false))
  {
  }

  lemma InsertKeeps(t: Table, key: ItemKey)
    requires TableOk(t) && AddressOf(key) !in t.items && |t.items| < MAX_ITEMS
    ensures TableOk(Table(t.items[AddressOf(key) := Entry(key, None, None, false)], t.order + [AddressOf(key)]))
  {
    hide EntryOk, NoRepeats;
    var spot := AddressOf(key);
    var e := Entry(key, None, None, false);
    NewEntryOk(key);
    AppendedOrder(t.order, spot);
    var items := t.items[spot := e];
    assert items.Keys == t.items.Keys + {spot};
    assert forall a :: a in items ==> EntryOk(a, items[a]);
  }

  lemma ReplaceKeeps(t: Table, spot: Address, e: Entry)
    requires TableOk(t) && spot in t.items && EntryOk(spot, e)
    ensures TableOk(t.(items := t.items[spot := e]))
  {
    hide EntryOk;
    assert t.items[spot := e].Keys == t.items.Keys;
  }

  lemma ApplyKeeps(t: Table, c: Command)
    requires TableOk(t)
    ensures TableOk(Apply(t, c).0)
  {
    hide ItemOk, WellFormed, RemoveFirst, NoRepeats;
    var spot := AddressOf(c.key);
    match c
    case Add(key) =>
      if spot in t.items && t.items[spot].key.generation < key.generation {
        RetireKeeps(t, spot);
        InsertKeeps(Retire(t, spot).0, key);
      } else if spot !in t.items && |t.items| < MAX_ITEMS {
        InsertKeeps(t, key);
      }
    case Update(key, item) =>
      if Current(t, key) && ItemOk(item.(key := key)) {
        ReplaceKeeps(t, spot, t.items[spot].(item := Some(item.(key := key)), published := true));
      }
    case UpdateMenu(key, menu) =>
      if Current(t, key) && t.items[spot].published && WellFormed(menu) {
        ReplaceKeeps(t, spot, t.items[spot].(menu := Some(menu)));
      }
    case Remove(key) =>
      if Current(t, key) {
        RetireKeeps(t, spot);
      }
  }

  /** The published entry of a key, if it has one. */
  function Seen(t: Table, key: ItemKey): Option<Entry> {
    if Shown(t, key) then Some(t.items[AddressOf(key)]) else None
  }

  /** Reading the view one key at a time. */
  lemma ViewAt(t: Table, key: ItemKey)
    ensures key in ViewOf(t).items <==> Seen(t, key).Some?
    ensures key in ViewOf(t).menus <==> Seen(t, key).Some? && Seen(t, key).value.menu.Some?
    ensures Seen(t, key).Some? ==>
              Seen(t, key).value.item.Some? && ViewOf(t).items[key] == Seen(t, key).value.item.value
    ensures key in ViewOf(t).menus ==> ViewOf(t).menus[key] == Seen(t, key).value.menu.value
  {
    if Current(t, key) {
      assert key in LiveKeys(t);
    }
  }

  lemma SameView(v: View, w: View)
    requires forall k :: k in v.items <==> k in w.items
    requires forall k :: k in v.items && k in w.items ==> v.items[k] == w.items[k]
    requires forall k :: k in v.menus <==> k in w.menus
    requires forall k :: k in v.menus && k in w.menus ==> v.menus[k] == w.menus[k]
    ensures v == w
  {
    assert v.items == w.items && v.menus == w.menus;
  }

  ghost function Expected(v: View, d: Option<Delta>): View {
    if d.None? then v else After(v, d.value)
  }

  function SeenAfter(e: Option<Entry>, d: Option<Delta>, k: ItemKey): Option<Entry> {
    match d
    case Some(ItemAdded(item)) => if k == item.key then Some(Entry(k, Some(item), None, true)) else e
    case Some(ItemChanged(item)) => if k == item.key && e.Some? then Some(e.value.(item := Some(item))) else e
    case Some(ItemRemoved(key)) => if k == key then None else e
    case Some(MenuUpdated(key, menu)) => if k == key && e.Some? then Some(e.value.(menu := Some(menu))) else e
    case None => e
  }

  lemma AddFollows(t: Table, key: ItemKey, k: ItemKey)
    requires TableOk(t)
    ensures Seen(Apply(t, Add(key)).0, k) == SeenAfter(Seen(t, k), Apply(t, Add(key)).1, k)
  {
    hide ItemOk, WellFormed, RemoveFirst, NoRepeats;
    if AddressOf(key) in t.items {
      assert EntryOk(AddressOf(key), t.items[AddressOf(key)]);
    }
  }

  lemma UpdateFollows(t: Table, key: ItemKey, item: Item, k: ItemKey)
    requires TableOk(t)
    ensures var (t', d) := Apply(t, Update(key, item));
            Seen(t', k) == SeenAfter(Seen(t, k), d, k)
  {
    hide ItemOk, WellFormed, NoRepeats;
    if AddressOf(k) in t.items {
      assert EntryOk(AddressOf(k), t.items[AddressOf(k)]);
    }
  }

  lemma SeenFollows(t: Table, c: Command, k: ItemKey)
    requires TableOk(t)
    ensures Seen(Apply(t, c).0, k) == SeenAfter(Seen(t, k), Apply(t, c).1, k)
  {
    hide ItemOk, WellFormed, RemoveFirst, NoRepeats;
    match c
    case Add(key) => AddFollows(t, key, k);
    case Update(key, item) => UpdateFollows(t, key, item, k);
    case UpdateMenu(_, _) =>
    case Remove(_) =>
  }

  lemma PublishesAt(t: Table, c: Command, k: ItemKey)
    requires TableOk(t) && (Apply(t, c).1.Some? ==> Legal(ViewOf(t), Apply(t, c).1.value))
    ensures var v, w := ViewOf(Apply(t, c).0), Expected(ViewOf(t), Apply(t, c).1);
            && (k in v.items <==> k in w.items) && (k in v.items && k in w.items ==> v.items[k] == w.items[k])
            && (k in v.menus <==> k in w.menus) && (k in v.menus && k in w.menus ==> v.menus[k] == w.menus[k])
  {
    hide Apply, ViewOf, TableOk, Seen;
    SeenFollows(t, c, k);
    ViewAt(t, k);
    ViewAt(Apply(t, c).0, k);
  }

  /** A command publishes exactly the change it makes to the view, and the change is legal. */
  lemma ApplyPublishes(t: Table, c: Command)
    requires TableOk(t)
    ensures var (t', d) := Apply(t, c);
            && (d.None? ==> ViewOf(t') == ViewOf(t))
            && (d.Some? ==> Legal(ViewOf(t), d.value) && ViewOf(t') == After(ViewOf(t), d.value))
  {
    hide Apply, ViewOf, TableOk, Legal, After;
    var (t', d) := Apply(t, c);
    var v, w := ViewOf(t'), Expected(ViewOf(t), d);
    if d.Some? {
      PublishesLegally(t, c);
    }
    forall k
      ensures (k in v.items <==> k in w.items) && (k in v.items && k in w.items ==> v.items[k] == w.items[k])
      ensures (k in v.menus <==> k in w.menus) && (k in v.menus && k in w.menus ==> v.menus[k] == w.menus[k])
    {
      PublishesAt(t, c, k);
    }
    SameView(v, w);
  }

  lemma PublishesLegally(t: Table, c: Command)
    requires TableOk(t) && Apply(t, c).1.Some?
    ensures Legal(ViewOf(t), Apply(t, c).1.value)
  {
    hide ItemOk, WellFormed, ViewOf, RemoveFirst, NoRepeats;
    ViewAt(t, c.key);
    if AddressOf(c.key) in t.items {
      ViewAt(t, t.items[AddressOf(c.key)].key);
    }
  }

  lemma ViewHasOneGeneration(t: Table)
    ensures OneGeneration(ViewOf(t))
    ensures ViewOf(t).menus.Keys <= ViewOf(t).items.Keys
  {
    forall k, k' | k in ViewOf(t).items && k' in ViewOf(t).items && k.owner == k'.owner && k.objectPath == k'.objectPath
      ensures k == k'
    {
      ViewAt(t, k);
      ViewAt(t, k');
    }
  }

  // What each command means, address by address.

  /** Whatever names a key that is not live does nothing, unless it announces that key: a late refresh,
      menu or removal of an earlier generation cannot touch the present one. */
  lemma StaleIsIgnored(t: Table, c: Command)
    requires !c.Add? && !Current(t, c.key)
    ensures Apply(t, c) == (t, None)
  {
  }

  /** No command touches another address. */
  lemma OthersUntouched(t: Table, c: Command, a: Address)
    requires a != AddressOf(c.key)
    ensures a in Apply(t, c).0.items <==> a in t.items
    ensures a in t.items ==> Apply(t, c).0.items[a] == t.items[a]
  {
    hide RemoveFirst, ItemOk, WellFormed;
  }

  /** An announcement makes its key live exactly when its address is free and fewer than 128 are live,
      or the address holds an older generation; a live key stays as it is, and a refused one changes
      nothing. What was shown of the older generation is removed. */
  lemma AddMakesLive(t: Table, key: ItemKey)
    requires TableOk(t)
    ensures var (t', d) := Apply(t, Add(key));
            var a := AddressOf(key);
            var room := if a in t.items then t.items[a].key.generation < key.generation else |t.items| < MAX_ITEMS;
            && (Current(t', key) <==> Current(t, key) || room)
            && (room ==> t'.items[a] == Entry(key, None, None, false))
            && (!room ==> t' == t)
            && d == if room && a in t.items && Shown(t, t.items[a].key) then Some(ItemRemoved(t.items[a].key)) else None
  {
    hide RemoveFirst, NoRepeats, ItemOk, WellFormed;
    var a := AddressOf(key);
    if a in t.items {
      assert EntryOk(a, t.items[a]);
      if t.items[a].key.generation == key.generation {
        assert t.items[a].key == key;
      }
    }
  }

  /** Removing a live key frees its address and nothing else. */
  lemma RemoveRetires(t: Table, key: ItemKey)
    requires TableOk(t) && Current(t, key)
    ensures var (t', d) := Apply(t, Remove(key));
            && t'.items == t.items - {AddressOf(key)}
            && d == if Shown(t, key) then Some(ItemRemoved(key)) else None
  {
    hide RemoveFirst, NoRepeats, ItemOk, WellFormed;
    assert EntryOk(AddressOf(key), t.items[AddressOf(key)]);
  }

  /** A refresh of a live key shows the item, under that key and beside the menu there was, exactly when
      the item is valid; it is silent exactly when it is invalid or shows what was shown. */
  lemma UpdateShows(t: Table, key: ItemKey, item: Item)
    requires TableOk(t) && Current(t, key)
    ensures var (t', d) := Apply(t, Update(key, item));
            var a, next := AddressOf(key), item.(key := key);
            && (ItemOk(next) ==> t'.items[a] == t.items[a].(item := Some(next), published := true))
            && (!ItemOk(next) ==> t' == t)
            && (d.None? <==> !ItemOk(next) || (Shown(t, key) && t.items[a].item == Some(next)))
  {
    hide NoRepeats, ItemOk, WellFormed;
    assert EntryOk(AddressOf(key), t.items[AddressOf(key)]);
    var e, next := t.items[AddressOf(key)], item.(key := key);
    assert e.published && e.item == Some(next) ==> e.(item := Some(next), published := true) == e;
  }

  /** A menu is taken exactly for a shown key and when it is well formed; the item stays as it is. */
  lemma MenuShows(t: Table, key: ItemKey, menu: Menu)
    requires TableOk(t)
    ensures var (t', d) := Apply(t, UpdateMenu(key, menu));
            var taken := Shown(t, key) && WellFormed(menu);
            && (taken ==> t'.items[AddressOf(key)] == t.items[AddressOf(key)].(menu := Some(menu)))
            && (!taken ==> t' == t)
            && d == if taken then Some(MenuUpdated(key, menu)) else None
  {
    hide NoRepeats, ItemOk, WellFormed;
    if Current(t, key) {
      assert EntryOk(AddressOf(key), t.items[AddressOf(key)]);
    }
  }

  function Without(order: seq<Address>, a: Address): seq<Address> {
    if order == [] then [] else (if order[0] == a then [] else [order[0]]) + Without(order[1..], a)
  }

  lemma {:induction false} AbsentWithout(order: seq<Address>, a: Address)
    requires a !in order
    ensures Without(order, a) == order
  {
    if order == [] {
    } else {
      assert a !in order[1..];
      AbsentWithout(order[1..], a);
      assert order == [order[0]] + order[1..];
    }
  }

  lemma {:induction false} RemoveFirstIsWithout(order: seq<Address>, a: Address)
    requires NoRepeats(order)
    ensures RemoveFirst(order, a) == Without(order, a)
  {
    if order == [] {
    } else {
      assert NoRepeats(order[1..]) && order[0] !in order[1..];
      if order[0] == a {
        AbsentWithout(order[1..], a);
      } else {
        RemoveFirstIsWithout(order[1..], a);
      }
    }
  }

  /** Addresses keep the order in which their present generations were announced: a new one is last, a
      removed one is gone, and the others keep their places. */
  lemma OrderFollows(t: Table, c: Command)
    requires TableOk(t)
    ensures var t', a := Apply(t, c).0, AddressOf(c.key);
            t'.order == if c.Add? && t' != t then Without(t.order, a) + [a]
                        else if a in t'.items then t.order else Without(t.order, a)
  {
    hide ItemOk, WellFormed, EntryOk;
    var a := AddressOf(c.key);
    RemoveFirstIsWithout(t.order, a);
    if a !in t.items {
      AbsentWithout(t.order, a);
    }
  }
}
