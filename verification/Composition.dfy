/** How the parts fit: what the readers produce is what the owner publishes. */
module Composition {
  import opened Wrappers
  import opened Protocol
  import opened MenuTree
  import opened DBusValue
  import opened MenuLayout
  import opened MenuEncoding
  import opened MenuWalk
  import opened Messages
  import opened Records
  import opened ItemModel
  import opened Replication
  import opened Mirroring
  import opened Generations
  import Registry

  lemma {:induction false} ConvertedIsClean(source: Value, depth: nat)
    requires ConvertTree(source).Some?
    ensures Of(ConvertTree(source).value, depth).clean
    decreases 1 + Rank(source), 0
  {
    hide ConvertNode, NodeOk, ChildSources;
    TreeUnfolds(source);
    ConvertedNodeOk(source);
    ChildSourcesRank(source);
    var t := ConvertTree(source).value;
    var cs := ConvertAll(ChildSources(source)).value;
    assert t.children == cs by {
      assert [] + cs == cs;
    }
    ConvertedAllClean(ChildSources(source), depth + 1);
    OwnIgnoresChildren(t, ConvertNode(source).value, depth);
  }

  lemma ConvertedNodeOk(source: Value)
    requires ConvertNode(source).Some?
    ensures Own(ConvertNode(source).value, 0).clean
    ensures forall depth: nat :: Own(ConvertNode(source).value, depth).clean
  {
    hide ConvertNode;
  }

  lemma {:induction false} ConvertedAllClean(sources: seq<Value>, depth: nat)
    requires ConvertAll(sources).Some?
    ensures OfAll(ConvertAll(sources).value, depth).clean
    decreases RankAll(sources), 1
  {
    hide NodeOk;
    if sources == [] {
    } else {
      ConvertedIsClean(sources[0], depth);
      ConvertedAllClean(sources[1..], depth);
      assert ConvertAll(sources).value[1..] == ConvertAll(sources[1..]).value;
    }
  }

  /** The conditions a converted layout has still to meet. */
  ghost predicate Acceptable(layout: Value) {
    && Convertible(layout)
    && var t := ConvertTree(layout).value;
       && t.id == 0
       && (forall id :: id in Of(t, 0).ids ==> Of(t, 0).ids[id] == 1)
       && Of(t, 0).icons <= MAX_MENU_ICON_BYTES
  }

  ghost function MenuOf(layout: Value, revision: uint32): Menu
    requires Convertible(layout)
  {
    Menu(revision, ConvertTree(layout).value)
  }

  /** A tree the walk produced passes validation exactly when its root is 0, no identity repeats and
      its icons fit; everything else the walk has already settled. */
  lemma ConvertedMenuIsAcceptedExactly(layout: Value, revision: uint32)
    requires Convertible(layout)
    ensures WellFormed(MenuOf(layout, revision)) <==> Acceptable(layout)
  {
    hide Of, ConvertTree;
    ConvertedIsClean(layout, 0);
  }

  /** Whatever menu an application has that the protocol can carry, its layout is read, accepted and
      published as exactly that menu. */
  lemma EncodedMenuIsAccepted(menu: Menu)
    requires WellFormed(menu)
    ensures Acceptable(LayoutOf(menu.root)) && MenuOf(LayoutOf(menu.root), menu.revision) == menu
  {
    hide Of, ConvertTree, LayoutOf;
    MenuSurvives(menu);
  }

  /** The walk over memory reads it back as well, wherever the runtime puts the slices. */
  method ReadEncoded(menu: Menu, growth: nat -> nat) returns (ok: bool, mem: Memory)
    requires WellFormed(menu)
    ensures ok && Holds(mem, 0, menu.root)
  {
    hide Holds, LayoutOf, ConvertTree;
    MenuSurvives(menu);
    ok, mem := ConvertLayout(LayoutOf(menu.root), growth);
  }

  /** A menu that passed validation is never silently dropped: for a key that is live and published the
      owner publishes it, and the published state shows it. */
  lemma AcceptedMenuIsPublished(t: Table, key: ItemKey, menu: Menu)
    requires TableOk(t) && WellFormed(menu) && Shown(t, key)
    ensures var (t', d) := Apply(t, UpdateMenu(key, menu));
            && d == Some(MenuUpdated(key, menu))
            && key in ViewOf(t').menus && ViewOf(t').menus[key] == menu
  {
    hide WellFormed, ViewOf, ItemOk;
    ViewAt(Apply(t, UpdateMenu(key, menu)).0, key);
  }

  /** In any run, fetching such a layout for an item the owner shows publishes its tree as the next
      change. */
  lemma ConvertedMenuIsLogged(steps: seq<Step>, key: ItemKey, layout: Value, revision: uint32, size: nat)
    requires Acceptable(layout) && Shown(Run(steps).table, key)
    ensures var menu := MenuOf(layout, revision);
            Run(steps + [Owner(UpdateMenu(key, menu), size)]).log == Run(steps).log + [MenuUpdated(key, menu)]
  {
    hide ViewOf, TableOk, WellFormed, Of, ConvertTree, Convertible, Apply;
    var command := UpdateMenu(key, MenuOf(layout, revision));
    ConvertedMenuIsAcceptedExactly(layout, revision);
    HistoryRun(steps);
    HistoryEnds(Run(steps));
    AcceptedMenuIsPublished(Run(steps).table, key, command.menu);
    assert (steps + [Owner(command, size)])[..|steps|] == steps;
  }

  /** From the bus to the presenter: whatever happens next, a presenter attached before the fetch that has
      read that change, and none later about that menu or key, holds exactly the tree of the layout. */
  lemma ConvertedMenuReachesClients(
    steps: seq<Step>, key: ItemKey, layout: Value, revision: uint32, size: nat, more: seq<Step>, id: nat, n: nat)
    requires Acceptable(layout) && Shown(Run(steps).table, key)
    requires var y := Run(steps + [Owner(UpdateMenu(key, MenuOf(layout, revision)), size)] + more);
             && |y.log| <= U64_MAX && id in y.sessions && 2 <= n <= |y.sessions[id].wire|
             && y.sessions[id].phase.Running? && y.sessions[id].phase.base <= |Run(steps).log|
             && var sequence := Replay(y.sessions[id].wire[..n]).sequence;
                && |Run(steps).log| < sequence
                && forall i :: |Run(steps).log| < i < sequence && i < |y.log| ==> !Concerns(y.log[i], key)
    ensures var y := Run(steps + [Owner(UpdateMenu(key, MenuOf(layout, revision)), size)] + more);
            var c := Replay(y.sessions[id].wire[..n]);
            key in c.view.menus && c.view.menus[key] == MenuOf(layout, revision)
  {
    hide Run, Replay, MenuOf, Convertible, Of, Concerns;
    var menu := MenuOf(layout, revision);
    var fetched := steps + [Owner(UpdateMenu(key, menu), size)];
    ConvertedMenuIsLogged(steps, key, layout, revision, size);
    assert (fetched + more)[..|fetched|] == fetched;
    HistoryOfPrefix(fetched + more, |fetched|);
    assert Run(fetched + more).log[|Run(steps).log|] == MenuUpdated(key, menu);
    MenuReachesClient(fetched + more, id, n, |Run(steps).log|, key, menu);
  }

  /** A normalized item for a live key whose identity and menu path fit is always publishable, with or
      without the offer to close it: the owner ends up showing it, and stays silent only if it did. */
  lemma NormalizedItemIsPublished(t: Table, key: ItemKey, props: Properties, closeSupported: bool)
    requires TableOk(t) && KeyOk(key) && Current(t, key)
    requires IdentityFits(key, props)
    ensures var item := Normalized(key, props).(closeSupported := closeSupported);
            var (t', d) := Apply(t, Update(key, item));
            && key in ViewOf(t').items && ViewOf(t').items[key] == item
            && (d.None? <==> key in ViewOf(t).items && ViewOf(t).items[key] == item)
  {
    hide TableOk, Current, Normalized, ViewOf, ItemOk, KeyOk, TextProperty, PathProperty, Apply;
    NormalizedIsValid(key, props);
    NormalizedKey(key, props);
    ClosingIsFree(Normalized(key, props), closeSupported);
    ValidItemIsPublished(t, key, Normalized(key, props).(closeSupported := closeSupported));
  }

  lemma ValidItemIsPublished(t: Table, key: ItemKey, item: Item)
    requires TableOk(t) && Current(t, key) && ItemOk(item) && item.key == key
    ensures var (t', d) := Apply(t, Update(key, item));
            && key in ViewOf(t').items && ViewOf(t').items[key] == item
            && (d.None? <==> key in ViewOf(t).items && ViewOf(t).items[key] == item)
  {
    hide ViewOf, ItemOk, WellFormed, NoRepeats;
    assert item.(key := key) == item;
    assert EntryOk(AddressOf(key), t.items[AddressOf(key)]);
    ViewAt(t, key);
    ViewAt(Apply(t, Update(key, item)).0, key);
  }

  /** The same in any run: the owner shows the item afterwards, and the log has grown by its addition,
      by its change or, if it was shown already, not at all. */
  lemma NormalizedItemIsLogged(
    steps: seq<Step>, key: ItemKey, props: Properties, closeSupported: bool, size: nat)
    requires KeyOk(key) && Current(Run(steps).table, key) && IdentityFits(key, props)
    ensures var item := Normalized(key, props).(closeSupported := closeSupported);
            var y, z := Run(steps), Run(steps + [Owner(Update(key, item), size)]);
            var shown := ViewOf(y.table).items;
            && key in ViewOf(z.table).items && ViewOf(z.table).items[key] == item
            && z.log == y.log + if key !in shown then [ItemAdded(item)]
                                else if shown[key] != item then [ItemChanged(item)] else []
  {
    hide ViewOf, TableOk, HistoryOk, Current, Normalized, IdentityFits, KeyOk, Apply, Next;
    var item := Normalized(key, props).(closeSupported := closeSupported);
    var step := Owner(Update(key, item), size);
    var y := Run(steps);
    assert (steps + [step])[..|steps|] == steps;
    HistoryRun(steps);
    HistoryEnds(y);
    StepPlays(y, step);
    NormalizedItemIsPublished(y.table, key, props, closeSupported);
    NormalizedKey(key, props);
    UpdatePublishes(y.table, key, item);
  }

  lemma UpdatePublishes(t: Table, key: ItemKey, item: Item)
    requires TableOk(t) && item.key == key
    ensures var d := Apply(t, Update(key, item)).1;
            d.Some? ==> d.value == if key in ViewOf(t).items then ItemChanged(item) else ItemAdded(item)
  {
    hide ViewOf, ItemOk, WellFormed, NoRepeats;
    assert item.(key := key) == item;
    ViewAt(t, key);
    if Current(t, key) {
      assert EntryOk(AddressOf(key), t.items[AddressOf(key)]);
    }
  }

  /** From the property map to the presenter: whatever happens next, any presenter that has read that
      far, by snapshot or by changes, and no later change about the key, holds exactly the item. */
  lemma NormalizedItemReachesClients(
    steps: seq<Step>, key: ItemKey, props: Properties, closeSupported: bool, size: nat, more: seq<Step>,
    id: nat, n: nat)
    requires KeyOk(key) && Current(Run(steps).table, key) && IdentityFits(key, props)
    requires var update := Owner(Update(key, Normalized(key, props).(closeSupported := closeSupported)), size);
             var y, at := Run(steps + [update] + more), |Run(steps + [update]).log|;
             && |y.log| <= U64_MAX && Legible(y, Glimpse(id, n))
             && var sequence := Read(y, Glimpse(id, n)).sequence;
                && at <= sequence
                && forall i :: at <= i < sequence && i < |y.log| ==> !ConcernsItem(y.log[i], key)
    ensures var item := Normalized(key, props).(closeSupported := closeSupported);
            var c := Read(Run(steps + [Owner(Update(key, item), size)] + more), Glimpse(id, n));
            key in c.view.items && c.view.items[key] == item
  {
    hide Run, Replay, Normalized, Current, KeyOk, IdentityFits, ConcernsItem, ViewOf, TableOk;
    var item := Normalized(key, props).(closeSupported := closeSupported);
    var told := steps + [Owner(Update(key, item), size)];
    NormalizedItemIsLogged(steps, key, props, closeSupported, size);
    assert (told + more)[..|told|] == told;
    HistoryOfPrefix(told + more, |told|);
    HistoryRun(told);
    HistoryEnds(Run(told));
    ItemReachesClient(told + more, id, n, |Run(told).log|, key, item);
  }

  // One registry, the owner and the presenters.

  /** When the owner hears of generations only from one registry, in whatever order and however late,
      among any other commands, no presenter sees a retired generation come back; when it hears of them
      in order, the generations that presenters see added at one address rise. */
  lemma RegistryAndPresenters(
    calls: seq<Registry.Step>, steps: seq<Step>, first: Glimpse, second: Glimpse, third: Glimpse, key: ItemKey)
    requires var issued := Registry.Issued(Registry.Run(calls).notes);
             |issued| <= U64_MAX && multiset(Adds(Commands(steps))) <= multiset(issued)
    ensures LivesOnce(Run(steps).log)
    ensures Adds(Commands(steps)) <= Registry.Issued(Registry.Run(calls).notes) ==> GenerationsRise(Run(steps).log)
    ensures var y := Run(steps);
            && |y.log| <= U64_MAX
            && Legible(y, first) && Legible(y, second) && Legible(y, third)
            && Read(y, first).sequence <= Read(y, second).sequence <= Read(y, third).sequence
            && key in Read(y, first).view.items && key !in Read(y, second).view.items
            ==> key !in Read(y, third).view.items
  {
    hide Run, Replay, Commands, Adds, Registry.Run, Registry.Issued, Registry.Alternating, Registry.BookOk;
    hide LivesOnce, GenerationsRise, OnceEach, Legible, Read;
    Registry.IssuedKeys(calls);
    FewerOnceEach(Adds(Commands(steps)), Registry.Issued(Registry.Run(calls).notes));
    PublishedKeysLiveOnce(steps);
    var y := Run(steps);
    if && |y.log| <= U64_MAX
       && Legible(y, first) && Legible(y, second) && Legible(y, third)
       && Read(y, first).sequence <= Read(y, second).sequence <= Read(y, third).sequence
       && key in Read(y, first).view.items && key !in Read(y, second).view.items
    {
      RetiredIsNeverShownAgain(steps, first, second, third, key);
    }
  }

  lemma ClosingIsFree(item: Item, closeSupported: bool)
    ensures ItemOk(item.(closeSupported := closeSupported)) <==> ItemOk(item)
  {
  }

  lemma NormalizedKey(key: ItemKey, props: Properties)
    ensures Normalized(key, props).key == key
  {
    hide IconOf, TooltipOf, IdOf, Category, Status, TextProperty, PathProperty;
  }
}
