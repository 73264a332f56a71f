/** What travels to a presenter, and the client that applies it. A view is the published state a
    presenter is meant to mirror: the items by key, and the menus of some of them. */
module Messages {
  import opened Utf8
  import opened Protocol
  import opened MenuTree

  datatype Delta =
    | ItemAdded(item: Item)
    | ItemChanged(item: Item)
    | ItemRemoved(key: ItemKey)
    | MenuUpdated(key: ItemKey, menu: Menu)

  datatype Frame =
    | HelloFrame
    | SnapshotFrame(sequence: nat, items: seq<Item>)
    | StateFrame(sequence: nat, delta: Delta)
    | ReplyFrame(requestID: nat, payload: Text)

  datatype View = View(items: map<ItemKey, Item>, menus: map<ItemKey, Menu>)

  const EMPTY_VIEW := View(map[], map[])

  function After(v: View, d: Delta): View {
    match d
    case ItemAdded(item) => v.(items := v.items[item.key := item])
    case ItemChanged(item) => v.(items := v.items[item.key := item])
    case ItemRemoved(key) => View(v.items - {key}, v.menus - {key})
    case MenuUpdated(key, menu) => v.(menus := v.menus[key := menu])
  }

  /** What a client may rely on: nothing is added twice, changed without difference, or addressed
      after it is gone. */
  predicate Legal(v: View, d: Delta) {
    match d
    case ItemAdded(item) => item.key !in v.items && item.key !in v.menus
    case ItemChanged(item) => item.key in v.items && v.items[item.key] != item
    case ItemRemoved(key) => key in v.items
    case MenuUpdated(key, _) => key in v.items
  }

  /** At most one live generation of each owner and object path. */
  predicate OneGeneration(v: View) {
    forall k, k' :: k in v.items && k' in v.items && k.owner == k'.owner && k.objectPath == k'.objectPath ==> k == k'
  }

  function ByKey(items: seq<Item>): map<ItemKey, Item> {
    if items == [] then map[] else ByKey(items[..|items| - 1])[items[|items| - 1].key := items[|items| - 1]]
  }

  datatype Client = Client(view: View, sequence: nat)

  const NEW_CLIENT := Client(EMPTY_VIEW, 0)

  function Applied(c: Client, f: Frame): Client {
    match f
    case HelloFrame => c
    case SnapshotFrame(sequence, items) => Client(View(ByKey(items), map[]), sequence)
    case StateFrame(sequence, delta) => Client(After(c.view, delta), sequence)
    case ReplyFrame(_, _) => c
  }

  function Replay(frames: seq<Frame>): Client {
    if frames == [] then NEW_CLIENT else Applied(Replay(frames[..|frames| - 1]), frames[|frames| - 1])
  }

  function States(frames: seq<Frame>): seq<Frame> {
    if frames == [] then []
    else States(frames[..|frames| - 1]) + if frames[|frames| - 1].StateFrame? then [frames[|frames| - 1]] else []
  }

  function Replies(frames: seq<Frame>): seq<nat> {
    if frames == [] then []
    else
      var front, last := frames[..|frames| - 1], frames[|frames| - 1];
      Replies(front) + if last.ReplyFrame? then [last.requestID] else []
  }

  lemma FiltersSnoc(frames: seq<Frame>, f: Frame)
    ensures States(frames + [f]) == States(frames) + if f.StateFrame? then [f] else []
    ensures Replies(frames + [f]) == Replies(frames) + if f.ReplyFrame? then [f.requestID] else []
  {
    assert (frames + [f])[..|frames|] == frames;
  }

  lemma {:induction false} FiltersOfPrefix(frames: seq<Frame>, n: nat)
    requires n <= |frames|
    ensures States(frames[..n]) <= States(frames) && Replies(frames[..n]) <= Replies(frames)
    decreases |frames|
  {
    if n == |frames| {
      assert frames[..n] == frames;
    } else {
      FiltersOfPrefix(frames[..|frames| - 1], n);
      assert frames[..|frames| - 1][..n] == frames[..n];
    }
  }
}
