/** The wire types of protocol/types.go and the item half of protocol/validate.go. */
module Protocol {
  import opened Utf8

  const U64_MAX: nat := 0xFFFF_FFFF_FFFF_FFFF
  const MAX_ITEMS: nat := 128
  const MAX_TEXT_BYTES: nat := 4096
  const MAX_TOOLTIP_BYTES: nat := 2048
  const MAX_PIXMAP_DIMENSION: nat := 512
  const MAX_PIXMAP_BYTES_PER_ITEM: nat := 0x20_0000
  const MAX_PIXMAP_BYTES_AGGREGATE: nat := 0x80_0000

  type uint32 = x: int | 0 <= x <= 0xFFFF_FFFF
  type uint64 = x: int | 0 <= x <= U64_MAX
  type int32 = x: int | -0x8000_0000 <= x <= 0x7FFF_FFFF

  /** The service sequence and the generations are unsigned 64-bit counters. */
  function Bump(counter: uint64): uint64 {
    if counter == U64_MAX then 0 else counter + 1
  }

  datatype ItemKey = ItemKey(owner: Text, objectPath: Text, generation: uint64)
  datatype Pixmap = Pixmap(width: uint32, height: uint32, argb: seq<byte>)
  datatype Icon = Icon(name: Text, themePath: Text, pixmaps: seq<Pixmap>)
  datatype Tooltip = Tooltip(iconName: Text, pixmaps: seq<Pixmap>, title: Text, description: Text)
  datatype Item = Item(
    key: ItemKey, id: Text, title: Text, category: Text, status: Text,
    icon: Icon, attentionIcon: Icon, overlayIcon: Icon, tooltip: Tooltip,
    menuPath: Text, itemIsMenu: bool, closeSupported: bool)

  predicate TextOk(value: Text, limit: nat, emptyOk: bool) {
    Valid(value) && (emptyOk || value != []) && |value| <= limit
  }

  predicate KeyOk(key: ItemKey) {
    && TextOk(key.owner, MAX_TEXT_BYTES, false)
    && Ascii(":") <= key.owner && |key.owner| >= 2
    && TextOk(key.objectPath, MAX_TEXT_BYTES, false)
    && Ascii("/") <= key.objectPath
    && key.generation != 0
  }

  predicate PixmapOk(p: Pixmap) {
    && 0 < p.width <= MAX_PIXMAP_DIMENSION && 0 < p.height <= MAX_PIXMAP_DIMENSION
    && |p.argb| == p.width * p.height * 4
    && |p.argb| <= MAX_PIXMAP_BYTES_PER_ITEM
  }

  predicate PixmapsOk(ps: seq<Pixmap>) {
    forall i :: 0 <= i < |ps| ==> PixmapOk(ps[i])
  }

  predicate IconOk(icon: Icon) {
    TextOk(icon.name, MAX_TEXT_BYTES, true) && TextOk(icon.themePath, MAX_TEXT_BYTES, true) && PixmapsOk(icon.pixmaps)
  }

  predicate TooltipOk(t: Tooltip) {
    && TextOk(t.iconName, MAX_TEXT_BYTES, true)
    && TextOk(t.title, MAX_TOOLTIP_BYTES, true)
    && TextOk(t.description, MAX_TOOLTIP_BYTES, true)
    && PixmapsOk(t.pixmaps)
  }

  predicate CategoryOk(c: Text) {
    || c == Ascii("ApplicationStatus") || c == Ascii("Communications")
    || c == Ascii("SystemServices") || c == Ascii("Hardware")
  }

  predicate StatusOk(s: Text) {
    s == Ascii("Passive") || s == Ascii("Active") || s == Ascii("NeedsAttention")
  }

  function Bytes(ps: seq<Pixmap>): nat {
    if ps == [] then 0 else |ps[0].argb| + Bytes(ps[1..])
  }

  function Pixmaps(item: Item): seq<seq<Pixmap>> {
    [item.icon.pixmaps, item.attentionIcon.pixmaps, item.overlayIcon.pixmaps, item.tooltip.pixmaps]
  }

  function ItemBytes(item: Item): nat {
    Bytes(item.icon.pixmaps) + Bytes(item.attentionIcon.pixmaps)
    + Bytes(item.overlayIcon.pixmaps) + Bytes(item.tooltip.pixmaps)
  }

  predicate ItemOk(item: Item) {
    && KeyOk(item.key)
    && TextOk(item.id, MAX_TEXT_BYTES, false)
    && TextOk(item.title, MAX_TEXT_BYTES, true)
    && CategoryOk(item.category) && StatusOk(item.status)
    && IconOk(item.icon) && IconOk(item.attentionIcon) && IconOk(item.overlayIcon)
    && TooltipOk(item.tooltip)
    && (item.menuPath != [] ==> TextOk(item.menuPath, MAX_TEXT_BYTES, false) && Ascii("/") <= item.menuPath)
    && ItemBytes(item) <= MAX_PIXMAP_BYTES_PER_ITEM
  }

  function SnapshotBytes(items: seq<Item>): nat {
    if items == [] then 0 else SnapshotBytes(items[..|items| - 1]) + ItemBytes(items[|items| - 1])
  }

  predicate DistinctKeys(items: seq<Item>) {
    forall i, j :: 0 <= i < j < |items| ==> items[i].key != items[j].key
  }

  predicate SnapshotOk(items: seq<Item>) {
    && |items| <= MAX_ITEMS
    && (forall i :: 0 <= i < |items| ==> ItemOk(items[i]))
    && DistinctKeys(items)
    && SnapshotBytes(items) <= MAX_PIXMAP_BYTES_AGGREGATE
  }

  lemma {:induction false} BytesAppend(ps: seq<Pixmap>, p: Pixmap)
    ensures Bytes(ps + [p]) == Bytes(ps) + |p.argb|
  {
    if ps == [] {
      assert [] + [p] == [p];
    } else {
      BytesAppend(ps[1..], p);
      assert (ps + [p])[1..] == ps[1..] + [p];
    }
  }

  lemma {:induction false} SnapshotBytesMonotone(items: seq<Item>, k: nat)
    requires k <= |items|
    ensures SnapshotBytes(items[..k]) <= SnapshotBytes(items)
    decreases |items|
  {
    if k == |items| {
      assert items[..k] == items;
    } else {
      SnapshotBytesMonotone(items[..|items| - 1], k);
      assert items[..|items| - 1][..k] == items[..k];
    }
  }

  lemma ItemOkPixmaps(item: Item)
    requires ItemOk(item)
    ensures forall s :: 0 <= s < 4 ==> PixmapsOk(Pixmaps(item)[s])
  {
  }

  /** Sums an item's pixmaps, refusing a malformed one. */
  method PixmapBytes(item: Item) returns (ok: bool, total: nat)
    ensures ok <==> forall s :: 0 <= s < 4 ==> PixmapsOk(Pixmaps(item)[s])
    ensures ok ==> total == ItemBytes(item)
  {
    hide PixmapOk;
    total := 0;
    var sets := Pixmaps(item);
    for s := 0 to |sets|
      invariant forall r :: 0 <= r < s ==> PixmapsOk(sets[r])
      invariant total == (if s > 0 then Bytes(sets[0]) else 0) + (if s > 1 then Bytes(sets[1]) else 0)
                         + (if s > 2 then Bytes(sets[2]) else 0) + (if s > 3 then Bytes(sets[3]) else 0)
    {
      ghost var before := total;
      for i := 0 to |sets[s]|
        invariant PixmapsOk(sets[s][..i]) && total == before + Bytes(sets[s][..i])
      {
        var p := sets[s][i];
        assert sets[s][..i + 1] == sets[s][..i] + [p];
        if !PixmapOk(p) {
          return false, 0;
        }
        BytesAppend(sets[s][..i], p);
        total := total + |p.argb|;
      }
      assert sets[s][..|sets[s]|] == sets[s];
    }
    ok := true;
  }

  lemma SnapshotExtends(items: seq<Item>, item: Item)
    requires |items| < MAX_ITEMS
    ensures SnapshotOk(items + [item]) <==>
            && SnapshotOk(items) && ItemOk(item)
            && (forall j :: 0 <= j < |items| ==> items[j].key != item.key)
            && SnapshotBytes(items) + ItemBytes(item) <= MAX_PIXMAP_BYTES_AGGREGATE
  {
    hide ItemOk;
    hide ItemBytes;
    var all := items + [item];
    assert all[..|items|] == items;
    assert forall j :: 0 <= j < |items| ==> all[j] == items[j];
    assert all[|items|] == item;
  }

  lemma {:induction false} SnapshotPrefix(items: seq<Item>, k: nat)
    requires k <= |items| && SnapshotOk(items)
    ensures SnapshotOk(items[..k])
  {
    SnapshotBytesMonotone(items, k);
  }

  /** Checks a whole snapshot in one pass, stopping as soon as the aggregate runs over. */
  method ValidateSnapshot(items: seq<Item>) returns (ok: bool)
    ensures ok <==> SnapshotOk(items)
  {
    hide ItemOk;
    hide ItemBytes;
    if |items| > MAX_ITEMS {
      return false;
    }
    var seen: set<ItemKey> := {};
    var aggregate := 0;
    for i := 0 to |items|
      invariant seen == set j | 0 <= j < i :: items[j].key
      invariant SnapshotOk(items[..i]) && aggregate == SnapshotBytes(items[..i])
    {
      assert items[..i + 1] == items[..i] + [items[i]];
      SnapshotExtends(items[..i], items[i]);
      assert forall j :: 0 <= j < i ==> items[..i][j] == items[j];
      if !ItemOk(items[i]) || items[i].key in seen {
        RefusedEarly(items, i + 1);
        return false;
      }
      seen := seen + {items[i].key};
      ItemOkPixmaps(items[i]);
      var _, bytes := PixmapBytes(items[i]);
      aggregate := aggregate + bytes;
      if aggregate > MAX_PIXMAP_BYTES_AGGREGATE {
        RefusedEarly(items, i + 1);
        return false;
      }
    }
    assert items[..|items|] == items;
    ok := true;
  }

  lemma RefusedEarly(items: seq<Item>, k: nat)
    requires k <= |items| && !SnapshotOk(items[..k])
    ensures !SnapshotOk(items)
  {
    if SnapshotOk(items) {
      SnapshotPrefix(items, k);
    }
  }
}
