/** internal/item/model.go and internal/item/pixmap.go: raw properties into a bounded item. */
module ItemModel {
  import opened Utf8
  import opened Wrappers
  import opened Protocol
  import opened DBusValue

  type Properties = map<string, Value>

  function TextProperty(props: Properties, name: string, limit: nat): Text {
    if name in props && props[name].StringValue? then Clamped(props[name].text, limit) else []
  }

  predicate PathByte(b: byte) {
    0x41 <= b <= 0x5A || 0x61 <= b <= 0x7A || 0x30 <= b <= 0x39 || b == 0x5F || b == 0x2F
  }

  /** The object path syntax of the D-Bus specification. */
  predicate ObjectPathOk(path: Text) {
    && path != [] && path[0] == 0x2F
    && (forall i :: 0 <= i < |path| ==> PathByte(path[i]))
    && (forall i :: 1 <= i < |path| ==> path[i] == 0x2F ==> path[i - 1] != 0x2F)
    && (|path| > 1 ==> path[|path| - 1] != 0x2F)
  }

  function PathProperty(props: Properties, name: string): Text {
    if name in props && (props[name].PathValue? || props[name].StringValue?) && ObjectPathOk(props[name].text)
    then props[name].text else []
  }

  function Category(props: Properties): Text {
    var value := TextProperty(props, "Category", MAX_TEXT_BYTES);
    if CategoryOk(value) then value else Ascii("ApplicationStatus")
  }

  function Status(props: Properties): Text {
    var value := TextProperty(props, "Status", MAX_TEXT_BYTES);
    if StatusOk(value) then value else Ascii("Active")
  }

  /** One pixmap candidate, or None if its shape, dimensions or data length are wrong. */
  function Candidate(v: Value): (r: Option<Pixmap>)
    ensures r.Some? ==> PixmapOk(r.value)
  {
    var fields := Tuple(v, 3);
    if fields.None? then None
    else
      var width, height, data := IntOf(fields.value[0]), IntOf(fields.value[1]), BytesOf(fields.value[2]);
      if width.None? || height.None? || data.None? then None
      else if width.value <= 0 || height.value <= 0 then None
      else if width.value > MAX_PIXMAP_DIMENSION || height.value > MAX_PIXMAP_DIMENSION then None
      else if width.value * height.value * 4 != |data.value| then None
      else
        PixelsBounded(width.value, height.value);
        Some(Pixmap(width.value, height.value, data.value))
  }

  lemma PixelsBounded(w: int, h: int)
    requires 0 < w <= MAX_PIXMAP_DIMENSION && 0 < h <= MAX_PIXMAP_DIMENSION
    ensures w * h * 4 <= MAX_PIXMAP_BYTES_PER_ITEM
  {
    var spare := MAX_PIXMAP_DIMENSION - w;
    assert 0 <= spare * h;
    assert w * h + spare * h == (w + spare) * h == MAX_PIXMAP_DIMENSION * h;
  }

  /** The greedy selection: in order, each well-formed candidate that still fits the budget. */
  function Greedy(candidates: seq<Value>, budget: nat): (r: seq<Pixmap>)
    ensures Bytes(r) <= budget && PixmapsOk(r)
  {
    if candidates == [] then []
    else
      var kept := Greedy(candidates[..|candidates| - 1], budget);
      var next := Candidate(candidates[|candidates| - 1]);
      if next.None? || Bytes(kept) + |next.value.argb| > budget then kept
      else
        BytesAppend(kept, next.value);
        kept + [next.value]
  }

  function Decoded(v: Value, budget: nat): (r: seq<Pixmap>)
    ensures Bytes(r) <= budget && PixmapsOk(r)
  {
    var elements := Elements(v);
    if elements.None? then [] else Greedy(elements.value, budget)
  }

  /** Greedy means in order and final: a candidate is judged only against what was kept before it,
      and what was kept stays kept. */
  lemma {:induction false} GreedyIsInOrder(candidates: seq<Value>, budget: nat, i: nat)
    requires i < |candidates|
    ensures var before, c := Greedy(candidates[..i], budget), Candidate(candidates[i]);
            var after := Greedy(candidates[..i + 1], budget);
            && after <= Greedy(candidates, budget)
            && after == if c.Some? && Bytes(before) + |c.value.argb| <= budget then before + [c.value] else before
    decreases |candidates|
  {
    hide Candidate;
    if i == |candidates| - 1 {
      assert candidates[..i + 1] == candidates;
    } else {
      var front := candidates[..|candidates| - 1];
      GreedyIsInOrder(front, budget, i);
      assert front[..i] == candidates[..i] && front[..i + 1] == candidates[..i + 1];
    }
  }

  method DecodePixmaps(v: Value, budget: nat) returns (pixmaps: seq<Pixmap>)
    ensures pixmaps == Decoded(v, budget)
  {
    hide Candidate;
    var elements := Elements(v);
    if elements.None? {
      return [];
    }
    pixmaps := [];
    var total := 0;
    for i := 0 to |elements.value|
      invariant pixmaps == Greedy(elements.value[..i], budget) && total == Bytes(pixmaps)
    {
      assert elements.value[..i + 1][..i] == elements.value[..i];
      var candidate := Candidate(elements.value[i]);
      if candidate.Some? && total + |candidate.value.argb| <= budget {
        BytesAppend(pixmaps, candidate.value);
        total := total + |candidate.value.argb|;
        pixmaps := pixmaps + [candidate.value];
      }
    }
    assert elements.value[..|elements.value|] == elements.value;
  }

  /** The three icons of an item, by the properties they are read from. */
  datatype Role = MainIcon | AttentionIcon | OverlayIcon

  function NameKey(role: Role): string {
    match role
    case MainIcon => "IconName"
    case AttentionIcon => "AttentionIconName"
    case OverlayIcon => "OverlayIconName"
  }

  function PixmapKey(role: Role): string {
    match role
    case MainIcon => "IconPixmap"
    case AttentionIcon => "AttentionIconPixmap"
    case OverlayIcon => "OverlayIconPixmap"
  }

  function IconOf(props: Properties, role: Role, budget: nat): (r: Icon)
    ensures Bytes(r.pixmaps) <= budget && IconOk(r)
  {
    ClampedPropertyOk(props, NameKey(role), MAX_TEXT_BYTES);
    ClampedPropertyOk(props, "IconThemePath", MAX_TEXT_BYTES);
    Icon(TextProperty(props, NameKey(role), MAX_TEXT_BYTES),
         TextProperty(props, "IconThemePath", MAX_TEXT_BYTES),
         if PixmapKey(role) in props then Decoded(props[PixmapKey(role)], budget) else [])
  }

  lemma ClampedPropertyOk(props: Properties, name: string, limit: nat)
    ensures TextOk(TextProperty(props, name, limit), limit, true)
  {
    if name in props && props[name].StringValue? {
      ClampedIsBest(props[name].text, limit);
    }
  }

  const NO_TOOLTIP := Tooltip([], [], [], [])

  function TooltipOf(props: Properties, budget: nat): (r: Tooltip)
    ensures Bytes(r.pixmaps) <= budget && TooltipOk(r)
  {
    if "ToolTip" !in props then NO_TOOLTIP
    else
      var fields := Tuple(props["ToolTip"], 4);
      if fields.None? then NO_TOOLTIP
      else
        var f := fields.value;
        ClampedIsBest(StringOf(f[0]), MAX_TEXT_BYTES);
        ClampedIsBest(StringOf(f[2]), MAX_TOOLTIP_BYTES);
        ClampedIsBest(StringOf(f[3]), MAX_TOOLTIP_BYTES);
        Tooltip(Clamped(StringOf(f[0]), MAX_TEXT_BYTES), Decoded(f[1], budget),
                Clamped(StringOf(f[2]), MAX_TOOLTIP_BYTES), Clamped(StringOf(f[3]), MAX_TOOLTIP_BYTES))
  }

  function IdOf(key: ItemKey, props: Properties): Text {
    var id := TextProperty(props, "Id", MAX_TEXT_BYTES);
    if id == [] then key.owner + key.objectPath else id
  }

  datatype Pictures = Pictures(icon: Icon, attention: Icon, overlay: Icon, tooltip: Tooltip)

  /** The icons and the tooltip, one budget serving all four pixmap sets in turn. */
  function PicturesOf(props: Properties): (r: Pictures)
    ensures IconOk(r.icon) && IconOk(r.attention) && IconOk(r.overlay) && TooltipOk(r.tooltip)
    ensures Bytes(r.icon.pixmaps) + Bytes(r.attention.pixmaps) + Bytes(r.overlay.pixmaps) + Bytes(r.tooltip.pixmaps)
            <= MAX_PIXMAP_BYTES_PER_ITEM
  {
    var icon := IconOf(props, MainIcon, MAX_PIXMAP_BYTES_PER_ITEM);
    var left1 := MAX_PIXMAP_BYTES_PER_ITEM - Bytes(icon.pixmaps);
    var attention := IconOf(props, AttentionIcon, left1);
    var left2 := left1 - Bytes(attention.pixmaps);
    var overlay := IconOf(props, OverlayIcon, left2);
    var left3 := left2 - Bytes(overlay.pixmaps);
    Pictures(icon, attention, overlay, TooltipOf(props, left3))
  }

  /** The item a property map describes. */
  function Normalized(key: ItemKey, props: Properties): Item {
    var pictures := PicturesOf(props);
    Item(key, IdOf(key, props), TextProperty(props, "Title", MAX_TEXT_BYTES), Category(props), Status(props),
         pictures.icon, pictures.attention, pictures.overlay, pictures.tooltip,
         PathProperty(props, "Menu"), "ItemIsMenu" in props && props["ItemIsMenu"] == BoolValue(true), false)
  }

  /** Decrementing the shared budget by what a set used. */
  method Spend(budget: nat, pixmaps: seq<Pixmap>) returns (left: nat)
    requires Bytes(pixmaps) <= budget
    ensures left == budget - Bytes(pixmaps)
  {
    var spent := 0;
    for i := 0 to |pixmaps|
      invariant spent == Bytes(pixmaps[..i])
    {
      assert pixmaps[..i + 1] == pixmaps[..i] + [pixmaps[i]];
      BytesAppend(pixmaps[..i], pixmaps[i]);
      spent := spent + |pixmaps[i].argb|;
    }
    assert pixmaps[..|pixmaps|] == pixmaps;
    left := budget - spent;
  }

  method ReadIcon(props: Properties, role: Role, budget: nat) returns (icon: Icon, left: nat)
    ensures icon == IconOf(props, role, budget) && left == budget - Bytes(icon.pixmaps)
  {
    hide Decoded;
    var name := TextProperty(props, NameKey(role), MAX_TEXT_BYTES);
    icon := Icon(name, TextProperty(props, "IconThemePath", MAX_TEXT_BYTES), []);
    left := budget;
    if PixmapKey(role) in props {
      var pixmaps := DecodePixmaps(props[PixmapKey(role)], budget);
      icon := icon.(pixmaps := pixmaps);
      left := Spend(budget, pixmaps);
    }
  }

  method ReadTooltip(props: Properties, budget: nat) returns (tooltip: Tooltip, left: nat)
    ensures tooltip == TooltipOf(props, budget) && left == budget - Bytes(tooltip.pixmaps)
  {
    hide Decoded;
    tooltip, left := NO_TOOLTIP, budget;
    if "ToolTip" in props {
      var fields := Tuple(props["ToolTip"], 4);
      if fields.Some? {
        var f := fields.value;
        var pixmaps := DecodePixmaps(f[1], budget);
        tooltip := Tooltip(Clamped(StringOf(f[0]), MAX_TEXT_BYTES), pixmaps,
                           Clamped(StringOf(f[2]), MAX_TOOLTIP_BYTES), Clamped(StringOf(f[3]), MAX_TOOLTIP_BYTES));
        left := Spend(budget, pixmaps);
      }
    }
  }

  method Normalize(key: ItemKey, props: Properties) returns (item: Item)
    ensures item == Normalized(key, props)
  {
    hide IconOf, TooltipOf, IdOf, Category, Status, TextProperty, PathProperty, Bytes;
    var icon, left1 := ReadIcon(props, MainIcon, MAX_PIXMAP_BYTES_PER_ITEM);
    var attention, left2 := ReadIcon(props, AttentionIcon, left1);
    var overlay, left3 := ReadIcon(props, OverlayIcon, left2);
    var tooltip, _ := ReadTooltip(props, left3);
    item := Item(key, IdOf(key, props), TextProperty(props, "Title", MAX_TEXT_BYTES), Category(props), Status(props),
                 icon, attention, overlay, tooltip,
                 PathProperty(props, "Menu"), "ItemIsMenu" in props && props["ItemIsMenu"] == BoolValue(true), false);
  }

  /** The identity given, or else the owner and path that stand in for it, and the menu path fit. */
  predicate IdentityFits(key: ItemKey, props: Properties) {
    && (TextProperty(props, "Id", MAX_TEXT_BYTES) != [] || |key.owner| + |key.objectPath| <= MAX_TEXT_BYTES)
    && |PathProperty(props, "Menu")| <= MAX_TEXT_BYTES
  }

  /** A normalized item is valid, whatever the application sent, except exactly when the fallback
      identity or the menu path is longer than the text bound. */
  lemma NormalizedIsValid(key: ItemKey, props: Properties)
    requires KeyOk(key)
    ensures ItemOk(Normalized(key, props)) <==> IdentityFits(key, props)
  {
    hide PicturesOf, IconOk, TooltipOk, TextProperty, PathProperty, CategoryOk, StatusOk, KeyOk;
    IdFits(key, props);
    ClampedPropertyOk(props, "Title", MAX_TEXT_BYTES);
    VocabularyOk(props);
    PathFits(props, "Menu");
  }

  lemma IdFits(key: ItemKey, props: Properties)
    requires KeyOk(key)
    ensures TextOk(IdOf(key, props), MAX_TEXT_BYTES, false) <==>
            TextProperty(props, "Id", MAX_TEXT_BYTES) != [] || |key.owner| + |key.objectPath| <= MAX_TEXT_BYTES
  {
    ClampedPropertyOk(props, "Id", MAX_TEXT_BYTES);
    ConcatValid(key.owner, key.objectPath);
  }

  lemma VocabularyOk(props: Properties)
    ensures CategoryOk(Category(props)) && StatusOk(Status(props))
  {
  }

  lemma PathFits(props: Properties, name: string)
    ensures var path := PathProperty(props, name);
            path != [] ==> Ascii("/") <= path && (TextOk(path, MAX_TEXT_BYTES, false) <==> |path| <= MAX_TEXT_BYTES)
  {
    var path := PathProperty(props, name);
    if path != [] {
      AsciiIsValid(path);
      assert Ascii("/") == [0x2F];
    }
  }
}
