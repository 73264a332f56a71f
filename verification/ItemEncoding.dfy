/** The properties an application exports for an item, and that reading them gives the item back. */
module ItemEncoding {
  import opened Utf8
  import opened Wrappers
  import opened Protocol
  import opened DBusValue
  import opened ItemModel

  function EncodedPixmap(p: Pixmap): Value {
    StructValue([SignedValue(p.width), SignedValue(p.height), BytesValue(p.argb)])
  }

  function EncodedPixmaps(ps: seq<Pixmap>): seq<Value> {
    seq(|ps|, i requires 0 <= i < |ps| => EncodedPixmap(ps[i]))
  }

  function EncodedTooltip(t: Tooltip): Value {
    StructValue([StringValue(t.iconName), ListValue(EncodedPixmaps(t.pixmaps)), StringValue(t.title),
                 StringValue(t.description)])
  }

  /** The StatusNotifierItem properties of an item. */
  function PropertiesOf(item: Item): Properties {
    map["Id" := StringValue(item.id),
        "Title" := StringValue(item.title),
        "Category" := StringValue(item.category),
        "Status" := StringValue(item.status),
        "IconThemePath" := StringValue(item.icon.themePath),
        "IconName" := StringValue(item.icon.name),
        "IconPixmap" := ListValue(EncodedPixmaps(item.icon.pixmaps)),
        "AttentionIconName" := StringValue(item.attentionIcon.name),
        "AttentionIconPixmap" := ListValue(EncodedPixmaps(item.attentionIcon.pixmaps)),
        "OverlayIconName" := StringValue(item.overlayIcon.name),
        "OverlayIconPixmap" := ListValue(EncodedPixmaps(item.overlayIcon.pixmaps)),
        "ToolTip" := EncodedTooltip(item.tooltip),
        "Menu" := PathValue(item.menuPath),
        "ItemIsMenu" := BoolValue(item.itemIsMenu)]
  }

  /** The items that properties can describe: one theme path for all three icons, an object path or
      nothing for the menu, and no offer to close, which is not a property. */
  predicate Exportable(item: Item) {
    && item.attentionIcon.themePath == item.icon.themePath == item.overlayIcon.themePath
    && (item.menuPath == [] || ObjectPathOk(item.menuPath))
    && !item.closeSupported
  }

  // Pixmaps.

  lemma PixmapSurvives(p: Pixmap)
    requires PixmapOk(p)
    ensures Candidate(EncodedPixmap(p)) == Some(p)
  {
    var v := EncodedPixmap(p);
    assert IndirectAll(v.fields[..3]) == v.fields;
  }

  lemma {:induction false} AllAreKept(ps: seq<Pixmap>, budget: nat)
    requires PixmapsOk(ps) && Bytes(ps) <= budget
    ensures Greedy(EncodedPixmaps(ps), budget) == ps
    decreases |ps|
  {
    hide Candidate, EncodedPixmap;
    if ps == [] {
    } else {
      var front, last := ps[..|ps| - 1], ps[|ps| - 1];
      assert ps == front + [last];
      BytesAppend(front, last);
      AllAreKept(front, budget);
      var vs := EncodedPixmaps(ps);
      assert vs[..|vs| - 1] == EncodedPixmaps(front) && vs[|vs| - 1] == EncodedPixmap(last);
      PixmapSurvives(last);
    }
  }

  lemma PixmapsSurvive(ps: seq<Pixmap>, budget: nat)
    requires PixmapsOk(ps) && Bytes(ps) <= budget
    ensures Decoded(ListValue(EncodedPixmaps(ps)), budget) == ps
  {
    hide Candidate, Greedy;
    AllAreKept(ps, budget);
    var vs := EncodedPixmaps(ps);
    assert forall i :: 0 <= i < |vs| ==> Indirect(vs[i]) == vs[i];
    assert IndirectAll(vs) == vs;
  }

  lemma TooltipSurvives(props: Properties, t: Tooltip, budget: nat)
    requires "ToolTip" in props && props["ToolTip"] == EncodedTooltip(t)
    requires TooltipOk(t) && Bytes(t.pixmaps) <= budget
    ensures TooltipOf(props, budget) == t
  {
    hide Decoded, Clamped, Valid, EncodedPixmaps, PixmapsOk;
    PixmapsSurvive(t.pixmaps, budget);
    ClampedKeeps(t.iconName, MAX_TEXT_BYTES);
    ClampedKeeps(t.title, MAX_TOOLTIP_BYTES);
    ClampedKeeps(t.description, MAX_TOOLTIP_BYTES);
    var fields := EncodedTooltip(t).fields;
    assert IndirectAll(fields[..4]) == fields;
  }

  lemma IconSurvives(props: Properties, role: Role, icon: Icon, budget: nat)
    requires Given(props, NameKey(role), StringValue(icon.name))
    requires Given(props, "IconThemePath", StringValue(icon.themePath))
    requires Given(props, PixmapKey(role), ListValue(EncodedPixmaps(icon.pixmaps)))
    requires IconOk(icon) && Bytes(icon.pixmaps) <= budget
    ensures IconOf(props, role, budget) == icon
  {
    hide Decoded, Clamped, Valid, EncodedPixmaps, PixmapsOk, NameKey, PixmapKey;
    PixmapsSurvive(icon.pixmaps, budget);
    ClampedKeeps(icon.name, MAX_TEXT_BYTES);
    ClampedKeeps(icon.themePath, MAX_TEXT_BYTES);
  }

  predicate Given(props: Properties, name: string, v: Value) {
    name in props && props[name] == v
  }

  lemma TextsGiven(item: Item)
    ensures var p := PropertiesOf(item);
            && Given(p, "Id", StringValue(item.id)) && Given(p, "Title", StringValue(item.title))
            && Given(p, "Category", StringValue(item.category)) && Given(p, "Status", StringValue(item.status))
            && Given(p, "ToolTip", EncodedTooltip(item.tooltip))
            && Given(p, "Menu", PathValue(item.menuPath)) && Given(p, "ItemIsMenu", BoolValue(item.itemIsMenu))
  {
    hide EncodedPixmaps, EncodedTooltip;
  }

  lemma IconsGiven(item: Item)
    ensures var p := PropertiesOf(item);
            && Given(p, "IconThemePath", StringValue(item.icon.themePath))
            && Given(p, "IconName", StringValue(item.icon.name))
            && Given(p, "IconPixmap", ListValue(EncodedPixmaps(item.icon.pixmaps)))
            && Given(p, "AttentionIconName", StringValue(item.attentionIcon.name))
            && Given(p, "AttentionIconPixmap", ListValue(EncodedPixmaps(item.attentionIcon.pixmaps)))
            && Given(p, "OverlayIconName", StringValue(item.overlayIcon.name))
            && Given(p, "OverlayIconPixmap", ListValue(EncodedPixmaps(item.overlayIcon.pixmaps)))
  {
    hide EncodedPixmaps, EncodedTooltip;
  }

  lemma TextsSurvive(p: Properties, item: Item)
    requires ItemOk(item)
    requires Given(p, "Id", StringValue(item.id)) && Given(p, "Title", StringValue(item.title))
    requires Given(p, "Category", StringValue(item.category)) && Given(p, "Status", StringValue(item.status))
    ensures IdOf(item.key, p) == item.id && TextProperty(p, "Title", MAX_TEXT_BYTES) == item.title
    ensures Category(p) == item.category && Status(p) == item.status
  {
    hide Clamped, Valid, IconOk, TooltipOk, KeyOk, ItemBytes, Ascii;
    ClampedKeeps(item.id, MAX_TEXT_BYTES);
    ClampedKeeps(item.title, MAX_TEXT_BYTES);
    VocabularySurvives(item.category, item.status);
  }

  lemma VocabularySurvives(category: Text, status: Text)
    ensures CategoryOk(category) ==> Clamped(category, MAX_TEXT_BYTES) == category
    ensures StatusOk(status) ==> Clamped(status, MAX_TEXT_BYTES) == status
  {
    hide Clamped, Ascii;
    WordSurvives("ApplicationStatus");
    WordSurvives("Communications");
    WordSurvives("SystemServices");
    WordSurvives("Hardware");
    WordSurvives("Passive");
    WordSurvives("Active");
    WordSurvives("NeedsAttention");
  }

  lemma WordSurvives(word: string)
    requires |word| <= MAX_TEXT_BYTES && forall i :: 0 <= i < |word| ==> word[i] as int < 0x80
    ensures Clamped(Ascii(word), MAX_TEXT_BYTES) == Ascii(word)
  {
    hide Clamped;
    AsciiIsValid(Ascii(word));
    ClampedKeeps(Ascii(word), MAX_TEXT_BYTES);
  }

  /** The round trip: reading the properties of a valid item gives back the item, every text, flag and
      pixmap in its place and in order. */
  lemma ItemSurvives(item: Item)
    requires ItemOk(item) && Exportable(item)
    ensures Normalized(item.key, PropertiesOf(item)) == item
  {
    hide PropertiesOf, IconOf, TooltipOf, IdOf, Category, Status, TextProperty, EncodedPixmaps, EncodedTooltip,
         KeyOk, TextOk, IconOk, TooltipOk, CategoryOk, StatusOk, ObjectPathOk;
    var p := PropertiesOf(item);
    TextsGiven(item);
    IconsGiven(item);
    TextsSurvive(p, item);
    var left := MAX_PIXMAP_BYTES_PER_ITEM;
    IconSurvives(p, MainIcon, item.icon, left);
    left := left - Bytes(item.icon.pixmaps);
    IconSurvives(p, AttentionIcon, item.attentionIcon, left);
    left := left - Bytes(item.attentionIcon.pixmaps);
    IconSurvives(p, OverlayIcon, item.overlayIcon, left);
    left := left - Bytes(item.overlayIcon.pixmaps);
    TooltipSurvives(p, item.tooltip, left);
    MenuPathSurvives(p, item.menuPath);
  }

  lemma MenuPathSurvives(p: Properties, path: Text)
    requires Given(p, "Menu", PathValue(path)) && (path == [] || ObjectPathOk(path))
    ensures PathProperty(p, "Menu") == path
  {
  }

  /** A menu path may also come as a string. */
  lemma PathMayBeString(key: ItemKey, props: Properties, path: Text)
    ensures Normalized(key, props["Menu" := StringValue(path)]) == Normalized(key, props["Menu" := PathValue(path)])
  {
    hide PicturesOf, TextProperty, PathProperty, Category, Status;
    PathElsewhere(props, path);
    PathPictures(props, path);
  }

  lemma PathPictures(props: Properties, path: Text)
    ensures PicturesOf(props["Menu" := StringValue(path)]) == PicturesOf(props["Menu" := PathValue(path)])
  {
    hide IconOf, TooltipOf, Bytes, IconOk, TooltipOk;
    var p := props["Menu" := PathValue(path)];
    var left := MAX_PIXMAP_BYTES_PER_ITEM;
    PathIcon(props, path, MainIcon, left);
    left := left - Bytes(IconOf(p, MainIcon, left).pixmaps);
    PathIcon(props, path, AttentionIcon, left);
    left := left - Bytes(IconOf(p, AttentionIcon, left).pixmaps);
    PathIcon(props, path, OverlayIcon, left);
    left := left - Bytes(IconOf(p, OverlayIcon, left).pixmaps);
    PathTooltip(props, path, left);
  }

  lemma PathIcon(props: Properties, path: Text, role: Role, budget: nat)
    ensures IconOf(props["Menu" := StringValue(path)], role, budget) ==
            IconOf(props["Menu" := PathValue(path)], role, budget)
  {
    hide Clamped, Decoded;
  }

  lemma PathTooltip(props: Properties, path: Text, budget: nat)
    ensures TooltipOf(props["Menu" := StringValue(path)], budget) ==
            TooltipOf(props["Menu" := PathValue(path)], budget)
  {
    hide Clamped, Decoded, Tuple;
  }

  lemma PathElsewhere(props: Properties, path: Text)
    ensures var p, q := props["Menu" := StringValue(path)], props["Menu" := PathValue(path)];
            && PathProperty(p, "Menu") == PathProperty(q, "Menu")
            && Category(p) == Category(q) && Status(p) == Status(q)
            && TextProperty(p, "Id", MAX_TEXT_BYTES) == TextProperty(q, "Id", MAX_TEXT_BYTES)
            && TextProperty(p, "Title", MAX_TEXT_BYTES) == TextProperty(q, "Title", MAX_TEXT_BYTES)
            && ("ItemIsMenu" in p && p["ItemIsMenu"] == BoolValue(true) <==>
                "ItemIsMenu" in q && q["ItemIsMenu"] == BoolValue(true))
  {
    hide Clamped, ObjectPathOk, CategoryOk, StatusOk;
  }

  // What stands in for a property.

  /** An item whose application exports nothing. */
  lemma NothingExported(key: ItemKey)
    ensures Normalized(key, map[]) ==
            Item(key, key.owner + key.objectPath, [], Ascii("ApplicationStatus"), Ascii("Active"),
                 Icon([], [], []), Icon([], [], []), Icon([], [], []), NO_TOOLTIP, [], false, false)
  {
    EmptyIsNoWord();
  }

  lemma EmptyIsNoWord()
    ensures !CategoryOk([]) && !StatusOk([])
  {
    assert |Ascii("ApplicationStatus")| == 17 && |Ascii("Communications")| == 14;
    assert |Ascii("SystemServices")| == 14 && |Ascii("Hardware")| == 8;
    assert |Ascii("Passive")| == 7 && |Ascii("Active")| == 6 && |Ascii("NeedsAttention")| == 14;
  }

  const TEXTS: set<string> := {"Id", "Title", "IconThemePath", "IconName", "AttentionIconName", "OverlayIconName"}
  const PIXMAPS: set<string> := {"IconPixmap", "AttentionIconPixmap", "OverlayIconPixmap"}

  /** The values a property cannot use. */
  predicate Unusable(name: string, v: Value) {
    && (name in TEXTS ==> !v.StringValue?)
    && (name in PIXMAPS ==> Elements(v).None?)
    && (name == "Category" ==> v.StringValue? ==> !CategoryOk(Clamped(v.text, MAX_TEXT_BYTES)))
    && (name == "Status" ==> v.StringValue? ==> !StatusOk(Clamped(v.text, MAX_TEXT_BYTES)))
    && (name == "ToolTip" ==> Tuple(v, 4).None?)
    && (name == "Menu" ==> (v.PathValue? || v.StringValue?) ==> !ObjectPathOk(v.text))
    && (name == "ItemIsMenu" ==> v != BoolValue(true))
  }

  lemma TextUnmoved(props: Properties, name: string, v: Value, other: string)
    requires name !in props && (other == name ==> !v.StringValue?)
    ensures TextProperty(props[name := v], other, MAX_TEXT_BYTES) == TextProperty(props, other, MAX_TEXT_BYTES)
  {
    hide Clamped;
  }

  lemma IconUnmoved(props: Properties, name: string, v: Value, role: Role, budget: nat)
    requires name !in props && Unusable(name, v)
    ensures IconOf(props[name := v], role, budget) == IconOf(props, role, budget)
  {
    hide TextProperty, Greedy, Clamped, Elements, Tuple, ObjectPathOk, CategoryOk, StatusOk;
    TextUnmoved(props, name, v, NameKey(role));
    TextUnmoved(props, name, v, "IconThemePath");
  }

  lemma TooltipUnmoved(props: Properties, name: string, v: Value, budget: nat)
    requires name !in props && (name == "ToolTip" ==> Tuple(v, 4).None?)
    ensures TooltipOf(props[name := v], budget) == TooltipOf(props, budget)
  {
    hide Clamped, Decoded, Tuple;
  }

  lemma WordsUnmoved(props: Properties, name: string, v: Value)
    requires name !in props && Unusable(name, v)
    ensures Category(props[name := v]) == Category(props) && Status(props[name := v]) == Status(props)
  {
    hide Clamped, Elements, Tuple, ObjectPathOk, CategoryOk, StatusOk;
    EmptyIsNoWord();
  }

  lemma MenuUnmoved(props: Properties, name: string, v: Value)
    requires name !in props && Unusable(name, v)
    ensures PathProperty(props[name := v], "Menu") == PathProperty(props, "Menu")
    ensures ("ItemIsMenu" in props[name := v] && props[name := v]["ItemIsMenu"] == BoolValue(true)) <==>
            ("ItemIsMenu" in props && props["ItemIsMenu"] == BoolValue(true))
  {
    hide Clamped, Elements, Tuple, ObjectPathOk, CategoryOk, StatusOk;
  }

  lemma TextsUnmoved(props: Properties, name: string, v: Value)
    requires name !in props && Unusable(name, v)
    ensures TextProperty(props[name := v], "Id", MAX_TEXT_BYTES) == TextProperty(props, "Id", MAX_TEXT_BYTES)
    ensures TextProperty(props[name := v], "Title", MAX_TEXT_BYTES) == TextProperty(props, "Title", MAX_TEXT_BYTES)
  {
    hide TextProperty, Clamped, Elements, Tuple, ObjectPathOk, CategoryOk, StatusOk;
    TextUnmoved(props, name, v, "Id");
    TextUnmoved(props, name, v, "Title");
  }

  /** A malformed property, or an unknown one, might as well be left out: it costs the item nothing else. */
  lemma UnusableIsAbsent(key: ItemKey, props: Properties, name: string, v: Value)
    requires name !in props && Unusable(name, v)
    ensures Normalized(key, props[name := v]) == Normalized(key, props)
  {
    hide Unusable, PicturesOf, Category, Status, TextProperty, PathProperty;
    TextsUnmoved(props, name, v);
    WordsUnmoved(props, name, v);
    MenuUnmoved(props, name, v);
    PicturesUnmoved(props, name, v);
  }

  lemma PicturesUnmoved(props: Properties, name: string, v: Value)
    requires name !in props && Unusable(name, v)
    ensures PicturesOf(props[name := v]) == PicturesOf(props)
  {
    hide Unusable, IconOf, TooltipOf, Bytes, IconOk, TooltipOk, Tuple;
    var left := MAX_PIXMAP_BYTES_PER_ITEM;
    IconUnmoved(props, name, v, MainIcon, left);
    left := left - Bytes(IconOf(props, MainIcon, left).pixmaps);
    IconUnmoved(props, name, v, AttentionIcon, left);
    left := left - Bytes(IconOf(props, AttentionIcon, left).pixmaps);
    IconUnmoved(props, name, v, OverlayIcon, left);
    left := left - Bytes(IconOf(props, OverlayIcon, left).pixmaps);
    UnusableTooltip(name, v);
    TooltipUnmoved(props, name, v, left);
  }

  lemma UnusableTooltip(name: string, v: Value)
    requires Unusable(name, v)
    ensures name == "ToolTip" ==> Tuple(v, 4).None?
  {
    hide Tuple, Elements, Clamped;
  }

  /** A pixmap set never takes from one before it: whatever an application puts in a later set leaves the
      earlier ones as they were. */
  lemma EarlierSetsComeFirst(props: Properties, v: Value)
    ensures var own, other := PicturesOf(props), PicturesOf(props["ToolTip" := v]);
            other.icon == own.icon && other.attention == own.attention && other.overlay == own.overlay
    ensures var own, other := PicturesOf(props), PicturesOf(props[PixmapKey(OverlayIcon) := v]);
            other.icon == own.icon && other.attention == own.attention
    ensures PicturesOf(props[PixmapKey(AttentionIcon) := v]).icon == PicturesOf(props).icon
  {
    hide IconOf, TooltipOf, NameKey, PixmapKey, Bytes, IconOk, TooltipOk;
    KeysDiffer();
    var left := MAX_PIXMAP_BYTES_PER_ITEM;
    IconElsewhere(props, "ToolTip", v, MainIcon, left);
    IconElsewhere(props, PixmapKey(OverlayIcon), v, MainIcon, left);
    IconElsewhere(props, PixmapKey(AttentionIcon), v, MainIcon, left);
    left := left - Bytes(IconOf(props, MainIcon, left).pixmaps);
    IconElsewhere(props, "ToolTip", v, AttentionIcon, left);
    IconElsewhere(props, PixmapKey(OverlayIcon), v, AttentionIcon, left);
    left := left - Bytes(IconOf(props, AttentionIcon, left).pixmaps);
    IconElsewhere(props, "ToolTip", v, OverlayIcon, left);
  }

  lemma KeysDiffer()
    ensures forall role: Role :: NameKey(role) != "ToolTip" && PixmapKey(role) != "ToolTip"
    ensures forall role: Role, other: Role :: NameKey(role) != PixmapKey(other)
    ensures forall role: Role, other: Role :: PixmapKey(role) == PixmapKey(other) ==> role == other
    ensures forall role: Role :: PixmapKey(role) != "IconThemePath"
  {
  }

  lemma IconElsewhere(props: Properties, name: string, v: Value, role: Role, budget: nat)
    requires name != NameKey(role) && name != "IconThemePath" && name != PixmapKey(role)
    ensures IconOf(props[name := v], role, budget) == IconOf(props, role, budget)
  {
    hide Clamped, Decoded, NameKey, PixmapKey;
  }

  /** Text too long for the protocol is cut to its longest valid beginning, 2048 bytes in a tooltip and
      4096 elsewhere. */
  lemma LongTextIsCut(key: ItemKey, props: Properties, text: Text)
    requires Valid(text) && text != []
    requires Given(props, "Id", StringValue(text)) && Given(props, "Title", StringValue(text))
    requires Given(props, "ToolTip", EncodedTooltip(Tooltip(text, [], text, text)))
    ensures var item := Normalized(key, props);
            && IsCut(item.title, text, MAX_TEXT_BYTES) && IsCut(item.id, text, MAX_TEXT_BYTES)
            && IsCut(item.tooltip.iconName, text, MAX_TEXT_BYTES)
            && IsCut(item.tooltip.title, text, MAX_TOOLTIP_BYTES)
            && IsCut(item.tooltip.description, text, MAX_TOOLTIP_BYTES)
  {
    hide IconOf, Category, Status, PathProperty, Clamped, Decoded, IsCut, Valid;
    ClampedIsCut(text, MAX_TEXT_BYTES);
    ClampedIsCut(text, MAX_TOOLTIP_BYTES);
    var fields := EncodedTooltip(Tooltip(text, [], text, text)).fields;
    assert IndirectAll(fields[..4]) == fields;
    SomethingIsLeft(text);
  }

  lemma SomethingIsLeft(text: Text)
    requires Valid(text) && text != []
    ensures Clamped(text, MAX_TEXT_BYTES) != []
  {
    var n := RuneLen(text);
    ClampedIsBest(text, MAX_TEXT_BYTES);
    SplitRune(text, n, text[..n]);
    assert text[..n][n..] == [];
  }
}
