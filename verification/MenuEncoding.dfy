/** The layout an application sends for a menu tree, and that reading it gives the tree back. */
module MenuEncoding {
  import opened Utf8
  import opened Wrappers
  import opened Protocol
  import opened MenuTree
  import opened DBusValue
  import opened MenuLayout

  /** One DBusMenu node: identity, properties, children. */
  function Layout(id: Value, properties: map<string, Value>, children: Value): Value {
    StructValue([id, DictValue(properties), children])
  }

  function PropertiesOf(n: MenuNode): map<string, Value> {
    map["label" := StringValue(n.labelText),
        "enabled" := BoolValue(n.enabled),
        "visible" := BoolValue(n.visible),
        "type" := StringValue(if n.separator then Ascii("separator") else Ascii("standard")),
        "icon-name" := StringValue(n.iconName),
        "icon-data" := BytesValue(n.iconData),
        "toggle-type" := StringValue(n.toggleType),
        "toggle-state" := SignedValue(n.toggleState),
        "children-display" := StringValue(n.childrenDisplay)]
  }

  /** Children travel as an array of variants. */
  function LayoutOf(n: MenuNode): Value {
    Layout(SignedValue(n.id), PropertiesOf(n), ListValue(LayoutsOf(n.children)))
  }

  function LayoutsOf(ns: seq<MenuNode>): seq<Value> {
    if ns == [] then [] else [VariantValue(LayoutOf(ns[0]))] + LayoutsOf(ns[1..])
  }

  predicate Sendable(n: MenuNode) {
    && NodeOk(n) && |n.iconData| <= MAX_MENU_ICON_BYTES
    && forall i :: 0 <= i < |n.children| ==> Sendable(n.children[i])
  }

  lemma NodeSurvives(n: MenuNode, children: Value)
    requires NodeOk(n) && |n.iconData| <= MAX_MENU_ICON_BYTES
    ensures ConvertNode(Layout(SignedValue(n.id), PropertiesOf(n), children)) == Some(n.(children := []))
  {
    hide NodeWith, PropertiesOf;
    LayoutConverts(SignedValue(n.id), PropertiesOf(n), children);
    PropertiesSurvive(n);
  }

  /** What is read of an encoded node. */
  lemma LayoutConverts(id: Value, p: map<string, Value>, children: Value)
    ensures var number := IntOf(id);
            ConvertNode(Layout(id, p, children)) ==
            if number.None? || number.value < 0 || number.value > 0x7FFF_FFFF then None
            else Some(NodeWith(number.value, p))
  {
    hide NodeWith;
    IndirectTwice(id);
  }

  lemma {:induction false} IndirectTwice(v: Value)
    ensures Indirect(Indirect(v)) == Indirect(v)
  {
  }

  lemma PropertiesGiven(n: MenuNode)
    ensures var p := PropertiesOf(n);
            && Get(p, "label") == Some(StringValue(n.labelText))
            && Get(p, "enabled") == Some(BoolValue(n.enabled))
            && Get(p, "visible") == Some(BoolValue(n.visible))
            && Get(p, "type") == Some(StringValue(if n.separator then Ascii("separator") else Ascii("standard")))
            && Get(p, "icon-name") == Some(StringValue(n.iconName))
            && Get(p, "icon-data") == Some(BytesValue(n.iconData))
            && Get(p, "toggle-type") == Some(StringValue(n.toggleType))
            && Get(p, "toggle-state") == Some(SignedValue(n.toggleState))
            && Get(p, "children-display") == Some(StringValue(n.childrenDisplay))
  {
    hide Ascii;
  }

  lemma PropertiesSurvive(n: MenuNode)
    requires NodeOk(n) && |n.iconData| <= MAX_MENU_ICON_BYTES
    ensures NodeWith(n.id, PropertiesOf(n)) == n.(children := [])
  {
    hide Clamped, Valid, PropertiesOf, Ascii, Get;
    PropertiesGiven(n);
    ClampedKeeps(n.labelText, MAX_TEXT_BYTES);
    ClampedKeeps(n.iconName, MAX_TEXT_BYTES);
    VocabularyDiffers();
  }

  lemma VocabularyDiffers()
    ensures Ascii("separator") != Ascii("standard")
    ensures Ascii("checkmark") != Ascii("radio")
  {
    assert |Ascii("separator")| == 9 && |Ascii("standard")| == 8;
    assert |Ascii("checkmark")| == 9 && |Ascii("radio")| == 5;
  }

  /** What the children of an encoded node are read as. */
  function PlainLayouts(ns: seq<MenuNode>): seq<Value> {
    if ns == [] then [] else [LayoutOf(ns[0])] + PlainLayouts(ns[1..])
  }

  lemma IndirectCons(v: Value, vs: seq<Value>)
    ensures IndirectAll([v] + vs) == [Indirect(v)] + IndirectAll(vs)
  {
    hide Indirect;
  }

  lemma {:induction false} Unwrapped(ns: seq<MenuNode>)
    ensures IndirectAll(LayoutsOf(ns)) == PlainLayouts(ns)
  {
    if ns == [] {
    } else {
      Unwrapped(ns[1..]);
      var first := VariantValue(LayoutOf(ns[0]));
      IndirectCons(first, LayoutsOf(ns[1..]));
      assert Indirect(first) == LayoutOf(ns[0]);
    }
  }

  lemma ChildSourcesOf(n: MenuNode)
    ensures ChildSources(LayoutOf(n)) == PlainLayouts(n.children)
  {
    hide PropertiesOf, LayoutsOf, PlainLayouts;
    Unwrapped(n.children);
  }

  /** The round trip: reading the layout of a tree gives back the tree, every property, the order of the
      children and the shape included. */
  lemma {:induction false} TreeSurvives(n: MenuNode)
    requires Sendable(n)
    ensures ConvertTree(LayoutOf(n)) == Some(n)
    decreases n
  {
    hide ConvertNode, ChildSources, PropertiesOf, PlainLayouts, NodeOk;
    NodeSurvives(n, ListValue(LayoutsOf(n.children)));
    ChildSourcesOf(n);
    TreesSurvive(n.children);
    assert n.(children := []).(children := n.children) == n;
  }

  lemma {:induction false} TreesSurvive(ns: seq<MenuNode>)
    requires forall i :: 0 <= i < |ns| ==> Sendable(ns[i])
    ensures ConvertAll(PlainLayouts(ns)) == Some(ns)
    decreases ns
  {
    hide ConvertTree, LayoutOf, Sendable;
    if ns == [] {
    } else {
      TreeSurvives(ns[0]);
      TreesSurvive(ns[1..]);
      assert PlainLayouts(ns)[1..] == PlainLayouts(ns[1..]);
      assert [ns[0]] + ns[1..] == ns;
    }
  }

  lemma {:induction false} AcceptedIsSendable(n: MenuNode, depth: nat)
    requires Of(n, depth).clean && Of(n, depth).icons <= MAX_MENU_ICON_BYTES
    ensures Sendable(n)
    decreases n
  {
    hide NodeOk;
    OfUnfolds(n, depth);
    AllAcceptedAreSendable(n.children, depth + 1);
  }

  lemma {:induction false} AllAcceptedAreSendable(ns: seq<MenuNode>, depth: nat)
    requires OfAll(ns, depth).clean && OfAll(ns, depth).icons <= MAX_MENU_ICON_BYTES
    ensures forall i :: 0 <= i < |ns| ==> Sendable(ns[i])
    decreases ns
  {
    hide NodeOk, Sendable, Of;
    if ns == [] {
    } else {
      AcceptedIsSendable(ns[0], depth);
      AllAcceptedAreSendable(ns[1..], depth);
      assert forall i :: 1 <= i < |ns| ==> ns[i] == ns[1..][i - 1];
    }
  }

  /** So every menu the validators accept is read back from its layout. */
  lemma MenuSurvives(menu: Menu)
    requires WellFormed(menu)
    ensures ConvertTree(LayoutOf(menu.root)) == Some(menu.root) && Convertible(LayoutOf(menu.root))
  {
    hide Of, ConvertTree, LayoutOf, Sendable;
    AcceptedIsSendable(menu.root, 0);
    TreeSurvives(menu.root);
  }

  // What stands in for a property.

  /** The value each property has when it is left out. */
  function Default(name: string): Value {
    if name == "enabled" || name == "visible" then BoolValue(true)
    else if name == "icon-data" then BytesValue([])
    else if name == "toggle-state" then SignedValue(0)
    else StringValue([])
  }

  /** The values a property cannot use. */
  predicate Unusable(name: string, v: Value) {
    if name == "enabled" || name == "visible" then !Indirect(v).BoolValue?
    else if name == "icon-data" then BytesOf(v).None? || |BytesOf(v).value| > MAX_MENU_ICON_BYTES
    else if name == "toggle-state" then IntOf(v).None?
    else if name == "toggle-type" then StringOf(v) != Ascii("checkmark") && StringOf(v) != Ascii("radio")
    else if name == "type" then StringOf(v) != Ascii("separator")
    else if name == "children-display" then StringOf(v) != Ascii("submenu")
    else if name == "label" || name == "icon-name" then !Indirect(v).StringValue? && !Indirect(v).PathValue?
    else true
  }

  lemma EmptyIsNoWord()
    ensures Ascii("separator") != [] && Ascii("submenu") != [] && Ascii("checkmark") != [] && Ascii("radio") != []
  {
    assert |Ascii("separator")| == 9 && |Ascii("submenu")| == 7;
    assert |Ascii("checkmark")| == 9 && |Ascii("radio")| == 5;
  }

  /** A property alone decides its own field. */
  lemma OnlyItsField(id: int32, p: map<string, Value>, name: string, v: Value, w: Option<Value>)
    requires Get(p, name) == w
    requires name == "label" || name == "icon-name" ==> TextField(Some(v)) == TextField(w)
    requires name == "enabled" || name == "visible" ==> FlagField(Some(v)) == FlagField(w)
    requires name == "type" ==> SeparatorField(Some(v)) == SeparatorField(w)
    requires name == "icon-data" ==> IconField(Some(v)) == IconField(w)
    requires name == "toggle-type" ==> ToggleField(Some(v)) == ToggleField(w)
    requires name == "toggle-state" ==> StateField(Some(v)) == StateField(w)
    requires name == "children-display" ==> DisplayField(Some(v)) == DisplayField(w)
    ensures NodeWith(id, p[name := v]) == NodeWith(id, p)
  {
    hide TextField, FlagField, SeparatorField, IconField, ToggleField, StateField, DisplayField, Get;
    TextUnmoved(p, name, v, "label");
    TextUnmoved(p, name, v, "icon-name");
    FlagUnmoved(p, name, v, "enabled");
    FlagUnmoved(p, name, v, "visible");
    GetUpdated(p, name, v, "type");
    GetUpdated(p, name, v, "icon-data");
    GetUpdated(p, name, v, "toggle-type");
    GetUpdated(p, name, v, "toggle-state");
    GetUpdated(p, name, v, "children-display");
  }

  lemma GetUpdated(p: map<string, Value>, name: string, v: Value, other: string)
    ensures Get(p[name := v], other) == if other == name then Some(v) else Get(p, other)
  {
  }

  lemma TextUnmoved(p: map<string, Value>, name: string, v: Value, other: string)
    requires name == other ==> TextField(Some(v)) == TextField(Get(p, name))
    ensures TextField(Get(p[name := v], other)) == TextField(Get(p, other))
  {
    hide Clamped;
  }

  lemma FlagUnmoved(p: map<string, Value>, name: string, v: Value, other: string)
    requires name == other ==> FlagField(Some(v)) == FlagField(Get(p, name))
    ensures FlagField(Get(p[name := v], other)) == FlagField(Get(p, other))
  {
  }

  /** Leaving a property out is giving its default. */
  lemma AbsentIsDefault(id: Value, p: map<string, Value>, children: Value, name: string)
    requires name !in p
    ensures ConvertNode(Layout(id, p[name := Default(name)], children)) == ConvertNode(Layout(id, p, children))
  {
    hide NodeWith, Clamped, Ascii;
    EmptyIsNoWord();
    NothingSurvives();
    LayoutConverts(id, p, children);
    LayoutConverts(id, p[name := Default(name)], children);
    if ConvertNode(Layout(id, p, children)).Some? {
      OnlyItsField(IntOf(id).value, p, name, Default(name), None);
    }
  }

  lemma NothingSurvives()
    ensures Clamped([], MAX_TEXT_BYTES) == []
  {
    ClampedKeeps([], MAX_TEXT_BYTES);
  }

  /** A property with a value it cannot use, or an unknown one, might as well be left out. */
  lemma UnusableIsAbsent(id: Value, p: map<string, Value>, children: Value, name: string, v: Value)
    requires name !in p && Unusable(name, v)
    ensures ConvertNode(Layout(id, p[name := v], children)) == ConvertNode(Layout(id, p, children))
  {
    hide NodeWith, Clamped, Ascii;
    NothingSurvives();
    LayoutConverts(id, p, children);
    LayoutConverts(id, p[name := v], children);
    if ConvertNode(Layout(id, p, children)).Some? {
      OnlyItsField(IntOf(id).value, p, name, v, None);
    }
  }

  /** Text too long for the protocol is cut to its longest valid beginning; a wider toggle state wraps. */
  lemma LongValuesAreCut(id: int32, p: map<string, Value>, text: Text, state: int64)
    requires Valid(text) && Get(p, "label") == Some(StringValue(text)) && Get(p, "icon-name") == Some(StringValue(text))
    requires Get(p, "toggle-state") == Some(SignedValue(state))
    ensures var n := NodeWith(id, p);
            && IsCut(n.labelText, text, MAX_TEXT_BYTES) && IsCut(n.iconName, text, MAX_TEXT_BYTES)
            && (n.toggleState - state) % 0x1_0000_0000 == 0
  {
    hide Clamped, Valid, ToInt32, IsCut;
    ClampedIsCut(text, MAX_TEXT_BYTES);
    ToInt32Wraps(state);
  }
}
