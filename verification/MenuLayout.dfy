/** internal/menu/model.go: turning a DBusMenu layout into a tree, by recursion and without bounds, and
    what finishing a partly walked stack adds to a tree. */
module MenuLayout {
  import opened Utf8
  import opened Wrappers
  import opened Protocol
  import opened MenuTree
  import opened DBusValue

  /** Go's int32 conversion of a wider integer. */
  function ToInt32(n: int): int32 {
    (n + 0x8000_0000) % 0x1_0000_0000 - 0x8000_0000
  }

  lemma ToInt32Wraps(n: int)
    ensures (ToInt32(n) - n) % 0x1_0000_0000 == 0
  {
    var wide := n + 0x8000_0000;
    assert wide == wide / 0x1_0000_0000 * 0x1_0000_0000 + wide % 0x1_0000_0000;
    assert ToInt32(n) - n == -(wide / 0x1_0000_0000) * 0x1_0000_0000;
  }

  function Properties(v: Value): map<string, Value> {
    if v.DictValue? then v.entries else map[]
  }

  function Get(p: map<string, Value>, name: string): Option<Value> {
    if name in p then Some(p[name]) else None
  }

  // The properties of a node, with the defaults for anything absent or malformed.

  function TextField(v: Option<Value>): (text: Text)
    ensures TextOk(text, MAX_TEXT_BYTES, true)
  {
    var text := if v.Some? then Clamped(StringOf(v.value), MAX_TEXT_BYTES) else [];
    ClampedTextOk(text, if v.Some? then StringOf(v.value) else []);
    text
  }

  function FlagField(v: Option<Value>): bool {
    if v.Some? then BoolOf(v.value, true) else true
  }

  function SeparatorField(v: Option<Value>): bool {
    v.Some? && StringOf(v.value) == Ascii("separator")
  }

  function IconField(v: Option<Value>): seq<byte> {
    var data := if v.Some? then BytesOf(v.value) else None;
    if data.Some? && |data.value| <= MAX_MENU_ICON_BYTES then data.value else []
  }

  function ToggleField(v: Option<Value>): (toggle: Text)
    ensures toggle == [] || toggle == Ascii("checkmark") || toggle == Ascii("radio")
  {
    var toggle := if v.Some? then StringOf(v.value) else [];
    if toggle == Ascii("checkmark") || toggle == Ascii("radio") then toggle else []
  }

  function StateField(v: Option<Value>): int32 {
    var state := if v.Some? then IntOf(v.value) else None;
    if state.Some? then ToInt32(state.value) else 0
  }

  function DisplayField(v: Option<Value>): (display: Text)
    ensures display == [] || display == Ascii("submenu")
  {
    if v.Some? && StringOf(v.value) == Ascii("submenu") then Ascii("submenu") else []
  }

  function NodeWith(id: int32, p: map<string, Value>): (n: MenuNode)
    ensures id >= 0 ==> NodeOk(n)
    ensures n.id == id && n.children == []
  {
    MenuNode(id, TextField(Get(p, "label")), FlagField(Get(p, "enabled")), FlagField(Get(p, "visible")),
             SeparatorField(Get(p, "type")), TextField(Get(p, "icon-name")), IconField(Get(p, "icon-data")),
             ToggleField(Get(p, "toggle-type")), StateField(Get(p, "toggle-state")),
             DisplayField(Get(p, "children-display")), [])
  }

  /** One node's identity and properties. */
  function ConvertNode(source: Value): (r: Option<MenuNode>)
    ensures r.Some? ==> NodeOk(r.value) && r.value.children == []
  {
    var fields := Tuple(source, 3);
    if fields.None? then None
    else
      var id := IntOf(fields.value[0]);
      if id.None? || id.value < 0 || id.value > 0x7FFF_FFFF then None
      else Some(NodeWith(id.value, Properties(fields.value[1])))
  }

  lemma ClampedTextOk(text: Text, value: Text)
    ensures text == Clamped(value, MAX_TEXT_BYTES) || text == [] ==> TextOk(text, MAX_TEXT_BYTES, true)
  {
    ClampedIsBest(value, MAX_TEXT_BYTES);
  }

  /** The child layouts of a node; anything that is not a list has none. */
  function ChildSources(source: Value): seq<Value> {
    var fields := Tuple(source, 3);
    if fields.None? then []
    else
      var children := Elements(fields.value[2]);
      if children.None? then [] else children.value
  }

  lemma ChildSourcesRank(source: Value)
    ensures RankAll(ChildSources(source)) <= Rank(source)
  {
    var fields := Tuple(source, 3);
    if fields.Some? {
      TupleRank(source, 3, 2);
      ElementsRank(fields.value[2]);
    }
  }

  /** Plain recursive conversion, without any bound: the meaning of a layout. */
  function ConvertTree(source: Value): Option<MenuNode>
    decreases 1 + Rank(source), 0
  {
    ChildSourcesRank(source);
    var node := ConvertNode(source);
    if node.None? then None
    else
      var children := ConvertAll(ChildSources(source));
      if children.None? then None else Some(node.value.(children := children.value))
  }

  function ConvertAll(sources: seq<Value>): Option<seq<MenuNode>>
    decreases RankAll(sources), 1
  {
    if sources == [] then Some([])
    else
      var first, rest := ConvertTree(sources[0]), ConvertAll(sources[1..]);
      if first.None? || rest.None? then None else Some([first.value] + rest.value)
  }

  predicate WithinWalkBounds(t: MenuNode) {
    Of(t, 0).nodes <= MAX_MENU_NODES && Of(t, 0).deepest <= MAX_MENU_DEPTH
  }

  /** What a layout must satisfy for the walk to succeed. */
  predicate Convertible(layout: Value) {
    ConvertTree(layout).Some? && WithinWalkBounds(ConvertTree(layout).value)
  }

  // The tree under construction grows along its right spine only.

  predicate HasSpine(t: MenuNode, d: nat) {
    d == 0 || (t.children != [] && HasSpine(t.children[|t.children| - 1], d - 1))
  }

  /** `t` with `n` appended to the children of the spine node at level `d`. */
  function AppendAt(t: MenuNode, d: nat, n: MenuNode): MenuNode {
    if d == 0 then t.(children := t.children + [n])
    else if t.children == [] then t
    else
      var last := |t.children| - 1;
      t.(children := t.children[..last] + [AppendAt(t.children[last], d - 1, n)])
  }

  lemma {:induction false} SpineGrows(t: MenuNode, d: nat, n: MenuNode, k: nat)
    requires HasSpine(t, d) && k <= d + 1
    ensures HasSpine(AppendAt(t, d, n), k)
    ensures k <= d ==> HasSpine(t, k)
  {
    if d == 0 || k == 0 {
    } else {
      SpineGrows(t.children[|t.children| - 1], d - 1, n, k - 1);
    }
  }

  /** Appending below the node just appended is appending a fuller node. */
  lemma {:induction false} AppendBelow(t: MenuNode, d: nat, n: MenuNode, c: MenuNode)
    requires HasSpine(t, d)
    ensures AppendAt(AppendAt(t, d, n), d + 1, c) == AppendAt(t, d, n.(children := n.children + [c]))
  {
    var a := AppendAt(t, d, n);
    var last := |a.children| - 1;
    if d == 0 {
      assert a.children[..last] == t.children;
    } else {
      AppendBelow(t.children[last], d - 1, n, c);
      assert a.children[..last] == t.children[..last];
    }
  }

  lemma NodeTotals(t: MenuNode, front: seq<MenuNode>, u: MenuNode, depth: nat)
    requires t.children == front + [u]
    ensures Of(t, depth) == Own(t, depth).Plus(OfAll(front, depth + 1).Plus(Of(u, depth + 1)))
  {
    hide NodeOk, Totals.Plus, Own;
    OfAllSplits(front, [u], depth + 1);
    OfAllOne(u, depth + 1);
  }

  lemma {:induction false} AppendTotals(t: MenuNode, d: nat, n: MenuNode, depth: nat)
    requires HasSpine(t, d)
    ensures Of(AppendAt(t, d, n), depth) == Of(t, depth).Plus(Of(n, depth + d + 1))
  {
    hide NodeOk, Totals.Plus, Own, Of, OfAll;
    var own, t' := Own(t, depth), AppendAt(t, d, n);
    OwnIgnoresChildren(t, t', depth);
    if d == 0 {
      NodeTotals(t', t.children, n, depth);
      OfUnfolds(t, depth);
      PlusLaws(own, OfAll(t.children, depth + 1), Of(n, depth + 1));
    } else {
      var last := |t.children| - 1;
      var front, u := t.children[..last], t.children[last];
      AppendTotals(u, d - 1, n, depth + 1);
      NodeTotals(t, front, u, depth);
      NodeTotals(t', front, AppendAt(u, d - 1, n), depth);
      PlusLaws(OfAll(front, depth + 1), Of(u, depth + 1), Of(n, depth + d + 1));
      PlusLaws(own, OfAll(front, depth + 1).Plus(Of(u, depth + 1)), Of(n, depth + d + 1));
    }
  }

  lemma OwnIgnoresChildren(t: MenuNode, u: MenuNode, depth: nat)
    requires t.(children := []) == u.(children := [])
    ensures Own(t, depth) == Own(u, depth)
  {
    assert t.id == u.(children := []).id;
  }

  // The stack of the walk, read as the work still to be done on the tree.

  datatype Pending = Pending(source: Value, target: nat, depth: nat)

  /** What results from finishing every stacked conversion, top first. */
  function Finish(t: MenuNode, stack: seq<Pending>): Option<MenuNode>
    decreases |stack|
  {
    if stack == [] then Some(t)
    else
      var top := stack[|stack| - 1];
      var sub := ConvertTree(top.source);
      if sub.None? || top.depth == 0 then None
      else Finish(AppendAt(t, top.depth - 1, sub.value), stack[..|stack| - 1])
  }

  /** The frames of a node's children, pushed last-first so that the first child is on top. */
  function Pushed(sources: seq<Value>, target: nat, depth: nat): seq<Pending> {
    if sources == [] then [] else Pushed(sources[1..], target, depth) + [Pending(sources[0], target, depth)]
  }

  lemma FinishUnfolds(t: MenuNode, rest: seq<Pending>, source: Value, target: nat, d: nat)
    ensures Finish(t, rest + [Pending(source, target, d + 1)]) ==
            (if ConvertTree(source).None? then None else Finish(AppendAt(t, d, ConvertTree(source).value), rest))
  {
    hide ConvertTree, AppendAt;
    var stack := rest + [Pending(source, target, d + 1)];
    assert stack[..|stack| - 1] == rest;
  }

  lemma {:induction false} FinishChildren(
    t: MenuNode, n: MenuNode, rest: seq<Pending>, sources: seq<Value>, target: nat, d: nat)
    requires HasSpine(t, d)
    ensures Finish(AppendAt(t, d, n), rest + Pushed(sources, target, d + 2)) ==
            (if ConvertAll(sources).None? then None
             else Finish(AppendAt(t, d, n.(children := n.children + ConvertAll(sources).value)), rest))
    decreases |sources|
  {
    hide ConvertTree, AppendAt, HasSpine, Finish;
    if sources == [] {
      assert rest + Pushed(sources, target, d + 2) == rest;
      assert n.children + [] == n.children;
    } else {
      var first := ConvertTree(sources[0]);
      var below := rest + Pushed(sources[1..], target, d + 2);
      assert rest + Pushed(sources, target, d + 2) == below + [Pending(sources[0], target, d + 2)];
      FinishUnfolds(AppendAt(t, d, n), below, sources[0], target, d + 1);
      if first.Some? {
        var fuller := n.(children := n.children + [first.value]);
        AppendBelow(t, d, n, first.value);
        FinishChildren(t, fuller, rest, sources[1..], target, d);
        if ConvertAll(sources[1..]).Some? {
          var cs := ConvertAll(sources[1..]).value;
          assert n.children + [first.value] + cs == n.children + ([first.value] + cs);
        }
      }
    }
  }

  /** One turn of the walk keeps the final result: convert the node alone, push its children. */
  lemma FinishStep(t: MenuNode, rest: seq<Pending>, source: Value, target: nat, added: nat, d: nat)
    requires HasSpine(t, d)
    ensures Finish(t, rest + [Pending(source, target, d + 1)]) ==
            (if ConvertNode(source).None? then None
             else Finish(AppendAt(t, d, ConvertNode(source).value), rest + Pushed(ChildSources(source), added, d + 2)))
  {
    hide ConvertNode, ChildSources, Finish, AppendAt;
    FinishUnfolds(t, rest, source, target, d);
    TreeUnfolds(source);
    if ConvertNode(source).Some? {
      FinishChildren(t, ConvertNode(source).value, rest, ChildSources(source), added, d);
    }
  }

  lemma AppendTop(n: MenuNode, c: MenuNode)
    ensures AppendAt(n, 0, c) == n.(children := n.children + [c])
    ensures Finish(n, []) == Some(n)
  {
  }

  /** The walk starts with the root converted and its children stacked at depth 1. */
  lemma {:induction false} FinishTopLevel(n: MenuNode, sources: seq<Value>)
    ensures Finish(n, [] + Pushed(sources, 0, 1)) ==
            (if ConvertAll(sources).None? then None
             else Some(n.(children := n.children + ConvertAll(sources).value)))
    decreases |sources|
  {
    hide ConvertTree, AppendAt, Finish;
    if sources == [] {
      AppendTop(n, n);
      assert n.children + [] == n.children;
    } else {
      var first := ConvertTree(sources[0]);
      var below := [] + Pushed(sources[1..], 0, 1);
      assert [] + Pushed(sources, 0, 1) == below + [Pending(sources[0], 0, 1)];
      FinishUnfolds(n, below, sources[0], 0, 0);
      if first.Some? {
        AppendTop(n, first.value);
        FinishTopLevel(n.(children := n.children + [first.value]), sources[1..]);
        if ConvertAll(sources[1..]).Some? {
          var cs := ConvertAll(sources[1..]).value;
          assert n.children + [first.value] + cs == n.children + ([first.value] + cs);
        }
      }
    }
  }

  lemma TreeUnfolds(source: Value)
    ensures ConvertNode(source).None? ==> ConvertTree(source).None?
    ensures ConvertNode(source).Some? ==>
              var n, cs := ConvertNode(source).value, ConvertAll(ChildSources(source));
              && n.children == []
              && ConvertTree(source) == if cs.None? then None else Some(n.(children := n.children + cs.value))
  {
    hide ChildSources;
    if ConvertNode(source).Some? && ConvertAll(ChildSources(source)).Some? {
      assert [] + ConvertAll(ChildSources(source)).value == ConvertAll(ChildSources(source)).value;
    }
  }

  predicate OnSpine(t: MenuNode, stack: seq<Pending>) {
    && (forall i :: 0 <= i < |stack| ==> stack[i].depth >= 1 && HasSpine(t, stack[i].depth - 1))
    && forall i, j :: 0 <= i < j < |stack| ==> stack[i].depth <= stack[j].depth
  }

  lemma SpineStays(t: MenuNode, rest: seq<Pending>, top: Pending, n: MenuNode)
    requires OnSpine(t, rest + [top])
    ensures top.depth >= 1 && HasSpine(t, top.depth - 1) && OnSpine(AppendAt(t, top.depth - 1, n), rest)
    ensures rest != [] ==> rest[|rest| - 1].depth <= top.depth
  {
    hide HasSpine, AppendAt;
    var stack := rest + [top];
    assert stack[|rest|] == top;
    assert forall i :: 0 <= i < |rest| ==> stack[i] == rest[i];
    forall i | 0 <= i < |rest| ensures HasSpine(AppendAt(t, top.depth - 1, n), rest[i].depth - 1) {
      SpineGrows(t, top.depth - 1, n, rest[i].depth - 1);
    }
  }

  lemma OneTotals(n: MenuNode, depth: nat)
    ensures Of(n, depth).nodes >= 1 && Of(n, depth).deepest >= depth
  {
    hide NodeOk;
  }

  /** Every stacked frame still adds at least one node, at its own depth. */
  lemma {:induction false} FinishOnlyGrows(t: MenuNode, stack: seq<Pending>)
    requires OnSpine(t, stack) && Finish(t, stack).Some?
    ensures var r := Finish(t, stack).value;
            && Of(r, 0).nodes >= Of(t, 0).nodes + |stack|
            && Of(r, 0).deepest >= Of(t, 0).deepest
            && (stack != [] ==> Of(r, 0).deepest >= stack[|stack| - 1].depth)
    decreases |stack|
  {
    hide NodeOk, ConvertTree, OnSpine, Of;
    if stack == [] {
    } else {
      assert stack == stack[..|stack| - 1] + [stack[|stack| - 1]];
      OneTotals(ConvertTree(stack[|stack| - 1].source).value, stack[|stack| - 1].depth);
      var top, rest := stack[|stack| - 1], stack[..|stack| - 1];
      var sub := ConvertTree(top.source).value;
      var t' := AppendAt(t, top.depth - 1, sub);
      SpineStays(t, rest, top, sub);
      AppendTotals(t, top.depth - 1, sub, 0);
      FinishOnlyGrows(t', rest);
    }
  }
}
