/** Menu trees, the one order-free predicate that says which are acceptable, and the two
    validators: the explicit-stack walk of internal/menu/validate.go and the recursion with shared
    accumulators of protocol/validate.go. */
module MenuTree {
  import opened Utf8
  import opened Protocol

  const MAX_MENU_DEPTH: nat := 8
  const MAX_MENU_NODES: nat := 512
  const MAX_MENU_ICON_BYTES: nat := 0x20_0000

  datatype MenuNode = MenuNode(
    id: int32, labelText: Text, enabled: bool, visible: bool, separator: bool,
    iconName: Text, iconData: seq<byte>, toggleType: Text, toggleState: int32,
    childrenDisplay: Text, children: seq<MenuNode>)
  datatype Menu = Menu(revision: uint32, root: MenuNode)

  /** A node's own identity, text and vocabulary, leaving its children aside. */
  predicate NodeOk(n: MenuNode) {
    && n.id >= 0
    && TextOk(n.labelText, MAX_TEXT_BYTES, true) && TextOk(n.iconName, MAX_TEXT_BYTES, true)
    && (n.toggleType == [] || n.toggleType == Ascii("checkmark") || n.toggleType == Ascii("radio"))
    && (n.childrenDisplay == [] || n.childrenDisplay == Ascii("submenu"))
  }

  /** What a set of nodes adds up to. Adding is commutative, so totals forget every visiting order. */
  datatype Totals = Totals(nodes: nat, icons: nat, ids: multiset<int>, deepest: nat, clean: bool) {
    function Plus(other: Totals): Totals {
      Totals(nodes + other.nodes, icons + other.icons, ids + other.ids,
             if deepest < other.deepest then other.deepest else deepest, clean && other.clean)
    }

    predicate Accepted() {
      && nodes <= MAX_MENU_NODES && icons <= MAX_MENU_ICON_BYTES && deepest <= MAX_MENU_DEPTH && clean
      && forall id :: id in ids ==> ids[id] == 1
    }
  }

  const NOTHING := Totals(0, 0, multiset{}, 0, true)

  function Own(n: MenuNode, depth: nat): Totals {
    Totals(1, |n.iconData|, multiset{n.id as int}, depth, NodeOk(n))
  }

  function Of(n: MenuNode, depth: nat): Totals {
    Own(n, depth).Plus(OfAll(n.children, depth + 1))
  }

  function OfAll(ns: seq<MenuNode>, depth: nat): Totals {
    if ns == [] then NOTHING else Of(ns[0], depth).Plus(OfAll(ns[1..], depth))
  }

  /** The acceptable menus: root identity 0, at most 512 nodes, none below level 8, every identity
      non-negative and used once, legal text and vocabulary, at most 2 MiB of icon data in all. */
  predicate WellFormed(menu: Menu) {
    menu.root.id == 0 && Of(menu.root, 0).Accepted()
  }

  lemma PlusLaws(a: Totals, b: Totals, c: Totals)
    ensures a.Plus(b) == b.Plus(a) && a.Plus(b).Plus(c) == a.Plus(b.Plus(c)) && a.Plus(NOTHING) == a
  {
    assert a.ids + multiset{} == a.ids;
    assert a.ids + b.ids + c.ids == a.ids + (b.ids + c.ids);
  }

  /** Nothing added later repairs a total that is already refused. */
  lemma RefusedStaysRefused(part: Totals, rest: Totals)
    requires part.Plus(rest).Accepted()
    ensures part.Accepted()
  {
    assert forall id :: part.ids[id] <= part.Plus(rest).ids[id];
  }

  lemma {:induction false} OfAllSplits(ns: seq<MenuNode>, ms: seq<MenuNode>, depth: nat)
    ensures OfAll(ns + ms, depth) == OfAll(ns, depth).Plus(OfAll(ms, depth))
  {
    hide NodeOk, Totals.Plus;
    if ns == [] {
      assert ns + ms == ms;
      PlusLaws(OfAll(ms, depth), NOTHING, NOTHING);
    } else {
      OfAllSplits(ns[1..], ms, depth);
      assert (ns + ms)[1..] == ns[1..] + ms;
      PlusLaws(Of(ns[0], depth), OfAll(ns[1..], depth), OfAll(ms, depth));
    }
  }

  lemma OfAllOne(n: MenuNode, depth: nat)
    ensures OfAll([n], depth) == Of(n, depth)
  {
    hide Of;
    assert [n][1..] == [];
    PlusLaws(Of(n, depth), NOTHING, NOTHING);
  }

  /** Reordering siblings changes no total, hence no verdict. */
  lemma SiblingOrderIsIrrelevant(ns: seq<MenuNode>, ms: seq<MenuNode>, depth: nat)
    ensures OfAll(ns + ms, depth) == OfAll(ms + ns, depth)
  {
    OfAllSplits(ns, ms, depth);
    OfAllSplits(ms, ns, depth);
    PlusLaws(OfAll(ns, depth), OfAll(ms, depth), NOTHING);
  }

  datatype Visit = Visit(node: MenuNode, depth: nat)

  function Forest(visits: seq<Visit>): Totals {
    if visits == [] then NOTHING
    else Forest(visits[..|visits| - 1]).Plus(Of(visits[|visits| - 1].node, visits[|visits| - 1].depth))
  }

  function Visits(ns: seq<MenuNode>, depth: nat): seq<Visit> {
    seq(|ns|, i requires 0 <= i < |ns| => Visit(ns[i], depth))
  }

  lemma NoVisits(depth: nat)
    ensures Visits([], depth) == [] && OfAll([], depth) == NOTHING
  {
  }

  lemma VisitsSnoc(ns: seq<MenuNode>, n: MenuNode, depth: nat)
    ensures Visits(ns + [n], depth) == Visits(ns, depth) + [Visit(n, depth)]
  {
  }

  lemma OfAllSnoc(ns: seq<MenuNode>, n: MenuNode, depth: nat)
    ensures OfAll(ns + [n], depth) == OfAll(ns, depth).Plus(Of(n, depth))
  {
    hide OfAll, Of, Totals.Plus;
    OfAllSplits(ns, [n], depth);
    OfAllOne(n, depth);
  }

  lemma ForestSnoc(visits: seq<Visit>, v: Visit)
    ensures Forest(visits + [v]) == Forest(visits).Plus(Of(v.node, v.depth))
  {
    hide Totals.Plus, Of;
    assert (visits + [v])[..|visits|] == visits;
  }

  lemma {:induction false} PushedVisits(stack: seq<Visit>, ns: seq<MenuNode>, depth: nat)
    ensures Forest(stack + Visits(ns, depth)) == Forest(stack).Plus(OfAll(ns, depth))
    decreases |ns|
  {
    hide Visits, Forest, OfAll, Totals.Plus, Of;
    if ns == [] {
      NoVisits(depth);
      assert stack + [] == stack;
      PlusLaws(Forest(stack), NOTHING, NOTHING);
    } else {
      var front, last := ns[..|ns| - 1], ns[|ns| - 1];
      PushedVisits(stack, front, depth);
      assert ns == front + [last];
      VisitsSnoc(front, last, depth);
      var v := Visit(last, depth);
      assert stack + (Visits(front, depth) + [v]) == stack + Visits(front, depth) + [v];
      ForestSnoc(stack + Visits(front, depth), v);
      OfAllSnoc(front, last, depth);
      PlusLaws(Forest(stack), OfAll(front, depth), Of(last, depth));
    }
  }

  lemma OfUnfolds(n: MenuNode, depth: nat)
    ensures Of(n, depth) == Own(n, depth).Plus(OfAll(n.children, depth + 1))
  {
  }

  lemma TopUnfolds(stack: seq<Visit>)
    requires stack != []
    ensures var top := stack[|stack| - 1];
            var below := OfAll(top.node.children, top.depth + 1);
            Forest(stack) == Forest(stack[..|stack| - 1]).Plus(Own(top.node, top.depth).Plus(below))
  {
    hide Totals.Plus, Own, OfAll;
  }

  /** Taking one frame apart: the popped node's own total plus what is stacked afterwards is what
      was stacked before. */
  lemma PopStep(done: Totals, stack: seq<Visit>)
    requires stack != []
    ensures var top := stack[|stack| - 1];
            var after := Forest(stack[..|stack| - 1] + Visits(top.node.children, top.depth + 1));
            && Forest(stack) == Own(top.node, top.depth).Plus(after)
            && done.Plus(Forest(stack)) == done.Plus(Own(top.node, top.depth)).Plus(after)
  {
    hide Totals.Plus, Of, OfAll, Own, Forest, Visits;
    var top, rest := stack[|stack| - 1], stack[..|stack| - 1];
    var own, below := Own(top.node, top.depth), OfAll(top.node.children, top.depth + 1);
    TopUnfolds(stack);
    PushedVisits(rest, top.node.children, top.depth + 1);
    PlusLaws(own, below, Forest(rest));
    PlusLaws(own, Forest(rest), below);
    PlusLaws(below, Forest(rest), own);
    PlusLaws(done, own, Forest(rest).Plus(below));
    PlusLaws(Forest(rest), own.Plus(below), own);
  }

  predicate Counted(done: Totals, nodes: nat, icons: nat, seen: set<int32>) {
    nodes == done.nodes && icons == done.icons && (forall id: int32 :: (id in seen) <==> id in done.ids)
  }

  /** The checks both validators make on one node are exactly what its own total adds. */
  lemma CheckedOwn(done: Totals, n: MenuNode, depth: nat, nodes: nat, icons: nat, seen: set<int32>)
    requires done.Accepted() && Counted(done, nodes, icons, seen)
    ensures done.Plus(Own(n, depth)).Accepted() <==>
            && depth <= MAX_MENU_DEPTH && nodes + 1 <= MAX_MENU_NODES && n.id !in seen && NodeOk(n)
            && icons + |n.iconData| <= MAX_MENU_ICON_BYTES
    ensures n.id !in seen ==> Counted(done.Plus(Own(n, depth)), nodes + 1, icons + |n.iconData|, seen + {n.id})
  {
    var ids := done.Plus(Own(n, depth)).ids;
    assert ids[n.id] == done.ids[n.id] + 1;
    assert forall id :: id != n.id ==> ids[id] == done.ids[id];
  }

  lemma StartsEmpty(root: MenuNode)
    ensures NOTHING.Accepted() && Counted(NOTHING, 0, 0, {})
    ensures NOTHING.Plus(Of(root, 0)) == Of(root, 0) == NOTHING.Plus(Forest([Visit(root, 0)]))
  {
    hide NodeOk, Of, Totals.Plus;
    assert [Visit(root, 0)][..0] == [];
    PlusLaws(Of(root, 0), NOTHING, NOTHING);
  }

  lemma ForestShrinks(stack: seq<Visit>)
    requires stack != []
    ensures var top := stack[|stack| - 1];
            Forest(stack[..|stack| - 1] + Visits(top.node.children, top.depth + 1)).nodes < Forest(stack).nodes
  {
    hide NodeOk, Of;
    PopStep(NOTHING, stack);
  }

  /** internal/menu/validate.go: an explicit stack, popping the last child first. */
  method ValidateIterative(menu: Menu) returns (ok: bool)
    ensures ok <==> WellFormed(menu)
  {
    hide NodeOk, Totals.Plus, Totals.Accepted, Counted, Of;
    if menu.root.id != 0 {
      return false;
    }
    var seen: set<int32> := {};
    var stack := [Visit(menu.root, 0)];
    var nodes: nat, icons: nat := 0, 0;
    ghost var done := NOTHING;
    StartsEmpty(menu.root);
    while |stack| > 0
      invariant done.Accepted() && Counted(done, nodes, icons, seen)
      invariant done.Plus(Forest(stack)) == Of(menu.root, 0)
      decreases Forest(stack).nodes
    {
      PopStep(done, stack);
      var current := stack[|stack| - 1];
      ForestShrinks(stack);
      stack := stack[..|stack| - 1];
      var node := current.node;
      CheckedOwn(done, node, current.depth, nodes, icons, seen);
      done := done.Plus(Own(node, current.depth));
      nodes := nodes + 1;
      icons := icons + |node.iconData|;
      if current.depth > MAX_MENU_DEPTH || nodes > MAX_MENU_NODES || node.id in seen || !NodeOk(node)
         || icons > MAX_MENU_ICON_BYTES
      {
        if Of(menu.root, 0).Accepted() {
          RefusedStaysRefused(done, Forest(stack + Visits(node.children, current.depth + 1)));
        }
        return false;
      }
      seen := seen + {node.id};
      ghost var rest := stack;
      for i := 0 to |node.children|
        invariant stack == rest + Visits(node.children, current.depth + 1)[..i]
      {
        stack := stack + [Visit(node.children[i], current.depth + 1)];
      }
      assert stack == rest + Visits(node.children, current.depth + 1);
    }
    PlusLaws(done, NOTHING, NOTHING);
    ok := true;
  }

  /** The map and the two counters the recursive validator shares through pointers. */
  class Tally {
    var seen: set<int32>
    var nodes: nat
    var icons: nat

    constructor ()
      ensures Counted(NOTHING, nodes, icons, seen)
    {
      seen, nodes, icons := {}, 0, 0;
    }

    /** protocol/validate.go: first child first, every call adding to the same tally. */
    method ValidateNode(n: MenuNode, depth: nat, ghost done: Totals) returns (ok: bool)
      requires done.Accepted() && Counted(done, nodes, icons, seen)
      modifies this
      ensures ok <==> done.Plus(Of(n, depth)).Accepted()
      ensures ok ==> Counted(done.Plus(Of(n, depth)), nodes, icons, seen)
      decreases n
    {
      hide NodeOk, Totals.Plus, Totals.Accepted, Counted;
      ghost var own := done.Plus(Own(n, depth));
      PlusLaws(done, Own(n, depth), OfAll(n.children, depth + 1));
      CheckedOwn(done, n, depth, nodes, icons, seen);
      nodes := nodes + 1;
      icons := icons + |n.iconData|;
      if depth > MAX_MENU_DEPTH || nodes > MAX_MENU_NODES || n.id in seen || !NodeOk(n) || icons > MAX_MENU_ICON_BYTES {
        if done.Plus(Of(n, depth)).Accepted() {
          RefusedStaysRefused(own, OfAll(n.children, depth + 1));
        }
        return false;
      }
      seen := seen + {n.id};
      PlusLaws(own, NOTHING, NOTHING);
      assert n.children[..0] == [];
      for i := 0 to |n.children|
        invariant own.Plus(OfAll(n.children[..i], depth + 1)).Accepted()
        invariant Counted(own.Plus(OfAll(n.children[..i], depth + 1)), nodes, icons, seen)
      {
        ChildStep(own, n.children, i, depth + 1);
        var childOk := ValidateNode(n.children[i], depth + 1, own.Plus(OfAll(n.children[..i], depth + 1)));
        if !childOk {
          return false;
        }
      }
      assert n.children[..|n.children|] == n.children;
      ok := true;
    }
  }

  lemma ChildStep(own: Totals, ns: seq<MenuNode>, i: nat, depth: nat)
    requires i < |ns|
    ensures own.Plus(OfAll(ns[..i], depth)).Plus(Of(ns[i], depth)) == own.Plus(OfAll(ns[..i + 1], depth))
    ensures own.Plus(OfAll(ns, depth)).Accepted() ==> own.Plus(OfAll(ns[..i + 1], depth)).Accepted()
  {
    hide NodeOk, Totals.Plus, Totals.Accepted, Of;
    var before, child := OfAll(ns[..i], depth), Of(ns[i], depth);
    assert ns[..i + 1] == ns[..i] + [ns[i]];
    OfAllSplits(ns[..i], [ns[i]], depth);
    OfAllOne(ns[i], depth);
    PlusLaws(own, before, child);
    assert ns == ns[..i + 1] + ns[i + 1..];
    OfAllSplits(ns[..i + 1], ns[i + 1..], depth);
    PlusLaws(own, OfAll(ns[..i + 1], depth), OfAll(ns[i + 1..], depth));
    if own.Plus(OfAll(ns, depth)).Accepted() {
      RefusedStaysRefused(own.Plus(OfAll(ns[..i + 1], depth)), OfAll(ns[i + 1..], depth));
    }
  }

  /** protocol/validate.go, Menu.Validate. It accepts what the explicit-stack validator accepts. */
  method ValidateRecursive(menu: Menu) returns (ok: bool)
    ensures ok <==> WellFormed(menu)
  {
    hide NodeOk, Totals.Plus;
    if menu.root.id != 0 {
      return false;
    }
    var tally := new Tally();
    StartsEmpty(menu.root);
    ok := tally.ValidateNode(menu.root, 0, NOTHING);
  }
}
