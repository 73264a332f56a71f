/** convertLayout of internal/menu/model.go. The conversion keeps an explicit stack whose frames hold
    pointers into slices that later appends may reallocate, so the walk is modelled over an explicit
    memory of addressed cells. A `MenuNode` struct is a cell at an address; its `Children` slice is a
    window of consecutive cells inside a backing array. Appending past the capacity copies the whole
    array elsewhere, which leaves every older pointer into it pointing at a dead copy. */
module MenuWalk {
  import opened MenuTree
  import opened DBusValue
  import opened MenuLayout

  /** A node without its children, and the slice that holds them. */
  datatype Cell = Cell(node: MenuNode, start: nat, len: nat, cap: nat)
  type Memory = seq<Cell>

  predicate InSlack(c: Cell, x: nat) {
    c.start + c.len <= x < c.start + c.cap
  }

  ghost function Slack(c: Cell): set<nat> {
    set x: nat | x < c.start + c.cap && InSlack(c, x)
  }

  /** The live addresses of the tree stored at `a`: its cells and its slices' unused capacity. */
  ghost function Footprint(mem: Memory, a: nat, t: MenuNode): set<nat>
    decreases t
  {
    if a < |mem| then {a} + Slack(mem[a]) + FootprintAll(mem, mem[a].start, t.children) else {}
  }

  ghost function FootprintAll(mem: Memory, start: nat, ts: seq<MenuNode>): set<nat>
    decreases ts
  {
    if ts == [] then {}
    else FootprintAll(mem, start, ts[..|ts| - 1]) + Footprint(mem, start + |ts| - 1, ts[|ts| - 1])
  }

  /** The memory at `a` holds exactly the tree `t`, with no two of its parts sharing an address. */
  ghost predicate Holds(mem: Memory, a: nat, t: MenuNode)
    decreases t
  {
    && a < |mem|
    && mem[a].node == t.(children := [])
    && mem[a].len == |t.children| <= mem[a].cap
    && mem[a].start + mem[a].cap <= |mem|
    && HoldsAll(mem, mem[a].start, t.children)
    && a !in Slack(mem[a])
    && a !in FootprintAll(mem, mem[a].start, t.children)
    && Slack(mem[a]) !! FootprintAll(mem, mem[a].start, t.children)
  }

  ghost predicate HoldsAll(mem: Memory, start: nat, ts: seq<MenuNode>)
    decreases ts
  {
    ts == [] ||
    (var last := |ts| - 1;
     && HoldsAll(mem, start, ts[..last])
     && Holds(mem, start + last, ts[last])
     && FootprintAll(mem, start, ts[..last]) !! Footprint(mem, start + last, ts[last]))
  }

  /** A memory holds at most one tree at an address, so reading it back is unambiguous. */
  lemma {:induction false} HoldsUnique(mem: Memory, a: nat, t: MenuNode, u: MenuNode)
    requires Holds(mem, a, t) && Holds(mem, a, u)
    ensures t == u
    decreases t
  {
    HoldsAllUnique(mem, mem[a].start, t.children, u.children);
    assert t.(children := []) == u.(children := []);
    assert t.(children := []).(children := t.children) == t;
    assert u.(children := []).(children := u.children) == u;
  }

  lemma {:induction false} HoldsAllUnique(mem: Memory, start: nat, ts: seq<MenuNode>, us: seq<MenuNode>)
    requires |ts| == |us| && HoldsAll(mem, start, ts) && HoldsAll(mem, start, us)
    ensures ts == us
    decreases ts
  {
    if ts == [] {
    } else {
      var last := |ts| - 1;
      HoldsAllUnique(mem, start, ts[..last], us[..last]);
      HoldsUnique(mem, start + last, ts[last], us[last]);
      assert ts == ts[..last] + [ts[last]] && us == us[..last] + [us[last]];
    }
  }

  lemma {:induction false} FootprintBounded(mem: Memory, a: nat, t: MenuNode)
    requires Holds(mem, a, t)
    ensures forall x :: x in Footprint(mem, a, t) ==> x < |mem|
    decreases t
  {
    FootprintAllBounded(mem, mem[a].start, t.children);
  }

  lemma {:induction false} FootprintAllBounded(mem: Memory, start: nat, ts: seq<MenuNode>)
    requires HoldsAll(mem, start, ts)
    ensures forall x :: x in FootprintAll(mem, start, ts) ==> x < |mem|
    decreases ts
  {
    if ts == [] {
    } else {
      FootprintAllBounded(mem, start, ts[..|ts| - 1]);
      FootprintBounded(mem, start + |ts| - 1, ts[|ts| - 1]);
    }
  }

  lemma LastChild(mem: Memory, start: nat, ts: seq<MenuNode>)
    requires ts != [] && HoldsAll(mem, start, ts)
    ensures var last := |ts| - 1;
            && HoldsAll(mem, start, ts[..last]) && Holds(mem, start + last, ts[last])
            && FootprintAll(mem, start, ts[..last]) !! Footprint(mem, start + last, ts[last])
            && FootprintAll(mem, start, ts)
               == FootprintAll(mem, start, ts[..last]) + Footprint(mem, start + last, ts[last])
  {
    hide Holds, Footprint;
  }

  ghost predicate Agree(mem: Memory, mem': Memory, region: set<nat>) {
    |mem| <= |mem'| && forall x :: x in region && x < |mem| ==> mem'[x] == mem[x]
  }

  /** A tree stays where it is while nothing in its footprint changes; and its top cell may be
      copied elsewhere, as a reallocation does, without disturbing what lies below. */
  lemma {:induction false} Copied(mem: Memory, mem': Memory, a: nat, b: nat, t: MenuNode)
    requires Holds(mem, a, t) && Agree(mem, mem', Footprint(mem, a, t) - {a})
    requires b < |mem'| && mem'[b] == mem[a] && b !in Footprint(mem, a, t) - {a}
    ensures Holds(mem', b, t) && Footprint(mem', b, t) == Footprint(mem, a, t) - {a} + {b}
    decreases t, 0
  {
    FramedAll(mem, mem', mem[a].start, t.children);
  }

  lemma {:induction false} FramedAll(mem: Memory, mem': Memory, start: nat, ts: seq<MenuNode>)
    requires HoldsAll(mem, start, ts) && Agree(mem, mem', FootprintAll(mem, start, ts))
    ensures HoldsAll(mem', start, ts) && FootprintAll(mem', start, ts) == FootprintAll(mem, start, ts)
    decreases ts
  {
    hide Holds, HoldsAll, Footprint, FootprintAll, Agree;
    if ts == [] {
      NothingHeld(mem, start);
      NothingHeld(mem', start);
    } else {
      LastChild(mem, start, ts);
      var last := |ts| - 1;
      var front, t := ts[..last], ts[last];
      AgreeOnParts(mem, mem', FootprintAll(mem, start, front), Footprint(mem, start + last, t));
      FramedAll(mem, mem', start, front);
      FramedCell(mem, mem', start + last, t);
      SnocHolds(mem', start, front, t);
      assert ts == front + [t];
    }
  }

  lemma NothingHeld(mem: Memory, start: nat)
    ensures HoldsAll(mem, start, []) && FootprintAll(mem, start, []) == {}
  {
  }

  lemma AgreeOnParts(mem: Memory, mem': Memory, a: set<nat>, b: set<nat>)
    requires Agree(mem, mem', a + b)
    ensures Agree(mem, mem', a) && Agree(mem, mem', b)
  {
  }

  lemma {:induction false} FramedCell(mem: Memory, mem': Memory, a: nat, t: MenuNode)
    requires Holds(mem, a, t) && Agree(mem, mem', Footprint(mem, a, t))
    ensures Holds(mem', a, t) && Footprint(mem', a, t) == Footprint(mem, a, t)
    decreases t, 1
  {
    assert a in Footprint(mem, a, t);
    Copied(mem, mem', a, a, t);
  }

  /** The address of the spine node at level `d`, following the last child each time. */
  function SpineAddress(mem: Memory, a: nat, d: nat): nat
    decreases d
  {
    if d == 0 then a
    else if a < |mem| && mem[a].start + mem[a].len > 0 then SpineAddress(mem, mem[a].start + mem[a].len - 1, d - 1)
    else 0
  }

  const BLANK := Cell(MenuNode(0, [], false, false, false, [], [], [], 0, [], []), 0, 0, 0)

  /** Go's append to the `Children` of the struct at `target`: in place while there is capacity,
      otherwise into a fresh array of whatever larger capacity the runtime picks. */
  function Append(mem: Memory, target: nat, node: MenuNode, growth: nat): (r: (Memory, nat))
    requires target < |mem| && mem[target].len <= mem[target].cap && mem[target].start + mem[target].cap <= |mem|
  {
    var c := mem[target];
    if c.len < c.cap then
      (mem[c.start + c.len := Cell(node, 0, 0, 0)][target := c.(len := c.len + 1)], c.start + c.len)
    else
      (mem[target := Cell(c.node, |mem|, c.len + 1, c.len + 1 + growth)]
       + mem[c.start..c.start + c.len] + [Cell(node, 0, 0, 0)] + seq(growth, _ => BLANK),
       |mem| + c.len)
  }

  lemma LeafHolds(mem: Memory, a: nat, node: MenuNode)
    requires a < |mem| && mem[a] == Cell(node, 0, 0, 0) && node.children == []
    ensures Holds(mem, a, node) && Footprint(mem, a, node) == {a}
  {
    assert Slack(mem[a]) == {};
  }

  lemma SnocHolds(mem: Memory, start: nat, ts: seq<MenuNode>, n: MenuNode)
    requires HoldsAll(mem, start, ts) && Holds(mem, start + |ts|, n)
    requires FootprintAll(mem, start, ts) !! Footprint(mem, start + |ts|, n)
    ensures HoldsAll(mem, start, ts + [n])
    ensures FootprintAll(mem, start, ts + [n]) == FootprintAll(mem, start, ts) + Footprint(mem, start + |ts|, n)
  {
    hide Holds, Footprint;
    var all := ts + [n];
    assert all[..|all| - 1] == ts && all[|all| - 1] == n;
  }

  /** Children copied one by one into a fresh array keep everything below them. */
  lemma {:induction false} CopiedAll(mem: Memory, mem': Memory, start: nat, start': nat, ts: seq<MenuNode>)
    requires HoldsAll(mem, start, ts) && start + |ts| <= |mem| <= start' && start' + |ts| <= |mem'|
    requires Agree(mem, mem', FootprintAll(mem, start, ts))
    requires mem'[start'..start' + |ts|] == mem[start..start + |ts|]
    ensures HoldsAll(mem', start', ts)
    ensures forall x :: x in FootprintAll(mem', start', ts) ==>
              x in FootprintAll(mem, start, ts) || start' <= x < start' + |ts|
    decreases ts
  {
    hide Holds, Footprint;
    if ts == [] {
    } else {
      var last := |ts| - 1;
      assert mem'[start'..start' + last] == mem'[start'..start' + |ts|][..last];
      assert mem[start..start + last] == mem[start..start + |ts|][..last];
      assert mem'[start' + last] == mem'[start'..start' + |ts|][last] == mem[start..start + |ts|][last];
      CopiedAll(mem, mem', start, start', ts[..last]);
      FootprintAllBounded(mem, start, ts[..last]);
      FootprintBounded(mem, start + last, ts[last]);
      Copied(mem, mem', start + last, start' + last, ts[last]);
    }
  }

  /** The parts a stored node is made of; below, `Holds` is used only through these two lemmas. */
  ghost predicate Parts(mem: Memory, a: nat, t: MenuNode, c: Cell, below: set<nat>) {
    && a < |mem| && mem[a] == c
    && c.node == t.(children := [])
    && c.len == |t.children| <= c.cap && c.start + c.cap <= |mem|
    && HoldsAll(mem, c.start, t.children) && below == FootprintAll(mem, c.start, t.children)
    && a !in Slack(c) && a !in below && Slack(c) !! below
  }

  lemma HoldsUnfolds(mem: Memory, a: nat, t: MenuNode)
    requires Holds(mem, a, t)
    ensures a < |mem| && Parts(mem, a, t, mem[a], FootprintAll(mem, mem[a].start, t.children))
    ensures Footprint(mem, a, t) == {a} + Slack(mem[a]) + FootprintAll(mem, mem[a].start, t.children)
  {
    hide HoldsAll, FootprintAll, Slack;
  }

  lemma HoldsFolds(mem: Memory, a: nat, t: MenuNode)
    requires a < |mem| && Parts(mem, a, t, mem[a], FootprintAll(mem, mem[a].start, t.children))
    ensures Holds(mem, a, t)
    ensures Footprint(mem, a, t) == {a} + Slack(mem[a]) + FootprintAll(mem, mem[a].start, t.children)
  {
    hide HoldsAll, FootprintAll, Slack;
  }

  lemma GrownNode(mem: Memory, a: nat, t: MenuNode, node: MenuNode, c: Cell, below: set<nat>)
    requires node.children == [] && a < |mem| && mem[a] == c && c.node == t.(children := [])
    requires c.len == |t.children| + 1 <= c.cap && c.start + c.cap <= |mem|
    requires HoldsAll(mem, c.start, t.children) && below == FootprintAll(mem, c.start, t.children)
    requires mem[c.start + |t.children|] == Cell(node, 0, 0, 0)
    requires var added := c.start + |t.children|;
             a !in Slack(c) && a != added && a !in below && Slack(c) + {added} !! below
    ensures Holds(mem, a, AppendAt(t, 0, node))
    ensures Footprint(mem, a, AppendAt(t, 0, node)) == {a} + Slack(c) + below + {c.start + |t.children|}
  {
    hide Holds, Footprint, HoldsAll, FootprintAll;
    var added := c.start + |t.children|;
    LeafHolds(mem, added, node);
    SnocHolds(mem, c.start, t.children, node);
    assert !InSlack(c, added);
    assert t.(children := t.children + [node]).(children := []) == t.(children := []);
    HoldsFolds(mem, a, AppendAt(t, 0, node));
  }

  ghost predicate Appended(mem: Memory, mem': Memory, old_: set<nat>, new_: set<nat>) {
    && |mem| <= |mem'|
    && (forall x :: x in new_ ==> x in old_ || |mem| <= x)
    && (forall x :: 0 <= x < |mem| && x !in old_ ==> mem'[x] == mem[x])
  }

  lemma AppendInPlace(mem: Memory, a: nat, t: MenuNode, node: MenuNode, growth: nat)
    requires Holds(mem, a, t) && node.children == [] && mem[a].len < mem[a].cap
    ensures var (mem', added) := Append(mem, a, node, growth);
            && Holds(mem', a, AppendAt(t, 0, node)) && SpineKept(mem, mem', a, 0, added)
            && Appended(mem, mem', Footprint(mem, a, t), Footprint(mem', a, AppendAt(t, 0, node)))
  {
    hide Holds, Footprint, HoldsAll, FootprintAll;
    HoldsUnfolds(mem, a, t);
    var c := mem[a];
    var below := FootprintAll(mem, c.start, t.children);
    var (mem', added) := Append(mem, a, node, growth);
    assert SpineAddress(mem', a, 1) == SpineAddress(mem', added, 0);
    assert InSlack(c, added) && added in Slack(c);
    assert forall x: nat :: InSlack(mem'[a], x) ==> InSlack(c, x);
    FramedAll(mem, mem', c.start, t.children);
    GrownNode(mem', a, t, node, mem'[a], below);
  }

  lemma AppendReallocates(mem: Memory, a: nat, t: MenuNode, node: MenuNode, growth: nat)
    requires Holds(mem, a, t) && node.children == [] && mem[a].len == mem[a].cap
    ensures var (mem', added) := Append(mem, a, node, growth);
            && Holds(mem', a, AppendAt(t, 0, node)) && SpineKept(mem, mem', a, 0, added)
            && Appended(mem, mem', Footprint(mem, a, t), Footprint(mem', a, AppendAt(t, 0, node)))
  {
    hide Holds, Footprint, HoldsAll, FootprintAll;
    HoldsUnfolds(mem, a, t);
    var c := mem[a];
    FootprintAllBounded(mem, c.start, t.children);
    var (mem', added) := Append(mem, a, node, growth);
    assert SpineAddress(mem', a, 1) == SpineAddress(mem', added, 0);
    assert mem'[|mem|..|mem| + c.len] == mem[c.start..c.start + c.len];
    CopiedAll(mem, mem', c.start, |mem|, t.children);
    var below := FootprintAll(mem', |mem|, t.children);
    assert mem'[added] == Cell(node, 0, 0, 0);
    GrownNode(mem', a, t, node, mem'[a], below);
  }

  /** Appending through a pointer to a spine node. The pointer is live, the tree in memory gains
      exactly that child, and the pointers to every higher spine node survive any reallocation. */
  lemma {:induction false} AppendThroughPointer(mem: Memory, a: nat, t: MenuNode, d: nat, node: MenuNode, growth: nat)
    requires Holds(mem, a, t) && HasSpine(t, d) && node.children == []
    ensures var target := SpineAddress(mem, a, d);
            && target < |mem| && mem[target].len <= mem[target].cap && mem[target].start + mem[target].cap <= |mem|
            && var (mem', added) := Append(mem, target, node, growth);
            && Holds(mem', a, AppendAt(t, d, node))
            && Appended(mem, mem', Footprint(mem, a, t), Footprint(mem', a, AppendAt(t, d, node)))
            && SpineKept(mem, mem', a, d, added)
    decreases d
  {
    hide Holds, Footprint, HoldsAll, FootprintAll;
    HoldsUnfolds(mem, a, t);
    if d == 0 {
      if mem[a].len < mem[a].cap {
        AppendInPlace(mem, a, t, node, growth);
      } else {
        AppendReallocates(mem, a, t, node, growth);
      }
    } else {
      var last := |t.children| - 1;
      LastChild(mem, mem[a].start, t.children);
      AppendThroughPointer(mem, mem[a].start + last, t.children[last], d - 1, node, growth);
      var (mem', added) := Append(mem, SpineAddress(mem, a, d), node, growth);
      LastChildReplaced(mem, mem', a, t, AppendAt(t.children[last], d - 1, node));
      SpineKeptBelow(mem, mem', a, d, added);
    }
  }

  ghost predicate SpineKept(mem: Memory, mem': Memory, a: nat, d: nat, added: nat) {
    && (forall k :: 0 <= k <= d ==> SpineAddress(mem', a, k) == SpineAddress(mem, a, k))
    && SpineAddress(mem', a, d + 1) == added
  }

  lemma SpineKeptBelow(mem: Memory, mem': Memory, a: nat, d: nat, added: nat)
    requires d > 0 && a < |mem| <= |mem'| && mem'[a] == mem[a] && mem[a].start + mem[a].len > 0
    requires SpineKept(mem, mem', mem[a].start + mem[a].len - 1, d - 1, added)
    ensures SpineKept(mem, mem', a, d, added)
  {
    forall k | 0 <= k <= d ensures SpineAddress(mem', a, k) == SpineAddress(mem, a, k) {
      if k > 0 {
        var last := mem[a].start + mem[a].len - 1;
        assert SpineAddress(mem', last, k - 1) == SpineAddress(mem, last, k - 1);
      }
    }
  }

  /** Changing only the last child's part of memory changes only the last child. */
  lemma LastChildReplaced(mem: Memory, mem': Memory, a: nat, t: MenuNode, u: MenuNode)
    requires Holds(mem, a, t) && t.children != []
    requires var last := |t.children| - 1;
             var b := mem[a].start + last;
             Holds(mem', b, u) && Appended(mem, mem', Footprint(mem, b, t.children[last]), Footprint(mem', b, u))
    ensures var t' := t.(children := t.children[..|t.children| - 1] + [u]);
            && mem'[a] == mem[a] && Holds(mem', a, t')
            && Appended(mem, mem', Footprint(mem, a, t), Footprint(mem', a, t'))
  {
    hide Holds, Footprint, HoldsAll, FootprintAll;
    HoldsUnfolds(mem, a, t);
    var c, last := mem[a], |t.children| - 1;
    var front, t' := t.children[..last], t.(children := t.children[..last] + [u]);
    LastChild(mem, c.start, t.children);
    FootprintAllBounded(mem, c.start, front);
    FramedAll(mem, mem', c.start, front);
    SnocHolds(mem', c.start, front, u);
    assert t'.(children := []) == t.(children := []);
    HoldsFolds(mem', a, t');
  }

  /** Each frame's pointer is the address of the spine node its source hangs from. */
  predicate Aimed(mem: Memory, stack: seq<Pending>) {
    forall i :: 0 <= i < |stack| ==> stack[i].depth >= 1 && stack[i].target == SpineAddress(mem, 0, stack[i].depth - 1)
  }

  ghost predicate Walking(mem: Memory, t: MenuNode, stack: seq<Pending>) {
    Holds(mem, 0, t) && OnSpine(t, stack) && Aimed(mem, stack)
  }

  ghost function StackRank(stack: seq<Pending>): nat {
    if stack == [] then 0 else StackRank(stack[..|stack| - 1]) + 1 + Rank(stack[|stack| - 1].source)
  }

  lemma {:induction false} PushedFacts(rest: seq<Pending>, sources: seq<Value>, target: nat, depth: nat)
    ensures var stack := rest + Pushed(sources, target, depth);
            && StackRank(stack) == StackRank(rest) + RankAll(sources)
            && (forall i :: |rest| <= i < |stack| ==> stack[i].depth == depth && stack[i].target == target)
    decreases |sources|
  {
    var stack := rest + Pushed(sources, target, depth);
    if sources == [] {
      assert stack == rest;
    } else {
      PushedFacts(rest, sources[1..], target, depth);
      assert stack == rest + Pushed(sources[1..], target, depth) + [Pending(sources[0], target, depth)];
      assert stack[..|stack| - 1] == rest + Pushed(sources[1..], target, depth);
    }
  }

  lemma SpineStep(t: MenuNode, rest: seq<Pending>, top: Pending, node: MenuNode, sources: seq<Value>, added: nat)
    requires OnSpine(t, rest + [top])
    ensures top.depth >= 1 && OnSpine(AppendAt(t, top.depth - 1, node), rest + Pushed(sources, added, top.depth + 1))
  {
    hide HasSpine, AppendAt, Pushed, StackRank;
    var stack, d := rest + [top], top.depth - 1;
    assert stack[|rest|] == top;
    PushedFacts([], sources, added, d + 2);
    var pushed := Pushed(sources, added, d + 2);
    assert [] + pushed == pushed;
    DepthsRise(rest, top, pushed);
    var t', stack' := AppendAt(t, d, node), rest + pushed;
    forall i | 0 <= i < |stack'| ensures stack'[i].depth >= 1 && HasSpine(t', stack'[i].depth - 1) {
      assert i < |rest| ==> stack'[i] == rest[i] == stack[i];
      assert i >= |rest| ==> stack'[i] == pushed[i - |rest|];
      SpineGrows(t, d, node, if i < |rest| then rest[i].depth - 1 else d + 1);
    }
  }

  lemma DepthsRise(rest: seq<Pending>, top: Pending, pushed: seq<Pending>)
    requires var stack := rest + [top];
             forall i, j :: 0 <= i < j < |stack| ==> stack[i].depth <= stack[j].depth
    requires forall i :: 0 <= i < |pushed| ==> pushed[i].depth == top.depth + 1
    ensures forall i :: 0 <= i < |rest| ==> rest[i].depth <= top.depth
    ensures var stack := rest + pushed;
            forall i, j :: 0 <= i < j < |stack| ==> stack[i].depth <= stack[j].depth
  {
    var stack := rest + [top];
    assert forall i :: 0 <= i < |rest| ==> stack[i] == rest[i];
    assert stack[|rest|] == top;
  }

  lemma AimStep(mem: Memory, mem': Memory, rest: seq<Pending>, top: Pending, sources: seq<Value>, added: nat)
    requires Aimed(mem, rest + [top]) && top.depth >= 1 && SpineKept(mem, mem', 0, top.depth - 1, added)
    requires forall i :: 0 <= i < |rest| ==> rest[i].depth <= top.depth
    ensures Aimed(mem', rest + Pushed(sources, added, top.depth + 1))
  {
    hide SpineAddress;
    var stack := rest + [top];
    assert forall i :: 0 <= i < |rest| ==> stack[i] == rest[i];
    PushedFacts(rest, sources, added, top.depth + 1);
    var stack' := rest + Pushed(sources, added, top.depth + 1);
    assert forall i :: 0 <= i < |rest| ==> stack'[i] == rest[i];
  }

  /** The heart of the walk: after one turn every remaining pointer is still live and on the spine. */
  lemma WalkStep(
    mem: Memory, t: MenuNode, rest: seq<Pending>, top: Pending, node: MenuNode, sources: seq<Value>, growth: nat)
    requires Walking(mem, t, rest + [top]) && node.children == []
    ensures top.depth >= 1 && top.target < |mem| && mem[top.target].len <= mem[top.target].cap
            && mem[top.target].start + mem[top.target].cap <= |mem|
    ensures var (mem', added) := Append(mem, top.target, node, growth);
            Walking(mem', AppendAt(t, top.depth - 1, node), rest + Pushed(sources, added, top.depth + 1))
  {
    hide Holds, HasSpine, SpineAddress, AppendAt, Appended, Footprint, SpineKept, Pushed, Append;
    var stack := rest + [top];
    assert stack[|rest|] == top;
    assert forall i :: 0 <= i < |rest| ==> stack[i] == rest[i];
    AppendThroughPointer(mem, 0, t, top.depth - 1, node, growth);
    var (mem', added) := Append(mem, top.target, node, growth);
    SpineStep(t, rest, top, node, sources, added);
    AimStep(mem, mem', rest, top, sources, added);
  }

  /** The bounds the walk checks are exactly the bounds of the finished tree. */
  lemma StopsRightly(layout: Value, t: MenuNode, stack: seq<Pending>)
    requires stack != [] && OnSpine(t, stack) && Finish(t, stack) == ConvertTree(layout)
    requires stack[|stack| - 1].depth > MAX_MENU_DEPTH || Of(t, 0).nodes + 1 > MAX_MENU_NODES
    ensures !Convertible(layout)
  {
    hide Of, Finish, OnSpine, ConvertTree;
    if Convertible(layout) {
      FinishOnlyGrows(t, stack);
    }
  }

  lemma LeafAppended(t: MenuNode, d: nat, n: MenuNode)
    requires HasSpine(t, d) && n.children == []
    ensures Of(AppendAt(t, d, n), 0).nodes == Of(t, 0).nodes + 1
    ensures Of(AppendAt(t, d, n), 0).deepest <= Of(t, 0).deepest || Of(AppendAt(t, d, n), 0).deepest == d + 1
  {
    hide NodeOk;
    AppendTotals(t, d, n, 0);
  }

  method PushChildren(stack: seq<Pending>, sources: seq<Value>, target: nat, depth: nat) returns (r: seq<Pending>)
    ensures r == stack + Pushed(sources, target, depth)
  {
    r := stack;
    var i := |sources|;
    assert sources[i..] == [];
    while i > 0
      invariant 0 <= i <= |sources|
      invariant r == stack + Pushed(sources[i..], target, depth)
    {
      i := i - 1;
      assert sources[i..][1..] == sources[i + 1..];
      r := r + [Pending(sources[i], target, depth)];
    }
    assert sources[0..] == sources;
  }

  /** The bounded walk. It succeeds exactly on the convertible layouts, and then its memory holds the
      tree of the plain recursion, whatever capacities the runtime chose. */
  method ConvertLayout(layout: Value, growth: nat -> nat) returns (ok: bool, mem: Memory)
    ensures ok <==> Convertible(layout)
    ensures ok ==> Holds(mem, 0, ConvertTree(layout).value)
  {
    hide ConvertNode, ConvertTree, Holds, OnSpine, Of, AppendAt, Finish, StackRank, HasSpine, ChildSources, Aimed;
    var root := ConvertNode(layout);
    WalkBegins(layout);
    mem := [];
    if root.None? {
      return false, mem;
    }
    mem := [Cell(root.value, 0, 0, 0)];
    ghost var tree := root.value;
    var stack := PushChildren([], ChildSources(layout), 0, 1);
    var nodes: nat := 1;
    while |stack| > 0
      invariant Walking(mem, tree, stack)
      invariant Finish(tree, stack) == ConvertTree(layout)
      invariant nodes == Of(tree, 0).nodes && WithinWalkBounds(tree)
      decreases StackRank(stack)
    {
      ghost var before := stack;
      var current := stack[|stack| - 1];
      stack := stack[..|stack| - 1];
      assert before == stack + [current];
      if current.depth > MAX_MENU_DEPTH {
        StopsRightly(layout, tree, before);
        return false, mem;
      }
      nodes := nodes + 1;
      if nodes > MAX_MENU_NODES {
        StopsRightly(layout, tree, before);
        return false, mem;
      }
      var node := ConvertNode(current.source);
      WalkTurns(mem, tree, stack, current, growth);
      if node.None? {
        return false, mem;
      }
      var (grown, added) := Append(mem, current.target, node.value, growth(mem[current.target].len));
      mem := grown;
      tree := AppendAt(tree, current.depth - 1, node.value);
      stack := PushChildren(stack, ChildSources(current.source), added, current.depth + 1);
    }
    AppendTop(tree, tree);
    ok := true;
  }

  lemma LeafTotals(t: MenuNode)
    requires t.children == []
    ensures Of(t, 0).nodes == 1 && WithinWalkBounds(t)
  {
    hide NodeOk;
  }

  lemma WalkBegins(layout: Value)
    ensures ConvertNode(layout).None? ==> ConvertTree(layout).None?
    ensures ConvertNode(layout).Some? ==>
              var t, stack := ConvertNode(layout).value, Pushed(ChildSources(layout), 0, 1);
              && Walking([Cell(t, 0, 0, 0)], t, [] + stack)
              && Finish(t, [] + stack) == ConvertTree(layout)
              && Of(t, 0).nodes == 1 && WithinWalkBounds(t)
  {
    hide ConvertNode, ConvertTree, ChildSources, Of, Finish, Walking, Pushed;
    TreeUnfolds(layout);
    if ConvertNode(layout).Some? {
      var t := ConvertNode(layout).value;
      LeafTotals(t);
      LeafWalks(t, ChildSources(layout));
      FinishTopLevel(t, ChildSources(layout));
      assert [] + Pushed(ChildSources(layout), 0, 1) == Pushed(ChildSources(layout), 0, 1);
    }
  }

  lemma LeafWalks(node: MenuNode, sources: seq<Value>)
    requires node.children == []
    ensures Walking([Cell(node, 0, 0, 0)], node, [] + Pushed(sources, 0, 1))
  {
    hide Holds, Pushed, StackRank;
    LeafHolds([Cell(node, 0, 0, 0)], 0, node);
    PushedFacts([], sources, 0, 1);
  }

  lemma WalkTurns(mem: Memory, t: MenuNode, rest: seq<Pending>, top: Pending, growth: nat -> nat)
    requires Walking(mem, t, rest + [top]) && top.depth <= MAX_MENU_DEPTH
    requires WithinWalkBounds(t) && Of(t, 0).nodes < MAX_MENU_NODES
    ensures top.depth >= 1 && top.target < |mem| && mem[top.target].len <= mem[top.target].cap
            && mem[top.target].start + mem[top.target].cap <= |mem|
    ensures ConvertNode(top.source).None? ==> Finish(t, rest + [top]).None?
    ensures ConvertNode(top.source).Some? ==>
              var node := ConvertNode(top.source).value;
              var (mem', added) := Append(mem, top.target, node, growth(mem[top.target].len));
              var t' := AppendAt(t, top.depth - 1, node);
              var stack' := rest + Pushed(ChildSources(top.source), added, top.depth + 1);
              && Walking(mem', t', stack')
              && Finish(t', stack') == Finish(t, rest + [top])
              && Of(t', 0).nodes == Of(t, 0).nodes + 1 && WithinWalkBounds(t')
              && StackRank(stack') < StackRank(rest + [top])
  {
    hide ConvertNode, ConvertTree, Holds, Of, AppendAt, Finish, HasSpine, ChildSources, StackRank, Append;
    var stack := rest + [top];
    assert stack[|rest|] == top;
    WalkStep(mem, t, rest, top, BLANK.node, [], 0);
    var growth' := growth(mem[top.target].len);
    FinishStep(t, rest, top.source, top.target, top.target, top.depth - 1);
    if ConvertNode(top.source).Some? {
      var node := ConvertNode(top.source).value;
      TreeUnfolds(top.source);
      WalkStep(mem, t, rest, top, node, ChildSources(top.source), growth');
      var (mem', added) := Append(mem, top.target, node, growth');
      FinishStep(t, rest, top.source, top.target, added, top.depth - 1);
      LeafAppended(t, top.depth - 1, node);
      PushedFacts(rest, ChildSources(top.source), added, top.depth + 1);
      PoppedRank(rest, top);
    }
  }

  lemma PoppedRank(rest: seq<Pending>, top: Pending)
    ensures StackRank(rest + [top]) == StackRank(rest) + 1 + Rank(top.source)
    ensures RankAll(ChildSources(top.source)) <= Rank(top.source)
  {
    assert (rest + [top])[..|rest|] == rest;
    ChildSourcesRank(top.source);
  }
}
