/** The baseline a presenter starts from: the published items in a stable order by generation
    (internal/state/owner.go, snapshotLocked), and what a client makes of it. */
module Snapshots {
  import opened Protocol
  import opened Messages
  import opened Records

  /** The published items in registration order. */
  function Listed(items: map<Address, Entry>, order: seq<Address>): seq<Item> {
    if order == [] then []
    else
      var front, spot := Listed(items, order[..|order| - 1]), order[|order| - 1];
      if spot in items && items[spot].published && items[spot].item.Some? then front + [items[spot].item.value]
      else front
  }

  function Insert(sorted: seq<Item>, x: Item): (r: seq<Item>)
    ensures |r| == |sorted| + 1
  {
    if sorted == [] || sorted[|sorted| - 1].key.generation <= x.key.generation then sorted + [x]
    else Insert(sorted[..|sorted| - 1], x) + [sorted[|sorted| - 1]]
  }

  function StableSort(items: seq<Item>): (r: seq<Item>)
    ensures |r| == |items|
  {
    if items == [] then [] else Insert(StableSort(items[..|items| - 1]), items[|items| - 1])
  }

  function Snapshot(t: Table): seq<Item> {
    StableSort(Listed(t.items, t.order))
  }

  predicate Sorted(items: seq<Item>) {
    forall i, j :: 0 <= i < j < |items| ==> items[i].key.generation <= items[j].key.generation
  }

  function OfGeneration(items: seq<Item>, g: int): seq<Item> {
    if items == [] then []
    else
      var front, last := items[..|items| - 1], items[|items| - 1];
      OfGeneration(front, g) + if last.key.generation == g then [last] else []
  }

  lemma OfGenerationSnoc(items: seq<Item>, x: Item, g: int)
    ensures OfGeneration(items + [x], g) == OfGeneration(items, g) + if x.key.generation == g then [x] else []
  {
    assert (items + [x])[..|items|] == items;
  }

  lemma {:induction false} InsertPermutes(sorted: seq<Item>, x: Item)
    ensures multiset(Insert(sorted, x)) == multiset(sorted) + multiset{x}
  {
    if sorted == [] || sorted[|sorted| - 1].key.generation <= x.key.generation {
    } else {
      InsertPermutes(sorted[..|sorted| - 1], x);
      assert sorted == sorted[..|sorted| - 1] + [sorted[|sorted| - 1]];
    }
  }

  lemma {:induction false} InsertSorts(sorted: seq<Item>, x: Item)
    requires Sorted(sorted)
    ensures Sorted(Insert(sorted, x))
  {
    if sorted == [] || sorted[|sorted| - 1].key.generation <= x.key.generation {
    } else {
      var front, last := sorted[..|sorted| - 1], sorted[|sorted| - 1];
      InsertSorts(front, x);
      InsertPermutes(front, x);
      var r := Insert(front, x);
      forall i | 0 <= i < |r| ensures r[i].key.generation <= last.key.generation {
        assert r[i] in multiset(front) + multiset{x};
      }
      SortedSnoc(r, last);
    }
  }

  lemma SortedSnoc(items: seq<Item>, x: Item)
    requires Sorted(items) && forall i :: 0 <= i < |items| ==> items[i].key.generation <= x.key.generation
    ensures Sorted(items + [x])
  {
  }

  lemma {:induction false} InsertIsStable(sorted: seq<Item>, x: Item, g: int)
    ensures OfGeneration(Insert(sorted, x), g) == OfGeneration(sorted + [x], g)
  {
    if sorted == [] || sorted[|sorted| - 1].key.generation <= x.key.generation {
    } else {
      var front, last := sorted[..|sorted| - 1], sorted[|sorted| - 1];
      InsertIsStable(front, x, g);
      assert sorted == front + [last];
      OfGenerationSnoc(Insert(front, x), last, g);
      OfGenerationSnoc(sorted, x, g);
      OfGenerationSnoc(front, x, g);
      OfGenerationSnoc(front, last, g);
    }
  }

  lemma {:induction false} StableSortPermutes(items: seq<Item>)
    ensures multiset(StableSort(items)) == multiset(items)
  {
    if items == [] {
    } else {
      var front, last := items[..|items| - 1], items[|items| - 1];
      assert items == front + [last];
      StableSortPermutes(front);
      InsertPermutes(StableSort(front), last);
    }
  }

  lemma {:induction false} StableSortIsStable(items: seq<Item>, g: int)
    ensures OfGeneration(StableSort(items), g) == OfGeneration(items, g)
  {
    if items == [] {
    } else {
      var front, last := items[..|items| - 1], items[|items| - 1];
      StableSortIsStable(front, g);
      InsertIsStable(StableSort(front), last, g);
      OfGenerationSnoc(StableSort(front), last, g);
      assert items == front + [last];
      OfGenerationSnoc(front, last, g);
    }
  }

  lemma {:induction false} StableSortIsSorted(items: seq<Item>)
    ensures Sorted(StableSort(items))
  {
    if items == [] {
    } else {
      StableSortIsSorted(items[..|items| - 1]);
      InsertSorts(StableSort(items[..|items| - 1]), items[|items| - 1]);
    }
  }

  /** The sort is a stable one: ordered by generation, a permutation, and items of one generation
      keep their order. */
  lemma StableSortSorts(items: seq<Item>, g: int)
    ensures Sorted(StableSort(items)) && multiset(StableSort(items)) == multiset(items)
    ensures OfGeneration(StableSort(items), g) == OfGeneration(items, g)
  {
    StableSortIsSorted(items);
    StableSortPermutes(items);
    StableSortIsStable(items, g);
  }

  /** Exactly the published items, each once. */
  ghost predicate Lists(items: seq<Item>, v: View) {
    && DistinctKeys(items)
    && (forall i :: 0 <= i < |items| ==> items[i].key in v.items && v.items[items[i].key] == items[i])
    && (forall k :: k in v.items ==> v.items[k] in items && v.items[k].key == k)
  }

  lemma {:induction false} ListedIsPublished(t: Table, order: seq<Address>, key: ItemKey)
    requires TableOk(t) && NoRepeats(order)
    ensures |Listed(t.items, order)| <= |order|
    ensures DistinctKeys(Listed(t.items, order))
    ensures forall i :: 0 <= i < |Listed(t.items, order)| ==>
              var item := Listed(t.items, order)[i];
              && Shown(t, item.key) && AddressOf(item.key) in order
              && t.items[AddressOf(item.key)].item.value == item && ItemOk(item)
    ensures AddressOf(key) in order && Shown(t, key) ==> t.items[AddressOf(key)].item.value in Listed(t.items, order)
  {
    hide ItemOk;
    if order == [] {
    } else {
      var front, spot := order[..|order| - 1], order[|order| - 1];
      ListedIsPublished(t, front, key);
      assert order == front + [spot];
      if spot in t.items {
        assert EntryOk(spot, t.items[spot]);
      }
    }
  }

  lemma OrderIsShort(t: Table, order: seq<Address>)
    requires NoRepeats(order) && forall a :: a in order ==> a in t.items
    ensures |order| <= |t.items|
  {
    DistinctCount(order, t.items.Keys);
  }

  lemma {:induction false} DistinctCount(order: seq<Address>, all: set<Address>)
    requires NoRepeats(order) && forall a :: a in order ==> a in all
    ensures |order| <= |all|
  {
    if order == [] {
    } else {
      var front, last := order[..|order| - 1], order[|order| - 1];
      assert last !in front;
      DistinctCount(front, all - {last});
    }
  }

  lemma PermutationLists(items: seq<Item>, sorted: seq<Item>, v: View)
    requires Lists(items, v) && multiset(sorted) == multiset(items)
    ensures Lists(sorted, v)
  {
    forall i | 0 <= i < |sorted| ensures sorted[i] in items {
      assert sorted[i] in multiset(items);
    }
    forall x | x in items ensures x in sorted {
      assert x in multiset(sorted);
    }
    forall i, j | 0 <= i < j < |sorted| ensures sorted[i].key != sorted[j].key {
      if sorted[i].key == sorted[j].key {
        TwiceInSeq(sorted, i, j);
        OnceInDistinct(items, sorted[i]);
        assert false;
      }
    }
  }

  lemma TwiceInSeq(s: seq<Item>, i: nat, j: nat)
    requires i < j < |s| && s[i] == s[j]
    ensures multiset(s)[s[i]] >= 2
  {
    assert s == s[..j] + s[j..];
    assert s[..j][i] == s[i] && s[j..][0] == s[i];
    assert multiset(s) == multiset(s[..j]) + multiset(s[j..]);
  }

  lemma {:induction false} OnceInDistinct(s: seq<Item>, x: Item)
    requires DistinctKeys(s)
    ensures multiset(s)[x] <= 1
  {
    if s == [] {
    } else {
      var front, last := s[..|s| - 1], s[|s| - 1];
      assert s == front + [last];
      OnceInDistinct(front, x);
      if x == last {
        assert x !in front;
      }
    }
  }

  lemma {:induction false} ByKeyAt(items: seq<Item>, k: ItemKey)
    requires DistinctKeys(items)
    ensures k in ByKey(items) <==> exists i :: 0 <= i < |items| && items[i].key == k
    ensures k in ByKey(items) ==> ByKey(items)[k].key == k && ByKey(items)[k] in items
  {
    if items == [] {
    } else {
      var front := items[..|items| - 1];
      ByKeyAt(front, k);
      if k in ByKey(front) {
        var i :| 0 <= i < |front| && front[i].key == k;
        assert items[i].key == k;
      }
      assert items[|items| - 1].key == k || forall i :: 0 <= i < |items| && items[i].key == k ==> front[i].key == k;
    }
  }

  lemma ByKeyRebuilds(items: seq<Item>, v: View)
    requires Lists(items, v)
    ensures ByKey(items) == v.items
  {
    forall k
      ensures k in ByKey(items) <==> k in v.items
      ensures k in ByKey(items) && k in v.items ==> ByKey(items)[k] == v.items[k]
    {
      ByKeyAt(items, k);
      if k in v.items {
        var item := v.items[k];
        assert item in items;
        var i :| 0 <= i < |items| && items[i] == item;
        assert v.items[items[i].key] == items[i];
      }
    }
  }

  /** The snapshot is exactly the published items, ordered by generation and stable; a client that
      loads it holds the owner's view, and it is valid exactly when its pixmaps fit the aggregate. */
  lemma SnapshotMirrors(t: Table, g: int)
    requires TableOk(t)
    ensures var items := Snapshot(t);
            && Sorted(items) && Lists(items, ViewOf(t))
            && OfGeneration(items, g) == OfGeneration(Listed(t.items, t.order), g)
            && ByKey(items) == ViewOf(t).items
            && (SnapshotOk(items) <==> SnapshotBytes(items) <= MAX_PIXMAP_BYTES_AGGREGATE)
  {
    hide ViewOf, ItemOk, SnapshotBytes, TableOk;
    var listed, items := Listed(t.items, t.order), Snapshot(t);
    StableSortSorts(listed, g);
    ListedMirrors(t);
    PermutationLists(listed, items, ViewOf(t));
    ByKeyRebuilds(items, ViewOf(t));
    forall i | 0 <= i < |items| ensures ItemOk(items[i]) {
      assert items[i] in multiset(listed);
    }
  }

  lemma ListedMirrors(t: Table)
    requires TableOk(t)
    ensures var listed := Listed(t.items, t.order);
            Lists(listed, ViewOf(t)) && |listed| <= MAX_ITEMS && forall x :: x in listed ==> ItemOk(x)
  {
    hide ViewOf, ItemOk, Listed;
    var listed, v := Listed(t.items, t.order), ViewOf(t);
    OrderIsShort(t, t.order);
    forall k | k in v.items ensures v.items[k] in listed && v.items[k].key == k {
      ViewAt(t, k);
      ListedIsPublished(t, t.order, k);
    }
    ListedIsPublished(t, t.order, ItemKey([], [], 0));
    forall i | 0 <= i < |listed| ensures listed[i].key in v.items && v.items[listed[i].key] == listed[i] {
      ViewAt(t, listed[i].key);
    }
  }
}
