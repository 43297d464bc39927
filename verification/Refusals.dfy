/** A put and a delete that are refused for lack of room: the cases BTree.Put and BTree.Delete name do occur. */
module Refusals {
  import opened Bytes
  import opened Entries
  import opened NodePage
  import opened Tree
  import opened Room
  import opened BTree
  import opened DeleteLimits

  /** A value that is larger than a page does not go into an empty tree. */
  lemma TooLarge(key: Bytes, value: Bytes)
    requires |value| > PAGE_SIZE
    ensures RootJams(Leaf(1, 0, []), Entry(key, value, 0))
  {
    var e := Entry(key, value, 0);
    assert Heap([e], 1) == |key| + |value|;
    assert [e][..1] == [e];
  }

  /** Two long keys: a page has room for one of them, and not for both. */
  ghost const TWOS: Bytes := seq(2100, _ => 2)
  ghost const THREES: Bytes := seq(2100, _ => 3)

  ghost const SHORT := Entry([1], [], 0)
  ghost const MIDDLE := Entry(TWOS, [], 0)
  ghost const LAST := Entry(THREES, [], 0)

  /** A root over two leaves; the separator of the first is short, and the key after it long. */
  ghost const TIGHT := Branch(1, [Leaf(2, 3, [SHORT, MIDDLE]), Leaf(3, 0, [LAST])])
  ghost const TIGHT_PAGES: Store :=
    map[1 := Node(1, false, 0, [Entry([1], [], 2), Entry(THREES, [], 3)]), 2 := Node(2, true, 3, [SHORT, MIDDLE]), 3 := Node(3, true, 0, [LAST])]

  lemma Ranks()
    ensures Rank([1]) < Rank(TWOS) < Rank(THREES)
  {
    RankIsOrder([1], TWOS);
    RankIsOrder(TWOS, THREES);
  }

  lemma TwoHeap(e: Entry, f: Entry)
    ensures Heap([e, f], 2) == |e.key| + |e.value| + |f.key| + |f.value|
  {
    assert Heap([e, f], 1) == |e.key| + |e.value|;
  }

  lemma TightParts()
    ensures Seps(TIGHT.kids) == [Entry([1], [], 2), Entry(THREES, [], 3)] && Flat(TIGHT) == [SHORT, MIDDLE, LAST]
  {
    assert TIGHT.kids[1..][1..] == [];
    assert FlatAll(TIGHT.kids[1..]) == [LAST] + FlatAll([]);
    assert FlatAll(TIGHT.kids) == [SHORT, MIDDLE] + FlatAll(TIGHT.kids[1..]);
  }

  lemma TightHeld()
    ensures Held(TIGHT, TIGHT_PAGES)
  {
    TightParts();
    TwoHeap(SHORT, MIDDLE);
    TwoHeap(Entry([1], [], 2), Entry(THREES, [], 3));
    assert Heap([LAST], 1) == 2100;
    TwoKids(Leaf(2, 3, [SHORT, MIDDLE]), Leaf(3, 0, [LAST]), TIGHT_PAGES);
  }

  lemma TightTree()
    ensures IsTree(TIGHT, 1, TIGHT_PAGES, 1) && [1] in AsMap(Flat(TIGHT))
  {
    TightParts();
    TightHeld();
    Ranks();
    AsMapValue(Flat(TIGHT), 0);
  }

  /** Deleting the short key of this search tree needs both long keys in the root, which has no room for them. */
  lemma TightSwells()
    ensures IsTree(TIGHT, 1, TIGHT_PAGES, 1) && [1] in AsMap(Flat(TIGHT)) && Swells(TIGHT, [1])
  {
    TightTree();
    TightParts();
    Ranks();
    assert RouteIn(TIGHT, [1]) == 0;
    assert Remove([SHORT, MIDDLE], [1]) == [MIDDLE];
    assert Rest(TIGHT, [1]) == [MIDDLE, LAST];
    TwoHeap(MIDDLE, LAST);
  }
}
