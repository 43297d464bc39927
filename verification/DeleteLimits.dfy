/** Trees on which a delete does not keep everything: the two cases BTree.Delete names do occur. */
module DeleteLimits {
  import opened Bytes
  import opened Entries
  import opened NodePage
  import opened Tree
  import opened TreePut
  import opened TreeDelete
  import opened BTree

  const A := Entry([1], [], 0)
  const B := Entry([2], [], 0)

  /** A root branch on page 1 with one leaf. */
  ghost const LONE := Branch(1, [Leaf(2, 0, [A])])
  ghost const LONE_PAGES: Store := map[1 := Node(1, false, 0, [Entry([1], [], 2)]), 2 := Node(2, true, 0, [A])]

  lemma OneFits(e: Entry)
    requires |e.key| == 1 && |e.value| == 0
    ensures Fits([e])
  {
    assert Heap([e], 1) == 1;
  }

  lemma TwoFit(e: Entry, f: Entry)
    requires |e.key| == 1 && |e.value| == 0 && |f.key| == 1 && |f.value| == 0
    ensures Fits([e, f])
  {
    assert Heap([e, f], 1) == 1;
    assert Heap([e, f], 2) == 2;
  }

  lemma LeafHeld(id: nat, next: nat, e: Entry, s: Store)
    requires |e.key| == 1 && |e.value| == 0 && e.child == 0 && next < U64_LIMIT && id in s && s[id] == Node(id, true, next, [e])
    ensures Held(Leaf(id, next, [e]), s)
  {
    OneFits(e);
  }

  lemma OneKid(t: Tree, s: Store)
    requires Held(t, s)
    ensures HeldAll([t], s) && IdsAll([t]) == Ids(t)
  {
    assert [t][1..] == [];
    assert IdsAll([]) == {};
  }

  lemma TwoKids(t: Tree, u: Tree, s: Store)
    requires Held(t, s) && Held(u, s) && Ids(t) !! Ids(u)
    ensures HeldAll([t, u], s) && IdsAll([t, u]) == Ids(t) + Ids(u)
  {
    OneKid(u, s);
    assert [t, u][1..] == [u];
  }

  lemma LoneParts()
    ensures Seps(LONE.kids) == [Entry([1], [], 2)] && Flat(LONE) == [A]
  {
    assert LONE.kids[1..] == [];
    assert FlatAll(LONE.kids) == [A] + FlatAll([]);
  }

  lemma LoneHeld()
    ensures Held(LONE, LONE_PAGES)
  {
    LoneParts();
    OneFits(Entry([1], [], 2));
    LeafHeld(2, 0, A, LONE_PAGES);
    OneKid(Leaf(2, 0, [A]), LONE_PAGES);
  }

  /**
   * A search tree whose root branch has a single key left: deleting it leaves no tree.  A root branch
   * over one leaf comes from a taller tree, when the root takes over an only child that is a branch
   * with one leaf; of two leaves below a root the last is pulled up.
   */
  lemma LoneTree()
    ensures IsTree(LONE, 1, LONE_PAGES, 1) && LastBelowBranch(LONE, [1])
  {
    LoneParts();
    LoneHeld();
    assert AsMap([A]) == map[[1] := []];
  }

  /** A root branch on page 1 with two leaves of one key each, linked in order. */
  ghost const PAIR := Branch(1, [Leaf(2, 3, [A]), Leaf(3, 0, [B])])
  ghost const PAIR_PAGES: Store :=
    map[1 := Node(1, false, 0, [Entry([1], [], 2), Entry([2], [], 3)]), 2 := Node(2, true, 3, [A]), 3 := Node(3, true, 0, [B])]

  lemma PairParts()
    ensures Seps(PAIR.kids) == [Entry([1], [], 2), Entry([2], [], 3)]
    ensures Flat(PAIR) == [A, B] && Leaves(PAIR) == [Leaf(2, 3, [A]), Leaf(3, 0, [B])] && Links(PAIR) == [(2, 3), (3, 0)]
  {
    assert PAIR.kids[1..][1..] == [];
    assert FlatAll(PAIR.kids[1..]) == [B] + FlatAll([]);
    assert LeavesAll(PAIR.kids[1..]) == [Leaf(3, 0, [B])] + LeavesAll([]);
    assert LinksAll(PAIR.kids[1..]) == [(3, 0)] + LinksAll([]);
    assert FlatAll(PAIR.kids) == [A] + FlatAll(PAIR.kids[1..]);
    assert LeavesAll(PAIR.kids) == [Leaf(2, 3, [A])] + LeavesAll(PAIR.kids[1..]);
    assert LinksAll(PAIR.kids) == [(2, 3)] + LinksAll(PAIR.kids[1..]);
  }

  lemma PairHeld()
    ensures Held(PAIR, PAIR_PAGES)
  {
    PairParts();
    TwoFit(Entry([1], [], 2), Entry([2], [], 3));
    LeafHeld(2, 3, A, PAIR_PAGES);
    LeafHeld(3, 0, B, PAIR_PAGES);
    TwoKids(Leaf(2, 3, [A]), Leaf(3, 0, [B]), PAIR_PAGES);
  }

  /** A search tree with its leaf chain in order, whose second leaf a delete empties: the chain then skips. */
  lemma PairTree()
    ensures IsTree(PAIR, 1, PAIR_PAGES, 1) && Chained(Links(PAIR), 0)
    ensures !LastBelowBranch(PAIR, [2]) && EmptiesInnerLeaf(Leaves(PAIR), [2])
  {
    PairParts();
    PairHeld();
    RankIsOrder([1], [2]);
    assert AsMap([A, B][1..]) == map[[2] := []];
    assert AsMap([A, B]) == map[[2] := [], [1] := []];
    assert Sole(Leaves(PAIR), 1, [2]);
  }
}
