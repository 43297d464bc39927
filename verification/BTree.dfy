/** The B+Tree over pager pages. */
module BTree {
  import opened Bytes
  import opened Options
  import opened Entries
  import opened NodePage
  import opened Pager
  import opened Tree
  import opened TreePut
  import opened TreeIO
  import opened Room
  import opened PutPages
  import opened TreeDelete
  import opened DeletePages

  // ---- the tree object ----

  /** Every pair of the map takes at most PAIR_LIMIT bytes. */
  ghost predicate SmallPairs(m: map<Bytes, Bytes>) {
    forall k | k in m :: |k| + |m[k]| <= PAIR_LIMIT
  }

  lemma SmallFlat(es: seq<Entry>)
    requires Sorted(es) && SmallPairs(AsMap(es))
    ensures Small(es)
  {
    forall i | 0 <= i < |es|
      ensures |es[i].key| + |es[i].value| <= PAIR_LIMIT
    {
      AsMapValue(es, i);
    }
  }

  lemma InsertFacts(es: seq<Entry>, e: Entry)
    requires Sorted(es)
    ensures Sorted(Insert(es, e))
    ensures AsMap(Insert(es, e)) == AsMap(es)[e.key := e.value]
    ensures SmallPairs(AsMap(es)) && |e.key| + |e.value| <= PAIR_LIMIT ==> Small(Insert(es, e))
  {
    InsertSorted(es, e, -1.0);
    AsMapInsert(es, e);
    if SmallPairs(AsMap(es)) && |e.key| + |e.value| <= PAIR_LIMIT {
      SmallFlat(es);
      SmallInsert(es, e);
    }
  }

  lemma RootLift(t: Tree, t': Tree, e: Entry, s: Store, s': Store, h: nat) returns (h': nat)
    requires RootGrown(t, t', e, s, s') && HeightIs(t, h)
    ensures HeightIs(t', h') && h <= h' <= h + 1
  {
    h' := if HeightIs(t', h) then h else h + 1;
  }

  method PutTree(pager: Pager, root: nat, key: Bytes, value: Bytes, ghost t: Tree, ghost h: nat)
    returns (r: Result<()>, ghost t': Tree, ghost h': nat)
    requires pager.Valid() && IsTree(t, root, pager.nodes, h) && |key| > 0
    modifies pager
    ensures r.Ok? ==> pager.Valid() && pager.meta.rootPage == old(pager.meta.rootPage) && IsTree(t', root, pager.nodes, h')
    ensures r.Ok? ==> AsMap(Flat(t')) == AsMap(Flat(t))[key := value] && h <= h' <= h + 1
    ensures r.Ok? ==> pager.nodes.Keys == old(pager.nodes.Keys) + Ids(t') && Ids(t) <= Ids(t')
    ensures r.Ok? && Chained(Links(t), 0) ==> Chained(Links(t'), 0)
    ensures r.Err? ==> LeftBy(pager, r.error) && (r.error == OutOfPages || r.error == DoesNotFit)
    ensures r.Ok? ==> !RootJams(t, Entry(key, value, 0))
    ensures r == Err(DoesNotFit) ==> RootJams(t, Entry(key, value, 0))
    ensures r == Err(OutOfPages) ==> old(pager.meta.freeCount) < RootNeeds(t, Entry(key, value, 0))
    ensures r == Err(OutOfPages) && t.Leaf? ==> pager.nodes == old(pager.nodes) && pager.meta.rootPage == old(pager.meta.rootPage)
    ensures SmallPairs(AsMap(Flat(t))) && |key| + |value| <= PAIR_LIMIT ==> r != Err(DoesNotFit)
  {
    ghost var e := Entry(key, value, 0);
    InsertFacts(Flat(t), e);
    h' := h;
    r, t' := PutRoot(pager, root, key, value, t);
    if r.Ok? {
      h' := RootLift(t, t', e, old(pager.nodes), pager.nodes, h);
    }
  }

  method DeleteTree(pager: Pager, root: nat, key: Bytes, ghost t: Tree, ghost h: nat)
    returns (r: Result<()>, ghost t': Tree, ghost h': nat)
    requires pager.Valid() && IsTree(t, root, pager.nodes, h)
    modifies pager
    ensures pager.Valid() && pager.meta.rootPage == old(pager.meta.rootPage)
    ensures r.Ok? ==> old(pager.freeSet) <= pager.freeSet <= old(pager.freeSet) + Ids(t)
    ensures r.Ok? && !LastBelowBranch(t, key) ==> IsTree(t', root, pager.nodes, h') && AsMap(Flat(t')) == AsMap(Flat(t)) - {key}
    ensures r.Ok? && !LastBelowBranch(t, key) && Chained(Links(t), 0) ==>
      (Chained(Links(t'), 0) <==> !EmptiesInnerLeaf(Leaves(t), key))
    ensures r.Ok? && LastBelowBranch(t, key) ==> Childless(root, pager.nodes)
    ensures r.Err? ==> r.error == DoesNotFit
    ensures r.Err? <==> key in AsMap(Flat(t)) && Swells(t, key)
    ensures key !in AsMap(Flat(t)) ==> unchanged(pager)
  {
    AsMapSize(Flat(t));
    AsMapKeys(Flat(t), key);
    h' := h;
    r, t' := DeleteRoot(pager, root, key, t);
    if r.Ok? {
      if !LastBelowBranch(t, key) {
        h' := RemoveFacts(t, t', key, pager.nodes, h);
      }
    }
  }

  /** The tree has a root branch and holds this one key only. */
  ghost predicate LastBelowBranch(t: Tree, key: Bytes) {
    t.Branch? && |AsMap(Flat(t))| == 1 && key in AsMap(Flat(t))
  }

  /** t is the search tree on the pages of s below the root page. */
  ghost predicate IsTree(t: Tree, root: nat, s: Store, h: nat) {
    t.id == root && RootHeld(t, s) && Sorted(Flat(t)) && HeightIs(t, h)
  }

  class BTree {
    const pager: Pager
    const root: nat

    ghost var tree: Tree
    ghost var height: nat

    ghost predicate Valid()
      reads this, pager
    {
      pager.Valid() && IsTree(tree, root, pager.nodes, height)
    }

    /** Deleting the last key below a root branch has left a branch without entries, which is no tree. */
    ghost predicate Emptied()
      reads this, pager
    {
      pager.Valid() && Childless(root, pager.nodes)
    }

    /** A view of the tree whose root is on the given page. */
    constructor (pager: Pager, root: nat, ghost tree: Tree, ghost height: nat)
      ensures this.pager == pager && this.root == root && this.tree == tree && this.height == height
    {
      this.pager, this.root, this.tree, this.height := pager, root, tree, height;
    }

    /** The map the tree stands for. */
    ghost function Contents(): map<Bytes, Bytes>
      reads this
    {
      AsMap(Flat(tree))
    }

    /** The leaf chain is the in-order sequence of the leaves. */
    ghost predicate InOrder()
      reads this
    {
      Chained(Links(tree), 0)
    }

    /** No page of the tree is on the free list, out of range, or the meta page. */
    lemma PagesOwned()
      requires Valid()
      ensures Ids(tree) <= pager.nodes.Keys && Ids(tree) !! pager.freeSet
      ensures forall x | x in Ids(tree) :: 0 < x < pager.meta.pageCount
    {
      if Held(tree, pager.nodes) {
        IdsHeld(tree, pager.nodes);
      }
    }

    method Get(key: Bytes) returns (r: Result<Option<Bytes>>)
      requires Valid() || Emptied()
      ensures |key| == 0 ==> r == Err(KeyRequired)
      ensures |key| > 0 && Valid() ==> r == Ok(if key in Contents() then Some(Contents()[key]) else None)
      ensures |key| > 0 && Emptied() ==> r == Err(NoEntries)
    {
      if |key| == 0 {
        return Err(KeyRequired);
      }
      var gone := IsEmptied();
      if gone {
        return Err(NoEntries);
      }
      r := GetAt(pager, root, key, tree);
    }

    /** Whether the root is a branch without entries. */
    method IsEmptied() returns (gone: bool)
      requires Valid() || Emptied()
      ensures gone <==> Emptied()
      ensures gone <==> !Valid()
    {
      var node := pager.ReadNode(root);
      gone := !node.value.leaf && |node.value.entries| == 0;
      if gone {
        NoTree(root, pager.nodes);
      }
    }

    /** Take note of the tree that is now on the pages. */
    ghost method Become(t: Tree, h: nat)
      requires pager.Valid() && IsTree(t, root, pager.nodes, h)
      modifies this`tree, this`height
      ensures Valid() && tree == t && height == h && Contents() == AsMap(Flat(t)) && (InOrder() <==> Chained(Links(t), 0))
    {
      tree, height := t, h;
    }

    /**
     * Insert or replace a pair.  It is refused for lack of room exactly when some node on its way
     * outgrows its page and cannot be cut in two, and for want of a page only when there are fewer free
     * pages than the nodes that outgrow theirs take.  No pair of more than PAIR_LIMIT bytes means no
     * failure for lack of room in a page, at any height.
     */
    method Put(key: Bytes, value: Bytes) returns (r: Result<()>)
      requires Valid() || Emptied()
      modifies this, pager
      ensures |key| > 0 ==> (r == Err(IndexPanic) <==> old(Emptied()))
      ensures r.Ok? ==> Valid() && Contents() == old(Contents())[key := value] && pager.meta.rootPage == old(pager.meta.rootPage)
      ensures r.Ok? ==> pager.nodes.Keys == old(pager.nodes.Keys) + Ids(tree) && old(Ids(tree)) <= Ids(tree)
      ensures r.Ok? && old(InOrder()) ==> InOrder()
      ensures r.Ok? ==> old(height) <= height <= old(height) + 1
      ensures r == Err(KeyRequired) <==> |key| == 0
      ensures r.Err? ==> r.error == KeyRequired || r.error == IndexPanic || r.error == OutOfPages || r.error == DoesNotFit
      ensures r.Err? ==> LeftBy(pager, r.error) && tree == old(tree) && height == old(height)
      ensures r.Ok? ==> !RootJams(old(tree), Entry(key, value, 0))
      ensures r == Err(DoesNotFit) ==> RootJams(tree, Entry(key, value, 0))
      ensures r == Err(OutOfPages) ==> old(pager.meta.freeCount) < RootNeeds(tree, Entry(key, value, 0))
      ensures r == Err(OutOfPages) && tree.Leaf? ==> pager.nodes == old(pager.nodes) && pager.meta.rootPage == old(pager.meta.rootPage)
      ensures SmallPairs(old(Contents())) && |key| + |value| <= PAIR_LIMIT ==> r != Err(DoesNotFit)
    {
      if |key| == 0 {
        return Err(KeyRequired);
      }
      var gone := IsEmptied();
      if gone {
        return Err(IndexPanic);
      }
      r := PutPair(key, value);
    }

    /** Put a pair into a tree. */
    method PutPair(key: Bytes, value: Bytes) returns (r: Result<()>)
      requires Valid() && |key| > 0
      modifies this, pager
      ensures r.Ok? ==> Valid() && Contents() == old(Contents())[key := value] && pager.meta.rootPage == old(pager.meta.rootPage)
      ensures r.Ok? ==> pager.nodes.Keys == old(pager.nodes.Keys) + Ids(tree) && old(Ids(tree)) <= Ids(tree)
      ensures r.Ok? && old(InOrder()) ==> InOrder()
      ensures r.Ok? ==> old(height) <= height <= old(height) + 1
      ensures r.Err? ==> LeftBy(pager, r.error) && (r.error == OutOfPages || r.error == DoesNotFit) && tree == old(tree) && height == old(height)
      ensures r.Ok? ==> !RootJams(old(tree), Entry(key, value, 0))
      ensures r == Err(DoesNotFit) ==> RootJams(tree, Entry(key, value, 0))
      ensures r == Err(OutOfPages) ==> old(pager.meta.freeCount) < RootNeeds(tree, Entry(key, value, 0))
      ensures r == Err(OutOfPages) && tree.Leaf? ==> pager.nodes == old(pager.nodes) && pager.meta.rootPage == old(pager.meta.rootPage)
      ensures SmallPairs(old(Contents())) && |key| + |value| <= PAIR_LIMIT ==> r != Err(DoesNotFit)
    {
      ghost var t', h';
      r, t', h' := PutTree(pager, root, key, value, tree, height);
      if r.Ok? {
        Become(t', h');
      }
    }

    /**
     * Delete a key; a missing key is no error, and touches no page.  It fails exactly when some branch on
     * the way does not fit its page with the separators it gets.  The tree stays valid unless the last key below
     * a root branch goes: then the root page is left as a branch without entries, which is no
     * tree.  The leaf chain stays in order unless a leaf other than the first is emptied.
     */
    method Delete(key: Bytes) returns (r: Result<()>)
      requires Valid() || Emptied()
      modifies this, pager
      ensures r == Err(KeyRequired) <==> |key| == 0
      ensures |key| > 0 ==> (r == Err(NoEntries) <==> old(Emptied()))
      ensures r.Err? ==> r.error == KeyRequired || r.error == NoEntries || r.error == DoesNotFit
      ensures r.Ok? && !old(LastBelowBranch(tree, key)) ==> Valid() && Contents() == old(Contents()) - {key}
      ensures pager.Valid() && pager.meta.rootPage == old(pager.meta.rootPage)
      ensures r.Ok? && !old(LastBelowBranch(tree, key)) && old(InOrder()) ==>
        (InOrder() <==> !old(EmptiesInnerLeaf(Leaves(tree), key)))
      ensures r.Ok? && old(LastBelowBranch(tree, key)) ==> Emptied()
      ensures old(Valid()) && |key| > 0 ==> (r == Err(DoesNotFit) <==> key in old(Contents()) && Swells(old(tree), key))
      ensures old(Valid()) && key !in old(Contents()) ==> unchanged(pager)
      ensures r.Err? ==> tree == old(tree)
    {
      if |key| == 0 {
        return Err(KeyRequired);
      }
      var gone := IsEmptied();
      if gone {
        return Err(NoEntries);
      }
      ghost var t', h';
      r, t', h' := DeleteTree(pager, root, key, tree, height);
      if r.Ok? && !LastBelowBranch(tree, key) {
        Become(t', h');
      }
    }
  }

  lemma RemoveFacts(t: Tree, t': Tree, key: Bytes, s': Store, h: nat) returns (h': nat)
    requires RootShrunk(t, t', key, s') && Sorted(Flat(t)) && HeightIs(t, h)
    ensures Sorted(Flat(t')) && AsMap(Flat(t')) == AsMap(Flat(t)) - {key}
    ensures HeightIs(t', h')
  {
    RemoveSorted(Flat(t), key, -1.0);
    AsMapRemove(Flat(t), key);
    h' := if HeightIs(t', h) then h else h - 1;
  }

  /** Allocate an empty root leaf. */
  method CreateBTree(pager: Pager) returns (r: Option<BTree>)
    requires pager.Valid()
    modifies pager
    ensures r.Some? ==> fresh(r.value) && r.value.Valid() && r.value.pager == pager && r.value.Contents() == map[] && r.value.InOrder()
    ensures r.None? ==> old(pager.freeSet) == {}
  {
    var root := pager.AllocPage();
    if root.None? {
      return None;
    }
    var ok := pager.StoreNode(Node(root.value, true, 0, []));
    var tree := new BTree(pager, root.value, Leaf(root.value, 0, []), 0);
    return Some(tree);
  }
}
