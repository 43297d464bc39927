/** The database over its file: what a file holds, and opening one. */
module Db {
  import opened Bytes
  import opened Options
  import opened Entries
  import opened NodePage
  import opened FreeList
  import opened Pager
  import opened PageFile
  import opened Tree
  import opened TreePut
  import opened TreeDelete
  import opened BTree
  import OpenPager

  /** What the pages hold: a tree, or the branch without entries that is left when the last key below a root branch goes. */
  datatype Shape = Whole(t: Tree) | Gone

  ghost function PairsOf(a: Shape): map<Bytes, Bytes> {
    match a
    case Whole(t) => AsMap(Flat(t))
    case Gone => map[]
  }

  /** The leaf chain is the in-order sequence of the leaves. */
  ghost predicate Ordered(a: Shape) {
    a.Whole? && Chained(Links(a.t), 0)
  }

  ghost predicate ShapeAt(a: Shape, root: nat, s: Store, h: nat) {
    match a
    case Whole(t) => IsTree(t, root, s, h)
    case Gone => Childless(root, s)
  }

  /** The pages hold this shape below the page the meta page names. */
  ghost predicate Stores(image: seq<Bytes>, m: Meta, list: seq<nat>, free: set<nat>, nodes: map<nat, Node>, a: Shape, h: nat) {
    && OpenPager.Openable(image, m, list, free) && NodesOk(image, m, free, nodes)
    && ShapeAt(a, m.rootPage, nodes, h) && m.rootPage != 0
  }

  ghost predicate Holds(image: seq<Bytes>, a: Shape) {
    exists m: Meta, list: seq<nat>, free: set<nat>, nodes: map<nat, Node>, h: nat :: Stores(image, m, list, free, nodes, a, h)
  }

  /** The file is a database of this shape. */
  ghost predicate FileIs(file: Bytes, a: Shape) {
    |file| % PAGE_SIZE == 0 && Holds(Pages(file), a)
  }

  /** The tree object has this shape, and the meta page names its root. */
  ghost predicate At(b: BTree, a: Shape)
    reads b, b.pager
  {
    && b.root == b.pager.meta.rootPage && b.root != 0
    && match a
       case Whole(t) => b.Valid() && b.tree == t
       case Gone => b.Emptied()
  }

  /** The pages under the tree object have this shape, mapped or not. */
  ghost predicate PagesHave(b: BTree, a: Shape)
    reads b, b.pager
  {
    b.root == b.pager.meta.rootPage && b.root != 0 && b.pager.Sound() && ShapeAt(a, b.root, b.pager.nodes, b.height)
  }

  /** The shape is on pages of a file of at most this many. */
  ghost predicate Within(a: Shape, limit: nat) {
    a.Whole? ==> exists s: Store :: RootHeld(a.t, s) && forall x | x in Ids(a.t) :: 0 < x < limit
  }

  lemma InFile(b: BTree, a: Shape)
    requires At(b, a)
    ensures Within(a, b.pager.limit)
  {
    if a.Whole? {
      b.PagesOwned();
    }
  }

  /** The file under a tree object has the shape of the tree object. */
  lemma FileOf(b: BTree, a: Shape)
    requires PagesHave(b, a)
    ensures FileIs(Concat(b.pager.data), a)
  {
    ImageOf(b, a);
    ConcatPages(b.pager.data);
  }

  lemma ImageOf(b: BTree, a: Shape)
    requires PagesHave(b, a)
    ensures WellSized(b.pager.data) && Holds(b.pager.data, a)
  {
    OpenPager.ReopenSame(b.pager, b.pager.meta, b.pager.freeList, b.pager.freeSet);
    assert Stores(b.pager.data, b.pager.meta, b.pager.freeList, b.pager.freeSet, b.pager.nodes, a, b.height);
  }

  lemma Witness(image: seq<Bytes>, a: Shape) returns (m: Meta, list: seq<nat>, free: set<nat>, nodes: map<nat, Node>, h: nat)
    ensures Holds(image, a) ==> Stores(image, m, list, free, nodes, a, h)
  {
    if Holds(image, a) {
      m, list, free, nodes, h :| Stores(image, m, list, free, nodes, a, h);
    } else {
      m, list, free, nodes, h := Meta(0, 0, 0, 0), [], {}, map[], 0;
    }
  }

  /** The metadata and the free list are determined by the pages. */
  lemma SameStore(image: seq<Bytes>, m: Meta, list: seq<nat>, free: set<nat>, nodes: map<nat, Node>, a: Shape, h: nat, m': Meta, list': seq<nat>, free': set<nat>)
    requires Stores(image, m, list, free, nodes, a, h) && OpenPager.Openable(image, m', list', free')
    ensures m == m' && Stores(image, m', list', free', nodes, a, h)
  {
    ChainUnique(image, m.freeHead, list, list');
  }

  /** A page that is a node in two readings of the file is the same node in both. */
  lemma SameNode(image: seq<Bytes>, m: Meta, free: set<nat>, s: Store, s': Store, id: nat)
    requires NodesOk(image, m, free, s) && NodesOk(image, m, free, s') && id in s && id in s'
    ensures s[id] == s'[id]
  {
    ReadsUnique(image[id], s[id], s'[id]);
  }

  /** The pages hold at most one tree below a page. */
  lemma {:induction false} OneTree(image: seq<Bytes>, m: Meta, free: set<nat>, s: Store, s': Store, t: Tree, t': Tree)
    requires NodesOk(image, m, free, s) && NodesOk(image, m, free, s')
    requires Held(t, s) && Held(t', s') && t.id == t'.id
    ensures t == t'
    decreases t, 1
  {
    SameNode(image, m, free, s, s', t.id);
    if t.Branch? {
      OneForest(image, m, free, s, s', t.kids, t'.kids);
    }
  }

  lemma {:induction false} OneForest(image: seq<Bytes>, m: Meta, free: set<nat>, s: Store, s': Store, ts: seq<Tree>, ts': seq<Tree>)
    requires NodesOk(image, m, free, s) && NodesOk(image, m, free, s')
    requires HeldAll(ts, s) && HeldAll(ts', s') && Seps(ts) == Seps(ts')
    ensures ts == ts'
    decreases ts, 0
  {
    SameLength(ts, ts');
    if |ts| > 0 {
      SameFirst(ts, ts');
      OneTree(image, m, free, s, s', ts[0], ts'[0]);
      OneForest(image, m, free, s, s', ts[1..], ts'[1..]);
      SameParts(ts, ts');
    }
  }

  lemma SameLength(ts: seq<Tree>, ts': seq<Tree>)
    requires Seps(ts) == Seps(ts')
    ensures |ts| == |ts'|
  {
  }

  lemma SameFirst(ts: seq<Tree>, ts': seq<Tree>)
    requires |ts| > 0 && |ts'| > 0 && Seps(ts) == Seps(ts')
    ensures ts[0].id == ts'[0].id && Seps(ts[1..]) == Seps(ts'[1..])
  {
    assert Seps(ts)[0] == Sep(ts[0]) && Seps(ts')[0] == Sep(ts'[0]);
    assert Seps(ts)[1..] == Seps(ts[1..]) && Seps(ts')[1..] == Seps(ts'[1..]);
  }

  lemma SameParts(ts: seq<Tree>, ts': seq<Tree>)
    requires |ts| > 0 && |ts'| > 0 && ts[0] == ts'[0] && ts[1..] == ts'[1..]
    ensures ts == ts'
  {
    assert ts == [ts[0]] + ts[1..] && ts' == [ts'[0]] + ts'[1..];
  }

  /** A page is not both the root of a tree and a branch without entries. */
  lemma TreeNotGone(image: seq<Bytes>, m: Meta, free: set<nat>, s: Store, s': Store, t: Tree, root: nat, h: nat)
    requires NodesOk(image, m, free, s) && NodesOk(image, m, free, s') && IsTree(t, root, s, h)
    ensures !Childless(root, s')
  {
    if root in s' {
      SameNode(image, m, free, s, s', root);
      assert t.Branch? ==> |Seps(t.kids)| > 0;
    }
  }

  lemma ShapeUnique(image: seq<Bytes>, m: Meta, free: set<nat>, s: Store, s': Store, root: nat, a: Shape, h: nat, a': Shape, h': nat)
    requires NodesOk(image, m, free, s) && NodesOk(image, m, free, s') && ShapeAt(a, root, s, h) && ShapeAt(a', root, s', h')
    ensures a == a'
  {
    match (a, a') {
      case (Whole(t), Whole(t')) =>
        SameNode(image, m, free, s, s', root);
        if Held(t, s) && Held(t', s') {
          OneTree(image, m, free, s, s', t, t');
        }
      case (Whole(t), Gone) => TreeNotGone(image, m, free, s, s', t, root, h);
      case (Gone, Whole(t')) => TreeNotGone(image, m, free, s', s, t', root, h');
      case (Gone, Gone) =>
    }
  }

  /** The file determines the shape, so the pairs, the tree and its leaf chain. */
  lemma FileUnique(file: Bytes, a: Shape, a': Shape)
    requires FileIs(file, a) && FileIs(file, a')
    ensures a == a'
  {
    var m, list, free, nodes, h := Witness(Pages(file), a);
    var m', list', free', nodes', h' := Witness(Pages(file), a');
    SameStore(Pages(file), m, list, free, nodes, a, h, m', list', free');
    ShapeUnique(Pages(file), m, free', nodes, nodes', m.rootPage, a, h, a', h');
  }

  /** Open the pager of a database file. */
  method OpenStored(file: Bytes, limit: nat, ghost a: Shape) returns (r: Option<Pager>, ghost h: nat)
    requires 0 < limit < U64_LIMIT && |file| <= limit * PAGE_SIZE
    ensures FileIs(file, a) ==> r.Some? && ShapeAt(a, r.value.meta.rootPage, r.value.nodes, h) && r.value.meta.rootPage != 0
    ensures FileIs(file, a) ==> r.Some? && r.value.data == Pages(file)
    ensures file == [] && r.Some? ==> r.value.meta.rootPage == 0
    ensures |file| % PAGE_SIZE != 0 ==> r.None?
    ensures r.Some? ==> fresh(r.value) && r.value.limit == limit && r.value.Valid()
  {
    ghost var m, list, free, nodes;
    m, list, free, nodes, h := Witness(Pages(file), a);
    r := OpenPager.Open(file, limit, nodes);
    if r.Some? && FileIs(file, a) {
      SameStore(Pages(file), m, list, free, nodes, a, h, r.value.meta, r.value.freeList, r.value.freeSet);
    }
  }

  /**
   * Open a database file.  A file that is a database of some shape opens with exactly that shape; an
   * empty one opens with an empty tree, unless the file cannot grow.
   */
  method Open(file: Bytes, limit: nat, ghost a: Shape) returns (r: Option<BTree>)
    requires 0 < limit < U64_LIMIT && |file| <= limit * PAGE_SIZE
    ensures FileIs(file, a) ==> r.Some? && At(r.value, a) && r.value.pager.data == Pages(file)
    ensures file == [] && r.Some? ==> At(r.value, Whole(r.value.tree)) && r.value.Contents() == map[] && r.value.InOrder()
    ensures |file| % PAGE_SIZE != 0 ==> r.None?
    ensures r.Some? ==> fresh(r.value) && fresh(r.value.pager) && r.value.pager.limit == limit
    ensures r.Some? ==> r.value.root == r.value.pager.meta.rootPage && r.value.root != 0
  {
    var pager;
    ghost var h;
    pager, h := OpenStored(file, limit, a);
    if pager.None? {
      return None;
    }
    if pager.value.meta.rootPage == 0 {
      r := CreateRoot(pager.value);
      return;
    }
    var b := new BTree(pager.value, pager.value.meta.rootPage, if a.Whole? then a.t else Leaf(0, 0, []), h);
    return Some(b);
  }

  /** Open the file again after a rollback: one without a root is refused. */
  method OpenAgain(file: Bytes, limit: nat, ghost a: Shape) returns (r: Option<BTree>)
    requires 0 < limit < U64_LIMIT && |file| <= limit * PAGE_SIZE
    ensures FileIs(file, a) ==> r.Some? && At(r.value, a) && r.value.pager.data == Pages(file)
    ensures r.Some? ==> fresh(r.value) && fresh(r.value.pager) && r.value.pager.limit == limit
  {
    var pager;
    ghost var h;
    pager, h := OpenStored(file, limit, a);
    if pager.None? || pager.value.meta.rootPage == 0 {
      return None;
    }
    var b := new BTree(pager.value, pager.value.meta.rootPage, if a.Whole? then a.t else Leaf(0, 0, []), h);
    return Some(b);
  }

  /** Give a file without a root an empty tree. */
  method CreateRoot(pager: Pager) returns (r: Option<BTree>)
    requires pager.Valid()
    modifies pager
    ensures r.Some? ==> At(r.value, Whole(r.value.tree)) && r.value.Contents() == map[] && r.value.InOrder() && r.value.pager == pager
    ensures r.Some? ==> fresh(r.value)
    ensures r.None? ==> old(pager.freeSet) == {}
  {
    r := CreateBTree(pager);
    if r.Some? {
      r.value.PagesOwned();
      var ok := pager.SetRootPage(r.value.root);
    }
  }
}
