/** Insertion as a sequence of page reads and writes. */
module PutPages {
  import opened Bytes
  import opened Options
  import opened Entries
  import opened NodePage
  import opened Pager
  import opened Tree
  import opened TreePut
  import opened TreeIO
  import opened Room

  ghost function LeftNode(n: Node, rid: nat): Node
    requires n.entries != []
  {
    Node(n.id, n.leaf, if n.leaf then rid else 0, n.entries[..SplitPoint(|n.entries|)])
  }

  ghost function RightNode(n: Node, rid: nat): Node
    requires n.entries != []
  {
    Node(rid, n.leaf, if n.leaf then n.next else 0, n.entries[SplitPoint(|n.entries|)..])
  }

  /** The entries on either side of the split point. */
  method Halves(es: seq<Entry>) returns (left: seq<Entry>, right: seq<Entry>)
    requires es != []
    ensures left == es[..SplitPoint(|es|)] && right == es[SplitPoint(|es|)..]
  {
    left, right := SplitEntries(es);
    SplitParts(es, left, right);
  }

  /** Cut a node in two: the left half stays on its page, the right half goes to a new one. */
  method SplitNonRoot(pager: Pager, node: Node) returns (r: Result<Entry>)
    requires pager.Valid() && node.id in pager.nodes && Storable(node) && node.entries != []
    modifies pager
    ensures r.Ok? ==> pager.Valid() && pager.meta.rootPage == old(pager.meta.rootPage)
    ensures r.Ok? ==> r.value.child !in old(pager.nodes) && 0 < r.value.child < U64_LIMIT
    ensures r.Ok? ==> pager.nodes == old(pager.nodes)[node.id := LeftNode(node, r.value.child)][r.value.child := RightNode(node, r.value.child)]
    ensures r.Ok? ==> Fits(LeftNode(node, 0).entries) && Fits(RightNode(node, 0).entries)
    ensures r.Ok? && RightNode(node, 0).entries != [] ==> r.value == Entry(RightNode(node, 0).entries[0].key, [], r.value.child)
    ensures r.Err? ==> LeftBy(pager, r.error) && (r.error == OutOfPages || r.error == DoesNotFit)
    ensures r == Err(DoesNotFit) ==> !(Fits(LeftNode(node, 0).entries) && Fits(RightNode(node, 0).entries))
    ensures r.Ok? ==> old(pager.meta.freeCount) <= pager.meta.freeCount + 1
    ensures r == Err(OutOfPages) ==> old(pager.meta.freeCount) == 0
  {
    var left, right := Halves(node.entries);
    var rightId := pager.AllocPage();
    if rightId.None? {
      return Err(OutOfPages);
    }
    var rid := rightId.value;
    var ok := StoreHalves(pager, node,
                          Node(node.id, node.leaf, if node.leaf then rid else 0, left),
                          Node(rid, node.leaf, if node.leaf then node.next else 0, right));
    if !ok {
      return Err(DoesNotFit);
    }
    var k := FirstKeyOf(Node(rid, node.leaf, 0, right));
    return Ok(Entry(k, [], rid));
  }

  /** Write the two halves of a node. */
  method StoreHalves(pager: Pager, node: Node, left: Node, right: Node) returns (ok: bool)
    requires pager.Valid() && Storable(node) && node.entries != []
    requires left == LeftNode(node, right.id) && right == RightNode(node, right.id) && right.id != node.id && right.id < U64_LIMIT
    requires 0 < node.id < pager.meta.pageCount && node.id !in pager.freeSet && 0 < right.id < pager.meta.pageCount && right.id !in pager.freeSet
    modifies pager
    ensures ok <==> Fits(left.entries) && Fits(right.entries)
    ensures pager.Valid()
    ensures ok ==> pager.meta == old(pager.meta) && pager.nodes == old(pager.nodes)[node.id := left][right.id := right]
  {
    HalfStorable(node, right.id);
    ok := pager.StoreNode(left);
    if ok {
      ok := pager.StoreNode(right);
    }
  }

  lemma HalfStorable(node: Node, rid: nat)
    requires Storable(node) && node.entries != [] && rid < U64_LIMIT
    ensures Storable(LeftNode(node, rid)) && Storable(RightNode(node, rid))
  {
  }

  /** Why a put fails: too few free pages, or a node that cannot be cut in two, which takes a pair above the limit. */
  ghost predicate PutUnfit(t: Tree, e: Entry, error: Error, free: nat) {
    match error
    case OutOfPages => free < Needs(t, e)
    case DoesNotFit => Jams(t, e) && !Small(Insert(Flat(t), e))
    case _ => false
  }

  ghost predicate BelowUnfit(t: Tree, e: Entry, error: Error, free: nat) {
    match error
    case OutOfPages => free < NeedsBelow(t, e)
    case DoesNotFit => JamsBelow(t, e) && !Small(Insert(Flat(t), e))
    case _ => false
  }

  ghost predicate RootUnfit(t: Tree, e: Entry, error: Error, free: nat) {
    match error
    case OutOfPages => free < RootNeeds(t, e)
    case DoesNotFit => RootJams(t, e) && !Small(Insert(Flat(t), e))
    case _ => false
  }

  lemma UnfitBelow(t: Tree, e: Entry, error: Error, free: nat)
    requires BelowUnfit(t, e, error, free)
    ensures PutUnfit(t, e, error, free) && RootUnfit(t, e, error, free)
  {
  }

  /** Write a non-root node back, splitting it when it outgrew its page. */
  method Settle(pager: Pager, node: Node, ghost t: Tree, ghost v: Tree, ghost e: Entry, ghost s: Store, ghost free: nat)
    returns (r: Result<Option<Entry>>, ghost ts: seq<Tree>)
    requires pager.Valid() && node == NodeOf(v) && t.id in s
    requires Pending(t, v, e, s, pager.nodes) && Sorted(Flat(v)) && BelowFit(t, e, node.entries, free, pager.meta.freeCount)
    modifies pager
    ensures r.Ok? ==> pager.Valid() && pager.meta.rootPage == old(pager.meta.rootPage)
    ensures r.Ok? ==> Grown(t, ts, e, s, pager.nodes) && r.value == SplitOf(ts)
    ensures r.Ok? ==> PutFit(t, e, ts, free, pager.meta.freeCount)
    ensures r.Err? ==> PutUnfit(t, e, r.error, free) && LeftBy(pager, r.error)
  {
    PagerPaged(pager);
    LooseStorable(v, pager.nodes);
    assert v.id in Ids(v);
    ghost var s1 := pager.nodes;
    var fits := NodeFits(node.entries);
    if fits {
      SettleWhole(t, v, e, s, s1);
      FitWhole(t, v, e, free, pager.meta.freeCount);
      var ok := pager.StoreNode(node);
      return Ok(None), [v];
    }
    r, ts := SettleInTwo(pager, node, t, v, e, s, free);
  }

  /** Split a non-root node that outgrew its page. */
  method SettleInTwo(pager: Pager, node: Node, ghost t: Tree, ghost v: Tree, ghost e: Entry, ghost s: Store, ghost free: nat)
    returns (r: Result<Option<Entry>>, ghost ts: seq<Tree>)
    requires pager.Valid() && node == NodeOf(v) && t.id in s && node.id in pager.nodes && Storable(node) && !Fits(node.entries)
    requires Pending(t, v, e, s, pager.nodes) && Sorted(Flat(v)) && BelowFit(t, e, node.entries, free, pager.meta.freeCount)
    modifies pager
    ensures r.Ok? ==> pager.Valid() && pager.meta.rootPage == old(pager.meta.rootPage)
    ensures r.Ok? ==> Grown(t, ts, e, s, pager.nodes) && r.value == SplitOf(ts)
    ensures r.Ok? ==> PutFit(t, e, ts, free, pager.meta.freeCount)
    ensures r.Err? ==> PutUnfit(t, e, r.error, free) && LeftBy(pager, r.error)
  {
    ghost var s1, free' := pager.nodes, pager.meta.freeCount;
    SettleCauses(v, t, e, s1, free, free');
    var sib := SplitNonRoot(pager, node);
    if sib.Err? {
      return Err(sib.error), [];
    }
    ts := SplitDone(t, v, e, s, s1, pager.nodes, sib.value, free, free', pager.meta.freeCount);
    return Ok(Some(sib.value)), ts;
  }

  lemma SplitDone(t: Tree, v: Tree, e: Entry, s: Store, s1: Store, s2: Store, sib: Entry, free: nat, free': nat, free'': nat) returns (ts: seq<Tree>)
    requires Pending(t, v, e, s, s1) && t.id in s && !Fits(NodeOf(v).entries) && NodeOf(v).entries != []
    requires sib.child !in s1 && sib.child < U64_LIMIT && BelowFit(t, e, NodeOf(v).entries, free, free') && free' <= free'' + 1
    requires Fits(LeftNode(NodeOf(v), 0).entries) && Fits(RightNode(NodeOf(v), 0).entries)
    requires s2 == s1[v.id := LeftNode(NodeOf(v), sib.child)][sib.child := RightNode(NodeOf(v), sib.child)]
    requires RightNode(NodeOf(v), 0).entries != [] ==> sib == Entry(RightNode(NodeOf(v), 0).entries[0].key, [], sib.child)
    ensures Grown(t, ts, e, s, s2) && SplitOf(ts) == Some(sib) && PutFit(t, e, ts, free, free'')
  {
    ts := SettleHalves(t, v, e, s, s1, s2, sib.child);
    FitSplit(t, v, e, ts, free, free', free'');
  }

  /** Why a split may fail. */
  lemma SettleCauses(v: Tree, t: Tree, e: Entry, s: Store, free: nat, free': nat)
    requires Paged(s) && Loose(v, s) && Roomy(v) && Sorted(Flat(v)) && Flat(v) == Insert(Flat(t), e)
    requires BelowFit(t, e, NodeOf(v).entries, free, free') && !Fits(NodeOf(v).entries)
    ensures free' == 0 ==> PutUnfit(t, e, OutOfPages, free)
    ensures !(Fits(LeftNode(NodeOf(v), 0).entries) && Fits(RightNode(NodeOf(v), 0).entries)) ==> PutUnfit(t, e, DoesNotFit, free)
  {
    Unfit(t, e, NodeOf(v).entries, free, free');
    if Small(Flat(v)) {
      SplitFits(v, s);
    }
  }

  /** What a parent must insert after a child became ts. */
  ghost function SplitOf(ts: seq<Tree>): Option<Entry> {
    if |ts| == 2 then Some(Sep(ts[1])) else None
  }

  lemma SettleHalves(t: Tree, v: Tree, e: Entry, s: Store, s1: Store, s2: Store, rid: nat) returns (ts: seq<Tree>)
    requires Pending(t, v, e, s, s1) && t.id in s && !Fits(NodeOf(v).entries) && NodeOf(v).entries != []
    requires rid !in s1 && rid < U64_LIMIT
    requires Fits(LeftNode(NodeOf(v), 0).entries) && Fits(RightNode(NodeOf(v), 0).entries)
    requires s2 == s1[v.id := LeftNode(NodeOf(v), rid)][rid := RightNode(NodeOf(v), rid)]
    ensures Grown(t, ts, e, s, s2) && |ts| == 2
    ensures RightNode(NodeOf(v), 0).entries != [] && Sep(ts[1]) == Entry(RightNode(NodeOf(v), 0).entries[0].key, [], rid)
    ensures NodeOf(ts[0]).entries == LeftNode(NodeOf(v), 0).entries && NodeOf(ts[1]).entries == RightNode(NodeOf(v), 0).entries
  {
    var es := NodeOf(v).entries;
    var m := SplitPoint(|es|);
    SplitProper(es);
    HalvesNode(v, m, rid);
    SettleSplit(t, v, e, s, s1, m, rid);
    ts := [LeftOf(v, m, rid), RightOf(v, m, rid)];
  }

  lemma SplitProper(es: seq<Entry>)
    requires es != [] && !Fits(es) && Fits(es[..SplitPoint(|es|)])
    ensures SplitPoint(|es|) < |es| && SplitPoint(|es|) == |es| / 2
  {
    assert es[..|es|] == es;
  }

  /** An oversized node of small pairs splits into halves that fit. */
  lemma SplitFits(v: Tree, s: Store)
    requires Loose(v, s) && Sorted(Flat(v)) && Paged(s) && Roomy(v) && Small(Flat(v))
    requires !Fits(NodeOf(v).entries)
    ensures Fits(LeftNode(NodeOf(v), 0).entries) && Fits(RightNode(NodeOf(v), 0).entries)
  {
    LooseStorable(v, s);
    if v.Branch? {
      SepsSmall(v.kids, s);
    }
    HalvesFit(NodeOf(v).entries);
  }

  /** Refresh the separator of child i after it became u, and add the sibling its split created. */
  method RefreshChild(pager: Pager, es: seq<Entry>, i: nat, split: Option<Entry>, ghost u: Tree) returns (entries: seq<Entry>)
    requires pager.Valid() && i < |es| && es[i].child == u.id && es[i].value == [] && Held(u, pager.nodes)
    requires Sorted(es[i := Sep(u)])
    ensures entries == if split.Some? then Insert(es[i := Sep(u)], split.value) else es[i := Sep(u)]
  {
    var child := pager.ReadNode(es[i].child);
    var k := FirstKeyOf(child.value);
    assert k == FirstKey(u);
    entries := es[i := es[i].(key := k)];
    if split.Some? {
      entries := InsertEntry(entries, split.value);
    }
  }

  /** What holds of the child a key is routed to. */
  lemma Descend(t: Tree, s: Store, e: Entry, i: nat)
    requires t.Branch? && Held(t, s) && Sorted(Flat(t)) && Routed(Seps(t.kids), e.key, i)
    ensures Held(t.kids[i], s) && Sorted(Flat(t.kids[i]))
    ensures Small(Insert(Flat(t), e)) ==> Small(Insert(Flat(t.kids[i]), e))
  {
    HeldAt(t.kids, s, i);
    RouteSplits(t.kids, s, e.key, i);
    FlatSplit(t.kids, i);
    var a, b, f := FlatAll(t.kids[..i]), FlatAll(t.kids[i + 1..]), Insert(Flat(t.kids[i]), e);
    InsertWithin(a, Flat(t.kids[i]), b, e);
    SmallMiddle(a, f, b);
  }

  lemma SmallMiddle(a: seq<Entry>, f: seq<Entry>, b: seq<Entry>)
    ensures Small(a + f + b) ==> Small(f)
  {
    var all := a + f + b;
    assert forall k | 0 <= k < |f| :: f[k] == all[|a| + k];
  }

  /** The separators of a branch after child i has become sub. */
  lemma RejoinSeps(t: Tree, i: nat, sub: seq<Tree>, e: Entry, s: Store, s': Store)
    requires t.Branch? && Held(t, s) && Sorted(Flat(t)) && Paged(s') && i < |t.kids| && 1 <= |sub| <= 2
    requires HeldAll(Replace(t.kids, i, sub), s') && FlatAll(Replace(t.kids, i, sub)) == Insert(Flat(t), e)
    ensures Sorted(Seps(t.kids)[i := Sep(sub[0])])
    ensures Seps(Replace(t.kids, i, sub)) ==
      if |sub| == 2 then Insert(Seps(t.kids)[i := Sep(sub[0])], Sep(sub[1])) else Seps(t.kids)[i := Sep(sub[0])]
  {
    SepsSorted(t, Replace(t.kids, i, sub), e, s');
    SepsReplaced(t.kids, i, sub);
  }

  lemma SepsReplaced(ts: seq<Tree>, i: nat, sub: seq<Tree>)
    requires i < |ts| && 1 <= |sub| <= 2 && Sorted(Seps(Replace(ts, i, sub)))
    ensures Sorted(Seps(ts)[i := Sep(sub[0])])
    ensures Seps(Replace(ts, i, sub)) == if |sub| == 2 then Insert(Seps(ts)[i := Sep(sub[0])], Sep(sub[1])) else Seps(ts)[i := Sep(sub[0])]
  {
    if |sub| == 2 {
      assert sub == [sub[0], sub[1]];
      SepsSplit(ts, i, sub[0], sub[1]);
    } else {
      assert sub == [sub[0]];
      SepsSame(ts, i, sub[0]);
    }
  }

  lemma SepsSorted(t: Tree, kids: seq<Tree>, e: Entry, s': Store)
    requires Sorted(Flat(t)) && Paged(s') && kids != [] && HeldAll(kids, s') && FlatAll(kids) == Insert(Flat(t), e)
    ensures Sorted(Seps(kids))
  {
    InsertSorted(Flat(t), e, -1.0);
    BranchStorable(t.id, kids, s');
  }

  /** Put a pair into a non-root subtree and report the sibling a split created. */
  method PutNonRoot(pager: Pager, node: Node, key: Bytes, value: Bytes, ghost t: Tree)
    returns (r: Result<Option<Entry>>, ghost ts: seq<Tree>)
    requires pager.Valid() && Held(t, pager.nodes) && Sorted(Flat(t)) && node == NodeOf(t) && |key| > 0
    modifies pager
    ensures r.Ok? ==> pager.Valid() && pager.meta.rootPage == old(pager.meta.rootPage)
    ensures r.Ok? ==> Grown(t, ts, Entry(key, value, 0), old(pager.nodes), pager.nodes) && r.value == SplitOf(ts)
    ensures r.Ok? ==> PutFit(t, Entry(key, value, 0), ts, old(pager.meta.freeCount), pager.meta.freeCount)
    ensures r.Err? ==> PutUnfit(t, Entry(key, value, 0), r.error, old(pager.meta.freeCount)) && LeftBy(pager, r.error)
    decreases t
  {
    ghost var e, s, free := Entry(key, value, 0), pager.nodes, pager.meta.freeCount;
    var grown, v := PutBelow(pager, node, key, value, t);
    if grown.Err? {
      UnfitBelow(t, e, grown.error, free);
      return Err(grown.error), [];
    }
    r, ts := Settle(pager, grown.value, t, v, e, s, free);
  }

  /** Put a pair into a leaf, or into the child a branch routes it to; return the node to be written. */
  method PutBelow(pager: Pager, node: Node, key: Bytes, value: Bytes, ghost t: Tree)
    returns (r: Result<Node>, ghost v: Tree)
    requires pager.Valid() && RootHeld(t, pager.nodes) && Sorted(Flat(t)) && node == NodeOf(t) && |key| > 0
    modifies pager
    ensures r.Ok? ==> pager.Valid() && pager.meta.rootPage == old(pager.meta.rootPage)
    ensures r.Ok? ==> r.value == NodeOf(v) && Sorted(Flat(v)) && Pending(t, v, Entry(key, value, 0), old(pager.nodes), pager.nodes)
    ensures r.Ok? ==> BelowFit(t, Entry(key, value, 0), r.value.entries, old(pager.meta.freeCount), pager.meta.freeCount)
    ensures r.Err? ==> BelowUnfit(t, Entry(key, value, 0), r.error, old(pager.meta.freeCount)) && LeftBy(pager, r.error)
    ensures t.Leaf? ==> r.Ok? && pager.nodes == old(pager.nodes) && pager.meta == old(pager.meta)
    decreases t, 1
  {
    ghost var e, s := Entry(key, value, 0), pager.nodes;
    InsertSorted(Flat(t), e, -1.0);
    if node.leaf {
      PendingLeaf(t, e, s);
      LeafFit(t, e, pager.meta.freeCount);
      var entries := InsertEntry(node.entries, Entry(key, value, 0));
      return Ok(node.(entries := entries)), t.(entries := entries);
    }
    var entries, sub := PutChild(pager, node, key, value, t);
    if entries.Err? {
      return Err(entries.error), t;
    }
    return Ok(node.(entries := entries.value.0)), Branch(t.id, Replace(t.kids, entries.value.1, sub));
  }

  /** Put a pair into the child a branch routes it to; return the branch's new entries. */
  method PutChild(pager: Pager, node: Node, key: Bytes, value: Bytes, ghost t: Tree)
    returns (r: Result<(seq<Entry>, nat)>, ghost sub: seq<Tree>)
    requires pager.Valid() && t.Branch? && Held(t, pager.nodes) && Sorted(Flat(t)) && node == NodeOf(t) && |key| > 0
    modifies pager
    ensures r.Ok? ==> pager.Valid() && pager.meta.rootPage == old(pager.meta.rootPage)
    ensures r.Ok? ==> r.value.1 < |t.kids| && r.value.0 == Seps(Replace(t.kids, r.value.1, sub))
    ensures r.Ok? ==> Pending(t, Branch(t.id, Replace(t.kids, r.value.1, sub)), Entry(key, value, 0), old(pager.nodes), pager.nodes)
    ensures r.Ok? ==> BelowFit(t, Entry(key, value, 0), r.value.0, old(pager.meta.freeCount), pager.meta.freeCount)
    ensures r.Err? ==> BelowUnfit(t, Entry(key, value, 0), r.error, old(pager.meta.freeCount)) && LeftBy(pager, r.error)
    decreases t, 0
  {
    ghost var e, s := Entry(key, value, 0), pager.nodes;
    PagerPaged(pager);
    BranchStorable(t.id, t.kids, s);
    var i: nat := ChildIndexFor(node.entries, key);
    Descend(t, s, e, i);
    RouteIs(Seps(t.kids), key, i);
    var child := pager.ReadNode(node.entries[i].child);
    var split;
    split, sub := PutNonRoot(pager, child.value, key, value, t.kids[i]);
    if split.Err? {
      return Err(split.error), [];
    }
    PendingBranch(t, i, sub, e, s, pager.nodes);
    PagerPaged(pager);
    RejoinSeps(t, i, sub, e, s, pager.nodes);
    ChildFit(t, e, i, sub, old(pager.meta.freeCount), pager.meta.freeCount);
    var entries := RefreshChild(pager, node.entries, i, split.value, sub[0]);
    return Ok((entries, i)), sub;
  }

  // ---- the root ----

  /** The nodes a root split writes: two halves on new pages, and a branch over them on the root page. */
  ghost function SplitRootStore(s: Store, n: Node, lid: nat, rid: nat): Store
    requires 2 <= |n.entries|
  {
    var l := LeftNode(n, rid).(id := lid);
    var r := RightNode(n, rid).(next := 0);
    s[lid := l][rid := r][n.id := Node(n.id, false, 0, [Entry(l.entries[0].key, [], lid), Entry(r.entries[0].key, [], rid)])]
  }

  lemma HalvesStorable(n: Node, m: nat, lid: nat, rid: nat)
    requires Storable(n) && m <= |n.entries| && lid < U64_LIMIT && rid < U64_LIMIT
    ensures Storable(Node(lid, n.leaf, if n.leaf then rid else 0, n.entries[..m]))
    ensures Storable(Node(rid, n.leaf, 0, n.entries[m..]))
  {
  }

  method AllocTwo(pager: Pager) returns (r: Option<(nat, nat)>)
    requires pager.Valid()
    modifies pager
    ensures r.Some? ==> pager.Valid() && pager.nodes == old(pager.nodes) && pager.meta.rootPage == old(pager.meta.rootPage)
    ensures r.Some? ==> r.value.0 != r.value.1 && r.value.0 !in pager.nodes && r.value.1 !in pager.nodes
    ensures r.Some? ==> 0 < r.value.0 < pager.meta.pageCount && 0 < r.value.1 < pager.meta.pageCount
    ensures r.Some? ==> r.value.0 !in pager.freeSet && r.value.1 !in pager.freeSet
    ensures r.None? ==> old(pager.meta.freeCount) < 2
    ensures r.None? ==> LeftBy(pager, OutOfPages) && pager.nodes == old(pager.nodes) && pager.meta.rootPage == old(pager.meta.rootPage)
  {
    var leftId := pager.AllocPage();
    if leftId.None? {
      return None;
    }
    var rightId := pager.AllocPage();
    if rightId.None? {
      return None;
    }
    return Some((leftId.value, rightId.value));
  }

  /** Split an oversized root: its page becomes a branch over two new pages. */
  method SplitRoot(pager: Pager, node: Node) returns (r: Result<(nat, nat)>)
    requires pager.Valid() && node.id in pager.nodes && Storable(node) && node.entries != [] && !Fits(node.entries)
    modifies pager
    ensures r.Ok? ==> pager.Valid() && pager.meta.rootPage == old(pager.meta.rootPage) && |node.entries| >= 2
    ensures r.Ok? ==> r.value.0 != r.value.1 && r.value.0 !in old(pager.nodes) && r.value.1 !in old(pager.nodes) && r.value.1 < U64_LIMIT
    ensures r.Ok? ==> pager.nodes == SplitRootStore(old(pager.nodes), node, r.value.0, r.value.1)
    ensures r.Ok? ==> Fits(LeftNode(node, 0).entries) && Fits(RightNode(node, 0).entries) && Fits(pager.nodes[node.id].entries)
    ensures r.Err? ==> LeftBy(pager, r.error) && (r.error == OutOfPages || r.error == DoesNotFit)
    ensures r == Err(OutOfPages) ==> pager.nodes == old(pager.nodes) && pager.meta.rootPage == old(pager.meta.rootPage)
    ensures r == Err(OutOfPages) ==> old(pager.meta.freeCount) < 2
    ensures r.Ok? ==> Fits(TwoHeads(node.entries))
    ensures r == Err(DoesNotFit) ==> !(Fits(LeftNode(node, 0).entries) && Fits(RightNode(node, 0).entries) && |node.entries| >= 2 && Fits(TwoHeads(node.entries)))
  {
    var left, right := Halves(node.entries);
    var ids := AllocTwo(pager);
    if ids.None? {
      return Err(OutOfPages);
    }
    var lid, rid := ids.value.0, ids.value.1;
    HalvesStorable(node, SplitPoint(|node.entries|), lid, rid);
    var ok := pager.StoreNode(Node(lid, node.leaf, if node.leaf then rid else 0, left));
    if !ok {
      return Err(DoesNotFit);
    }
    SplitProper(node.entries);
    ok := pager.StoreNode(Node(rid, node.leaf, 0, right));
    if !ok {
      return Err(DoesNotFit);
    }
    RootSeps(node, left[0], right[0], lid, rid);
    TwoHeadsFit(node.entries, lid, rid);
    ok := pager.StoreNode(Node(node.id, false, 0, [Entry(left[0].key, [], lid), Entry(right[0].key, [], rid)]));
    if !ok {
      return Err(DoesNotFit);
    }
    return Ok((lid, rid));
  }

  lemma RootSeps(n: Node, l: Entry, r: Entry, lid: nat, rid: nat)
    requires Storable(n) && n.entries != [] && SplitPoint(|n.entries|) < |n.entries|
    requires l == n.entries[0] && r == n.entries[SplitPoint(|n.entries|)] && 0 < lid < U64_LIMIT && 0 < rid < U64_LIMIT
    ensures Storable(Node(n.id, false, 0, [Entry(l.key, [], lid), Entry(r.key, [], rid)]))
  {
  }

  lemma TwoHeadsFit(es: seq<Entry>, lid: nat, rid: nat)
    requires |es| >= 2
    ensures Fits([Entry(es[0].key, [], lid), Entry(es[SplitPoint(|es|)].key, [], rid)]) <==> Fits(TwoHeads(es))
  {
    var two := [Entry(es[0].key, [], lid), Entry(es[SplitPoint(|es|)].key, [], rid)];
    assert Bare(two) == TwoHeads(es);
    BareFits(two);
  }

  lemma SmallHeads(es: seq<Entry>)
    requires |es| >= 2 && Small(es)
    ensures Fits(TwoHeads(es))
  {
    var two := TwoHeads(es);
    assert Heap(two, 1) == |two[0].key|;
    assert Heap(two, 2) == |two[0].key| + |two[1].key|;
  }

  /** Write the root back, splitting it when it outgrew its page. */
  method SettleRoot(pager: Pager, node: Node, ghost t: Tree, ghost v: Tree, ghost e: Entry, ghost s: Store, ghost free: nat)
    returns (r: Result<()>, ghost t': Tree)
    requires pager.Valid() && node == NodeOf(v) && t.id in s
    requires Pending(t, v, e, s, pager.nodes) && Sorted(Flat(v)) && BelowFit(t, e, node.entries, free, pager.meta.freeCount)
    modifies pager
    ensures r.Ok? ==> pager.Valid() && pager.meta.rootPage == old(pager.meta.rootPage)
    ensures r.Ok? ==> RootGrown(t, t', e, s, pager.nodes) && !RootJams(t, e)
    ensures r.Err? ==> RootUnfit(t, e, r.error, free) && LeftBy(pager, r.error)
    ensures r == Err(OutOfPages) ==> pager.nodes == old(pager.nodes) && pager.meta.rootPage == old(pager.meta.rootPage)
  {
    PagerPaged(pager);
    LooseStorable(v, pager.nodes);
    assert v.id in Ids(v) && t.id in Ids(t);
    ghost var s1 := pager.nodes;
    var fits := NodeFits(node.entries);
    if fits {
      RootWhole(t, v, e, s, s1);
      RootFit(t, e, node.entries, free, pager.meta.freeCount);
      var ok := pager.StoreNode(node);
      return Ok(()), v;
    }
    ghost var free' := pager.meta.freeCount;
    RootCauses(v, t, e, s1, free, free');
    var ids := SplitRoot(pager, node);
    if ids.Err? {
      return Err(ids.error), v;
    }
    RootFit(t, e, node.entries, free, free');
    t' := RootHalves(t, v, e, s, s1, pager.nodes, ids.value.0, ids.value.1);
    return Ok(()), t';
  }

  lemma LooseSmall(v: Tree, s: Store)
    requires Loose(v, s) && Small(Flat(v))
    ensures Small(NodeOf(v).entries)
  {
    if v.Branch? {
      SepsSmall(v.kids, s);
    }
  }

  /** An oversized root of small pairs can be split. */
  lemma RootSplitFits(v: Tree, s: Store)
    requires Loose(v, s) && Sorted(Flat(v)) && Paged(s) && Roomy(v) && Small(Flat(v))
    requires !Fits(NodeOf(v).entries)
    ensures Fits(LeftNode(NodeOf(v), 0).entries) && Fits(RightNode(NodeOf(v), 0).entries)
    ensures |NodeOf(v).entries| >= 2 && Fits(TwoHeads(NodeOf(v).entries))
  {
    SplitFits(v, s);
    SplitProper(NodeOf(v).entries);
    LooseSmall(v, s);
    SmallHeads(NodeOf(v).entries);
  }

  /** Why a root split may fail. */
  lemma RootCauses(v: Tree, t: Tree, e: Entry, s: Store, free: nat, free': nat)
    requires Paged(s) && Loose(v, s) && Roomy(v) && Sorted(Flat(v)) && Flat(v) == Insert(Flat(t), e)
    requires BelowFit(t, e, NodeOf(v).entries, free, free') && !Fits(NodeOf(v).entries)
    ensures free' < 2 ==> RootUnfit(t, e, OutOfPages, free)
    ensures !(Fits(LeftNode(NodeOf(v), 0).entries) && Fits(RightNode(NodeOf(v), 0).entries) && |NodeOf(v).entries| >= 2 && Fits(TwoHeads(NodeOf(v).entries)))
      ==> RootUnfit(t, e, DoesNotFit, free)
  {
    Unfit(t, e, NodeOf(v).entries, free, free');
    if Small(Flat(v)) {
      RootSplitFits(v, s);
    }
  }

  lemma RootHalves(t: Tree, v: Tree, e: Entry, s: Store, s1: Store, s2: Store, lid: nat, rid: nat) returns (w: Tree)
    requires Pending(t, v, e, s, s1) && t.id in s && !Fits(NodeOf(v).entries) && |NodeOf(v).entries| >= 2
    requires lid !in s1 && rid !in s1 && lid != rid && rid < U64_LIMIT
    requires Fits(LeftNode(NodeOf(v), 0).entries) && Fits(RightNode(NodeOf(v), 0).entries)
    requires s2 == SplitRootStore(s1, NodeOf(v), lid, rid) && Fits(s2[v.id].entries)
    ensures RootGrown(t, w, e, s, s2)
  {
    var es := NodeOf(v).entries;
    var m := SplitPoint(|es|);
    var d := Demoted(v, lid);
    w := NewRoot(v, m, lid, rid);
    HalvesNode(d, m, rid);
    assert NodeOf(d).entries == es;
    TwoSeps(w);
    FirstOfNode(w.kids[0]);
    FirstOfNode(w.kids[1]);
    RootSplit(t, v, e, s, s1, m, lid, rid, s2);
  }

  lemma TwoSeps(t: Tree)
    requires t.Branch? && |t.kids| == 2
    ensures NodeOf(t).entries == [Sep(t.kids[0]), Sep(t.kids[1])]
  {
  }

  /** Put a pair into the tree rooted at a page. */
  method PutRoot(pager: Pager, root: nat, key: Bytes, value: Bytes, ghost t: Tree) returns (r: Result<()>, ghost t': Tree)
    requires pager.Valid() && t.id == root && RootHeld(t, pager.nodes) && Sorted(Flat(t)) && |key| > 0
    modifies pager
    ensures r.Ok? ==> pager.Valid() && pager.meta.rootPage == old(pager.meta.rootPage)
    ensures r.Ok? ==> RootGrown(t, t', Entry(key, value, 0), old(pager.nodes), pager.nodes) && !RootJams(t, Entry(key, value, 0))
    ensures r.Err? ==> RootUnfit(t, Entry(key, value, 0), r.error, old(pager.meta.freeCount)) && LeftBy(pager, r.error)
    ensures r == Err(OutOfPages) && t.Leaf? ==> pager.nodes == old(pager.nodes) && pager.meta.rootPage == old(pager.meta.rootPage)
  {
    ghost var e, s, free := Entry(key, value, 0), pager.nodes, pager.meta.freeCount;
    var node := pager.ReadNode(root);
    var grown, v := PutBelow(pager, node.value, key, value, t);
    if grown.Err? {
      UnfitBelow(t, e, grown.error, free);
      return Err(grown.error), t;
    }
    r, t' := SettleRoot(pager, grown.value, t, v, e, s, free);
  }
}
