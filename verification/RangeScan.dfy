/** Range scans: find the first leaf, then follow the leaf chain. */
module RangeScan {
  import opened Seqs
  import opened Bytes
  import opened Options
  import opened Entries
  import opened NodePage
  import opened Pager
  import opened Tree
  import opened TreePut
  import opened TreeDelete
  import opened TreeIO
  import opened BTree

  /** start <= k < end, where a missing end is no bound. */
  ghost predicate InRange(k: Bytes, start: Bytes, end: Option<Bytes>) {
    Rank(start) <= Rank(k) && (end.Some? ==> Rank(k) < Rank(end.value))
  }

  /** The entries in the range, in order. */
  ghost function Select(es: seq<Entry>, start: Bytes, end: Option<Bytes>): seq<Entry> {
    if es == [] then []
    else (if InRange(es[0].key, start, end) then [es[0]] else []) + Select(es[1..], start, end)
  }

  /** The leading entries below the end. */
  ghost function Until(es: seq<Entry>, end: Option<Bytes>): seq<Entry> {
    if es == [] || (end.Some? && Rank(end.value) <= Rank(es[0].key)) then [] else [es[0]] + Until(es[1..], end)
  }

  lemma {:induction false} SelectSkip(a: seq<Entry>, b: seq<Entry>, start: Bytes, end: Option<Bytes>)
    requires AllBelow(a, start)
    ensures Select(a + b, start, end) == Select(b, start, end)
  {
    if a == [] {
      assert a + b == b;
    } else {
      assert (a + b)[1..] == a[1..] + b;
      SelectSkip(a[1..], b, start, end);
    }
  }

  lemma {:induction false} SelectUntil(es: seq<Entry>, start: Bytes, end: Option<Bytes>)
    requires Sorted(es) && forall i | 0 <= i < |es| :: Rank(start) <= Rank(es[i].key)
    ensures Select(es, start, end) == Until(es, end)
  {
    if es != [] {
      if end.Some? && Rank(end.value) <= Rank(es[0].key) {
        SelectNone(es, start, end);
      } else {
        SelectUntil(es[1..], start, end);
      }
    }
  }

  lemma {:induction false} SelectNone(es: seq<Entry>, start: Bytes, end: Option<Bytes>)
    requires end.Some? && forall i | 0 <= i < |es| :: Rank(end.value) <= Rank(es[i].key)
    ensures Select(es, start, end) == []
  {
    if es != [] {
      SelectNone(es[1..], start, end);
    }
  }

  // ---- finding the first leaf ----

  /** Leaf p of the tree is where a scan from key starts. */
  ghost predicate StartsAt(t: Tree, p: nat, key: Bytes) {
    StartsIn(Leaves(t), p, key)
  }

  ghost predicate StartsIn(ls: seq<Tree>, p: nat, key: Bytes) {
    AreLeaves(ls) && p < |ls| && AllBelow(FlatLeaves(ls[..p]), key) && AllAbove(FlatLeaves(ls[p + 1..]), key)
  }

  method FirstLeafAt(pager: Pager, id: nat, key: Bytes, ghost t: Tree) returns (leaf: Node, ghost p: nat)
    requires pager.Valid() && RootHeld(t, pager.nodes) && t.id == id && Sorted(Flat(t))
    ensures StartsAt(t, p, key) && leaf == NodeOf(Leaves(t)[p])
    decreases t
  {
    var node := pager.ReadNode(id);
    if node.value.leaf {
      StartsLeaf(t, key);
      return node.value, 0;
    }
    PagerPaged(pager);
    BranchStorable(t.id, t.kids, pager.nodes);
    var i: nat := ChildIndexFor(node.value.entries, key);
    ScanChild(t, pager.nodes, key, i);
    leaf, p := FirstLeafAt(pager, node.value.entries[i].child, key, t.kids[i]);
    p := StartsBelow(t, pager.nodes, key, i, p);
  }

  lemma ScanChild(t: Tree, s: Store, key: Bytes, i: nat)
    requires t.Branch? && Held(t, s) && Sorted(Flat(t)) && Routed(Seps(t.kids), key, i)
    ensures Held(t.kids[i], s) && Sorted(Flat(t.kids[i]))
  {
    HeldAt(t.kids, s, i);
    RouteSplits(t.kids, s, key, i);
  }

  lemma StartsLeaf(t: Tree, key: Bytes)
    requires t.Leaf?
    ensures StartsAt(t, 0, key)
  {
    assert Leaves(t)[..0] == [] && Leaves(t)[1..] == [];
  }

  lemma StartsBelow(t: Tree, s: Store, key: Bytes, i: nat, p: nat) returns (q: nat)
    requires t.Branch? && Held(t, s) && Sorted(Flat(t)) && Routed(Seps(t.kids), key, i) && StartsAt(t.kids[i], p, key)
    ensures StartsAt(t, q, key) && Leaves(t)[q] == Leaves(t.kids[i])[p]
  {
    LeavesAround(t, s, key, i);
    q := StartsWithin(Leaves(t), LeavesAll(t.kids[..i]), Leaves(t.kids[i]), LeavesAll(t.kids[i + 1..]), p, key);
  }

  /** The leaves before and after the child the key leads to. */
  lemma LeavesAround(t: Tree, s: Store, key: Bytes, i: nat)
    requires t.Branch? && Held(t, s) && Sorted(Flat(t)) && Routed(Seps(t.kids), key, i)
    ensures var a, b := LeavesAll(t.kids[..i]), LeavesAll(t.kids[i + 1..]);
      && AreLeaves(a) && AreLeaves(b) && AreLeaves(Leaves(t)) && Leaves(t) == a + Leaves(t.kids[i]) + b
      && AllBelow(FlatLeaves(a), key) && AllAbove(FlatLeaves(b), key)
  {
    RouteSplits(t.kids, s, key, i);
    LeavesSplit(t.kids, i);
    LeavesCoverAll(t.kids[..i]);
    LeavesCoverAll(t.kids[i + 1..]);
    LeavesCover(t);
  }

  lemma LeavesSplit(ts: seq<Tree>, i: nat)
    requires i < |ts|
    ensures LeavesAll(ts) == LeavesAll(ts[..i]) + Leaves(ts[i]) + LeavesAll(ts[i + 1..])
  {
    LeavesReplace(ts, i, [ts[i]]);
    LeavesOne(ts[i]);
    ReplaceSame(ts, i);
  }

  lemma StartsWithin(ls: seq<Tree>, a: seq<Tree>, m: seq<Tree>, b: seq<Tree>, p: nat, key: Bytes) returns (q: nat)
    requires ls == a + m + b && AreLeaves(ls) && AreLeaves(a) && AreLeaves(b)
    requires StartsIn(m, p, key) && AllBelow(FlatLeaves(a), key) && AllAbove(FlatLeaves(b), key)
    ensures StartsIn(ls, q, key) && ls[q] == m[p]
  {
    q := |a| + p;
    Cut(a, m, b, p);
    JoinedBelow(ls[..q], a, m[..p], key);
    JoinedAbove(ls[q + 1..], m[p + 1..], b, key);
  }

  lemma JoinedBelow(ls: seq<Tree>, a: seq<Tree>, b: seq<Tree>, key: Bytes)
    requires ls == a + b && AreLeaves(a) && AreLeaves(b) && AllBelow(FlatLeaves(a), key) && AllBelow(FlatLeaves(b), key)
    ensures AreLeaves(ls) && AllBelow(FlatLeaves(ls), key)
  {
    FlatLeavesJoin(a, b);
  }

  lemma JoinedAbove(ls: seq<Tree>, a: seq<Tree>, b: seq<Tree>, key: Bytes)
    requires ls == a + b && AreLeaves(a) && AreLeaves(b) && AllAbove(FlatLeaves(a), key) && AllAbove(FlatLeaves(b), key)
    ensures AreLeaves(ls) && AllAbove(FlatLeaves(ls), key)
  {
    FlatLeavesJoin(a, b);
  }

  lemma Cut(a: seq<Tree>, m: seq<Tree>, b: seq<Tree>, p: nat)
    requires p < |m|
    ensures (a + m + b)[..|a| + p] == a + m[..p] && (a + m + b)[|a| + p + 1..] == m[p + 1..] + b
  {
  }

  // ---- the iterator ----

  /** The leaves in the list are on their pages and chained; the last one ends the chain. */
  ghost predicate OnPages(ls: seq<Tree>, s: Store) {
    && AreLeaves(ls)
    && (forall i | 0 <= i < |ls| :: ls[i].id in s && s[ls[i].id] == NodeOf(ls[i]))
    && Chained(LinksOf(ls), 0)
  }

  lemma OnPagesTail(ls: seq<Tree>, s: Store)
    requires OnPages(ls, s) && Paged(s) && ls != []
    ensures ls[0].next == 0 <==> |ls| == 1
    ensures |ls| > 1 ==> OnPages(ls[1..], s) && ls[0].next == ls[1].id && FlatLeaves(ls[1..]) == ls[1].entries + FlatLeaves(ls[2..])
  {
    var l := LinksOf(ls);
    if |ls| > 1 {
      assert l[0].1 == l[1].0;
      assert LinksOf(ls[1..]) == l[1..];
      assert ls[1..][1..] == ls[2..];
    }
  }

  lemma DropOne(es: seq<Entry>, i: nat, rest: seq<Entry>)
    requires i < |es|
    ensures es[i + 1..] + rest == (es[i..] + rest)[1..]
  {
  }

  /** The iterator is on an entry of the first of these leaves, or at its end. */
  ghost predicate Stands(started: bool, leaves: seq<Tree>, s: Store, node: Node, index: nat) {
    && AreLeaves(leaves) && (!started ==> leaves == [])
    && (started ==> |leaves| > 0 && OnPages(leaves, s) && node == NodeOf(leaves[0]) && index <= |node.entries|)
  }

  /** The entries from an index of the first leaf on. */
  ghost function From(leaves: seq<Tree>, index: nat): seq<Entry>
    requires AreLeaves(leaves)
  {
    if |leaves| == 0 || index > |leaves[0].entries| then [] else leaves[0].entries[index..] + FlatLeaves(leaves[1..])
  }

  lemma FromNext(leaves: seq<Tree>, index: nat)
    requires AreLeaves(leaves) && |leaves| > 0 && index < |leaves[0].entries|
    ensures |From(leaves, index)| > 0 && From(leaves, index)[0] == leaves[0].entries[index] && From(leaves, index + 1) == From(leaves, index)[1..]
  {
    DropOne(leaves[0].entries, index, FlatLeaves(leaves[1..]));
  }

  /** At the end of a leaf the entries ahead are those of the next one. */
  lemma FromNextLeaf(leaves: seq<Tree>, s: Store, node: Node, index: nat)
    requires Stands(true, leaves, s, node, index) && Paged(s) && index == |node.entries|
    ensures node.next == 0 ==> From(leaves, index) == []
    ensures node.next != 0 ==> node.next in s && Stands(true, leaves[1..], s, s[node.next], 0) && From(leaves[1..], 0) == From(leaves, index)
  {
    OnPagesTail(leaves, s);
    if |leaves| > 1 {
      assert leaves[1..][1..] == leaves[2..];
      assert leaves[1].entries[0..] == leaves[1].entries;
    }
  }

  class Iterator {
    const pager: Pager
    var node: Node
    var index: nat
    var started: bool
    const end: Option<Bytes>

    /** The current leaf and the leaves after it. */
    ghost var leaves: seq<Tree>

    ghost predicate Ok()
      reads this, pager
    {
      pager.Valid() && Stands(started, leaves, pager.nodes, node, index)
    }

    /** What is still ahead in the leaf chain. */
    ghost function Ahead(): seq<Entry>
      requires Ok()
      reads this, pager
    {
      From(leaves, index)
    }

    /** The iterator stands on the first entry ahead. */
    ghost predicate Settled()
      requires Ok()
      reads this, pager
    {
      started ==> index < |node.entries| || |Ahead()| == 0
    }

    /** An iterator over nothing, for an empty range. */
    constructor Empty(pager: Pager)
      requires pager.Valid()
      ensures Ok() && this.pager == pager && |Ahead()| == 0 && end == None && Settled() && fresh(this)
    {
      this.pager, this.node, this.index, this.started, this.end := pager, Node(0, true, 0, []), 0, false, None;
      leaves := [];
    }

    constructor At(pager: Pager, leaf: Node, index: nat, end: Option<Bytes>, ghost leaves: seq<Tree>)
      requires pager.Valid() && Stands(true, leaves, pager.nodes, leaf, index)
      ensures Ok() && this.pager == pager && this.end == end && fresh(this) && Ahead() == From(leaves, index)
    {
      this.pager, this.node, this.index, this.started, this.end := pager, leaf, index, true, end;
      this.leaves := leaves;
    }

    /** Move to the start of the next leaf. */
    method NextLeaf()
      requires Ok() && started && index >= |node.entries| && node.next != 0
      modifies this
      ensures Ok() && started && Ahead() == old(Ahead()) && |leaves| < old(|leaves|)
    {
      PagerPaged(pager);
      FromNextLeaf(leaves, pager.nodes, node, index);
      var next := pager.ReadNode(node.next);
      node := next.value;
      index := 0;
      leaves := leaves[1..];
    }

    /** Move past exhausted leaves. */
    method SkipEmpty()
      requires Ok()
      modifies this
      ensures Ok() && Ahead() == old(Ahead()) && Settled()
    {
      PagerPaged(pager);
      while started && index >= |node.entries| && node.next != 0
        invariant Ok() && Ahead() == old(Ahead())
        decreases |leaves|
      {
        NextLeaf();
      }
      if started && index >= |node.entries| {
        FromNextLeaf(leaves, pager.nodes, node, index);
      }
    }

    /** Whether the iterator points at a pair inside the range. */
    method Valid() returns (v: bool)
      requires Ok() && Settled()
      ensures v <==> Until(Ahead(), end) != []
      ensures v ==> started && index < |node.entries|
    {
      if !started || index >= |node.entries| {
        return false;
      }
      if end.None? {
        return true;
      }
      var c := Compare(node.entries[index].key, end.value);
      return c < 0;
    }

    /** The current pair. */
    method Current() returns (pair: (Bytes, Bytes))
      requires Ok() && started && index < |node.entries|
      ensures Ahead() != [] && pair == (Ahead()[0].key, Ahead()[0].value)
    {
      return (node.entries[index].key, node.entries[index].value);
    }

    /** Step to the next pair; nothing happens past the end. */
    method Next()
      requires Ok() && Settled()
      modifies this
      ensures Ok() && Settled()
      ensures Ahead() == if Until(old(Ahead()), end) != [] then old(Ahead())[1..] else old(Ahead())
    {
      var v := Valid();
      if !v {
        return;
      }
      FromNext(leaves, index);
      index := index + 1;
      SkipEmpty();
    }
  }

  // ---- scanning a tree ----

  lemma {:induction false} SelectEmptyRange(es: seq<Entry>, start: Bytes, end: Option<Bytes>)
    requires end.Some? && Rank(end.value) <= Rank(start)
    ensures Select(es, start, end) == []
  {
    if es != [] {
      SelectEmptyRange(es[1..], start, end);
    }
  }

  lemma FlatLeavesAt(ls: seq<Tree>, p: nat)
    requires AreLeaves(ls) && p < |ls|
    ensures FlatLeaves(ls) == FlatLeaves(ls[..p]) + ls[p].entries + FlatLeaves(ls[p + 1..])
  {
    FlatLeavesJoin(ls[..p], ls[p..]);
    CutAt(ls, p);
  }

  lemma CutAt(ls: seq<Tree>, p: nat)
    requires p < |ls|
    ensures ls == ls[..p] + ls[p..] && ls[p..][0] == ls[p] && ls[p..][1..] == ls[p + 1..]
  {
  }

  /** From the position of start in leaf p onwards, the entries are those not below start. */
  lemma ScanStart(ls: seq<Tree>, p: nat, idx: nat, start: Bytes, end: Option<Bytes>)
    requires AreLeaves(ls) && p < |ls| && Sorted(FlatLeaves(ls))
    requires AllBelow(FlatLeaves(ls[..p]), start) && AllAbove(FlatLeaves(ls[p + 1..]), start)
    requires IsPosition(ls[p].entries, start, idx)
    ensures Select(FlatLeaves(ls), start, end) == Until(ls[p].entries[idx..] + FlatLeaves(ls[p + 1..]), end)
  {
    FlatLeavesAt(ls, p);
    ScanFrom(FlatLeaves(ls[..p]), ls[p].entries, FlatLeaves(ls[p + 1..]), idx, start, end);
  }

  lemma ScanFrom(a: seq<Entry>, f: seq<Entry>, b: seq<Entry>, idx: nat, start: Bytes, end: Option<Bytes>)
    requires Sorted(a + f + b) && AllBelow(a, start) && AllAbove(b, start) && IsPosition(f, start, idx)
    ensures Select(a + f + b, start, end) == Until(f[idx..] + b, end)
  {
    Regroup(a, f, b, idx);
    SelectSkip(a, f + b, start, end);
    SortedTail(a, f + b);
    PositionBefore(f, b, idx, start);
    ScanSorted(f + b, idx, start, end);
  }

  lemma PositionBefore(f: seq<Entry>, b: seq<Entry>, idx: nat, start: Bytes)
    requires IsPosition(f, start, idx) && AllAbove(b, start)
    ensures IsPosition(f + b, start, idx)
  {
    assert (f + b)[..idx] == f[..idx];
  }

  lemma SortedTail(a: seq<Entry>, g: seq<Entry>)
    requires Sorted(a + g)
    ensures Sorted(g)
  {
    assert forall k | 0 <= k < |g| :: g[k] == (a + g)[|a| + k];
  }

  lemma ScanSorted(g: seq<Entry>, idx: nat, start: Bytes, end: Option<Bytes>)
    requires Sorted(g) && IsPosition(g, start, idx)
    ensures Select(g, start, end) == Until(g[idx..], end)
  {
    assert g == g[..idx] + g[idx..];
    SelectSkip(g[..idx], g[idx..], start, end);
    SelectUntil(g[idx..], start, end);
  }

  lemma Regroup(a: seq<Entry>, f: seq<Entry>, b: seq<Entry>, idx: nat)
    requires idx <= |f|
    ensures a + f + b == a + (f + b) && (f + b)[idx..] == f[idx..] + b
  {
  }

  lemma OnPagesFrom(t: Tree, s: Store, p: nat)
    requires RootHeld(t, s) && Chained(Links(t), 0) && AreLeaves(Leaves(t)) && p < |Leaves(t)|
    ensures OnPages(Leaves(t)[p..], s)
  {
    LeavesCover(t);
    var ls := Leaves(t);
    forall i | 0 <= i < |ls|
      ensures ls[i].id in s && s[ls[i].id] == NodeOf(ls[i])
    {
      LeafOnPage(t, s, i);
    }
    assert LinksOf(ls[p..]) == LinksOf(ls)[p..];
  }

  lemma {:induction false} LeafOnPage(t: Tree, s: Store, i: nat)
    requires RootHeld(t, s) && i < |Leaves(t)|
    ensures Leaves(t)[i].id in s && s[Leaves(t)[i].id] == NodeOf(Leaves(t)[i])
    decreases t, 1
  {
    if t.Branch? {
      LeafOnPageAll(t.kids, s, i);
    }
  }

  lemma {:induction false} LeafOnPageAll(ts: seq<Tree>, s: Store, i: nat)
    requires HeldAll(ts, s) && i < |LeavesAll(ts)|
    ensures LeavesAll(ts)[i].id in s && s[LeavesAll(ts)[i].id] == NodeOf(LeavesAll(ts)[i])
    decreases ts, 0
  {
    if i < |Leaves(ts[0])| {
      LeafOnPage(ts[0], s, i);
    } else {
      LeafOnPageAll(ts[1..], s, i - |Leaves(ts[0])|);
    }
  }

  /** An iterator over the pairs of the tree from start up to, but not including, end. */
  method Scan(tree: BTree, start: Bytes, end: Option<Bytes>) returns (it: Iterator)
    requires tree.Valid() && tree.InOrder()
    ensures it.Ok() && it.Settled() && fresh(it) && it.pager == tree.pager
    ensures Until(it.Ahead(), it.end) == Select(Flat(tree.tree), start, end)
  {
    if end.Some? {
      var c := Compare(start, end.value);
      if c >= 0 {
        SelectEmptyRange(Flat(tree.tree), start, end);
        it := new Iterator.Empty(tree.pager);
        return;
      }
    }
    var leaf, p := FirstLeafAt(tree.pager, tree.root, start, tree.tree);
    it := Begin(tree.pager, leaf, start, end, tree.tree, p);
  }

  /** An iterator from the position of start in a leaf. */
  method Begin(pager: Pager, leaf: Node, start: Bytes, end: Option<Bytes>, ghost t: Tree, ghost p: nat) returns (it: Iterator)
    requires pager.Valid() && RootHeld(t, pager.nodes) && Chained(Links(t), 0) && Sorted(Flat(t))
    requires StartsAt(t, p, start) && leaf == NodeOf(Leaves(t)[p])
    ensures it.Ok() && it.Settled() && fresh(it) && it.pager == pager
    ensures Until(it.Ahead(), it.end) == Select(Flat(t), start, end)
  {
    LeafSorted(t, p, start);
    var idx := LowerBound(leaf.entries, start);
    ScanBegins(t, pager.nodes, p, idx, start, end);
    it := new Iterator.At(pager, leaf, idx, end, Leaves(t)[p..]);
    it.SkipEmpty();
  }

  lemma LeafSorted(t: Tree, p: nat, start: Bytes)
    requires Sorted(Flat(t)) && StartsAt(t, p, start)
    ensures Sorted(NodeOf(Leaves(t)[p]).entries)
  {
    LeavesCover(t);
    FlatLeavesAt(Leaves(t), p);
    SortedParts(FlatLeaves(Leaves(t)[..p]), Leaves(t)[p].entries, FlatLeaves(Leaves(t)[p + 1..]));
  }

  /** A scan that starts in leaf p has the range ahead of it. */
  lemma ScanBegins(t: Tree, s: Store, p: nat, idx: nat, start: Bytes, end: Option<Bytes>)
    requires RootHeld(t, s) && Chained(Links(t), 0) && Sorted(Flat(t)) && StartsAt(t, p, start)
    requires IsPosition(NodeOf(Leaves(t)[p]).entries, start, idx)
    ensures Stands(true, Leaves(t)[p..], s, NodeOf(Leaves(t)[p]), idx)
    ensures Until(From(Leaves(t)[p..], idx), end) == Select(Flat(t), start, end)
  {
    LeavesCover(t);
    OnPagesFrom(t, s, p);
    var ls := Leaves(t);
    ScanStart(ls, p, idx, start, end);
    DropSome(ls, p);
  }

  lemma DropSome(ls: seq<Tree>, p: nat)
    requires p < |ls|
    ensures |ls[p..]| > 0 && ls[p..][0] == ls[p] && ls[p..][1..] == ls[p + 1..]
  {
  }

  // ---- what a full scan returns ----

  /** The list holds exactly the pairs of the map in the range, each once, in ascending key order. */
  ghost predicate Lists(out: seq<(Bytes, Bytes)>, m: map<Bytes, Bytes>, start: Bytes, end: Option<Bytes>) {
    && (forall i, j | 0 <= i < j < |out| :: Rank(out[i].0) < Rank(out[j].0))
    && (forall k, v :: (k, v) in out <==> k in m && m[k] == v && InRange(k, start, end))
  }

  ghost predicate Copies(out: seq<(Bytes, Bytes)>, es: seq<Entry>) {
    |out| == |es| && forall i | 0 <= i < |out| :: out[i] == (es[i].key, es[i].value)
  }

  /** Every key is past the floor. */
  ghost predicate Past(es: seq<Entry>, floor: real) {
    forall i | 0 <= i < |es| :: floor < Rank(es[i].key)
  }

  lemma PastHead(es: seq<Entry>, floor: real)
    requires Sorted(es) && Past(es, floor) && |es| > 0
    ensures Sorted(es[1..]) && Past(es[1..], Rank(es[0].key)) && floor < Rank(es[0].key)
  {
  }

  lemma SortedCons(e: Entry, es: seq<Entry>, floor: real)
    requires Sorted(es) && Past(es, Rank(e.key)) && floor < Rank(e.key)
    ensures Sorted([e] + es) && Past([e] + es, floor) && Past(es, floor)
  {
    var all := [e] + es;
    forall i, j | 0 <= i < j < |all|
      ensures Rank(all[i].key) < Rank(all[j].key)
    {
      assert all[j] == es[j - 1];
    }
  }

  lemma {:induction false} SelectSorted(es: seq<Entry>, start: Bytes, end: Option<Bytes>, floor: real)
    requires Sorted(es) && Past(es, floor)
    ensures Sorted(Select(es, start, end)) && Past(Select(es, start, end), floor)
  {
    if |es| > 0 {
      PastHead(es, floor);
      SelectSorted(es[1..], start, end, Rank(es[0].key));
      SortedCons(es[0], Select(es[1..], start, end), floor);
      NothingBetween([], Select(es[1..], start, end));
    }
  }

  lemma {:induction false} SelectMembers(es: seq<Entry>, start: Bytes, end: Option<Bytes>, e: Entry)
    ensures e in Select(es, start, end) <==> e in es && InRange(e.key, start, end)
  {
    if es != [] {
      SelectMembers(es[1..], start, end, e);
    }
  }

  lemma CopiesLists(out: seq<(Bytes, Bytes)>, es: seq<Entry>, start: Bytes, end: Option<Bytes>)
    requires Sorted(es) && Copies(out, Select(es, start, end))
    ensures Lists(out, AsMap(es), start, end)
  {
    SelectSorted(es, start, end, -1.0);
    forall k, v
      ensures (k, v) in out <==> k in AsMap(es) && AsMap(es)[k] == v && InRange(k, start, end)
    {
      if (k, v) in out {
        ListedInMap(out, es, start, end, k, v);
      }
      if k in AsMap(es) && AsMap(es)[k] == v && InRange(k, start, end) {
        InMapListed(out, es, start, end, k, v);
      }
    }
  }

  lemma ListedInMap(out: seq<(Bytes, Bytes)>, es: seq<Entry>, start: Bytes, end: Option<Bytes>, k: Bytes, v: Bytes)
    requires Sorted(es) && Copies(out, Select(es, start, end)) && (k, v) in out
    ensures k in AsMap(es) && AsMap(es)[k] == v && InRange(k, start, end)
  {
    var sel := Select(es, start, end);
    var i :| 0 <= i < |out| && out[i] == (k, v);
    SelectMembers(es, start, end, sel[i]);
    var j :| 0 <= j < |es| && es[j] == sel[i];
    AsMapValue(es, j);
  }

  lemma InMapListed(out: seq<(Bytes, Bytes)>, es: seq<Entry>, start: Bytes, end: Option<Bytes>, k: Bytes, v: Bytes)
    requires Sorted(es) && Copies(out, Select(es, start, end)) && k in AsMap(es) && AsMap(es)[k] == v && InRange(k, start, end)
    ensures (k, v) in out
  {
    var sel := Select(es, start, end);
    AsMapKeys(es, k);
    var j :| 0 <= j < |es| && es[j].key == k;
    AsMapValue(es, j);
    SelectMembers(es, start, end, es[j]);
    var i :| 0 <= i < |sel| && sel[i] == es[j];
    assert out[i] == (k, v);
  }

  /** The current pair of a scan that is not over, and the scan past it. */
  method Take(it: Iterator) returns (pair: (Bytes, Bytes))
    requires it.Ok() && it.Settled() && Until(it.Ahead(), it.end) != []
    modifies it
    ensures it.Ok() && it.Settled()
    ensures old(it.Ahead()) != [] && pair == (old(it.Ahead())[0].key, old(it.Ahead())[0].value)
    ensures Until(old(it.Ahead()), it.end) == [old(it.Ahead())[0]] + Until(it.Ahead(), it.end)
    ensures |it.Ahead()| < |old(it.Ahead())|
  {
    var v := it.Valid();
    pair := it.Current();
    it.Next();
  }

  /** Collect what is left of a scan. */
  method Drain(it: Iterator) returns (out: seq<(Bytes, Bytes)>)
    requires it.Ok() && it.Settled()
    modifies it
    ensures Copies(out, Until(old(it.Ahead()), it.end))
    decreases |it.Ahead()|
  {
    var more := it.Valid();
    if !more {
      return [];
    }
    ghost var first := it.Ahead()[0];
    var pair := Take(it);
    ghost var tail := Until(it.Ahead(), it.end);
    var rest := Drain(it);
    CopiesCons(pair, rest, first, tail);
    return [pair] + rest;
  }

  lemma CopiesCons(pair: (Bytes, Bytes), rest: seq<(Bytes, Bytes)>, e: Entry, es: seq<Entry>)
    requires pair == (e.key, e.value) && Copies(rest, es)
    ensures Copies([pair] + rest, [e] + es)
  {
  }

  /** Run a scan of the tree to its end. */
  method ScanAll(tree: BTree, start: Bytes, end: Option<Bytes>) returns (out: seq<(Bytes, Bytes)>)
    requires tree.Valid() && tree.InOrder()
    ensures Lists(out, tree.Contents(), start, end)
  {
    var it := Scan(tree, start, end);
    out := Drain(it);
    CopiesLists(out, Flat(tree.tree), start, end);
  }
}
