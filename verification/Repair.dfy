/** Repair: rebuild the free list from the pages reachable through the root. */
module Repair {
  import opened Bytes
  import opened Options
  import opened NodePage
  import opened FreeList
  import opened Pager
  import opened Tree
  import opened TreePut

  /** The pages a node points to: the children of a branch, the successor of a leaf. */
  function Targets(n: Node): seq<nat> {
    if n.leaf then (if n.next == 0 then [] else [n.next])
    else seq(|n.entries|, i requires 0 <= i < |n.entries| => n.entries[i].child)
  }

  ghost predicate HoldsNode(data: seq<Bytes>, x: nat) {
    x < |data| && exists n: Node :: Reads(data[x], n)
  }

  ghost predicate Edge(data: seq<Bytes>, x: nat, y: nat) {
    x < |data| && exists n: Node :: Reads(data[x], n) && y in Targets(n)
  }

  /** A walk along edges. */
  ghost predicate Walk(data: seq<Bytes>, p: seq<nat>) {
    forall i, j | 0 <= i < |p| && j == i + 1 < |p| :: Edge(data, p[i], p[j])
  }

  ghost predicate Reaches(data: seq<Bytes>, x: nat, y: nat) {
    exists p: seq<nat> :: p != [] && p[0] == x && p[|p| - 1] == y && Walk(data, p)
  }

  lemma ReachesSelf(data: seq<Bytes>, x: nat)
    ensures Reaches(data, x, x)
  {
    assert Walk(data, [x]) && [x][0] == x;
  }

  lemma ReachesStep(data: seq<Bytes>, x: nat, y: nat, z: nat)
    requires Edge(data, x, y) && Reaches(data, y, z)
    ensures Reaches(data, x, z)
  {
    var p: seq<nat> :| p != [] && p[0] == y && p[|p| - 1] == z && Walk(data, p);
    WalkCons(data, x, p);
    assert ([x] + p)[|p|] == z;
  }

  lemma WalkCons(data: seq<Bytes>, x: nat, p: seq<nat>)
    requires p != [] && Edge(data, x, p[0]) && Walk(data, p)
    ensures Walk(data, [x] + p)
  {
    var q := [x] + p;
    forall i, j | 0 <= i < |q| && j == i + 1 < |q|
      ensures Edge(data, q[i], q[j])
    {
      assert i > 0 ==> q[i] == p[i - 1] && q[j] == p[i];
    }
  }

  /** The node on a page decides its edges. */
  lemma EdgesOf(data: seq<Bytes>, x: nat, n: Node)
    requires x < |data| && Reads(data[x], n)
    ensures forall y: nat :: Edge(data, x, y) <==> y in Targets(n)
  {
    forall y: nat
      ensures Edge(data, x, y) <==> y in Targets(n)
    {
      if Edge(data, x, y) {
        var m: Node :| Reads(data[x], m) && y in Targets(m);
        ReadsUnique(data[x], m.(id := n.id), n);
        assert Targets(m) == Targets(m.(id := n.id));
      }
    }
  }

  /** x holds a node found from id, and its edges stay within reach. */
  ghost predicate Found(data: seq<Bytes>, id: nat, reach: set<nat>, x: nat) {
    HoldsNode(data, x) && Reaches(data, id, x) && forall y: nat | Edge(data, x, y) :: y in reach
  }

  ghost predicate Explored(data: seq<Bytes>, id: nat, before: set<nat>, reach: set<nat>) {
    forall x {:trigger Found(data, id, reach, x)} | x in reach && x !in before :: Found(data, id, reach, x)
  }

  /** A page found from id is out of range or holds no node. */
  ghost predicate Broken(data: seq<Bytes>, count: nat, id: nat) {
    exists x: nat :: Reaches(data, id, x) && (x >= count || !HoldsNode(data, x))
  }

  /** Depth-first search over the pages; every page is expanded at most once, so cycles end. */
  method CollectReachablePages(data: seq<Bytes>, count: nat, id: nat, reachable: set<nat>) returns (r: Option<set<nat>>)
    requires WellSized(data) && count <= |data| && reachable <= Range(count)
    ensures r.Some? ==> reachable <= r.value <= Range(count) && id in r.value && Explored(data, id, reachable, r.value)
    ensures r.None? ==> Broken(data, count, id)
    decreases Range(count) - reachable, 0
  {
    ReachesSelf(data, id);
    if id in reachable {
      return Some(reachable);
    }
    if id >= count {
      return None;
    }
    var node := DecodeNode(id, data[id]);
    if node.None? {
      return None;
    }
    r := CollectTargets(data, count, id, node.value, reachable + {id});
    if r.Some? {
      ExploredSelf(data, id, node.value, reachable, r.value);
    }
  }

  /** Search from each page a node points to, in order. */
  method CollectTargets(data: seq<Bytes>, count: nat, id: nat, node: Node, reachable: set<nat>) returns (r: Option<set<nat>>)
    requires WellSized(data) && count <= |data| && reachable <= Range(count) && id < |data| && Reads(data[id], node)
    ensures r.Some? ==> reachable <= r.value <= Range(count) && Explored(data, id, reachable, r.value)
    ensures r.Some? ==> Elements(Targets(node)) <= r.value
    ensures r.None? ==> Broken(data, count, id)
    decreases Range(count) - reachable, 1
  {
    var links := Targets(node);
    var reach := reachable;
    for i := 0 to |links|
      invariant reachable <= reach <= Range(count)
      invariant Elements(links[..i]) <= reach
      invariant Explored(data, id, reachable, reach)
    {
      var sub := CollectReachablePages(data, count, links[i], reach);
      TargetEdge(data, id, node, i);
      if sub.None? {
        BrokenStep(data, count, id, links[i]);
        return None;
      }
      ExploredStep(data, id, links[i], reachable, reach, sub.value);
      ElementsStep(links, i);
      reach := sub.value;
    }
    assert links[..|links|] == links;
    return Some(reach);
  }

  lemma TargetEdge(data: seq<Bytes>, id: nat, n: Node, i: nat)
    requires id < |data| && Reads(data[id], n) && i < |Targets(n)|
    ensures Edge(data, id, Targets(n)[i])
  {
  }

  lemma ElementsStep(list: seq<nat>, i: nat)
    requires i < |list|
    ensures Elements(list[..i + 1]) == Elements(list[..i]) + {list[i]}
  {
    assert list[..i + 1] == list[..i] + [list[i]];
  }

  lemma ExploredSelf(data: seq<Bytes>, id: nat, n: Node, before: set<nat>, reach: set<nat>)
    requires id < |data| && Reads(data[id], n) && Explored(data, id, before + {id}, reach)
    requires Elements(Targets(n)) <= reach
    ensures Explored(data, id, before, reach)
  {
    EdgesOf(data, id, n);
    ReachesSelf(data, id);
    assert Found(data, id, reach, id);
  }

  lemma BrokenStep(data: seq<Bytes>, count: nat, id: nat, next: nat)
    requires Edge(data, id, next) && Broken(data, count, next)
    ensures Broken(data, count, id)
  {
    var x: nat :| Reaches(data, next, x) && (x >= count || !HoldsNode(data, x));
    ReachesStep(data, id, next, x);
  }

  lemma ExploredStep(data: seq<Bytes>, id: nat, next: nat, before: set<nat>, mid: set<nat>, after: set<nat>)
    requires Explored(data, id, before, mid) && Explored(data, next, mid, after) && Edge(data, id, next) && mid <= after
    ensures Explored(data, id, before, after)
  {
    forall x | x in after && x !in before
      ensures Found(data, id, after, x)
    {
      if x !in mid {
        assert Found(data, next, after, x);
        ReachesStep(data, id, next, x);
      } else {
        assert Found(data, id, mid, x);
      }
    }
  }

  /** A set closed under edges contains everything its members reach. */
  lemma {:induction false} ClosedWalk(data: seq<Bytes>, reach: set<nat>, p: seq<nat>)
    requires p != [] && p[0] in reach && Walk(data, p)
    requires forall x, y: nat | x in reach && Edge(data, x, y) :: y in reach
    ensures p[|p| - 1] in reach
  {
    if |p| > 1 {
      assert Edge(data, p[0], p[1]);
      assert Walk(data, p[1..]);
      ClosedWalk(data, reach, p[1..]);
    }
  }

  lemma MetaPageNoNode(data: seq<Bytes>, m: Meta)
    requires data != [] && MetaIs(data[0], m)
    ensures !HoldsNode(data, 0) && forall y: nat :: !Edge(data, 0, y)
  {
    assert data[0][0] == data[0][..4][0] == 0x4B;
  }

  /** reach is the meta page and the pages found from the root. */
  ghost predicate ReachSet(data: seq<Bytes>, root: nat, reach: set<nat>) {
    0 in reach && forall x: nat {:trigger Reaches(data, root, x)} | x != 0 :: x in reach <==> root != 0 && Reaches(data, root, x)
  }

  lemma ExploredClosed(data: seq<Bytes>, m: Meta, id: nat, reach: set<nat>, x: nat, y: nat)
    requires data != [] && MetaIs(data[0], m) && Explored(data, id, {0}, reach) && x in reach && Edge(data, x, y)
    ensures y in reach
  {
    MetaPageNoNode(data, m);
    assert Found(data, id, reach, x);
  }

  lemma ReachedIn(data: seq<Bytes>, m: Meta, id: nat, reach: set<nat>, x: nat)
    requires data != [] && MetaIs(data[0], m) && id in reach && Explored(data, id, {0}, reach) && Reaches(data, id, x)
    ensures x in reach
  {
    var p: seq<nat> :| p != [] && p[0] == id && p[|p| - 1] == x && Walk(data, p);
    forall a, b: nat | a in reach && Edge(data, a, b)
      ensures b in reach
    {
      ExploredClosed(data, m, id, reach, a, b);
    }
    ClosedWalk(data, reach, p);
  }

  /** A finished search has found exactly the pages that can be reached, and all of them are sound. */
  lemma ReachExact(data: seq<Bytes>, m: Meta, id: nat, reach: set<nat>)
    requires data != [] && MetaIs(data[0], m) && id != 0 && 0 in reach && id in reach && Explored(data, id, {0}, reach)
    ensures ReachSet(data, id, reach)
  {
    forall x: nat | x != 0
      ensures x in reach <==> Reaches(data, id, x)
    {
      if x in reach {
        assert Found(data, id, reach, x);
      }
      if Reaches(data, id, x) {
        ReachedIn(data, m, id, reach, x);
      }
    }
  }

  /** Pages i..count that are not reachable. */
  ghost predicate FreedFrom(free: set<nat>, reachable: set<nat>, i: nat, count: nat) {
    forall x: nat :: x in free <==> i <= x < count && x !in reachable
  }

  /** Thread every unreachable page onto a new free list, from the last page down. */
  method RebuildFreeList(data: seq<Bytes>, m: Meta, reachable: set<nat>)
    returns (data': seq<Bytes>, m': Meta, free: set<nat>, ghost list: seq<nat>)
    requires WellSized(data) && 0 < m.pageCount <= |data| && m.pageCount < U64_LIMIT
    ensures FreeOk(data', m', list, free) && FreedFrom(free, reachable, 1, m.pageCount)
    ensures m' == m.(freeHead := m'.freeHead, freeCount := m'.freeCount)
    ensures |data'| == |data| && WellSized(data')
    ensures forall x | 0 <= x < |data| && x !in free :: data'[x] == data[x]
  {
    data', m', free, list := data, m.(freeHead := 0, freeCount := 0), {}, [];
    var id := m.pageCount - 1;
    while id > 0
      invariant 0 <= id < m.pageCount
      invariant FreeOk(data', m', list, free) && FreedFrom(free, reachable, id + 1, m.pageCount)
      invariant m' == m.(freeHead := m'.freeHead, freeCount := m'.freeCount)
      invariant |data'| == |data| && WellSized(data')
      invariant forall x | 0 <= x < |data| && x !in free :: data'[x] == data[x]
    {
      if id !in reachable {
        ghost var d, m0 := data', m';
        FreeBounded(data', m', list, free);
        data' := data'[id := FreeBytes(m'.freeHead)];
        m' := m'.(freeHead := id, freeCount := m'.freeCount + 1);
        PushFree(d, data', m0, m', list, free, id);
        free, list := free + {id}, [id] + list;
      }
      id := id - 1;
    }
  }

  /** Every page is exactly one of: the meta page, reachable from the root, free. */
  ghost predicate Partitioned(count: nat, reach: set<nat>, free: set<nat>) {
    forall x: nat | x < count :: (x in reach) != (x in free)
  }

  /** The nodes on reachable pages. */
  ghost function Restrict(nodes: map<nat, Node>, reach: set<nat>): map<nat, Node> {
    map x | x in nodes && x in reach :: nodes[x]
  }

  lemma NodesRestricted(data: seq<Bytes>, data': seq<Bytes>, m: Meta, m': Meta, free: set<nat>, free': set<nat>, nodes: map<nat, Node>, reach: set<nat>)
    requires NodesOk(data, m, free, nodes) && m'.pageCount == m.pageCount && FreedFrom(free', reach, 1, m.pageCount)
    requires |data'| == |data| && forall x | 0 < x < |data| && x !in free' :: data'[x] == data[x]
    ensures NodesOk(data', m', free', Restrict(nodes, reach))
  {
  }

  lemma RepairPartition(count: nat, reach: set<nat>, free: set<nat>)
    requires FreedFrom(free, reach, 1, count) && 0 in reach
    ensures Partitioned(count, reach, free) && free !! reach
  {
  }

  /** The pages after the free list was rebuilt and the meta page written. */
  lemma Repaired(data: seq<Bytes>, data': seq<Bytes>, m: Meta, m': Meta, free: set<nat>, list: seq<nat>, free': set<nat>, nodes: map<nat, Node>, reach: set<nat>)
    requires NodesOk(data, m, free, nodes) && FreedFrom(free', reach, 1, m.pageCount) && 0 in reach && m.rootPage < U64_LIMIT
    requires FreeOk(data', m', list, free') && m' == m.(freeHead := m'.freeHead, freeCount := m'.freeCount)
    requires |data'| == |data| && WellSized(data') && 0 < m.pageCount <= |data| && m.pageCount < U64_LIMIT
    requires forall x | 0 <= x < |data| && x !in free' :: data'[x] == data[x]
    ensures var image := data'[0 := MetaBytes(m')];
            && WellSized(image) && MetaIs(image[0], m') && FreeOk(image, m', list, free') && NodesOk(image, m', free', Restrict(nodes, reach))
            && Partitioned(m'.pageCount, reach, free') && SamePages(data, image, reach)
  {
    var image := data'[0 := MetaBytes(m')];
    RepairPartition(m'.pageCount, reach, free');
    NodesRestricted(data, image, m, m', free, free', nodes, reach);
    FreeFrame(data', image, m', m', list, free');
    FreeBounded(data', m', list, free');
    MetaRoundTrip(m');
  }

  /** Rebuild the free list of an open pager; nothing changes when a reachable page is broken. */
  method Repair(p: Pager) returns (r: Option<set<nat>>)
    requires p.Valid()
    modifies p
    ensures p.Valid() && p.meta.rootPage == old(p.meta.rootPage) && p.meta.pageCount == old(p.meta.pageCount)
    ensures r.None? ==> p.data == old(p.data) && p.nodes == old(p.nodes) && Broken(p.data, p.meta.pageCount, p.meta.rootPage)
    ensures r.Some? ==> ReachSet(old(p.data), p.meta.rootPage, r.value) && Partitioned(p.meta.pageCount, r.value, p.freeSet)
    ensures r.Some? ==> SamePages(old(p.data), p.data, r.value) && p.nodes == Restrict(old(p.nodes), r.value)
  {
    r := FindReachable(p.data, p.meta);
    if r.None? {
      return;
    }
    var data, meta, free, list := RebuildFreeList(p.data, p.meta, r.value);
    Repaired(p.data, data, p.meta, meta, p.freeSet, list, free, p.nodes, r.value);
    p.data, p.meta, p.freeSet, p.freeList, p.nodes := data, meta, free, list, Restrict(p.nodes, r.value);
    p.WriteMeta();
  }

  ghost predicate SamePages(data: seq<Bytes>, data': seq<Bytes>, reach: set<nat>) {
    |data'| == |data| && forall x | x in reach && 0 < x < |data| :: data'[x] == data[x]
  }

  method FindReachable(data: seq<Bytes>, m: Meta) returns (r: Option<set<nat>>)
    requires WellSized(data) && 0 < m.pageCount <= |data| && MetaIs(data[0], m)
    ensures r.Some? ==> ReachSet(data, m.rootPage, r.value) && r.value <= Range(m.pageCount)
    ensures r.None? ==> Broken(data, m.pageCount, m.rootPage)
  {
    if m.rootPage == 0 {
      return Some({0});
    }
    r := CollectReachablePages(data, m.pageCount, m.rootPage, {0});
    if r.Some? {
      ReachExact(data, m, m.rootPage, r.value);
    }
  }

  // ---- lookups are not affected ----

  lemma NodeEdges(data: seq<Bytes>, m: Meta, free: set<nat>, s: Store, x: nat, y: nat)
    requires NodesOk(data, m, free, s) && x in s && y in Targets(s[x])
    ensures Edge(data, x, y)
  {
  }

  /** Every page of a held tree is reachable from its root. */
  lemma {:induction false} TreeReached(t: Tree, data: seq<Bytes>, m: Meta, free: set<nat>, s: Store, x: nat)
    requires NodesOk(data, m, free, s) && Held(t, s) && x in Ids(t)
    ensures Reaches(data, t.id, x)
    decreases t
  {
    ReachesSelf(data, t.id);
    if x != t.id {
      var i := WhichChild(t.kids, x);
      HeldAt(t.kids, s, i);
      TreeReached(t.kids[i], data, m, free, s, x);
      assert Targets(s[t.id])[i] == t.kids[i].id;
      NodeEdges(data, m, free, s, t.id, t.kids[i].id);
      ReachesStep(data, t.id, t.kids[i].id, x);
    }
  }

  lemma {:induction false} WhichChild(ts: seq<Tree>, x: nat) returns (i: nat)
    requires x in IdsAll(ts)
    ensures i < |ts| && x in Ids(ts[i])
  {
    if x in Ids(ts[0]) {
      i := 0;
    } else {
      i := WhichChild(ts[1..], x);
      i := i + 1;
    }
  }

  /** A tree at the root survives a repair, so every lookup gives what it gave before. */
  lemma RepairKeepsTree(t: Tree, data: seq<Bytes>, m: Meta, free: set<nat>, s: Store, reach: set<nat>)
    requires NodesOk(data, m, free, s) && RootHeld(t, s) && t.id == m.rootPage && m.rootPage != 0 && ReachSet(data, m.rootPage, reach)
    ensures RootHeld(t, Restrict(s, reach)) && Ids(t) <= reach
  {
    ReachesSelf(data, t.id);
    if Held(t, s) {
      IdsHeld(t, s);
      forall x | x in Ids(t)
        ensures x in reach
      {
        TreeReached(t, data, m, free, s, x);
      }
      HeldFrame(t, s, Restrict(s, reach));
    }
  }
}
