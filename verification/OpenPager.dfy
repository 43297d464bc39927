/** Opening a database file: check the meta page and rebuild the free set from the pages. */
module OpenPager {
  import opened Bytes
  import opened Options
  import opened NodePage
  import opened FreeList
  import opened Pager
  import opened PageFile

  /** From head, following the links through the visited pages leads to id. */
  ghost predicate PathTo(data: seq<Bytes>, head: nat, visited: seq<nat>, id: nat)
    decreases visited
  {
    if visited == [] then head == id
    else head == visited[0] && 0 < head < |data| && |data[head]| == PAGE_SIZE && PathTo(data, U64(data[head], 0), visited[1..], id)
  }

  lemma {:induction false} PathExtend(data: seq<Bytes>, head: nat, visited: seq<nat>, id: nat)
    requires PathTo(data, head, visited, id) && 0 < id < |data| && |data[id]| == PAGE_SIZE
    ensures PathTo(data, head, visited + [id], U64(data[id], 0))
    decreases visited
  {
    if visited == [] {
      assert (visited + [id])[1..] == [];
    } else {
      assert (visited + [id])[1..] == visited[1..] + [id];
      PathExtend(data, U64(data[head], 0), visited[1..], id);
    }
  }

  /** A free list starts with the pages visited so far. */
  lemma {:induction false} PathSplits(data: seq<Bytes>, head: nat, visited: seq<nat>, id: nat, list: seq<nat>)
    requires PathTo(data, head, visited, id) && Chain(data, head, list)
    ensures |visited| <= |list| && list[..|visited|] == visited && Chain(data, id, list[|visited|..])
    decreases visited
  {
    if visited != [] {
      PathSplits(data, U64(data[head], 0), visited[1..], id, list[1..]);
      var n := |visited|;
      assert list[..n] == [list[0]] + list[1..][..n - 1];
      assert list[n..] == list[1..][n - 1..];
    } else {
      assert list[0..] == list;
    }
  }

  lemma {:induction false} PathChain(data: seq<Bytes>, head: nat, visited: seq<nat>)
    requires PathTo(data, head, visited, 0)
    ensures Chain(data, head, visited)
    decreases visited
  {
    if visited != [] {
      PathChain(data, U64(data[head], 0), visited[1..]);
    }
  }

  ghost predicate NoFreeList(data: seq<Bytes>, m: Meta) {
    forall list: seq<nat>, free: set<nat> :: !FreeOk(data, m, list, free)
  }

  /** The walk has not left the free list: the next page is in range, new, and within the count. */
  lemma NextOnList(data: seq<Bytes>, m: Meta, visited: seq<nat>, id: nat, list: seq<nat>, free: set<nat>)
    requires PathTo(data, m.freeHead, visited, id) && FreeOk(data, m, list, free)
    ensures id == 0 ==> |visited| == m.freeCount
    ensures id != 0 ==> |visited| < m.freeCount && id < m.pageCount && id !in visited
  {
    PathSplits(data, m.freeHead, visited, id, list);
    var n := |visited|;
    assert |list[n..]| == |list| - n;
    if id != 0 {
      assert list[n] == list[n..][0] == id && list[n] in list;
      assert id in Elements(list) && id in free;
      forall i | 0 <= i < n
        ensures visited[i] != id
      {
        assert visited[i] == list[..n][i] == list[i];
      }
    }
  }

  /** What stops the walk is a defect no free list can have. */
  lemma WalkStuck(data: seq<Bytes>, m: Meta, visited: seq<nat>, id: nat)
    requires PathTo(data, m.freeHead, visited, id)
    requires id != 0 ==> |visited| >= m.freeCount || id >= m.pageCount || id in visited
    requires id == 0 ==> |visited| != m.freeCount
    ensures NoFreeList(data, m)
  {
    forall list: seq<nat>, free: set<nat>
      ensures !FreeOk(data, m, list, free)
    {
      if FreeOk(data, m, list, free) {
        NextOnList(data, m, visited, id, list, free);
      }
    }
  }

  /** Walk the chain from the head; succeeds exactly when the pages hold a free list. */
  method RebuildFreeSet(data: seq<Bytes>, m: Meta) returns (r: Option<set<nat>>, ghost list: seq<nat>)
    requires WellSized(data) && m.pageCount <= |data|
    ensures r.Some? ==> FreeOk(data, m, list, r.value)
    ensures r.None? ==> NoFreeList(data, m)
  {
    var freeSet: set<nat> := {};
    var id: nat := m.freeHead;
    var seen := 0;
    list := [];
    while id != 0
      invariant PathTo(data, m.freeHead, list, id)
      invariant seen == |list| <= m.freeCount
      invariant freeSet == Elements(list) && NoRepeats(list) && forall x | x in freeSet :: 0 < x < m.pageCount
      decreases m.freeCount - seen
    {
      if seen >= m.freeCount || id >= m.pageCount || id in freeSet {
        WalkStuck(data, m, list, id);
        return None, list;
      }
      PathExtend(data, m.freeHead, list, id);
      freeSet := freeSet + {id};
      list := list + [id];
      id := U64(data[id], 0);
      seen := seen + 1;
    }
    ElementsSize(list);
    if |freeSet| != m.freeCount {
      WalkStuck(data, m, list, id);
      return None, list;
    }
    PathChain(data, m.freeHead, list);
    return Some(freeSet), list;
  }

  /** The pages are a database file: a sound meta page and a free list. */
  ghost predicate Openable(image: seq<Bytes>, m: Meta, list: seq<nat>, free: set<nat>) {
    && image != [] && WellSized(image)
    && MetaIs(image[0], m) && 0 < m.pageCount <= |image|
    && FreeOk(image, m, list, free)
  }

  lemma MetaBound(p: Bytes, m: Meta)
    requires MetaIs(p, m)
    ensures InU64(m)
  {
    WidthLimits();
    FromLeBound(p[8..16]);
    FromLeBound(p[16..24]);
    FromLeBound(p[24..32]);
    FromLeBound(p[32..40]);
  }

  method ReadMeta(page: Bytes) returns (r: Option<Meta>)
    ensures r.Some? ==> MetaIs(page, r.value)
    ensures r.None? ==> forall m: Meta :: !MetaIs(page, m)
  {
    if |page| != PAGE_SIZE || page[..4] != MAGIC || U16(page, 4) != VERSION || U16(page, 6) != PAGE_SIZE {
      return None;
    }
    return Some(Meta(U64(page, 8), U64(page, 16), U64(page, 24), U64(page, 32)));
  }

  /**
   * Open a file, creating its meta page when it is empty.  A non-empty file opens exactly when it is
   * whole pages and these are a database file, and then with the metadata and the free set its pages
   * describe.
   */
  method Open(file: Bytes, limit: nat, ghost nodes: map<nat, Node>) returns (r: Option<Pager>)
    requires 0 < limit < U64_LIMIT && |file| <= limit * PAGE_SIZE
    ensures r.Some? ==> fresh(r.value) && r.value.limit == limit && r.value.Valid()
    ensures file == [] ==> r.Some? && r.value.meta == Meta(1, 0, 0, 0) && r.value.nodes == map[]
    ensures file != [] && r.Some? ==>
      |file| % PAGE_SIZE == 0 && Openable(Pages(file), r.value.meta, r.value.freeList, r.value.freeSet) && r.value.data == Pages(file)
    ensures file != [] && r.Some? && NodesOk(Pages(file), r.value.meta, r.value.freeSet, nodes) ==> r.value.nodes == nodes
    ensures file != [] && r.None? && |file| % PAGE_SIZE == 0 ==>
      forall m: Meta, list: seq<nat>, free: set<nat> :: !Openable(Pages(file), m, list, free)
  {
    if file == [] {
      var m := Meta(1, 0, 0, 0);
      MetaRoundTrip(m);
      var p := new Pager([MetaBytes(m)], m, {}, limit, [], map[]);
      return Some(p);
    }
    if |file| % PAGE_SIZE != 0 {
      return None;
    }
    var image := Pages(file);
    PagesSized(file);
    r := OpenImage(image, limit, nodes);
  }

  method OpenImage(image: seq<Bytes>, limit: nat, ghost nodes: map<nat, Node>) returns (r: Option<Pager>)
    requires WellSized(image) && image != [] && |image| <= limit < U64_LIMIT
    ensures r.Some? ==> fresh(r.value) && r.value.limit == limit && r.value.Valid()
    ensures r.Some? ==> Openable(image, r.value.meta, r.value.freeList, r.value.freeSet) && r.value.data == image
    ensures r.Some? && NodesOk(image, r.value.meta, r.value.freeSet, nodes) ==> r.value.nodes == nodes
    ensures r.None? ==> forall m: Meta, list: seq<nat>, free: set<nat> :: !Openable(image, m, list, free)
  {
    var meta := ReadMeta(image[0]);
    if meta.None? || meta.value.pageCount == 0 || meta.value.pageCount > |image| {
      return None;
    }
    MetaBound(image[0], meta.value);
    var free, list := RebuildFreeSet(image, meta.value);
    if free.None? {
      return None;
    }
    ghost var held := if NodesOk(image, meta.value, free.value, nodes) then nodes else map[];
    var p := new Pager(image, meta.value, free.value, limit, list, held);
    return Some(p);
  }

  /** Closing and reopening a valid pager changes nothing: the file determines the state. */
  lemma ReopenSame(p: Pager, m: Meta, list: seq<nat>, free: set<nat>)
    requires p.Sound()
    ensures Openable(p.data, p.meta, p.freeList, p.freeSet)
    ensures Openable(p.data, m, list, free) ==> m == p.meta && list == p.freeList && free == p.freeSet
  {
    if Openable(p.data, m, list, free) {
      ChainUnique(p.data, m.freeHead, list, p.freeList);
    }
  }
}
