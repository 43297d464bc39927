/** The pager: a growing file of 4096-byte pages with a persistent free list. */
module Pager {
  import opened Bytes
  import opened Options
  import opened NodePage
  import opened FreeList

  /** The pages of `nodes` are in range, not free, and hold those nodes. */
  ghost predicate NodesOk(data: seq<Bytes>, m: Meta, free: set<nat>, nodes: map<nat, Node>) {
    && nodes.Keys !! free
    && forall x | x in nodes :: 0 < x < m.pageCount <= |data| && nodes[x].id == x && Reads(data[x], nodes[x])
  }

  /** The pages after a page was pushed on the free list and the meta page written. */
  lemma PageFreed(data: seq<Bytes>, m: Meta, list: seq<nat>, free: set<nat>, nodes: map<nat, Node>, id: nat, data': seq<Bytes>, m': Meta)
    requires m' == m.(freeHead := id, freeCount := m.freeCount + 1)
    requires id < |data| && data' == data[id := FreeBytes(m.freeHead)][0 := MetaBytes(m')]
    requires WellSized(data) && 0 < m.pageCount <= |data| && m.pageCount < U64_LIMIT && m.rootPage < U64_LIMIT
    requires FreeOk(data, m, list, free) && NodesOk(data, m, free, nodes) && 0 < id < m.pageCount && id !in free
    ensures WellSized(data') && MetaIs(data'[0], m')
    ensures FreeOk(data', m', [id] + list, free + {id}) && NodesOk(data', m', free + {id}, nodes - {id})
  {
    FreeBounded(data, m, list, free);
    PushFree(data, data', m, m', list, free, id);
    FreeBounded(data', m', [id] + list, free + {id});
    MetaRoundTrip(m');
  }

  class Pager {
    var data: seq<Bytes>
    var meta: Meta
    var freeSet: set<nat>
    var mapped: bool
    var closed: bool

    /** How many pages the file system lets the file grow to. */
    const limit: nat

    /** The free list as threaded through the pages. */
    ghost var freeList: seq<nat>

    /** The pages that hold tree nodes, with the nodes they hold. */
    ghost var nodes: map<nat, Node>

    /** A mapped file with the given pages, metadata and free list. */
    constructor (data: seq<Bytes>, meta: Meta, freeSet: set<nat>, limit: nat, ghost freeList: seq<nat>, ghost nodes: map<nat, Node>)
      ensures this.data == data && this.meta == meta && this.freeSet == freeSet && this.limit == limit && this.mapped && !this.closed
      ensures this.freeList == freeList && this.nodes == nodes
    {
      this.data, this.meta, this.freeSet, this.limit, this.mapped, this.closed := data, meta, freeSet, limit, true, false;
      this.freeList, this.nodes := freeList, nodes;
    }

    ghost predicate MetaOk()
      reads this
    {
      && limit < U64_LIMIT
      && 0 < meta.pageCount <= |data| <= limit && meta.rootPage < U64_LIMIT
      && WellSized(data)
      && MetaIs(data[0], meta)
    }

    /** The pages hold the metadata, the free list and the nodes. */
    ghost predicate Sound()
      reads this
    {
      MetaOk() && FreeOk(data, meta, freeList, freeSet) && NodesOk(data, meta, freeSet, nodes)
    }

    ghost predicate Valid()
      reads this
    {
      mapped && !closed && Sound()
    }

    method WriteMeta()
      requires |data| > 0
      modifies this`data
      ensures data == old(data)[0 := MetaBytes(meta)]
    {
      data := data[0 := MetaBytes(meta)];
    }

    /** Hand out a zeroed page: the head of the free list, or a new page at the end of a file that may refuse to grow. */
    method AllocPage() returns (r: Option<nat>)
      requires Valid()
      modifies this
      ensures r.Some? ==> meta.freeCount == if old(meta.freeCount) > 0 then old(meta.freeCount) - 1 else 0
      ensures r.None? ==> old(freeSet) == {} && old(meta.freeCount) == 0 && !mapped && !closed && Sound() && nodes == old(nodes) && meta == old(meta)
      ensures old(freeSet) == {} && old(meta.pageCount) == limit ==> r.None?
      ensures r.Some? ==> Valid() && nodes == old(nodes) && meta.rootPage == old(meta.rootPage) && meta.pageCount >= old(meta.pageCount)
      ensures r.Some? ==> r.value != 0 && r.value !in nodes && r.value !in freeSet && r.value < meta.pageCount
      ensures r.Some? ==> freeSet == old(freeSet) - {r.value} && (r.value in old(freeSet) || r.value == old(meta.pageCount))
      ensures r.Some? ==> data[r.value] == seq(PAGE_SIZE, _ => 0)
    {
      FreeBounded(data, meta, freeList, freeSet);
      if meta.freeHead != 0 {
        var id := AllocFromFreeList();
        return Some(id);
      }
      var refused, grown :| true;
      if meta.pageCount == limit || refused {
        LoseMapping(grown && meta.pageCount < limit);
        return None;
      }
      var id := AllocAtEnd();
      return Some(id);
    }

    /** The file is unmapped before it grows, and is not mapped again when it does not grow, or cannot be mapped. */
    method LoseMapping(grown: bool)
      requires Valid() && (grown ==> meta.pageCount < limit)
      modifies this`data, this`mapped
      ensures Sound() && !mapped
    {
      mapped := false;
      if grown {
        data := data[..meta.pageCount] + [seq(PAGE_SIZE, _ => 0)];
        FreeFrame(old(data), data, meta, meta, freeList, freeSet);
      }
    }

    /** Close the file.  The metadata is written first, which fails without a mapping; the file is closed all the same. */
    method Close() returns (ok: bool)
      requires |data| > 0
      modifies this`data, this`mapped, this`closed
      ensures closed && (mapped <==> old(closed && mapped))
      ensures ok <==> old(closed) || old(mapped)
      ensures data == if old(!closed && mapped) then old(data)[0 := MetaBytes(meta)] else old(data)
    {
      if closed {
        return true;
      }
      ok := mapped;
      if ok {
        WriteMeta();
      }
      mapped, closed := false, true;
    }

    method AllocFromFreeList() returns (id: nat)
      requires Valid() && meta.freeHead != 0
      modifies this
      ensures Valid() && nodes == old(nodes) && meta.rootPage == old(meta.rootPage)
      ensures id in old(freeSet) && 0 < id < meta.pageCount == old(meta.pageCount) && freeSet == old(freeSet) - {id}
      ensures old(meta.freeCount) > 0 && meta.freeCount == old(meta.freeCount) - 1
      ensures data[id] == seq(PAGE_SIZE, _ => 0)
    {
      FreeBounded(data, meta, freeList, freeSet);
      id := meta.freeHead;
      var next := U64(data[id], 0);
      freeSet := freeSet - {id};
      meta := meta.(freeHead := next, freeCount := meta.freeCount - 1);
      data := data[id := seq(PAGE_SIZE, _ => 0)];
      WriteMeta();
      PopFree(old(data), data, old(meta), meta, freeList, old(freeSet));
      freeList := freeList[1..];
      FreeBounded(data, meta, freeList, freeSet);
      MetaRoundTrip(meta);
    }

    method AllocAtEnd() returns (id: nat)
      requires Valid() && meta.freeHead == 0 && meta.pageCount < limit
      modifies this
      ensures Valid() && nodes == old(nodes) && meta.rootPage == old(meta.rootPage) && freeSet == old(freeSet)
      ensures old(meta.freeCount) == 0 && meta.freeCount == 0
      ensures id == old(meta.pageCount) && id < meta.pageCount && id !in nodes && id !in freeSet
      ensures data[id] == seq(PAGE_SIZE, _ => 0)
    {
      FreeBounded(data, meta, freeList, freeSet);
      id := meta.pageCount;
      meta := meta.(pageCount := meta.pageCount + 1);
      data := data[..id] + [seq(PAGE_SIZE, _ => 0)];
      WriteMeta();
      FreeFrame(old(data), data, old(meta), meta, freeList, freeSet);
      MetaRoundTrip(meta);
    }

    /** Return a page to the free list; the meta page, unknown pages and free pages are refused. */
    method FreePage(id: nat) returns (ok: bool)
      requires Valid()
      modifies this
      ensures Valid() && meta.rootPage == old(meta.rootPage) && meta.pageCount == old(meta.pageCount)
      ensures ok <==> 0 < id < meta.pageCount && id !in old(freeSet)
      ensures nodes == if ok then old(nodes) - {id} else old(nodes)
      ensures freeSet == if ok then old(freeSet) + {id} else old(freeSet)
    {
      if id == 0 || id >= meta.pageCount || id in freeSet {
        return false;
      }
      var meta' := meta.(freeHead := id, freeCount := meta.freeCount + 1);
      ghost var data' := data[id := FreeBytes(meta.freeHead)][0 := MetaBytes(meta')];
      PageFreed(data, meta, freeList, freeSet, nodes, id, data', meta');
      data, meta := data[id := FreeBytes(meta.freeHead)], meta';
      freeSet, freeList, nodes := freeSet + {id}, [id] + freeList, nodes - {id};
      WriteMeta();
      assert data == data';
      return true;
    }

    /** Decode the node on a page. */
    method ReadNode(id: nat) returns (r: Option<Node>)
      requires Valid()
      ensures id in nodes ==> r == Some(nodes[id])
      ensures r.Some? ==> id < meta.pageCount && r.value.id == id && Reads(data[id], r.value)
    {
      if id >= meta.pageCount {
        return None;
      }
      r := DecodeNode(id, data[id]);
      if id in nodes {
        assert Reads(data[id], nodes[id]);
        ReadsUnique(data[id], r.value, nodes[id]);
      }
    }

    /** Encode a node into its page; nothing changes when it does not fit. */
    method StoreNode(n: Node) returns (ok: bool)
      requires Valid() && 0 < n.id < meta.pageCount && n.id !in freeSet && Storable(n)
      modifies this
      ensures Valid() && meta == old(meta) && freeSet == old(freeSet)
      ensures ok <==> Fits(n.entries)
      ensures nodes == if ok then old(nodes)[n.id := n] else old(nodes)
    {
      var page := new Byte[PAGE_SIZE](i requires 0 <= i < PAGE_SIZE reads this => if n.id < |data| && i < |data[n.id]| then data[n.id][i] else 0);
      ok := WriteNode(page, n);
      if ok {
        data := data[n.id := page[..]];
        nodes := nodes[n.id := n];
        FreeFrame(old(data), data, meta, meta, freeList, freeSet);
      }
    }

    /** Encode a node into the page that already holds it. */
    method Rewrite(n: Node)
      requires Valid() && n.id in nodes && nodes[n.id] == n && Storable(n) && Fits(n.entries)
      modifies this
      ensures Valid() && meta == old(meta) && freeSet == old(freeSet) && nodes == old(nodes)
    {
      var ok := StoreNode(n);
    }

    /** Record the tree root. */
    method SetRootPage(id: nat) returns (ok: bool)
      requires Valid()
      modifies this
      ensures Valid() && nodes == old(nodes) && freeSet == old(freeSet) && meta.pageCount == old(meta.pageCount)
      ensures ok <==> id < meta.pageCount || id == 0
      ensures meta.rootPage == if ok then id else old(meta.rootPage)
    {
      if id != 0 && id >= meta.pageCount {
        return false;
      }
      FreeBounded(data, meta, freeList, freeSet);
      meta := meta.(rootPage := id);
      WriteMeta();
      FreeFrame(old(data), data, old(meta), meta, freeList, freeSet);
      MetaRoundTrip(meta);
      return true;
    }
  }
}
