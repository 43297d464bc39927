/** The meta page and the free list threaded through the pages of the database file. */
module FreeList {
  import opened Bytes
  import opened NodePage
  import opened Numbers

  datatype Meta = Meta(pageCount: nat, freeHead: nat, freeCount: nat, rootPage: nat)

  const MAGIC: Bytes := [0x4B, 0x52, 0x4B, 0x56] // "KRKV"
  const VERSION: nat := 1

  ghost predicate WellSized(data: seq<Bytes>) {
    forall i | 0 <= i < |data| :: |data[i]| == PAGE_SIZE
  }

  predicate InU64(m: Meta) {
    m.pageCount < U64_LIMIT && m.freeHead < U64_LIMIT && m.freeCount < U64_LIMIT && m.rootPage < U64_LIMIT
  }

  /** The meta page written for m. */
  function MetaBytes(m: Meta): (p: Bytes)
    ensures |p| == PAGE_SIZE
  {
    MAGIC + ToLe(VERSION, 2) + ToLe(PAGE_SIZE, 2) +
    ToLe(m.pageCount, 8) + ToLe(m.freeHead, 8) + ToLe(m.freeCount, 8) + ToLe(m.rootPage, 8) +
    seq(PAGE_SIZE - 40, _ => 0)
  }

  /** The page carries the magic, the version, the page size and the fields of m. */
  predicate MetaIs(p: Bytes, m: Meta) {
    && |p| == PAGE_SIZE
    && p[..4] == MAGIC
    && U16(p, 4) == VERSION
    && U16(p, 6) == PAGE_SIZE
    && m == Meta(U64(p, 8), U64(p, 16), U64(p, 24), U64(p, 32))
  }

  /** Reading back the meta page gives the metadata written. */
  lemma MetaRoundTrip(m: Meta)
    requires InU64(m)
    ensures MetaIs(MetaBytes(m), m)
  {
    var p := MetaBytes(m);
    MetaSlices(MAGIC, ToLe(VERSION, 2), ToLe(PAGE_SIZE, 2), ToLe(m.pageCount, 8), ToLe(m.freeHead, 8), ToLe(m.freeCount, 8), ToLe(m.rootPage, 8), seq(PAGE_SIZE - 40, _ => 0));
    ReadsU16(p, 4, VERSION);
    ReadsU16(p, 6, PAGE_SIZE);
    ReadsU64(p, 8, m.pageCount);
    ReadsU64(p, 16, m.freeHead);
    ReadsU64(p, 24, m.freeCount);
    ReadsU64(p, 32, m.rootPage);
  }

  /** The seven fields of the meta page, one after the other. */
  lemma MetaSlices(a: Bytes, b: Bytes, c: Bytes, d: Bytes, e: Bytes, f: Bytes, g: Bytes, rest: Bytes)
    requires |a| == 4 && |b| == 2 && |c| == 2 && |d| == 8 && |e| == 8 && |f| == 8 && |g| == 8
    ensures var p := a + b + c + d + e + f + g + rest;
            && p[..4] == a && p[4..6] == b && p[6..8] == c
            && p[8..16] == d && p[16..24] == e && p[24..32] == f && p[32..40] == g
  {
  }

  /** A freed page: zero except for the id of the next free page. */
  function FreeBytes(next: nat): (p: Bytes)
    ensures |p| == PAGE_SIZE
  {
    ToLe(next, 8) + seq(PAGE_SIZE - 8, _ => 0)
  }

  lemma FreeBytesNext(next: nat)
    requires next < U64_LIMIT
    ensures U64(FreeBytes(next), 0) == next
  {
    WidthLimits();
    LeRoundTrip(next, 8);
    assert FreeBytes(next)[0..8] == ToLe(next, 8);
  }

  /** Following the links from head visits exactly the pages of list, in order, and stops at 0. */
  ghost predicate Chain(data: seq<Bytes>, head: nat, list: seq<nat>)
    decreases list
  {
    if list == [] then head == 0
    else head == list[0] && 0 < head < |data| && |data[head]| == PAGE_SIZE && Chain(data, U64(data[head], 0), list[1..])
  }

  ghost function Elements(list: seq<nat>): set<nat> {
    set x | x in list
  }

  ghost predicate NoRepeats(list: seq<nat>) {
    forall i, j | 0 <= i < j < |list| :: list[i] != list[j]
  }

  lemma {:induction false} ElementsSize(list: seq<nat>)
    requires NoRepeats(list)
    ensures |Elements(list)| == |list|
  {
    if list != [] {
      ElementsSize(list[1..]);
      assert Elements(list) == Elements(list[1..]) + {list[0]};
      assert list[0] !in list[1..];
    }
  }

  /** Changing pages off the list does not disturb it. */
  lemma {:induction false} ChainFrame(data: seq<Bytes>, data': seq<Bytes>, head: nat, list: seq<nat>)
    requires Chain(data, head, list)
    requires forall x | x in list :: x < |data'| && (x < |data| ==> data'[x] == data[x])
    ensures Chain(data', head, list)
    decreases list
  {
    if list != [] {
      assert list[0] in list;
      assert forall x | x in list[1..] :: x in list;
      ChainFrame(data, data', U64(data[head], 0), list[1..]);
    }
  }

  /** The pages determine the list. */
  lemma {:induction false} ChainUnique(data: seq<Bytes>, head: nat, a: seq<nat>, b: seq<nat>)
    requires Chain(data, head, a) && Chain(data, head, b)
    ensures a == b
    decreases a
  {
    if a != [] && b != [] {
      ChainUnique(data, U64(data[head], 0), a[1..], b[1..]);
      assert a == [a[0]] + a[1..] && b == [b[0]] + b[1..];
    }
  }

  /** The on-page chain visits exactly the free set, without repeats, and the counter is its size. */
  ghost predicate FreeOk(data: seq<Bytes>, m: Meta, list: seq<nat>, free: set<nat>) {
    && Chain(data, m.freeHead, list)
    && NoRepeats(list)
    && free == Elements(list)
    && m.freeCount == |list|
    && forall x | x in free :: 0 < x < m.pageCount
  }

  ghost function Range(n: nat): (s: set<nat>)
    ensures forall x: nat :: x in s <==> x < n
    ensures |s| == n
  {
    if n == 0 then {} else Range(n - 1) + {n - 1}
  }

  lemma FreeBounded(data: seq<Bytes>, m: Meta, list: seq<nat>, free: set<nat>)
    requires FreeOk(data, m, list, free)
    ensures m.freeCount <= m.pageCount && (m.freeHead == 0 || m.freeHead < m.pageCount)
    ensures free == {} <==> m.freeHead == 0
  {
    ElementsSize(list);
    SubsetSize(free, Range(m.pageCount));
    assert list != [] ==> list[0] in free;
  }

  lemma FreeFrame(data: seq<Bytes>, data': seq<Bytes>, m: Meta, m': Meta, list: seq<nat>, free: set<nat>)
    requires FreeOk(data, m, list, free)
    requires m'.freeHead == m.freeHead && m'.freeCount == m.freeCount && m.pageCount <= m'.pageCount
    requires forall x | x in free :: x < |data'| && (x < |data| ==> data'[x] == data[x])
    ensures FreeOk(data', m', list, free)
  {
    assert forall x | x in list :: x in free;
    ChainFrame(data, data', m.freeHead, list);
  }

  /** Taking the head page off the list. */
  lemma PopFree(data: seq<Bytes>, data': seq<Bytes>, m: Meta, m': Meta, list: seq<nat>, free: set<nat>)
    requires FreeOk(data, m, list, free) && m.freeHead != 0 && m.pageCount <= |data|
    requires m' == m.(freeHead := U64(data[m.freeHead], 0), freeCount := m.freeCount - 1)
    requires |data'| == |data| && forall x | 0 < x < |data| && x != m.freeHead :: data'[x] == data[x]
    ensures FreeOk(data', m', list[1..], free - {m.freeHead})
  {
    assert forall x | x in list[1..] :: x in list && x in free && x != m.freeHead;
    ChainFrame(data, data', m'.freeHead, list[1..]);
    assert Elements(list[1..]) == free - {m.freeHead};
  }

  /** Putting a page in front of the list. */
  lemma PushFree(data: seq<Bytes>, data': seq<Bytes>, m: Meta, m': Meta, list: seq<nat>, free: set<nat>, id: nat)
    requires FreeOk(data, m, list, free) && m.freeHead < U64_LIMIT
    requires 0 < id < m.pageCount <= |data| && id !in free
    requires m' == m.(freeHead := id, freeCount := m.freeCount + 1)
    requires |data'| == |data| && data'[id] == FreeBytes(m.freeHead)
    requires forall x | 0 < x < |data| && x != id :: data'[x] == data[x]
    ensures FreeOk(data', m', [id] + list, free + {id})
  {
    assert forall x | x in list :: x in free;
    ChainFrame(data, data', m.freeHead, list);
    FreeBytesNext(m.freeHead);
    assert ([id] + list)[1..] == list;
    assert Elements([id] + list) == free + {id};
  }
}
