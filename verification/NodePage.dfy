/** The byte layout of a B+Tree node in one 4096-byte page. */
module NodePage {
  import opened Bytes
  import opened Options
  import opened Entries

  const PAGE_SIZE: nat := 4096
  const HEADER_SIZE: nat := 16
  const SLOT_SIZE: nat := 16
  const LEAF_TYPE: Byte := 1
  const BRANCH_TYPE: Byte := 2

  datatype Node = Node(id: nat, leaf: bool, next: nat, entries: seq<Entry>)

  /** Bytes of the heap taken by the first i entries: keys and values, without directory slots. */
  function Heap(es: seq<Entry>, i: nat): nat
    requires i <= |es|
  {
    if i == 0 then 0 else Heap(es, i - 1) + |es[i - 1].key| + |es[i - 1].value|
  }

  predicate Fits(es: seq<Entry>) {
    HEADER_SIZE + SLOT_SIZE * |es| + Heap(es, |es|) <= PAGE_SIZE
  }

  /** What the page format can hold besides the size bound. */
  ghost predicate Storable(n: Node) {
    && Sorted(n.entries)
    && n.next < U64_LIMIT
    && forall i | 0 <= i < |n.entries| ::
         |n.entries[i].key| > 0 && n.entries[i].child < U64_LIMIT && (n.leaf || n.entries[i].child != 0)
  }

  function SlotAt(i: nat): nat {
    HEADER_SIZE + SLOT_SIZE * i
  }

  /** Directory slot i of the page describes entry e. */
  predicate ReadsEntry(page: Bytes, leaf: bool, i: nat, e: Entry)
    requires |page| == PAGE_SIZE && SlotAt(i) + SLOT_SIZE <= PAGE_SIZE
  {
    var b := SlotAt(i);
    var keyOff, keyLen, valOff, valLen := U16(page, b), U16(page, b + 2), U16(page, b + 4), U16(page, b + 6);
    && keyLen > 0 && keyOff + keyLen <= PAGE_SIZE && valOff + valLen <= PAGE_SIZE
    && e.key == page[keyOff..keyOff + keyLen]
    && e.value == page[valOff..valOff + valLen]
    && e.child == U64(page, b + 8)
    && (leaf || e.child != 0)
  }

  /** The page is a well-formed node with the given contents. */
  ghost predicate Reads(page: Bytes, n: Node) {
    && |page| == PAGE_SIZE
    && page[0] == (if n.leaf then LEAF_TYPE else BRANCH_TYPE)
    && U16(page, 2) == |n.entries|
    && U64(page, 8) == n.next
    && SlotAt(|n.entries|) <= PAGE_SIZE
    && ReadsAll(page, n.leaf, n.entries)
  }

  /** A page holds at most one node. */
  lemma ReadsUnique(page: Bytes, m: Node, n: Node)
    requires Reads(page, m) && Reads(page, n) && m.id == n.id
    ensures m == n
  {
    forall i | 0 <= i < |m.entries|
      ensures m.entries[i] == n.entries[i]
    {
      assert ReadsEntry(page, m.leaf, i, m.entries[i]) && ReadsEntry(page, n.leaf, i, n.entries[i]);
    }
    assert m.entries == n.entries;
  }

  ghost predicate ReadsAll(page: Bytes, leaf: bool, es: seq<Entry>)
    requires |page| == PAGE_SIZE && SlotAt(|es|) <= PAGE_SIZE
  {
    (forall i | 0 <= i < |es| :: ReadsEntry(page, leaf, i, es[i])) && Sorted(es)
  }

  /**
   * Decode a page, checking the directory as it goes.  It succeeds exactly on the
   * pages that hold a node, and then returns that node.
   */
  method DecodeNode(id: nat, page: Bytes) returns (r: Option<Node>)
    ensures r.Some? ==> r.value.id == id && Reads(page, r.value)
    ensures r.None? ==> forall n: Node :: !Reads(page, n)
  {
    if |page| != PAGE_SIZE {
      return None;
    }
    if page[0] != LEAF_TYPE && page[0] != BRANCH_TYPE {
      return None;
    }
    var leaf := page[0] == LEAF_TYPE;
    var count := U16(page, 2);
    if HEADER_SIZE + count * SLOT_SIZE > PAGE_SIZE {
      return None;
    }
    var entries := DecodeEntries(page, leaf, count);
    if entries.None? {
      return None;
    }
    return Some(Node(id, leaf, U64(page, 8), entries.value));
  }

  method DecodeEntries(page: Bytes, leaf: bool, count: nat) returns (r: Option<seq<Entry>>)
    requires |page| == PAGE_SIZE && SlotAt(count) <= PAGE_SIZE
    ensures r.Some? ==> |r.value| == count && ReadsAll(page, leaf, r.value)
    ensures r.None? ==> forall es: seq<Entry> | |es| == count :: !ReadsAll(page, leaf, es)
  {
    var entries: seq<Entry> := [];
    for i := 0 to count
      invariant |entries| == i
      invariant ReadsAll(page, leaf, entries)
    {
      var slot := DecodeSlot(page, leaf, i);
      if slot.None? {
        NoSlot(page, leaf, i, count);
        return None;
      }
      if i > 0 {
        var c := Compare(entries[i - 1].key, slot.value.key);
        if c >= 0 {
          OutOfOrder(page, leaf, i, entries[i - 1], slot.value, count);
          return None;
        }
      }
      AppendReads(page, leaf, entries, slot.value);
      entries := entries + [slot.value];
    }
    return Some(entries);
  }

  lemma AppendSorted(es: seq<Entry>, e: Entry)
    requires Sorted(es) && (es != [] ==> Rank(es[|es| - 1].key) < Rank(e.key))
    ensures Sorted(es + [e])
  {
  }

  lemma AppendReads(page: Bytes, leaf: bool, es: seq<Entry>, e: Entry)
    requires |page| == PAGE_SIZE && SlotAt(|es|) + SLOT_SIZE <= PAGE_SIZE && ReadsAll(page, leaf, es)
    requires ReadsEntry(page, leaf, |es|, e) && (es != [] ==> Rank(es[|es| - 1].key) < Rank(e.key))
    ensures ReadsAll(page, leaf, es + [e])
  {
    AppendSorted(es, e);
    forall i | 0 <= i < |es + [e]|
      ensures ReadsEntry(page, leaf, i, (es + [e])[i])
    {
      if i < |es| {
        assert (es + [e])[i] == es[i] && ReadsEntry(page, leaf, i, es[i]);
      } else {
        assert (es + [e])[i] == e;
      }
    }
  }

  /** A slot that cannot be read spoils every reading of the page. */
  lemma NoSlot(page: Bytes, leaf: bool, i: nat, count: nat)
    requires |page| == PAGE_SIZE && SlotAt(count) <= PAGE_SIZE && i < count && forall e: Entry :: !ReadsEntry(page, leaf, i, e)
    ensures forall es: seq<Entry> | |es| == count :: !ReadsAll(page, leaf, es)
  {
    forall es: seq<Entry> | |es| == count
      ensures !ReadsAll(page, leaf, es)
    {
      assert !ReadsEntry(page, leaf, i, es[i]);
    }
  }

  lemma OutOfOrder(page: Bytes, leaf: bool, i: nat, prev: Entry, cur: Entry, count: nat)
    requires |page| == PAGE_SIZE && SlotAt(count) <= PAGE_SIZE && 0 < i < count
    requires ReadsEntry(page, leaf, i - 1, prev) && ReadsEntry(page, leaf, i, cur)
    requires !(Rank(prev.key) < Rank(cur.key))
    ensures forall es: seq<Entry> | |es| == count :: !ReadsAll(page, leaf, es)
  {
    forall es: seq<Entry> | |es| == count
      ensures !ReadsAll(page, leaf, es)
    {
      assert ReadsAll(page, leaf, es) ==> ReadsEntry(page, leaf, i - 1, es[i - 1]) && ReadsEntry(page, leaf, i, es[i]);
    }
  }

  /** Decode one directory slot, rejecting empty keys, out-of-range spans and missing children. */
  method DecodeSlot(page: Bytes, leaf: bool, i: nat) returns (r: Option<Entry>)
    requires |page| == PAGE_SIZE && SlotAt(i) + SLOT_SIZE <= PAGE_SIZE
    ensures r.Some? ==> ReadsEntry(page, leaf, i, r.value)
    ensures r.None? ==> forall e: Entry :: !ReadsEntry(page, leaf, i, e)
  {
    var base := SlotAt(i);
    var keyOff, keyLen := U16(page, base), U16(page, base + 2);
    var valOff, valLen := U16(page, base + 4), U16(page, base + 6);
    var child := U64(page, base + 8);
    if keyLen == 0 || keyOff + keyLen > PAGE_SIZE || valOff + valLen > PAGE_SIZE || (!leaf && child == 0) {
      return None;
    }
    return Some(Entry(page[keyOff..keyOff + keyLen], page[valOff..valOff + valLen], child));
  }

  // ---- writing ----

  lemma PrefixSlice(p: Bytes, q: Bytes, n: nat, x: nat, y: nat)
    requires x <= y <= n <= |p| && n <= |q| && p[..n] == q[..n]
    ensures p[x..y] == q[x..y]
  {
    forall i | x <= i < y
      ensures p[i] == q[i]
    {
      assert p[..n][i] == q[..n][i];
    }
  }

  lemma SuffixSlice(p: Bytes, q: Bytes, n: nat, x: nat, y: nat)
    requires n <= x <= y <= |p| && |p| == |q| && p[n..] == q[n..]
    ensures p[x..y] == q[x..y]
  {
    forall i | x <= i < y
      ensures p[i] == q[i]
    {
      DropIndex(p, n, i - n);
      DropIndex(q, n, i - n);
    }
  }

  lemma DropIndex(p: Bytes, n: nat, i: nat)
    requires n + i < |p|
    ensures p[n..][i] == p[n + i]
  {
  }

  lemma InnerSlice(p: Bytes, b: nat, s: Bytes, x: nat, y: nat)
    requires b + |s| <= |p| && p[b..b + |s|] == s && x <= y <= |s|
    ensures p[b + x..b + y] == s[x..y]
  {
    forall i | x <= i < y
      ensures p[b + x..b + y][i - x] == s[i]
    {
      SliceIndex(p, b, b + |s|, i);
      SliceIndex(p, b + x, b + y, i - x);
    }
  }

  lemma SliceIndex(p: Bytes, lo: nat, hi: nat, i: nat)
    requires lo <= hi <= |p| && i < hi - lo
    ensures p[lo..hi][i] == p[lo + i]
  {
  }

  /** q is p with s written at off. */
  ghost predicate Patched(p: Bytes, q: Bytes, off: nat, s: Bytes) {
    |q| == |p| && off + |s| <= |p| && q[off..off + |s|] == s && q[..off] == p[..off] && q[off + |s|..] == p[off + |s|..]
  }

  lemma PatchedBelow(p: Bytes, q: Bytes, off: nat, s: Bytes, x: nat, y: nat)
    requires Patched(p, q, off, s) && x <= y <= off
    ensures q[x..y] == p[x..y] && q[..y] == p[..y]
  {
    PrefixSlice(p, q, off, x, y);
    PrefixSlice(p, q, off, 0, y);
  }

  lemma PatchedAbove(p: Bytes, q: Bytes, off: nat, s: Bytes, x: nat, y: nat)
    requires Patched(p, q, off, s) && off + |s| <= x <= y <= |p|
    ensures q[x..y] == p[x..y] && q[y..] == p[y..]
  {
    SuffixSlice(p, q, off + |s|, x, y);
    SuffixSlice(p, q, off + |s|, y, |p|);
    assert q[y..] == q[y..|p|] && p[y..] == p[y..|p|];
  }

  method PutAt(page: array<Byte>, off: nat, s: Bytes)
    requires off + |s| <= page.Length
    modifies page
    ensures Patched(old(page[..]), page[..], off, s)
  {
    for i := 0 to |s|
      invariant forall k | 0 <= k < i :: page[off + k] == s[k]
      invariant forall k | 0 <= k < page.Length && !(off <= k < off + i) :: page[k] == old(page[k])
    {
      page[off + i] := s[i];
    }
  }

  /** The 16 directory bytes of an entry whose key starts at off and whose value follows it. */
  function SlotBytes(e: Entry, off: nat): (s: Bytes)
    ensures |s| == SLOT_SIZE
    ensures s[0..2] == ToLe(off, 2) && s[2..4] == ToLe(|e.key|, 2)
    ensures s[4..6] == ToLe(off + |e.key|, 2) && s[6..8] == ToLe(|e.value|, 2)
    ensures s[8..16] == ToLe(e.child, 8)
  {
    ToLe(off, 2) + ToLe(|e.key|, 2) + ToLe(off + |e.key|, 2) + ToLe(|e.value|, 2) + ToLe(e.child, 8)
  }

  ghost predicate Stored(p: Bytes, i: nat, e: Entry, off: nat) {
    && |p| == PAGE_SIZE && SlotAt(i) + SLOT_SIZE <= PAGE_SIZE && off + |e.key| + |e.value| <= PAGE_SIZE
    && p[SlotAt(i)..SlotAt(i) + SLOT_SIZE] == SlotBytes(e, off)
    && p[off..off + |e.key|] == e.key
    && p[off + |e.key|..off + |e.key| + |e.value|] == e.value
  }

  lemma StoredReads(p: Bytes, leaf: bool, i: nat, e: Entry, off: nat)
    requires Stored(p, i, e, off)
    requires |e.key| > 0 && e.child < U64_LIMIT && (leaf || e.child != 0)
    ensures ReadsEntry(p, leaf, i, e)
  {
    SlotFields(p, SlotAt(i), e, off);
  }

  /** The five fields of a directory slot. */
  lemma SlotFields(p: Bytes, b: nat, e: Entry, off: nat)
    requires b + SLOT_SIZE <= |p| && p[b..b + SLOT_SIZE] == SlotBytes(e, off) && off + |e.key| + |e.value| < U16_LIMIT && e.child < U64_LIMIT
    ensures U16(p, b) == off && U16(p, b + 2) == |e.key| && U16(p, b + 4) == off + |e.key| && U16(p, b + 6) == |e.value| && U64(p, b + 8) == e.child
  {
    var s := SlotBytes(e, off);
    InnerSlice(p, b, s, 0, 2);
    InnerSlice(p, b, s, 2, 4);
    InnerSlice(p, b, s, 4, 6);
    InnerSlice(p, b, s, 6, 8);
    InnerSlice(p, b, s, 8, 16);
    ReadsU16(p, b, off);
    ReadsU16(p, b + 2, |e.key|);
    ReadsU16(p, b + 4, off + |e.key|);
    ReadsU16(p, b + 6, |e.value|);
    ReadsU64(p, b + 8, e.child);
  }

  lemma StoredFrame(p: Bytes, q: Bytes, j: nat, e: Entry, off: nat, lo: nat, hi: nat)
    requires Stored(p, j, e, off) && |q| == PAGE_SIZE
    requires SlotAt(j) + SLOT_SIZE <= lo <= hi <= off
    requires p[..lo] == q[..lo] && p[hi..] == q[hi..]
    ensures Stored(q, j, e, off)
  {
    PrefixSlice(p, q, lo, SlotAt(j), SlotAt(j) + SLOT_SIZE);
    SuffixSlice(p, q, hi, off, off + |e.key|);
    SuffixSlice(p, q, hi, off + |e.key|, off + |e.key| + |e.value|);
  }

  /** Write one entry: its value and key on the heap, then its directory slot. */
  method WriteEntry(page: array<Byte>, i: nat, e: Entry, off: nat)
    requires page.Length == PAGE_SIZE
    requires SlotAt(i) + SLOT_SIZE <= off && off + |e.key| + |e.value| <= PAGE_SIZE
    modifies page
    ensures Stored(page[..], i, e, off)
    ensures page[..SlotAt(i)] == old(page[..SlotAt(i)])
    ensures page[off + |e.key| + |e.value|..] == old(page[off + |e.key| + |e.value|..])
  {
    ghost var p0 := page[..];
    PutAt(page, off + |e.key|, e.value);
    ghost var p1 := page[..];
    PutAt(page, off, e.key);
    ghost var p2 := page[..];
    PutAt(page, SlotAt(i), SlotBytes(e, off));
    EntryWritten(p0, p1, p2, page[..], i, e, off);
  }

  /** The three writes of an entry do not overlap. */
  lemma EntryWritten(p0: Bytes, p1: Bytes, p2: Bytes, p3: Bytes, i: nat, e: Entry, off: nat)
    requires |p0| == PAGE_SIZE && SlotAt(i) + SLOT_SIZE <= off && off + |e.key| + |e.value| <= PAGE_SIZE
    requires Patched(p0, p1, off + |e.key|, e.value) && Patched(p1, p2, off, e.key) && Patched(p2, p3, SlotAt(i), SlotBytes(e, off))
    ensures Stored(p3, i, e, off)
    ensures p3[..SlotAt(i)] == p0[..SlotAt(i)] && p3[off + |e.key| + |e.value|..] == p0[off + |e.key| + |e.value|..]
  {
    var slot, valOff, end := SlotBytes(e, off), off + |e.key|, off + |e.key| + |e.value|;
    PatchedAbove(p2, p3, SlotAt(i), slot, off, valOff);
    PatchedAbove(p2, p3, SlotAt(i), slot, valOff, end);
    PatchedAbove(p1, p2, off, e.key, valOff, end);
    PatchedBelow(p0, p1, valOff, e.value, 0, SlotAt(i));
    PatchedBelow(p1, p2, off, e.key, 0, SlotAt(i));
  }

  lemma {:induction false} HeapMonotone(es: seq<Entry>, j: nat, i: nat)
    requires j <= i <= |es|
    ensures Heap(es, j) <= Heap(es, i)
  {
    if j < i {
      HeapMonotone(es, j, i - 1);
    }
  }

  /** Where the key of entry j starts: the heap is filled downwards from the page end. */
  ghost function KeyOffset(es: seq<Entry>, j: nat): nat
    requires j < |es| && Heap(es, |es|) <= PAGE_SIZE
  {
    HeapMonotone(es, j + 1, |es|);
    PAGE_SIZE - Heap(es, j + 1)
  }

  /** Sum the sizes of the entries and compare with the page. */
  method NodeFits(es: seq<Entry>) returns (fits: bool)
    ensures fits == Fits(es)
  {
    var used := HEADER_SIZE + |es| * SLOT_SIZE;
    for i := 0 to |es|
      invariant used == HEADER_SIZE + |es| * SLOT_SIZE + Heap(es, i)
    {
      used := used + |es[i].key| + |es[i].value|;
    }
    return used <= PAGE_SIZE;
  }

  ghost predicate AllKeys(es: seq<Entry>) {
    forall i | 0 <= i < |es| :: |es[i].key| > 0
  }

  /**
   * Write n into the page: the header, then the directory upwards and the heap downwards.
   * It fails, before touching the page, when n does not fit, and midway on an empty key.
   */
  method WriteNode(page: array<Byte>, n: Node) returns (ok: bool)
    requires page.Length == PAGE_SIZE
    modifies page
    ensures ok <==> Fits(n.entries) && AllKeys(n.entries)
    ensures !Fits(n.entries) ==> page[..] == old(page[..])
    ensures ok && Storable(n) ==> Reads(page[..], n)
  {
    var fits := NodeFits(n.entries);
    if !fits {
      return false;
    }
    WriteHeader(page, n);
    ghost var before := page[..];
    ok := WriteEntries(page, n.entries);
    if ok && Storable(n) {
      HeaderFrame(before, page[..], n);
      WrittenReads(page[..], n);
    }
  }

  ghost predicate HeaderIs(p: Bytes, n: Node) {
    && |p| == PAGE_SIZE
    && p[0..1] == [if n.leaf then LEAF_TYPE else BRANCH_TYPE]
    && p[2..4] == ToLe(|n.entries|, 2)
    && p[8..16] == ToLe(n.next, 8)
  }

  lemma HeaderFrame(p: Bytes, q: Bytes, n: Node)
    requires HeaderIs(p, n) && |q| == PAGE_SIZE && p[..HEADER_SIZE] == q[..HEADER_SIZE]
    ensures HeaderIs(q, n)
  {
    PrefixSlice(p, q, HEADER_SIZE, 0, 1);
    PrefixSlice(p, q, HEADER_SIZE, 2, 4);
    PrefixSlice(p, q, HEADER_SIZE, 8, 16);
  }

  method WriteHeader(page: array<Byte>, n: Node)
    requires page.Length == PAGE_SIZE
    modifies page
    ensures HeaderIs(page[..], n)
  {
    PutAt(page, 0, seq(PAGE_SIZE, _ => 0));
    PutAt(page, 0, [if n.leaf then LEAF_TYPE else BRANCH_TYPE]);
    ghost var p1 := page[..];
    PutAt(page, 2, ToLe(|n.entries|, 2));
    ghost var p2 := page[..];
    PutAt(page, 8, ToLe(n.next, 8));
    ghost var p3 := page[..];
    PatchedBelow(p2, p3, 8, ToLe(n.next, 8), 2, 4);
    PatchedBelow(p2, p3, 8, ToLe(n.next, 8), 0, 1);
    PatchedBelow(p1, p2, 2, ToLe(|n.entries|, 2), 0, 1);
  }

  method WriteEntries(page: array<Byte>, es: seq<Entry>) returns (ok: bool)
    requires page.Length == PAGE_SIZE && Fits(es)
    modifies page
    ensures ok <==> AllKeys(es)
    ensures page[..HEADER_SIZE] == old(page[..HEADER_SIZE])
    ensures ok ==> StoredUpTo(page[..], es, |es|)
  {
    var cursor := PAGE_SIZE;
    for i := 0 to |es|
      invariant cursor == PAGE_SIZE - Heap(es, i)
      invariant page[..HEADER_SIZE] == old(page[..HEADER_SIZE])
      invariant forall j | 0 <= j < i :: |es[j].key| > 0
      invariant StoredUpTo(page[..], es, i)
    {
      if |es[i].key| == 0 {
        return false;
      }
      cursor := PlaceEntry(page, es, i, cursor);
    }
    return true;
  }

  /** Write entry i below the heap of the entries before it. */
  method PlaceEntry(page: array<Byte>, es: seq<Entry>, i: nat, cursor: nat) returns (off: nat)
    requires page.Length == PAGE_SIZE && i < |es| && Fits(es)
    requires cursor == PAGE_SIZE - Heap(es, i) && StoredUpTo(page[..], es, i)
    modifies page
    ensures off == PAGE_SIZE - Heap(es, i + 1)
    ensures page[..HEADER_SIZE] == old(page[..HEADER_SIZE])
    ensures StoredUpTo(page[..], es, i + 1)
  {
    HeapMonotone(es, i + 1, |es|);
    off := cursor - |es[i].value| - |es[i].key|;
    WriteEntry(page, i, es[i], off);
    assert SameAround(old(page[..]), page[..], es, i);
    StoredStep(old(page[..]), page[..], es, i);
    PrefixSlice(page[..], old(page[..]), SlotAt(i), 0, HEADER_SIZE);
  }

  ghost predicate StoredUpTo(p: Bytes, es: seq<Entry>, i: nat)
    requires i <= |es| && Heap(es, |es|) <= PAGE_SIZE
  {
    forall j {:trigger KeyOffset(es, j)} | 0 <= j < i :: Stored(p, j, es[j], KeyOffset(es, j))
  }

  /** Two pages agree outside the gap between directory slot i and the heap of the first i entries. */
  ghost predicate SameAround(p: Bytes, q: Bytes, es: seq<Entry>, i: nat)
    requires i <= |es|
  {
    && |p| == |q| == PAGE_SIZE && SlotAt(i) + Heap(es, i) <= PAGE_SIZE
    && p[..SlotAt(i)] == q[..SlotAt(i)]
    && p[PAGE_SIZE - Heap(es, i)..] == q[PAGE_SIZE - Heap(es, i)..]
  }

  /** Writing entry i into the gap keeps the entries before it. */
  lemma StoredStep(before: Bytes, after: Bytes, es: seq<Entry>, i: nat)
    requires i < |es| && Fits(es) && StoredUpTo(before, es, i)
    requires SameAround(before, after, es, i)
    requires Stored(after, i, es[i], KeyOffset(es, i))
    ensures StoredUpTo(after, es, i + 1)
  {
    forall j | 0 <= j < i
      ensures Stored(after, j, es[j], KeyOffset(es, j))
    {
      assert Stored(before, j, es[j], KeyOffset(es, j));
      StoredKeep(before, after, es, i, j);
    }
  }

  lemma StoredKeep(before: Bytes, after: Bytes, es: seq<Entry>, i: nat, j: nat)
    requires j < i < |es| && Fits(es) && Stored(before, j, es[j], KeyOffset(es, j))
    requires SameAround(before, after, es, i)
    ensures Stored(after, j, es[j], KeyOffset(es, j))
  {
    HeapMonotone(es, j + 1, i);
    StoredFrame(before, after, j, es[j], KeyOffset(es, j), SlotAt(i), PAGE_SIZE - Heap(es, i));
  }

  lemma WrittenReads(p: Bytes, n: Node)
    requires HeaderIs(p, n) && Fits(n.entries) && Storable(n)
    requires StoredUpTo(p, n.entries, |n.entries|)
    ensures Reads(p, n)
  {
    WidthLimits();
    LeRoundTrip(|n.entries|, 2);
    LeRoundTrip(n.next, 8);
    assert p[0] == p[0..1][0];
    forall j | 0 <= j < |n.entries|
      ensures ReadsEntry(p, n.leaf, j, n.entries[j])
    {
      StoredReads(p, n.leaf, j, n.entries[j], KeyOffset(n.entries, j));
    }
  }
}
