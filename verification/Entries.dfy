/** Sorted entry lists of B+Tree nodes and the map a list stands for. */
module Entries {
  import opened Bytes
  import opened Options
  import opened Seqs

  /** One slot of a node: a key with a value (leaf) or with a child page (branch). */
  datatype Entry = Entry(key: Bytes, value: Bytes, child: nat)

  ghost predicate Sorted(es: seq<Entry>) {
    forall i, j | 0 <= i < j < |es| :: Rank(es[i].key) < Rank(es[j].key)
  }

  ghost predicate AllBelow(es: seq<Entry>, key: Bytes) {
    forall i | 0 <= i < |es| :: Rank(es[i].key) < Rank(key)
  }

  ghost predicate AllAbove(es: seq<Entry>, key: Bytes) {
    forall i | 0 <= i < |es| :: Rank(key) < Rank(es[i].key)
  }

  ghost predicate HasKey(es: seq<Entry>, key: Bytes) {
    exists i | 0 <= i < |es| :: es[i].key == key
  }

  /** p is where key belongs: everything before is below it, the entry at p is not. */
  ghost predicate IsPosition(es: seq<Entry>, key: Bytes, p: nat) {
    p <= |es| && AllBelow(es[..p], key) && (p < |es| ==> Rank(key) <= Rank(es[p].key))
  }

  /** es with e added in key order, replacing an entry of the same key. */
  ghost function Insert(es: seq<Entry>, e: Entry): (r: seq<Entry>)
    ensures r != []
  {
    if es == [] then [e]
    else if es[0].key == e.key then [e] + es[1..]
    else if Rank(e.key) < Rank(es[0].key) then [e] + es
    else [es[0]] + Insert(es[1..], e)
  }

  /** es without the entry for key, if there is one. */
  ghost function Remove(es: seq<Entry>, key: Bytes): seq<Entry> {
    if es == [] then []
    else if es[0].key == key then es[1..]
    else [es[0]] + Remove(es[1..], key)
  }

  /** The key-value map an entry list denotes. */
  ghost function AsMap(es: seq<Entry>): map<Bytes, Bytes> {
    if es == [] then map[] else AsMap(es[1..])[es[0].key := es[0].value]
  }

  ghost function Find(es: seq<Entry>, key: Bytes): Option<Bytes> {
    var m := AsMap(es);
    if key in m then Some(m[key]) else None
  }

  // ---- shape of insertion and removal ----

  lemma PositionInTail(es: seq<Entry>, key: Bytes, p: nat)
    requires Sorted(es) && IsPosition(es, key, p) && p > 0
    ensures Rank(es[0].key) < Rank(key) && Sorted(es[1..]) && IsPosition(es[1..], key, p - 1)
  {
    assert es[..p][0] == es[0];
    assert es[1..][..p - 1] == es[..p][1..];
  }

  lemma {:induction false} InsertAt(es: seq<Entry>, e: Entry, p: nat)
    requires Sorted(es) && IsPosition(es, e.key, p)
    ensures Insert(es, e) == if p < |es| && es[p].key == e.key then es[p := e] else es[..p] + [e] + es[p..]
  {
    if p > 0 {
      PositionInTail(es, e.key, p);
      InsertAt(es[1..], e, p - 1);
      ConsInsert(es, p, e);
      if p < |es| {
        ConsUpdate(es, p, e);
      }
    } else if es != [] {
      RankIsOrder(es[0].key, e.key);
    }
  }

  lemma {:induction false} RemoveAt(es: seq<Entry>, key: Bytes, p: nat)
    requires Sorted(es) && IsPosition(es, key, p)
    ensures Remove(es, key) == if p < |es| && es[p].key == key then es[..p] + es[p + 1..] else es
  {
    if es != [] {
      if p > 0 {
        PositionInTail(es, key, p);
        RemoveAt(es[1..], key, p - 1);
        HeadTail(es);
        if p < |es| {
          ConsRemove(es, p);
        }
      } else if es[0].key != key {
        RankIsOrder(es[0].key, key);
        RemoveAbsent(es, key);
      }
    }
  }

  /** In a sorted list the position of a key is the only place it can be. */
  lemma KeyAtPosition(es: seq<Entry>, key: Bytes, p: nat)
    requires Sorted(es) && IsPosition(es, key, p)
    ensures HasKey(es, key) <==> p < |es| && es[p].key == key
    ensures !HasKey(es, key) ==> AllAbove(es[p..], key)
  {
    if i :| 0 <= i < |es| && es[i].key == key {
      assert i == p;
    }
    if p < |es| {
      RankIsOrder(es[p].key, key);
    }
  }

  lemma {:induction false} RemoveAbsent(es: seq<Entry>, key: Bytes)
    requires AllAbove(es, key)
    ensures Remove(es, key) == es
  {
    if es != [] {
      RemoveAbsent(es[1..], key);
    }
  }

  lemma {:induction false} InsertSorted(es: seq<Entry>, e: Entry, floor: real)
    requires Sorted(es)
    requires floor < Rank(e.key) && forall i | 0 <= i < |es| :: floor < Rank(es[i].key)
    ensures Sorted(Insert(es, e))
    ensures forall i | 0 <= i < |Insert(es, e)| :: floor < Rank(Insert(es, e)[i].key)
  {
    if es != [] && es[0].key != e.key && !(Rank(e.key) < Rank(es[0].key)) {
      RankIsOrder(es[0].key, e.key);
      InsertSorted(es[1..], e, Rank(es[0].key));
    }
  }

  lemma {:induction false} RemoveSorted(es: seq<Entry>, key: Bytes, floor: real)
    requires Sorted(es)
    requires forall i | 0 <= i < |es| :: floor < Rank(es[i].key)
    ensures Sorted(Remove(es, key))
    ensures forall i | 0 <= i < |Remove(es, key)| :: floor < Rank(Remove(es, key)[i].key)
  {
    if es != [] && es[0].key != key {
      RemoveSorted(es[1..], key, Rank(es[0].key));
    }
  }

  /** Insertion only touches the segment of the list the key falls into. */
  lemma InsertWithin(pre: seq<Entry>, mid: seq<Entry>, post: seq<Entry>, e: Entry)
    requires AllBelow(pre, e.key) && AllAbove(post, e.key)
    ensures Insert(pre + mid + post, e) == pre + Insert(mid, e) + post
  {
    Assoc(pre, mid, post);
    InsertAfter(pre, mid + post, e);
    InsertBefore(mid, post, e);
    Assoc(pre, Insert(mid, e), post);
  }

  lemma {:induction false} InsertAfter(pre: seq<Entry>, mid: seq<Entry>, e: Entry)
    requires AllBelow(pre, e.key)
    ensures Insert(pre + mid, e) == pre + Insert(mid, e)
  {
    if pre != [] {
      InsertAfter(pre[1..], mid, e);
      assert (pre + mid)[1..] == pre[1..] + mid;
    } else {
      assert pre + mid == mid;
    }
  }

  lemma {:induction false} InsertBefore(mid: seq<Entry>, post: seq<Entry>, e: Entry)
    requires AllAbove(post, e.key)
    ensures Insert(mid + post, e) == Insert(mid, e) + post
  {
    if mid != [] {
      TailOfJoin(mid, post);
      InsertBefore(mid[1..], post, e);
      Assoc([e], mid, post);
      Assoc([e], mid[1..], post);
      Assoc([mid[0]], Insert(mid[1..], e), post);
    } else {
      assert mid + post == post;
    }
  }

  lemma RemoveWithin(pre: seq<Entry>, mid: seq<Entry>, post: seq<Entry>, key: Bytes)
    requires AllBelow(pre, key) && AllAbove(post, key)
    ensures Remove(pre + mid + post, key) == pre + Remove(mid, key) + post
  {
    Assoc(pre, mid, post);
    RemoveAfter(pre, mid + post, key);
    RemoveBefore(mid, post, key);
    Assoc(pre, Remove(mid, key), post);
  }

  lemma {:induction false} RemoveAfter(pre: seq<Entry>, mid: seq<Entry>, key: Bytes)
    requires AllBelow(pre, key)
    ensures Remove(pre + mid, key) == pre + Remove(mid, key)
  {
    if pre != [] {
      RemoveAfter(pre[1..], mid, key);
      assert (pre + mid)[1..] == pre[1..] + mid;
    } else {
      assert pre + mid == mid;
    }
  }

  lemma {:induction false} RemoveBefore(mid: seq<Entry>, post: seq<Entry>, key: Bytes)
    requires AllAbove(post, key)
    ensures Remove(mid + post, key) == Remove(mid, key) + post
  {
    if mid != [] {
      assert (mid + post)[1..] == mid[1..] + post;
      RemoveBefore(mid[1..], post, key);
    } else {
      assert mid + post == post;
      RemoveAbsent(post, key);
    }
  }

  lemma SortedParts(a: seq<Entry>, f: seq<Entry>, b: seq<Entry>)
    requires Sorted(a + f + b)
    ensures Sorted(a) && Sorted(f) && Sorted(b)
    ensures f != [] ==> AllBelow(a, f[0].key) && AllAbove(b, f[|f| - 1].key)
  {
    var all := a + f + b;
    assert forall k | 0 <= k < |a| :: all[k] == a[k];
    assert forall k | 0 <= k < |f| :: all[|a| + k] == f[k];
    assert forall k | 0 <= k < |b| :: all[|a| + |f| + k] == b[k];
  }

  lemma SortedJoin(a: seq<Entry>, b: seq<Entry>, key: Bytes)
    requires Sorted(a) && Sorted(b) && AllBelow(a, key) && AllAbove(b, key)
    ensures Sorted(a + b)
  {
  }

  lemma InsertBetween(a: seq<Entry>, b: seq<Entry>, e: Entry)
    requires Sorted(a + [e] + b)
    ensures Sorted(a + b)
    ensures Insert(a + b, e) == a + [e] + b
  {
    SortedParts(a, [e], b);
    SortedJoin(a, b, e.key);
    InsertWithin(a, [], b, e);
    NothingBetween(a, b);
  }

  // ---- the denoted map ----

  lemma {:induction false} AsMapKeys(es: seq<Entry>, k: Bytes)
    ensures k in AsMap(es) <==> HasKey(es, k)
  {
    if es != [] {
      AsMapKeys(es[1..], k);
      if HasKey(es, k) && es[0].key != k {
        var i :| 0 <= i < |es| && es[i].key == k;
        assert es[1..][i - 1].key == k;
      }
    }
  }

  lemma {:induction false} AsMapValue(es: seq<Entry>, i: nat)
    requires Sorted(es) && i < |es|
    ensures es[i].key in AsMap(es) && AsMap(es)[es[i].key] == es[i].value
  {
    if i > 0 {
      AsMapValue(es[1..], i - 1);
    }
  }

  lemma {:induction false} AsMapSize(es: seq<Entry>)
    requires Sorted(es)
    ensures |AsMap(es)| == |es|
  {
    if es != [] {
      AsMapSize(es[1..]);
      AsMapKeys(es[1..], es[0].key);
      assert AsMap(es).Keys == AsMap(es[1..]).Keys + {es[0].key};
    }
  }

  /** Inserting into the list updates the map. */
  lemma {:induction false} AsMapInsert(es: seq<Entry>, e: Entry)
    ensures AsMap(Insert(es, e)) == AsMap(es)[e.key := e.value]
  {
    if es != [] {
      AsMapInsert(es[1..], e);
    }
  }

  /** Removing from the list removes from the map. */
  lemma {:induction false} AsMapRemove(es: seq<Entry>, key: Bytes)
    requires Sorted(es)
    ensures AsMap(Remove(es, key)) == AsMap(es) - {key}
  {
    if es != [] {
      AsMapRemove(es[1..], key);
      if es[0].key == key {
        AsMapKeys(es[1..], key);
      }
    }
  }

  // ---- the operations of the node code ----

  /** Binary search for the first entry not below key. */
  method LowerBound(es: seq<Entry>, key: Bytes) returns (lo: nat)
    requires Sorted(es)
    ensures IsPosition(es, key, lo)
  {
    lo := 0;
    var hi := |es|;
    while lo < hi
      invariant 0 <= lo <= hi <= |es|
      invariant forall i | 0 <= i < lo :: Rank(es[i].key) < Rank(key)
      invariant forall i | hi <= i < |es| :: Rank(key) <= Rank(es[i].key)
    {
      var mid := lo + (hi - lo) / 2;
      var c := Compare(es[mid].key, key);
      if c < 0 {
        lo := mid + 1;
      } else {
        hi := mid;
      }
    }
  }

  /** The index of the entry for key, if present. */
  method Search(es: seq<Entry>, key: Bytes) returns (r: Option<nat>)
    requires Sorted(es)
    ensures r.None? <==> !HasKey(es, key)
    ensures r.Some? ==> r.value < |es| && es[r.value].key == key && IsPosition(es, key, r.value)
  {
    var idx := LowerBound(es, key);
    KeyAtPosition(es, key, idx);
    if idx >= |es| || es[idx].key != key {
      return None;
    }
    return Some(idx);
  }

  method InsertEntry(es: seq<Entry>, e: Entry) returns (r: seq<Entry>)
    requires Sorted(es)
    ensures r == Insert(es, e)
  {
    var idx := LowerBound(es, e.key);
    InsertAt(es, e, idx);
    if idx < |es| && es[idx].key == e.key {
      return es[idx := e];
    }
    return es[..idx] + [e] + es[idx..];
  }

  method DeleteEntry(es: seq<Entry>, key: Bytes) returns (r: seq<Entry>, found: bool)
    requires Sorted(es)
    ensures r == Remove(es, key)
    ensures found <==> HasKey(es, key)
  {
    var at := Search(es, key);
    if at.None? {
      RemoveMissing(es, key);
      return es, false;
    }
    RemoveAt(es, key, at.value);
    return es[..at.value] + es[at.value + 1..], true;
  }

  lemma {:induction false} RemoveMissing(es: seq<Entry>, key: Bytes)
    requires !HasKey(es, key)
    ensures Remove(es, key) == es
  {
    if es != [] {
      assert es[0].key != key;
      RemoveMissing(es[1..], key);
    }
  }

  /** The index at which a list is cut in two: half the entries, at least one. */
  function SplitPoint(n: nat): (mid: nat)
    requires n > 0
    ensures 1 <= mid <= n && (n >= 2 ==> mid < n)
  {
    if n / 2 == 0 then 1 else n / 2
  }

  /** Cut a list into two consecutive parts that differ by at most one entry; the first is never empty. */
  method SplitEntries(es: seq<Entry>) returns (left: seq<Entry>, right: seq<Entry>)
    requires es != []
    ensures left + right == es && left != []
    ensures |es| >= 2 ==> |left| <= |right| <= |left| + 1
  {
    var mid := |es| / 2;
    if mid == 0 {
      mid := 1;
    }
    return es[..mid], es[mid..];
  }

  /** Two such parts are the entries on either side of the split point. */
  lemma SplitParts(es: seq<Entry>, left: seq<Entry>, right: seq<Entry>)
    requires left + right == es && left != [] && (|es| >= 2 ==> |left| <= |right| <= |left| + 1)
    ensures left == es[..SplitPoint(|es|)] && right == es[SplitPoint(|es|)..]
  {
    assert |left| == SplitPoint(|es|);
  }
}
