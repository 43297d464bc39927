/** Buckets: name spaces made by prefixing keys. */
module Bucket {
  import opened Bytes
  import opened Options
  import opened Entries
  import opened Tree
  import opened BTree
  import opened RangeScan

  const SEPARATOR: Byte := 0

  /** Bucket names and keys are non-empty and free of the separator. */
  predicate ValidName(n: Bytes) {
    |n| > 0 && SEPARATOR !in n
  }

  predicate ValidPath(path: seq<Bytes>) {
    forall i | 0 <= i < |path| :: ValidName(path[i])
  }

  function BucketPrefix(parent: Bytes, name: Bytes): Bytes {
    parent + name + [SEPARATOR]
  }

  /** The prefix of a nested bucket: one step of BucketPrefix per name. */
  function PathPrefix(path: seq<Bytes>): Bytes {
    if path == [] then [] else BucketPrefix(PathPrefix(path[..|path| - 1]), path[|path| - 1])
  }

  /** A bucket's key as it is stored in the tree. */
  function FullKey(path: seq<Bytes>, key: Bytes): Bytes {
    PathPrefix(path) + key
  }

  /** The same key, read from the left. */
  ghost function Encoded(path: seq<Bytes>, key: Bytes): Bytes {
    if path == [] then key else path[0] + [SEPARATOR] + Encoded(path[1..], key)
  }

  lemma {:induction false} EncodedJoin(a: seq<Bytes>, b: seq<Bytes>, key: Bytes)
    ensures Encoded(a + b, key) == Encoded(a, Encoded(b, key))
  {
    if a == [] {
      assert a + b == b;
    } else {
      assert (a + b)[1..] == a[1..] + b;
      EncodedJoin(a[1..], b, key);
    }
  }

  lemma {:induction false} FullKeyEncoded(path: seq<Bytes>, key: Bytes)
    ensures FullKey(path, key) == Encoded(path, key)
  {
    if path != [] {
      var n := |path| - 1;
      var rest := path[n] + [SEPARATOR] + key;
      FullKeyEncoded(path[..n], rest);
      EncodedJoin(path[..n], [path[n]], key);
      assert path[..n] + [path[n]] == path;
      assert Encoded([path[n]], key) == rest;
      assert PathPrefix(path) + key == PathPrefix(path[..n]) + rest;
    }
  }

  /** Two strings without separators, each followed by one, are equal if the wholes are. */
  lemma FirstField(a: Bytes, x: Bytes, b: Bytes, y: Bytes)
    requires SEPARATOR !in a && SEPARATOR !in b && a + [SEPARATOR] + x == b + [SEPARATOR] + y
    ensures a == b && x == y
  {
    var s, t := a + [SEPARATOR] + x, b + [SEPARATOR] + y;
    assert s[|a|] == SEPARATOR && t[|b|] == SEPARATOR;
    assert forall i | 0 <= i < |a| :: s[i] == a[i];
    assert forall i | 0 <= i < |b| :: t[i] == b[i];
    assert |a| == |b|;
    assert a == s[..|a|] && b == t[..|b|] && x == s[|a| + 1..] && y == t[|b| + 1..];
  }

  lemma {:induction false} HasSeparator(path: seq<Bytes>, key: Bytes)
    requires path != []
    ensures SEPARATOR in Encoded(path, key)
  {
    assert Encoded(path, key)[|path[0]|] == SEPARATOR;
  }

  /** Different buckets and keys never share a stored key. */
  lemma {:induction false} EncodedInjective(p: seq<Bytes>, k: Bytes, q: seq<Bytes>, l: Bytes)
    requires ValidPath(p) && ValidPath(q) && ValidName(k) && ValidName(l)
    requires Encoded(p, k) == Encoded(q, l)
    ensures p == q && k == l
  {
    if p == [] || q == [] {
      if q != [] {
        HasSeparator(q, l);
      }
      if p != [] {
        HasSeparator(p, k);
      }
    } else {
      FirstField(p[0], Encoded(p[1..], k), q[0], Encoded(q[1..], l));
      EncodedInjective(p[1..], k, q[1..], l);
      assert p == [p[0]] + p[1..] && q == [q[0]] + q[1..];
    }
  }

  lemma FullKeyInjective(p: seq<Bytes>, k: Bytes, q: seq<Bytes>, l: Bytes)
    requires ValidPath(p) && ValidPath(q) && ValidName(k) && ValidName(l)
    ensures FullKey(p, k) == FullKey(q, l) <==> p == q && k == l
  {
    FullKeyEncoded(p, k);
    FullKeyEncoded(q, l);
    if FullKey(p, k) == FullKey(q, l) {
      EncodedInjective(p, k, q, l);
    }
  }

  // ---- the end of a prefix ----

  predicate HasPrefix(k: Bytes, p: Bytes) {
    p <= k
  }

  /** The least string above every string with the prefix, if there is one. */
  ghost function PrefixEnd(p: Bytes): Option<Bytes> {
    if p == [] then None
    else match PrefixEnd(p[1..])
      case Some(e) => Some([p[0]] + e)
      case None => if p[0] < 255 then Some([p[0] + 1]) else None
  }

  /** A prefix is a key range. */
  lemma {:induction false} PrefixIsRange(p: Bytes, k: Bytes)
    ensures HasPrefix(k, p) <==> InRange(k, p, PrefixEnd(p))
  {
    RankPositive(p);
    RankPositive(k);
    if p != [] && k != [] {
      PrefixIsRange(p[1..], k[1..]);
      PrefixHeads(k, p);
      RankHeads(k, p);
      EndHeads(p, k);
    }
  }

  lemma PrefixHeads(k: Bytes, p: Bytes)
    requires p != [] && k != []
    ensures HasPrefix(k, p) <==> k[0] == p[0] && HasPrefix(k[1..], p[1..])
  {
    if k[0] == p[0] && HasPrefix(k[1..], p[1..]) {
      assert k == [p[0]] + k[1..] && p == [p[0]] + p[1..];
    }
  }

  /** Below the end of the prefix, by the first byte and the rest. */
  lemma EndHeads(p: Bytes, k: Bytes)
    requires p != [] && k != []
    ensures PrefixEnd(p).Some? && PrefixEnd(p[1..]).Some? ==>
      (Rank(k) < Rank(PrefixEnd(p).value) <==> k[0] < p[0] || (k[0] == p[0] && Rank(k[1..]) < Rank(PrefixEnd(p[1..]).value)))
    ensures PrefixEnd(p).Some? && PrefixEnd(p[1..]).None? ==> (Rank(k) < Rank(PrefixEnd(p).value) <==> k[0] <= p[0])
    ensures PrefixEnd(p).None? ==> PrefixEnd(p[1..]).None? && p[0] == 255
  {
    var e := PrefixEnd(p);
    if e.Some? {
      RankHeads(k, e.value);
      if PrefixEnd(p[1..]).Some? {
        assert e.value[1..] == PrefixEnd(p[1..]).value;
      } else {
        RankPositive(e.value[1..]);
      }
    }
  }

  /** Increment the last byte that is not 0xff and drop what follows it. */
  method FindPrefixEnd(prefix: Bytes) returns (r: Option<Bytes>)
    ensures r == PrefixEnd(prefix)
  {
    var i := |prefix|;
    while i > 0
      invariant 0 <= i <= |prefix|
      invariant PrefixEnd(prefix[i..]) == None
    {
      i := i - 1;
      assert prefix[i..][1..] == prefix[i + 1..];
      if prefix[i] != 255 {
        PrefixEndAt(prefix, i);
        return Some(prefix[..i] + [prefix[i] + 1]);
      }
    }
    assert prefix[0..] == prefix;
    return None;
  }

  lemma {:induction false} PrefixEndAt(p: Bytes, i: nat)
    requires i < |p| && p[i] < 255 && PrefixEnd(p[i..][1..]) == None
    ensures PrefixEnd(p) == Some(p[..i] + [p[i] + 1])
  {
    if i > 0 {
      assert p[1..][i - 1..] == p[i..];
      PrefixEndAt(p[1..], i - 1);
      assert [p[0]] + (p[1..][..i - 1] + [p[i] + 1]) == p[..i] + [p[i] + 1];
    } else {
      assert p[0..] == p && p[..0] + [p[0] + 1] == [p[0] + 1];
    }
  }

  // ---- scanning a bucket ----

  lemma {:induction false} RankPrefix(p: Bytes, a: Bytes, b: Bytes)
    ensures Rank(p + a) < Rank(p + b) <==> Rank(a) < Rank(b)
    ensures Rank(p + a) <= Rank(p + b) <==> Rank(a) <= Rank(b)
  {
    if p == [] {
      assert p + a == a && p + b == b;
    } else {
      assert (p + a)[1..] == p[1..] + a && (p + b)[1..] == p[1..] + b;
      RankPrefix(p[1..], a, b);
    }
  }

  /** The tree range of a bucket-local range. */
  ghost function TreeEnd(prefix: Bytes, end: Option<Bytes>): Option<Bytes> {
    if end.Some? then Some(prefix + end.value) else PrefixEnd(prefix)
  }

  /** A local range within a bucket is a range of tree keys that all carry the prefix. */
  lemma LocalRange(prefix: Bytes, k: Bytes, start: Bytes, end: Option<Bytes>)
    ensures InRange(k, prefix + start, TreeEnd(prefix, end)) <==>
            HasPrefix(k, prefix) && InRange(k[|prefix|..], start, end)
  {
    RankPrefix(prefix, [], start);
    assert prefix + [] == prefix;
    PrefixIsRange(prefix, k);
    if HasPrefix(k, prefix) {
      var x := k[|prefix|..];
      assert k == prefix + x;
      RankPrefix(prefix, start, x);
      if end.Some? {
        RankPrefix(prefix, x, end.value);
      }
    }
    if end.Some? && PrefixEnd(prefix).Some? {
      PrefixIsRange(prefix, prefix + end.value);
    }
  }

  datatype BucketError = InvalidKey

  datatype Listing = Listed(pairs: seq<(Bytes, Bytes)>) | Refused(error: BucketError)

  /** out is es with the prefix taken off the keys. */
  ghost predicate Stripped(out: seq<(Bytes, Bytes)>, es: seq<Entry>, prefix: Bytes) {
    |out| == |es| && forall i | 0 <= i < |out| :: es[i].key == prefix + out[i].0 && es[i].value == out[i].1
  }

  ghost predicate AllPrefixed(es: seq<Entry>, prefix: Bytes) {
    forall i | 0 <= i < |es| :: HasPrefix(es[i].key, prefix)
  }

  /** Collect the rest of a scan as long as the keys carry the prefix. */
  method DrainBucket(it: Iterator, prefix: Bytes) returns (out: seq<(Bytes, Bytes)>)
    requires it.Ok() && it.Settled() && AllPrefixed(Until(it.Ahead(), it.end), prefix)
    modifies it
    ensures Stripped(out, Until(old(it.Ahead()), it.end), prefix)
    decreases |it.Ahead()|
  {
    var more := it.Valid();
    if !more {
      return [];
    }
    ghost var first := it.Ahead()[0];
    var pair := Take(it);
    ghost var tail := Until(it.Ahead(), it.end);
    PrefixedTail(first, tail, prefix);
    if |pair.0| < |prefix| || pair.0[..|prefix|] != prefix {
      assert false;
      return [];
    }
    var rest := DrainBucket(it, prefix);
    StrippedCons(pair, rest, first, tail, prefix);
    return [(pair.0[|prefix|..], pair.1)] + rest;
  }

  lemma PrefixedTail(e: Entry, es: seq<Entry>, prefix: Bytes)
    requires AllPrefixed([e] + es, prefix)
    ensures HasPrefix(e.key, prefix) && AllPrefixed(es, prefix)
  {
    assert ([e] + es)[0] == e;
    assert forall i | 0 <= i < |es| :: es[i] == ([e] + es)[i + 1];
  }

  lemma StrippedCons(pair: (Bytes, Bytes), rest: seq<(Bytes, Bytes)>, e: Entry, es: seq<Entry>, prefix: Bytes)
    requires pair == (e.key, e.value) && HasPrefix(e.key, prefix) && Stripped(rest, es, prefix)
    ensures Stripped([(pair.0[|prefix|..], pair.1)] + rest, [e] + es, prefix)
  {
    assert e.key == prefix + e.key[|prefix|..];
  }

  /** The pairs of the map whose keys carry the prefix and are in the local range, in order. */
  ghost predicate ListsBucket(out: seq<(Bytes, Bytes)>, m: map<Bytes, Bytes>, prefix: Bytes, start: Bytes, end: Option<Bytes>) {
    && (forall i, j | 0 <= i < j < |out| :: Rank(out[i].0) < Rank(out[j].0))
    && (forall k, v :: (k, v) in out <==> prefix + k in m && m[prefix + k] == v && InRange(k, start, end))
  }

  /** Scan a bucket: local start and end keys, a missing end meaning the end of the bucket. */
  method ScanBucket(tree: BTree, prefix: Bytes, start: Bytes, end: Option<Bytes>) returns (r: Listing)
    requires tree.Valid() && tree.InOrder()
    ensures r.Listed? <==> ValidName(start) && (end.Some? ==> ValidName(end.value))
    ensures r.Listed? ==> ListsBucket(r.pairs, tree.Contents(), prefix, start, end)
  {
    if |start| == 0 || SEPARATOR in start {
      return Refused(InvalidKey);
    }
    var endKey;
    if end.None? {
      endKey := FindPrefixEnd(prefix);
    } else {
      if |end.value| == 0 || SEPARATOR in end.value {
        return Refused(InvalidKey);
      }
      endKey := Some(prefix + end.value);
    }
    ghost var es := Flat(tree.tree);
    var it := Scan(tree, prefix + start, endKey);
    SelectPrefixed(es, prefix, start, end);
    var out := DrainBucket(it, prefix);
    StrippedLists(out, es, prefix, start, end);
    return Listed(out);
  }

  lemma SelectPrefixed(es: seq<Entry>, prefix: Bytes, start: Bytes, end: Option<Bytes>)
    ensures AllPrefixed(Select(es, prefix + start, TreeEnd(prefix, end)), prefix)
  {
    var sel := Select(es, prefix + start, TreeEnd(prefix, end));
    forall i | 0 <= i < |sel|
      ensures HasPrefix(sel[i].key, prefix)
    {
      SelectMembers(es, prefix + start, TreeEnd(prefix, end), sel[i]);
      LocalRange(prefix, sel[i].key, start, end);
    }
  }

  ghost function FullPairs(out: seq<(Bytes, Bytes)>, prefix: Bytes): (full: seq<(Bytes, Bytes)>)
    ensures |full| == |out| && forall i | 0 <= i < |out| :: full[i] == (prefix + out[i].0, out[i].1)
  {
    seq(|out|, i requires 0 <= i < |out| => (prefix + out[i].0, out[i].1))
  }

  lemma FullMember(out: seq<(Bytes, Bytes)>, prefix: Bytes, k: Bytes, v: Bytes)
    ensures (k, v) in out <==> (prefix + k, v) in FullPairs(out, prefix)
  {
    var full := FullPairs(out, prefix);
    if (k, v) in out {
      var i :| 0 <= i < |out| && out[i] == (k, v);
      assert full[i] == (prefix + k, v);
    }
    if (prefix + k, v) in full {
      var i :| 0 <= i < |full| && full[i] == (prefix + k, v);
      assert out[i].0 == (prefix + out[i].0)[|prefix|..] == (prefix + k)[|prefix|..] == k;
    }
  }

  lemma StrippedLists(out: seq<(Bytes, Bytes)>, es: seq<Entry>, prefix: Bytes, start: Bytes, end: Option<Bytes>)
    requires Sorted(es) && Stripped(out, Select(es, prefix + start, TreeEnd(prefix, end)), prefix)
    ensures ListsBucket(out, AsMap(es), prefix, start, end)
  {
    var full := FullPairs(out, prefix);
    CopiesLists(full, es, prefix + start, TreeEnd(prefix, end));
    forall i, j | 0 <= i < j < |out|
      ensures Rank(out[i].0) < Rank(out[j].0)
    {
      StrippedOrder(out, prefix, i, j);
    }
    forall k, v
      ensures (k, v) in out <==> prefix + k in AsMap(es) && AsMap(es)[prefix + k] == v && InRange(k, start, end)
    {
      StrippedMember(out, AsMap(es), prefix, start, end, k, v);
    }
  }

  lemma StrippedOrder(out: seq<(Bytes, Bytes)>, prefix: Bytes, i: nat, j: nat)
    requires i < |out| && j < |out| && Rank(FullPairs(out, prefix)[i].0) < Rank(FullPairs(out, prefix)[j].0)
    ensures Rank(out[i].0) < Rank(out[j].0)
  {
    RankPrefix(prefix, out[i].0, out[j].0);
  }

  lemma StrippedMember(out: seq<(Bytes, Bytes)>, m: map<Bytes, Bytes>, prefix: Bytes, start: Bytes, end: Option<Bytes>, k: Bytes, v: Bytes)
    requires Lists(FullPairs(out, prefix), m, prefix + start, TreeEnd(prefix, end))
    ensures (k, v) in out <==> prefix + k in m && m[prefix + k] == v && InRange(k, start, end)
  {
    FullMember(out, prefix, k, v);
    LocalRange(prefix, prefix + k, start, end);
    assert (prefix + k)[|prefix|..] == k;
  }

  /** Every stored key belongs to a bucket; none of them is nested below the given one. */
  ghost predicate NoNested(m: map<Bytes, Bytes>, path: seq<Bytes>) {
    forall k | k in m && HasPrefix(k, PathPrefix(path)) && |k| > |PathPrefix(path)| :: SEPARATOR !in k[|PathPrefix(path)|..]
  }

  /** From the least valid key on, a bucket without nested buckets lists exactly its own keys. */
  lemma WholeBucket(out: seq<(Bytes, Bytes)>, m: map<Bytes, Bytes>, path: seq<Bytes>)
    requires ListsBucket(out, m, PathPrefix(path), [1], None) && NoNested(m, path)
    ensures forall k, v :: (k, v) in out <==> ValidName(k) && FullKey(path, k) in m && m[FullKey(path, k)] == v
  {
    forall k, v
      ensures (k, v) in out <==> ValidName(k) && FullKey(path, k) in m && m[FullKey(path, k)] == v
    {
      var p := PathPrefix(path);
      assert (p + k)[|p|..] == k;
      AtLeastOne(k);
      if (k, v) in out {
        assert p + k in m && HasPrefix(p + k, p);
      }
    }
  }

  /** Scan a whole bucket, from the least valid key on: in a bucket without nested buckets, exactly its own keys in order. */
  method ScanWhole(tree: BTree, path: seq<Bytes>) returns (out: seq<(Bytes, Bytes)>)
    requires tree.Valid() && tree.InOrder() && NoNested(tree.Contents(), path)
    ensures forall k, v :: (k, v) in out <==> ValidName(k) && FullKey(path, k) in tree.Contents() && tree.Contents()[FullKey(path, k)] == v
    ensures forall i, j | 0 <= i < j < |out| :: Rank(out[i].0) < Rank(out[j].0)
  {
    var r := ScanBucket(tree, PathPrefix(path), [1], None);
    out := r.pairs;
    WholeBucket(out, tree.Contents(), path);
  }

  lemma AtLeastOne(k: Bytes)
    ensures Rank([1]) <= Rank(k) <==> k != [] && k[0] >= 1
  {
    assert [1][1..] == [];
    assert Rank([1]) == (2.0 + Rank([])) / 257.0;
  }
}
