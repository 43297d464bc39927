/** Reading nodes from pages and routing keys through them. */
module TreeIO {
  import opened Bytes
  import opened Options
  import opened Entries
  import opened NodePage
  import opened Pager
  import opened Tree
  import opened TreePut

  /** IndexPanic is the runtime panic of indexing a branch without entries. */
  datatype Error = KeyRequired | NoEntries | IndexPanic | OutOfPages | DoesNotFit | PagerClosed

  datatype Result<+T> = Ok(value: T) | Err(error: Error)

  /** What an operation that failed leaves: whole pages, on a mapped file unless the file did not grow. */
  ghost predicate LeftBy(p: Pager, error: Error)
    reads p
  {
    p.Sound() && !p.closed && (p.mapped <==> error != OutOfPages)
  }

  /** Nodes of a valid pager sit on pages with ids that fit 64 bits. */
  lemma PagerPaged(p: Pager)
    requires p.Valid()
    ensures Paged(p.nodes)
  {
  }

  /** The child a key is routed to: the last separator not above it, or the first child; -1 when there is none. */
  method ChildIndexFor(es: seq<Entry>, key: Bytes) returns (i: int)
    requires Sorted(es)
    ensures es == [] ==> i == -1
    ensures es != [] ==> 0 <= i && Routed(es, key, i)
  {
    var idx := LowerBound(es, key);
    if idx >= |es| {
      assert idx > 0 ==> es[..idx][idx - 1] == es[idx - 1];
      return |es| - 1;
    }
    var c := Compare(key, es[idx].key);
    if c < 0 && idx > 0 {
      assert es[..idx][idx - 1] == es[idx - 1];
      return idx - 1;
    }
    return idx;
  }

  method FirstKeyOf(n: Node) returns (k: Bytes)
    ensures k == if n.entries == [] then [] else n.entries[0].key
  {
    if |n.entries| == 0 {
      return [];
    }
    return n.entries[0].key;
  }

  // ---- lookup ----

  /** Follow the separators down to a leaf and search it. */
  method GetAt(pager: Pager, id: nat, key: Bytes, ghost t: Tree) returns (r: Result<Option<Bytes>>)
    requires pager.Valid() && RootHeld(t, pager.nodes) && t.id == id && Sorted(Flat(t))
    ensures r == Ok(Find(Flat(t), key))
    decreases t
  {
    var node := pager.ReadNode(id);
    if node.value.leaf {
      AsMapKeys(t.entries, key);
      var at := Search(node.value.entries, key);
      if at.None? {
        return Ok(None);
      }
      AsMapValue(t.entries, at.value);
      return Ok(Some(node.value.entries[at.value].value));
    }
    PagerPaged(pager);
    BranchStorable(t.id, t.kids, pager.nodes);
    var i: nat := ChildIndexFor(node.value.entries, key);
    Lookup(t, pager.nodes, key, i);
    r := GetAt(pager, node.value.entries[i].child, key, t.kids[i]);
  }

  /** A lookup in a branch is a lookup in the child the key is routed to. */
  lemma Lookup(t: Tree, s: Store, key: Bytes, i: nat)
    requires t.Branch? && Held(t, s) && Sorted(Flat(t)) && Routed(Seps(t.kids), key, i)
    ensures Held(t.kids[i], s) && Sorted(Flat(t.kids[i]))
    ensures Find(Flat(t), key) == Find(Flat(t.kids[i]), key)
  {
    HeldAt(t.kids, s, i);
    RouteSplits(t.kids, s, key, i);
    FlatSplit(t.kids, i);
    LookupWithin(FlatAll(t.kids[..i]), Flat(t.kids[i]), FlatAll(t.kids[i + 1..]), key);
  }

  lemma LookupWithin(a: seq<Entry>, f: seq<Entry>, b: seq<Entry>, key: Bytes)
    requires AllBelow(a, key) && AllAbove(b, key) && Sorted(a + f + b) && Sorted(f)
    ensures Find(a + f + b, key) == Find(f, key)
  {
    var all := a + f + b;
    assert forall k | 0 <= k < |a| :: all[k] == a[k];
    assert forall k | 0 <= k < |f| :: all[|a| + k] == f[k];
    assert forall k | 0 <= k < |b| :: all[|a| + |f| + k] == b[k];
    AsMapKeys(f, key);
    AsMapKeys(all, key);
    if i :| 0 <= i < |f| && f[i].key == key {
      AsMapValue(f, i);
      AsMapValue(all, |a| + i);
    }
  }
}
