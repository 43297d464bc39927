/** A transaction that outgrows its file: it returns an error, and half of it stays. */
module FullDisk {
  import opened Bytes
  import opened Entries
  import opened NodePage
  import opened Tree
  import opened TreePut
  import opened TreeIO
  import opened BTree
  import opened Db
  import opened Transactions

  /** More pairs than a page has room for. */
  const COUNT: nat := 40

  function Filling(): seq<Op> {
    seq(COUNT, i requires 0 <= i < COUNT => PutOp([i], seq(100, _ => 0)))
  }

  /** The pairs of the first n of these operations. */
  ghost predicate Filled(pairs: map<Bytes, Bytes>, n: nat) {
    && |pairs| == n
    && forall k | k in pairs :: |k| == 1 && k[0] < n && |pairs[k]| == 100
  }

  lemma FilledMore(pairs: map<Bytes, Bytes>, n: nat, op: Op)
    requires Filled(pairs, n) && n < COUNT && op == Filling()[n]
    ensures Filled(Applied(pairs, op), n + 1)
  {
    assert op.key !in pairs;
    assert Applied(pairs, op).Keys == pairs.Keys + {op.key};
  }

  lemma {:induction false} FilledBy(n: nat)
    requires n <= COUNT
    ensures Filled(AppliedAll(map[], Filling(), n), n)
  {
    if n > 0 {
      FilledBy(n - 1);
      FilledMore(AppliedAll(map[], Filling(), n - 1), n - 1, Filling()[n - 1]);
    }
  }

  lemma {:induction false} HeapAtLeast(es: seq<Entry>, n: nat)
    requires n <= |es| && forall i | 0 <= i < |es| :: |es[i].value| == 100
    ensures Heap(es, n) >= 100 * n
  {
    if n > 0 {
      HeapAtLeast(es, n - 1);
    }
  }

  /** They do not fit a leaf. */
  lemma TooMany(es: seq<Entry>)
    requires Sorted(es) && Filled(AsMap(es), COUNT)
    ensures !Fits(es)
  {
    AsMapSize(es);
    forall i | 0 <= i < |es|
      ensures |es[i].value| == 100
    {
      AsMapValue(es, i);
    }
    HeapAtLeast(es, |es|);
  }

  /** A branch takes a page besides that of its first child. */
  lemma TwoPages(t: Tree, s: Store)
    requires t.Branch? && Held(t, s)
    ensures t.kids != [] && t.id in Ids(t) && t.kids[0].id in Ids(t) && t.kids[0].id != t.id
  {
    assert t.kids[0].id in Ids(t.kids[0]) && t.kids[0].id in IdsAll(t.kids);
  }

  /** On page 1 alone there is only a leaf. */
  lemma OnlyLeaf(t: Tree, s: Store)
    requires RootHeld(t, s) && forall x | x in Ids(t) :: x == 1
    ensures t.Leaf? && (t.entries != [] ==> Fits(t.entries))
  {
    if t.Branch? {
      TwoPages(t, s);
    }
  }

  /** So the tree never holds all of the pairs. */
  lemma NeverAll(b: BTree)
    requires b.Valid() && b.pager.limit == 2
    ensures !Filled(b.Contents(), COUNT)
  {
    b.PagesOwned();
    OnlyLeaf(b.tree, b.pager.nodes);
    if Filled(b.Contents(), COUNT) {
      TooMany(b.tree.entries);
    }
  }

  /** Along these operations there is always a tree, of small pairs. */
  lemma {:induction false} FillingTrace(trace: seq<Shape>, n: nat)
    requires Traced(trace, Filling()) && n < |trace| && trace[0].Whole? && PairsOf(trace[0]) == map[]
    ensures trace[n].Whole? && Filled(PairsOf(trace[n]), n) && PairsOf(trace[n]) == AppliedAll(map[], Filling(), n)
  {
    TracePairs(trace, Filling(), n);
    FilledBy(n);
    if n > 0 {
      assert StepAt(trace, Filling(), n - 1);
    }
  }

  /** They fail for want of a page only, and not the first of them. */
  lemma FillingFails(trace: seq<Shape>, error: Error)
    requires StoppedAt(trace, Filling(), error) && trace[0].Whole? && trace[0].t.Leaf? && PairsOf(trace[0]) == map[]
    ensures error == OutOfPages && |trace| > 1
  {
    FillingTrace(trace, |trace| - 1);
    assert SmallPairs(PairsOf(trace[|trace| - 1]));
    if |trace| == 1 {
      FirstFits(trace[0].t.entries, Filling()[0]);
    }
  }

  lemma EntriesCount(es: seq<Entry>)
    ensures es != [] ==> AsMap(es) != map[]
  {
    if es != [] {
      assert es[0].key in AsMap(es);
    }
  }

  lemma FirstFits(es: seq<Entry>, op: Op)
    requires AsMap(es) == map[] && op == Filling()[0]
    ensures Fits(Insert(es, Entry(op.key, op.value, 0)))
  {
    var e := Entry(op.key, op.value, 0);
    EntriesCount(es);
    assert Insert(es, e) == [e];
    assert Heap([e], 1) == 101;
  }

  lemma HalfIsLeaf(trace: seq<Shape>, file: Bytes)
    requires LeftHalf(trace, file, 2) && trace[|trace| - 1].Whole?
    ensures FileIs(file, trace[|trace| - 1])
  {
    var t := trace[|trace| - 1].t;
    var s: Store :| RootHeld(t, s) && forall x | x in Ids(t) :: 0 < x < 2;
    OnlyLeaf(t, s);
  }

  lemma EmptyLeaf(a: Shape)
    requires a.Whole? && Within(a, 2)
    ensures a.t.Leaf?
  {
    var s: Store :| RootHeld(a.t, s) && forall x | x in Ids(a.t) :: 0 < x < 2;
    OnlyLeaf(a.t, s);
  }

  /** The transaction does not commit. */
  lemma NotCommitted(db: DB)
    requires db.Valid() && db.tree.pager.limit == 2
    ensures db.Contents() != AppliedAll(map[], Filling(), COUNT)
  {
    FilledBy(COUNT);
    if db.shape.Whole? {
      NeverAll(db.tree);
    }
  }

  /** On an empty database that cannot grow the transaction runs out of pages, and its rollback fails. */
  method Overfill(db: DB) returns (outcome: Outcome, ghost trace: seq<Shape>)
    requires db.Valid() && db.tree.pager.limit == 2 && db.shape.Whole? && db.Contents() == map[]
    modifies db, db.tree, db.tree.pager
    ensures outcome == RollbackFailed && db.Stuck() && (db.tree == old(db.tree) || (fresh(db.tree) && fresh(db.tree.pager)))
    ensures Traced(trace, Filling()) && 1 < |trace| <= COUNT && trace[0].Whole? && PairsOf(trace[0]) == map[]
    ensures FileIs(db.File(), trace[|trace| - 1])
  {
    InFile(db.tree, db.shape);
    EmptyLeaf(db.shape);
    var error;
    outcome, error, trace := db.Update(Filling());
    if error.None? {
      NotCommitted(db);
      return;
    }
    FillingFails(trace, error.value);
    FillingTrace(trace, |trace| - 1);
    HalfIsLeaf(trace, db.File());
  }

  /**
   * The promise that a transaction takes effect as a whole or not at all fails, and nothing has to crash
   * for it: on an empty database that cannot grow, put more than a page holds, and then run any other
   * transaction.  Both return an error; the open database holds some of the pairs of the first, but not all.
   */
  method HalfTransaction(db: DB, ops: seq<Op>) returns (first: Outcome, second: Outcome, ghost n: nat)
    requires db.Valid() && db.tree.pager.limit == 2 && db.shape.Whole? && db.Contents() == map[] && ops != []
    modifies db, db.tree, db.tree.pager
    ensures first == RollbackFailed && second == RolledBack
    ensures db.Valid() && 0 < n < |Filling()| && db.Contents() == AppliedAll(map[], Filling(), n)
  {
    ghost var trace;
    first, trace := Overfill(db);
    n := |trace| - 1;
    FillingTrace(trace, n);
    ghost var half := trace[n];
    assert FileIs(db.File(), half);
    var error;
    ghost var none;
    second, error, none := db.Update(ops);
  }
}
