/** Transactions: operations on an open database that take effect together or not at all. */
module Transactions {
  import opened Bytes
  import opened Options
  import opened Entries
  import opened NodePage
  import opened PageFile
  import opened TreePut
  import opened TreeDelete
  import opened TreeIO
  import opened Room
  import opened BTree
  import opened RangeScan
  import opened Db

  datatype Op = PutOp(key: Bytes, value: Bytes) | DeleteOp(key: Bytes)

  function Applied(pairs: map<Bytes, Bytes>, op: Op): map<Bytes, Bytes> {
    match op
    case PutOp(key, value) => pairs[key := value]
    case DeleteOp(key) => pairs - {key}
  }

  /** The pairs after the first n operations. */
  function AppliedAll(pairs: map<Bytes, Bytes>, ops: seq<Op>, n: nat): map<Bytes, Bytes>
    requires n <= |ops|
  {
    if n == 0 then pairs else Applied(AppliedAll(pairs, ops, n - 1), ops[n - 1])
  }

  /**
   * What an operation that succeeds makes of a shape.  None succeeds on a root branch without
   * entries; a delete leaves one when it takes the last key below a root branch.
   */
  ghost predicate OpStep(a: Shape, op: Op, b: Shape) {
    a.Whole? && |op.key| > 0 &&
    match op
    case PutOp(key, value) => b.Whole? && PairsOf(b) == PairsOf(a)[key := value] && (Ordered(a) ==> Ordered(b))
    case DeleteOp(key) =>
      if LastBelowBranch(a.t, key) then b == Gone
      else
        && b.Whole? && PairsOf(b) == PairsOf(a) - {key}
        && (Ordered(a) ==> (Ordered(b) <==> !EmptiesInnerLeaf(Leaves(a.t), key)))
  }

  /** Operation i makes shape i + 1 of shape i. */
  ghost predicate StepAt(trace: seq<Shape>, ops: seq<Op>, i: int)
    requires |trace| <= |ops| + 1 && 0 <= i < |trace| - 1
  {
    OpStep(trace[i], ops[i], trace[i + 1])
  }

  /** The shapes a run of operations goes through. */
  ghost predicate Traced(trace: seq<Shape>, ops: seq<Op>) {
    0 < |trace| <= |ops| + 1 && forall i {:trigger StepAt(trace, ops, i)} | 0 <= i < |trace| - 1 :: StepAt(trace, ops, i)
  }

  /** The operations all succeed and lead from one shape to the other. */
  ghost predicate Leads(trace: seq<Shape>, ops: seq<Op>, a: Shape, b: Shape) {
    Traced(trace, ops) && |trace| == |ops| + 1 && trace[0] == a && trace[|ops|] == b
  }

  ghost predicate Reaches(a: Shape, ops: seq<Op>, b: Shape) {
    exists trace: seq<Shape> :: Leads(trace, ops, a, b)
  }

  /** The operations turn one file into the other. */
  ghost predicate Transforms(file: Bytes, ops: seq<Op>, file': Bytes) {
    forall a: Shape {:trigger Becomes(a, ops, file')} | FileIs(file, a) :: Becomes(a, ops, file')
  }

  /** The file holds what the operations make of the shape. */
  ghost predicate Becomes(a: Shape, ops: seq<Op>, file: Bytes) {
    exists b: Shape :: FileIs(file, b) && Reaches(a, ops, b)
  }

  lemma TransformsBy(file: Bytes, ops: seq<Op>, file': Bytes, trace: seq<Shape>, a: Shape, b: Shape)
    requires FileIs(file, a) && FileIs(file', b) && Leads(trace, ops, a, b)
    ensures Transforms(file, ops, file')
  {
    assert Reaches(a, ops, b);
    forall a': Shape | FileIs(file, a')
      ensures Becomes(a', ops, file')
    {
      FileUnique(file, a, a');
    }
  }

  lemma OnlyPairGone(pairs: map<Bytes, Bytes>, key: Bytes)
    requires |pairs| == 1 && key in pairs
    ensures pairs - {key} == map[]
  {
    assert |pairs.Keys - {key}| == |pairs.Keys| - 1;
    assert (pairs - {key}).Keys == {};
  }

  lemma StepPairs(a: Shape, op: Op, b: Shape)
    requires OpStep(a, op, b)
    ensures PairsOf(b) == Applied(PairsOf(a), op)
  {
    if op.DeleteOp? && LastBelowBranch(a.t, op.key) {
      OnlyPairGone(PairsOf(a), op.key);
    }
  }

  lemma StepPairsAt(trace: seq<Shape>, ops: seq<Op>, i: nat)
    requires Traced(trace, ops) && i < |trace| - 1
    ensures PairsOf(trace[i + 1]) == Applied(PairsOf(trace[i]), ops[i])
  {
    assert StepAt(trace, ops, i);
    StepPairs(trace[i], ops[i], trace[i + 1]);
  }

  /** The pairs along a run are those of the map model. */
  lemma {:induction false} TracePairs(trace: seq<Shape>, ops: seq<Op>, n: nat)
    requires Traced(trace, ops) && n < |trace|
    ensures PairsOf(trace[n]) == AppliedAll(PairsOf(trace[0]), ops, n)
  {
    if n > 0 {
      TracePairs(trace, ops, n - 1);
      StepPairsAt(trace, ops, n - 1);
    }
  }

  /** Operation i does not delete the last pair of a leaf other than the first. */
  ghost predicate SparesAt(trace: seq<Shape>, ops: seq<Op>, i: int)
    requires |trace| <= |ops| + 1 && 0 <= i < |trace| - 1
  {
    trace[i].Whole? && ops[i].DeleteOp? ==> !EmptiesInnerLeaf(Leaves(trace[i].t), ops[i].key)
  }

  ghost predicate Spares(trace: seq<Shape>, ops: seq<Op>)
    requires |trace| <= |ops| + 1
  {
    forall i {:trigger SparesAt(trace, ops, i)} | 0 <= i < |trace| - 1 :: SparesAt(trace, ops, i)
  }

  lemma {:induction false} TraceOrder(trace: seq<Shape>, ops: seq<Op>, n: nat)
    requires Traced(trace, ops) && Spares(trace, ops) && n < |trace| && (trace[0].Gone? || Ordered(trace[0]))
    ensures trace[n].Gone? || Ordered(trace[n])
  {
    if n > 0 {
      TraceOrder(trace, ops, n - 1);
      assert StepAt(trace, ops, n - 1) && SparesAt(trace, ops, n - 1);
    }
  }

  // ---- running a transaction ----

  /** Some node on the way of the key has no room for what the operation makes of it. */
  ghost predicate Refuses(a: Shape, op: Op) {
    a.Whole? &&
    match op
    case PutOp(key, value) => RootJams(a.t, Entry(key, value, 0))
    case DeleteOp(key) => key in PairsOf(a) && Swells(a.t, key)
  }

  /** Why an operation fails on a shape. */
  ghost predicate Fails(a: Shape, op: Op, error: Error) {
    && (error == KeyRequired <==> |op.key| == 0)
    && (error == IndexPanic <==> a.Gone? && op.PutOp? && |op.key| > 0)
    && (error == NoEntries <==> a.Gone? && op.DeleteOp? && |op.key| > 0)
    && (error == OutOfPages ==> op.PutOp? && a.Whole? && RootNeeds(a.t, Entry(op.key, op.value, 0)) > 0)
    && (error == DoesNotFit ==> Refuses(a, op))
    && (error == DoesNotFit && op.PutOp? ==> !(SmallPairs(PairsOf(a)) && |op.key| + |op.value| <= PAIR_LIMIT))
    && error != PagerClosed
  }

  /** A failed put finds fewer free pages than the nodes that outgrow theirs take. */
  ghost predicate Starved(a: Shape, op: Op, free: nat) {
    a.Whole? && op.PutOp? && free < RootNeeds(a.t, Entry(op.key, op.value, 0))
  }

  /** One operation of a transaction.  A put that finds no page for the halves of a root leaf leaves the leaf as it was. */
  method Run(tree: BTree, op: Op, ghost a: Shape) returns (r: Result<()>, ghost b: Shape)
    requires At(tree, a)
    modifies tree, tree.pager
    ensures r.Ok? ==> At(tree, b) && OpStep(a, op, b) && !Refuses(a, op)
    ensures r.Err? ==> Fails(a, op, r.error) && LeftBy(tree.pager, r.error)
    ensures r == Err(OutOfPages) ==> Starved(a, op, old(tree.pager.meta.freeCount)) && (a.t.Leaf? ==> PagesHave(tree, a))
    ensures Within(a, tree.pager.limit)
  {
    InFile(tree, a);
    match op {
      case PutOp(key, value) => r, b := RunPut(tree, key, value, a);
      case DeleteOp(key) => r, b := RunDelete(tree, key, a);
    }
  }

  method RunPut(tree: BTree, key: Bytes, value: Bytes, ghost a: Shape) returns (r: Result<()>, ghost b: Shape)
    requires At(tree, a)
    modifies tree, tree.pager
    ensures r.Ok? ==> At(tree, b) && OpStep(a, PutOp(key, value), b) && !Refuses(a, PutOp(key, value))
    ensures r.Err? ==> Fails(a, PutOp(key, value), r.error) && LeftBy(tree.pager, r.error)
    ensures r == Err(OutOfPages) ==> Starved(a, PutOp(key, value), old(tree.pager.meta.freeCount)) && (a.t.Leaf? ==> PagesHave(tree, a))
  {
    r := tree.Put(key, value);
    b := Whole(tree.tree);
    if r.Err? {
      PutFails(a, key, value, r.error);
    }
  }

  lemma PutFails(a: Shape, key: Bytes, value: Bytes, error: Error)
    requires error in {KeyRequired, IndexPanic, OutOfPages, DoesNotFit} && (error == KeyRequired <==> |key| == 0)
    requires |key| > 0 ==> (error == IndexPanic <==> a.Gone?)
    requires error == OutOfPages ==> a.Whole? && RootNeeds(a.t, Entry(key, value, 0)) > 0
    requires error == DoesNotFit ==> a.Whole? && RootJams(a.t, Entry(key, value, 0))
    requires error == DoesNotFit ==> !(SmallPairs(PairsOf(a)) && |key| + |value| <= PAIR_LIMIT)
    ensures Fails(a, PutOp(key, value), error)
  {
  }

  method RunDelete(tree: BTree, key: Bytes, ghost a: Shape) returns (r: Result<()>, ghost b: Shape)
    requires At(tree, a)
    modifies tree, tree.pager
    ensures r.Ok? ==> At(tree, b) && OpStep(a, DeleteOp(key), b) && !Refuses(a, DeleteOp(key))
    ensures r.Err? ==> Fails(a, DeleteOp(key), r.error) && LeftBy(tree.pager, r.error)
  {
    r := tree.Delete(key);
    b := if a.Whole? && LastBelowBranch(a.t, key) then Gone else Whole(tree.tree);
  }

  /** The run stopped at its last shape, and why. */
  ghost predicate StoppedAt(trace: seq<Shape>, ops: seq<Op>, error: Error) {
    Traced(trace, ops) && |trace| <= |ops| && Fails(trace[|trace| - 1], ops[|trace| - 1], error)
  }

  /** What a run that stopped leaves on the pages. */
  ghost predicate LeavesPages(tree: BTree, trace: seq<Shape>, error: Error)
    requires |trace| > 0
    reads tree, tree.pager
  {
    var a := trace[|trace| - 1];
    LeftBy(tree.pager, error) && Within(a, tree.pager.limit) && (error == OutOfPages && a.Whole? && a.t.Leaf? ==> PagesHave(tree, a))
  }

  lemma TraceMore(trace: seq<Shape>, ops: seq<Op>, b: Shape)
    requires Traced(trace, ops) && |trace| <= |ops| && OpStep(trace[|trace| - 1], ops[|trace| - 1], b)
    ensures Traced(trace + [b], ops)
  {
    forall i | 0 <= i < |trace|
      ensures StepAt(trace + [b], ops, i)
    {
      assert i < |trace| - 1 ==> StepAt(trace, ops, i);
    }
  }

  /** The first i operations have made the last shape of the first. */
  ghost predicate Ran(trace: seq<Shape>, ops: seq<Op>, i: nat, a: Shape, b: Shape) {
    Traced(trace, ops) && |trace| == i + 1 && trace[0] == a && trace[i] == b
  }

  /** Operation i, after those before it. */
  method RunNext(tree: BTree, ops: seq<Op>, i: nat, ghost trace: seq<Shape>, ghost a: Shape, ghost b: Shape)
    returns (r: Result<()>, ghost trace': seq<Shape>, ghost b': Shape)
    requires i < |ops| && Ran(trace, ops, i, a, b) && At(tree, b)
    modifies tree, tree.pager
    ensures r.Ok? ==> Ran(trace', ops, i + 1, a, b') && At(tree, b')
    ensures r.Err? ==> StoppedAt(trace', ops, r.error) && trace'[0] == a && LeavesPages(tree, trace', r.error)
  {
    r, b' := Run(tree, ops[i], b);
    trace' := trace;
    if r.Ok? {
      TraceMore(trace, ops, b');
      trace' := trace + [b'];
    }
  }

  /** The operations in turn, up to the first that fails. */
  method RunAll(tree: BTree, ops: seq<Op>, ghost a: Shape) returns (r: Result<()>, ghost trace: seq<Shape>)
    requires At(tree, a)
    modifies tree, tree.pager
    ensures r.Ok? ==> |trace| == |ops| + 1 && Leads(trace, ops, a, trace[|ops|]) && At(tree, trace[|ops|])
    ensures r.Err? ==> StoppedAt(trace, ops, r.error) && trace[0] == a && LeavesPages(tree, trace, r.error)
  {
    ghost var b := a;
    trace := [a];
    var i := 0;
    while i < |ops|
      invariant 0 <= i <= |ops| && Ran(trace, ops, i, a, b) && At(tree, b)
    {
      r, trace, b := RunNext(tree, ops, i, trace, a, b);
      if r.Err? {
        return;
      }
      i := i + 1;
    }
    r := Ok(());
  }

  /** The file under the tree object is a database that can be opened again. */
  lemma Saved(tree: BTree, a: Shape)
    requires PagesHave(tree, a)
    ensures FileIs(Concat(tree.pager.data), a)
    ensures 0 < tree.pager.limit < U64_LIMIT && |Concat(tree.pager.data)| <= tree.pager.limit * PAGE_SIZE
  {
    FileOf(tree, a);
    ConcatPages(tree.pager.data);
  }

  lemma Flushed(tree: BTree, file: Bytes, ops: seq<Op>, trace: seq<Shape>, a: Shape)
    requires |trace| == |ops| + 1 && Leads(trace, ops, a, trace[|ops|]) && At(tree, trace[|ops|]) && FileIs(file, a)
    ensures Transforms(file, ops, Concat(tree.pager.data)) && PairsOf(trace[|ops|]) == AppliedAll(PairsOf(a), ops, |ops|)
  {
    TracePairs(trace, ops, |ops|);
    FileOf(tree, trace[|ops|]);
    TransformsBy(file, ops, Concat(tree.pager.data), trace, a, trace[|ops|]);
  }

  /** The shape of a file that has one. */
  ghost function ShapeOf(file: Bytes): Shape {
    if exists a: Shape :: FileIs(file, a) then var a: Shape :| FileIs(file, a); a else Gone
  }

  lemma OneShape(file: Bytes)
    ensures forall a: Shape | FileIs(file, a) :: a == ShapeOf(file)
  {
    forall a: Shape | FileIs(file, a)
      ensures a == ShapeOf(file)
    {
      FileUnique(file, a, ShapeOf(file));
    }
  }

  /** The file that a put without a page for the halves of a root leaf leaves holds what the operations before it made. */
  ghost predicate LeftHalf(trace: seq<Shape>, file: Bytes, limit: nat) {
    |trace| > 0 && var a := trace[|trace| - 1]; Within(a, limit) && (a.Whole? && a.t.Leaf? ==> FileIs(file, a))
  }

  lemma HalfSaved(tree: BTree, trace: seq<Shape>)
    requires |trace| > 0 && LeavesPages(tree, trace, OutOfPages)
    ensures LeftHalf(trace, Concat(tree.pager.data), tree.pager.limit)
  {
    var a := trace[|trace| - 1];
    if a.Whole? && a.t.Leaf? {
      FileOf(tree, a);
    }
  }

  /**
   * How Update returns: nil, the error of fn after a rollback, the error of a rollback, the error of a
   * flush, or not at all.
   */
  datatype Outcome = Committed | RolledBack | RollbackFailed | FlushFailed | Panicked

  class DB {
    var tree: BTree
    ghost var shape: Shape

    ghost predicate Valid()
      reads this, tree, tree.pager
    {
      At(tree, shape)
    }

    /** A rollback has failed: the pager is closed, and the file is as the transaction left it. */
    ghost predicate Stuck()
      reads this, tree, tree.pager
    {
      tree.pager.closed && !tree.pager.mapped && tree.pager.Sound()
    }

    ghost function Contents(): map<Bytes, Bytes>
      reads this
    {
      PairsOf(shape)
    }

    function File(): Bytes
      reads this, tree, tree.pager
    {
      Concat(tree.pager.data)
    }

    constructor (tree: BTree, ghost shape: Shape)
      requires At(tree, shape)
      ensures Valid() && this.tree == tree && this.shape == shape
    {
      this.tree, this.shape := tree, shape;
    }

    /**
     * Close the pager, put the logged file back in place and open it.  Without a mapping the pager
     * does not close cleanly, and that is the end of it; a pager that is closed already is no obstacle.
     */
    method Rollback(file: Bytes, ghost a: Shape) returns (ok: bool)
      requires tree.pager.Sound() && |file| <= tree.pager.limit * PAGE_SIZE
      modifies this`tree, tree.pager
      ensures ok ==> fresh(tree) && fresh(tree.pager) && tree.pager.limit == old(tree.pager.limit)
      ensures ok ==> old(tree.pager.closed || tree.pager.mapped)
      ensures ok && FileIs(file, a) ==> At(tree, a)
      ensures FileIs(file, a) && old(tree.pager.closed || tree.pager.mapped) ==> ok
      ensures !ok ==> tree == old(tree) && (old(!tree.pager.mapped) ==> Stuck() && File() == old(File()))
    {
      var limit := tree.pager.limit;
      var closed := tree.pager.Close();
      if !closed {
        return false;
      }
      var again := OpenAgain(file, limit, a);
      if again.None? {
        return false;
      }
      tree := again.value;
      return true;
    }

    /** Run fn, and flush the pages when it succeeds. */
    method Attempt(ops: seq<Op>) returns (r: Result<()>, ghost trace: seq<Shape>)
      requires Valid()
      modifies this`shape, tree, tree.pager
      ensures r.Ok? ==> Valid() && Leads(trace, ops, old(shape), shape) && Contents() == AppliedAll(old(Contents()), ops, |ops|)
      ensures r.Ok? ==> Transforms(old(File()), ops, File())
      ensures r.Err? ==> shape == old(shape) && StoppedAt(trace, ops, r.error) && trace[0] == shape && LeftBy(tree.pager, r.error)
      ensures r == Err(OutOfPages) ==> LeftHalf(trace, File(), tree.pager.limit)
    {
      ghost var file := File();
      Saved(tree, shape);
      r, trace := RunAll(tree, ops, shape);
      if r.Ok? {
        Flushed(tree, file, ops, trace, shape);
        shape := trace[|ops|];
      } else if r.error == OutOfPages {
        HalfSaved(tree, trace);
      }
    }

    /** A transaction on an open database. */
    method UpdateOpen(ops: seq<Op>) returns (outcome: Outcome, error: Option<Error>, ghost trace: seq<Shape>)
      requires Valid()
      modifies this, tree, tree.pager
      ensures outcome == Committed || outcome == RolledBack ==> Valid()
      ensures tree == old(tree) || (fresh(tree) && fresh(tree.pager) && tree.pager.limit == old(tree.pager.limit))
      ensures outcome == Committed ==> Leads(trace, ops, old(shape), shape) && Contents() == AppliedAll(old(Contents()), ops, |ops|)
      ensures outcome == Committed ==> Transforms(old(File()), ops, File())
      ensures outcome == RolledBack ==> shape == old(shape)
      ensures outcome == RollbackFailed ==> Stuck() && tree == old(tree) && LeftHalf(trace, File(), tree.pager.limit)
      ensures outcome == Committed <==> error.None?
      ensures error.Some? ==> StoppedAt(trace, ops, error.value) && trace[0] == old(shape)
      ensures outcome == Panicked <==> error == Some(IndexPanic)
      ensures outcome == RollbackFailed <==> error == Some(OutOfPages)
      ensures outcome != FlushFailed
    {
      var file := File();
      Saved(tree, shape);
      var r;
      r, trace := Attempt(ops);
      if r.Ok? {
        return Committed, None, trace;
      }
      if r.error == IndexPanic {
        return Panicked, Some(IndexPanic), trace;
      }
      var ok := Rollback(file, shape);
      return if ok then RolledBack else RollbackFailed, Some(r.error), trace;
    }

    /**
     * A transaction on a database whose pager is closed.  The log it writes is a copy of the file as it
     * is; its first operation fails, and that log is played back.
     */
    method UpdateClosed(ops: seq<Op>) returns (outcome: Outcome, error: Error)
      requires Stuck()
      modifies this, tree.pager
      ensures ops == [] ==> outcome == FlushFailed
      ensures ops != [] ==> outcome == RolledBack || outcome == RollbackFailed
      ensures ops != [] ==> forall a: Shape | FileIs(old(File()), a) :: outcome == RolledBack && Valid() && shape == a
      ensures outcome == RolledBack ==> fresh(tree) && fresh(tree.pager) && tree.pager.limit == old(tree.pager.limit)
      ensures outcome != RolledBack ==> Stuck() && tree == old(tree) && File() == old(File())
      ensures error == if ops != [] && |ops[0].key| == 0 then KeyRequired else PagerClosed
    {
      error := if ops != [] && |ops[0].key| == 0 then KeyRequired else PagerClosed;
      if ops == [] {
        return FlushFailed, error;
      }
      var file := File();
      ConcatPages(tree.pager.data);
      ghost var a := ShapeOf(file);
      OneShape(file);
      var ok := Rollback(file, a);
      if ok {
        shape := a;
      }
      outcome := if ok then RolledBack else RollbackFailed;
    }

    /**
     * Run the operations as one transaction: all of them, or, when one fails, none; then the saved file
     * is reopened.  One that puts into a root without entries panics instead, and what it leaves on disk
     * is for recovery to undo.  One that finds no page cannot be rolled back: the pager has lost its
     * mapping, cannot be closed cleanly, and the database is stuck with the file half changed.  The next
     * transaction then takes that file for its own, and fails, and the database goes on with it.
     */
    method Update(ops: seq<Op>) returns (outcome: Outcome, error: Option<Error>, ghost trace: seq<Shape>)
      requires Valid() || Stuck()
      modifies this, tree, tree.pager
      ensures old(Valid()) && outcome in {Committed, RolledBack} ==> Valid()
      ensures tree == old(tree) || (fresh(tree) && fresh(tree.pager) && tree.pager.limit == old(tree.pager.limit))
      ensures outcome == Committed ==> Leads(trace, ops, old(shape), shape) && Contents() == AppliedAll(old(Contents()), ops, |ops|)
      ensures outcome == Committed ==> old(Valid()) && Transforms(old(File()), ops, File())
      ensures old(Valid()) && outcome == RolledBack ==> shape == old(shape)
      ensures outcome in {RollbackFailed, FlushFailed} ==> Stuck()
      ensures outcome == Committed <==> error.None?
      ensures old(Valid()) && error.Some? ==> StoppedAt(trace, ops, error.value) && trace[0] == old(shape)
      ensures outcome == Panicked <==> error == Some(IndexPanic)
      ensures old(Valid()) ==> (outcome == RollbackFailed <==> error == Some(OutOfPages))
      ensures old(Valid()) && outcome == RollbackFailed ==> LeftHalf(trace, File(), tree.pager.limit)
      ensures outcome == FlushFailed <==> old(Stuck()) && ops == []
      ensures old(Stuck()) && ops != [] ==> forall a: Shape | FileIs(old(File()), a) :: outcome == RolledBack && Valid() && shape == a
    {
      if tree.pager.closed {
        var failed;
        outcome, failed := UpdateClosed(ops);
        return outcome, Some(failed), [];
      }
      outcome, error, trace := UpdateOpen(ops);
    }

    /** List the pairs of a key range in order. */
    method Scan(start: Bytes, end: Option<Bytes>) returns (out: seq<(Bytes, Bytes)>)
      requires Valid() && Ordered(shape)
      ensures Lists(out, Contents(), start, end)
    {
      out := ScanAll(tree, start, end);
    }
  }
}
