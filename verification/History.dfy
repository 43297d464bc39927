/** Many transactions on one database: what it holds after them, and when a scan lists it. */
module History {
  import opened Bytes
  import opened Options
  import opened TreeIO
  import opened Db
  import opened Transactions
  import opened RangeScan

  /** The shapes between the transactions, and those each transaction went through. */
  datatype Story = Story(shapes: seq<Shape>, traces: seq<seq<Shape>>)

  ghost predicate TxnStep(a: Shape, ops: seq<Op>, outcome: Outcome, trace: seq<Shape>, b: Shape) {
    match outcome
    case Committed => Leads(trace, ops, a, b)
    case RolledBack => b == a
    case Panicked => StoppedAt(trace, ops, IndexPanic) && trace[0] == a
    case RollbackFailed => StoppedAt(trace, ops, OutOfPages) && trace[0] == a
    case FlushFailed => false
  }

  /** The database can go on: the transaction took effect, or was undone. */
  predicate GoesOn(outcome: Outcome) {
    outcome == Committed || outcome == RolledBack
  }

  predicate AllGoOn(outcomes: seq<Outcome>) {
    forall i | 0 <= i < |outcomes| :: GoesOn(outcomes[i])
  }

  ghost predicate TxnAt(h: Story, txns: seq<seq<Op>>, outcomes: seq<Outcome>, i: int)
    requires |h.shapes| == |outcomes| + 1 && |h.traces| == |outcomes| <= |txns| && 0 <= i < |outcomes|
  {
    TxnStep(h.shapes[i], txns[i], outcomes[i], h.traces[i], h.shapes[i + 1])
  }

  ghost predicate Played(h: Story, txns: seq<seq<Op>>, outcomes: seq<Outcome>) {
    && |h.shapes| == |outcomes| + 1 && |h.traces| == |outcomes| <= |txns|
    && forall i {:trigger TxnAt(h, txns, outcomes, i)} | 0 <= i < |outcomes| :: TxnAt(h, txns, outcomes, i)
  }

  /** The pairs after the first n transactions: those that returned nil count, the others do not. */
  function Folded(pairs: map<Bytes, Bytes>, txns: seq<seq<Op>>, outcomes: seq<Outcome>, n: nat): map<Bytes, Bytes>
    requires n <= |outcomes| <= |txns|
  {
    if n == 0 then pairs
    else
      var before := Folded(pairs, txns, outcomes, n - 1);
      if outcomes[n - 1] == Committed then AppliedAll(before, txns[n - 1], |txns[n - 1]|) else before
  }

  lemma {:induction false} PlayedPairs(h: Story, txns: seq<seq<Op>>, outcomes: seq<Outcome>, n: nat)
    requires Played(h, txns, outcomes) && n <= |outcomes| && AllGoOn(outcomes[..n])
    ensures PairsOf(h.shapes[n]) == Folded(PairsOf(h.shapes[0]), txns, outcomes, n)
  {
    if n > 0 {
      assert GoesOn(outcomes[..n][n - 1]) && outcomes[..n - 1] == outcomes[..n][..n - 1];
      PlayedPairs(h, txns, outcomes, n - 1);
      assert TxnAt(h, txns, outcomes, n - 1);
      if outcomes[n - 1] == Committed {
        TracePairs(h.traces[n - 1], txns[n - 1], |txns[n - 1]|);
      }
    }
  }

  /** No delete of a committed transaction takes the last pair of a leaf other than the first. */
  ghost predicate TxnSpares(h: Story, txns: seq<seq<Op>>, outcomes: seq<Outcome>, i: int)
    requires Played(h, txns, outcomes) && 0 <= i < |outcomes|
  {
    assert TxnAt(h, txns, outcomes, i);
    outcomes[i] == Committed ==> Spares(h.traces[i], txns[i])
  }

  ghost predicate AllSpare(h: Story, txns: seq<seq<Op>>, outcomes: seq<Outcome>)
    requires Played(h, txns, outcomes)
  {
    forall i {:trigger TxnSpares(h, txns, outcomes, i)} | 0 <= i < |outcomes| :: TxnSpares(h, txns, outcomes, i)
  }

  lemma {:induction false} PlayedOrder(h: Story, txns: seq<seq<Op>>, outcomes: seq<Outcome>, n: nat)
    requires Played(h, txns, outcomes) && AllSpare(h, txns, outcomes) && n <= |outcomes| && AllGoOn(outcomes[..n])
    requires h.shapes[0].Gone? || Ordered(h.shapes[0])
    ensures h.shapes[n].Gone? || Ordered(h.shapes[n])
  {
    if n > 0 {
      assert GoesOn(outcomes[..n][n - 1]) && outcomes[..n - 1] == outcomes[..n][..n - 1];
      PlayedOrder(h, txns, outcomes, n - 1);
      assert TxnAt(h, txns, outcomes, n - 1) && TxnSpares(h, txns, outcomes, n - 1);
      if outcomes[n - 1] == Committed {
        TraceOrder(h.traces[n - 1], txns[n - 1], |txns[n - 1]|);
      }
    }
  }

  lemma PlayedMore(h: Story, txns: seq<seq<Op>>, outcomes: seq<Outcome>, outcome: Outcome, trace: seq<Shape>, b: Shape, outcomes': seq<Outcome>)
    returns (h': Story)
    requires Played(h, txns, outcomes) && |outcomes| < |txns| && TxnStep(h.shapes[|outcomes|], txns[|outcomes|], outcome, trace, b)
    requires AllGoOn(outcomes) && outcomes' == outcomes + [outcome]
    ensures Played(h', txns, outcomes') && h'.shapes[0] == h.shapes[0]
    ensures h'.shapes[|outcomes'|] == b && h'.traces[|outcomes'| - 1] == trace
    ensures AllGoOn(outcomes'[..|outcomes'| - 1]) && outcomes'[|outcomes'| - 1] == outcome && (AllGoOn(outcomes') <==> GoesOn(outcome))
  {
    h' := Story(h.shapes + [b], h.traces + [trace]);
    forall i | 0 <= i < |outcomes'|
      ensures TxnAt(h', txns, outcomes', i)
    {
      assert i < |outcomes| ==> TxnAt(h, txns, outcomes, i);
    }
    assert outcomes'[..|outcomes'| - 1] == outcomes;
  }

  /** Run transactions one after the other, up to one that panics or finds no page and cannot be rolled back. */
  method Play(db: DB, txns: seq<seq<Op>>) returns (outcomes: seq<Outcome>, ghost h: Story)
    requires db.Valid()
    modifies db, db.tree, db.tree.pager
    ensures Played(h, txns, outcomes) && h.shapes[0] == old(db.shape)
    ensures |outcomes| > 0 ==> AllGoOn(outcomes[..|outcomes| - 1])
    ensures |outcomes| > 0 && outcomes[|outcomes| - 1] == RollbackFailed ==> db.Stuck() && LeftHalf(h.traces[|outcomes| - 1], db.File(), db.tree.pager.limit)
    ensures AllGoOn(outcomes) ==> |outcomes| == |txns| && db.Valid() && db.shape == h.shapes[|txns|]
    ensures AllGoOn(outcomes) ==> db.Contents() == Folded(old(db.Contents()), txns, outcomes, |txns|)
  {
    h, outcomes := Story([db.shape], []), [];
    while |outcomes| < |txns|
      invariant Played(h, txns, outcomes) && AllGoOn(outcomes) && h.shapes[0] == old(db.shape)
      invariant db.Valid() && db.shape == h.shapes[|outcomes|]
      invariant db.tree == old(db.tree) || (fresh(db.tree) && fresh(db.tree.pager))
      decreases |txns| - |outcomes|
    {
      var outcome;
      outcome, outcomes, h := PlayNext(db, txns, outcomes, h);
      if !GoesOn(outcome) {
        return;
      }
    }
    assert outcomes[..|txns|] == outcomes;
    PlayedPairs(h, txns, outcomes, |txns|);
  }

  /** Run the next transaction. */
  method PlayNext(db: DB, txns: seq<seq<Op>>, before: seq<Outcome>, ghost h: Story)
    returns (outcome: Outcome, outcomes: seq<Outcome>, ghost h': Story)
    requires db.Valid() && Played(h, txns, before) && |before| < |txns| && AllGoOn(before) && db.shape == h.shapes[|before|]
    modifies db, db.tree, db.tree.pager
    ensures outcomes == before + [outcome] && Played(h', txns, outcomes) && h'.shapes[0] == h.shapes[0]
    ensures db.tree == old(db.tree) || (fresh(db.tree) && fresh(db.tree.pager))
    ensures AllGoOn(outcomes[..|outcomes| - 1]) && outcomes[|outcomes| - 1] == outcome && (AllGoOn(outcomes) <==> GoesOn(outcome))
    ensures GoesOn(outcome) ==> db.Valid() && db.shape == h'.shapes[|outcomes|]
    ensures outcome == RollbackFailed ==> db.Stuck() && LeftHalf(h'.traces[|outcomes| - 1], db.File(), db.tree.pager.limit)
  {
    ghost var trace;
    var error;
    outcome, error, trace := db.Update(txns[|before|]);
    outcomes := before + [outcome];
    h' := PlayedMore(h, txns, before, outcome, trace, db.shape, outcomes);
  }

  /**
   * After any transactions none of which empties a leaf other than the first, on a database whose
   * leaf chain was in order, a scan lists exactly the pairs the committed transactions leave.
   */
  method ScanPlayed(db: DB, ghost h: Story, txns: seq<seq<Op>>, outcomes: seq<Outcome>, start: Bytes, end: Option<Bytes>)
    returns (out: seq<(Bytes, Bytes)>)
    requires Played(h, txns, outcomes) && |outcomes| == |txns| && AllGoOn(outcomes) && AllSpare(h, txns, outcomes)
    requires db.Valid() && db.shape == h.shapes[|txns|] && db.shape.Whole? && Ordered(h.shapes[0])
    ensures Lists(out, Folded(PairsOf(h.shapes[0]), txns, outcomes, |txns|), start, end)
  {
    assert outcomes[..|txns|] == outcomes;
    PlayedOrder(h, txns, outcomes, |txns|);
    PlayedPairs(h, txns, outcomes, |txns|);
    out := db.Scan(start, end);
  }
}
