/**
 * When an Update overwrites the log of the Update before it.  An Update that returns an error may leave
 * its log in place: the pager could not be closed, the log could not be played back, the file could not
 * be flushed.  The process lives on, and nothing keeps it from starting the next Update, which copies
 * the half-changed file over the log before it does anything else.
 */
module LostLog {
  import opened Bytes
  import opened Options
  import opened Wal
  import opened StaleLog

  /** The calls of an Update up to the run of fn, and the points they start from. */
  const LOGGING := [OpenTmp, FillTmp, SyncTmp, NameLog, SyncLogDir]
  const LOGGING_POINTS := [Stuck, TmpOpen, TmpFull, TmpSynced, LogNamed, Running]

  /** What the next Update has reached after its first i calls, on a file with the given image. */
  ghost predicate Relogging(s: State, i: nat, image: Bytes) {
    && Wf(s.disk) && i <= 5 && s.pc == LOGGING_POINTS[i] && s.db != Absent && Contents(s.disk, Db).bytes == image
    && (i > 0 ==> s.base == image && Updating(s))
    && (i == 1 ==> LogTmp in Cur(s.disk))
    && (i == 2 ==> LogTmp in Cur(s.disk) && Contents(s.disk, LogTmp).bytes == MAGIC + image)
    && (i == 3 ==> Held(s.disk, LogTmp, File(MAGIC + image, true)))
    && (i >= 4 ==> LogTmp !in Cur(s.disk) && Held(s.disk, Log, File(MAGIC + image, true)))
    && (i == 5 ==> |s.disk.dirs| == 1)
  }

  lemma RelogStarts(s: State, image: Bytes) returns (t: State)
    requires Relogging(s, 0, image)
    ensures Step(s, OpenTmp) == Some(t) && Relogging(t, 1, image)
  {
    t := Step(s, OpenTmp).value;
    assert GoodDir(Cur(s.disk), |s.disk.files|);
  }

  lemma RelogWrites(s: State, i: nat, image: Bytes) returns (t: State)
    requires Relogging(s, i, image) && 1 <= i < 3
    ensures Step(s, LOGGING[i]) == Some(t) && Relogging(t, i + 1, image)
  {
    t := Step(s, LOGGING[i]).value;
    assert GoodDir(Cur(s.disk), |s.disk.files|);
  }

  lemma RelogNames(s: State, i: nat, image: Bytes) returns (t: State)
    requires Relogging(s, i, image) && 3 <= i < 5
    ensures Step(s, LOGGING[i]) == Some(t) && Relogging(t, i + 1, image)
  {
    t := Step(s, LOGGING[i]).value;
  }

  lemma RelogStep(s: State, i: nat, image: Bytes) returns (t: State)
    requires Relogging(s, i, image) && i < 5
    ensures Step(s, LOGGING[i]) == Some(t) && Relogging(t, i + 1, image)
  {
    if i == 0 {
      t := RelogStarts(s, image);
    } else if i < 3 {
      t := RelogWrites(s, i, image);
    } else {
      t := RelogNames(s, i, image);
    }
  }

  lemma {:induction false} RelogRuns(s: State, i: nat, image: Bytes)
    requires Relogging(s, i, image)
    ensures Run(s, LOGGING[i..]).Some? && Relogging(Run(s, LOGGING[i..]).value, 5, image)
    decreases 5 - i
  {
    if i < 5 {
      var t := RelogStep(s, i, image);
      RunStep(s, t, LOGGING[i..]);
      assert LOGGING[i..][1..] == LOGGING[i + 1..];
      RelogRuns(t, i + 1, image);
    }
  }

  /** With its log on disk the next Update is as good as one on a database that always held the image. */
  lemma RelogInv(s: State, image: Bytes)
    requires Relogging(s, 5, image)
    ensures Inv(s)
  {
    assert (MAGIC + image)[..|MAGIC|] == MAGIC;
    assert GoodDir(Cur(s.disk), |s.disk.files|);
    assert Safe(s, Cur(s.disk));
    assert SafeAt(s, 0);
  }

  /**
   * The next Update after one that left its log writes a log of the file as it finds it: from there on
   * the invariant holds again, with the half-changed image in the place of the one from before.
   */
  lemma LogOverwritten(s: State) returns (t: State)
    requires Inv(s) && s.pc == Stuck
    ensures Run(s, LOGGING) == Some(t) && Inv(t) && t.pc == Running && t.base == Contents(s.disk, Db).bytes
    ensures Log in Cur(t.disk)
  {
    var image := Contents(s.disk, Db).bytes;
    RelogRuns(s, 0, image);
    assert LOGGING[0..] == LOGGING;
    t := Run(s, LOGGING).value;
    RelogInv(t, image);
  }

  /** An Update whose fn fails at once, with a rollback that succeeds. */
  const FAILING := LOGGING + ([FnFails] + RECOVERY)

  lemma FailsAndRecovers(s: State) returns (r: State)
    requires Inv(s) && s.pc == Running
    ensures Run(s, [FnFails] + RECOVERY) == Some(r) && Wf(r.disk) && r.pc == Idle && r.outcome == Failed
    ensures Contents(r.disk, Db) == File(s.base, true)
  {
    var t := Step(s, FnFails).value;
    StepKeeps(s, FnFails);
    RunStep(s, t, [FnFails] + RECOVERY);
    assert ([FnFails] + RECOVERY)[1..] == RECOVERY;
    ReopenedByLog(t);
    r := Run(t, RECOVERY).value;
    RecoveryFair(t, RECOVERY);
    RunKeeps(t, RECOVERY);
    RecoveryKeeps(t, RECOVERY);
    IdleSettled(r);
  }

  lemma {:induction false} RecoveryKeeps(s: State, events: seq<Event>)
    requires Wf(s.disk) && Run(s, events).Some? && forall i | 0 <= i < |events| :: events[i] in RECOVERY
    ensures SameUpdate(s, Run(s, events).value)
    decreases |events|
  {
    if events != [] {
      if events[0] == Recover || events[0] == Reopen {
        RecoverBlind(s, events[0], s.base);
      } else {
        BackBlind(s, events[0], s.base);
      }
      RecoveryKeeps(Step(s, events[0]).value, events[1..]);
    }
  }

  /**
   * After an Update that left its log, let the next one fail too, and its rollback succeed.  The first
   * Update, which returned an error, is then undone if and only if the next was prudent: if and only
   * if the first had changed nothing.
   */
  lemma UndoneIffPrudent(s: State) returns (r: State)
    requires Inv(s) && s.pc == Stuck
    ensures Run(s, FAILING) == Some(r) && Wf(r.disk) && r.pc == Idle && r.outcome == Failed && Contents(r.disk, Db).synced
    ensures Contents(r.disk, Db).bytes == Contents(s.disk, Db).bytes
    ensures Acceptable(s, Contents(r.disk, Db).bytes) <==> Prudent(s, OpenTmp)
  {
    r := FailsAgain(s);
  }

  lemma FailsAgain(s: State) returns (r: State)
    requires Inv(s) && s.pc == Stuck
    ensures Run(s, FAILING) == Some(r) && Wf(r.disk) && r.pc == Idle && r.outcome == Failed
    ensures Contents(r.disk, Db) == File(Contents(s.disk, Db).bytes, true)
  {
    var t := LogOverwritten(s);
    r := FailsAndRecovers(t);
    RunJoin(s, t, LOGGING, [FnFails] + RECOVERY);
  }

  /** The calls of an Update whose fn writes the image and fails, with a rollback that fails as well. */
  function Spoiling(image: Bytes): seq<Event> {
    Update(image)[..6] + [FnFails, RollbackFails]
  }

  lemma {:induction false} ImageReached(s: State, i: nat, before: Bytes, image: Bytes)
    requires Reached(s, i, before, image) && i <= 6
    ensures Run(s, Update(image)[i..6]).Some? && Reached(Run(s, Update(image)[i..6]).value, 6, before, image)
    decreases 6 - i
  {
    if i < 6 {
      var t := UpdateStep(s, i, before, image);
      RunStep(s, t, Update(image)[i..6]);
      assert Update(image)[i..6][1..] == Update(image)[i + 1..6];
      ImageReached(t, i + 1, before, image);
    }
  }

  lemma RollbackLost(s: State) returns (t: State)
    requires Inv(s) && s.pc == Running
    ensures Run(s, [FnFails, RollbackFails]) == Some(t) && Inv(t) && t.pc == Stuck && t.base == s.base && t.disk == s.disk
  {
    var u := Step(s, FnFails).value;
    StepKeeps(s, FnFails);
    t := Step(u, RollbackFails).value;
    StepKeeps(u, RollbackFails);
    RunStep(s, u, [FnFails, RollbackFails]);
    RunStep(u, t, [RollbackFails]);
    assert Run(t, []) == Some(t);
  }

  /**
   * Atomicity does fail without a crash: on any database, let an Update write any image at all and
   * fail, let its rollback fail, and let another Update fail.  Both have returned an error, and the
   * database holds the image.
   */
  lemma FailedUpdateStays(s: State, image: Bytes) returns (t: State, r: State)
    requires Initial(s)
    ensures Run(s, Spoiling(image)) == Some(t) && Inv(t) && t.pc == Stuck && t.outcome == Failed && t.base == Contents(s.disk, Db).bytes
    ensures Run(t, FAILING) == Some(r) && Wf(r.disk) && r.pc == Idle && r.outcome == Failed
    ensures Contents(r.disk, Db) == File(image, true)
  {
    InitialInv(s);
    ImageReached(s, 0, Contents(s.disk, Db).bytes, image);
    assert Update(image)[0..6] == Update(image)[..6];
    var u := Run(s, Update(image)[..6]).value;
    t := RollbackLost(u);
    RunJoin(s, u, Update(image)[..6], [FnFails, RollbackFails]);
    r := UndoneIffPrudent(t);
  }
}
