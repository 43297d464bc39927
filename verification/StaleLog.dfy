/**
 * When the rollback log is not enough.  The removal of a log is not on disk before the directory is
 * synced, and an Update does not wait for that when the process before it died in between.  A crash
 * may then bring back the log of an Update that was over, and recovery plays it back.
 */
module StaleLog {
  import opened Bytes
  import opened Options
  import opened Wal

  // ---- a crash is harmless exactly when it brings back no stale log ----

  /** The state with the log of the current directory taken for the log of the latest Update. */
  function Rebased(s: State, base: Bytes): State {
    s.(base := base, next := None, outcome := Interrupted)
  }

  /** Recovery knows nothing of the Update before it. */
  lemma BackBlind(s: State, e: Event, base: Bytes)
    requires Wf(s.disk) && e in RECOVERY && e != Recover && e != Reopen
    ensures Step(s, e).None? <==> Step(Rebased(s, base), e).None?
    ensures Step(s, e).Some? ==> Step(Rebased(s, base), e).value == Rebased(Step(s, e).value, base)
    ensures Step(s, e).Some? ==> SameUpdate(s, Step(s, e).value)
  {
  }

  lemma RecoverBlind(s: State, e: Event, base: Bytes)
    requires Wf(s.disk) && (e == Recover || e == Reopen)
    ensures Step(s, e).None? <==> Step(Rebased(s, base), e).None?
    ensures Step(s, e).Some? ==> Step(Rebased(s, base), e).value == Rebased(Step(s, e).value, base)
    ensures Step(s, e).Some? ==> SameUpdate(s, Step(s, e).value)
  {
  }

  lemma {:induction false} RunBlind(s: State, events: seq<Event>, base: Bytes)
    requires Wf(s.disk) && forall i | 0 <= i < |events| :: events[i] in RECOVERY
    requires Run(Rebased(s, base), events).Some?
    ensures Run(s, events).Some? && Run(Rebased(s, base), events).value == Rebased(Run(s, events).value, base)
    ensures SameUpdate(s, Run(s, events).value)
    decreases |events|
  {
    if events != [] {
      if events[0] == Recover || events[0] == Reopen {
        RecoverBlind(s, events[0], base);
      } else {
        BackBlind(s, events[0], base);
      }
      RunBlind(Step(s, events[0]).value, events[1..], base);
    }
  }

  /** The image in the log of a directory state. */
  function LogImage(s: State, dir: Dir): Bytes
    requires GoodDir(dir, |s.disk.files|) && Log in dir && HasMagic(s.disk.files[dir[Log]].bytes)
  {
    s.disk.files[dir[Log]].bytes[|MAGIC|..]
  }

  lemma LogParts(s: State, dir: Dir)
    requires GoodDir(dir, |s.disk.files|) && Log in dir && HasMagic(s.disk.files[dir[Log]].bytes)
    ensures s.disk.files[dir[Log]].bytes == MAGIC + LogImage(s, dir)
  {
  }

  /** A crash into a directory state with a log, seen as the crash of the Update that wrote the log. */
  lemma RebasedInv(s: State, k: nat, junk: seq<Bytes>)
    requires Inv(s) && Step(s, Crash(k, junk)).Some? && Log in s.disk.dirs[k]
    ensures Safe(s, s.disk.dirs[k]) && Inv(Rebased(Step(s, Crash(k, junk)).value, LogImage(s, s.disk.dirs[k])))
  {
    var t := Step(s, Crash(k, junk)).value;
    assert SafeAt(s, k);
    LogParts(s, s.disk.dirs[k]);
    assert Safe(Rebased(t, LogImage(s, s.disk.dirs[k])), s.disk.dirs[k]);
  }

  /** The calls of recovery lead from the one state to the other. */
  ghost predicate Reopens(s: State, t: State) {
    Wf(s.disk) && Run(s, Recovery(Cur(s.disk))) == Some(t)
  }

  /** Recovery plays back whatever log the crash brings back. */
  lemma PlaysBack(s: State, k: nat, junk: seq<Bytes>) returns (r: State)
    requires Inv(s) && Step(s, Crash(k, junk)).Some? && Log in s.disk.dirs[k]
    ensures Reopens(Step(s, Crash(k, junk)).value, r) && SameUpdate(Step(s, Crash(k, junk)).value, r)
    ensures Wf(r.disk) && Safe(s, s.disk.dirs[k]) && Restored(r, LogImage(s, s.disk.dirs[k]))
  {
    var t := Step(s, Crash(k, junk)).value;
    RebasedInv(s, k, junk);
    ReopenedByLog(Rebased(t, LogImage(s, s.disk.dirs[k])));
    RunBlind(t, RECOVERY, LogImage(s, s.disk.dirs[k]));
    r := Run(t, RECOVERY).value;
  }

  /**
   * After a crash at any point of a run the database reopens, and it then holds what the latest
   * Update allows if and only if the crash did not bring back a stale log.
   */
  lemma SettledUnlessStale(s: State, k: nat, junk: seq<Bytes>) returns (r: State)
    requires Inv(s) && Step(s, Crash(k, junk)).Some?
    ensures Reopens(Step(s, Crash(k, junk)).value, r) && r.pc == Idle && Wf(r.disk)
    ensures Settled(r) <==> !Stale(s, s.disk.dirs[k])
  {
    if Stale(s, s.disk.dirs[k]) {
      r := StaleReopened(s, k, junk);
    } else {
      r := FreshReopened(s, k, junk);
    }
  }

  lemma StaleReopened(s: State, k: nat, junk: seq<Bytes>) returns (r: State)
    requires Inv(s) && Step(s, Crash(k, junk)).Some? && Stale(s, s.disk.dirs[k])
    ensures Reopens(Step(s, Crash(k, junk)).value, r) && r.pc == Idle && Wf(r.disk) && !Settled(r)
  {
    r := PlaysBack(s, k, junk);
    StaleUnsettled(s, k, r);
  }

  lemma FreshReopened(s: State, k: nat, junk: seq<Bytes>) returns (r: State)
    requires Inv(s) && Step(s, Crash(k, junk)).Some? && !Stale(s, s.disk.dirs[k])
    ensures Reopens(Step(s, Crash(k, junk)).value, r) && r.pc == Idle && Wf(r.disk) && Settled(r)
  {
    CrashStep(s, k, junk);
    r := SettledByRecovery(Step(s, Crash(k, junk)).value);
  }

  lemma SettledByRecovery(s: State) returns (r: State)
    requires Inv(s) && s.pc == Down
    ensures Reopens(s, r) && r.pc == Idle && Wf(r.disk) && Settled(r)
  {
    Reopened(s);
    RecoveryFair(s, Recovery(Cur(s.disk)));
    RunKeeps(s, Recovery(Cur(s.disk)));
    r := Run(s, Recovery(Cur(s.disk))).value;
    IdleSettled(r);
  }

  /** The image of a stale log is none the latest Update allows. */
  lemma StaleUnsettled(s: State, k: nat, r: State)
    requires Inv(s) && k < |s.disk.dirs| && Stale(s, s.disk.dirs[k]) && Safe(s, s.disk.dirs[k])
    requires Wf(r.disk) && r.base == s.base && r.next == s.next && r.outcome == (if s.outcome == InFlight then Interrupted else s.outcome)
    requires Contents(r.disk, Db).bytes == LogImage(s, s.disk.dirs[k])
    ensures !Settled(r)
  {
    LogParts(s, s.disk.dirs[k]);
  }

  lemma {:induction false} RecoveryFair(s: State, events: seq<Event>)
    requires Wf(s.disk) && forall i | 0 <= i < |events| :: events[i] in RECOVERY
    ensures AllFair(s, events)
    decreases |events|
  {
    if events != [] && Step(s, events[0]).Some? {
      RecoveryFair(Step(s, events[0]).value, events[1..]);
    }
  }

  // ---- there is no stale log unless the process died before a log's removal was synced ----

  /** The database is open, or may be opened as it is. */
  predicate Resting(s: State)
    requires Wf(s.disk)
  {
    s.pc == Idle || ((s.pc == Down || s.pc == Stuck) && Log !in Cur(s.disk))
  }

  predicate NoLogs(d: Disk) {
    forall k | 0 <= k < |d.dirs| :: Log !in d.dirs[k]
  }

  /** No directory state has a stale log, nor will one when the next Update starts. */
  predicate Clean(s: State)
    requires Wf(s.disk)
  {
    && (forall k {:trigger s.disk.dirs[k]} | 0 <= k < |s.disk.dirs| :: !Stale(s, s.disk.dirs[k]))
    && (Resting(s) ==> Rested(s))
  }

  /** A call of Update. */
  predicate OfUpdate(e: Event) {
    e.Change? || e in {OpenTmp, FillTmp, SyncTmp, NameLog, SyncLogDir, LogFails, FnFails, Flush, FlushFails, RemoveLog, RemoveFails, Commit, SyncFails}
  }

  /** No call writes to the log of a directory state. */
  lemma LogKept(s: State, e: Event, dir: Dir)
    requires Inv(s) && Step(s, e).Some? && GoodDir(dir, |s.disk.files|) && Safe(s, dir) && Log in dir
    requires |s.disk.dirs| == 1 ==> dir == Cur(s.disk)
    ensures GoodDir(dir, |Step(s, e).value.disk.files|)
    ensures Step(s, e).value.disk.files[dir[Log]].bytes == s.disk.files[dir[Log]].bytes
  {
    if e.Change? || e == Flush {
      LogKeptByWrite(s, e, dir);
    } else if OfUpdate(e) {
      LogKeptByUpdate(s, e, dir);
    } else {
      LogKeptByOpen(s, e, dir);
    }
  }

  lemma LogKeptByWrite(s: State, e: Event, dir: Dir)
    requires Inv(s) && (e.Change? || e == Flush) && Step(s, e).Some? && GoodDir(dir, |s.disk.files|) && Log in dir
    requires |s.disk.dirs| == 1 ==> dir == Cur(s.disk)
    ensures GoodDir(dir, |Step(s, e).value.disk.files|)
    ensures Step(s, e).value.disk.files[dir[Log]].bytes == s.disk.files[dir[Log]].bytes
  {
  }

  lemma LogKeptByUpdate(s: State, e: Event, dir: Dir)
    requires Inv(s) && OfUpdate(e) && !e.Change? && e != Flush && Step(s, e).Some? && GoodDir(dir, |s.disk.files|) && Safe(s, dir) && Log in dir
    ensures GoodDir(dir, |Step(s, e).value.disk.files|)
    ensures Step(s, e).value.disk.files[dir[Log]].bytes == s.disk.files[dir[Log]].bytes
  {
  }

  lemma LogKeptByOpen(s: State, e: Event, dir: Dir)
    requires Inv(s) && !OfUpdate(e) && Step(s, e).Some? && GoodDir(dir, |s.disk.files|) && Safe(s, dir) && Log in dir
    ensures GoodDir(dir, |Step(s, e).value.disk.files|)
    ensures Step(s, e).value.disk.files[dir[Log]].bytes == s.disk.files[dir[Log]].bytes
  {
    if e in {Recover, FillBack, SyncBack} {
      LogKeptByRestore(s, e, dir);
    } else {
      LogKeptByRest(s, e, dir);
    }
  }

  lemma LogKeptByRestore(s: State, e: Event, dir: Dir)
    requires Inv(s) && e in {Recover, FillBack, SyncBack} && Step(s, e).Some? && GoodDir(dir, |s.disk.files|) && Safe(s, dir) && Log in dir
    ensures GoodDir(dir, |Step(s, e).value.disk.files|)
    ensures Step(s, e).value.disk.files[dir[Log]].bytes == s.disk.files[dir[Log]].bytes
  {
  }

  lemma LogKeptByRest(s: State, e: Event, dir: Dir)
    requires Inv(s) && !OfUpdate(e) && e !in {Recover, FillBack, SyncBack} && Step(s, e).Some?
    requires GoodDir(dir, |s.disk.files|) && Safe(s, dir) && Log in dir
    ensures GoodDir(dir, |Step(s, e).value.disk.files|)
    ensures Step(s, e).value.disk.files[dir[Log]].bytes == s.disk.files[dir[Log]].bytes
  {
  }

  /** A directory state that is not the newest was there before the call. */
  ghost predicate Older(d: Disk, d': Disk, k: nat) {
    k < |d'.dirs| && (k < |d'.dirs| - 1 ==> k < |d.dirs| && d'.dirs[k] == d.dirs[k])
  }

  lemma DirsAfterLog(s: State, e: Event, k: nat)
    requires Wf(s.disk) && e in {OpenTmp, FillTmp, SyncTmp, NameLog, LogFails} && Step(s, e).Some? && k < |Step(s, e).value.disk.dirs|
    ensures Older(s.disk, Step(s, e).value.disk, k)
  {
  }

  lemma DirsAfterUpdate(s: State, e: Event, k: nat)
    requires Wf(s.disk) && (e.Change? || e in {SyncLogDir, FnFails, Flush, FlushFails, RemoveLog, RemoveFails, Commit, SyncFails}) && Step(s, e).Some? && k < |Step(s, e).value.disk.dirs|
    ensures Older(s.disk, Step(s, e).value.disk, k)
  {
  }

  lemma DirsAfterOpen(s: State, e: Event, k: nat)
    requires Wf(s.disk) && !OfUpdate(e) && Step(s, e).Some? && k < |Step(s, e).value.disk.dirs|
    ensures Older(s.disk, Step(s, e).value.disk, k)
  {
  }

  lemma DirsAfter(s: State, e: Event, k: nat)
    requires Wf(s.disk) && Step(s, e).Some? && k < |Step(s, e).value.disk.dirs|
    ensures Older(s.disk, Step(s, e).value.disk, k)
  {
    if e in {OpenTmp, FillTmp, SyncTmp, NameLog, LogFails} {
      DirsAfterLog(s, e, k);
    } else if OfUpdate(e) {
      DirsAfterUpdate(s, e, k);
    } else {
      DirsAfterOpen(s, e, k);
    }
  }

  /**
   * The process does not die between the removal of a log and the sync of the directory, nor does that
   * sync fail; and no Update is started on a half-changed database.
   */
  predicate Careful(s: State, e: Event)
    requires Wf(s.disk)
  {
    (e == Kill ==> s.pc != LogGone) && e != SyncFails && Prudent(s, e)
  }

  /** Only the first call of Update takes a new base. */
  lemma OldBase(s: State, e: Event)
    requires Wf(s.disk) && Step(s, e).Some? && e != OpenTmp
    ensures Step(s, e).value.base == s.base
  {
  }

  lemma BaseKept(s: State, e: Event)
    requires Inv(s) && Clean(s) && Step(s, e).Some? && Prudent(s, e)
    ensures Step(s, e).value.base == s.base || (NoLogs(s.disk) && e == OpenTmp)
  {
    if e != OpenTmp {
      OldBase(s, e);
    }
  }

  /** The database rests on the base, or there is no log to bring back. */
  predicate Rested(s: State)
    requires Wf(s.disk)
  {
    NoLogs(s.disk) || Contents(s.disk, Db).bytes == s.base
  }

  /** A directory that was just synced without a log has none to bring back. */
  lemma SyncedRests(s: State, e: Event)
    requires Inv(s) && Step(s, e).Some? && e in {Commit, Reopen}
    ensures Rested(Step(s, e).value)
  {
  }

  lemma RecoverRests(s: State)
    requires Inv(s) && Clean(s) && Step(s, Recover).Some?
    ensures Resting(Step(s, Recover).value) ==> Rested(Step(s, Recover).value)
  {
  }

  /** An Update that could not write its log has changed nothing. */
  lemma LogFailsRests(s: State)
    requires Inv(s) && Step(s, LogFails).Some?
    ensures Resting(Step(s, LogFails).value) ==> Rested(Step(s, LogFails).value)
  {
    assert SafeAt(s, |s.disk.dirs| - 1);
  }

  lemma KillRests(s: State)
    requires Inv(s) && Clean(s) && s.pc != LogGone
    ensures Resting(Step(s, Kill).value) ==> Rested(Step(s, Kill).value)
  {
    assert SafeAt(s, |s.disk.dirs| - 1);
  }

  lemma CrashRests(s: State, k: nat, junk: seq<Bytes>)
    requires Wf(s.disk) && Step(s, Crash(k, junk)).Some?
    ensures Resting(Step(s, Crash(k, junk)).value) ==> Rested(Step(s, Crash(k, junk)).value)
  {
  }

  /** A rollback that fails has restored the database or left its log. */
  lemma RollbackRests(s: State, e: Event)
    requires Inv(s) && Clean(s) && Step(s, e).Some? && (e == RecoverFails || e == RollbackFails)
    ensures Resting(Step(s, e).value) ==> Rested(Step(s, e).value)
  {
  }

  /** The other calls leave the database neither open nor ready to be opened as it is. */
  lemma OthersBusy(s: State, e: Event)
    requires Inv(s) && Step(s, e).Some? && !e.Crash?
    requires e !in {Commit, SyncFails, LogFails, Reopen, Recover, RecoverFails, RollbackFails, Kill}
    ensures !Resting(Step(s, e).value)
  {
    if OfUpdate(e) {
      UpdateBusy(s, e);
    } else {
      RecoveryBusy(s, e);
    }
  }

  lemma UpdateBusy(s: State, e: Event)
    requires Inv(s) && Step(s, e).Some? && OfUpdate(e) && e !in {Commit, SyncFails, LogFails}
    ensures !Resting(Step(s, e).value)
  {
    if e in {FnFails, FlushFails, RemoveFails} {
      FailureBusy(s, e);
    } else {
      CallBusy(s, e);
    }
  }

  lemma FailureBusy(s: State, e: Event)
    requires Inv(s) && Step(s, e).Some? && e in {FnFails, FlushFails, RemoveFails}
    ensures !Resting(Step(s, e).value)
  {
  }

  lemma CallBusy(s: State, e: Event)
    requires Wf(s.disk) && Step(s, e).Some?
    requires e.Change? || e in {OpenTmp, FillTmp, SyncTmp, NameLog, SyncLogDir, Flush, RemoveLog}
    ensures !Resting(Step(s, e).value)
  {
  }

  lemma RecoveryBusy(s: State, e: Event)
    requires Inv(s) && Step(s, e).Some? && e in {FillBack, SyncBack, NameBack, RemoveBack}
    ensures !Resting(Step(s, e).value)
  {
  }

  lemma RestsOnBase(s: State, e: Event)
    requires Inv(s) && Clean(s) && Step(s, e).Some? && Careful(s, e)
    ensures Resting(Step(s, e).value) ==> Rested(Step(s, e).value)
  {
    if e in {Commit, Reopen} {
      SyncedRests(s, e);
    } else if e == Recover {
      RecoverRests(s);
    } else if e == LogFails {
      LogFailsRests(s);
    } else if e == RecoverFails || e == RollbackFails {
      RollbackRests(s, e);
    } else if e == Kill {
      KillRests(s);
    } else if e.Crash? {
      CrashRests(s, e.k, e.junk);
    } else {
      OthersBusy(s, e);
    }
  }

  lemma CleanDir(s: State, e: Event, k: nat)
    requires Inv(s) && Clean(s) && Step(s, e).Some? && Prudent(s, e) && k < |Step(s, e).value.disk.dirs| && Inv(Step(s, e).value)
    ensures !Stale(Step(s, e).value, Step(s, e).value.disk.dirs[k])
  {
    DirsAfter(s, e, k);
    if k < |Step(s, e).value.disk.dirs| - 1 && Log in s.disk.dirs[k] {
      StaysCurrent(s, e, k);
    }
  }

  lemma StaysCurrent(s: State, e: Event, k: nat)
    requires Inv(s) && Clean(s) && Step(s, e).Some? && Prudent(s, e) && k < |s.disk.dirs| && Log in s.disk.dirs[k]
    ensures GoodDir(s.disk.dirs[k], |Step(s, e).value.disk.files|) && !Stale(Step(s, e).value, s.disk.dirs[k])
  {
    assert SafeAt(s, k) && !Stale(s, s.disk.dirs[k]);
    LogKept(s, e, s.disk.dirs[k]);
    SameBase(s, e, k);
    NotStale(s, Step(s, e).value, s.disk.dirs[k]);
  }

  lemma NotStale(s: State, t: State, dir: Dir)
    requires GoodDir(dir, |s.disk.files|) && GoodDir(dir, |t.disk.files|) && Log in dir && !Stale(s, dir)
    requires t.base == s.base && t.disk.files[dir[Log]].bytes == s.disk.files[dir[Log]].bytes
    ensures !Stale(t, dir)
  {
  }

  lemma SameBase(s: State, e: Event, k: nat)
    requires Inv(s) && Clean(s) && Step(s, e).Some? && Prudent(s, e) && k < |s.disk.dirs| && Log in s.disk.dirs[k]
    ensures Step(s, e).value.base == s.base
  {
    BaseKept(s, e);
  }

  lemma CleanStep(s: State, e: Event)
    requires Inv(s) && Clean(s) && Step(s, e).Some? && Careful(s, e)
    ensures Fair(s, e) && Inv(Step(s, e).value) && Clean(Step(s, e).value)
  {
    StepKeeps(s, e);
    RestsOnBase(s, e);
    forall k | 0 <= k < |Step(s, e).value.disk.dirs|
      ensures !Stale(Step(s, e).value, Step(s, e).value.disk.dirs[k])
    {
      CleanDir(s, e, k);
    }
  }

  predicate AllCareful(s: State, events: seq<Event>)
    requires Wf(s.disk)
    decreases |events|
  {
    events != [] ==> Careful(s, events[0]) && (Step(s, events[0]).Some? ==> AllCareful(Step(s, events[0]).value, events[1..]))
  }

  lemma {:induction false} CleanRun(s: State, events: seq<Event>)
    requires Inv(s) && Clean(s) && Run(s, events).Some? && AllCareful(s, events)
    ensures AllFair(s, events) && Inv(Run(s, events).value) && Clean(Run(s, events).value)
    decreases |events|
  {
    if events != [] {
      CleanStep(s, events[0]);
      CleanRun(Step(s, events[0]).value, events[1..]);
    }
  }

  /**
   * In a run in which the process never dies between the removal of a log and the sync of the
   * directory, that sync never fails, and no Update is started on a half-changed database, no crash
   * can bring back a stale log: every open database holds what the latest Update allows.
   */
  lemma CarefulAtomic(s: State, events: seq<Event>)
    requires Initial(s) && Run(s, events).Some? && AllCareful(s, events)
    ensures AllFair(s, events) && Clean(Run(s, events).value)
    ensures Run(s, events).value.pc == Idle ==> Settled(Run(s, events).value)
  {
    InitialClean(s);
    CleanRun(s, events);
    SettledAtEnd(Run(s, events).value);
  }

  lemma InitialClean(s: State)
    requires Initial(s)
    ensures Inv(s) && Clean(s)
  {
    InitialInv(s);
  }

  lemma SettledAtEnd(s: State)
    requires Inv(s)
    ensures s.pc == Idle ==> Settled(s)
  {
    if s.pc == Idle {
      IdleSettled(s);
    }
  }

  // ---- and there is one when it did ----

  /** After such a death the next Update makes the log stale, whatever changed the database. */
  lemma DeathLeavesStale(s: State, k: nat)
    requires Inv(s) && s.pc == LogGone && k < |s.disk.dirs| && Log in s.disk.dirs[k] && s.next != Some(s.base)
    ensures Run(s, [Kill, Recover, OpenTmp]).Some?
    ensures var t := Run(s, [Kill, Recover, OpenTmp]).value;
            Inv(t) && k < |t.disk.dirs| && t.disk.dirs[k] == s.disk.dirs[k] && Stale(t, t.disk.dirs[k])
  {
    var a := Step(s, Kill).value;
    StepKeeps(s, Kill);
    var b := Step(a, Recover).value;
    StepKeeps(a, Recover);
    assert SafeAt(s, k);
    NextUpdateStales(b, k);
    RunThree(s, Kill, Recover, OpenTmp);
  }

  /** An Update on a database that has changed since the log of the directory state. */
  lemma NextUpdateStales(s: State, k: nat)
    requires Inv(s) && s.pc == Idle && k < |s.disk.dirs| && Log in s.disk.dirs[k]
    requires s.disk.files[s.disk.dirs[k][Log]].bytes != MAGIC + Contents(s.disk, Db).bytes
    ensures Step(s, OpenTmp).Some?
    ensures var t := Step(s, OpenTmp).value;
            Inv(t) && k < |t.disk.dirs| && t.disk.dirs[k] == s.disk.dirs[k] && Stale(t, t.disk.dirs[k])
  {
    StepKeeps(s, OpenTmp);
    assert SafeAt(s, k);
    assert SafeAt(s, |s.disk.dirs| - 1);
    LogKept(s, OpenTmp, s.disk.dirs[k]);
  }

  lemma RunThree(s: State, a: Event, b: Event, c: Event)
    requires Wf(s.disk) && Step(s, a).Some? && Step(Step(s, a).value, b).Some? && Step(Step(Step(s, a).value, b).value, c).Some?
    ensures Run(s, [a, b, c]) == Step(Step(Step(s, a).value, b).value, c)
  {
    var t := Step(s, a).value;
    var u := Step(t, b).value;
    RunStep(s, t, [a, b, c]);
    RunStep(t, u, [b, c]);
    RunStep(u, Step(u, c).value, [c]);
  }

  /** The calls of an Update that writes the image, up to the removal of the log, and the points they start from. */
  function Update(image: Bytes): seq<Event> {
    [OpenTmp, FillTmp, SyncTmp, NameLog, SyncLogDir, Change(image), Flush, RemoveLog]
  }

  const UPDATE_POINTS := [Idle, TmpOpen, TmpFull, TmpSynced, LogNamed, Running, Running, Flushed, LogGone]

  /** What an Update has reached after its first i calls. */
  ghost predicate Reached(s: State, i: nat, before: Bytes, image: Bytes) {
    && Inv(s) && i <= 8 && s.pc == UPDATE_POINTS[i] && s.db == Usable
    && (if i == 0 then Contents(s.disk, Db).bytes == before else s.base == before)
    && (i == 6 ==> Contents(s.disk, Db).bytes == image)
    && (i > 6 ==> s.next == Some(image))
    && (i == 8 ==> |s.disk.dirs| == 2 && Log in s.disk.dirs[0])
  }

  lemma LogWritten(s: State, i: nat, before: Bytes, image: Bytes) returns (t: State)
    requires Reached(s, i, before, image) && i < 3
    ensures Step(s, Update(image)[i]) == Some(t) && Reached(t, i + 1, before, image)
  {
    StepKeeps(s, Update(image)[i]);
    t := Step(s, Update(image)[i]).value;
  }

  lemma LogDurable(s: State, i: nat, before: Bytes, image: Bytes) returns (t: State)
    requires Reached(s, i, before, image) && 3 <= i < 5
    ensures Step(s, Update(image)[i]) == Some(t) && Reached(t, i + 1, before, image)
  {
    StepKeeps(s, Update(image)[i]);
    t := Step(s, Update(image)[i]).value;
  }

  lemma ImageWritten(s: State, i: nat, before: Bytes, image: Bytes) returns (t: State)
    requires Reached(s, i, before, image) && 5 <= i < 7
    ensures Step(s, Update(image)[i]) == Some(t) && Reached(t, i + 1, before, image)
  {
    StepKeeps(s, Update(image)[i]);
    t := Step(s, Update(image)[i]).value;
  }

  lemma LogDropped(s: State, before: Bytes, image: Bytes) returns (t: State)
    requires Reached(s, 7, before, image)
    ensures Step(s, RemoveLog) == Some(t) && Reached(t, 8, before, image)
  {
    StepKeeps(s, RemoveLog);
    t := Step(s, RemoveLog).value;
  }

  lemma UpdateStep(s: State, i: nat, before: Bytes, image: Bytes) returns (t: State)
    requires Reached(s, i, before, image) && i < 8
    ensures Step(s, Update(image)[i]) == Some(t) && Reached(t, i + 1, before, image)
  {
    if i < 3 {
      t := LogWritten(s, i, before, image);
    } else if i < 5 {
      t := LogDurable(s, i, before, image);
    } else if i < 7 {
      t := ImageWritten(s, i, before, image);
    } else {
      t := LogDropped(s, before, image);
    }
  }

  /** An Update can run to the removal of its log. */
  lemma {:induction false} UpdateRuns(s: State, i: nat, before: Bytes, image: Bytes)
    requires Reached(s, i, before, image)
    ensures Run(s, Update(image)[i..]).Some? && Reached(Run(s, Update(image)[i..]).value, 8, before, image)
    decreases 8 - i
  {
    if i < 8 {
      var t := UpdateStep(s, i, before, image);
      RunStep(s, t, Update(image)[i..]);
      assert Update(image)[i..][1..] == Update(image)[i + 1..];
      UpdateRuns(t, i + 1, before, image);
    }
  }

  /** The calls of an Update that writes the image and succeeds. */
  function Committing(image: Bytes): seq<Event> {
    Update(image) + [Commit]
  }

  /** What an Update that returned nil leaves: the image in the file, and no log to bring back. */
  ghost predicate Landed(s: State, before: Bytes, image: Bytes) {
    && Inv(s) && s.pc == Idle && s.db == Usable && s.outcome == Committed && NoLogs(s.disk)
    && Contents(s.disk, Db) == File(image, true) && s.base == before && s.next == Some(image)
  }

  lemma Lands(s: State, before: Bytes, image: Bytes) returns (t: State)
    requires Reached(s, 8, before, image)
    ensures Step(s, Commit) == Some(t) && Landed(t, before, image)
  {
    StepKeeps(s, Commit);
    t := Step(s, Commit).value;
    IdleSettled(t);
  }

  /**
   * From every open database, after any run at all, an Update can write any image: its nine calls run to the
   * end, it returns nil, and the file holds the image with no log that a crash could bring back.
   */
  lemma UpdateCommits(s: State, image: Bytes) returns (t: State)
    requires Inv(s) && s.pc == Idle
    ensures Run(s, Committing(image)) == Some(t) && Landed(t, Contents(s.disk, Db).bytes, image)
  {
    var before := Contents(s.disk, Db).bytes;
    UpdateRuns(s, 0, before, image);
    assert Update(image)[0..] == Update(image);
    var u := Run(s, Update(image)).value;
    t := Lands(u, before, image);
    RunJoin(s, u, Update(image), [Commit]);
    RunStep(u, t, [Commit]);
    assert Run(t, []) == Some(t);
  }

  /** The first call starts the Update, and the seventh flushes. */
  lemma CallAt(i: nat, image: Bytes)
    requires i < 8
    ensures (Update(image)[i] == OpenTmp <==> i == 0) && (Update(image)[i] == Flush <==> i == 6) && !Update(image)[i].Crash?
  {
  }

  lemma CallFair(s: State, i: nat, before: Bytes, image: Bytes)
    requires Reached(s, i, before, image) && i < 8
    ensures Fair(s, Update(image)[i])
  {
    CallAt(i, image);
  }

  lemma {:induction false} UpdateFair(s: State, i: nat, before: Bytes, image: Bytes)
    requires Reached(s, i, before, image)
    ensures |Committing(image)| == 9 && AllFair(s, Committing(image)[i..])
    decreases 8 - i
  {
    var rest := Committing(image)[i..];
    assert rest[1..] == Committing(image)[i + 1..];
    if i < 8 {
      assert rest[0] == Update(image)[i];
      CallFair(s, i, before, image);
      var t := UpdateStep(s, i, before, image);
      UpdateFair(t, i + 1, before, image);
    } else {
      assert rest == [Commit];
      var t := Lands(s, before, image);
      assert AllFair(t, []);
    }
  }

  lemma StaleCrash(s: State) returns (events: seq<Event>)
    requires Inv(s) && Stale(s, s.disk.dirs[0])
    ensures Run(s, events).Some? && Run(s, events).value.pc == Idle && !Settled(Run(s, events).value)
  {
    var junk := seq(|s.disk.files|, i => []);
    var r := SettledUnlessStale(s, 0, junk);
    var t := Step(s, Crash(0, junk)).value;
    events := [Crash(0, junk)] + Recovery(Cur(t.disk));
    RunStep(s, t, events);
    assert events[1..] == Recovery(Cur(t.disk));
  }

  /**
   * Atomicity does fail: on any database, let one Update change the image, let the process die just
   * before its last call, open the database again and start another Update.  A crash then undoes the
   * first Update, which a process has already found in place.
   */
  lemma StaleLogReturns(s: State, image: Bytes) returns (t: State, u: State, crash: seq<Event>)
    requires Initial(s) && image != Contents(s.disk, Db).bytes
    ensures Run(s, Update(image)) == Some(t) && Run(t, [Kill, Recover, OpenTmp]) == Some(u)
    ensures Run(u, crash).Some? && Run(u, crash).value.pc == Idle && !Settled(Run(u, crash).value)
  {
    InitialInv(s);
    UpdateRuns(s, 0, Contents(s.disk, Db).bytes, image);
    assert Update(image)[0..] == Update(image);
    t := Run(s, Update(image)).value;
    DeathLeavesStale(t, 0);
    u := Run(t, [Kill, Recover, OpenTmp]).value;
    crash := StaleCrash(u);
  }
}
