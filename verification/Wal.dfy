/**
 * The rollback log of a transaction: before fn runs, the whole database file is copied to a log
 * file; the log is removed after the new image is flushed, and played back when fn fails or when
 * the database is opened after a crash.
 *
 * The model is a step system, one step per file-system call.  A crash may happen between any two
 * steps.  It puts the directory back to any state it had since it was last synced, and gives any
 * contents at all to a file that was written but not synced.  The process alone may also die
 * between any two steps, which leaves the disk as it is.  Calls may fail: an Update may return an
 * error with its log still in place, after which the process goes on, and may start the next Update.
 */
module Wal {

  import opened Bytes
  import opened Options

  // ---- the file system ----

  datatype Name = Db | Log | LogTmp | Recovering

  type Dir = map<Name, nat>

  datatype File = File(bytes: Bytes, synced: bool)

  /** Files by inode number, and the directory states since the last directory sync, newest last. */
  datatype Disk = Disk(files: seq<File>, dirs: seq<Dir>)

  predicate GoodDir(dir: Dir, n: nat) {
    Db in dir && (forall x | x in dir :: dir[x] < n) && forall x, y | x in dir && y in dir && x != y :: dir[x] != dir[y]
  }

  predicate Wf(d: Disk) {
    |d.dirs| > 0 && forall k | 0 <= k < |d.dirs| :: GoodDir(d.dirs[k], |d.files|)
  }

  function Cur(d: Disk): Dir
    requires Wf(d)
  {
    d.dirs[|d.dirs| - 1]
  }

  function Contents(d: Disk, name: Name): File
    requires Wf(d) && name in Cur(d)
  {
    d.files[Cur(d)[name]]
  }

  function NewDir(d: Disk, dir: Dir): (r: Disk)
    requires Wf(d) && GoodDir(dir, |d.files|)
    ensures Wf(r) && Cur(r) == dir
  {
    d.(dirs := d.dirs + [dir])
  }

  function Overwrite(d: Disk, name: Name, file: File): (r: Disk)
    requires Wf(d) && name in Cur(d)
    ensures Wf(r) && Cur(r) == Cur(d) && Contents(r, name) == file
  {
    d.(files := d.files[Cur(d)[name] := file])
  }

  /** Open for writing with O_CREATE and O_TRUNC. */
  function Create(d: Disk, name: Name): (r: Disk)
    requires Wf(d)
    ensures Wf(r) && name in Cur(r)
  {
    if name in Cur(d) then
      Overwrite(d, name, File([], false))
    else
      var grown := Disk(d.files + [File([], false)], d.dirs);
      assert forall k | 0 <= k < |d.dirs| :: GoodDir(grown.dirs[k], |d.files|);
      NewDir(grown, Cur(d)[name := |d.files|])
  }

  function Write(d: Disk, name: Name, bytes: Bytes): (r: Disk)
    requires Wf(d) && name in Cur(d)
    ensures Wf(r) && Cur(r) == Cur(d)
  {
    Overwrite(d, name, File(bytes, false))
  }

  function Fsync(d: Disk, name: Name): (r: Disk)
    requires Wf(d) && name in Cur(d)
    ensures Wf(r) && Cur(r) == Cur(d)
  {
    Overwrite(d, name, File(Contents(d, name).bytes, true))
  }

  function Rename(d: Disk, source: Name, target: Name): (r: Disk)
    requires Wf(d) && source in Cur(d) && source != Db && source != target
    ensures Wf(r) && target in Cur(r)
  {
    NewDir(d, (Cur(d) - {source})[target := Cur(d)[source]])
  }

  function Remove(d: Disk, name: Name): (r: Disk)
    requires Wf(d) && name != Db
    ensures Wf(r)
  {
    NewDir(d, Cur(d) - {name})
  }

  function SyncDir(d: Disk): (r: Disk)
    requires Wf(d)
    ensures Wf(r) && Cur(r) == Cur(d)
  {
    d.(dirs := [Cur(d)])
  }

  /** What is left after a crash: directory state k, and junk in every file that was not synced. */
  function PowerLoss(d: Disk, k: nat, junk: seq<Bytes>): (r: Disk)
    requires Wf(d) && k < |d.dirs| && |junk| == |d.files|
    ensures Wf(r) && Cur(r) == d.dirs[k]
  {
    Disk(seq(|d.files|, i requires 0 <= i < |d.files| => if d.files[i].synced then d.files[i] else File(junk[i], true)), [d.dirs[k]])
  }

  // ---- the steps of Update and Open ----

  /** The eight bytes "KRWAL001". */
  const MAGIC: Bytes := [75, 82, 87, 65, 76, 48, 48, 49]

  /**
   * How the latest Update ended: fn is still running or the commit is not finished, nil, an error, or
   * cut off, by a death or by an error of the very last call, when the log is gone already.
   */
  datatype Outcome = InFlight | Committed | Failed | Interrupted

  /** The call that was made last. */
  datatype Pc =
    | Idle | TmpOpen | TmpFull | TmpSynced | LogNamed
    | Running | Flushed | LogGone
    | Down | BackOpen | BackFull | BackSynced | BackNamed | BackGone
    | Stuck

  /** What the process has of the database: nothing, a pager, or a pager that the rollback has closed. */
  datatype Handle = Absent | Usable | Unusable

  /** base is the image the latest Update started from, next the image it flushed. */
  datatype State = State(disk: Disk, pc: Pc, db: Handle, base: Bytes, next: Option<Bytes>, outcome: Outcome)

  datatype Event =
    | OpenTmp | FillTmp | SyncTmp | NameLog | SyncLogDir | LogFails
    | Change(image: Bytes) | FnFails | Flush | FlushFails | RemoveLog | RemoveFails | Commit | SyncFails
    | Recover | FillBack | SyncBack | NameBack | RemoveBack | Reopen | RecoverFails | RollbackFails
    | Kill | Crash(k: nat, junk: seq<Bytes>)

  /** A log file starts with the magic. */
  predicate HasMagic(bytes: Bytes) {
    |bytes| >= |MAGIC| && bytes[..|MAGIC|] == MAGIC
  }

  /** The state after an event, or None when the event cannot happen there. */
  function Step(s: State, e: Event): (r: Option<State>)
    requires Wf(s.disk)
    ensures r.Some? ==> Wf(r.value.disk)
  {
    var d := s.disk;
    match e
    case OpenTmp =>
      if s.pc == Idle || s.pc == Stuck then
        Some(State(Create(d, LogTmp), TmpOpen, s.db, Contents(d, Db).bytes, None, InFlight))
      else None
    case FillTmp =>
      if s.pc == TmpOpen && LogTmp in Cur(d) then Some(s.(disk := Write(d, LogTmp, MAGIC + Contents(d, Db).bytes), pc := TmpFull)) else None
    case SyncTmp =>
      if s.pc == TmpFull && LogTmp in Cur(d) then Some(s.(disk := Fsync(d, LogTmp), pc := TmpSynced)) else None
    case NameLog =>
      if s.pc == TmpSynced && LogTmp in Cur(d) then Some(s.(disk := Rename(d, LogTmp, Log), pc := LogNamed)) else None
    case LogFails =>
      if s.pc in {TmpOpen, TmpFull, TmpSynced} then
        Some(s.(disk := Remove(d, LogTmp), pc := if Log in Cur(d) || s.db == Unusable then Stuck else Idle, outcome := Failed))
      else if s.pc == LogNamed then Some(s.(pc := Stuck, outcome := Failed))
      else None
    case SyncLogDir =>
      if s.pc == LogNamed then Some(s.(disk := SyncDir(d), pc := Running)) else None
    case Change(image) =>
      if s.pc == Running && s.db == Usable then Some(s.(disk := Write(d, Db, image))) else None
    case FnFails =>
      if s.pc == Running then Some(s.(pc := Down, db := Unusable, outcome := Failed)) else None
    case RollbackFails =>
      if s.pc == Down && s.db == Unusable then Some(s.(pc := Stuck)) else None
    case Flush =>
      if s.pc == Running && s.db == Usable then
        Some(s.(disk := Fsync(d, Db), pc := Flushed, next := Some(Contents(d, Db).bytes)))
      else None
    case FlushFails =>
      if s.pc == Running then Some(s.(pc := Stuck, outcome := Failed)) else None
    case RemoveLog =>
      if s.pc == Flushed then Some(s.(disk := Remove(d, Log), pc := LogGone)) else None
    case RemoveFails =>
      if s.pc == Flushed then Some(s.(pc := Stuck, next := None, outcome := Failed)) else None
    case Commit =>
      if s.pc == LogGone then Some(s.(disk := SyncDir(d), pc := Idle, outcome := Committed)) else None
    case SyncFails =>
      if s.pc == LogGone then Some(s.(pc := Idle, outcome := Interrupted)) else None
    case Recover =>
      if s.pc != Down then None
      else if Log !in Cur(d) then Some(s.(pc := Idle, db := Usable))
      else if !HasMagic(Contents(d, Log).bytes) then None
      else Some(s.(disk := Create(d, Recovering), pc := BackOpen))
    case FillBack =>
      if s.pc == BackOpen && Log in Cur(d) && Recovering in Cur(d) && HasMagic(Contents(d, Log).bytes) then
        Some(s.(disk := Write(d, Recovering, Contents(d, Log).bytes[|MAGIC|..]), pc := BackFull))
      else None
    case SyncBack =>
      if s.pc == BackFull && Recovering in Cur(d) then Some(s.(disk := Fsync(d, Recovering), pc := BackSynced)) else None
    case NameBack =>
      if s.pc == BackSynced && Recovering in Cur(d) then Some(s.(disk := Rename(d, Recovering, Db), pc := BackNamed)) else None
    case RecoverFails =>
      var pc := if s.db == Absent then Down else Stuck;
      if s.pc in {BackOpen, BackFull, BackSynced} then Some(s.(disk := Remove(d, Recovering), pc := pc))
      else if s.pc in {BackNamed, BackGone} then Some(s.(pc := pc))
      else None
    case RemoveBack =>
      if s.pc == BackNamed then Some(s.(disk := Remove(d, Log), pc := BackGone)) else None
    case Reopen =>
      if s.pc == BackGone then Some(s.(disk := SyncDir(d), pc := Idle, db := Usable)) else None
    case Kill =>
      Some(s.(pc := Down, db := Absent, outcome := if s.outcome == InFlight then Interrupted else s.outcome))
    case Crash(k, junk) =>
      if k < |d.dirs| && |junk| == |d.files| then
        Some(s.(disk := PowerLoss(d, k, junk), pc := Down, db := Absent, outcome := if s.outcome == InFlight then Interrupted else s.outcome))
      else None
  }

  /** The state after a run of events. */
  function Run(s: State, events: seq<Event>): (r: Option<State>)
    requires Wf(s.disk)
    ensures r.Some? ==> Wf(r.value.disk)
    decreases |events|
  {
    if events == [] then Some(s)
    else
      var r := Step(s, events[0]);
      if r.None? then None else Run(r.value, events[1..])
  }

  /** A closed database: one synced file, no log, holding an image that was committed earlier. */
  predicate Initial(s: State) {
    && Wf(s.disk) && |s.disk.dirs| == 1 && Log !in Cur(s.disk) && s.pc == Idle && s.db == Usable && s.outcome == Committed
    && Contents(s.disk, Db).synced && s.next == Some(Contents(s.disk, Db).bytes)
  }

  // ---- the invariant ----

  /** The images the database may end up with. */
  predicate Acceptable(s: State, image: Bytes) {
    if s.outcome == Committed then s.next == Some(image) else image == s.base || s.next == Some(image)
  }

  /** The image a database without a log has: the base, as long as the current directory has a log. */
  function Image(s: State): Bytes
    requires Wf(s.disk)
  {
    if Log in Cur(s.disk) then s.base else Contents(s.disk, Db).bytes
  }

  /** The directory state has a log that is not of the latest Update. */
  predicate Stale(s: State, dir: Dir)
    requires GoodDir(dir, |s.disk.files|)
  {
    Log in dir && s.disk.files[dir[Log]].bytes != MAGIC + s.base
  }

  /** Writing to the scratch file does not touch the directory state's database or log. */
  predicate Apart(dir: Dir, cur: Dir, scratch: Name)
    requires Db in dir
  {
    scratch in cur ==> dir[Db] != cur[scratch] && (Log in dir ==> dir[Log] != cur[scratch])
  }

  /** What a crash into this directory state finds: a whole log, or an image that is acceptable. */
  predicate Safe(s: State, dir: Dir)
    requires Wf(s.disk) && GoodDir(dir, |s.disk.files|)
  {
    && Apart(dir, Cur(s.disk), LogTmp) && Apart(dir, Cur(s.disk), Recovering)
    && if Log in dir then
         && s.outcome != Committed && s.disk.files[dir[Log]].synced && HasMagic(s.disk.files[dir[Log]].bytes)
         && (Stale(s, dir) ==> s.next.None?)
       else s.disk.files[dir[Db]] == File(Image(s), true)
  }

  predicate AllSafe(s: State)
    requires Wf(s.disk)
  {
    forall k: nat {:trigger SafeAt(s, k)} | k < |s.disk.dirs| :: SafeAt(s, k)
  }

  predicate SafeAt(s: State, k: nat)
    requires Wf(s.disk) && k < |s.disk.dirs|
  {
    Safe(s, s.disk.dirs[k])
  }

  predicate Held(d: Disk, name: Name, file: File)
    requires Wf(d)
  {
    name in Cur(d) && Contents(d, name) == file
  }

  /** What is special about each point of Update and Open. */
  predicate AtPc(s: State)
    requires Wf(s.disk)
  {
    var d := s.disk;
    match s.pc
    case Idle => Log !in Cur(d) && s.outcome != InFlight
    case TmpOpen => Updating(s) && LogTmp in Cur(d) && Contents(d, Db).bytes == s.base
    case TmpFull => Updating(s) && LogTmp in Cur(d) && Contents(d, LogTmp).bytes == MAGIC + s.base
    case TmpSynced => Updating(s) && Held(d, LogTmp, File(MAGIC + s.base, true))
    case LogNamed => Log in Cur(d) && Updating(s)
    case Running => Log in Cur(d) && Updating(s) && |d.dirs| == 1
    case Flushed => Log in Cur(d) && s.outcome == InFlight && |d.dirs| == 1 && Held(d, Db, File(Contents(d, Db).bytes, true)) && s.next == Some(Contents(d, Db).bytes)
    case LogGone => Log !in Cur(d) && s.outcome == InFlight && s.next == Some(Contents(d, Db).bytes)
    case Down => s.outcome != InFlight
    case BackOpen => Restoring(s) && Recovering in Cur(d)
    case BackFull => Restoring(s) && Recovering in Cur(d) && Contents(d, Recovering).bytes == s.base
    case BackSynced => Restoring(s) && Held(d, Recovering, File(s.base, true))
    case BackNamed => Restoring(s) && Held(d, Db, File(s.base, true))
    case BackGone => Log !in Cur(d) && Stopped(s) && Held(d, Db, File(s.base, true))
    case Stuck => s.outcome == Failed
  }

  /** An Update is on its way and has flushed nothing. */
  predicate Updating(s: State) {
    s.outcome == InFlight && s.next.None?
  }

  predicate Stopped(s: State) {
    s.outcome == Failed || s.outcome == Interrupted
  }

  predicate Restoring(s: State)
    requires Wf(s.disk)
  {
    Log in Cur(s.disk) && Stopped(s)
  }

  /** The log in the current directory is of the latest Update; one that returned an error has flushed nothing. */
  predicate Inv(s: State) {
    && Wf(s.disk) && AllSafe(s) && AtPc(s) && Acceptable(s, Image(s)) && !Stale(s, Cur(s.disk))
    && (s.outcome == Failed ==> s.next.None?) && HandleOk(s)
  }

  /** The pager is closed by the rollback of an Update that failed, and opened when recovery is over. */
  predicate HandleOk(s: State) {
    && (s.pc in {Idle, Flushed, LogGone} ==> s.db == Usable)
    && (s.pc in {Down, BackOpen, BackFull, BackSynced, BackNamed, BackGone} ==> s.db != Usable)
    && (s.db == Unusable ==> s.outcome == Failed || s.outcome == InFlight)
    && (s.outcome == InFlight || s.pc == Stuck ==> s.db != Absent)
  }

  lemma StuckFailed(s: State)
    requires Inv(s) && s.pc == Stuck
    ensures s.outcome == Failed
  {
  }

  // ---- every step keeps the invariant ----

  /** The same Update, in the same state of affairs. */
  predicate SameUpdate(s: State, t: State) {
    t.base == s.base && t.next == s.next && t.outcome == s.outcome
  }

  /** Writing to a scratch file. */
  lemma ScratchWrite(s: State, t: State, name: Name, file: File)
    requires Wf(s.disk) && name in Cur(s.disk) && (name == LogTmp || name == Recovering) && AllSafe(s)
    requires t.disk == Overwrite(s.disk, name, file) && SameUpdate(s, t)
    ensures AllSafe(t) && Held(t.disk, name, file) && Contents(t.disk, Db) == Contents(s.disk, Db)
    ensures Log in Cur(s.disk) ==> Contents(t.disk, Log) == Contents(s.disk, Log)
  {
    forall k: nat | k < |t.disk.dirs|
      ensures SafeAt(t, k)
    {
      assert SafeAt(s, k);
    }
  }

  /** A new directory state that has no other scratch files. */
  lemma MoreDir(s: State, t: State, dir: Dir)
    requires Wf(s.disk) && GoodDir(dir, |s.disk.files|) && AllSafe(s)
    requires t.disk == NewDir(s.disk, dir) && SameUpdate(s, t) && Image(t) == Image(s) && Safe(t, dir)
    requires forall x | x in dir && (x == LogTmp || x == Recovering) :: x in Cur(s.disk) && Cur(s.disk)[x] == dir[x]
    ensures AllSafe(t)
  {
    forall k: nat | k < |t.disk.dirs|
      ensures SafeAt(t, k)
    {
      assert k < |s.disk.dirs| ==> SafeAt(s, k);
    }
  }

  /** A fresh file under a name that was not in use. */
  lemma NewFile(s: State, t: State, name: Name)
    requires Wf(s.disk) && name !in Cur(s.disk) && (name == LogTmp || name == Recovering) && AllSafe(s)
    requires t.disk == Create(s.disk, name) && SameUpdate(s, t)
    ensures AllSafe(t) && Contents(t.disk, Db) == Contents(s.disk, Db)
    ensures Log in Cur(s.disk) ==> Contents(t.disk, Log) == Contents(s.disk, Log)
  {
    assert SafeAt(s, |s.disk.dirs| - 1);
    FileAdded(s, t, name, Cur(s.disk));
    forall k: nat | k < |t.disk.dirs|
      ensures SafeAt(t, k)
    {
      if k < |s.disk.dirs| {
        assert SafeAt(s, k);
        FileAdded(s, t, name, s.disk.dirs[k]);
      }
    }
  }

  lemma FileAdded(s: State, t: State, name: Name, dir: Dir)
    requires Wf(s.disk) && name !in Cur(s.disk) && (name == LogTmp || name == Recovering)
    requires t.disk == Create(s.disk, name) && SameUpdate(s, t)
    requires GoodDir(dir, |s.disk.files|) && Safe(s, dir)
    ensures GoodDir(dir, |t.disk.files|) && Safe(t, dir)
    ensures dir == Cur(s.disk) ==> Safe(t, Cur(t.disk))
  {
    assert GoodDir(Cur(s.disk), |s.disk.files|);
  }

  lemma CreateSafe(s: State, t: State, name: Name)
    requires Wf(s.disk) && (name == LogTmp || name == Recovering) && AllSafe(s)
    requires t.disk == Create(s.disk, name) && SameUpdate(s, t)
    ensures AllSafe(t) && Contents(t.disk, Db) == Contents(s.disk, Db)
    ensures Log in Cur(t.disk) <==> Log in Cur(s.disk)
    ensures Log in Cur(s.disk) ==> Contents(t.disk, Log) == Contents(s.disk, Log)
  {
    if name in Cur(s.disk) {
      ScratchWrite(s, t, name, File([], false));
    } else {
      NewFile(s, t, name);
    }
  }

  /** An Update starts from the image the database holds. */
  lemma BeginSafe(s: State, t: State)
    requires Inv(s) && (s.pc == Idle || (s.pc == Stuck && Contents(s.disk, Db).bytes == s.base))
    requires t == s.(base := Contents(s.disk, Db).bytes, next := None, outcome := InFlight)
    ensures AllSafe(t)
  {
    forall k: nat | k < |t.disk.dirs|
      ensures SafeAt(t, k)
    {
      assert SafeAt(s, k);
    }
  }

  /** Removing a scratch file. */
  lemma ScratchGone(s: State, t: State, name: Name)
    requires Wf(s.disk) && (name == LogTmp || name == Recovering) && AllSafe(s)
    requires t.disk == Remove(s.disk, name) && SameUpdate(s, t)
    ensures AllSafe(t) && Contents(t.disk, Db) == Contents(s.disk, Db)
    ensures Log in Cur(t.disk) <==> Log in Cur(s.disk)
    ensures Log in Cur(s.disk) ==> Contents(t.disk, Log) == Contents(s.disk, Log)
  {
    assert SafeAt(s, |s.disk.dirs| - 1);
    MoreDir(s, t, Cur(s.disk) - {name});
  }

  /** An Update is not started on a half-changed database, one that an Update before it has left behind. */
  predicate Prudent(s: State, e: Event)
    requires Wf(s.disk)
  {
    e == OpenTmp && s.pc == Stuck ==> Contents(s.disk, Db).bytes == s.base
  }

  lemma OpenTmpStep(s: State)
    requires Inv(s) && Step(s, OpenTmp).Some? && Prudent(s, OpenTmp)
    ensures Inv(Step(s, OpenTmp).value)
  {
    var t := Step(s, OpenTmp).value;
    var u := s.(base := Contents(s.disk, Db).bytes, next := None, outcome := InFlight);
    BeginSafe(s, u);
    CreateSafe(u, t, LogTmp);
  }

  lemma FillTmpStep(s: State)
    requires Inv(s) && Step(s, FillTmp).Some?
    ensures Inv(Step(s, FillTmp).value)
  {
    ScratchWrite(s, Step(s, FillTmp).value, LogTmp, File(MAGIC + s.base, false));
  }

  lemma SyncTmpStep(s: State)
    requires Inv(s) && Step(s, SyncTmp).Some?
    ensures Inv(Step(s, SyncTmp).value)
  {
    ScratchWrite(s, Step(s, SyncTmp).value, LogTmp, File(MAGIC + s.base, true));
  }

  lemma LogFailsStep(s: State)
    requires Inv(s) && Step(s, LogFails).Some?
    ensures Inv(Step(s, LogFails).value)
  {
    var t := Step(s, LogFails).value;
    if s.pc == LogNamed {
      GivenUp(s, t);
    } else {
      ScratchGone(s, t.(outcome := InFlight), LogTmp);
      GivenUp(t.(outcome := InFlight), t);
    }
  }

  /** Giving up an Update leaves every directory state as safe as it was. */
  lemma GivenUp(s: State, t: State)
    requires Wf(s.disk) && AllSafe(s) && Stopped(t)
    requires t.disk == s.disk && t.base == s.base && (t.next == s.next || t.next.None?)
    ensures AllSafe(t)
  {
    forall k: nat | k < |t.disk.dirs|
      ensures SafeAt(t, k)
    {
      assert SafeAt(s, k);
    }
  }

  lemma NameLogStep(s: State)
    requires Inv(s) && Step(s, NameLog).Some?
    ensures Inv(Step(s, NameLog).value)
  {
    var t := Step(s, NameLog).value;
    assert SafeAt(s, |s.disk.dirs| - 1);
    assert (MAGIC + s.base)[..|MAGIC|] == MAGIC;
    MoreDir(s, t, (Cur(s.disk) - {LogTmp})[Log := Cur(s.disk)[LogTmp]]);
  }

  /** Once the directory is synced, its current state is the only one. */
  lemma DirSynced(s: State, t: State)
    requires Wf(s.disk) && AllSafe(s) && t.disk == SyncDir(s.disk) && t.base == s.base && t.next == s.next
    requires t.outcome == s.outcome || Log !in Cur(s.disk)
    ensures AllSafe(t) && Image(t) == Image(s)
  {
    assert SafeAt(s, |s.disk.dirs| - 1);
    assert Safe(t, Cur(s.disk));
  }

  lemma SyncLogDirStep(s: State)
    requires Inv(s) && Step(s, SyncLogDir).Some?
    ensures Inv(Step(s, SyncLogDir).value)
  {
    DirSynced(s, Step(s, SyncLogDir).value);
  }

  lemma ReopenStep(s: State)
    requires Inv(s) && Step(s, Reopen).Some?
    ensures Inv(Step(s, Reopen).value)
  {
    DirSynced(s, Step(s, Reopen).value);
  }

  lemma CommitStep(s: State)
    requires Inv(s) && Step(s, Commit).Some?
    ensures Inv(Step(s, Commit).value)
  {
    DirSynced(s, Step(s, Commit).value);
  }

  /** While the only directory state has the log, the database file may hold anything. */
  lemma DbWrite(s: State, t: State, file: File)
    requires Wf(s.disk) && AllSafe(s) && Log in Cur(s.disk) && |s.disk.dirs| == 1 && !Stale(s, Cur(s.disk))
    requires t.disk == Overwrite(s.disk, Db, file) && t.base == s.base && t.outcome == s.outcome
    ensures AllSafe(t) && !Stale(t, Cur(t.disk))
  {
    assert SafeAt(s, |s.disk.dirs| - 1);
    assert Safe(t, Cur(t.disk));
  }

  lemma FnSteps(s: State, e: Event)
    requires Inv(s) && (e.Change? || e in {FnFails, Flush, FlushFails}) && Step(s, e).Some?
    ensures Inv(Step(s, e).value)
  {
    var t := Step(s, e).value;
    match e
    case Change(image) => DbWrite(s, t, File(image, false));
    case FnFails => GivenUp(s, t);
    case FlushFails => GivenUp(s, t);
    case Flush => DbWrite(s, t, File(Contents(s.disk, Db).bytes, true));
  }

  /** Removing the log of a database that is whole. */
  lemma LogRemoved(s: State, t: State)
    requires Inv(s) && Log in Cur(s.disk) && Contents(s.disk, Db).synced && (|s.disk.dirs| == 1 || Contents(s.disk, Db).bytes == s.base)
    requires t.disk == Remove(s.disk, Log) && SameUpdate(s, t)
    ensures AllSafe(t)
  {
    assert SafeAt(s, |s.disk.dirs| - 1);
    forall k: nat | k < |t.disk.dirs|
      ensures SafeAt(t, k)
    {
      if k < |s.disk.dirs| {
        assert SafeAt(s, k);
        SafeWithoutLog(s, t, s.disk.dirs[k]);
      } else {
        assert t.disk.dirs[k] == Cur(s.disk) - {Log};
      }
    }
  }

  /** The states before the removal are as safe as they were, if the database is the image they are held to. */
  lemma SafeWithoutLog(s: State, t: State, dir: Dir)
    requires Wf(s.disk) && Log in Cur(s.disk) && t.disk == Remove(s.disk, Log) && SameUpdate(s, t)
    requires GoodDir(dir, |s.disk.files|) && Safe(s, dir) && (Log in dir || Contents(s.disk, Db).bytes == s.base)
    ensures Safe(t, dir)
  {
  }

  lemma RemoveLogStep(s: State)
    requires Inv(s) && Step(s, RemoveLog).Some?
    ensures Inv(Step(s, RemoveLog).value)
  {
    LogRemoved(s, Step(s, RemoveLog).value);
  }

  /** An error once the new image is flushed: with the log still there, and with the log gone. */
  lemma CommitFails(s: State, e: Event)
    requires Inv(s) && (e == RemoveFails || e == SyncFails) && Step(s, e).Some?
    ensures Inv(Step(s, e).value)
  {
    GivenUp(s, Step(s, e).value);
  }

  lemma RollbackFailsStep(s: State)
    requires Inv(s) && Step(s, RollbackFails).Some?
    ensures Inv(Step(s, RollbackFails).value)
  {
    GivenPc(s, Step(s, RollbackFails).value);
  }

  lemma RemoveBackStep(s: State)
    requires Inv(s) && Step(s, RemoveBack).Some?
    ensures Inv(Step(s, RemoveBack).value)
  {
    LogRemoved(s, Step(s, RemoveBack).value);
  }

  /** The log that recovery reads is whole. */
  lemma LogWhole(s: State)
    requires Inv(s) && Log in Cur(s.disk)
    ensures HasMagic(Contents(s.disk, Log).bytes) && Contents(s.disk, Log).bytes[|MAGIC|..] == s.base
  {
    assert SafeAt(s, |s.disk.dirs| - 1);
    assert (MAGIC + s.base)[|MAGIC|..] == s.base;
  }

  lemma RecoverStep(s: State)
    requires Inv(s) && Step(s, Recover).Some?
    ensures Inv(Step(s, Recover).value)
  {
    if Log in Cur(s.disk) {
      RecoverByLog(s);
    } else {
      GivenPc(s, Step(s, Recover).value);
    }
  }

  lemma RecoverByLog(s: State)
    requires Inv(s) && Step(s, Recover).Some? && Log in Cur(s.disk)
    ensures Inv(Step(s, Recover).value)
  {
    assert SafeAt(s, |s.disk.dirs| - 1);
    CreateSafe(s, Step(s, Recover).value, Recovering);
  }

  /** The directory states know nothing of the point the calls have reached. */
  lemma GivenPc(s: State, t: State)
    requires Wf(s.disk) && AllSafe(s) && t.disk == s.disk && SameUpdate(s, t)
    ensures AllSafe(t)
  {
    forall k: nat | k < |t.disk.dirs|
      ensures SafeAt(t, k)
    {
      assert SafeAt(s, k);
    }
  }

  lemma FillBackStep(s: State)
    requires Inv(s) && Step(s, FillBack).Some?
    ensures Inv(Step(s, FillBack).value)
  {
    LogWhole(s);
    ScratchWrite(s, Step(s, FillBack).value, Recovering, File(s.base, false));
  }

  lemma SyncBackStep(s: State)
    requires Inv(s) && Step(s, SyncBack).Some?
    ensures Inv(Step(s, SyncBack).value)
  {
    ScratchWrite(s, Step(s, SyncBack).value, Recovering, File(s.base, true));
  }

  lemma RecoverFailsStep(s: State)
    requires Inv(s) && Step(s, RecoverFails).Some?
    ensures Inv(Step(s, RecoverFails).value)
  {
    var t := Step(s, RecoverFails).value;
    if s.pc in {BackNamed, BackGone} {
      GivenPc(s, t);
    } else {
      ScratchGone(s, t, Recovering);
    }
  }

  lemma NameBackStep(s: State)
    requires Inv(s) && Step(s, NameBack).Some?
    ensures Inv(Step(s, NameBack).value)
  {
    var t := Step(s, NameBack).value;
    assert SafeAt(s, |s.disk.dirs| - 1);
    MoreDir(s, t, (Cur(s.disk) - {Recovering})[Db := Cur(s.disk)[Recovering]]);
  }

  lemma KillStep(s: State)
    requires Inv(s) && Step(s, Kill).Some?
    ensures Inv(Step(s, Kill).value)
  {
    var t := Step(s, Kill).value;
    if s.outcome == InFlight {
      GivenUp(s, t);
    } else {
      GivenPc(s, t);
    }
  }

  lemma CrashStep(s: State, k: nat, junk: seq<Bytes>)
    requires Inv(s) && Step(s, Crash(k, junk)).Some? && !Stale(s, s.disk.dirs[k])
    ensures Inv(Step(s, Crash(k, junk)).value)
  {
    var t := Step(s, Crash(k, junk)).value;
    assert SafeAt(s, k);
    assert Safe(t, s.disk.dirs[k]);
  }

  /** The event is not a crash into a directory state with a stale log. */
  predicate Fresh(s: State, e: Event)
    requires Wf(s.disk)
  {
    e.Crash? && e.k < |s.disk.dirs| ==> !Stale(s, s.disk.dirs[e.k])
  }

  predicate Fair(s: State, e: Event)
    requires Wf(s.disk)
  {
    Fresh(s, e) && Prudent(s, e)
  }

  lemma StepKeeps(s: State, e: Event)
    requires Inv(s) && Step(s, e).Some? && Fair(s, e)
    ensures Inv(Step(s, e).value)
  {
    match e
    case OpenTmp => OpenTmpStep(s);
    case FillTmp => FillTmpStep(s);
    case SyncTmp => SyncTmpStep(s);
    case LogFails => LogFailsStep(s);
    case NameLog => NameLogStep(s);
    case SyncLogDir => SyncLogDirStep(s);
    case Change(_) => FnSteps(s, e);
    case FnFails => FnSteps(s, e);
    case Flush => FnSteps(s, e);
    case FlushFails => FnSteps(s, e);
    case RemoveFails => CommitFails(s, e);
    case SyncFails => CommitFails(s, e);
    case RollbackFails => RollbackFailsStep(s);
    case RemoveLog => RemoveLogStep(s);
    case Commit => CommitStep(s);
    case Recover => RecoverStep(s);
    case FillBack => FillBackStep(s);
    case SyncBack => SyncBackStep(s);
    case RecoverFails => RecoverFailsStep(s);
    case NameBack => NameBackStep(s);
    case RemoveBack => RemoveBackStep(s);
    case Reopen => ReopenStep(s);
    case Kill => KillStep(s);
    case Crash(k, junk) => CrashStep(s, k, junk);
  }

  /** No crash of the run is into a directory state with a stale log, and every Update of the run is prudent. */
  predicate AllFair(s: State, events: seq<Event>)
    requires Wf(s.disk)
    decreases |events|
  {
    events != [] ==> Fair(s, events[0]) && (Step(s, events[0]).Some? ==> AllFair(Step(s, events[0]).value, events[1..]))
  }

  lemma {:induction false} RunKeeps(s: State, events: seq<Event>)
    requires Inv(s) && Run(s, events).Some? && AllFair(s, events)
    ensures Inv(Run(s, events).value)
    decreases |events|
  {
    if events != [] {
      StepKeeps(s, events[0]);
      RunKeeps(Step(s, events[0]).value, events[1..]);
    }
  }

  /**
   * What an Update that fails leaves, by the call that failed.  Until the log has its name only the scratch
   * file goes; from then on the disk stays as it is and the process is stuck with the log, unless the log
   * was removed already.
   */
  lemma FailureLeaves(s: State, e: Event)
    requires Inv(s) && e in {LogFails, FlushFails, RemoveFails, SyncFails}
    ensures Step(s, e).Some? <==>
      || (e == LogFails && s.pc in {TmpOpen, TmpFull, TmpSynced, LogNamed})
      || (e == FlushFails && s.pc == Running) || (e == RemoveFails && s.pc == Flushed) || (e == SyncFails && s.pc == LogGone)
    ensures Step(s, e).Some? ==>
      var t := Step(s, e).value;
      && t.outcome == (if e == SyncFails then Interrupted else Failed) && t.db == s.db && t.base == s.base
      && t.disk == (if e == LogFails && s.pc != LogNamed then Remove(s.disk, LogTmp) else s.disk)
      && t.pc == (if Log in Cur(s.disk) || s.db == Unusable then Stuck else Idle)
  {
  }

  /**
   * What a recovery that fails leaves: its scratch file is removed, unless that has become the database.  Open
   * can then only be tried again; inside a rollback the process goes on with a closed pager.
   */
  lemma RecoveryLeaves(s: State, e: Event)
    requires Inv(s) && (e == RecoverFails || e == RollbackFails)
    ensures Step(s, e).Some? <==>
      if e == RollbackFails then s.pc == Down && s.db == Unusable else s.pc in {BackOpen, BackFull, BackSynced, BackNamed, BackGone}
    ensures Step(s, e).Some? ==>
      var t := Step(s, e).value;
      && SameUpdate(s, t) && t.db == s.db && t.pc == (if s.db == Absent then Down else Stuck)
      && t.disk == (if s.pc in {BackOpen, BackFull, BackSynced} then Remove(s.disk, Recovering) else s.disk)
  {
  }

  // ---- crash atomicity ----

  /** What an open database holds, by the way the latest Update ended. */
  predicate Settled(s: State)
    requires Wf(s.disk)
  {
    var image := Contents(s.disk, Db).bytes;
    && Contents(s.disk, Db).synced
    && match s.outcome
       case InFlight => false
       case Committed => s.next == Some(image)
       case Failed => image == s.base
       case Interrupted => image == s.base || s.next == Some(image)
  }

  lemma IdleSettled(s: State)
    requires Inv(s) && s.pc == Idle
    ensures Settled(s)
  {
    assert SafeAt(s, |s.disk.dirs| - 1);
  }

  lemma InitialInv(s: State)
    requires Initial(s)
    ensures Inv(s)
  {
    assert SafeAt(s, |s.disk.dirs| - 1);
  }

  /**
   * Whatever happened, deaths and crashes inside recovery included, an open database holds the flushed
   * image of the latest Update once that returned nil, the image from before it when it returned an
   * error, and one of the two when it was cut off, as long as no crash brought back a stale log and
   * no Update was started on a database that an Update before it left half-changed.
   */
  lemma CrashAtomic(s: State, events: seq<Event>)
    requires Initial(s) && Run(s, events).Some? && Run(s, events).value.pc == Idle && AllFair(s, events)
    ensures Settled(Run(s, events).value)
  {
    InitialInv(s);
    RunKeeps(s, events);
    IdleSettled(Run(s, events).value);
  }

  /** The calls recovery makes when there is a log, and the points they start from. */
  const RECOVERY := [Recover, FillBack, SyncBack, NameBack, RemoveBack, Reopen]
  const POINTS := [Down, BackOpen, BackFull, BackSynced, BackNamed, BackGone, Idle]

  /** The point a recovery event leads to, from the point it starts at. */
  ghost predicate Leads(s: State, e: Event, t: State) {
    && Wf(s.disk) && Step(s, e) == Some(t) && Inv(t) && t.base == s.base
  }

  lemma RecoveryStarts(s: State, e: Event) returns (t: State)
    requires Inv(s) && Log in Cur(s.disk)
    requires (s.pc == Down && e == Recover) || (s.pc == BackOpen && e == FillBack) || (s.pc == BackFull && e == SyncBack)
    ensures Leads(s, e, t) && Log in Cur(t.disk)
    ensures t.pc == if s.pc == Down then BackOpen else if s.pc == BackOpen then BackFull else BackSynced
  {
    LogWhole(s);
    StepKeeps(s, e);
    t := Step(s, e).value;
  }

  lemma RecoveryEnds(s: State, e: Event) returns (t: State)
    requires Inv(s) && (s.pc != BackGone ==> Log in Cur(s.disk))
    requires (s.pc == BackSynced && e == NameBack) || (s.pc == BackNamed && e == RemoveBack) || (s.pc == BackGone && e == Reopen)
    ensures Leads(s, e, t) && (s.pc == BackSynced ==> Log in Cur(t.disk))
    ensures t.pc == if s.pc == BackSynced then BackNamed else if s.pc == BackNamed then BackGone else Idle
    ensures s.pc == BackGone ==> Contents(t.disk, Db).bytes == s.base
  {
    StepKeeps(s, e);
    t := Step(s, e).value;
  }

  lemma RecoveryStep(s: State, i: nat) returns (t: State)
    requires Inv(s) && i < 6 && s.pc == POINTS[i] && (i < 5 ==> Log in Cur(s.disk))
    ensures Leads(s, RECOVERY[i], t) && t.pc == POINTS[i + 1]
    ensures i < 4 ==> Log in Cur(t.disk)
    ensures i == 5 ==> Contents(t.disk, Db).bytes == s.base
  {
    if i < 3 {
      t := RecoveryStarts(s, RECOVERY[i]);
    } else {
      t := RecoveryEnds(s, RECOVERY[i]);
    }
  }

  lemma {:induction false} RecoveryFrom(s: State, i: nat)
    requires Inv(s) && i < 6 && s.pc == POINTS[i] && (i < 5 ==> Log in Cur(s.disk))
    ensures Run(s, RECOVERY[i..]).Some? && Restored(Run(s, RECOVERY[i..]).value, s.base)
    decreases 6 - i
  {
    var t := RecoveryStep(s, i);
    RunStep(s, t, RECOVERY[i..]);
    assert RECOVERY[i..][1..] == RECOVERY[i + 1..];
    if i < 5 {
      RecoveryFrom(t, i + 1);
    }
  }

  lemma RunStep(s: State, t: State, events: seq<Event>)
    requires Wf(s.disk) && events != [] && Step(s, events[0]) == Some(t)
    ensures Run(s, events) == Run(t, events[1..])
  {
  }

  lemma RunFrom(s: State, u: State, first: seq<Event>, rest: seq<Event>, all: seq<Event>)
    requires Wf(s.disk) && Wf(u.disk) && first != [] && all == first + rest && Step(s, first[0]) == Some(u)
    ensures Run(s, all) == Run(u, first[1..] + rest)
  {
    assert all[0] == first[0] && all[1..] == first[1..] + rest;
    RunStep(s, u, all);
  }

  lemma {:induction false} RunJoin(s: State, t: State, first: seq<Event>, rest: seq<Event>)
    requires Wf(s.disk) && Run(s, first) == Some(t)
    ensures Run(s, first + rest) == Run(t, rest)
    decreases |first|
  {
    if first == [] {
      assert first + rest == rest;
    } else {
      var u := Step(s, first[0]).value;
      RunJoin(u, t, first[1..], rest);
      RunFrom(s, u, first, rest, first + rest);
    }
  }

  predicate Restored(s: State, image: Bytes)
    requires Wf(s.disk)
  {
    s.pc == Idle && Contents(s.disk, Db).bytes == image
  }

  /** The calls of recovery, with a log and without. */
  function Recovery(dir: Dir): seq<Event> {
    if Log in dir then RECOVERY else [Recover]
  }

  lemma Reopened(s: State)
    requires Inv(s) && s.pc == Down
    ensures Run(s, Recovery(Cur(s.disk))).Some? && Restored(Run(s, Recovery(Cur(s.disk))).value, Image(s))
  {
    if Log in Cur(s.disk) {
      ReopenedByLog(s);
    } else {
      ReopenedAsIs(s);
    }
  }

  lemma ReopenedByLog(s: State)
    requires Inv(s) && s.pc == Down && Log in Cur(s.disk)
    ensures Run(s, RECOVERY).Some? && Restored(Run(s, RECOVERY).value, s.base)
  {
    RecoveryFrom(s, 0);
    assert RECOVERY[0..] == RECOVERY;
  }

  lemma ReopenedAsIs(s: State)
    requires Wf(s.disk) && s.pc == Down && Log !in Cur(s.disk)
    ensures Run(s, [Recover]).Some? && Restored(Run(s, [Recover]).value, Contents(s.disk, Db).bytes)
  {
    var t := s.(pc := Idle, db := Usable);
    RunStep(s, t, [Recover]);
    assert Run(t, []) == Some(t);
  }

  /**
   * Open after a crash never refuses its log: it can always run to the end, and plays back a log it
   * finds, which holds the image from before the latest Update.
   */
  lemma RecoveryCompletes(s: State, events: seq<Event>)
    requires Initial(s) && Run(s, events).Some? && Run(s, events).value.pc == Down && AllFair(s, events)
    ensures var t := Run(s, events).value;
            var r := Run(t, Recovery(Cur(t.disk)));
            r.Some? && Restored(r.value, if Log in Cur(t.disk) then t.base else Contents(t.disk, Db).bytes)
  {
    InitialInv(s);
    RunKeeps(s, events);
    Reopened(Run(s, events).value);
  }

  /**
   * A crash while fn runs may leave any bytes at all in a database file that was written and not flushed; the
   * database is then opened with the image from before the Update.
   */
  lemma TornRecovers(s: State, torn: Bytes) returns (junk: seq<Bytes>, t: State, r: State)
    requires Inv(s) && s.pc == Running && !Contents(s.disk, Db).synced
    ensures Step(s, Crash(0, junk)) == Some(t) && Wf(t.disk) && Contents(t.disk, Db).bytes == torn
    ensures Run(t, RECOVERY) == Some(r) && Wf(r.disk) && Restored(r, s.base)
  {
    junk := seq(|s.disk.files|, i => torn);
    t := Step(s, Crash(0, junk)).value;
    CrashStep(s, 0, junk);
    TornLogged(s, t, junk);
    ReopenedByLog(t);
    r := Run(t, RECOVERY).value;
  }

  lemma TornLogged(s: State, t: State, junk: seq<Bytes>)
    requires Inv(s) && s.pc == Running && !Contents(s.disk, Db).synced && Step(s, Crash(0, junk)) == Some(t)
    ensures Wf(t.disk) && t.pc == Down && t.base == s.base && Log in Cur(t.disk)
    ensures Cur(s.disk)[Db] < |junk| && Contents(t.disk, Db).bytes == junk[Cur(s.disk)[Db]]
  {
    assert GoodDir(Cur(s.disk), |s.disk.files|);
  }
}
