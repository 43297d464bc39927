/** A repository over its life: backups that finish or fail, commits, and garbage collections. */
module Repository {
  import opened Bytes
  import opened Options
  import opened Seqs
  import opened ChunkStore
  import opened Feed
  import opened GarbageCollect
  import Pipeline
  import FastCdc

  // ---- manifests ----

  function DigitValue(c: char): Option<nat> {
    if '0' <= c <= '9' then Some(c as int - '0' as int)
    else if 'a' <= c <= 'f' then Some(c as int - 'a' as int + 10)
    else if 'A' <= c <= 'F' then Some(c as int - 'A' as int + 10)
    else None
  }

  function UnHex(s: string): Option<Bytes> {
    if |s| == 0 then Some([])
    else if |s| == 1 then None
    else
      var hi, lo, rest := DigitValue(s[0]), DigitValue(s[1]), UnHex(s[2..]);
      if hi.None? || lo.None? || rest.None? || hi.value > 15 || lo.value > 15 then None
      else Some([16 * hi.value + lo.value] + rest.value)
  }

  function ParseHash(s: string): Option<Bytes> {
    var b := UnHex(s);
    if b.None? || |b.value| != HASH_SIZE then None else b
  }

  lemma {:induction false} HexRoundTrip(b: Bytes)
    ensures UnHex(Hex(b)) == Some(b)
  {
    if |b| > 0 {
      HexRoundTrip(b[1..]);
      HexByte(b[0], b[1..]);
      HeadTail(b);
    }
  }

  lemma HexByte(x: Byte, rest: Bytes)
    requires UnHex(Hex(rest)) == Some(rest)
    ensures UnHex([DIGITS[x / 16], DIGITS[x % 16]] + Hex(rest)) == Some([x] + rest)
  {
    DigitRoundTrip(x / 16);
    DigitRoundTrip(x % 16);
    UnHexTwo(DIGITS[x / 16], DIGITS[x % 16], Hex(rest), x / 16, x % 16, rest);
  }

  lemma UnHexTwo(hi: char, lo: char, s: string, x: nat, y: nat, rest: Bytes)
    requires DigitValue(hi) == Some(x) && DigitValue(lo) == Some(y) && x < 16 && y < 16 && UnHex(s) == Some(rest)
    ensures UnHex([hi, lo] + s) == Some([16 * x + y] + rest)
  {
    assert ([hi, lo] + s)[2..] == s;
  }

  lemma DigitRoundTrip(n: nat)
    requires n < 16
    ensures DigitValue(DIGITS[n]) == Some(n)
  {
  }

  function ChunkFromPipeline(r: Ref): ChunkRef {
    ChunkRef(Hex(r.hash), r.key, r.offset, r.size, r.storedSize, r.compression, r.encryption, r.keyId)
  }

  function ChunksFromPipeline(rs: seq<Ref>): (r: seq<ChunkRef>)
    ensures |r| == |rs| && forall i | 0 <= i < |rs| :: r[i] == ChunkFromPipeline(rs[i])
  {
    seq(|rs|, i requires 0 <= i < |rs| => ChunkFromPipeline(rs[i]))
  }

  /** References from position n of a manifest on, numbered by position; None when a hash is malformed. */
  function PipelineRefs(cs: seq<ChunkRef>, n: nat): Option<seq<Ref>> {
    if |cs| == 0 then Some([])
    else
      var hash, rest := ParseHash(cs[0].hash), PipelineRefs(cs[1..], n + 1);
      if hash.None? || rest.None? then None
      else Some([FromManifest(cs[0], hash.value, n)] + rest.value)
  }

  function FromManifest(c: ChunkRef, hash: Bytes, n: nat): Ref {
    Ref(n, hash, c.key, c.offset, c.size, c.storedSize, c.compression, c.encryption, c.keyId, false)
  }

  /** References without their duplicate flags. */
  function Unflagged(rs: seq<Ref>): (r: seq<Ref>)
    ensures |r| == |rs| && forall i | 0 <= i < |rs| :: r[i] == rs[i].(duplicate := false)
  {
    seq(|rs|, i requires 0 <= i < |rs| => rs[i].(duplicate := false))
  }

  /** Writing references to a manifest and reading them back loses the duplicate flag only. */
  lemma {:induction false} ManifestRoundTrip(rs: seq<Ref>, k: nat)
    requires forall i | 0 <= i < |rs| :: |rs[i].hash| == HASH_SIZE && rs[i].seqNo == k + i
    ensures PipelineRefs(ChunksFromPipeline(rs), k) == Some(Unflagged(rs))
    decreases |rs|
  {
    if |rs| > 0 {
      ManifestRoundTrip(rs[1..], k + 1);
      HexRoundTrip(rs[0].hash);
      ChunksHead(rs);
      RefsHead(ChunkFromPipeline(rs[0]), ChunksFromPipeline(rs[1..]), k, rs[0].hash, Unflagged(rs[1..]));
      UnflaggedHead(rs);
    } else {
      assert Unflagged(rs) == [];
    }
  }

  lemma ChunksHead(rs: seq<Ref>)
    requires |rs| > 0
    ensures ChunksFromPipeline(rs) == [ChunkFromPipeline(rs[0])] + ChunksFromPipeline(rs[1..])
  {
  }

  lemma RefsHead(c: ChunkRef, cs: seq<ChunkRef>, n: nat, hash: Bytes, rest: seq<Ref>)
    requires ParseHash(c.hash) == Some(hash) && PipelineRefs(cs, n + 1) == Some(rest)
    ensures PipelineRefs([c] + cs, n) == Some([FromManifest(c, hash, n)] + rest)
  {
    assert ([c] + cs)[1..] == cs;
  }

  lemma UnflaggedHead(rs: seq<Ref>)
    requires |rs| > 0
    ensures Unflagged(rs) == [rs[0].(duplicate := false)] + Unflagged(rs[1..])
  {
  }

  /** The references of a manifest still describe the chunks. */
  lemma ManifestDescribes(env: Env, chunks: seq<FastCdc.Chunk>, rs: seq<Ref>)
    requires Describes(env, chunks, rs)
    ensures PipelineRefs(ChunksFromPipeline(rs), 0).Some? && Describes(env, chunks, PipelineRefs(ChunksFromPipeline(rs), 0).value)
  {
    forall i | 0 <= i < |rs|
      ensures |rs[i].hash| == HASH_SIZE && rs[i].seqNo == 0 + i && Feed.RefersTo(env, chunks, Unflagged(rs)[i], i)
    {
      assert Feed.RefersTo(env, chunks, rs[i], i);
    }
    ManifestRoundTrip(rs, 0);
  }

  /** The manifest of a backup has one object with all its chunks. */
  function ManifestOf(backupId: string, rs: seq<Ref>): Manifest {
    Manifest(backupId, [ChunksFromPipeline(rs)])
  }

  /** What restoring a stored manifest writes. */
  function RestoreManifest(env: Env, json: Json, objects: map<string, Bytes>, mk: string): Option<Bytes> {
    if mk !in objects then None
    else
      var m := LoadManifest(json, objects[mk]);
      if m.None? || |m.value.objects| != 1 then None
      else
        var rs := PipelineRefs(m.value.objects[0], 0);
        if rs.None? then None else Pieces(env, objects, SortRefs(rs.value))
  }

  /** Parsing undoes encoding. */
  ghost predicate LawfulJson(json: Json) {
    forall m: Manifest :: json.parse(json.encode(m)) == Some(m)
  }

  // ---- the life of a repository ----

  /** originals records the chunks each committed manifest was made from. */
  datatype Repo = Repo(objects: map<string, Bytes>, originals: map<string, seq<FastCdc.Chunk>>)

  datatype Event =
    | Backup(chunks: seq<FastCdc.Chunk>, workers: nat, capacity: nat, run: seq<Pipeline.Event>)
    | Commit(chunks: seq<FastCdc.Chunk>, workers: nat, capacity: nat, run: seq<Pipeline.Event>, mk: string, backupId: string)
    | Forget(mk: string)
    | Gc(after: map<string, Bytes>, finished: bool)

  /**
   * A backup that stops anywhere, a backup that finishes and is committed, a manifest deleted from
   * outside, or a collection, which may be cut short, and does nothing unless it can read every manifest.
   */
  ghost predicate Step(env: Env, json: Json, s: Repo, e: Event, s': Repo) {
    match e
    case Backup(chunks, workers, capacity, run) =>
      var r := Pipeline.Run(env, Pipeline.Start(chunks, workers, capacity, s.objects), run);
      Pipeline.Distinct(env, chunks) && r.Some? && s' == Repo(r.value.store, s.originals)
    case Commit(chunks, workers, capacity, run, mk, backupId) =>
      var r := Pipeline.Run(env, Pipeline.Start(chunks, workers, capacity, s.objects), run);
      && Pipeline.Distinct(env, chunks) && workers > 0 && r.Some? && Pipeline.Succeeds(r.value) && !r.value.cancelled && MANIFESTS <= mk
      && s' == Repo(r.value.store[mk := json.encode(ManifestOf(backupId, Result(env, r.value)))], s.originals[mk := chunks])
    case Forget(mk) =>
      MANIFESTS <= mk && s' == Repo(s.objects - {mk}, s.originals)
    case Gc(after, finished) =>
      && Collected(json, s.objects, after) && (finished ==> NoOrphans(json, s.objects, after)) && s' == Repo(after, s.originals)
      && (finished || after != s.objects ==> AllLoad(json, s.objects))
  }

  ghost predicate Life(env: Env, json: Json, states: seq<Repo>, events: seq<Event>) {
    |states| == |events| + 1 && forall i | 0 <= i < |events| :: Step(env, json, states[i], events[i], states[i + 1])
  }

  /** The manifest describes the chunks, and the backend has them all. */
  ghost predicate Kept(env: Env, json: Json, objects: map<string, Bytes>, mk: string, chunks: seq<FastCdc.Chunk>) {
    && Pipeline.Distinct(env, chunks) && Complete(env, chunks, objects)
    && mk in objects && Encodes(env, json, objects[mk], chunks)
  }

  ghost predicate Encodes(env: Env, json: Json, data: Bytes, chunks: seq<FastCdc.Chunk>) {
    exists backupId: string, rs: seq<Ref> :: json.parse(data) == Some(ManifestOf(backupId, rs)) && Describes(env, chunks, rs)
  }

  ghost predicate AllKept(env: Env, json: Json, s: Repo) {
    forall mk | mk in s.objects && MANIFESTS <= mk :: mk in s.originals && Kept(env, json, s.objects, mk, s.originals[mk])
  }

  lemma DataNotManifest(key: string)
    requires DATA <= key
    ensures !(MANIFESTS <= key)
  {
    assert key[0] == DATA[0] == 'd';
  }

  /** A backup writes good copies of its own chunks, so it spoils no chunk that is there. */
  lemma WrotePresent(env: Env, chunks: seq<FastCdc.Chunk>, before: map<string, Bytes>, after: map<string, Bytes>, data: Bytes)
    requires Pipeline.Wrote(env, chunks, before, after) && Present(env, data, before) && Unforged(env, data)
    ensures Present(env, data, after)
  {
    var key := ContentKey(env.hash(data));
    assert key in after && Pipeline.Written(env, chunks, before, after, key);
    if !(after[key] == before[key]) {
      var i: nat :| i < |chunks| && |env.hash(chunks[i].data)| == HASH_SIZE && key == ContentKey(env.hash(chunks[i].data)) && Holds(env, after[key], chunks[i].data);
      KeyInjective(env.hash(data), env.hash(chunks[i].data));
    }
  }

  lemma WroteManifest(env: Env, chunks: seq<FastCdc.Chunk>, before: map<string, Bytes>, after: map<string, Bytes>, mk: string)
    requires Pipeline.Wrote(env, chunks, before, after) && mk in after && MANIFESTS <= mk
    ensures mk in before && after[mk] == before[mk]
  {
    assert Pipeline.Written(env, chunks, before, after, mk);
    forall i: nat | i < |chunks| && |env.hash(chunks[i].data)| == HASH_SIZE
      ensures ContentKey(env.hash(chunks[i].data)) != mk
    {
      KeyInjective(env.hash(chunks[i].data), env.hash(chunks[i].data));
      DataNotManifest(ContentKey(env.hash(chunks[i].data)));
    }
  }

  lemma WroteKept(env: Env, json: Json, chunks: seq<FastCdc.Chunk>, s: Repo, after: map<string, Bytes>)
    requires Pipeline.Wrote(env, chunks, s.objects, after) && AllKept(env, json, s)
    ensures AllKept(env, json, Repo(after, s.originals))
  {
    forall mk | mk in after && MANIFESTS <= mk
      ensures mk in s.originals && Kept(env, json, after, mk, s.originals[mk])
    {
      WroteManifest(env, chunks, s.objects, after, mk);
      forall i: nat | i < |s.originals[mk]|
        ensures Present(env, s.originals[mk][i].data, after)
      {
        assert Present(env, s.originals[mk][i].data, s.objects) && Unforged(env, s.originals[mk][i].data);
        WrotePresent(env, chunks, s.objects, after, s.originals[mk][i].data);
      }
    }
  }

  lemma BackupKeeps(env: Env, json: Json, chunks: seq<FastCdc.Chunk>, workers: nat, capacity: nat, run: seq<Pipeline.Event>, s: Repo)
    requires Lawful(env) && AllKept(env, json, s) && Pipeline.Distinct(env, chunks)
    requires Pipeline.Run(env, Pipeline.Start(chunks, workers, capacity, s.objects), run).Some?
    ensures AllKept(env, json, Repo(Pipeline.Run(env, Pipeline.Start(chunks, workers, capacity, s.objects), run).value.store, s.originals))
    ensures Pipeline.Inv(env, chunks, workers, s.objects, Pipeline.Run(env, Pipeline.Start(chunks, workers, capacity, s.objects), run).value)
  {
    Pipeline.StartInv(env, chunks, workers, capacity, s.objects);
    Pipeline.RunKeeps(env, chunks, workers, s.objects, Pipeline.Start(chunks, workers, capacity, s.objects), run);
    WroteKept(env, json, chunks, s, Pipeline.Run(env, Pipeline.Start(chunks, workers, capacity, s.objects), run).value.store);
  }

  /** Adding an object outside data/ leaves every chunk in place. */
  lemma PutManifestComplete(env: Env, chunks: seq<FastCdc.Chunk>, objects: map<string, Bytes>, mk: string, data: Bytes)
    requires Complete(env, chunks, objects) && MANIFESTS <= mk
    ensures Complete(env, chunks, objects[mk := data])
  {
    forall i: nat | i < |chunks|
      ensures Present(env, chunks[i].data, objects[mk := data])
    {
      assert Present(env, chunks[i].data, objects);
      KeyInjective(env.hash(chunks[i].data), env.hash(chunks[i].data));
      DataNotManifest(ContentKey(env.hash(chunks[i].data)));
    }
  }

  lemma CommitKeeps(env: Env, json: Json, s: Repo, chunks: seq<FastCdc.Chunk>, mk: string, backupId: string, rs: seq<Ref>)
    requires LawfulJson(json) && AllKept(env, json, s) && MANIFESTS <= mk
    requires Pipeline.Distinct(env, chunks) && Complete(env, chunks, s.objects) && Describes(env, chunks, rs)
    ensures AllKept(env, json, Repo(s.objects[mk := json.encode(ManifestOf(backupId, rs))], s.originals[mk := chunks]))
  {
    var data := json.encode(ManifestOf(backupId, rs));
    var s' := Repo(s.objects[mk := data], s.originals[mk := chunks]);
    forall k | k in s'.objects && MANIFESTS <= k
      ensures k in s'.originals && Kept(env, json, s'.objects, k, s'.originals[k])
    {
      PutManifestComplete(env, s'.originals[k], s.objects, mk, data);
      if k == mk {
        assert json.parse(data) == Some(ManifestOf(backupId, rs));
      }
    }
  }

  lemma ForgetKeeps(env: Env, json: Json, s: Repo, mk: string)
    requires AllKept(env, json, s) && MANIFESTS <= mk
    ensures AllKept(env, json, Repo(s.objects - {mk}, s.originals))
  {
    forall k | k in s.objects - {mk} && MANIFESTS <= k
      ensures k in s.originals && Kept(env, json, s.objects - {mk}, k, s.originals[k])
    {
      var chunks := s.originals[k];
      forall i: nat | i < |chunks|
        ensures Present(env, chunks[i].data, s.objects - {mk})
      {
        assert Present(env, chunks[i].data, s.objects);
        KeyInjective(env.hash(chunks[i].data), env.hash(chunks[i].data));
        DataNotManifest(ContentKey(env.hash(chunks[i].data)));
      }
    }
  }

  // ---- collections ----

  lemma {:induction false} KeysOfRefs(rs: seq<Ref>, i: nat)
    requires i < |rs| && rs[i].key != ""
    ensures rs[i].key in KeysOf(ChunksFromPipeline(rs))
    decreases i
  {
    assert ChunksFromPipeline(rs)[1..] == ChunksFromPipeline(rs[1..]);
    if i > 0 {
      KeysOfRefs(rs[1..], i - 1);
    }
  }

  lemma {:induction false} KeyOfSomeRef(rs: seq<Ref>, key: string) returns (i: nat)
    requires key in KeysOf(ChunksFromPipeline(rs))
    ensures i < |rs| && rs[i].key == key
    decreases |rs|
  {
    assert ChunksFromPipeline(rs)[1..] == ChunksFromPipeline(rs[1..]);
    if rs[0].key == key {
      i := 0;
    } else {
      i := KeyOfSomeRef(rs[1..], key);
      i := i + 1;
    }
  }

  lemma OneObject(backupId: string, rs: seq<Ref>)
    ensures ManifestKeys(ManifestOf(backupId, rs).objects) == KeysOf(ChunksFromPipeline(rs))
  {
    var objects := ManifestOf(backupId, rs).objects;
    assert objects[1..] == [];
    assert ManifestKeys(objects[1..]) == {};
  }

  /** A committed manifest refers to every chunk it was made from. */
  lemma ChunkReferenced(env: Env, json: Json, objects: map<string, Bytes>, mk: string, chunks: seq<FastCdc.Chunk>, i: nat)
    requires Kept(env, json, objects, mk, chunks) && MANIFESTS <= mk && i < |chunks| && |env.hash(chunks[i].data)| == HASH_SIZE
    ensures Referenced(json, objects, ContentKey(env.hash(chunks[i].data)))
  {
    var backupId: string, rs: seq<Ref> :| json.parse(objects[mk]) == Some(ManifestOf(backupId, rs)) && Describes(env, chunks, rs);
    assert Feed.RefersTo(env, chunks, rs[i], i);
    KeysOfRefs(rs, i);
    OneObject(backupId, rs);
    assert GarbageCollect.RefersTo(json, objects, mk, rs[i].key);
  }

  lemma GcPresent(env: Env, json: Json, before: map<string, Bytes>, after: map<string, Bytes>, data: Bytes)
    requires Collected(json, before, after) && Present(env, data, before) && Referenced(json, before, ContentKey(env.hash(data)))
    ensures Present(env, data, after)
  {
  }

  lemma GcKeeps(env: Env, json: Json, s: Repo, after: map<string, Bytes>)
    requires AllKept(env, json, s) && Collected(json, s.objects, after)
    ensures AllKept(env, json, Repo(after, s.originals))
  {
    forall mk | mk in after && MANIFESTS <= mk
      ensures mk in s.originals && Kept(env, json, after, mk, s.originals[mk])
    {
      var chunks := s.originals[mk];
      forall i: nat | i < |chunks|
        ensures Present(env, chunks[i].data, after)
      {
        assert Present(env, chunks[i].data, s.objects);
        ChunkReferenced(env, json, s.objects, mk, chunks, i);
        GcPresent(env, json, s.objects, after, chunks[i].data);
      }
    }
  }

  /** A key some manifest refers to is a chunk that is there. */
  lemma ReferencedPresent(env: Env, json: Json, s: Repo, key: string)
    requires AllKept(env, json, s) && Referenced(json, s.objects, key)
    ensures key in s.objects && DATA <= key
  {
    var mk: string :| GarbageCollect.RefersTo(json, s.objects, mk, key);
    var chunks := s.originals[mk];
    assert Kept(env, json, s.objects, mk, chunks);
    var backupId: string, rs: seq<Ref> :| json.parse(s.objects[mk]) == Some(ManifestOf(backupId, rs)) && Describes(env, chunks, rs);
    OneObject(backupId, rs);
    var i := KeyOfSomeRef(rs, key);
    assert Feed.RefersTo(env, chunks, rs[i], i) && Present(env, chunks[i].data, s.objects);
    KeyInjective(rs[i].hash, rs[i].hash);
  }

  /** A collection changes no manifest, so the same keys are referred to. */
  lemma SameReferences(json: Json, before: map<string, Bytes>, after: map<string, Bytes>, key: string)
    requires Collected(json, before, after)
    ensures Referenced(json, before, key) <==> Referenced(json, after, key)
  {
    forall mk: string
      ensures GarbageCollect.RefersTo(json, before, mk, key) <==> GarbageCollect.RefersTo(json, after, mk, key)
    {
      if mk in before && MANIFESTS <= mk && mk !in after {
        DataNotManifest(mk);
      }
    }
    if Referenced(json, before, key) {
      var mk: string :| GarbageCollect.RefersTo(json, before, mk, key);
      assert GarbageCollect.RefersTo(json, after, mk, key);
    }
    if Referenced(json, after, key) {
      var mk: string :| GarbageCollect.RefersTo(json, after, mk, key);
      assert GarbageCollect.RefersTo(json, before, mk, key);
    }
  }

  /** After a collection that ran to its end, the chunks are exactly those some manifest refers to. */
  lemma FinishedExact(env: Env, json: Json, s: Repo, after: map<string, Bytes>, key: string)
    requires AllKept(env, json, s) && Collected(json, s.objects, after) && NoOrphans(json, s.objects, after)
    ensures key in after && DATA <= key <==> Referenced(json, after, key)
  {
    SameReferences(json, s.objects, after, key);
    GcKeeps(env, json, s, after);
    if Referenced(json, after, key) {
      ReferencedPresent(env, json, Repo(after, s.originals), key);
    }
  }

  // ---- every life ----

  lemma StepKeeps(env: Env, json: Json, s: Repo, e: Event, s': Repo)
    requires Lawful(env) && LawfulJson(json) && AllKept(env, json, s) && Step(env, json, s, e, s')
    ensures AllKept(env, json, s')
  {
    match e
    case Backup(chunks, workers, capacity, run) => BackupKeeps(env, json, chunks, workers, capacity, run, s);
    case Commit(chunks, workers, capacity, run, mk, backupId) =>
      BackupKeeps(env, json, chunks, workers, capacity, run, s);
      var p := Pipeline.Run(env, Pipeline.Start(chunks, workers, capacity, s.objects), run).value;
      FeedDescribes(env, chunks, workers, s.objects, p);
      FeedCompletes(env, chunks, workers, s.objects, p);
      CommitKeeps(env, json, Repo(p.store, s.originals), chunks, mk, backupId, Result(env, p));
    case Forget(mk) => ForgetKeeps(env, json, s, mk);
    case Gc(after, _) => GcKeeps(env, json, s, after);
  }

  lemma {:induction false} LifeKeeps(env: Env, json: Json, states: seq<Repo>, events: seq<Event>, i: nat)
    requires Lawful(env) && LawfulJson(json) && Life(env, json, states, events) && AllKept(env, json, states[0]) && i < |states|
    ensures AllKept(env, json, states[i])
    decreases i
  {
    if i > 0 {
      LifeKeeps(env, json, states, events, i - 1);
      assert Step(env, json, states[i - 1], events[i - 1], states[i - 1 + 1]);
      StepKeeps(env, json, states[i - 1], events[i - 1], states[i]);
    }
  }

  /** The stored manifest is not larger than what is read back. */
  predicate Small(objects: map<string, Bytes>, mk: string)
    requires mk in objects
  {
    |objects[mk]| <= 67_108_864
  }

  lemma KeptRestores(env: Env, json: Json, s: Repo, mk: string)
    requires AllKept(env, json, s) && mk in s.objects && MANIFESTS <= mk
    ensures mk in s.originals
    ensures RestoreManifest(env, json, s.objects, mk) == if Small(s.objects, mk) then Some(FastCdc.Join(s.originals[mk])) else None
  {
    var chunks := s.originals[mk];
    assert Kept(env, json, s.objects, mk, chunks);
    var backupId: string, rs: seq<Ref> :| json.parse(s.objects[mk]) == Some(ManifestOf(backupId, rs)) && Describes(env, chunks, rs);
    ManifestDescribes(env, chunks, rs);
    RestoreComplete(env, chunks, s.objects, PipelineRefs(ChunksFromPipeline(rs), 0).value);
  }

  /**
   * Through any life that starts without manifests, every stored manifest restores to its original
   * bytes if and only if it is not too large to be read back.
   */
  lemma EveryManifestRestores(env: Env, json: Json, states: seq<Repo>, events: seq<Event>, i: nat, mk: string)
    requires Lawful(env) && LawfulJson(json) && Life(env, json, states, events) && i < |states|
    requires forall k | k in states[0].objects :: !(MANIFESTS <= k)
    requires mk in states[i].objects && MANIFESTS <= mk
    ensures mk in states[i].originals
    ensures RestoreManifest(env, json, states[i].objects, mk) ==
            if Small(states[i].objects, mk) then Some(FastCdc.Join(states[i].originals[mk])) else None
  {
    LifeKeeps(env, json, states, events, i);
    KeptRestores(env, json, states[i], mk);
  }

  /** And after any collection that ran to its end, the chunks are exactly those the manifests refer to. */
  lemma GcExact(env: Env, json: Json, states: seq<Repo>, events: seq<Event>, i: nat, key: string)
    requires Lawful(env) && LawfulJson(json) && Life(env, json, states, events) && i < |events| && events[i].Gc? && events[i].finished
    requires forall k | k in states[0].objects :: !(MANIFESTS <= k)
    ensures key in states[i + 1].objects && DATA <= key <==> Referenced(json, states[i + 1].objects, key)
  {
    LifeKeeps(env, json, states, events, i);
    assert Step(env, json, states[i], events[i], states[i + 1]);
    FinishedExact(env, json, states[i], events[i].after, key);
  }

  ghost predicate AllSmall(objects: map<string, Bytes>) {
    forall mk | mk in objects && MANIFESTS <= mk :: Small(objects, mk)
  }

  /** The manifests of a life all parse, so those that can be read back are those that are not too large. */
  lemma LoadIfSmall(env: Env, json: Json, s: Repo)
    requires AllKept(env, json, s)
    ensures AllLoad(json, s.objects) <==> AllSmall(s.objects)
  {
    forall mk | mk in s.objects && MANIFESTS <= mk
      ensures Loads(json, s.objects, mk) <==> Small(s.objects, mk)
    {
      assert Kept(env, json, s.objects, mk, s.originals[mk]);
    }
  }

  /** What a collection that runs to its end leaves. */
  ghost function Rid(json: Json, objects: map<string, Bytes>): map<string, Bytes> {
    map k | k in objects && (DATA <= k ==> Referenced(json, objects, k)) :: objects[k]
  }

  ghost predicate CanCollect(env: Env, json: Json, s: Repo) {
    exists after: map<string, Bytes> :: Step(env, json, s, Gc(after, true), Repo(after, s.originals))
  }

  /**
   * Through any life that starts without manifests, a collection can run to its end if and only if no
   * stored manifest is too large to be read back; and while there is one, no collection deletes anything.
   */
  lemma GcFinishes(env: Env, json: Json, states: seq<Repo>, events: seq<Event>, i: nat)
    requires Lawful(env) && LawfulJson(json) && Life(env, json, states, events) && i < |states|
    requires forall k | k in states[0].objects :: !(MANIFESTS <= k)
    ensures CanCollect(env, json, states[i]) <==> AllSmall(states[i].objects)
    ensures i < |events| && events[i].Gc? && !AllSmall(states[i].objects) ==> !events[i].finished && states[i + 1] == states[i]
  {
    LifeKeeps(env, json, states, events, i);
    LoadIfSmall(env, json, states[i]);
    var after := Rid(json, states[i].objects);
    if AllSmall(states[i].objects) {
      assert Step(env, json, states[i], Gc(after, true), Repo(after, states[i].originals));
    }
    if i < |events| {
      assert Step(env, json, states[i], events[i], states[i + 1]);
    }
  }
}
