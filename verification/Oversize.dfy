/** Manifests that are written and cannot be read back: whatever the format, a long enough backup has one. */
module Oversize {
  import opened Bytes
  import opened Options
  import opened Numbers
  import opened ChunkStore
  import opened Feed
  import opened GarbageCollect
  import opened Repository
  import Pipeline
  import Progress
  import FastCdc

  // ---- there are only so many short encodings ----

  function Append(x: Bytes, b: Byte): Bytes {
    x + [b]
  }

  /** The strings of s, and those with one byte more. */
  ghost function Longer(s: set<Bytes>): set<Bytes> {
    s + set x, b: Byte | x in s && 0 <= b < 256 :: Append(x, b)
  }

  ghost function UpTo(limit: nat): set<Bytes> {
    if limit == 0 then {[]} else Longer(UpTo(limit - 1))
  }

  lemma {:induction false} InUpTo(x: Bytes, limit: nat)
    requires |x| <= limit
    ensures x in UpTo(limit)
    decreases limit
  {
    if limit > 0 {
      if |x| < limit {
        InUpTo(x, limit - 1);
      } else {
        var y, b := x[..|x| - 1], x[|x| - 1];
        InUpTo(y, limit - 1);
        assert x == Append(y, b);
      }
    }
  }

  /** No more than n strings are this short. */
  ghost predicate AtMost(n: nat, limit: nat) {
    forall s: set<Bytes> :: (forall x | x in s :: |x| <= limit) ==> |s| <= n
  }

  lemma ShortStrings(limit: nat) returns (n: nat)
    ensures AtMost(n, limit)
  {
    n := |UpTo(limit)|;
    forall s: set<Bytes> | forall x | x in s :: |x| <= limit
      ensures |s| <= n
    {
      forall x | x in s
        ensures x in UpTo(limit)
      {
        InUpTo(x, limit);
      }
      SubsetSize(s, UpTo(limit));
    }
  }

  ghost predicate AllDifferent(ms: seq<Manifest>) {
    forall i, j | 0 <= i < j < |ms| :: ms[i] != ms[j]
  }

  lemma {:induction false} Encodings(json: Json, ms: seq<Manifest>) returns (s: set<Bytes>)
    requires LawfulJson(json) && AllDifferent(ms)
    ensures |s| == |ms| && forall x | x in s :: exists i: nat :: i < |ms| && x == json.encode(ms[i])
    decreases |ms|
  {
    if ms == [] {
      s := {};
    } else {
      var n := |ms| - 1;
      var rest := Encodings(json, ms[..n]);
      assert json.encode(ms[n]) !in rest;
      s := rest + {json.encode(ms[n])};
    }
  }

  /** Of so many manifests one is longer. */
  lemma OneIsLong(json: Json, ms: seq<Manifest>, limit: nat, n: nat) returns (i: nat)
    requires LawfulJson(json) && AllDifferent(ms) && AtMost(n, limit) && |ms| > n
    ensures i < |ms| && |json.encode(ms[i])| > limit
  {
    var s := Encodings(json, ms);
    var x: Bytes :| x in s && |x| > limit;
    i :| i < |ms| && x == json.encode(ms[i]);
  }

  // ---- backups of any length ----

  /** The same chunk, n times over. */
  function Repeated(data: Bytes, n: nat): seq<FastCdc.Chunk> {
    seq(n, i requires 0 <= i < n => FastCdc.Chunk(i * |data|, |data|, data))
  }

  /** A backup of n chunks on an empty repository that succeeds, and its manifest. */
  ghost predicate Made(env: Env, data: Bytes, n: nat, run: seq<Pipeline.Event>, m: Manifest) {
    var r := Pipeline.Run(env, Pipeline.Start(Repeated(data, n), 1, 1, map[]), run);
    r.Some? && Pipeline.Succeeds(r.value) && !r.value.cancelled && m == ManifestOf("", Result(env, r.value)) && |m.objects[0]| == n
  }

  lemma BackupOf(env: Env, data: Bytes, nonce: Bytes, n: nat) returns (run: seq<Pipeline.Event>, m: Manifest)
    requires Lawful(env) && Unforged(env, data) && Progress.Ready(env, nonce)
    ensures Made(env, data, n, run, m)
  {
    var chunks := Repeated(data, n);
    var start := Pipeline.Start(chunks, 1, 1, map[]);
    run := Progress.FeedCanSucceed(env, chunks, 1, 1, map[], [], nonce);
    var s := Pipeline.Run(env, start, run).value;
    Pipeline.StartInv(env, chunks, 1, 1, map[]);
    Pipeline.RunKeeps(env, chunks, 1, map[], start, run);
    FeedDescribes(env, chunks, 1, map[], s);
    m := ManifestOf("", Result(env, s));
  }

  /** The manifests of backups of 0, 1, ... chunks. */
  lemma {:induction false} BackupsOf(env: Env, data: Bytes, nonce: Bytes, n: nat) returns (runs: seq<seq<Pipeline.Event>>, ms: seq<Manifest>)
    requires Lawful(env) && Unforged(env, data) && Progress.Ready(env, nonce)
    ensures |runs| == |ms| == n && forall i | 0 <= i < n :: Made(env, data, i, runs[i], ms[i])
  {
    runs, ms := [], [];
    if n > 0 {
      runs, ms := BackupsOf(env, data, nonce, n - 1);
      var run, m := BackupOf(env, data, nonce, n - 1);
      runs, ms := runs + [run], ms + [m];
    }
  }

  lemma MadeDiffer(env: Env, data: Bytes, runs: seq<seq<Pipeline.Event>>, ms: seq<Manifest>)
    requires |runs| == |ms| && forall i | 0 <= i < |ms| :: Made(env, data, i, runs[i], ms[i])
    ensures AllDifferent(ms)
  {
    forall i, j | 0 <= i < j < |ms|
      ensures ms[i] != ms[j]
    {
      assert Made(env, data, i, runs[i], ms[i]) && Made(env, data, j, runs[j], ms[j]);
    }
  }

  /** Some backup has a manifest of more than any given size. */
  lemma LongManifest(env: Env, json: Json, data: Bytes, nonce: Bytes, limit: nat) returns (n: nat, run: seq<Pipeline.Event>, m: Manifest)
    requires Lawful(env) && LawfulJson(json) && Unforged(env, data) && Progress.Ready(env, nonce)
    ensures Made(env, data, n, run, m) && |json.encode(m)| > limit
  {
    var short := ShortStrings(limit);
    var runs, ms := BackupsOf(env, data, nonce, short + 1);
    MadeDiffer(env, data, runs, ms);
    n := OneIsLong(json, ms, limit, short);
    run, m := runs[n], ms[n];
  }

  const FRESH := Repo(map[], map[])
  const KEY := "manifests/0"

  /**
   * The promise that what was committed can be restored fails: whatever the format, the hash and the
   * cipher, there is a backup that succeeds and is committed, restores to nothing, and keeps every
   * collection from running to its end for as long as its manifest is stored.
   */
  lemma CommittedAndLost(env: Env, json: Json, data: Bytes, nonce: Bytes) returns (e: Event, s: Repo)
    requires Lawful(env) && LawfulJson(json) && Unforged(env, data) && Progress.Ready(env, nonce)
    ensures e.Commit? && e.mk == KEY && Life(env, json, [FRESH, s], [e])
    ensures KEY in s.objects && RestoreManifest(env, json, s.objects, KEY) == None && !CanCollect(env, json, s)
  {
    var n, run, m := LongManifest(env, json, data, nonce, MAX_MANIFEST);
    var chunks := Repeated(data, n);
    e := Commit(chunks, 1, 1, run, KEY, "");
    var r := Pipeline.Run(env, Pipeline.Start(chunks, 1, 1, map[]), run).value;
    s := Repo(r.store[KEY := json.encode(m)], map[KEY := chunks]);
    assert MANIFESTS <= KEY;
    assert Step(env, json, FRESH, e, s);
    GcFinishes(env, json, [FRESH, s], [e], 1);
  }
}
