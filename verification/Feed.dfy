/** What a finished Feed returns, and restoring from it. */
module Feed {
  import opened Bytes
  import opened Options
  import opened Queues
  import opened ChunkStore
  import opened Pipeline
  import FastCdc

  /** The manifest-ready reference of a chunk. */
  datatype Ref = Ref(
    seqNo: nat, hash: Bytes, key: string, offset: nat, size: nat, storedSize: nat,
    compression: string, encryption: string, keyId: Bytes, duplicate: bool)

  /** The stored size is that of the object put, so none for a duplicate. */
  function RefOf(env: Env, t: Token): Ref {
    Ref(t.seqNo, t.hash, if |t.hash| == HASH_SIZE then ContentKey(t.hash) else "", t.offset, |t.data|, if t.duplicate then 0 else |t.payload|,
        env.algorithm, env.cipher.algorithm, env.keyId, t.duplicate)
  }

  function RefsOf(env: Env, ts: seq<Token>): (r: seq<Ref>)
    ensures |r| == |ts| && forall i | 0 <= i < |ts| :: r[i] == RefOf(env, ts[i])
  {
    seq(|ts|, i requires 0 <= i < |ts| => RefOf(env, ts[i]))
  }

  // ---- sorting by sequence number ----

  function InsertRef(r: Ref, rs: seq<Ref>): seq<Ref> {
    if |rs| == 0 || r.seqNo <= rs[0].seqNo then [r] + rs else [rs[0]] + InsertRef(r, rs[1..])
  }

  function SortRefs(rs: seq<Ref>): seq<Ref> {
    if |rs| == 0 then [] else InsertRef(rs[0], SortRefs(rs[1..]))
  }

  ghost predicate Ascending(rs: seq<Ref>) {
    forall i, j | 0 <= i < j < |rs| :: rs[i].seqNo <= rs[j].seqNo
  }

  lemma {:induction false} InsertAscending(r: Ref, rs: seq<Ref>)
    requires Ascending(rs)
    ensures Ascending(InsertRef(r, rs)) && |InsertRef(r, rs)| == |rs| + 1
    ensures forall x | x in InsertRef(r, rs) :: x == r || x in rs
  {
    if |rs| > 0 && r.seqNo > rs[0].seqNo {
      InsertAscending(r, rs[1..]);
      var tail := InsertRef(r, rs[1..]);
      forall k | 0 <= k < |tail|
        ensures rs[0].seqNo <= tail[k].seqNo
      {
        assert tail[k] in tail;
      }
    }
  }

  lemma {:induction false} SortAscending(rs: seq<Ref>)
    ensures Ascending(SortRefs(rs)) && |SortRefs(rs)| == |rs| && forall x | x in SortRefs(rs) :: x in rs
  {
    if |rs| > 0 {
      SortAscending(rs[1..]);
      InsertAscending(rs[0], SortRefs(rs[1..]));
    }
  }

  lemma {:induction false} InsertOcc(r: Ref, rs: seq<Ref>, f: Ref -> bool)
    ensures Occ(InsertRef(r, rs), f) == Occ(rs, f) + if f(r) then 1 else 0
  {
    if |rs| > 0 && r.seqNo > rs[0].seqNo {
      InsertOcc(r, rs[1..], f);
      assert ([rs[0]] + InsertRef(r, rs[1..]))[1..] == InsertRef(r, rs[1..]);
    } else {
      assert ([r] + rs)[1..] == rs;
    }
  }

  lemma {:induction false} SortOcc(rs: seq<Ref>, f: Ref -> bool)
    ensures Occ(SortRefs(rs), f) == Occ(rs, f)
  {
    if |rs| > 0 {
      SortOcc(rs[1..], f);
      InsertOcc(rs[0], SortRefs(rs[1..]), f);
    }
  }

  ghost function IsRef(i: nat): Ref -> bool {
    (r: Ref) => r.seqNo == i
  }

  lemma {:induction false} RefsOcc(env: Env, ts: seq<Token>, i: nat)
    ensures Occ(RefsOf(env, ts), IsRef(i)) == Occ(ts, IsSeq(i))
  {
    if |ts| > 0 {
      RefsOcc(env, ts[1..], i);
      assert RefsOf(env, ts)[1..] == RefsOf(env, ts[1..]);
    }
  }

  /** Each number from lo to n occurs once. */
  ghost predicate OnceEach(rs: seq<Ref>, lo: nat, n: nat) {
    && (forall i | 0 <= i < |rs| :: lo <= rs[i].seqNo < n)
    && forall i: nat {:trigger IsRef(i)} | lo <= i < n :: Occ(rs, IsRef(i)) == 1
  }

  lemma FirstInRange(rs: seq<Ref>, lo: nat, n: nat)
    requires OnceEach(rs, lo, n)
    ensures |rs| > 0 ==> lo <= rs[0].seqNo < n
  {
  }

  /** The first of them has number lo, and the rest the numbers after it. */
  lemma OnceFirst(rs: seq<Ref>, lo: nat, n: nat)
    requires Ascending(rs) && OnceEach(rs, lo, n) && lo < n
    ensures |rs| > 0 && rs[0].seqNo == lo && Ascending(rs[1..]) && OnceEach(rs[1..], lo + 1, n)
  {
    assert Occ(rs, IsRef(lo)) == 1;
    var j := OccFound(rs, IsRef(lo));
    assert rs[0].seqNo == lo;
    forall i | 0 <= i < |rs[1..]|
      ensures lo + 1 <= rs[1..][i].seqNo < n
    {
      if rs[1..][i].seqNo == lo {
        OccMember(rs[1..], i, IsRef(lo));
      }
    }
    forall i: nat | lo + 1 <= i < n
      ensures Occ(rs[1..], IsRef(i)) == 1
    {
      assert Occ(rs, IsRef(i)) == 1;
    }
  }

  /** Sorting numbers that occur once each puts number i at place i. */
  lemma {:induction false} OnceSorted(rs: seq<Ref>, lo: nat, n: nat)
    requires Ascending(rs) && OnceEach(rs, lo, n) && lo <= n
    ensures |rs| == n - lo && forall i | 0 <= i < |rs| :: rs[i].seqNo == lo + i
    decreases n - lo
  {
    if lo < n {
      OnceFirst(rs, lo, n);
      OnceSorted(rs[1..], lo + 1, n);
      forall i | 0 < i < |rs|
        ensures rs[i].seqNo == lo + i
      {
        assert rs[i] == rs[1..][i - 1];
      }
    } else {
      FirstInRange(rs, lo, n);
    }
  }

  // ---- a finished Feed ----

  /** The references Feed returns. */
  function Result(env: Env, s: State): seq<Ref>
    requires Shape(s)
  {
    SortRefs(RefsOf(env, s.q[11]))
  }

  /** The reference points at a copy of chunk i. */
  ghost predicate RefersTo(env: Env, chunks: seq<FastCdc.Chunk>, r: Ref, i: nat) {
    && i < |chunks| && r.seqNo == i && r.offset == chunks[i].offset && r.size == |chunks[i].data|
    && r.hash == env.hash(chunks[i].data) && |r.hash| == HASH_SIZE && r.key == ContentKey(r.hash)
    && r.compression == env.algorithm && r.encryption == env.cipher.algorithm && r.keyId == env.keyId
  }

  /** One reference for each chunk, in order. */
  ghost predicate Describes(env: Env, chunks: seq<FastCdc.Chunk>, rs: seq<Ref>) {
    |rs| == |chunks| && forall i | 0 <= i < |rs| :: RefersTo(env, chunks, rs[i], i)
  }

  /** The backend has a copy of every chunk under its content key. */
  ghost predicate Complete(env: Env, chunks: seq<FastCdc.Chunk>, store: map<string, Bytes>) {
    forall i: nat {:trigger chunks[i]} | i < |chunks| :: Present(env, chunks[i].data, store)
  }

  ghost predicate Present(env: Env, data: Bytes, store: map<string, Bytes>) {
    |env.hash(data)| == HASH_SIZE && ContentKey(env.hash(data)) in store && Holds(env, store[ContentKey(env.hash(data))], data)
  }

  ghost predicate Finished(env: Env, chunks: seq<FastCdc.Chunk>, workers: nat, store: map<string, Bytes>, s: State) {
    Inv(env, chunks, workers, store, s) && workers > 0 && Succeeds(s) && s.lost == 0 && Distinct(env, chunks)
  }

  lemma CollectedGood(env: Env, chunks: seq<FastCdc.Chunk>, workers: nat, store: map<string, Bytes>, s: State, j: nat)
    requires Inv(env, chunks, workers, store, s) && j < |s.q[11]|
    ensures Good(env, chunks, s.seen, s.store, 11, s.q[11][j])
  {
    assert GoodAt(env, chunks, s.seen, s.store)(11, s.q[11][j]);
  }

  lemma CollectedOnce(env: Env, chunks: seq<FastCdc.Chunk>, workers: nat, store: map<string, Bytes>, s: State)
    requires Finished(env, chunks, workers, store, s)
    ensures forall i: nat {:trigger IsSeq(i)} | i < |chunks| :: Occ(s.q[11], IsSeq(i)) == 1
    ensures forall h: Bytes {:trigger Carries(h)} :: Occ(s.q[11], Carries(h)) == (if h in s.seen then 1 else 0) && Occ(s.puts, IsHash(h)) == Occ(s.q[11], Carries(h))
  {
    Drained(env, chunks, workers, store, s);
    forall i: nat | i < |chunks|
      ensures Occ(s.q[11], IsSeq(i)) == 1
    {
      CountLast(s.q, IsSeq(i));
    }
    forall h: Bytes
      ensures Occ(s.q[11], Carries(h)) == (if h in s.seen then 1 else 0) && Occ(s.puts, IsHash(h)) == Occ(s.q[11], Carries(h))
    {
      CountLast(s.q[3..], Carries(h));
      CountLast(s.q[9..], Carries(h));
    }
  }

  lemma ResultOnce(env: Env, chunks: seq<FastCdc.Chunk>, workers: nat, store: map<string, Bytes>, s: State)
    requires Finished(env, chunks, workers, store, s)
    ensures OnceEach(Result(env, s), 0, |chunks|)
  {
    CollectedOnce(env, chunks, workers, store, s);
    var rs := RefsOf(env, s.q[11]);
    SortAscending(rs);
    forall i | 0 <= i < |Result(env, s)|
      ensures 0 <= Result(env, s)[i].seqNo < |chunks|
    {
      assert Result(env, s)[i] in rs;
      var j :| 0 <= j < |rs| && rs[j] == Result(env, s)[i];
      CollectedGood(env, chunks, workers, store, s, j);
    }
    forall i: nat | i < |chunks|
      ensures Occ(Result(env, s), IsRef(i)) == 1
    {
      SortOcc(rs, IsRef(i));
      RefsOcc(env, s.q[11], i);
      assert Occ(s.q[11], IsSeq(i)) == 1;
    }
  }

  /** Whatever the interleaving, Feed returns one reference for each chunk, numbered 0 to n - 1. */
  lemma FeedDescribes(env: Env, chunks: seq<FastCdc.Chunk>, workers: nat, store: map<string, Bytes>, s: State)
    requires Finished(env, chunks, workers, store, s)
    ensures Describes(env, chunks, Result(env, s))
  {
    ResultOnce(env, chunks, workers, store, s);
    var rs := RefsOf(env, s.q[11]);
    SortAscending(rs);
    OnceSorted(Result(env, s), 0, |chunks|);
    forall i | 0 <= i < |chunks|
      ensures RefersTo(env, chunks, Result(env, s)[i], i)
    {
      assert Result(env, s)[i] in rs;
      var j :| 0 <= j < |rs| && rs[j] == Result(env, s)[i];
      CollectedGood(env, chunks, workers, store, s, j);
    }
  }

  /** The hashes claimed are those of the chunks. */
  lemma SeenIsChunks(env: Env, chunks: seq<FastCdc.Chunk>, workers: nat, store: map<string, Bytes>, s: State, h: Bytes)
    requires Finished(env, chunks, workers, store, s)
    ensures h in s.seen <==> exists i: nat :: i < |chunks| && env.hash(chunks[i].data) == h
  {
    CollectedOnce(env, chunks, workers, store, s);
    if h in s.seen {
      assert Occ(s.q[11], Carries(h)) == 1;
      var j := OccFound(s.q[11], Carries(h));
      CollectedGood(env, chunks, workers, store, s, j);
      assert env.hash(chunks[s.q[11][j].seqNo].data) == h;
    }
    forall i: nat | i < |chunks| && env.hash(chunks[i].data) == h
      ensures h in s.seen
    {
      assert Occ(s.q[11], IsSeq(i)) == 1;
      var j := OccFound(s.q[11], IsSeq(i));
      CollectedGood(env, chunks, workers, store, s, j);
    }
  }

  /** Exactly one object is put for each distinct chunk, and no other. */
  lemma OnePutEach(env: Env, chunks: seq<FastCdc.Chunk>, workers: nat, store: map<string, Bytes>, s: State, h: Bytes)
    requires Finished(env, chunks, workers, store, s)
    ensures Occ(s.puts, IsHash(h)) == if exists i: nat :: i < |chunks| && env.hash(chunks[i].data) == h then 1 else 0
  {
    CollectedOnce(env, chunks, workers, store, s);
    SeenIsChunks(env, chunks, workers, store, s, h);
    assert Occ(s.q[11], Carries(h)) == if h in s.seen then 1 else 0;
  }

  /** The backend ends up with every chunk, the duplicates through their first copies. */
  lemma FeedCompletes(env: Env, chunks: seq<FastCdc.Chunk>, workers: nat, store: map<string, Bytes>, s: State)
    requires Finished(env, chunks, workers, store, s)
    ensures Complete(env, chunks, s.store)
  {
    CollectedOnce(env, chunks, workers, store, s);
    forall i: nat | i < |chunks|
      ensures Present(env, chunks[i].data, s.store)
    {
      var h := env.hash(chunks[i].data);
      SeenIsChunks(env, chunks, workers, store, s, h);
      assert Occ(s.q[11], Carries(h)) == 1;
      var j := OccFound(s.q[11], Carries(h));
      CollectedGood(env, chunks, workers, store, s, j);
      assert Unforged(env, chunks[i].data);
    }
  }

  // ---- stored sizes ----

  /** The stored size is that of the object under the key, and none for a duplicate. */
  ghost predicate SizedBy(store: map<string, Bytes>, r: Ref) {
    if r.duplicate then r.storedSize == 0 else r.key in store && r.storedSize == |store[r.key]|
  }

  /** The reference under which a hash was put. */
  ghost function Puts(h: Bytes): Ref -> bool {
    (r: Ref) => r.hash == h && !r.duplicate
  }

  lemma CollectedSized(env: Env, chunks: seq<FastCdc.Chunk>, workers: nat, store: map<string, Bytes>, s: State, j: nat)
    requires Finished(env, chunks, workers, store, s) && j < |s.q[11]|
    ensures SizedBy(s.store, RefOf(env, s.q[11][j]))
  {
    assert StoredAt(s.store)(11, s.q[11][j]);
  }

  lemma {:induction false} PutsOcc(env: Env, ts: seq<Token>, h: Bytes)
    ensures Occ(RefsOf(env, ts), Puts(h)) == Occ(ts, Carries(h))
  {
    if |ts| > 0 {
      PutsOcc(env, ts[1..], h);
      assert RefsOf(env, ts)[1..] == RefsOf(env, ts[1..]);
    }
  }

  /**
   * Whatever the interleaving, of the references with the hash of a chunk exactly one is no duplicate, and
   * its stored size is that of the object the backend ends up with under its key; that of a duplicate is 0.
   */
  lemma FeedSizes(env: Env, chunks: seq<FastCdc.Chunk>, workers: nat, store: map<string, Bytes>, s: State)
    requires Finished(env, chunks, workers, store, s)
    ensures forall i | 0 <= i < |Result(env, s)| :: SizedBy(s.store, Result(env, s)[i])
    ensures forall h: Bytes {:trigger Puts(h)} :: Occ(Result(env, s), Puts(h)) == if h in Hashes(env, chunks) then 1 else 0
  {
    var rs := RefsOf(env, s.q[11]);
    SortAscending(rs);
    forall i | 0 <= i < |Result(env, s)|
      ensures SizedBy(s.store, Result(env, s)[i])
    {
      assert Result(env, s)[i] in rs;
      var j :| 0 <= j < |rs| && rs[j] == Result(env, s)[i];
      CollectedSized(env, chunks, workers, store, s, j);
    }
    CollectedOnce(env, chunks, workers, store, s);
    SeenHashes(env, chunks, workers, store, s);
    forall h: Bytes
      ensures Occ(Result(env, s), Puts(h)) == if h in Hashes(env, chunks) then 1 else 0
    {
      SortOcc(rs, Puts(h));
      PutsOcc(env, s.q[11], h);
      assert Occ(s.q[11], Carries(h)) == if h in s.seen then 1 else 0;
    }
  }

  ghost function ObjectSize(store: map<string, Bytes>, h: Bytes): nat {
    if |h| == HASH_SIZE && ContentKey(h) in store then |store[ContentKey(h)]| else 0
  }

  /** The bytes of the objects under these hashes. */
  ghost function Total(store: map<string, Bytes>, hashes: set<Bytes>): nat
    decreases hashes
  {
    if hashes == {} then 0
    else
      var h :| h in hashes;
      ObjectSize(store, h) + Total(store, hashes - {h})
  }

  lemma {:induction false} TotalLess(store: map<string, Bytes>, hashes: set<Bytes>, h: Bytes)
    requires h in hashes
    ensures Total(store, hashes) == ObjectSize(store, h) + Total(store, hashes - {h})
    decreases hashes
  {
    var k :| k in hashes && Total(store, hashes) == ObjectSize(store, k) + Total(store, hashes - {k});
    if k != h {
      TotalLess(store, hashes - {k}, h);
      TotalLess(store, hashes - {h}, k);
      assert hashes - {k} - {h} == hashes - {h} - {k};
    }
  }

  // ---- the statistics of a finished Feed ----

  datatype Stats = Stats(chunks: nat, bytesIn: nat, uploaded: nat, deduped: nat, bytesUploaded: nat)

  /** What the collector has counted after these references. */
  function StatsOf(rs: seq<Ref>): Stats {
    if |rs| == 0 then Stats(0, 0, 0, 0, 0)
    else
      var st, r := StatsOf(rs[..|rs| - 1]), rs[|rs| - 1];
      if r.duplicate then st.(chunks := st.chunks + 1, bytesIn := st.bytesIn + r.size, deduped := st.deduped + 1)
      else st.(chunks := st.chunks + 1, bytesIn := st.bytesIn + r.size, uploaded := st.uploaded + 1, bytesUploaded := st.bytesUploaded + r.storedSize)
  }

  /** Adds up a number over the references. */
  ghost function Sum(rs: seq<Ref>, f: Ref -> nat): nat {
    if |rs| == 0 then 0 else f(rs[0]) + Sum(rs[1..], f)
  }

  lemma {:induction false} SumSnoc(rs: seq<Ref>, r: Ref, f: Ref -> nat)
    ensures Sum(rs + [r], f) == Sum(rs, f) + f(r)
  {
    if |rs| > 0 {
      assert (rs + [r])[1..] == rs[1..] + [r];
      SumSnoc(rs[1..], r, f);
    } else {
      assert (rs + [r])[1..] == [];
    }
  }

  lemma {:induction false} SumInsert(r: Ref, rs: seq<Ref>, f: Ref -> nat)
    ensures Sum(InsertRef(r, rs), f) == f(r) + Sum(rs, f)
  {
    if |rs| > 0 && r.seqNo > rs[0].seqNo {
      SumInsert(r, rs[1..], f);
      assert ([rs[0]] + InsertRef(r, rs[1..]))[1..] == InsertRef(r, rs[1..]);
    } else {
      assert ([r] + rs)[1..] == rs;
    }
  }

  lemma {:induction false} SumSort(rs: seq<Ref>, f: Ref -> nat)
    ensures Sum(SortRefs(rs), f) == Sum(rs, f)
  {
    if |rs| > 0 {
      SumSort(rs[1..], f);
      SumInsert(rs[0], SortRefs(rs[1..]), f);
    }
  }

  ghost const SIZE: Ref -> nat := (r: Ref) => r.size
  ghost const FIRST: Ref -> nat := (r: Ref) => if r.duplicate then 0 else 1
  ghost const STORED: Ref -> nat := (r: Ref) => if r.duplicate then 0 else r.storedSize

  lemma {:induction false} StatsSum(rs: seq<Ref>)
    ensures var st := StatsOf(rs);
            st.chunks == |rs| && st.bytesIn == Sum(rs, SIZE) && st.uploaded == Sum(rs, FIRST) && st.bytesUploaded == Sum(rs, STORED) && st.uploaded + st.deduped == st.chunks
  {
    if |rs| > 0 {
      var rest, r := rs[..|rs| - 1], rs[|rs| - 1];
      StatsSum(rest);
      assert rs == rest + [r];
      SumSnoc(rest, r, SIZE);
      SumSnoc(rest, r, FIRST);
      SumSnoc(rest, r, STORED);
    }
  }

  lemma {:induction false} DescribedSize(env: Env, chunks: seq<FastCdc.Chunk>, rs: seq<Ref>, k: nat)
    requires DescribesFrom(env, chunks, rs, k)
    ensures Sum(rs, SIZE) == |FastCdc.Join(chunks[k..])|
    decreases |rs|
  {
    if |rs| > 0 {
      assert RefersTo(env, chunks, rs[0], k + 0);
      forall i | 0 <= i < |rs[1..]|
        ensures RefersTo(env, chunks, rs[1..][i], k + 1 + i)
      {
        assert RefersTo(env, chunks, rs[i + 1], k + (i + 1));
      }
      DescribedSize(env, chunks, rs[1..], k + 1);
      assert chunks[k..][0] == chunks[k] && chunks[k..][1..] == chunks[k + 1..];
    }
  }

  /** Tokens that carry each hash of a set once are as many as the set has hashes. */
  lemma {:induction false} CarriersSize(env: Env, ts: seq<Token>, hashes: set<Bytes>)
    requires forall h: Bytes {:trigger Carries(h)} :: Occ(ts, Carries(h)) == if h in hashes then 1 else 0
    ensures Sum(RefsOf(env, ts), FIRST) == |hashes|
    decreases |ts|
  {
    if |ts| > 0 {
      var t := ts[0];
      var rest := if t.duplicate then hashes else hashes - {t.hash};
      assert RefsOf(env, ts)[1..] == RefsOf(env, ts[1..]);
      assert !t.duplicate ==> Occ(ts, Carries(t.hash)) > 0;
      forall h: Bytes
        ensures Occ(ts[1..], Carries(h)) == if h in rest then 1 else 0
      {
        assert Occ(ts, Carries(h)) == if h in hashes then 1 else 0;
      }
      CarriersSize(env, ts[1..], rest);
    } else {
      NoHashes(ts, hashes);
    }
  }

  /** And their stored sizes are those of the objects under these hashes. */
  lemma {:induction false} CarriersTotal(env: Env, ts: seq<Token>, hashes: set<Bytes>, store: map<string, Bytes>)
    requires forall h: Bytes {:trigger Carries(h)} :: Occ(ts, Carries(h)) == if h in hashes then 1 else 0
    requires forall j | 0 <= j < |ts| :: |ts[j].hash| == HASH_SIZE && SizedBy(store, RefOf(env, ts[j]))
    ensures Sum(RefsOf(env, ts), STORED) == Total(store, hashes)
    decreases |ts|
  {
    if |ts| > 0 {
      var t := ts[0];
      var rest := if t.duplicate then hashes else hashes - {t.hash};
      assert RefsOf(env, ts)[1..] == RefsOf(env, ts[1..]);
      assert !t.duplicate ==> Occ(ts, Carries(t.hash)) > 0;
      forall h: Bytes
        ensures Occ(ts[1..], Carries(h)) == if h in rest then 1 else 0
      {
        assert Occ(ts, Carries(h)) == if h in hashes then 1 else 0;
      }
      CarriersTotal(env, ts[1..], rest, store);
      if !t.duplicate {
        TotalLess(store, hashes, t.hash);
      }
    } else {
      NoHashes(ts, hashes);
    }
  }

  lemma NoHashes(ts: seq<Token>, hashes: set<Bytes>)
    requires |ts| == 0 && forall h: Bytes {:trigger Carries(h)} :: Occ(ts, Carries(h)) == if h in hashes then 1 else 0
    ensures hashes == {}
  {
    forall h: Bytes
      ensures h !in hashes
    {
      assert Occ(ts, Carries(h)) == 0;
    }
  }

  /** The distinct hashes of the chunks. */
  ghost function Hashes(env: Env, chunks: seq<FastCdc.Chunk>): set<Bytes> {
    set i | 0 <= i < |chunks| :: env.hash(chunks[i].data)
  }

  /**
   * What Feed reports: as many chunks as were cut, the length of the input, one upload for each distinct
   * chunk and the rest as duplicates, and the bytes of the objects of the distinct chunks in the backend.
   */
  lemma FeedCounts(env: Env, chunks: seq<FastCdc.Chunk>, workers: nat, store: map<string, Bytes>, s: State)
    requires Finished(env, chunks, workers, store, s)
    ensures var st := StatsOf(RefsOf(env, s.q[11]));
            && st.chunks == |chunks| && st.bytesIn == |FastCdc.Join(chunks)| && st.bytesUploaded == Total(s.store, Hashes(env, chunks))
            && st.uploaded == |Hashes(env, chunks)| && st.deduped == |chunks| - |Hashes(env, chunks)|
  {
    var rs := RefsOf(env, s.q[11]);
    StatsSum(rs);
    SumSort(rs, SIZE);
    SortAscending(rs);
    FeedDescribes(env, chunks, workers, store, s);
    DescribedSize(env, chunks, Result(env, s), 0);
    assert chunks[0..] == chunks;
    CollectedOnce(env, chunks, workers, store, s);
    CarriersSize(env, s.q[11], s.seen);
    UploadedBytes(env, chunks, workers, store, s);
    SeenHashes(env, chunks, workers, store, s);
  }

  lemma UploadedBytes(env: Env, chunks: seq<FastCdc.Chunk>, workers: nat, store: map<string, Bytes>, s: State)
    requires Finished(env, chunks, workers, store, s)
    ensures Sum(RefsOf(env, s.q[11]), STORED) == Total(s.store, s.seen)
  {
    forall j | 0 <= j < |s.q[11]|
      ensures |s.q[11][j].hash| == HASH_SIZE && SizedBy(s.store, RefOf(env, s.q[11][j]))
    {
      CollectedGood(env, chunks, workers, store, s, j);
      CollectedSized(env, chunks, workers, store, s, j);
    }
    CollectedOnce(env, chunks, workers, store, s);
    CarriersTotal(env, s.q[11], s.seen, s.store);
  }

  lemma SeenHashes(env: Env, chunks: seq<FastCdc.Chunk>, workers: nat, store: map<string, Bytes>, s: State)
    requires Finished(env, chunks, workers, store, s)
    ensures s.seen == Hashes(env, chunks)
  {
    forall h: Bytes
      ensures h in s.seen <==> h in Hashes(env, chunks)
    {
      SeenIsChunks(env, chunks, workers, store, s, h);
    }
  }

  // ---- restoring ----

  /** The bytes a reference stands for in a backend, or None when fetching or checking fails. */
  function Piece(env: Env, store: map<string, Bytes>, r: Ref): Option<Bytes> {
    var data := Fetch(env, store, r);
    if data.None? || !Checks(env, r, data.value) then None else data
  }

  /** The bytes before they are checked. */
  function Fetch(env: Env, store: map<string, Bytes>, r: Ref): Option<Bytes> {
    if r.key == "" || r.key !in store then None else Decode(env, store[r.key], r.compression, r.hash)
  }

  predicate Checks(env: Env, r: Ref, data: Bytes) {
    env.hash(data) == r.hash && |data| == r.size
  }

  function Glue(a: Option<Bytes>, b: Option<Bytes>): Option<Bytes> {
    if a.None? || b.None? then None else Some(a.value + b.value)
  }

  function Pieces(env: Env, store: map<string, Bytes>, rs: seq<Ref>): Option<Bytes> {
    if |rs| == 0 then Some([]) else Glue(Piece(env, store, rs[0]), Pieces(env, store, rs[1..]))
  }

  lemma GlueLaws(a: Option<Bytes>, b: Option<Bytes>, c: Option<Bytes>)
    ensures Glue(a, Glue(b, c)) == Glue(Glue(a, b), c) && Glue(Some([]), a) == a && Glue(a, Some([])) == a
  {
    assert a.Some? ==> [] + a.value == a.value && a.value + [] == a.value;
    assert a.Some? && b.Some? && c.Some? ==> a.value + (b.value + c.value) == (a.value + b.value) + c.value;
  }

  lemma {:induction false} PiecesSnoc(env: Env, store: map<string, Bytes>, rs: seq<Ref>, r: Ref)
    ensures Pieces(env, store, rs + [r]) == Glue(Pieces(env, store, rs), Piece(env, store, r))
  {
    if |rs| > 0 {
      PiecesSnoc(env, store, rs[1..], r);
      assert (rs + [r])[1..] == rs[1..] + [r];
      GlueLaws(Piece(env, store, rs[0]), Pieces(env, store, rs[1..]), Piece(env, store, r));
    } else {
      assert rs + [r] == [r];
      assert Pieces(env, store, [r][1..]) == Some([]);
      GlueLaws(Piece(env, store, r), None, None);
    }
  }

  lemma {:induction false} PiecesPrefix(env: Env, store: map<string, Bytes>, a: seq<Ref>, b: seq<Ref>)
    requires Pieces(env, store, a).None?
    ensures Pieces(env, store, a + b).None?
  {
    if |a| > 0 {
      assert (a + b)[1..] == a[1..] + b;
      if Pieces(env, store, a[1..]).None? {
        PiecesPrefix(env, store, a[1..], b);
      }
    }
  }

  /**
   * The restore stopped at reference i: the chunks before it passed their checks and were written, and
   * so were the bytes of chunk i itself if it was only its check that failed.
   */
  ghost predicate StoppedAt(env: Env, store: map<string, Bytes>, rs: seq<Ref>, written: Bytes, i: nat) {
    && i < |rs| && Pieces(env, store, rs[..i]).Some? && Piece(env, store, rs[i]).None?
    && written == Pieces(env, store, rs[..i]).value + (if Fetch(env, store, rs[i]).Some? then Fetch(env, store, rs[i]).value else [])
  }

  lemma StoppedFails(env: Env, store: map<string, Bytes>, rs: seq<Ref>, i: nat)
    requires i < |rs| && Piece(env, store, rs[i]).None?
    ensures Pieces(env, store, rs).None?
  {
    PiecesSnoc(env, store, rs[..i], rs[i]);
    PiecesPrefix(env, store, rs[..i] + [rs[i]], rs[i + 1..]);
    assert rs == rs[..i] + [rs[i]] + rs[i + 1..];
  }

  /** Write the chunks in sequence order, checking each after it is written; stop at the first that fails. */
  method Restore(env: Env, store: map<string, Bytes>, refs: seq<Ref>) returns (ok: bool, written: Bytes)
    ensures ok <==> Pieces(env, store, SortRefs(refs)).Some?
    ensures ok ==> Pieces(env, store, SortRefs(refs)) == Some(written)
    ensures !ok ==> exists i: nat :: StoppedAt(env, store, SortRefs(refs), written, i)
  {
    var ordered := SortRefs(refs);
    written := [];
    var i := 0;
    while i < |ordered|
      invariant i <= |ordered| && Pieces(env, store, ordered[..i]) == Some(written)
    {
      PiecesSnoc(env, store, ordered[..i], ordered[i]);
      assert ordered[..i + 1] == ordered[..i] + [ordered[i]];
      var data := Fetch(env, store, ordered[i]);
      if data.Some? {
        written := written + data.value;
      }
      if data.None? || !Checks(env, ordered[i], data.value) {
        StoppedFails(env, store, ordered, i);
        assert data.None? ==> written == written + [];
        assert StoppedAt(env, store, ordered, written, i);
        return false, written;
      }
      i := i + 1;
    }
    assert ordered[..i] == ordered;
    return true, written;
  }

  /** Against any backend, a restore that succeeds writes as many bytes as the references say. */
  lemma {:induction false} RestoredSize(env: Env, store: map<string, Bytes>, rs: seq<Ref>)
    requires Pieces(env, store, rs).Some?
    ensures |Pieces(env, store, rs).value| == Sum(rs, SIZE)
    decreases |rs|
  {
    if |rs| > 0 {
      RestoredSize(env, store, rs[1..]);
    }
  }

  lemma {:induction false} SortedStays(rs: seq<Ref>)
    requires Ascending(rs)
    ensures SortRefs(rs) == rs
  {
    if |rs| > 0 {
      SortedStays(rs[1..]);
      if |rs| > 1 {
        assert rs[0].seqNo <= rs[1].seqNo;
      }
      assert rs == [rs[0]] + rs[1..];
    }
  }

  lemma DescribedInOrder(env: Env, chunks: seq<FastCdc.Chunk>, rs: seq<Ref>)
    requires Describes(env, chunks, rs)
    ensures SortRefs(rs) == rs
  {
    SortedStays(rs);
  }

  /** The references of the chunks from k on. */
  ghost predicate DescribesFrom(env: Env, chunks: seq<FastCdc.Chunk>, rs: seq<Ref>, k: nat) {
    k + |rs| == |chunks| && forall i | 0 <= i < |rs| :: RefersTo(env, chunks, rs[i], k + i)
  }

  lemma PieceHeld(env: Env, chunks: seq<FastCdc.Chunk>, store: map<string, Bytes>, r: Ref, i: nat)
    requires RefersTo(env, chunks, r, i) && Present(env, chunks[i].data, store)
    ensures Piece(env, store, r) == Some(chunks[i].data)
  {
  }

  lemma {:induction false} PiecesHeld(env: Env, chunks: seq<FastCdc.Chunk>, store: map<string, Bytes>, rs: seq<Ref>, k: nat)
    requires DescribesFrom(env, chunks, rs, k) && Complete(env, chunks, store)
    ensures Pieces(env, store, rs) == Some(FastCdc.Join(chunks[k..]))
    decreases |rs|
  {
    if |rs| > 0 {
      assert Present(env, chunks[k].data, store);
      assert RefersTo(env, chunks, rs[0], k + 0);
      PieceHeld(env, chunks, store, rs[0], k);
      forall i | 0 <= i < |rs[1..]|
        ensures RefersTo(env, chunks, rs[1..][i], k + 1 + i)
      {
        assert RefersTo(env, chunks, rs[i + 1], k + (i + 1));
      }
      PiecesHeld(env, chunks, store, rs[1..], k + 1);
      assert chunks[k..][0] == chunks[k] && chunks[k..][1..] == chunks[k + 1..];
    }
  }

  /** A piece that passes its check is the chunk, whatever the backend did. */
  lemma PieceTrue(env: Env, chunks: seq<FastCdc.Chunk>, store: map<string, Bytes>, r: Ref, i: nat)
    requires RefersTo(env, chunks, r, i) && Unforged(env, chunks[i].data) && Piece(env, store, r).Some?
    ensures Piece(env, store, r).value == chunks[i].data
  {
  }

  lemma {:induction false} PiecesTrue(env: Env, chunks: seq<FastCdc.Chunk>, store: map<string, Bytes>, rs: seq<Ref>, k: nat)
    requires DescribesFrom(env, chunks, rs, k) && Distinct(env, chunks) && Pieces(env, store, rs).Some?
    ensures Pieces(env, store, rs).value == FastCdc.Join(chunks[k..])
    decreases |rs|
  {
    if |rs| > 0 {
      assert RefersTo(env, chunks, rs[0], k + 0) && Unforged(env, chunks[k].data);
      PieceTrue(env, chunks, store, rs[0], k);
      forall i | 0 <= i < |rs[1..]|
        ensures RefersTo(env, chunks, rs[1..][i], k + 1 + i)
      {
        assert RefersTo(env, chunks, rs[i + 1], k + (i + 1));
      }
      PiecesTrue(env, chunks, store, rs[1..], k + 1);
      assert chunks[k..][0] == chunks[k] && chunks[k..][1..] == chunks[k + 1..];
    }
  }

  /** Restoring from a backend that holds the chunks gives their bytes. */
  lemma RestoreComplete(env: Env, chunks: seq<FastCdc.Chunk>, store: map<string, Bytes>, rs: seq<Ref>)
    requires Describes(env, chunks, rs) && Complete(env, chunks, store)
    ensures Pieces(env, store, SortRefs(rs)) == Some(FastCdc.Join(chunks))
  {
    DescribedInOrder(env, chunks, rs);
    PiecesHeld(env, chunks, store, rs, 0);
    assert chunks[0..] == chunks;
  }

  /** A restore that succeeds, against any backend at all, writes the bytes that were backed up. */
  lemma RestoreTrue(env: Env, chunks: seq<FastCdc.Chunk>, store: map<string, Bytes>, rs: seq<Ref>)
    requires Describes(env, chunks, rs) && Distinct(env, chunks) && Pieces(env, store, SortRefs(rs)).Some?
    ensures Pieces(env, store, SortRefs(rs)).value == FastCdc.Join(chunks)
  {
    DescribedInOrder(env, chunks, rs);
    PiecesTrue(env, chunks, store, rs, 0);
    assert chunks[0..] == chunks;
  }

  lemma PrefixDescribed(env: Env, chunks: seq<FastCdc.Chunk>, rs: seq<Ref>, i: nat)
    requires Describes(env, chunks, rs) && Distinct(env, chunks) && i <= |rs|
    ensures Describes(env, chunks[..i], rs[..i]) && Distinct(env, chunks[..i])
  {
    forall k | 0 <= k < i
      ensures RefersTo(env, chunks[..i], rs[..i][k], k)
    {
      assert RefersTo(env, chunks, rs[k], k);
    }
    forall k: nat | k < i
      ensures Unforged(env, chunks[..i][k].data)
    {
      assert Unforged(env, chunks[k].data);
    }
  }

  /** A restore that fails, against any backend, has written the first chunks and at most one that is not what was backed up. */
  lemma RestorePrefix(env: Env, chunks: seq<FastCdc.Chunk>, store: map<string, Bytes>, rs: seq<Ref>, written: Bytes, i: nat)
    requires Describes(env, chunks, rs) && Distinct(env, chunks) && StoppedAt(env, store, SortRefs(rs), written, i)
    ensures i < |chunks| && FastCdc.Join(chunks[..i]) <= written
  {
    DescribedInOrder(env, chunks, rs);
    PrefixDescribed(env, chunks, rs, i);
    DescribedInOrder(env, chunks[..i], rs[..i]);
    RestoreTrue(env, chunks[..i], store, rs[..i]);
  }

  // ---- the whole pipeline ----

  /**
   * Every run of the workers that ends without an error and was not cancelled: the references are numbered 0 to n - 1, each
   * distinct chunk was put once, and restoring writes the input.  Against any other backend a restore
   * either fails or writes the input.
   */
  lemma BackupRestores(env: Env, cut: Bytes -> nat, input: Bytes, workers: nat, capacity: nat, store: map<string, Bytes>, events: seq<Event>, altered: map<string, Bytes>)
    requires Lawful(env) && FastCdc.Cutter(cut) && workers > 0
    requires var chunks := FastCdc.Chunks(cut, input, 0); var r := Run(env, Start(chunks, workers, capacity, store), events);
             Distinct(env, chunks) && r.Some? && Succeeds(r.value) && !r.value.cancelled
    ensures var chunks := FastCdc.Chunks(cut, input, 0); var s := Run(env, Start(chunks, workers, capacity, store), events).value;
            && Describes(env, chunks, Result(env, s))
            && Pieces(env, s.store, SortRefs(Result(env, s))) == Some(input)
            && (Pieces(env, altered, SortRefs(Result(env, s))).Some? ==> Pieces(env, altered, SortRefs(Result(env, s))) == Some(input))
    ensures var chunks := FastCdc.Chunks(cut, input, 0); var s := Run(env, Start(chunks, workers, capacity, store), events).value;
            forall h: Bytes {:trigger IsHash(h)} :: Occ(s.puts, IsHash(h)) == if exists i: nat :: i < |chunks| && env.hash(chunks[i].data) == h then 1 else 0
  {
    var chunks := FastCdc.Chunks(cut, input, 0);
    StartInv(env, chunks, workers, capacity, store);
    RunKeeps(env, chunks, workers, store, Start(chunks, workers, capacity, store), events);
    var s := Run(env, Start(chunks, workers, capacity, store), events).value;
    FinishedRestores(env, cut, input, workers, store, s, altered);
    forall h: Bytes {
      OnePutEach(env, chunks, workers, store, s, h);
    }
  }

  lemma FinishedRestores(env: Env, cut: Bytes -> nat, input: Bytes, workers: nat, store: map<string, Bytes>, s: State, altered: map<string, Bytes>)
    requires FastCdc.Cutter(cut) && Finished(env, FastCdc.Chunks(cut, input, 0), workers, store, s)
    ensures Describes(env, FastCdc.Chunks(cut, input, 0), Result(env, s))
    ensures Pieces(env, s.store, SortRefs(Result(env, s))) == Some(input)
    ensures Pieces(env, altered, SortRefs(Result(env, s))).Some? ==> Pieces(env, altered, SortRefs(Result(env, s))) == Some(input)
  {
    var chunks := FastCdc.Chunks(cut, input, 0);
    FeedDescribes(env, chunks, workers, store, s);
    FeedCompletes(env, chunks, workers, store, s);
    FastCdc.ChunksPartition(cut, input, 0);
    RestoreComplete(env, chunks, s.store, Result(env, s));
    if Pieces(env, altered, SortRefs(Result(env, s))).Some? {
      RestoreTrue(env, chunks, altered, Result(env, s));
    }
  }
}
