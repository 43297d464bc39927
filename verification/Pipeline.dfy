/**
 * The backup pipeline: a chunker, three pools of workers (hash, encode, upload) and a collector,
 * joined by channels.  Every chunk is a token in one of twelve queues:
 *
 *   0 not yet cut   1 chunk channel   2 being hashed    3 hashed
 *                   4 hash channel    5 being encoded   6 encoded
 *                   7 encode channel  8 being uploaded  9 uploaded
 *                  10 ref channel    11 collected
 *
 * One event is one move of one goroutine, so that a run is an interleaving of them.
 */
module Pipeline {
  import opened Bytes
  import opened Options
  import opened Queues
  import opened ChunkStore
  import FastCdc

  /** A chunk on its way; hash, duplicate and payload are filled in by the hash and encode workers. */
  datatype Token = Token(seqNo: nat, offset: nat, data: Bytes, hash: Bytes, duplicate: bool, payload: Bytes)

  /**
   * capacity is the size of a channel, closed has the four channels and live the number of running
   * workers of each pool.  failed says
   * that an error was recorded, cancelled that the caller cancelled the context, and lost how many
   * items workers gave up.  puts lists the hashes of the objects put
   * into the backend.
   */
  datatype State = State(
    capacity: nat,
    q: seq<seq<Token>>,
    closed: seq<bool>,
    live: seq<nat>,
    failed: bool,
    cancelled: bool,
    lost: nat,
    seen: set<Bytes>,
    store: map<string, Bytes>,
    puts: seq<Bytes>)

  datatype Event =
    | Cut | EndInput | InputFails
    | Receive(pool: nat)
    | HashChunk(j: nat) | EncodeChunk(j: nat, nonce: Bytes) | UploadChunk(j: nat)
    | WorkFails(pool: nat, j: nat)
    | Send(pool: nat, j: nat) | Drop(pool: nat, j: nat)
    | Exit(pool: nat) | CloseOutput(pool: nat)
    | Collect | Cancel

  predicate Shape(s: State) {
    |s.q| == 12 && |s.closed| == 4 && |s.live| == 3
  }

  /** The channel pool g reads from; its workers hold the next two queues and send to the third. */
  function Channel(g: nat): nat {
    3 * g + 1
  }

  /** Items the workers of a pool hold. */
  function Busy(s: State, g: nat): nat
    requires Shape(s) && g < 3
  {
    |s.q[Channel(g) + 1]| + |s.q[Channel(g) + 2]|
  }

  function Relay(s: State, k: nat, j: nat): (r: State)
    requires Shape(s) && k < 11 && j < |s.q[k]|
    ensures Shape(r)
  {
    s.(q := Move(s.q, k, j, s.q[k][j]))
  }

  /** A worker gives up its item and ends. */
  function Abandon(s: State, g: nat, k: nat, j: nat, failed: bool): (r: State)
    requires Shape(s) && g < 3 && k < 12 && j < |s.q[k]| && s.live[g] > 0
    ensures Shape(r)
  {
    s.(q := s.q[k := Without(s.q[k], j)], live := s.live[g := s.live[g] - 1], failed := failed, lost := s.lost + 1)
  }

  /** An error was recorded or the caller cancelled: the context is done. */
  predicate Upset(s: State) {
    s.failed || s.cancelled
  }

  /** The hash worker looks its hash up and claims it in one locked step. */
  function Hashed(env: Env, s: State, j: nat): (r: State)
    requires Shape(s) && j < |s.q[2]|
    ensures Shape(r)
  {
    var t := s.q[2][j];
    var h := env.hash(t.data);
    s.(q := Move(s.q, 2, j, t.(hash := h, duplicate := h in s.seen)), seen := s.seen + {h})
  }

  function Encoded(s: State, j: nat, payload: Bytes): (r: State)
    requires Shape(s) && j < |s.q[5]|
    ensures Shape(r)
  {
    s.(q := Move(s.q, 5, j, s.q[5][j].(payload := payload)))
  }

  /** Only the first of equal chunks is put into the backend. */
  function Uploaded(s: State, j: nat): (r: State)
    requires Shape(s) && j < |s.q[8]| && |s.q[8][j].hash| == HASH_SIZE
    ensures Shape(r)
  {
    var t := s.q[8][j];
    if t.duplicate then Relay(s, 8, j)
    else s.(q := Move(s.q, 8, j, t), store := s.store[ContentKey(t.hash) := t.payload], puts := s.puts + [t.hash])
  }

  /** The state after an event, or None when the event cannot happen there. */
  function Step(env: Env, s: State, e: Event): (r: Option<State>)
    requires Shape(s)
    ensures r.Some? ==> Shape(r.value)
  {
    match e
    case Cut => if !s.closed[0] && |s.q[0]| > 0 && |s.q[1]| < s.capacity then Some(Relay(s, 0, 0)) else None
    case EndInput => if !s.closed[0] && |s.q[0]| == 0 then Some(s.(closed := s.closed[0 := true])) else None
    case InputFails => if !s.closed[0] then Some(s.(closed := s.closed[0 := true], failed := true)) else None
    case Receive(g) =>
      if g < 3 && Busy(s, g) < s.live[g] && |s.q[Channel(g)]| > 0 then Some(Relay(s, Channel(g), 0)) else None
    case HashChunk(j) => if j < |s.q[2]| then Some(Hashed(env, s, j)) else None
    case EncodeChunk(j, nonce) =>
      if j >= |s.q[5]| then None
      else if s.q[5][j].duplicate then Some(Encoded(s, j, []))
      else
        var payload := Encode(env, s.q[5][j].data, nonce);
        if payload.None? then None else Some(Encoded(s, j, payload.value))
    case UploadChunk(j) => if j < |s.q[8]| && |s.q[8][j].hash| == HASH_SIZE then Some(Uploaded(s, j)) else None
    case WorkFails(g, j) =>
      if g < 3 && s.live[g] > 0 && j < |s.q[Channel(g) + 1]| then Some(Abandon(s, g, Channel(g) + 1, j, true)) else None
    case Send(g, j) =>
      if g < 3 && j < |s.q[Channel(g) + 2]| && |s.q[Channel(g) + 3]| < s.capacity then Some(Relay(s, Channel(g) + 2, j)) else None
    case Drop(g, j) =>
      if g < 3 && Upset(s) && s.live[g] > 0 && j < |s.q[Channel(g) + 2]| then Some(Abandon(s, g, Channel(g) + 2, j, s.failed)) else None
    case Exit(g) =>
      if g < 3 && Busy(s, g) < s.live[g] && s.closed[g] && |s.q[Channel(g)]| == 0 then Some(s.(live := s.live[g := s.live[g] - 1])) else None
    case CloseOutput(g) =>
      if g < 3 && s.live[g] == 0 && !s.closed[g + 1] then Some(s.(closed := s.closed[g + 1 := true])) else None
    case Collect => if |s.q[10]| > 0 then Some(Relay(s, 10, 0)) else None
    case Cancel => if !s.cancelled then Some(s.(cancelled := true)) else None
  }

  function Run(env: Env, s: State, events: seq<Event>): (r: Option<State>)
    requires Shape(s)
    ensures r.Some? ==> Shape(r.value)
    decreases |events|
  {
    if |events| == 0 then Some(s)
    else
      var r := Step(env, s, events[0]);
      if r.None? then None else Run(env, r.value, events[1..])
  }

  /** The token of chunk i before anything is known about it. */
  function Raw(chunks: seq<FastCdc.Chunk>, i: nat): Token
    requires i < |chunks|
  {
    Token(i, chunks[i].offset, chunks[i].data, [], false, [])
  }

  function Start(chunks: seq<FastCdc.Chunk>, workers: nat, capacity: nat, store: map<string, Bytes>): (r: State)
    ensures Shape(r)
  {
    State(capacity, [seq(|chunks|, i requires 0 <= i < |chunks| => Raw(chunks, i)), [], [], [], [], [], [], [], [], [], [], []],
          [false, false, false, false], [workers, workers, workers], false, false, 0, {}, store, [])
  }

  /** Feed returns without an error: the ref channel is closed and drained, and nothing failed. */
  predicate Succeeds(s: State)
    requires Shape(s)
  {
    s.closed[3] && |s.q[10]| == 0 && !s.failed
  }

  // ---- the invariant ----

  ghost function IsSeq(i: nat): Token -> bool {
    (t: Token) => t.seqNo == i
  }

  /** The token that is to carry hash h into the backend. */
  ghost function Carries(h: Bytes): Token -> bool {
    (t: Token) => t.hash == h && !t.duplicate
  }

  ghost function IsHash(h: Bytes): Bytes -> bool {
    (x: Bytes) => x == h
  }

  /** What is true of a token in queue p. */
  ghost predicate Good(env: Env, chunks: seq<FastCdc.Chunk>, seen: set<Bytes>, store: map<string, Bytes>, p: nat, t: Token) {
    && t.seqNo < |chunks| && t.offset == chunks[t.seqNo].offset && t.data == chunks[t.seqNo].data
    && (p >= 3 ==> t.hash == env.hash(t.data) && |t.hash| == HASH_SIZE && t.hash in seen)
    && (p >= 6 && !t.duplicate ==> Holds(env, t.payload, t.data))
    && (p >= 9 && !t.duplicate ==> ContentKey(t.hash) in store && Holds(env, store[ContentKey(t.hash)], t.data))
  }

  ghost function GoodAt(env: Env, chunks: seq<FastCdc.Chunk>, seen: set<Bytes>, store: map<string, Bytes>): (nat, Token) -> bool {
    (p: nat, t: Token) => Good(env, chunks, seen, store, p, t)
  }

  ghost predicate AllGood(env: Env, chunks: seq<FastCdc.Chunk>, s: State) {
    Everywhere(s.q, GoodAt(env, chunks, s.seen, s.store))
  }

  /** Every chunk is in exactly one queue. */
  ghost predicate Conserved(chunks: seq<FastCdc.Chunk>, s: State) {
    forall i: nat {:trigger IsSeq(i)} | i < |chunks| :: Count(s.q, IsSeq(i)) == 1
  }

  /** A claimed hash has exactly one carrier, and exactly the carriers past the upload have been put. */
  ghost predicate Deduped(s: State)
    requires Shape(s)
  {
    forall h: Bytes {:trigger Carries(h)} ::
      Count(s.q[3..], Carries(h)) == (if h in s.seen then 1 else 0) && Occ(s.puts, IsHash(h)) == Count(s.q[9..], Carries(h))
  }

  /** The object under the key of a carrier past the upload is its payload. */
  ghost function StoredAt(store: map<string, Bytes>): (nat, Token) -> bool {
    (p: nat, t: Token) => p >= 9 && !t.duplicate ==> |t.hash| == HASH_SIZE && ContentKey(t.hash) in store && store[ContentKey(t.hash)] == t.payload
  }

  ghost predicate Stored(s: State) {
    Everywhere(s.q, StoredAt(s.store))
  }

  /** A worker ends only when there is nothing more to come, and a channel is closed only when its writers have ended. */
  ghost predicate FlowAt(workers: nat, s: State, g: nat)
    requires Shape(s) && g < 3
  {
    && Busy(s, g) <= s.live[g] <= workers
    && (s.live[g] < workers ==> s.lost > 0 || (s.closed[g] && |s.q[Channel(g)]| == 0))
    && (s.closed[g + 1] ==> s.live[g] == 0)
  }

  ghost predicate Flow(workers: nat, s: State)
    requires Shape(s)
  {
    && (s.closed[0] ==> s.failed || |s.q[0]| == 0)
    && FlowAt(workers, s, 0) && FlowAt(workers, s, 1) && FlowAt(workers, s, 2)
  }

  /** The backend differs from what it was only in good copies of chunks of this input. */
  ghost predicate Wrote(env: Env, chunks: seq<FastCdc.Chunk>, before: map<string, Bytes>, after: map<string, Bytes>) {
    forall key: string {:trigger key in after} :: (key in before ==> key in after) && (key in after ==> Written(env, chunks, before, after, key))
  }

  ghost predicate Written(env: Env, chunks: seq<FastCdc.Chunk>, before: map<string, Bytes>, after: map<string, Bytes>, key: string)
    requires key in after
  {
    || (key in before && after[key] == before[key])
    || exists i: nat :: i < |chunks| && |env.hash(chunks[i].data)| == HASH_SIZE && key == ContentKey(env.hash(chunks[i].data)) && Holds(env, after[key], chunks[i].data)
  }

  ghost predicate Inv(env: Env, chunks: seq<FastCdc.Chunk>, workers: nat, store: map<string, Bytes>, s: State) {
    && Shape(s) && AllGood(env, chunks, s) && Flow(workers, s) && Wrote(env, chunks, store, s.store)
    && (s.lost == 0 ==> Conserved(chunks, s) && Deduped(s) && Stored(s)) && (s.lost > 0 ==> Upset(s))
  }

  /** The hash tells the chunks of this input apart. */
  ghost predicate Distinct(env: Env, chunks: seq<FastCdc.Chunk>) {
    forall i: nat | i < |chunks| :: Unforged(env, chunks[i].data)
  }

  // ---- every event keeps the invariant ----

  lemma RelayCounts(chunks: seq<FastCdc.Chunk>, s: State, k: nat, j: nat)
    requires Shape(s) && k < 11 && j < |s.q[k]| && k != 2 && k != 8
    requires Conserved(chunks, s) && Deduped(s)
    ensures Conserved(chunks, Relay(s, k, j)) && Deduped(Relay(s, k, j))
  {
    var t := s.q[k][j];
    forall i: nat | i < |chunks|
      ensures Count(Relay(s, k, j).q, IsSeq(i)) == 1
    {
      CountMove(s.q, k, j, t, IsSeq(i));
    }
    forall h: Bytes
      ensures Count(Relay(s, k, j).q[3..], Carries(h)) == (if h in s.seen then 1 else 0)
      ensures Occ(s.puts, IsHash(h)) == Count(Relay(s, k, j).q[9..], Carries(h))
    {
      CountFrom(s.q, 3, k, j, t, Carries(h));
      CountFrom(s.q, 9, k, j, t, Carries(h));
    }
  }

  lemma RelayGood(env: Env, chunks: seq<FastCdc.Chunk>, s: State, k: nat, j: nat)
    requires Shape(s) && k < 11 && j < |s.q[k]| && AllGood(env, chunks, s)
    requires k != 2 && k != 5 && (k == 8 ==> s.q[k][j].duplicate)
    ensures AllGood(env, chunks, Relay(s, k, j))
  {
    var holds := GoodAt(env, chunks, s.seen, s.store);
    assert holds(k, s.q[k][j]);
    EverywhereMove(s.q, k, j, s.q[k][j], holds);
  }

  lemma MoveStored(s: State, k: nat, j: nat, t: Token)
    requires Shape(s) && k < 11 && j < |s.q[k]| && Stored(s) && (k < 8 || t == s.q[k][j]) && (k == 8 ==> t.duplicate)
    ensures Everywhere(Move(s.q, k, j, t), StoredAt(s.store))
  {
    var holds := StoredAt(s.store);
    assert holds(k, s.q[k][j]);
    EverywhereMove(s.q, k, j, t, holds);
  }

  /** Passing a token on, by the chunker, a worker or the collector. */
  lemma RelayKeeps(env: Env, chunks: seq<FastCdc.Chunk>, workers: nat, store: map<string, Bytes>, s: State, k: nat, j: nat)
    requires Inv(env, chunks, workers, store, s) && k < 11 && j < |s.q[k]| && k != 2 && k != 5 && k != 8
    requires Flow(workers, Relay(s, k, j))
    ensures Inv(env, chunks, workers, store, Relay(s, k, j))
  {
    RelayGood(env, chunks, s, k, j);
    if s.lost == 0 {
      RelayCounts(chunks, s, k, j);
      MoveStored(s, k, j, s.q[k][j]);
    }
  }

  lemma HashCounts(env: Env, chunks: seq<FastCdc.Chunk>, s: State, j: nat)
    requires Shape(s) && j < |s.q[2]| && Conserved(chunks, s) && Deduped(s)
    ensures Conserved(chunks, Hashed(env, s, j)) && Deduped(Hashed(env, s, j))
  {
    var t := s.q[2][j];
    var h := env.hash(t.data);
    var t' := t.(hash := h, duplicate := h in s.seen);
    var s' := Hashed(env, s, j);
    forall i: nat | i < |chunks|
      ensures Count(s'.q, IsSeq(i)) == 1
    {
      CountMove(s.q, 2, j, t', IsSeq(i));
    }
    forall x: Bytes
      ensures Count(s'.q[3..], Carries(x)) == (if x in s'.seen then 1 else 0)
      ensures Occ(s'.puts, IsHash(x)) == Count(s'.q[9..], Carries(x))
    {
      CountFrom(s.q, 3, 2, j, t', Carries(x));
      CountFrom(s.q, 9, 2, j, t', Carries(x));
    }
  }

  /** More hashes seen, and a backend that still has every good copy. */
  lemma GoodMonotone(env: Env, chunks: seq<FastCdc.Chunk>, s: State, seen: set<Bytes>, store: map<string, Bytes>)
    requires AllGood(env, chunks, s) && s.seen <= seen
    requires forall p: nat, t: Token :: Good(env, chunks, s.seen, s.store, p, t) ==> Good(env, chunks, seen, store, p, t)
    ensures Everywhere(s.q, GoodAt(env, chunks, seen, store))
  {
    var holds := GoodAt(env, chunks, s.seen, s.store);
    forall p: nat, j: nat | p < |s.q| && j < |s.q[p]|
      ensures GoodAt(env, chunks, seen, store)(p, s.q[p][j])
    {
      assert holds(p, s.q[p][j]);
    }
  }

  lemma HashKeeps(env: Env, chunks: seq<FastCdc.Chunk>, workers: nat, store: map<string, Bytes>, s: State, j: nat)
    requires Lawful(env) && Inv(env, chunks, workers, store, s) && j < |s.q[2]|
    ensures Inv(env, chunks, workers, store, Hashed(env, s, j))
  {
    var t := s.q[2][j];
    var h := env.hash(t.data);
    var t' := t.(hash := h, duplicate := h in s.seen);
    var holds := GoodAt(env, chunks, s.seen + {h}, s.store);
    GoodMonotone(env, chunks, s, s.seen + {h}, s.store);
    assert holds(2, s.q[2][j]);
    EverywhereMove(s.q, 2, j, t', holds);
    if s.lost == 0 {
      HashCounts(env, chunks, s, j);
      MoveStored(s, 2, j, t');
    }
  }

  lemma EncodeCounts(chunks: seq<FastCdc.Chunk>, s: State, j: nat, payload: Bytes)
    requires Shape(s) && j < |s.q[5]| && Conserved(chunks, s) && Deduped(s)
    ensures Conserved(chunks, Encoded(s, j, payload)) && Deduped(Encoded(s, j, payload))
  {
    var t' := s.q[5][j].(payload := payload);
    var s' := Encoded(s, j, payload);
    forall i: nat | i < |chunks|
      ensures Count(s'.q, IsSeq(i)) == 1
    {
      CountMove(s.q, 5, j, t', IsSeq(i));
    }
    forall h: Bytes
      ensures Count(s'.q[3..], Carries(h)) == (if h in s.seen then 1 else 0)
      ensures Occ(s.puts, IsHash(h)) == Count(s'.q[9..], Carries(h))
    {
      CountFrom(s.q, 3, 5, j, t', Carries(h));
      CountFrom(s.q, 9, 5, j, t', Carries(h));
    }
  }

  lemma EncodeKeeps(env: Env, chunks: seq<FastCdc.Chunk>, workers: nat, store: map<string, Bytes>, s: State, j: nat, payload: Bytes)
    requires Inv(env, chunks, workers, store, s) && j < |s.q[5]|
    requires !s.q[5][j].duplicate ==> Holds(env, payload, s.q[5][j].data)
    ensures Inv(env, chunks, workers, store, Encoded(s, j, payload))
  {
    var holds := GoodAt(env, chunks, s.seen, s.store);
    assert holds(5, s.q[5][j]);
    EverywhereMove(s.q, 5, j, s.q[5][j].(payload := payload), holds);
    if s.lost == 0 {
      EncodeCounts(chunks, s, j, payload);
      MoveStored(s, 5, j, s.q[5][j].(payload := payload));
    }
  }

  lemma UploadCounts(chunks: seq<FastCdc.Chunk>, s: State, j: nat)
    requires Shape(s) && j < |s.q[8]| && |s.q[8][j].hash| == HASH_SIZE && Conserved(chunks, s) && Deduped(s)
    ensures Conserved(chunks, Uploaded(s, j)) && Deduped(Uploaded(s, j))
  {
    var t := s.q[8][j];
    var s' := Uploaded(s, j);
    forall i: nat | i < |chunks|
      ensures Count(s'.q, IsSeq(i)) == 1
    {
      CountMove(s.q, 8, j, t, IsSeq(i));
    }
    forall h: Bytes
      ensures Count(s'.q[3..], Carries(h)) == (if h in s.seen then 1 else 0)
      ensures Occ(s'.puts, IsHash(h)) == Count(s'.q[9..], Carries(h))
    {
      CountFrom(s.q, 3, 8, j, t, Carries(h));
      CountFrom(s.q, 9, 8, j, t, Carries(h));
      OccAppend(s.puts, t.hash, IsHash(h));
    }
  }

  /** A put replaces an object only by another copy of the same chunk. */
  lemma PutKeepsGood(env: Env, chunks: seq<FastCdc.Chunk>, seen: set<Bytes>, store: map<string, Bytes>, u: Token, p: nat, t: Token)
    requires Distinct(env, chunks) && Good(env, chunks, seen, store, 8, u) && !u.duplicate && Good(env, chunks, seen, store, p, t)
    ensures Good(env, chunks, seen, store[ContentKey(u.hash) := u.payload], p, t)
  {
    if p >= 9 && !t.duplicate {
      KeyInjective(t.hash, u.hash);
      assert Unforged(env, chunks[u.seqNo].data);
    }
  }

  lemma PutWrote(env: Env, chunks: seq<FastCdc.Chunk>, before: map<string, Bytes>, after: map<string, Bytes>, u: Token, seen: set<Bytes>)
    requires Wrote(env, chunks, before, after) && Good(env, chunks, seen, after, 8, u) && !u.duplicate
    ensures Wrote(env, chunks, before, after[ContentKey(u.hash) := u.payload])
  {
    var put := ContentKey(u.hash);
    var after' := after[put := u.payload];
    forall key: string | key in after'
      ensures Written(env, chunks, before, after', key)
    {
      if key == put {
        assert u.seqNo < |chunks| && key == ContentKey(env.hash(chunks[u.seqNo].data)) && Holds(env, after'[key], chunks[u.seqNo].data);
      } else {
        assert key in after && Written(env, chunks, before, after, key);
      }
    }
    assert forall key: string :: key in before ==> key in after ==> key in after';
  }

  /** No other token past the upload carries the hash of one that is being uploaded. */
  lemma OneCarrier(s: State, j: nat, p: nat, i: nat)
    requires Shape(s) && Deduped(s) && j < |s.q[8]| && !s.q[8][j].duplicate && 9 <= p < 12 && i < |s.q[p]| && !s.q[p][i].duplicate
    ensures s.q[p][i].hash != s.q[8][j].hash
  {
    var h := s.q[8][j].hash;
    if s.q[p][i].hash == h {
      var q := s.q[3..];
      assert Carries(h)(q[5][j]) && Carries(h)(q[p - 3][i]);
      CountTwo(q, 5, j, p - 3, i, Carries(h));
    }
  }

  lemma UploadStored(s: State, j: nat)
    requires Shape(s) && j < |s.q[8]| && |s.q[8][j].hash| == HASH_SIZE && Deduped(s) && Stored(s)
    ensures Stored(Uploaded(s, j))
  {
    var u := s.q[8][j];
    if u.duplicate {
      MoveStored(s, 8, j, u);
    } else {
      var holds := StoredAt(s.store[ContentKey(u.hash) := u.payload]);
      forall p: nat, i: nat | p < |s.q| && i < |s.q[p]|
        ensures holds(p, s.q[p][i])
      {
        PutSpares(s, j, p, i);
      }
      EverywhereMove(s.q, 8, j, u, holds);
    }
  }

  lemma PutSpares(s: State, j: nat, p: nat, i: nat)
    requires Shape(s) && j < |s.q[8]| && |s.q[8][j].hash| == HASH_SIZE && !s.q[8][j].duplicate && Deduped(s) && Stored(s)
    requires p < 12 && i < |s.q[p]|
    ensures StoredAt(s.store[ContentKey(s.q[8][j].hash) := s.q[8][j].payload])(p, s.q[p][i])
  {
    assert StoredAt(s.store)(p, s.q[p][i]);
    if p >= 9 && !s.q[p][i].duplicate {
      OneCarrier(s, j, p, i);
      KeyInjective(s.q[p][i].hash, s.q[8][j].hash);
    }
  }

  lemma UploadKeeps(env: Env, chunks: seq<FastCdc.Chunk>, workers: nat, store: map<string, Bytes>, s: State, j: nat)
    requires Distinct(env, chunks) && Inv(env, chunks, workers, store, s) && j < |s.q[8]| && |s.q[8][j].hash| == HASH_SIZE
    ensures Inv(env, chunks, workers, store, Uploaded(s, j))
  {
    var u := s.q[8][j];
    if u.duplicate {
      RelayGood(env, chunks, s, 8, j);
    } else {
      var store' := s.store[ContentKey(u.hash) := u.payload];
      assert GoodAt(env, chunks, s.seen, s.store)(8, s.q[8][j]);
      forall p: nat, t: Token | Good(env, chunks, s.seen, s.store, p, t)
        ensures Good(env, chunks, s.seen, store', p, t)
      {
        PutKeepsGood(env, chunks, s.seen, s.store, u, p, t);
      }
      GoodMonotone(env, chunks, s, s.seen, store');
      EverywhereMove(s.q, 8, j, u, GoodAt(env, chunks, s.seen, store'));
      PutWrote(env, chunks, store, s.store, u, s.seen);
    }
    if s.lost == 0 {
      UploadCounts(chunks, s, j);
      UploadStored(s, j);
    }
  }

  lemma AbandonKeeps(env: Env, chunks: seq<FastCdc.Chunk>, workers: nat, store: map<string, Bytes>, s: State, g: nat, k: nat, j: nat, failed: bool)
    requires (failed || Upset(s)) && (s.failed ==> failed)
    requires Inv(env, chunks, workers, store, s) && g < 3 && (k == Channel(g) + 1 || k == Channel(g) + 2) && j < |s.q[k]| && s.live[g] > 0
    ensures Inv(env, chunks, workers, store, Abandon(s, g, k, j, failed))
  {
    EverywhereWithout(s.q, k, j, GoodAt(env, chunks, s.seen, s.store));
  }

  /** Ends of workers, closed channels, input errors and a cancellation move no token. */
  lemma FlagsKeep(env: Env, chunks: seq<FastCdc.Chunk>, workers: nat, store: map<string, Bytes>, s: State, s': State)
    requires Inv(env, chunks, workers, store, s) && Shape(s') && Flow(workers, s')
    requires s' == s.(closed := s'.closed, live := s'.live, failed := s'.failed, cancelled := s'.cancelled) && (Upset(s) ==> Upset(s'))
    ensures Inv(env, chunks, workers, store, s')
  {
  }

  lemma CutFlow(workers: nat, s: State)
    requires Shape(s) && Flow(workers, s) && !s.closed[0] && |s.q[0]| > 0
    ensures Flow(workers, Relay(s, 0, 0))
  {
  }

  lemma ReceiveFlow(workers: nat, s: State, g: nat)
    requires Shape(s) && Flow(workers, s) && g < 3 && Busy(s, g) < s.live[g] && |s.q[Channel(g)]| > 0
    ensures Flow(workers, Relay(s, Channel(g), 0))
  {
  }

  lemma SendFlow(workers: nat, s: State, g: nat, j: nat)
    requires Shape(s) && Flow(workers, s) && g < 3 && j < |s.q[Channel(g) + 2]|
    ensures Flow(workers, Relay(s, Channel(g) + 2, j))
  {
  }

  lemma CollectFlow(workers: nat, s: State)
    requires Shape(s) && Flow(workers, s) && |s.q[10]| > 0
    ensures Flow(workers, Relay(s, 10, 0))
  {
  }

  lemma RelayStep(env: Env, chunks: seq<FastCdc.Chunk>, workers: nat, store: map<string, Bytes>, s: State, e: Event)
    requires Lawful(env) && Distinct(env, chunks) && Inv(env, chunks, workers, store, s) && Step(env, s, e).Some?
    requires e.Cut? || e.Collect?
    ensures Inv(env, chunks, workers, store, Step(env, s, e).value)
  {
    match e
    case Cut =>
      CutFlow(workers, s);
      RelayKeeps(env, chunks, workers, store, s, 0, 0);
    case Collect =>
      CollectFlow(workers, s);
      RelayKeeps(env, chunks, workers, store, s, 10, 0);
  }

  lemma ReceiveStep(env: Env, chunks: seq<FastCdc.Chunk>, workers: nat, store: map<string, Bytes>, s: State, g: nat)
    requires Inv(env, chunks, workers, store, s) && Step(env, s, Receive(g)).Some?
    ensures Inv(env, chunks, workers, store, Step(env, s, Receive(g)).value)
  {
    ReceiveFlow(workers, s, g);
    RelayKeeps(env, chunks, workers, store, s, Channel(g), 0);
  }

  lemma SendStep(env: Env, chunks: seq<FastCdc.Chunk>, workers: nat, store: map<string, Bytes>, s: State, g: nat, j: nat)
    requires Inv(env, chunks, workers, store, s) && Step(env, s, Send(g, j)).Some?
    ensures Inv(env, chunks, workers, store, Step(env, s, Send(g, j)).value)
  {
    SendFlow(workers, s, g, j);
    RelayKeeps(env, chunks, workers, store, s, Channel(g) + 2, j);
  }

  lemma FlagStep(env: Env, chunks: seq<FastCdc.Chunk>, workers: nat, store: map<string, Bytes>, s: State, e: Event)
    requires Lawful(env) && Distinct(env, chunks) && Inv(env, chunks, workers, store, s) && Step(env, s, e).Some?
    requires e.EndInput? || e.InputFails? || e.Exit? || e.CloseOutput? || e.Cancel?
    ensures Inv(env, chunks, workers, store, Step(env, s, e).value)
  {
    FlagsKeep(env, chunks, workers, store, s, Step(env, s, e).value);
  }

  lemma WorkStep(env: Env, chunks: seq<FastCdc.Chunk>, workers: nat, store: map<string, Bytes>, s: State, e: Event)
    requires Lawful(env) && Distinct(env, chunks) && Inv(env, chunks, workers, store, s) && Step(env, s, e).Some?
    requires e.HashChunk? || e.EncodeChunk? || e.UploadChunk?
    ensures Inv(env, chunks, workers, store, Step(env, s, e).value)
  {
    match e
    case HashChunk(j) => HashKeeps(env, chunks, workers, store, s, j);
    case EncodeChunk(j, nonce) => EncodeStep(env, chunks, workers, store, s, j, nonce);
    case UploadChunk(j) => UploadKeeps(env, chunks, workers, store, s, j);
  }

  lemma EncodeStep(env: Env, chunks: seq<FastCdc.Chunk>, workers: nat, store: map<string, Bytes>, s: State, j: nat, nonce: Bytes)
    requires Lawful(env) && Inv(env, chunks, workers, store, s) && Step(env, s, EncodeChunk(j, nonce)).Some?
    ensures Inv(env, chunks, workers, store, Step(env, s, EncodeChunk(j, nonce)).value)
  {
    if s.q[5][j].duplicate {
      EncodeKeeps(env, chunks, workers, store, s, j, []);
    } else {
      EncodeHolds(env, s.q[5][j].data, nonce);
      EncodeKeeps(env, chunks, workers, store, s, j, Encode(env, s.q[5][j].data, nonce).value);
    }
  }

  lemma GiveUpStep(env: Env, chunks: seq<FastCdc.Chunk>, workers: nat, store: map<string, Bytes>, s: State, e: Event)
    requires Inv(env, chunks, workers, store, s) && Step(env, s, e).Some? && (e.WorkFails? || e.Drop?)
    ensures Inv(env, chunks, workers, store, Step(env, s, e).value)
  {
    match e
    case WorkFails(g, j) => AbandonKeeps(env, chunks, workers, store, s, g, Channel(g) + 1, j, true);
    case Drop(g, j) => AbandonKeeps(env, chunks, workers, store, s, g, Channel(g) + 2, j, s.failed);
  }

  lemma StepKeeps(env: Env, chunks: seq<FastCdc.Chunk>, workers: nat, store: map<string, Bytes>, s: State, e: Event)
    requires Lawful(env) && Distinct(env, chunks) && Inv(env, chunks, workers, store, s) && Step(env, s, e).Some?
    ensures Inv(env, chunks, workers, store, Step(env, s, e).value)
  {
    if e.Cut? || e.Collect? {
      RelayStep(env, chunks, workers, store, s, e);
    } else if e.Receive? {
      ReceiveStep(env, chunks, workers, store, s, e.pool);
    } else if e.Send? {
      SendStep(env, chunks, workers, store, s, e.pool, e.j);
    } else if e.EndInput? || e.InputFails? || e.Exit? || e.CloseOutput? || e.Cancel? {
      FlagStep(env, chunks, workers, store, s, e);
    } else if e.WorkFails? || e.Drop? {
      GiveUpStep(env, chunks, workers, store, s, e);
    } else {
      WorkStep(env, chunks, workers, store, s, e);
    }
  }

  lemma {:induction false} RunKeeps(env: Env, chunks: seq<FastCdc.Chunk>, workers: nat, store: map<string, Bytes>, s: State, events: seq<Event>)
    requires Lawful(env) && Distinct(env, chunks) && Inv(env, chunks, workers, store, s) && Run(env, s, events).Some?
    ensures Inv(env, chunks, workers, store, Run(env, s, events).value)
    decreases |events|
  {
    if |events| > 0 {
      StepKeeps(env, chunks, workers, store, s, events[0]);
      RunKeeps(env, chunks, workers, store, Step(env, s, events[0]).value, events[1..]);
    }
  }

  // ---- the start ----

  lemma {:induction false} RawCount(chunks: seq<FastCdc.Chunk>, tokens: seq<Token>, from: nat, i: nat)
    requires |tokens| + from == |chunks| && forall j | 0 <= j < |tokens| :: tokens[j].seqNo == from + j
    ensures Occ(tokens, IsSeq(i)) == if from <= i < |chunks| then 1 else 0
    decreases |tokens|
  {
    if |tokens| > 0 {
      RawCount(chunks, tokens[1..], from + 1, i);
    }
  }

  lemma CountFirst<T>(q: seq<seq<T>>, f: T -> bool)
    requires |q| > 0 && forall p | 0 < p < |q| :: |q[p]| == 0
    ensures Count(q, f) == Occ(q[0], f)
  {
    CountEmpty(q[1..], f);
  }

  lemma {:induction false} CountEmpty<T>(q: seq<seq<T>>, f: T -> bool)
    requires forall p | 0 <= p < |q| :: |q[p]| == 0
    ensures Count(q, f) == 0
  {
    if |q| > 0 {
      CountEmpty(q[1..], f);
    }
  }

  /** At the start only the first queue has anything. */
  lemma StartQueues(chunks: seq<FastCdc.Chunk>, workers: nat, capacity: nat, store: map<string, Bytes>)
    ensures var q := Start(chunks, workers, capacity, store).q; |q[0]| == |chunks| && (forall p | 0 < p < 12 :: |q[p]| == 0) && forall j | 0 <= j < |q[0]| :: q[0][j] == Raw(chunks, j)
  {
  }

  lemma StartCounts(chunks: seq<FastCdc.Chunk>, s: State)
    requires Shape(s) && |s.q[0]| == |chunks| && (forall j | 0 <= j < |s.q[0]| :: s.q[0][j].seqNo == j) && forall p | 0 < p < 12 :: |s.q[p]| == 0
    requires s.seen == {} && s.puts == []
    ensures Conserved(chunks, s) && Deduped(s)
  {
    forall i: nat | i < |chunks|
      ensures Count(s.q, IsSeq(i)) == 1
    {
      CountFirst(s.q, IsSeq(i));
      RawCount(chunks, s.q[0], 0, i);
    }
    forall h: Bytes
      ensures Count(s.q[3..], Carries(h)) == 0 && Occ(s.puts, IsHash(h)) == 0 && Count(s.q[9..], Carries(h)) == 0
    {
      CountEmpty(s.q[3..], Carries(h));
      CountEmpty(s.q[9..], Carries(h));
    }
  }

  lemma StartInv(env: Env, chunks: seq<FastCdc.Chunk>, workers: nat, capacity: nat, store: map<string, Bytes>)
    ensures Inv(env, chunks, workers, store, Start(chunks, workers, capacity, store))
  {
    StartQueues(chunks, workers, capacity, store);
    StartCounts(chunks, Start(chunks, workers, capacity, store));
  }

  /** Nothing is left on the way. */
  lemma Drained(env: Env, chunks: seq<FastCdc.Chunk>, workers: nat, store: map<string, Bytes>, s: State)
    requires Inv(env, chunks, workers, store, s) && workers > 0 && Succeeds(s) && s.lost == 0
    ensures forall p | 0 <= p < 11 :: |s.q[p]| == 0
  {
    assert s.live[2] == 0 && s.closed[2] && |s.q[7]| == 0 && |s.q[8]| == 0 && |s.q[9]| == 0;
    assert s.live[1] == 0 && s.closed[1] && |s.q[4]| == 0 && |s.q[5]| == 0 && |s.q[6]| == 0;
    assert s.live[0] == 0 && s.closed[0] && |s.q[1]| == 0 && |s.q[2]| == 0 && |s.q[3]| == 0;
  }
}
