/** The pipeline ends: with bounded channels no run is stuck before its end, and no run goes on for ever. */
module Progress {
  import opened Bytes
  import opened Options
  import opened Queues
  import opened ChunkStore
  import opened Pipeline
  import Envelope
  import FastCdc

  // ---- no run goes on for ever ----

  /** The moves the tokens have before them. */
  function Moves(q: seq<seq<Token>>): nat
    requires |q| == 12
  {
    11 * |q[0]| + 10 * |q[1]| + 9 * |q[2]| + 8 * |q[3]| + 7 * |q[4]| + 6 * |q[5]|
    + 5 * |q[6]| + 4 * |q[7]| + 3 * |q[8]| + 2 * |q[9]| + |q[10]|
  }

  function Unclosed(closed: seq<bool>): nat
    requires |closed| == 4
  {
    (if closed[0] then 0 else 1) + (if closed[1] then 0 else 1) + (if closed[2] then 0 else 1) + (if closed[3] then 0 else 1)
  }

  /** What is left to do: moves of tokens, ends of workers, closings of channels, a cancellation. */
  function Measure(s: State): nat
    requires Shape(s)
  {
    Moves(s.q) + s.live[0] + s.live[1] + s.live[2] + Unclosed(s.closed) + if s.cancelled then 0 else 1
  }

  lemma MoveShrinks(q: seq<seq<Token>>, k: nat, j: nat, t: Token)
    requires |q| == 12 && k < 11 && j < |q[k]|
    ensures Moves(Move(q, k, j, t)) == Moves(q) - 1
  {
    var q' := Move(q, k, j, t);
    assert |q'[k]| == |q[k]| - 1 && |q'[k + 1]| == |q[k + 1]| + 1;
    assert forall p | 0 <= p < 12 && p != k && p != k + 1 :: q'[p] == q[p];
  }

  lemma WithoutShrinks(q: seq<seq<Token>>, k: nat, j: nat)
    requires |q| == 12 && k < 11 && j < |q[k]|
    ensures Moves(q[k := Without(q[k], j)]) < Moves(q)
  {
    var q' := q[k := Without(q[k], j)];
    assert |q'[k]| == |q[k]| - 1;
    assert forall p | 0 <= p < 12 && p != k :: q'[p] == q[p];
  }

  predicate Passes(e: Event) {
    e.Cut? || e.Receive? || e.Send? || e.Collect?
  }

  predicate Works(e: Event) {
    e.HashChunk? || e.EncodeChunk? || e.UploadChunk?
  }

  /** A chunk is passed on. */
  lemma PassShrinks(env: Env, s: State, e: Event)
    requires Shape(s) && Step(env, s, e).Some? && Passes(e)
    ensures Measure(Step(env, s, e).value) < Measure(s)
  {
    match e
    case Cut => MoveShrinks(s.q, 0, 0, s.q[0][0]);
    case Receive(g) => MoveShrinks(s.q, Channel(g), 0, s.q[Channel(g)][0]);
    case Send(g, j) => MoveShrinks(s.q, Channel(g) + 2, j, s.q[Channel(g) + 2][j]);
    case Collect => MoveShrinks(s.q, 10, 0, s.q[10][0]);
  }

  lemma HashShrinks(env: Env, s: State, j: nat)
    requires Shape(s) && j < |s.q[2]|
    ensures Measure(Hashed(env, s, j)) < Measure(s)
  {
    var h := env.hash(s.q[2][j].data);
    MoveShrinks(s.q, 2, j, s.q[2][j].(hash := h, duplicate := h in s.seen));
  }

  lemma EncodeShrinks(s: State, j: nat, payload: Bytes)
    requires Shape(s) && j < |s.q[5]|
    ensures Measure(Encoded(s, j, payload)) < Measure(s)
  {
    MoveShrinks(s.q, 5, j, s.q[5][j].(payload := payload));
  }

  lemma UploadShrinks(s: State, j: nat)
    requires Shape(s) && j < |s.q[8]| && |s.q[8][j].hash| == HASH_SIZE
    ensures Measure(Uploaded(s, j)) < Measure(s)
  {
    MoveShrinks(s.q, 8, j, s.q[8][j]);
  }

  /** A chunk is worked on. */
  lemma WorkShrinks(env: Env, s: State, e: Event)
    requires Shape(s) && Step(env, s, e).Some? && Works(e)
    ensures Measure(Step(env, s, e).value) < Measure(s)
  {
    match e
    case HashChunk(j) => HashShrinks(env, s, j);
    case EncodeChunk(j, nonce) => EncodeShrinks(s, j, if s.q[5][j].duplicate then [] else Encode(env, s.q[5][j].data, nonce).value);
    case UploadChunk(j) => UploadShrinks(s, j);
  }

  lemma AbandonShrinks(s: State, g: nat, k: nat, j: nat, failed: bool)
    requires Shape(s) && g < 3 && k < 11 && j < |s.q[k]| && s.live[g] > 0
    ensures Measure(Abandon(s, g, k, j, failed)) < Measure(s)
  {
    WithoutShrinks(s.q, k, j);
  }

  /** A worker gives up its chunk. */
  lemma GiveUpShrinks(env: Env, s: State, e: Event)
    requires Shape(s) && Step(env, s, e).Some? && (e.WorkFails? || e.Drop?)
    ensures Measure(Step(env, s, e).value) < Measure(s)
  {
    match e
    case WorkFails(g, j) => AbandonShrinks(s, g, Channel(g) + 1, j, true);
    case Drop(g, j) => AbandonShrinks(s, g, Channel(g) + 2, j, s.failed);
  }

  /** A worker ends, a channel is closed, or the caller cancels. */
  lemma FlagShrinks(env: Env, s: State, e: Event)
    requires Shape(s) && Step(env, s, e).Some? && (e.EndInput? || e.InputFails? || e.Exit? || e.CloseOutput? || e.Cancel?)
    ensures Measure(Step(env, s, e).value) < Measure(s)
  {
  }

  lemma StepShrinks(env: Env, s: State, e: Event)
    requires Shape(s) && Step(env, s, e).Some?
    ensures Measure(Step(env, s, e).value) < Measure(s)
  {
    if Passes(e) {
      PassShrinks(env, s, e);
    } else if Works(e) {
      WorkShrinks(env, s, e);
    } else if e.WorkFails? || e.Drop? {
      GiveUpShrinks(env, s, e);
    } else {
      FlagShrinks(env, s, e);
    }
  }

  lemma {:induction false} RunShrinks(env: Env, s: State, events: seq<Event>)
    requires Shape(s) && Run(env, s, events).Some?
    ensures |events| + Measure(Run(env, s, events).value) <= Measure(s)
    decreases |events|
  {
    if |events| > 0 {
      StepShrinks(env, s, events[0]);
      RunShrinks(env, Step(env, s, events[0]).value, events[1..]);
    }
  }

  // ---- no run is stuck before its end ----

  /** The collector has seen the end of its channel. */
  predicate Ended(s: State)
    requires Shape(s)
  {
    s.closed[3] && |s.q[10]| == 0
  }

  predicate Failing(e: Event) {
    e.InputFails? || e.WorkFails? || e.Drop? || e.Cancel?
  }

  /** Chunks can be sealed under this nonce. */
  predicate Ready(env: Env, nonce: Bytes) {
    Envelope.EnvelopeAlgorithm(env.cipher.algorithm).Some? && 0 < |nonce| < 256 && 0 < |env.keyId| < 65536
  }

  /** The event can happen, and is no failure as long as chunks can be sealed. */
  ghost predicate Enabled(env: Env, nonce: Bytes, s: State, e: Event)
    requires Shape(s)
  {
    Step(env, s, e).Some? && (Ready(env, nonce) ==> !Failing(e))
  }

  /** The next step of the work on a chunk. */
  lemma WorkEnabled(env: Env, chunks: seq<FastCdc.Chunk>, workers: nat, store: map<string, Bytes>, s: State, g: nat, nonce: Bytes) returns (e: Event)
    requires Inv(env, chunks, workers, store, s) && g < 3 && |s.q[Channel(g) + 1]| > 0
    ensures Enabled(env, nonce, s, e)
  {
    assert GoodAt(env, chunks, s.seen, s.store)(Channel(g) + 1, s.q[Channel(g) + 1][0]);
    if g == 0 {
      e := HashChunk(0);
    } else if g == 2 {
      e := UploadChunk(0);
    } else if s.q[5][0].duplicate || Encode(env, s.q[5][0].data, nonce).Some? {
      e := EncodeChunk(0, nonce);
    } else {
      e := WorkFails(1, 0);
    }
  }

  /** While its output has room, a pool can go on, unless it waits for its input. */
  lemma PoolEnabled(env: Env, chunks: seq<FastCdc.Chunk>, workers: nat, store: map<string, Bytes>, s: State, g: nat, nonce: Bytes)
    returns (r: Option<Event>)
    requires Inv(env, chunks, workers, store, s) && g < 3 && |s.q[Channel(g) + 3]| < s.capacity && !s.closed[g + 1]
    ensures r.Some? ==> Enabled(env, nonce, s, r.value)
    ensures r.None? ==> |s.q[Channel(g)]| == 0 && !s.closed[g]
  {
    if |s.q[Channel(g) + 2]| > 0 {
      r := Some(Send(g, 0));
    } else if |s.q[Channel(g) + 1]| > 0 {
      var e := WorkEnabled(env, chunks, workers, store, s, g, nonce);
      r := Some(e);
    } else if s.live[g] == 0 {
      r := Some(CloseOutput(g));
    } else if |s.q[Channel(g)]| > 0 {
      r := Some(Receive(g));
    } else if s.closed[g] {
      r := Some(Exit(g));
    } else {
      r := None;
    }
  }

  /** In every reachable state before the end some goroutine can move. */
  lemma NotStuck(env: Env, chunks: seq<FastCdc.Chunk>, workers: nat, store: map<string, Bytes>, s: State, nonce: Bytes) returns (e: Event)
    requires Inv(env, chunks, workers, store, s) && s.capacity > 0 && !Ended(s)
    ensures Enabled(env, nonce, s, e)
  {
    if |s.q[10]| > 0 {
      return Collect;
    }
    var upload := PoolEnabled(env, chunks, workers, store, s, 2, nonce);
    if upload.Some? {
      return upload.value;
    }
    var encode := PoolEnabled(env, chunks, workers, store, s, 1, nonce);
    if encode.Some? {
      return encode.value;
    }
    var hash := PoolEnabled(env, chunks, workers, store, s, 0, nonce);
    if hash.Some? {
      return hash.value;
    }
    e := if |s.q[0]| > 0 then Cut else EndInput;
  }

  lemma CapacityKept(env: Env, s: State, e: Event)
    requires Shape(s) && Step(env, s, e).Some?
    ensures Step(env, s, e).value.capacity == s.capacity
    ensures !Failing(e) ==> Step(env, s, e).value.failed == s.failed && Step(env, s, e).value.cancelled == s.cancelled
  {
  }

  lemma {:induction false} RunCapacity(env: Env, s: State, events: seq<Event>)
    requires Shape(s) && Run(env, s, events).Some?
    ensures Run(env, s, events).value.capacity == s.capacity
    decreases |events|
  {
    if |events| > 0 {
      CapacityKept(env, s, events[0]);
      RunCapacity(env, Step(env, s, events[0]).value, events[1..]);
    }
  }

  /**
   * Feed ends: from its start no run has more than eleven moves for each chunk, an end for each worker,
   * a closing for each channel and a cancellation, and before the end of a run another event is always
   * possible.
   */
  lemma FeedEnds(env: Env, chunks: seq<FastCdc.Chunk>, workers: nat, capacity: nat, store: map<string, Bytes>, events: seq<Event>)
    requires Lawful(env) && Distinct(env, chunks) && capacity > 0 && Run(env, Start(chunks, workers, capacity, store), events).Some?
    ensures |events| <= 11 * |chunks| + 3 * workers + 5
    ensures var s := Run(env, Start(chunks, workers, capacity, store), events).value;
            Ended(s) || exists e: Event :: Step(env, s, e).Some?
  {
    var start := Start(chunks, workers, capacity, store);
    StartInv(env, chunks, workers, capacity, store);
    RunKeeps(env, chunks, workers, store, start, events);
    RunShrinks(env, start, events);
    RunCapacity(env, start, events);
    StartQueues(chunks, workers, capacity, store);
    if !Ended(Run(env, start, events).value) {
      var e := NotStuck(env, chunks, workers, store, Run(env, start, events).value, []);
    }
  }

  /** From any reachable state the pipeline can run to its end without a failure. */
  lemma {:induction false} CanFinish(env: Env, chunks: seq<FastCdc.Chunk>, workers: nat, store: map<string, Bytes>, s: State, nonce: Bytes)
    returns (events: seq<Event>)
    requires Lawful(env) && Distinct(env, chunks) && Inv(env, chunks, workers, store, s) && s.capacity > 0 && Ready(env, nonce)
    ensures Run(env, s, events).Some?
    ensures Ended(Run(env, s, events).value)
    ensures Run(env, s, events).value.failed == s.failed && Run(env, s, events).value.cancelled == s.cancelled
    decreases Measure(s)
  {
    if Ended(s) {
      events := [];
    } else {
      var e := NotStuck(env, chunks, workers, store, s, nonce);
      var t := Step(env, s, e).value;
      StepKeeps(env, chunks, workers, store, s, e);
      StepShrinks(env, s, e);
      CapacityKept(env, s, e);
      var rest := CanFinish(env, chunks, workers, store, t, nonce);
      events := [e] + rest;
      assert events[1..] == rest;
    }
  }

  /** So a backup that has not failed and was not cancelled can still succeed, whatever its workers have done so far. */
  lemma FeedCanSucceed(env: Env, chunks: seq<FastCdc.Chunk>, workers: nat, capacity: nat, store: map<string, Bytes>, before: seq<Event>, nonce: Bytes)
    returns (events: seq<Event>)
    requires Lawful(env) && Distinct(env, chunks) && capacity > 0 && Ready(env, nonce)
    requires Run(env, Start(chunks, workers, capacity, store), before).Some?
    ensures var s := Run(env, Start(chunks, workers, capacity, store), before).value;
            !Upset(s) ==> Run(env, s, events).Some? && Succeeds(Run(env, s, events).value) && !Upset(Run(env, s, events).value)
  {
    var start := Start(chunks, workers, capacity, store);
    StartInv(env, chunks, workers, capacity, store);
    RunKeeps(env, chunks, workers, store, start, before);
    RunCapacity(env, start, before);
    events := CanFinish(env, chunks, workers, store, Run(env, start, before).value, nonce);
  }

  // ---- failures are reported ----

  /** A failing read, or a worker that fails on its item. */
  predicate Breaks(e: Event) {
    e.InputFails? || e.WorkFails?
  }

  /** They may happen whenever the input is open, or a worker has an item. */
  lemma CanBreak(env: Env, s: State, g: nat, j: nat)
    requires Shape(s) && g < 3
    ensures Step(env, s, InputFails).Some? <==> !s.closed[0]
    ensures Step(env, s, WorkFails(g, j)).Some? <==> s.live[g] > 0 && j < |s.q[Channel(g) + 1]|
  {
  }

  lemma FailedStays(env: Env, s: State, e: Event)
    requires Shape(s) && Step(env, s, e).Some?
    ensures s.failed || Breaks(e) <==> Step(env, s, e).value.failed
  {
  }

  /** A Feed reports an error if and only if a read or a worker has failed. */
  lemma {:induction false} FailedIff(env: Env, s: State, events: seq<Event>)
    requires Shape(s) && Run(env, s, events).Some?
    ensures Run(env, s, events).value.failed <==> s.failed || exists i :: 0 <= i < |events| && Breaks(events[i])
    decreases |events|
  {
    if |events| > 0 {
      FailedStays(env, s, events[0]);
      FailedIff(env, Step(env, s, events[0]).value, events[1..]);
      assert forall i | 0 < i < |events| :: events[i] == events[1..][i - 1];
      assert forall i | 0 <= i < |events| - 1 :: events[1..][i] == events[i + 1];
    }
  }

  // ---- channels are bounded ----

  /** No channel holds more items than its size. */
  ghost predicate Bounded(s: State) {
    && Shape(s)
    && |s.q[1]| <= s.capacity && |s.q[4]| <= s.capacity && |s.q[7]| <= s.capacity && |s.q[10]| <= s.capacity
  }

  lemma MoveBounded(s: State, k: nat, j: nat, t: Token, s': State)
    requires Bounded(s) && k < 11 && j < |s.q[k]| && s'.q == Move(s.q, k, j, t) && s'.capacity == s.capacity && Shape(s')
    requires k + 1 in {1, 4, 7, 10} ==> |s.q[k + 1]| < s.capacity
    ensures Bounded(s')
  {
  }

  lemma StepBounded(env: Env, s: State, e: Event)
    requires Bounded(s) && Step(env, s, e).Some?
    ensures Bounded(Step(env, s, e).value)
  {
    var s' := Step(env, s, e).value;
    match e
    case Cut => MoveBounded(s, 0, 0, s.q[0][0], s');
    case Receive(g) => MoveBounded(s, Channel(g), 0, s.q[Channel(g)][0], s');
    case HashChunk(_) => WorkBounded(env, s, e);
    case EncodeChunk(_, _) => WorkBounded(env, s, e);
    case UploadChunk(_) => WorkBounded(env, s, e);
    case Send(g, j) => MoveBounded(s, Channel(g) + 2, j, s.q[Channel(g) + 2][j], s');
    case Collect => MoveBounded(s, 10, 0, s.q[10][0], s');
    case _ =>
  }

  lemma WorkBounded(env: Env, s: State, e: Event)
    requires Bounded(s) && Step(env, s, e).Some? && (e.HashChunk? || e.EncodeChunk? || e.UploadChunk?)
    ensures Bounded(Step(env, s, e).value)
  {
    var s' := Step(env, s, e).value;
    match e
    case HashChunk(j) => MoveBounded(s, 2, j, s'.q[3][|s.q[3]|], s');
    case EncodeChunk(j, _) => MoveBounded(s, 5, j, s'.q[6][|s.q[6]|], s');
    case UploadChunk(j) => MoveBounded(s, 8, j, s.q[8][j], s');
  }

  /** In no run does a channel hold more than its capacity: a worker with a result waits until there is room. */
  lemma {:induction false} RunBounded(env: Env, s: State, events: seq<Event>)
    requires Bounded(s) && Run(env, s, events).Some?
    ensures Bounded(Run(env, s, events).value)
    decreases |events|
  {
    if |events| > 0 {
      StepBounded(env, s, events[0]);
      RunBounded(env, Step(env, s, events[0]).value, events[1..]);
    }
  }
}
