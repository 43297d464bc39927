/**
 * What a cancelled context does to Feed.  A worker whose send loses against the cancelled context ends
 * without recording an error, so that Feed may return without one although chunks are missing.
 */
module Cancellation {
  import opened Bytes
  import opened Queues
  import opened ChunkStore
  import opened Pipeline
  import opened Progress
  import opened Feed
  import FastCdc

  // ---- every chunk is in a queue or lost ----

  ghost function Any(): Token -> bool {
    (t: Token) => true
  }

  /** The chunks in all queues together. */
  ghost function Tokens(s: State): nat {
    Count(s.q, Any())
  }

  lemma MoveTokens(q: seq<seq<Token>>, k: nat, j: nat, t: Token)
    requires k + 1 < |q| && j < |q[k]|
    ensures Count(Move(q, k, j, t), Any()) == Count(q, Any())
  {
    CountMove(q, k, j, t, Any());
  }

  lemma AbandonTokens(s: State, g: nat, k: nat, j: nat, failed: bool)
    requires Shape(s) && g < 3 && k < 12 && j < |s.q[k]| && s.live[g] > 0
    ensures Tokens(Abandon(s, g, k, j, failed)) + 1 == Tokens(s)
  {
    OccWithout(s.q[k], j, Any());
    CountUpdate(s.q, k, Without(s.q[k], j), Any());
  }

  lemma PassTokens(env: Env, s: State, e: Event)
    requires Shape(s) && Step(env, s, e).Some? && Passes(e)
    ensures Tokens(Step(env, s, e).value) + Step(env, s, e).value.lost == Tokens(s) + s.lost
  {
    match e
    case Cut => MoveTokens(s.q, 0, 0, s.q[0][0]);
    case Receive(g) => MoveTokens(s.q, Channel(g), 0, s.q[Channel(g)][0]);
    case Send(g, j) => MoveTokens(s.q, Channel(g) + 2, j, s.q[Channel(g) + 2][j]);
    case Collect => MoveTokens(s.q, 10, 0, s.q[10][0]);
  }

  lemma HashTokens(env: Env, s: State, j: nat)
    requires Shape(s) && j < |s.q[2]|
    ensures Tokens(Hashed(env, s, j)) == Tokens(s)
  {
    var h := env.hash(s.q[2][j].data);
    MoveTokens(s.q, 2, j, s.q[2][j].(hash := h, duplicate := h in s.seen));
  }

  lemma WorkTokens(env: Env, s: State, e: Event)
    requires Shape(s) && Step(env, s, e).Some? && Works(e)
    ensures Tokens(Step(env, s, e).value) + Step(env, s, e).value.lost == Tokens(s) + s.lost
  {
    match e
    case HashChunk(j) => HashTokens(env, s, j);
    case EncodeChunk(j, nonce) =>
      MoveTokens(s.q, 5, j, s.q[5][j].(payload := if s.q[5][j].duplicate then [] else Encode(env, s.q[5][j].data, nonce).value));
    case UploadChunk(j) => MoveTokens(s.q, 8, j, s.q[8][j]);
  }

  lemma StepTokens(env: Env, s: State, e: Event)
    requires Shape(s) && Step(env, s, e).Some?
    ensures Tokens(Step(env, s, e).value) + Step(env, s, e).value.lost == Tokens(s) + s.lost
  {
    if Passes(e) {
      PassTokens(env, s, e);
    } else if Works(e) {
      WorkTokens(env, s, e);
    } else if e.WorkFails? {
      AbandonTokens(s, e.pool, Channel(e.pool) + 1, e.j, true);
    } else if e.Drop? {
      AbandonTokens(s, e.pool, Channel(e.pool) + 2, e.j, s.failed);
    }
  }

  lemma {:induction false} RunTokens(env: Env, s: State, events: seq<Event>)
    requires Shape(s) && Run(env, s, events).Some?
    ensures Tokens(Run(env, s, events).value) + Run(env, s, events).value.lost == Tokens(s) + s.lost
    decreases |events|
  {
    if |events| > 0 {
      StepTokens(env, s, events[0]);
      RunTokens(env, Step(env, s, events[0]).value, events[1..]);
    }
  }

  lemma {:induction false} OccAny(ts: seq<Token>)
    ensures Occ(ts, Any()) == |ts|
  {
    if |ts| > 0 {
      OccAny(ts[1..]);
    }
  }

  lemma {:induction false} CountHas(q: seq<seq<Token>>, p: nat)
    requires p < |q|
    ensures |q[p]| <= Count(q, Any())
  {
    OccAny(q[0]);
    if p > 0 {
      CountHas(q[1..], p - 1);
    }
  }

  lemma StartTokens(chunks: seq<FastCdc.Chunk>, workers: nat, capacity: nat, store: map<string, Bytes>)
    ensures Tokens(Start(chunks, workers, capacity, store)) == |chunks|
  {
    StartQueues(chunks, workers, capacity, store);
    CountFirst(Start(chunks, workers, capacity, store).q, Any());
    OccAny(Start(chunks, workers, capacity, store).q[0]);
  }

  // ---- when a success is one ----

  /**
   * A Feed that returns no error has described every chunk if and only if no worker gave up an item,
   * and a worker gives one up only when the caller cancelled.
   */
  lemma SuccessIsComplete(env: Env, chunks: seq<FastCdc.Chunk>, workers: nat, capacity: nat, store: map<string, Bytes>, events: seq<Event>)
    requires Lawful(env) && Distinct(env, chunks) && workers > 0
    requires var r := Run(env, Start(chunks, workers, capacity, store), events); r.Some? && Succeeds(r.value)
    ensures var s := Run(env, Start(chunks, workers, capacity, store), events).value;
            (Describes(env, chunks, Result(env, s)) <==> s.lost == 0) && (s.lost > 0 ==> s.cancelled)
  {
    var start := Start(chunks, workers, capacity, store);
    StartInv(env, chunks, workers, capacity, store);
    RunKeeps(env, chunks, workers, store, start, events);
    var s := Run(env, start, events).value;
    if s.lost == 0 {
      FeedDescribes(env, chunks, workers, store, s);
    } else {
      StartTokens(chunks, workers, capacity, store);
      RunTokens(env, start, events);
      CountHas(s.q, 11);
      SortAscending(RefsOf(env, s.q[11]));
    }
  }

  // ---- and it may not be one ----

  /** The calls by which one worker loses one chunk. */
  const LOSS: seq<Event> := [Cut, EndInput, Receive(0), HashChunk(0), Cancel, Drop(0, 0), CloseOutput(0), Exit(1), CloseOutput(1), Exit(2), CloseOutput(2)]

  /** Where the chunk is before call i of them; 12 when it is lost. */
  const PLACE: seq<nat> := [0, 1, 1, 2, 3, 3, 12, 12, 12, 12, 12, 12]

  ghost predicate Before(s: State, i: nat) {
    && Shape(s) && i <= 11 && !s.failed && s.capacity == 1
    && (forall p | 0 <= p < 12 :: |s.q[p]| == if p == PLACE[i] then 1 else 0)
    && s.closed == [i > 1, i > 6, i > 8, i > 10]
    && s.live == [if i > 5 then 0 else 1, if i > 7 then 0 else 1, if i > 9 then 0 else 1]
    && (s.cancelled <==> i > 4)
  }

  lemma ChunkLost(env: Env, s: State, i: nat)
    requires Before(s, i) && i < 6
    ensures Step(env, s, LOSS[i]).Some? && Before(Step(env, s, LOSS[i]).value, i + 1)
  {
  }

  lemma AllClosed(env: Env, s: State, i: nat)
    requires Before(s, i) && 6 <= i < 11
    ensures Step(env, s, LOSS[i]).Some? && Before(Step(env, s, LOSS[i]).value, i + 1)
  {
  }

  lemma {:induction false} LossRuns(env: Env, s: State, i: nat)
    requires Before(s, i)
    ensures Run(env, s, LOSS[i..]).Some? && Before(Run(env, s, LOSS[i..]).value, 11)
    decreases 11 - i
  {
    if i < 11 {
      if i < 6 {
        ChunkLost(env, s, i);
      } else {
        AllClosed(env, s, i);
      }
      assert LOSS[i..][1..] == LOSS[i + 1..];
      LossRuns(env, Step(env, s, LOSS[i]).value, i + 1);
    }
  }

  /** Feed on any single chunk may return no error and no reference. */
  lemma SilentLoss(env: Env, chunk: FastCdc.Chunk, store: map<string, Bytes>)
    ensures var r := Run(env, Start([chunk], 1, 1, store), LOSS);
            r.Some? && Succeeds(r.value) && Result(env, r.value) == []
  {
    LossRuns(env, Start([chunk], 1, 1, store), 0);
    assert LOSS[0..] == LOSS;
  }
}
