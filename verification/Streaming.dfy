/**
 * The streaming chunker: a bounded buffer that is filled from a reader and cut into chunks, against
 * the chunks of the whole input.
 */
module Streaming {
  import opened Bytes
  import opened Options
  import opened FastCdc

  // ---- the reader ----

  datatype Status = More | Eof | Broken

  /** What a read gives: bytes, bytes with the end, or bytes with a failure.  Any of them may be no bytes at all. */
  datatype Piece = Data(bytes: Bytes) | Last(bytes: Bytes) | Fault(bytes: Bytes)

  datatype Got = Got(bytes: Bytes, status: Status, script: seq<Piece>)

  /** One read of at most limit bytes; a piece that is too long is handed out in parts. */
  function ReadFrom(script: seq<Piece>, limit: nat): Got {
    if |script| == 0 then Got([], Eof, [])
    else
      var piece := script[0];
      if |piece.bytes| > limit then Got(piece.bytes[..limit], More, [piece.(bytes := piece.bytes[limit..])] + script[1..])
      else
        match piece
        case Data(bytes) => Got(bytes, More, script[1..])
        case Last(bytes) => Got(bytes, Eof, [])
        case Fault(bytes) => Got(bytes, Broken, [])
  }

  /** The bytes a reader still has. */
  function Unread(script: seq<Piece>): Bytes {
    if |script| == 0 then [] else if script[0].Data? then script[0].bytes + Unread(script[1..]) else script[0].bytes
  }

  lemma ReadSplits(script: seq<Piece>, limit: nat)
    ensures var g := ReadFrom(script, limit); Unread(script) == g.bytes + Unread(g.script)
    ensures var g := ReadFrom(script, limit); g.status != More ==> Unread(g.script) == []
  {
    if |script| > 0 && |script[0].bytes| > limit {
      var piece := script[0];
      var tail := piece.(bytes := piece.bytes[limit..]);
      assert ([tail] + script[1..])[1..] == script[1..];
      assert piece.bytes == piece.bytes[..limit] + tail.bytes;
    }
  }

  /** A read gives nothing, and neither the end nor a failure, only where the script says so. */
  predicate Idles(script: seq<Piece>) {
    Data([]) in script
  }

  lemma ReadIdles(script: seq<Piece>, limit: nat)
    requires !Idles(script) && limit > 0
    ensures var g := ReadFrom(script, limit); !Idles(g.script) && (g.status == More ==> g.bytes != [])
  {
  }

  /** A reader that hands out the pieces of a script. */
  class Reader {
    var script: seq<Piece>

    constructor (script: seq<Piece>)
      ensures this.script == script
    {
      this.script := script;
    }

    method Read(limit: nat) returns (bytes: Bytes, status: Status)
      modifies this
      ensures Got(bytes, status, script) == ReadFrom(old(script), limit)
    {
      var g := ReadFrom(script, limit);
      bytes, status, script := g.bytes, g.status, g.script;
    }
  }

  // ---- the buffer ----

  const SCRATCH: nat := 65536

  function Room(max: nat, buf: Bytes): nat
    requires |buf| <= max
  {
    if max - |buf| < SCRATCH then max - |buf| else SCRATCH
  }

  datatype Filled = Filled(buf: Bytes, eof: bool, script: seq<Piece>, ok: bool)

  /** Read until the buffer is full, the input ends or a read gives nothing; not ok when a read fails. */
  function Fill(max: nat, buf: Bytes, eof: bool, script: seq<Piece>): (f: Filled)
    requires |buf| <= max
    ensures |f.buf| <= max
    decreases |Unread(script)|
  {
    if eof || |buf| == max then Filled(buf, eof, script, true)
    else
      var g := ReadFrom(script, Room(max, buf));
      ReadSplits(script, Room(max, buf));
      if g.status == Broken then Filled(buf + g.bytes, eof, g.script, false)
      else if g.status == Eof then Filled(buf + g.bytes, true, g.script, true)
      else if g.bytes == [] then Filled(buf, false, g.script, true)
      else Fill(max, buf + g.bytes, false, g.script)
  }

  /** Filling the buffer loses nothing. */
  lemma {:induction false} FillKeeps(max: nat, buf: Bytes, eof: bool, script: seq<Piece>)
    requires |buf| <= max && (eof ==> Unread(script) == [])
    ensures var f := Fill(max, buf, eof, script); f.buf + Unread(f.script) == buf + Unread(script) && (f.eof ==> Unread(f.script) == [])
    decreases |Unread(script)|
  {
    if !eof && |buf| < max {
      var g := ReadFrom(script, Room(max, buf));
      ReadSplits(script, Room(max, buf));
      assert buf + Unread(script) == (buf + g.bytes) + Unread(g.script);
      if g.status == More && g.bytes != [] {
        FillKeeps(max, buf + g.bytes, false, g.script);
      }
    }
  }

  /** Without idle reads the buffer is full unless the input is at its end. */
  lemma {:induction false} FillFull(max: nat, buf: Bytes, eof: bool, script: seq<Piece>)
    requires |buf| <= max && !Idles(script)
    ensures var f := Fill(max, buf, eof, script); !Idles(f.script) && (f.ok ==> f.eof || |f.buf| == max)
    decreases |Unread(script)|
  {
    if !eof && |buf| < max {
      var g := ReadFrom(script, Room(max, buf));
      ReadSplits(script, Room(max, buf));
      ReadIdles(script, Room(max, buf));
      if g.status == More {
        FillFull(max, buf + g.bytes, false, g.script);
      }
    }
  }

  method Refill(max: nat, rd: Reader, buffer: Bytes, atEnd: bool) returns (buf: Bytes, eof: bool, ok: bool)
    requires |buffer| <= max
    modifies rd
    ensures Filled(buf, eof, rd.script, ok) == Fill(max, buffer, atEnd, old(rd.script))
  {
    buf, eof, ok := buffer, atEnd, true;
    while !eof && |buf| < max
      invariant |buf| <= max && ok && Fill(max, buf, eof, rd.script) == Fill(max, buffer, atEnd, old(rd.script))
      decreases !eof, |Unread(rd.script)|
    {
      ReadSplits(rd.script, Room(max, buf));
      var bytes, status := rd.Read(Room(max, buf));
      buf := buf + bytes;
      if status == Broken {
        return buf, eof, false;
      }
      eof := status == Eof;
      if !eof && |bytes| == 0 {
        return;
      }
    }
  }

  // ---- the chunks of a script ----

  /** The chunks, whether all reads went well, and the bytes that are in no chunk. */
  datatype Streamed = Streamed(chunks: seq<Chunk>, ok: bool, left: Bytes)

  function Prepend(c: Chunk, r: Streamed): Streamed {
    Streamed([c] + r.chunks, r.ok, r.left)
  }

  /** Fill the buffer and cut, until there is nothing to cut. */
  ghost function Stream(cut: Bytes -> nat, max: nat, buf: Bytes, eof: bool, script: seq<Piece>, offset: nat): Streamed
    requires Cutter(cut) && |buf| <= max && (eof ==> Unread(script) == [])
    decreases |buf| + |Unread(script)|
  {
    var f := Fill(max, buf, eof, script);
    FillKeeps(max, buf, eof, script);
    if !f.ok || f.buf == [] then Streamed([], f.ok, f.buf + Unread(f.script))
    else
      var n := cut(f.buf);
      assert |f.buf + Unread(f.script)| == |buf + Unread(script)|;
      Prepend(Chunk(offset, n, f.buf[..n]), Stream(cut, max, f.buf[n..], f.eof, f.script, offset + n))
  }

  /** One round of the stream: what the buffer becomes, what is not read yet, and what follows the cut. */
  lemma StreamStep(cut: Bytes -> nat, max: nat, buf: Bytes, eof: bool, script: seq<Piece>, offset: nat)
    returns (f: Filled, rest: Bytes, n: nat, next: Bytes, tail: Streamed)
    requires Cutter(cut) && |buf| <= max && (eof ==> Unread(script) == [])
    ensures f == Fill(max, buf, eof, script) && rest == Unread(f.script) && f.buf + rest == buf + Unread(script) && (f.eof ==> rest == [])
    ensures if f.ok && f.buf != [] then
              && n == cut(f.buf) && 0 < n <= |f.buf| && next == f.buf[n..] && |next| <= max
              && |next| + |rest| < |buf| + |Unread(script)| && tail == Stream(cut, max, next, f.eof, f.script, offset + n)
              && Stream(cut, max, buf, eof, script, offset) == Prepend(Chunk(offset, n, f.buf[..n]), tail)
            else Stream(cut, max, buf, eof, script, offset) == Streamed([], f.ok, f.buf + rest)
  {
    f := Fill(max, buf, eof, script);
    rest, n, next, tail := Unread(f.script), 0, [], Streamed([], false, []);
    FillKeeps(max, buf, eof, script);
    if f.ok && f.buf != [] {
      n := cut(f.buf);
      next := f.buf[n..];
      assert |f.buf + rest| == |buf + Unread(script)|;
      tail := Stream(cut, max, next, f.eof, f.script, offset + n);
    }
  }

  /** The chunks lie end to end from the offset and make up the input but for what is left. */
  ghost predicate Covers(r: Streamed, input: Bytes, offset: nat) {
    Join(r.chunks) + r.left == input && EndToEnd(r.chunks, offset)
  }

  lemma CoversMore(buf: Bytes, rest: Bytes, offset: nat, n: nat, tail: Streamed)
    requires n <= |buf| && Covers(tail, buf[n..] + rest, offset + n)
    ensures Covers(Prepend(Chunk(offset, n, buf[..n]), tail), buf + rest, offset)
  {
    CutOff(buf, rest, n);
    JoinCons(Chunk(offset, n, buf[..n]), tail.chunks);
    EndToEndCons(Chunk(offset, n, buf[..n]), tail.chunks);
    Regrouped(buf[..n], Join(tail.chunks), tail.left);
  }

  lemma CoversNone(input: Bytes, ok: bool, offset: nat)
    ensures Covers(Streamed([], ok, input), input, offset)
  {
  }

  lemma {:induction false} StreamPieces(cut: Bytes -> nat, max: nat, buf: Bytes, eof: bool, script: seq<Piece>, offset: nat)
    requires Cutter(cut) && |buf| <= max && (eof ==> Unread(script) == [])
    ensures Covers(Stream(cut, max, buf, eof, script, offset), buf + Unread(script), offset)
    decreases |buf| + |Unread(script)|
  {
    var f, rest, n, next, tail := StreamStep(cut, max, buf, eof, script, offset);
    if f.ok && f.buf != [] {
      StreamPieces(cut, max, next, f.eof, f.script, offset + n);
      CoversMore(f.buf, rest, offset, n, tail);
    } else {
      CoversNone(f.buf + rest, f.ok, offset);
    }
  }

  lemma CutOff(buf: Bytes, rest: Bytes, n: nat)
    requires n <= |buf|
    ensures (buf + rest)[..n] == buf[..n] && (buf + rest)[n..] == buf[n..] + rest
    ensures buf + rest == buf[..n] + (buf[n..] + rest) && |buf[n..] + rest| == |buf + rest| - n
  {
  }

  lemma Regrouped(a: Bytes, b: Bytes, c: Bytes)
    ensures (a + b) + c == a + (b + c)
  {
  }

  // ---- when they are the chunks of the input ----

  /**
   * Every cut of the buffer is the cut of all the bytes that are left, and none are left at the end.
   * Only a cut after a read that gave nothing can be another: the buffer may then lack the bytes that
   * decide, or be empty.
   */
  ghost predicate TrueCuts(cut: Bytes -> nat, max: nat, buf: Bytes, eof: bool, script: seq<Piece>)
    requires Cutter(cut) && |buf| <= max && (eof ==> Unread(script) == [])
    decreases |buf| + |Unread(script)|
  {
    var f := Fill(max, buf, eof, script);
    FillKeeps(max, buf, eof, script);
    if !f.ok then true
    else if f.buf == [] then Unread(f.script) == []
    else
      var n := cut(f.buf);
      assert |f.buf + Unread(f.script)| == |buf + Unread(script)|;
      n == cut(f.buf + Unread(f.script)) && TrueCuts(cut, max, f.buf[n..], f.eof, f.script)
  }

  lemma SameHead(a: Chunk, s: seq<Chunk>, t: seq<Chunk>)
    ensures [a] + s == [a] + t <==> s == t
    ensures [a] + s <= [a] + t <==> s <= t
  {
    assert ([a] + s)[1..] == s && ([a] + t)[1..] == t;
    assert s <= t ==> [a] + s <= [a] + t;
    if [a] + s <= [a] + t {
      assert forall i | 0 <= i < |s| :: s[i] == ([a] + s)[i + 1] && t[i] == ([a] + t)[i + 1];
    }
  }

  lemma OtherHead(a: Chunk, b: Chunk, s: seq<Chunk>, t: seq<Chunk>)
    requires a != b
    ensures !([a] + s <= [b] + t)
  {
    assert ([a] + s)[0] == a && ([b] + t)[0] == b;
  }

  /** The chunks of a stream against those of an input: all of them, or, when a read failed, the first of them. */
  ghost predicate Agrees(r: Streamed, all: seq<Chunk>) {
    if r.ok then r.chunks == all else r.chunks <= all
  }

  /** With one more chunk in front, cut off the buffer. */
  lemma AgreesMore(cut: Bytes -> nat, buf: Bytes, rest: Bytes, offset: nat, n: nat, tail: Streamed)
    requires Cutter(cut) && |buf| > 0 && n <= |buf|
    ensures Agrees(Prepend(Chunk(offset, n, buf[..n]), tail), Chunks(cut, buf + rest, offset)) <==>
            n == cut(buf + rest) && Agrees(tail, Chunks(cut, buf[n..] + rest, offset + n))
  {
    CutOff(buf, rest, n);
    var m := cut(buf + rest);
    var all := Chunks(cut, (buf + rest)[m..], offset + m);
    if m == n {
      SameHead(Chunk(offset, n, buf[..n]), tail.chunks, all);
    } else {
      OtherHead(Chunk(offset, n, buf[..n]), Chunk(offset, m, (buf + rest)[..m]), tail.chunks, all);
    }
  }

  lemma AgreesEmpty(cut: Bytes -> nat, rest: Bytes, offset: nat, r: Streamed)
    requires Cutter(cut) && r.chunks == []
    ensures Agrees(r, Chunks(cut, rest, offset)) <==> !r.ok || rest == []
  {
  }

  /**
   * Whatever the script, the chunks are those of the input if and only if every cut is a true one; when
   * a read fails they are the first of them under the same condition.
   */
  lemma {:induction false} StreamExact(cut: Bytes -> nat, max: nat, buf: Bytes, eof: bool, script: seq<Piece>, offset: nat)
    requires Cutter(cut) && |buf| <= max && (eof ==> Unread(script) == [])
    ensures TrueCuts(cut, max, buf, eof, script) <==>
            Agrees(Stream(cut, max, buf, eof, script, offset), Chunks(cut, buf + Unread(script), offset))
    decreases |buf| + |Unread(script)|
  {
    var f, rest, n, next, tail := StreamStep(cut, max, buf, eof, script, offset);
    TrueStep(cut, max, buf, eof, script, f, rest, n, next);
    if f.ok && f.buf != [] {
      StreamExact(cut, max, next, f.eof, f.script, offset + n);
      AgreesMore(cut, f.buf, rest, offset, n, tail);
    } else {
      AgreesEmpty(cut, f.buf + rest, offset, Stream(cut, max, buf, eof, script, offset));
    }
  }

  lemma TrueStep(cut: Bytes -> nat, max: nat, buf: Bytes, eof: bool, script: seq<Piece>, f: Filled, rest: Bytes, n: nat, next: Bytes)
    requires Cutter(cut) && |buf| <= max && (eof ==> Unread(script) == [])
    requires f == Fill(max, buf, eof, script) && rest == Unread(f.script) && (f.eof ==> rest == [])
    requires f.ok && f.buf != [] ==> n == cut(f.buf) && next == f.buf[n..]
    ensures TrueCuts(cut, max, buf, eof, script) <==>
            if f.ok && f.buf != [] then n == cut(f.buf + rest) && TrueCuts(cut, max, next, f.eof, f.script)
            else !f.ok || f.buf + rest == []
  {
  }

  /** A buffer of max bytes is enough to find the next cut. */
  ghost predicate Bounded(cut: Bytes -> nat, max: nat) {
    forall buf: Bytes, rest: Bytes {:trigger cut(buf + rest)} | |buf| == max :: cut(buf + rest) == cut(buf)
  }

  /** As long as every read gives a byte, the end or a failure, every cut is a true one, whatever the fragments. */
  lemma {:induction false} NoIdleTrue(cut: Bytes -> nat, max: nat, buf: Bytes, eof: bool, script: seq<Piece>)
    requires Cutter(cut) && Bounded(cut, max) && |buf| <= max && max > 0 && (eof ==> Unread(script) == []) && !Idles(script)
    ensures TrueCuts(cut, max, buf, eof, script)
    decreases |buf| + |Unread(script)|
  {
    var f := Fill(max, buf, eof, script);
    FillKeeps(max, buf, eof, script);
    FillFull(max, buf, eof, script);
    if f.ok && f.buf != [] {
      var n, rest := cut(f.buf), Unread(f.script);
      CutOff(f.buf, rest, n);
      assert f.eof ==> f.buf + rest == f.buf;
      assert cut(f.buf + rest) == n;
      NoIdleTrue(cut, max, f.buf[n..], f.eof, f.script);
    }
  }

  /** A reader whose first read gives nothing yields no chunk at all, and no error, whatever it has to give. */
  lemma IdleStart(cut: Bytes -> nat, max: nat, script: seq<Piece>)
    requires Cutter(cut) && max > 0
    ensures Stream(cut, max, [], false, [Data([])] + script, 0) == Streamed([], true, Unread(script))
  {
    assert ([Data([])] + script)[1..] == script;
    assert ReadFrom([Data([])] + script, Room(max, [])) == Got([], More, script);
    assert [] + Unread(script) == Unread(script);
  }

  // ---- the loop ----

  datatype Outcome = Done | ReadFailed | Refused

  /** The callback took every chunk, but for the last when it refused. */
  ghost predicate Accepted(accept: Chunk -> bool, out: seq<Chunk>, refused: bool) {
    (refused ==> |out| > 0) && forall i {:trigger out[i]} | 0 <= i < |out| :: accept(out[i]) <==> !(refused && i == |out| - 1)
  }

  lemma AcceptedMore(accept: Chunk -> bool, out: seq<Chunk>, c: Chunk)
    requires Accepted(accept, out, false)
    ensures Accepted(accept, out + [c], !accept(c))
  {
  }

  /** The chunks so far, followed by those of the rest of the stream, are all of them. */
  ghost predicate SoFar(all: Streamed, out: seq<Chunk>, rest: Streamed) {
    all == Streamed(out + rest.chunks, rest.ok, rest.left)
  }

  lemma SoFarMore(all: Streamed, out: seq<Chunk>, c: Chunk, rest: Streamed)
    requires SoFar(all, out, Prepend(c, rest))
    ensures SoFar(all, out + [c], rest) && out + [c] <= all.chunks
  {
    assert out + ([c] + rest.chunks) == (out + [c]) + rest.chunks;
  }

  lemma SoFarAll(all: Streamed, out: seq<Chunk>, ok: bool, left: Bytes)
    requires SoFar(all, out, Streamed([], ok, left))
    ensures out == all.chunks && ok == all.ok
  {
  }

  /** What a run yields: all chunks of the stream, or some of them when the callback refuses one. */
  ghost predicate Yields(all: Streamed, r: Outcome, out: seq<Chunk>) {
    match r
    case Done => all.ok && out == all.chunks
    case ReadFailed => !all.ok && out == all.chunks
    case Refused => out <= all.chunks
  }

  lemma NextSizeBounded(gear: seq<nat>, p: Params)
    requires IsGear(gear) && Sound(p)
    ensures Cutter(NextSize(gear, p)) && Bounded(NextSize(gear, p), p.maxSize)
  {
    IsCutter(gear, p);
    forall buf: Bytes, rest: Bytes | |buf| == p.maxSize
      ensures NextSize(gear, p)(buf + rest) == NextSize(gear, p)(buf)
    {
      FullBuffer(gear, p, buf, rest);
    }
  }

  /** Cut a chunk off the buffer. */
  method TakeChunk(gear: seq<nat>, p: Params, buf: Bytes, offset: nat) returns (c: Chunk, after: Bytes)
    requires IsGear(gear) && Sound(p) && 0 < |buf| <= p.maxSize && Cutter(NextSize(gear, p))
    ensures var n := NextSize(gear, p)(buf); c == Chunk(offset, n, buf[..n]) && after == buf[n..]
  {
    var size := Boundary(gear, p, buf);
    BufferCut(gear, p, buf);
    return Chunk(offset, size, buf[..size]), buf[size..];
  }

  /** Fill the buffer and cut a chunk off it, unless a read fails or there is nothing to cut. */
  method NextPiece(gear: seq<nat>, p: Params, rd: Reader, buffer: Bytes, atEnd: bool, offset: nat, ghost cut: Bytes -> nat, ghost rest: Streamed)
    returns (c: Option<Chunk>, buf: Bytes, eof: bool, ok: bool, ghost rest': Streamed)
    requires IsGear(gear) && Sound(p) && cut == NextSize(gear, p) && Cutter(cut) && |buffer| <= p.maxSize && (atEnd ==> Unread(rd.script) == [])
    requires rest == Stream(cut, p.maxSize, buffer, atEnd, rd.script, offset)
    modifies rd
    ensures c.None? ==> rest == Streamed([], ok, rest.left)
    ensures c.Some? ==> |buf| <= p.maxSize && (eof ==> Unread(rd.script) == []) && rest == Prepend(c.value, rest')
    ensures c.Some? ==> rest' == Stream(cut, p.maxSize, buf, eof, rd.script, offset + c.value.size)
    ensures c.Some? ==> |buf| + |Unread(rd.script)| < |buffer| + |old(Unread(rd.script))|
  {
    ghost var f, unread, n, next;
    f, unread, n, next, rest' := StreamStep(cut, p.maxSize, buffer, atEnd, rd.script, offset);
    buf, eof, ok := Refill(p.maxSize, rd, buffer, atEnd);
    if !ok || |buf| == 0 {
      return None, buf, eof, ok, rest';
    }
    var chunk;
    chunk, buf := TakeChunk(gear, p, buf, offset);
    c := Some(chunk);
  }

  /**
   * accept is the callback: false stops the stream with an error.  As long as every read gives a byte,
   * the end or a failure, the chunks are those of the input whatever the fragments.  In general they
   * are if and only if every cut is a true one.
   */
  method ForEach(gear: seq<nat>, p: Params, rd: Reader, accept: Chunk -> bool) returns (r: Outcome, out: seq<Chunk>)
    requires IsGear(gear) && Sound(p)
    modifies rd
    ensures Cutter(NextSize(gear, p)) && Yields(Stream(NextSize(gear, p), p.maxSize, [], false, old(rd.script), 0), r, out)
    ensures Accepted(accept, out, r == Refused)
  {
    NextSizeBounded(gear, p);
    ghost var cut := NextSize(gear, p);
    ghost var all := Stream(cut, p.maxSize, [], false, rd.script, 0);
    ghost var rest := all;
    var buf: Bytes, eof, offset: nat := [], false, 0;
    out := [];
    while true
      invariant |buf| <= p.maxSize && (eof ==> Unread(rd.script) == []) && Accepted(accept, out, false)
      invariant SoFar(all, out, rest) && rest == Stream(cut, p.maxSize, buf, eof, rd.script, offset)
      decreases |buf| + |Unread(rd.script)|
    {
      var c, ok;
      ghost var before := rest;
      c, buf, eof, ok, rest := NextPiece(gear, p, rd, buf, eof, offset, cut, rest);
      if c.None? {
        SoFarAll(all, out, ok, before.left);
        return if ok then Done else ReadFailed, out;
      }
      SoFarMore(all, out, c.value, rest);
      AcceptedMore(accept, out, c.value);
      out, offset := out + [c.value], offset + c.value.size;
      if !accept(c.value) {
        return Refused, out;
      }
    }
  }

  lemma RefusedLast(accept: Chunk -> bool, out: seq<Chunk>)
    requires Accepted(accept, out, true)
    ensures exists c: Chunk :: !accept(c)
  {
    assert !accept(out[|out| - 1]);
  }

  lemma NeverRefused(all: Streamed, accept: Chunk -> bool, r: Outcome, out: seq<Chunk>)
    requires Yields(all, r, out) && Accepted(accept, out, r == Refused) && forall c: Chunk :: accept(c)
    ensures r != Refused && all == Streamed(out, r == Done, all.left)
  {
    if r == Refused {
      RefusedLast(accept, out);
    }
  }

  lemma Summed(cut: Bytes -> nat, max: nat, script: seq<Piece>)
    requires Cutter(cut) && Bounded(cut, max) && max > 0
    ensures Covers(Stream(cut, max, [], false, script, 0), Unread(script), 0)
    ensures TrueCuts(cut, max, [], false, script) <==> Agrees(Stream(cut, max, [], false, script, 0), Chunks(cut, Unread(script), 0))
    ensures !Idles(script) ==> TrueCuts(cut, max, [], false, script)
  {
    assert [] + Unread(script) == Unread(script);
    StreamPieces(cut, max, [], false, script, 0);
    StreamExact(cut, max, [], false, script, 0);
    if !Idles(script) {
      NoIdleTrue(cut, max, [], false, script);
    }
  }

  /**
   * All chunks at once; left are the bytes that are in none.  The chunks lie end to end from the start of
   * the input.  They are those of the input, or the first of them when a read fails, if and only if
   * every cut is a true one: whatever the fragments, as long as every read gives a byte, the end or a
   * failure.
   */
  method Split(gear: seq<nat>, p: Params, rd: Reader) returns (out: seq<Chunk>, ok: bool, ghost left: Bytes)
    requires IsGear(gear) && Sound(p)
    modifies rd
    ensures Cutter(NextSize(gear, p)) && Streamed(out, ok, left) == Stream(NextSize(gear, p), p.maxSize, [], false, old(rd.script), 0)
    ensures Covers(Streamed(out, ok, left), Unread(old(rd.script)), 0)
    ensures TrueCuts(NextSize(gear, p), p.maxSize, [], false, old(rd.script)) <==>
            Agrees(Streamed(out, ok, left), Chunks(NextSize(gear, p), Unread(old(rd.script)), 0))
    ensures !Idles(old(rd.script)) ==> TrueCuts(NextSize(gear, p), p.maxSize, [], false, old(rd.script))
  {
    NextSizeBounded(gear, p);
    Summed(NextSize(gear, p), p.maxSize, rd.script);
    ghost var all := Stream(NextSize(gear, p), p.maxSize, [], false, rd.script, 0);
    var take: Chunk -> bool := c => true;
    var r;
    r, out := ForEach(gear, p, rd, take);
    NeverRefused(all, take, r, out);
    ok, left := r == Done, all.left;
  }

  /** An input whose reader gives nothing on the first read is split into no chunks, and that is no error. */
  method SplitNothing(gear: seq<nat>, p: Params, input: Bytes) returns (out: seq<Chunk>, ok: bool, ghost left: Bytes)
    requires IsGear(gear) && Sound(p)
    ensures ok && out == [] && left == input
  {
    var rd := new Reader([Data([])] + [Last(input)]);
    NextSizeBounded(gear, p);
    IdleStart(NextSize(gear, p), p.maxSize, [Last(input)]);
    out, ok, left := Split(gear, p, rd);
  }
}
