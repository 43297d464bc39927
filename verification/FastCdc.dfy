/** Content-defined chunking: a rolling fingerprint cuts an input into chunks. */
module FastCdc {
  import opened Bytes
  import opened Options
  import opened Numbers

  // ---- fingerprints modulo 2^64 ----

  function Pow2(n: nat): (r: nat)
    ensures r > 0
  {
    if n == 0 then 1 else 2 * Pow2(n - 1)
  }

  /** One word for each byte value. */
  predicate IsGear(gear: seq<nat>) {
    |gear| == 256
  }

  function Roll(gear: seq<nat>, fp: nat, b: Byte): nat
    requires IsGear(gear)
  {
    (2 * fp + gear[b]) % U64_LIMIT
  }

  /** The fingerprint after rolling in all the bytes. */
  function Fingerprint(gear: seq<nat>, s: Bytes): nat
    requires IsGear(gear)
  {
    if s == [] then 0 else Roll(gear, Fingerprint(gear, s[..|s| - 1]), s[|s| - 1])
  }

  /** The weighted sum of the gear values of the first n bytes, each byte doubling those before it. */
  ghost function Weighted(gear: seq<nat>, s: Bytes, n: nat): nat
    requires IsGear(gear) && n <= |s|
  {
    if n == 0 then 0 else Weighted(gear, s, n - 1) + Pow2(|s| - n) * gear[s[n - 1]]
  }

  /** One byte more doubles the sum. */
  lemma {:induction false} WeightedMore(gear: seq<nat>, s: Bytes, b: Byte, n: nat)
    requires IsGear(gear) && n <= |s|
    ensures Weighted(gear, s + [b], n) == 2 * Weighted(gear, s, n)
  {
    if n > 0 {
      WeightedMore(gear, s, b, n - 1);
      assert Pow2(|s| + 1 - n) == 2 * Pow2(|s| - n);
      Twice(Pow2(|s| - n), gear[s[n - 1]]);
    }
  }

  lemma Twice(p: nat, g: nat)
    ensures (2 * p) * g == 2 * (p * g)
  {
  }

  lemma RollMod(x: nat, g: nat)
    ensures (2 * (x % U64_LIMIT) + g) % U64_LIMIT == (2 * x + g) % U64_LIMIT
  {
    var q := x / U64_LIMIT;
    assert x == U64_LIMIT * q + x % U64_LIMIT;
    ModAdd(U64_LIMIT, 2 * q, 2 * (x % U64_LIMIT) + g);
  }

  /** The fingerprint of n bytes is the sum of 2^(n - 1 - i) times the gear value of byte i, modulo 2^64. */
  lemma {:induction false} FingerprintSum(gear: seq<nat>, s: Bytes)
    requires IsGear(gear)
    ensures Fingerprint(gear, s) == Weighted(gear, s, |s|) % U64_LIMIT
  {
    if s != [] {
      var front, b := s[..|s| - 1], s[|s| - 1];
      FingerprintSum(gear, front);
      assert front + [b] == s;
      WeightedMore(gear, front, b, |front|);
      RollMod(Weighted(gear, front, |front|), gear[b]);
      assert Pow2(0) * gear[b] == gear[b];
    }
  }

  // ---- the size bounds and the mask ----

  /** bits is the width of the mask 2^bits - 1; masking a word is taking it modulo 2^bits. */
  datatype Params = Params(minSize: nat, avgSize: nat, maxSize: nat, bits: nat)

  predicate Sound(p: Params) {
    0 < p.minSize <= p.avgSize <= p.maxSize
  }

  /** Above 2^62 the doubling overflows a 64-bit int and maskForAverage loops for ever. */
  const LARGEST_AVERAGE := 0x4000_0000_0000_0000

  lemma LargestAverage()
    ensures Pow2(62) == LARGEST_AVERAGE
  {
    assert Pow2(7) == 128;
    PowAdd(7, 7);
    PowAdd(14, 14);
    PowAdd(28, 28);
    PowAdd(56, 6);
    assert Pow2(6) == 64;
  }

  lemma {:induction false} PowAdd(a: nat, b: nat)
    ensures Pow2(a + b) == Pow2(a) * Pow2(b)
  {
    if b > 0 {
      PowAdd(a, b - 1);
      assert Pow2(a + b) == 2 * Pow2(a + b - 1);
    }
  }

  /** The width of the least power of two that is at least the average. */
  method MaskBits(avg: nat) returns (bits: nat)
    requires avg <= LARGEST_AVERAGE
    ensures avg <= Pow2(bits) && (bits > 0 ==> Pow2(bits - 1) < avg) && bits <= 62
  {
    LargestAverage();
    bits := 0;
    var size := 1;
    while size < avg
      invariant size == Pow2(bits) && (bits > 0 ==> Pow2(bits - 1) < avg) && bits <= 62
      decreases avg - size
    {
      WiderPower(bits, 62, avg);
      bits := bits + 1;
      size := size * 2;
    }
  }

  lemma {:induction false} WiderPower(a: nat, b: nat, x: nat)
    requires Pow2(a) < x <= Pow2(b)
    ensures a < b
    decreases a
  {
    if a > 0 && b > 0 {
      if x == 2 * (x / 2) {
        WiderPower(a - 1, b - 1, x / 2);
      } else {
        WiderPower(a - 1, b - 1, x / 2 + 1);
      }
    }
  }

  /** A chunker, or None when the size bounds are out of order. */
  method NewFastCdc(minSize: int, avgSize: int, maxSize: int) returns (r: Option<Params>)
    requires 0 < minSize <= avgSize <= maxSize ==> avgSize <= LARGEST_AVERAGE
    ensures r.Some? <==> 0 < minSize <= avgSize <= maxSize
    ensures r.Some? ==> Sound(r.value) && r.value.minSize == minSize && r.value.avgSize == avgSize && r.value.maxSize == maxSize
    ensures r.Some? ==> avgSize <= Pow2(r.value.bits) && (r.value.bits > 0 ==> Pow2(r.value.bits - 1) < avgSize) && r.value.bits <= 62
  {
    if minSize <= 0 || avgSize < minSize || maxSize < avgSize {
      return None;
    }
    var bits := MaskBits(avgSize);
    return Some(Params(minSize, avgSize, maxSize, bits));
  }

  // ---- the cut point ----

  /** The fingerprint of the bytes from minSize to i asks for a cut after byte i. */
  predicate CutAfter(gear: seq<nat>, p: Params, data: Bytes, i: nat)
    requires IsGear(gear) && p.minSize <= i < |data|
  {
    i >= p.avgSize / 2 && Fingerprint(gear, data[p.minSize..i + 1]) % Pow2(p.bits) == 0
  }

  /** The first n bytes are the next chunk of data. */
  ghost predicate IsCut(gear: seq<nat>, p: Params, data: Bytes, n: nat)
    requires IsGear(gear) && Sound(p)
  {
    var limit := Limit(p, data);
    if |data| <= p.minSize then n == |data|
    else
      && p.minSize <= n <= limit && (n == limit || (n > p.minSize && CutAfter(gear, p, data, n - 1)))
      && forall i | p.minSize <= i < limit && i + 1 < n :: !CutAfter(gear, p, data, i)
  }

  lemma CutUnique(gear: seq<nat>, p: Params, data: Bytes, m: nat, n: nat)
    requires IsGear(gear) && Sound(p) && IsCut(gear, p, data, m) && IsCut(gear, p, data, n)
    ensures m == n
  {
  }

  function Limit(p: Params, data: Bytes): nat {
    if |data| < p.maxSize then |data| else p.maxSize
  }

  function CutFrom(gear: seq<nat>, p: Params, data: Bytes, i: nat): (n: nat)
    requires IsGear(gear) && Sound(p) && p.minSize <= i <= Limit(p, data)
    ensures i <= n <= Limit(p, data)
    decreases Limit(p, data) - i
  {
    if i == Limit(p, data) then i
    else if CutAfter(gear, p, data, i) then i + 1
    else CutFrom(gear, p, data, i + 1)
  }

  /** The size of the next chunk. */
  function Cut(gear: seq<nat>, p: Params, data: Bytes): (n: nat)
    requires IsGear(gear) && Sound(p)
    ensures n <= Limit(p, data) && (|data| > 0 ==> n > 0) && (n < |data| ==> p.minSize <= n)
  {
    if |data| <= p.minSize then |data| else CutFrom(gear, p, data, p.minSize)
  }

  lemma {:induction false} CutFromIs(gear: seq<nat>, p: Params, data: Bytes, i: nat)
    requires IsGear(gear) && Sound(p) && p.minSize <= i <= Limit(p, data)
    ensures var n := CutFrom(gear, p, data, i); n == Limit(p, data) || (n > i && CutAfter(gear, p, data, n - 1))
    ensures forall j | i <= j < Limit(p, data) && j + 1 < CutFrom(gear, p, data, i) :: !CutAfter(gear, p, data, j)
    decreases Limit(p, data) - i
  {
    if i < Limit(p, data) && !CutAfter(gear, p, data, i) {
      CutFromIs(gear, p, data, i + 1);
    }
  }

  /** The cut is the first place where the fingerprint asks for one, or the limit. */
  lemma CutIs(gear: seq<nat>, p: Params, data: Bytes, n: nat)
    requires IsGear(gear) && Sound(p)
    ensures IsCut(gear, p, data, n) <==> n == Cut(gear, p, data)
  {
    if |data| > p.minSize {
      CutFromIs(gear, p, data, p.minSize);
    }
    if IsCut(gear, p, data, n) {
      CutUnique(gear, p, data, n, Cut(gear, p, data));
    }
  }

  method Boundary(gear: seq<nat>, p: Params, data: Bytes) returns (n: nat)
    requires IsGear(gear) && Sound(p)
    ensures n == Cut(gear, p, data)
  {
    if |data| <= p.minSize {
      return |data|;
    }
    var limit := Limit(p, data);
    var fp := 0;
    var i := p.minSize;
    while i < limit
      invariant p.minSize <= i <= limit
      invariant fp == Fingerprint(gear, data[p.minSize..i])
      invariant Cut(gear, p, data) == CutFrom(gear, p, data, i)
    {
      SliceGrows(gear, data, p.minSize, i);
      fp := Roll(gear, fp, data[i]);
      if i >= p.avgSize / 2 && fp % Pow2(p.bits) == 0 {
        return i + 1;
      }
      i := i + 1;
    }
    return limit;
  }

  lemma SliceGrows(gear: seq<nat>, data: Bytes, lo: nat, i: nat)
    requires IsGear(gear) && lo <= i < |data|
    ensures Fingerprint(gear, data[lo..i + 1]) == Roll(gear, Fingerprint(gear, data[lo..i]), data[i])
  {
    var s := data[lo..i + 1];
    assert s[..|s| - 1] == data[lo..i] && s[|s| - 1] == data[i];
  }

  /** What the chunker cuts off the bytes that are left, looking at no more than maxSize of them. */
  function NextSize(gear: seq<nat>, p: Params): Bytes -> nat
    requires IsGear(gear) && Sound(p)
  {
    rest => Cut(gear, p, rest[..Limit(p, rest)])
  }

  // ---- the chunks of an input ----

  datatype Chunk = Chunk(offset: nat, size: nat, data: Bytes)

  /** Cutting a non-empty input takes some of it and no more than there is. */
  ghost predicate Cutter(cut: Bytes -> nat) {
    forall s: Bytes {:trigger cut(s)} | |s| > 0 :: 0 < cut(s) <= |s|
  }

  /** The chunks of an input that starts at an offset. */
  ghost function Chunks(cut: Bytes -> nat, input: Bytes, offset: nat): (cs: seq<Chunk>)
    requires Cutter(cut)
    decreases |input|
  {
    if |input| == 0 then []
    else [Chunk(offset, cut(input), input[..cut(input)])] + Chunks(cut, input[cut(input)..], offset + cut(input))
  }

  function Join(cs: seq<Chunk>): Bytes {
    if |cs| == 0 then [] else cs[0].data + Join(cs[1..])
  }

  function Datas(cs: seq<Chunk>): seq<Bytes> {
    if |cs| == 0 then [] else [cs[0].data] + Datas(cs[1..])
  }

  lemma JoinCons(c: Chunk, cs: seq<Chunk>)
    ensures Join([c] + cs) == c.data + Join(cs) && Datas([c] + cs) == [c.data] + Datas(cs)
  {
    assert ([c] + cs)[1..] == cs;
  }

  /** Every chunk states its place and size: together they lie end to end from the offset. */
  ghost predicate EndToEnd(cs: seq<Chunk>, offset: nat) {
    |cs| == 0 || (cs[0].offset == offset && cs[0].size == |cs[0].data| && EndToEnd(cs[1..], offset + cs[0].size))
  }

  lemma EndToEndCons(c: Chunk, cs: seq<Chunk>)
    requires c.size == |c.data| && EndToEnd(cs, c.offset + c.size)
    ensures EndToEnd([c] + cs, c.offset)
  {
    assert ([c] + cs)[1..] == cs;
  }

  /** The chunks lie end to end and make up the input. */
  lemma {:induction false} ChunksPartition(cut: Bytes -> nat, input: Bytes, offset: nat)
    requires Cutter(cut)
    ensures Join(Chunks(cut, input, offset)) == input && EndToEnd(Chunks(cut, input, offset), offset)
    decreases |input|
  {
    if |input| > 0 {
      var n := cut(input);
      ChunksPartition(cut, input[n..], offset + n);
      JoinCons(Chunk(offset, n, input[..n]), Chunks(cut, input[n..], offset + n));
      EndToEndCons(Chunk(offset, n, input[..n]), Chunks(cut, input[n..], offset + n));
    }
  }

  /** No chunk is empty or too large, and none but the last is too small. */
  ghost predicate Sized(p: Params, cs: seq<Chunk>) {
    |cs| == 0 || (0 < cs[0].size <= p.maxSize && (|cs| > 1 ==> p.minSize <= cs[0].size) && Sized(p, cs[1..]))
  }

  lemma SizedCons(p: Params, c: Chunk, cs: seq<Chunk>)
    requires Sized(p, cs) && 0 < c.size <= p.maxSize && (|cs| > 0 ==> p.minSize <= c.size)
    ensures Sized(p, [c] + cs)
  {
    assert ([c] + cs)[1..] == cs;
  }

  lemma FirstSize(gear: seq<nat>, p: Params, input: Bytes)
    requires IsGear(gear) && Sound(p) && |input| > 0
    ensures var n := NextSize(gear, p)(input); 0 < n <= p.maxSize && n <= |input| && (n < |input| ==> p.minSize <= n)
  {
  }

  lemma IsCutter(gear: seq<nat>, p: Params)
    requires IsGear(gear) && Sound(p)
    ensures Cutter(NextSize(gear, p))
  {
    forall s: Bytes | |s| > 0
      ensures 0 < NextSize(gear, p)(s) <= |s|
    {
      FirstSize(gear, p, s);
    }
  }

  lemma {:induction false} ChunkSizes(gear: seq<nat>, p: Params, input: Bytes, offset: nat)
    requires IsGear(gear) && Sound(p) && Cutter(NextSize(gear, p))
    ensures Sized(p, Chunks(NextSize(gear, p), input, offset))
    decreases |input|
  {
    if |input| > 0 {
      var cut := NextSize(gear, p);
      FirstSize(gear, p, input);
      var n := cut(input);
      ChunkSizes(gear, p, input[n..], offset + n);
      SizedCons(p, Chunk(offset, n, input[..n]), Chunks(cut, input[n..], offset + n));
    }
  }

  /** A chunk of the input ends after n bytes. */
  ghost predicate CutPoint(cut: Bytes -> nat, input: Bytes, n: nat)
    requires Cutter(cut)
    decreases |input|
  {
    n == 0 || (|input| > 0 && cut(input) <= n && CutPoint(cut, input[cut(input)..], n - cut(input)))
  }

  /** From a cut point on, the chunks are those of the bytes that follow it. */
  lemma {:induction false} Resume(cut: Bytes -> nat, input: Bytes, offset: nat, n: nat) returns (before: seq<Chunk>)
    requires Cutter(cut) && CutPoint(cut, input, n)
    ensures n <= |input| && Join(before) == input[..n]
    ensures Chunks(cut, input, offset) == before + Chunks(cut, input[n..], offset + n)
    decreases |input|
  {
    if n == 0 {
      before := [];
      assert input[0..] == input;
    } else {
      var c := cut(input);
      var rest := Resume(cut, input[c..], offset + c, n - c);
      DropTwice(input, c, n);
      before := [Chunk(offset, c, input[..c])] + rest;
      JoinCons(Chunk(offset, c, input[..c]), rest);
      Regroup([Chunk(offset, c, input[..c])], rest, Chunks(cut, input[n..], offset + n));
    }
  }

  lemma Regroup(a: seq<Chunk>, b: seq<Chunk>, c: seq<Chunk>)
    ensures a + (b + c) == (a + b) + c
  {
  }

  lemma DropTwice(s: Bytes, c: nat, n: nat)
    requires c <= n <= |s|
    ensures s[c..][n - c..] == s[n..] && s[..n] == s[..c] + s[c..][..n - c]
  {
  }

  /** The data of the chunks does not depend on where the stream starts. */
  lemma {:induction false} OffsetFree(cut: Bytes -> nat, input: Bytes, a: nat, b: nat)
    requires Cutter(cut)
    ensures Datas(Chunks(cut, input, a)) == Datas(Chunks(cut, input, b))
    decreases |input|
  {
    if |input| > 0 {
      var n := cut(input);
      OffsetFree(cut, input[n..], a + n, b + n);
      JoinCons(Chunk(a, n, input[..n]), Chunks(cut, input[n..], a + n));
      JoinCons(Chunk(b, n, input[..n]), Chunks(cut, input[n..], b + n));
    }
  }

  lemma ResumeData(cut: Bytes -> nat, x: Bytes, m: nat) returns (a: seq<Chunk>)
    requires Cutter(cut) && CutPoint(cut, x, m)
    ensures m <= |x| && Join(a) == x[..m] && a <= Chunks(cut, x, 0)
    ensures Datas(Chunks(cut, x, 0)[|a|..]) == Datas(Chunks(cut, x[m..], 0))
  {
    a := Resume(cut, x, 0, m);
    OffsetFree(cut, x[m..], m, 0);
    Suffix(a, Chunks(cut, x[m..], m));
  }

  lemma Suffix(a: seq<Chunk>, b: seq<Chunk>)
    ensures (a + b)[|a|..] == b && a <= a + b
  {
  }

  /** Two streams that are equal after a cut of each produce equal chunks from there on. */
  lemma Resynchronize(cut: Bytes -> nat, x: Bytes, y: Bytes, m: nat, n: nat) returns (a: seq<Chunk>, b: seq<Chunk>)
    requires Cutter(cut) && CutPoint(cut, x, m) && CutPoint(cut, y, n)
    requires m <= |x| && n <= |y| && x[m..] == y[n..]
    ensures a <= Chunks(cut, x, 0) && Join(a) == x[..m] && b <= Chunks(cut, y, 0) && Join(b) == y[..n]
    ensures Datas(Chunks(cut, x, 0)[|a|..]) == Datas(Chunks(cut, y, 0)[|b|..])
  {
    a := ResumeData(cut, x, m);
    b := ResumeData(cut, y, n);
  }

  // ---- buffers ----

  lemma BufferCut(gear: seq<nat>, p: Params, buf: Bytes)
    requires IsGear(gear) && Sound(p) && |buf| <= p.maxSize
    ensures Cut(gear, p, buf) == NextSize(gear, p)(buf)
  {
    assert buf[..Limit(p, buf)] == buf;
  }

  /** A full buffer is enough to find the next cut. */
  lemma FullBuffer(gear: seq<nat>, p: Params, buf: Bytes, rest: Bytes)
    requires IsGear(gear) && Sound(p) && |buf| == p.maxSize
    ensures NextSize(gear, p)(buf + rest) == NextSize(gear, p)(buf)
  {
    assert (buf + rest)[..Limit(p, buf + rest)] == buf[..Limit(p, buf)];
  }

  // ---- locality ----

  lemma ModAdd(m: int, q: int, r: int)
    requires m > 0
    ensures (m * q + r) % m == r % m
  {
    assert m * q + r == m * (q + r / m) + r % m;
    Quotient(m, q + r / m, r % m);
  }

  /** Wrapping to 64 bits keeps the low k bits. */
  lemma LowBits(y: nat, k: nat)
    requires k <= 64
    ensures (y % U64_LIMIT) % Pow2(k) == y % Pow2(k)
  {
    WordSplits(k);
    ModMod(y, Pow2(k), Pow2(64 - k), U64_LIMIT);
  }

  lemma WordSplits(k: nat)
    requires k <= 64
    ensures U64_LIMIT == Pow2(k) * Pow2(64 - k)
  {
    PowAdd(k, 64 - k);
    WordIsPower();
  }

  lemma ModMod(y: nat, m: nat, c: nat, w: nat)
    requires m > 0 && w > 0 && w == m * c
    ensures (y % w) % m == y % m
  {
    assert y == w * (y / w) + y % w;
    assert (m * c) * (y / w) == m * (c * (y / w));
    ModAdd(m, c * (y / w), y % w);
  }

  lemma WordIsPower()
    ensures Pow2(64) == U64_LIMIT
  {
    LargestAverage();
  }

  /** Rolling doubles: words that agree in the low k bits agree in k + 1 after the same byte. */
  lemma RollAgrees(gear: seq<nat>, f: nat, g: nat, b: Byte, k: nat)
    requires IsGear(gear) && k < 64 && f % Pow2(k) == g % Pow2(k)
    ensures Roll(gear, f, b) % Pow2(k + 1) == Roll(gear, g, b) % Pow2(k + 1)
  {
    LowBits(2 * f + gear[b], k + 1);
    LowBits(2 * g + gear[b], k + 1);
    Doubled(Pow2(k), f, g, gear[b]);
  }

  /** Numbers that agree modulo m agree modulo 2m after doubling. */
  lemma Doubled(m: nat, f: nat, g: nat, c: nat)
    requires m > 0 && f % m == g % m
    ensures (2 * f + c) % (2 * m) == (2 * g + c) % (2 * m)
  {
    var q := f / m - g / m;
    Difference(m, f, g);
    assert (2 * m) * q == 2 * (m * q);
    ModAdd(2 * m, q, 2 * g + c);
  }

  lemma Difference(m: nat, f: nat, g: nat)
    requires m > 0 && f % m == g % m
    ensures f - g == m * (f / m - g / m)
  {
    assert f == m * (f / m) + f % m && g == m * (g / m) + g % m;
  }

  /** The last k bytes are the last k - 1 of the bytes before the last one, and the last one. */
  lemma TailFront(s: Bytes, k: nat)
    requires 0 < k <= |s|
    ensures s[..|s| - 1][|s| - k..] == s[|s| - k..][..k - 1] && s[|s| - k..][k - 1] == s[|s| - 1]
  {
  }

  /** The low k bits of a fingerprint come from the last k bytes. */
  lemma {:induction false} SameTail(gear: seq<nat>, s: Bytes, t: Bytes, k: nat)
    requires IsGear(gear) && k <= 64 && k <= |s| && k <= |t| && s[|s| - k..] == t[|t| - k..]
    ensures Fingerprint(gear, s) % Pow2(k) == Fingerprint(gear, t) % Pow2(k)
    decreases k
  {
    if k > 0 {
      var u, v := s[..|s| - 1], t[..|t| - 1];
      TailFront(s, k);
      TailFront(t, k);
      SameTail(gear, u, v, k - 1);
      RollAgrees(gear, Fingerprint(gear, u), Fingerprint(gear, v), s[|s| - 1], k - 1);
    }
  }

  /** Once bits bytes have been rolled in, the cut test looks at the last bits bytes only. */
  lemma CutIsLocal(gear: seq<nat>, p: Params, x: Bytes, i: nat, y: Bytes, j: nat)
    requires IsGear(gear) && p.bits <= 64 && p.minSize + p.bits <= i + 1 <= |x| && p.minSize + p.bits <= j + 1 <= |y|
    requires p.minSize <= i && p.minSize <= j && i >= p.avgSize / 2 && j >= p.avgSize / 2
    requires x[i + 1 - p.bits..i + 1] == y[j + 1 - p.bits..j + 1]
    ensures CutAfter(gear, p, x, i) <==> CutAfter(gear, p, y, j)
  {
    var s, t := x[p.minSize..i + 1], y[p.minSize..j + 1];
    assert s[|s| - p.bits..] == x[i + 1 - p.bits..i + 1] && t[|t| - p.bits..] == y[j + 1 - p.bits..j + 1];
    SameTail(gear, s, t, p.bits);
  }

  /** The cut test in closed form: from half the average on, the low bits of the weighted sum are zero. */
  lemma CutAfterIff(gear: seq<nat>, p: Params, data: Bytes, i: nat)
    requires IsGear(gear) && p.bits <= 64 && p.minSize <= i < |data|
    ensures CutAfter(gear, p, data, i) <==>
      2 * i + 1 >= p.avgSize && Weighted(gear, data[p.minSize..i + 1], i + 1 - p.minSize) % Pow2(p.bits) == 0
  {
    FingerprintSum(gear, data[p.minSize..i + 1]);
    LowBits(Weighted(gear, data[p.minSize..i + 1], i + 1 - p.minSize), p.bits);
  }
}
