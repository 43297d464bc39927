/** Byte strings, their lexicographic order, and fixed-width integer encodings. */
module Bytes {

  type Byte = b: int | 0 <= b < 256

  type Bytes = seq<Byte>

  /** Lexicographic order on byte strings, the order of Go's bytes.Compare. */
  predicate Less(a: Bytes, b: Bytes) {
    b != [] && (a == [] || a[0] < b[0] || (a[0] == b[0] && Less(a[1..], b[1..])))
  }

  /**
   * An order embedding of byte strings into the unit interval: `Rank(a) < Rank(b)`
   * exactly when a comes before b (RankIsOrder).  Every sortedness invariant is
   * stated on ranks, so that transitivity is linear arithmetic.
   */
  ghost function Rank(s: Bytes): (r: real)
    ensures 0.0 <= r < 1.0
  {
    if s == [] then 0.0 else (s[0] as real + 1.0 + Rank(s[1..])) / 257.0
  }

  /** Non-empty strings are ordered by their first bytes, then by the rest. */
  lemma RankHeads(a: Bytes, b: Bytes)
    requires a != [] && b != []
    ensures Rank(a) < Rank(b) <==> a[0] < b[0] || (a[0] == b[0] && Rank(a[1..]) < Rank(b[1..]))
  {
  }

  lemma RankPositive(s: Bytes)
    ensures Rank(s) == 0.0 <==> s == []
  {
  }

  lemma {:induction false} RankIsOrder(a: Bytes, b: Bytes)
    ensures Less(a, b) <==> Rank(a) < Rank(b)
    ensures Rank(a) == Rank(b) ==> a == b
  {
    if a != [] && b != [] {
      RankIsOrder(a[1..], b[1..]);
      if a[0] == b[0] && a[1..] == b[1..] {
        assert a == [a[0]] + a[1..] == b;
      }
    }
  }

  /** Two strings that agree up to k are ordered by what follows. */
  lemma {:induction false} RankAfterPrefix(a: Bytes, b: Bytes, k: nat)
    requires k <= |a| && k <= |b| && a[..k] == b[..k]
    requires k < |b| && (k == |a| || a[k] < b[k])
    ensures Rank(a) < Rank(b)
  {
    if k > 0 {
      assert a[0] == a[..k][0] == b[..k][0] == b[0];
      assert a[1..][..k-1] == a[..k][1..] == b[..k][1..] == b[1..][..k-1];
      RankAfterPrefix(a[1..], b[1..], k - 1);
    }
  }

  /** Three-way comparison. */
  method Compare(a: Bytes, b: Bytes) returns (c: int)
    ensures c < 0 <==> Rank(a) < Rank(b)
    ensures c == 0 <==> a == b
  {
    var k := 0;
    while k < |a| && k < |b| && a[k] == b[k]
      invariant k <= |a| && k <= |b| && a[..k] == b[..k]
    {
      k := k + 1;
    }
    if k < |b| && (k == |a| || a[k] < b[k]) {
      RankAfterPrefix(a, b, k);
      return -1;
    }
    if k < |a| {
      RankAfterPrefix(b, a, k);
      return 1;
    }
    assert a == a[..k] == b[..k] == b;
    return 0;
  }

  /** Little-endian value of a byte string. */
  function FromLe(s: Bytes): nat {
    if s == [] then 0 else s[0] + 256 * FromLe(s[1..])
  }

  /** The low n bytes of x, least significant first. */
  function ToLe(x: nat, n: nat): (s: Bytes)
    ensures |s| == n
  {
    if n == 0 then [] else [x % 256] + ToLe(x / 256, n - 1)
  }

  function Pow256(n: nat): (p: nat)
    ensures p > 0
  {
    if n == 0 then 1 else 256 * Pow256(n - 1)
  }

  lemma {:induction false} LeRoundTrip(x: nat, n: nat)
    requires x < Pow256(n)
    ensures FromLe(ToLe(x, n)) == x
  {
    if n > 0 {
      LeRoundTrip(x / 256, n - 1);
      assert ToLe(x, n)[1..] == ToLe(x / 256, n - 1);
    }
  }

  lemma {:induction false} FromLeBound(s: Bytes)
    ensures FromLe(s) < Pow256(|s|)
  {
    if s != [] {
      FromLeBound(s[1..]);
    }
  }

  /** The unsigned 16-bit field at offset o. */
  function U16(p: Bytes, o: nat): nat
    requires o + 2 <= |p|
  {
    FromLe(p[o..o + 2])
  }

  /** The unsigned 64-bit field at offset o. */
  function U64(p: Bytes, o: nat): nat
    requires o + 8 <= |p|
  {
    FromLe(p[o..o + 8])
  }

  const U16_LIMIT: nat := 0x1_0000
  const U64_LIMIT: nat := 0x1_0000_0000_0000_0000

  /** A field that was written little-endian is read back. */
  lemma ReadsU16(p: Bytes, o: nat, x: nat)
    requires o + 2 <= |p| && x < U16_LIMIT && p[o..o + 2] == ToLe(x, 2)
    ensures U16(p, o) == x
  {
    WidthLimits();
    LeRoundTrip(x, 2);
  }

  lemma ReadsU64(p: Bytes, o: nat, x: nat)
    requires o + 8 <= |p| && x < U64_LIMIT && p[o..o + 8] == ToLe(x, 8)
    ensures U64(p, o) == x
  {
    WidthLimits();
    LeRoundTrip(x, 8);
  }

  lemma WidthLimits()
    ensures Pow256(2) == U16_LIMIT && Pow256(8) == U64_LIMIT
  {
    assert Pow256(4) == 0x1_0000_0000;
  }
}
