/** The deduplication index: an exact set of hashes behind a Bloom filter. */
module Index {
  import opened Bytes
  import opened Options

  /** A 64-bit word, as the set of its one bits. */
  type Word = set<nat>

  /** The two 64-bit hashes a probe sequence is made of. */
  type Hasher = Bytes -> (nat, nat)

  /** Probe i, with the multiplication and the addition wrapping at 64 bits. */
  function Probe(h: Hasher, data: Bytes, i: nat, nbits: nat): (idx: nat)
    requires nbits > 0
    ensures idx < nbits
  {
    ((h(data).0 + (i * h(data).1) % U64_LIMIT) % U64_LIMIT) % nbits
  }

  ghost predicate BitSet(words: seq<Word>, idx: nat) {
    idx / 64 < |words| && idx % 64 in words[idx / 64]
  }

  /** Every probe of the data finds a set bit. */
  ghost predicate Probed(words: seq<Word>, h: Hasher, data: Bytes, hashes: nat, nbits: nat)
    requires nbits > 0
  {
    forall i | 0 <= i < hashes :: BitSet(words, Probe(h, data, i, nbits))
  }

  /** No bit is lost. */
  ghost predicate Covers(words: seq<Word>, words': seq<Word>) {
    forall idx: nat | BitSet(words, idx) :: BitSet(words', idx)
  }

  lemma ProbedCovers(words: seq<Word>, words': seq<Word>, h: Hasher, data: Bytes, hashes: nat, nbits: nat)
    requires nbits > 0 && Covers(words, words') && Probed(words, h, data, hashes, nbits)
    ensures Probed(words', h, data, hashes, nbits)
  {
  }

  /** Setting one bit. */
  lemma SetCovers(words: seq<Word>, idx: nat)
    requires idx / 64 < |words|
    ensures var words' := words[idx / 64 := words[idx / 64] + {idx % 64}]; BitSet(words', idx) && Covers(words, words')
  {
  }

  class BloomFilter {
    const words: array<Word>
    const nbits: nat
    const hashes: nat
    const h: Hasher

    ghost predicate Valid()
      reads this
    {
      0 < nbits <= 64 * words.Length && hashes > 0
    }

    constructor (bitCount: nat, hashCount: nat, h: Hasher)
      requires bitCount > 0 && hashCount > 0
      ensures Valid() && fresh(words) && nbits == bitCount && hashes == hashCount && this.h == h
    {
      words := new Word[(bitCount + 63) / 64](_ => {});
      nbits, hashes := bitCount, hashCount;
      this.h := h;
    }

    method Add(data: Bytes)
      requires Valid()
      modifies words
      ensures Probed(words[..], h, data, hashes, nbits) && Covers(old(words[..]), words[..])
    {
      var i := 0;
      while i < hashes
        invariant i <= hashes && Valid()
        invariant Probed(words[..], h, data, i, nbits) && Covers(old(words[..]), words[..])
      {
        var idx := Probe(h, data, i, nbits);
        ghost var before := words[..];
        SetCovers(before, idx);
        words[idx / 64] := words[idx / 64] + {idx % 64};
        assert words[..] == before[idx / 64 := before[idx / 64] + {idx % 64}];
        i := i + 1;
      }
    }

    method MaybeContains(data: Bytes) returns (r: bool)
      requires Valid()
      ensures r <==> Probed(words[..], h, data, hashes, nbits)
    {
      var i := 0;
      while i < hashes
        invariant i <= hashes && Probed(words[..], h, data, i, nbits)
      {
        var idx := Probe(h, data, i, nbits);
        assert words[..][idx / 64] == words[idx / 64];
        if idx % 64 !in words[idx / 64] {
          assert !BitSet(words[..], Probe(h, data, i, nbits));
          return false;
        }
        i := i + 1;
      }
      return true;
    }
  }

  /** A filter, or None for a size that is not positive. */
  method NewBloomFilter(bitCount: int, hashCount: int, h: Hasher) returns (r: Option<BloomFilter>)
    ensures r.Some? <==> bitCount > 0 && hashCount > 0
    ensures r.Some? ==> fresh(r.value) && fresh(r.value.words) && r.value.Valid() && r.value.nbits == bitCount && r.value.hashes == hashCount
  {
    if bitCount <= 0 || hashCount <= 0 {
      return None;
    }
    var b := new BloomFilter(bitCount, hashCount, h);
    return Some(b);
  }

  const BITS_PER_ENTRY := 10
  const HASHES := 7

  class Index {
    var entries: set<Bytes>
    const bloom: BloomFilter

    /** Every entry is in the filter too. */
    ghost predicate Valid()
      reads this, bloom, bloom.words
    {
      bloom.Valid() && forall e | e in entries :: Probed(bloom.words[..], bloom.h, e, bloom.hashes, bloom.nbits)
    }

    /** An empty index for the expected number of entries. */
    constructor (expected: int, h: Hasher)
      ensures Valid() && entries == {} && fresh(bloom) && fresh(bloom.words)
    {
      var n := if expected <= 0 then 1 else expected;
      entries := {};
      bloom := new BloomFilter(n * BITS_PER_ENTRY, HASHES, h);
    }

    /** True exactly when the hash is new. */
    method Add(hash: Bytes) returns (added: bool)
      requires Valid()
      modifies this, bloom.words
      ensures Valid() && entries == old(entries) + {hash}
      ensures added <==> hash !in old(entries)
    {
      if hash in entries {
        return false;
      }
      ghost var before := bloom.words[..];
      entries := entries + {hash};
      bloom.Add(hash);
      forall e | e in entries
        ensures Probed(bloom.words[..], bloom.h, e, bloom.hashes, bloom.nbits)
      {
        if e != hash {
          ProbedCovers(before, bloom.words[..], bloom.h, e, bloom.hashes, bloom.nbits);
        }
      }
      return true;
    }

    /** The filter never hides an entry, so this is membership. */
    method Contains(hash: Bytes) returns (r: bool)
      requires Valid()
      ensures r <==> hash in entries
    {
      var maybe := bloom.MaybeContains(hash);
      if !maybe {
        return false;
      }
      return hash in entries;
    }
  }

  /** Any run of additions: each answers whether its hash is new, and the index holds them all. */
  method AddAll(index: Index, hashes: seq<Bytes>) returns (added: seq<bool>)
    requires index.Valid()
    modifies index, index.bloom.words
    ensures index.Valid() && index.entries == old(index.entries) + Elements(hashes)
    ensures |added| == |hashes| && forall i | 0 <= i < |hashes| :: added[i] <==> hashes[i] !in old(index.entries) && hashes[i] !in hashes[..i]
  {
    added := [];
    var i := 0;
    while i < |hashes|
      invariant i <= |hashes| && |added| == i && index.Valid()
      invariant index.entries == old(index.entries) + Elements(hashes[..i])
      invariant forall j | 0 <= j < i :: added[j] <==> hashes[j] !in old(index.entries) && hashes[j] !in hashes[..j]
    {
      assert hashes[..i + 1] == hashes[..i] + [hashes[i]];
      var isNew := index.Add(hashes[i]);
      added := added + [isNew];
      i := i + 1;
    }
    assert hashes[..i] == hashes;
  }

  ghost function Elements(s: seq<Bytes>): set<Bytes> {
    set x | x in s
  }
}
