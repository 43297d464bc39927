/** What a stored chunk is: its content key, and how its bytes are encoded and decoded. */
module ChunkStore {
  import opened Bytes
  import opened Options
  import Envelope

  /** The hash, the cipher with its key, and the compressors by algorithm name. */
  datatype Env = Env(
    hash: Bytes -> Bytes,
    cipher: Envelope.Cipher,
    keyId: Bytes,
    algorithm: string,
    compress: (string, Bytes) -> Bytes,
    decompress: (string, Bytes) -> Option<Bytes>)

  const HASH_SIZE := 32

  /** Decryption inverts encryption and decompression inverts compression. */
  ghost predicate Lawful(env: Env) {
    && Envelope.Lawful(env.cipher)
    && (forall x: Bytes :: env.decompress(env.algorithm, env.compress(env.algorithm, x)) == Some(x))
    && forall x: Bytes :: |env.hash(x)| == HASH_SIZE
  }

  /** Nothing else has the hash of x. */
  ghost predicate Unforged(env: Env, x: Bytes) {
    forall y: Bytes :: env.hash(y) == env.hash(x) ==> y == x
  }

  // ---- content keys ----

  const DIGITS := "0123456789abcdef"

  function Hex(b: Bytes): (r: string)
    ensures |r| == 2 * |b|
  {
    if b == [] then [] else [DIGITS[b[0] / 16], DIGITS[b[0] % 16]] + Hex(b[1..])
  }

  function ContentKey(hash: Bytes): string
    requires |hash| == HASH_SIZE
  {
    var value := Hex(hash);
    "data/" + value[..2] + "/" + value[2..4] + "/" + value
  }

  lemma DigitsDiffer(i: nat, j: nat)
    requires i < 16 && j < 16 && DIGITS[i] == DIGITS[j]
    ensures i == j
  {
  }

  lemma {:induction false} HexInjective(a: Bytes, b: Bytes)
    requires Hex(a) == Hex(b)
    ensures a == b
  {
    if a != [] && b != [] {
      assert Hex(a)[0] == Hex(b)[0] && Hex(a)[1] == Hex(b)[1];
      DigitsDiffer(a[0] / 16, b[0] / 16);
      DigitsDiffer(a[0] % 16, b[0] % 16);
      assert Hex(a)[2..] == Hex(a[1..]) && Hex(b)[2..] == Hex(b[1..]);
      HexInjective(a[1..], b[1..]);
      assert a == [a[0]] + a[1..] && b == [b[0]] + b[1..];
    }
  }

  /** Distinct hashes have distinct keys, and every key is below data/. */
  lemma KeyInjective(a: Bytes, b: Bytes)
    requires |a| == HASH_SIZE && |b| == HASH_SIZE
    ensures ContentKey(a) == ContentKey(b) <==> a == b
    ensures "data/" <= ContentKey(a)
  {
    assert ContentKey(a)[11..] == Hex(a) && ContentKey(b)[11..] == Hex(b);
    if ContentKey(a) == ContentKey(b) {
      HexInjective(a, b);
    }
  }

  // ---- encoding ----

  /** The object stored for a chunk, under a fresh nonce; None when the envelope cannot be made. */
  function Encode(env: Env, data: Bytes, nonce: Bytes): (r: Option<Bytes>) {
    Envelope.Seal(env.cipher, env.keyId, env.compress(env.algorithm, data), env.hash(data), nonce)
  }

  /** The bytes in a stored object: authenticate with the hash as additional data, then decompress. */
  function Decode(env: Env, stored: Bytes, algorithm: string, hash: Bytes): (r: Option<Bytes>) {
    var text := Envelope.Open(env.cipher, stored, hash);
    if text.None? then None
    else env.decompress(if algorithm == "" then env.algorithm else algorithm, text.value.0)
  }

  /** The object is a copy of this chunk. */
  ghost predicate Holds(env: Env, stored: Bytes, data: Bytes) {
    Decode(env, stored, env.algorithm, env.hash(data)) == Some(data)
  }

  lemma EncodeHolds(env: Env, data: Bytes, nonce: Bytes)
    requires Lawful(env) && Encode(env, data, nonce).Some?
    ensures Holds(env, Encode(env, data, nonce).value, data)
  {
    Envelope.SealThenOpen(env.cipher, env.keyId, env.compress(env.algorithm, data), env.hash(data), nonce);
  }
}
