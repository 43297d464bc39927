/** The encrypted chunk envelope: a plaintext header that the cipher authenticates, then the ciphertext. */
module Envelope {
  import opened Bytes
  import opened Options

  /** "KCHK" */
  const MAGIC: Bytes := [75, 67, 72, 75]
  const VERSION: Byte := 1
  const AES_256_GCM: Byte := 2
  const CHACHA20: Byte := 3

  /** Magic, version, algorithm, nonce length and the two bytes of the key length. */
  const FIXED := 9

  datatype Header = Header(version: Byte, algorithm: Byte, keyId: Bytes, nonce: Bytes)

  /** The parser takes any algorithm byte; the lengths must be non-zero and fit their fields. */
  predicate Readable(h: Header) {
    h.version == VERSION && 0 < |h.nonce| < 256 && 0 < |h.keyId| < 65536
  }

  function Encode(h: Header): (r: Bytes)
    requires Readable(h)
    ensures |r| == FIXED + |h.nonce| + |h.keyId|
  {
    MAGIC + [h.version, h.algorithm, |h.nonce|, |h.keyId| / 256, |h.keyId| % 256] + h.nonce + h.keyId
  }

  /** The writer also insists on a known algorithm. */
  function MarshalHeader(h: Header): (r: Option<Bytes>)
  {
    if !Readable(h) || (h.algorithm != AES_256_GCM && h.algorithm != CHACHA20) then None else Some(Encode(h))
  }

  /** The header at the front of an envelope, and its length. */
  function ParseHeader(e: Bytes): (r: Option<(Header, nat)>) {
    if |e| < FIXED || e[..4] != MAGIC || e[4] != VERSION then None
    else
      var nonceLen: nat, keyLen: nat := e[6], 256 * (e[7] as int) + e[8];
      if nonceLen == 0 || keyLen == 0 || |e| < FIXED + nonceLen + keyLen then None
      else
        var keyAt := FIXED + nonceLen;
        Some((Header(e[4], e[5], e[keyAt..keyAt + keyLen], e[FIXED..keyAt]), keyAt + keyLen))
  }

  /** Parsing succeeds exactly on the encoding of a readable header, whatever follows it. */
  lemma ParseIsDecode(e: Bytes, h: Header, n: nat)
    ensures ParseHeader(e) == Some((h, n)) <==> Readable(h) && n == FIXED + |h.nonce| + |h.keyId| && n <= |e| && e[..n] == Encode(h)
  {
    if ParseHeader(e) == Some((h, n)) {
      ParsedEncodes(e, h, n);
    }
    if Readable(h) && n == FIXED + |h.nonce| + |h.keyId| && n <= |e| && e[..n] == Encode(h) {
      EncodedParses(e, h, n);
    }
  }

  lemma EncodedParses(e: Bytes, h: Header, n: nat)
    requires Readable(h) && n == FIXED + |h.nonce| + |h.keyId| && n <= |e| && e[..n] == Encode(h)
    ensures ParseHeader(e) == Some((h, n))
  {
    var p := e[..n];
    assert p[..4] == MAGIC && e[..4] == p[..4];
    assert forall i | 4 <= i < FIXED :: e[i] == p[i];
    var keyAt := FIXED + |h.nonce|;
    assert p[FIXED..keyAt] == h.nonce && e[FIXED..keyAt] == p[FIXED..keyAt];
    assert p[keyAt..n] == h.keyId && e[keyAt..n] == p[keyAt..n];
  }

  lemma ParsedEncodes(e: Bytes, h: Header, n: nat)
    requires ParseHeader(e) == Some((h, n))
    ensures Readable(h) && n == FIXED + |h.nonce| + |h.keyId| && n <= |e| && e[..n] == Encode(h)
  {
    var keyAt := FIXED + |h.nonce|;
    assert |h.keyId| / 256 == e[7] && |h.keyId| % 256 == e[8];
    assert e[..n] == e[..4] + e[4..FIXED] + e[FIXED..keyAt] + e[keyAt..n];
    assert e[4..FIXED] == [h.version, h.algorithm, |h.nonce|, |h.keyId| / 256, |h.keyId| % 256];
  }

  /** What is written is read back, and the envelope cannot be read in a second way. */
  lemma HeaderRoundTrip(h: Header, rest: Bytes)
    requires MarshalHeader(h).Some?
    ensures ParseHeader(MarshalHeader(h).value + rest) == Some((h, |MarshalHeader(h).value|))
  {
    var b := MarshalHeader(h).value;
    assert (b + rest)[..|b|] == b;
    EncodedParses(b + rest, h, |b|);
  }

  /** What is read is what would be written, exactly when the algorithm is a known one. */
  lemma ParseRoundTrip(e: Bytes)
    requires ParseHeader(e).Some?
    ensures var (h, n) := ParseHeader(e).value;
            n <= |e| && (MarshalHeader(h) == Some(e[..n]) <==> h.algorithm == AES_256_GCM || h.algorithm == CHACHA20)
  {
    var (h, n) := ParseHeader(e).value;
    ParsedEncodes(e, h, n);
  }

  /** The algorithm of a header that was read need not be a known one: with byte 7 there it is read and not written. */
  lemma UnknownAlgorithm(keyId: Bytes, nonce: Bytes)
    requires 0 < |nonce| < 256 && 0 < |keyId| < 65536
    ensures var h := Header(VERSION, 7, keyId, nonce);
            ParseHeader(Encode(h)) == Some((h, |Encode(h)|)) && MarshalHeader(h) == None
  {
    var h := Header(VERSION, 7, keyId, nonce);
    assert Encode(h)[..|Encode(h)|] == Encode(h);
    EncodedParses(Encode(h), h, |Encode(h)|);
  }

  // ---- sealing and opening ----

  /** An authenticated cipher: seal and open take a nonce, a text and the additional data. */
  datatype Cipher = Cipher(algorithm: string, seal: (Bytes, Bytes, Bytes) -> Bytes, open: (Bytes, Bytes, Bytes) -> Option<Bytes>)

  ghost predicate Lawful(c: Cipher) {
    forall n: Bytes, p: Bytes, a: Bytes :: c.open(n, c.seal(n, p, a), a) == Some(p)
  }

  function EnvelopeAlgorithm(name: string): (r: Option<Byte>) {
    if name == "aes-256-gcm" then Some(AES_256_GCM)
    else if name == "chacha20-poly1305" then Some(CHACHA20)
    else None
  }

  /** nonce is what the cipher drew for this envelope. */
  function Seal(c: Cipher, keyId: Bytes, plaintext: Bytes, additional: Bytes, nonce: Bytes): (r: Option<Bytes>) {
    var algorithm := EnvelopeAlgorithm(c.algorithm);
    if keyId == [] || algorithm.None? then None
    else
      var header := MarshalHeader(Header(VERSION, algorithm.value, keyId, nonce));
      if header.None? then None
      else Some(header.value + c.seal(nonce, plaintext, header.value + additional))
  }

  function Open(c: Cipher, e: Bytes, additional: Bytes): (r: Option<(Bytes, Header)>) {
    var parsed := ParseHeader(e);
    var algorithm := EnvelopeAlgorithm(c.algorithm);
    if parsed.None? || algorithm.None? then None
    else
      var (h, n) := parsed.value;
      if h.algorithm != algorithm.value || n > |e| then None
      else
        var plaintext := c.open(h.nonce, e[n..], e[..n] + additional);
        if plaintext.None? then None else Some((plaintext.value, h))
  }

  /** An envelope opens to what was sealed in it, under the same additional data. */
  lemma SealThenOpen(c: Cipher, keyId: Bytes, plaintext: Bytes, additional: Bytes, nonce: Bytes)
    requires Lawful(c)
    ensures Seal(c, keyId, plaintext, additional, nonce).Some? <==>
      EnvelopeAlgorithm(c.algorithm).Some? && 0 < |nonce| < 256 && 0 < |keyId| < 65536
    ensures var e := Seal(c, keyId, plaintext, additional, nonce);
            e.Some? ==> Open(c, e.value, additional) == Some((plaintext, Header(VERSION, EnvelopeAlgorithm(c.algorithm).value, keyId, nonce)))
  {
    var e := Seal(c, keyId, plaintext, additional, nonce);
    if e.Some? {
      var h := Header(VERSION, EnvelopeAlgorithm(c.algorithm).value, keyId, nonce);
      var b := MarshalHeader(h).value;
      var text := c.seal(nonce, plaintext, b + additional);
      HeaderRoundTrip(h, text);
      assert e.value == b + text && e.value[..|b|] == b && e.value[|b|..] == text;
    }
  }

  /** Opening hands the cipher every byte of the envelope: the header as additional data, the rest as text. */
  lemma OpenAuthenticates(c: Cipher, e: Bytes, additional: Bytes)
    ensures Open(c, e, additional).Some? ==>
      var (plaintext, h) := Open(c, e, additional).value;
      && EnvelopeAlgorithm(c.algorithm) == Some(h.algorithm) && MarshalHeader(h).Some? && |MarshalHeader(h).value| <= |e|
      && e[..|MarshalHeader(h).value|] == MarshalHeader(h).value
      && c.open(h.nonce, e[|MarshalHeader(h).value|..], MarshalHeader(h).value + additional) == Some(plaintext)
  {
    if Open(c, e, additional).Some? {
      var (h, n) := ParseHeader(e).value;
      ParsedEncodes(e, h, n);
    }
  }
}
