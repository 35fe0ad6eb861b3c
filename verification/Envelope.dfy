/**
  Envelope encryption (internal/crypto/envelope.go, internal/crypto/rootkey.go)
  over a symbolic AEAD: a sealed box opens under exactly the key, nonce and
  additional data it was sealed with, as NIST SP 800-38D promises of GCM.
*/
module Envelope {
  import opened Results

  type Byte = b: int | 0 <= b < 256
  type Bytes = seq<Byte>

  const KEY_SIZE := 32
  const NONCE_SIZE := 12
  const TWO32: int := 0x1_0000_0000

  // ---------------------------------------------------------------------------
  // Identity and its encoding
  // ---------------------------------------------------------------------------

  type Int32 = v: int | -0x8000_0000 <= v < 0x8000_0000

  datatype Identity = Identity(tenantUuid: Bytes, secretUuid: Bytes, version: Int32)

  function Ascii(s: string): Bytes {
    seq(|s|, i requires 0 <= i < |s| => s[i] as int % 256)
  }

  const AAD_DOMAIN := Ascii("maintainerd-secret/aad/v1")

  /** Go's conversion of an integer to uint32, written big-endian. */
  function BigEndian32(n: int): (b: Bytes)
    ensures |b| == 4
  {
    var u := n % TWO32;
    [u / 0x100_0000, u / 0x1_0000 % 256, u / 256 % 256, u % 256]
  }

  function Field(f: Bytes): Bytes {
    BigEndian32(|f|) + f
  }

  function Aad(id: Identity): Bytes {
    AAD_DOMAIN + Field(id.tenantUuid) + Field(id.secretUuid) + BigEndian32(id.version)
  }

  /** Identity.AAD: the buffer the loop over the fields builds. */
  method BuildAad(id: Identity) returns (b: Bytes)
    ensures b == Aad(id)
  {
    b := AAD_DOMAIN;
    var fields := [id.tenantUuid, id.secretUuid];
    for i := 0 to |fields|
      invariant i == 0 ==> b == AAD_DOMAIN
      invariant i == 1 ==> b == AAD_DOMAIN + Field(id.tenantUuid)
      invariant i == 2 ==> b == AAD_DOMAIN + Field(id.tenantUuid) + Field(id.secretUuid)
    {
      ghost var before := b;
      b := b + BigEndian32(|fields[i]|);
      b := b + fields[i];
      assert b == before + Field(fields[i]);
    }
    b := b + BigEndian32(id.version);
  }

  lemma BigEndianInjective(m: int, n: int)
    ensures BigEndian32(m) == BigEndian32(n) <==> m % TWO32 == n % TWO32
  {
    Digits(m % TWO32);
    Digits(n % TWO32);
  }

  lemma Digits(u: int)
    requires 0 <= u < TWO32
    ensures BigEndian32(u) == [u / 0x100_0000, u / 0x1_0000 % 256, u / 256 % 256, u % 256]
    ensures u == BigEndian32(u)[0] as int * 0x100_0000 + BigEndian32(u)[1] as int * 0x1_0000
      + BigEndian32(u)[2] as int * 256 + BigEndian32(u)[3] as int
  {
    assert u / 256 / 256 == u / 0x1_0000 && u / 0x1_0000 / 256 == u / 0x100_0000;
  }

  /** The number bytes stand for, the first the most significant. */
  function ValueOf(b: Bytes): nat {
    if b == [] then 0 else ValueOf(b[..|b| - 1]) * 256 + b[|b| - 1]
  }

  lemma ValueOfFour(b: Bytes)
    requires |b| == 4
    ensures ValueOf(b) == b[0] as int * 0x100_0000 + b[1] as int * 0x1_0000 + b[2] as int * 256 + b[3] as int
  {
    var three, two, one := b[..3], b[..2], b[..1];
    assert three[..2] == two && two[..1] == one && one[..0] == [];
    assert ValueOf(one) == b[0] && ValueOf(two) == b[0] as int * 256 + b[1]
      && ValueOf(three) == ValueOf(two) * 256 + b[2];
  }

  /**
    What is authenticated, and in which order: the domain, the tenant and the secret,
    each after its length, and the version, all three numbers four bytes and big-endian.
  */
  lemma AadLayout(id: Identity) returns (tenantLength: Bytes, secretLength: Bytes, version: Bytes)
    requires Short(id)
    ensures Aad(id) == Ascii("maintainerd-secret/aad/v1")
      + tenantLength + id.tenantUuid + secretLength + id.secretUuid + version
    ensures |tenantLength| == |secretLength| == |version| == 4
    ensures ValueOf(tenantLength) == |id.tenantUuid| && ValueOf(secretLength) == |id.secretUuid|
    ensures ValueOf(version) == if id.version < 0 then id.version + TWO32 else id.version
  {
    tenantLength, secretLength := BigEndian32(|id.tenantUuid|), BigEndian32(|id.secretUuid|);
    version := BigEndian32(id.version);
    Reads(|id.tenantUuid|);
    Reads(|id.secretUuid|);
    Reads(id.version);
    Unsigned(id.version);
    var domain := Ascii("maintainerd-secret/aad/v1");
    FieldsInLine(domain, tenantLength, id.tenantUuid, secretLength, id.secretUuid, version);
  }

  lemma FieldsInLine(domain: Bytes, m: Bytes, f: Bytes, n: Bytes, g: Bytes, v: Bytes)
    ensures domain + (m + f) + (n + g) + v == domain + m + f + n + g + v
  {
  }

  lemma Unsigned(v: Int32)
    ensures v as int % TWO32 == if v < 0 then v as int + TWO32 else v as int
  {
  }

  lemma Reads(n: int)
    ensures ValueOf(BigEndian32(n)) == n % TWO32
  {
    Digits(n % TWO32);
    ValueOfFour(BigEndian32(n % TWO32));
  }

  lemma FieldSplits(f: Bytes, rest: Bytes, g: Bytes, more: Bytes)
    requires |f| < TWO32 && |g| < TWO32
    requires Field(f) + rest == Field(g) + more
    ensures f == g && rest == more
  {
    var x, y := Field(f) + rest, Field(g) + more;
    assert x[..4] == BigEndian32(|f|) && y[..4] == BigEndian32(|g|);
    BigEndianInjective(|f|, |g|);
    assert x[4..4 + |f|] == f && y[4..4 + |g|] == g;
    assert x[4 + |f|..] == rest && y[4 + |g|..] == more;
  }

  /** An identity whose fields have a length the four-byte prefix can hold. */
  predicate Short(id: Identity) {
    |id.tenantUuid| < TWO32 && |id.secretUuid| < TWO32
  }

  lemma SamePrefix(domain: Bytes, a: Identity, b: Identity)
    requires domain + Field(a.tenantUuid) + Field(a.secretUuid) + BigEndian32(a.version)
          == domain + Field(b.tenantUuid) + Field(b.secretUuid) + BigEndian32(b.version)
    ensures Field(a.tenantUuid) + (Field(a.secretUuid) + BigEndian32(a.version))
         == Field(b.tenantUuid) + (Field(b.secretUuid) + BigEndian32(b.version))
  {
    var x := Field(a.tenantUuid) + (Field(a.secretUuid) + BigEndian32(a.version));
    var y := Field(b.tenantUuid) + (Field(b.secretUuid) + BigEndian32(b.version));
    assert domain + Field(a.tenantUuid) + Field(a.secretUuid) + BigEndian32(a.version) == domain + x;
    assert domain + Field(b.tenantUuid) + Field(b.secretUuid) + BigEndian32(b.version) == domain + y;
    assert (domain + x)[|domain|..] == x && (domain + y)[|domain|..] == y;
  }

  /** The encoding is injective: two different identities are never bound alike. */
  lemma AadInjective(a: Identity, b: Identity)
    requires Short(a) && Short(b)
    ensures Aad(a) == Aad(b) <==> a == b
  {
    if Aad(a) == Aad(b) {
      SamePrefix(AAD_DOMAIN, a, b);
      SameFields(a, b);
    }
  }

  lemma SameFields(a: Identity, b: Identity)
    requires Short(a) && Short(b)
    requires Field(a.tenantUuid) + (Field(a.secretUuid) + BigEndian32(a.version))
          == Field(b.tenantUuid) + (Field(b.secretUuid) + BigEndian32(b.version))
    ensures a == b
  {
    FieldSplits(a.tenantUuid, Field(a.secretUuid) + BigEndian32(a.version),
                b.tenantUuid, Field(b.secretUuid) + BigEndian32(b.version));
    FieldSplits(a.secretUuid, BigEndian32(a.version), b.secretUuid, BigEndian32(b.version));
    BigEndianInjective(a.version, b.version);
    SameVersion(a.version, b.version);
  }

  lemma SameVersion(v: Int32, w: Int32)
    requires v % TWO32 == w % TWO32
    ensures v == w
  {
    assert v as int % TWO32 == if v < 0 then v as int + TWO32 else v as int;
    assert w as int % TWO32 == if w < 0 then w as int + TWO32 else w as int;
  }

  /** The bound on the lengths is needed: at 2^32 the length prefix wraps and two identities collide. */
  lemma AadCollidesBeyondPrefix() returns (a: Identity, b: Identity)
    ensures a != b && Aad(a) == Aad(b)
    ensures |a.tenantUuid| == TWO32 && |b.secretUuid| == TWO32
  {
    var zeros: Bytes := seq(TWO32, i => 0);
    a, b := Identity(zeros, [], 1), Identity([], zeros, 1);
    assert BigEndian32(TWO32) == [0, 0, 0, 0] && BigEndian32(0) == [0, 0, 0, 0];
    assert Field(zeros) + Field([]) == Field([]) + Field(zeros);
    assert Aad(a) == AAD_DOMAIN + (Field(zeros) + Field([])) + BigEndian32(1);
    assert Aad(b) == AAD_DOMAIN + (Field([]) + Field(zeros)) + BigEndian32(1);
  }

  // ---------------------------------------------------------------------------
  // Symbolic AEAD and root keys
  // ---------------------------------------------------------------------------

  /** A ciphertext as the term it was made from, or bytes no seal produced. */
  datatype Box = Sealed(key: Bytes, nonce: Bytes, aad: Bytes, body: Bytes) | Noise(bytes: Bytes)

  function OpenBox(key: Bytes, nonce: Bytes, aad: Bytes, box: Box): Option<Bytes> {
    if box.Sealed? && box.key == key && box.nonce == nonce && box.aad == aad then Some(box.body) else None
  }

  /** A root key behind the env, file and ephemeral providers: its id and its key. */
  datatype Provider = Provider(keyId: string, key: Bytes)

  function WrapAad(keyId: string): Bytes {
    Ascii("maintainerd-secret/dek-wrap/v1|" + keyId)
  }

  /** aesKEK.Wrap; `nonce` is what the random source yields. */
  function Wrap(p: Provider, dek: Bytes, nonce: Bytes): Result<(Box, Bytes), AppError>
    requires |nonce| == NONCE_SIZE
  {
    if |dek| != KEY_SIZE then Err(Internal) else Ok((Sealed(p.key, nonce, WrapAad(p.keyId), dek), nonce))
  }

  /** aesKEK.Unwrap. */
  function Unwrap(p: Provider, wrapped: Box, nonce: Bytes): Result<Bytes, AppError> {
    if |nonce| != NONCE_SIZE then Err(Internal)
    else
      match OpenBox(p.key, nonce, WrapAad(p.keyId), wrapped)
      case None => Err(Internal)
      case Some(dek) => if |dek| != KEY_SIZE then Err(Internal) else Ok(dek)
  }

  lemma UnwrapInvertsWrap(p: Provider, dek: Bytes, nonce: Bytes)
    requires |nonce| == NONCE_SIZE && |dek| == KEY_SIZE
    ensures Wrap(p, dek, nonce).Ok?
    ensures Unwrap(p, Wrap(p, dek, nonce).value.0, Wrap(p, dek, nonce).value.1) == Ok(dek)
  {
  }

  /**
    What a root key unwraps, of anything it is shown: what it has itself wrapped under
    its own id, and nothing else.
  */
  lemma UnwrapsIff(p: Provider, box: Box, nonce: Bytes, dek: Bytes)
    ensures Unwrap(p, box, nonce) == Ok(dek) <==>
      |nonce| == NONCE_SIZE && |dek| == KEY_SIZE && Wrap(p, dek, nonce) == Ok((box, nonce))
    ensures Unwrap(p, box, nonce).Err? ==> Unwrap(p, box, nonce).error == Internal
  {
  }

  predicate Latin(s: string) {
    forall i | 0 <= i < |s| :: s[i] as int < 256
  }

  lemma AsciiInjective(s: string, t: string)
    requires Latin(s) && Latin(t)
    ensures Ascii(s) == Ascii(t) <==> s == t
  {
    if Ascii(s) == Ascii(t) {
      forall i | 0 <= i < |s| ensures s[i] == t[i] {
        assert Ascii(s)[i] == Ascii(t)[i];
      }
    }
  }

  /** A DEK wrapped by one key is unwrapped by exactly the keys of the same bytes and the same id. */
  lemma UnwrapsOwnIdOnly(p: Provider, q: Provider, dek: Bytes, nonce: Bytes)
    requires |nonce| == NONCE_SIZE && |dek| == KEY_SIZE && Latin(p.keyId) && Latin(q.keyId)
    ensures Wrap(p, dek, nonce).Ok?
    ensures Unwrap(q, Wrap(p, dek, nonce).value.0, nonce).Ok? <==> q == p
  {
    if WrapAad(p.keyId) == WrapAad(q.keyId) {
      var head := "maintainerd-secret/dek-wrap/v1|";
      assert (head + p.keyId)[|head|..] == p.keyId && (head + q.keyId)[|head|..] == q.keyId;
      AsciiInjective(head + p.keyId, head + q.keyId);
    }
  }

  /** A key id is a fingerprint: within this set of keys, equal ids mean the same key. */
  predicate SameIfSameId(p: Provider, q: Provider) {
    p.keyId == q.keyId ==> p.key == q.key
  }

  // ---------------------------------------------------------------------------
  // Seal, Open, Rewrap
  // ---------------------------------------------------------------------------

  datatype Sealing = Sealing(
    ciphertext: Box,
    nonce: Bytes,
    dekWrapped: Box,
    dekNonce: Bytes,
    kekId: string,
    checksum: Bytes)

  /** What one seal draws from the random source. */
  datatype Randomness = Randomness(dek: Bytes, nonce: Bytes, wrapNonce: Bytes)

  predicate ValidRandomness(r: Randomness) {
    |r.dek| == KEY_SIZE && |r.nonce| == NONCE_SIZE && |r.wrapNonce| == NONCE_SIZE
  }

  /** The checksum of a plaintext; SHA-256 in the source, any function here. */
  type Hash = Bytes -> Bytes

  function Seal(hash: Hash, p: Provider, id: Identity, plaintext: Bytes, r: Randomness): Result<Sealing, AppError>
    requires ValidRandomness(r)
  {
    if id.version < 1 then Err(Internal)
    else
      match Wrap(p, r.dek, r.wrapNonce)
      case Err(e) => Err(e)
      case Ok((wrapped, wrapNonce)) =>
        Ok(Sealing(Sealed(r.dek, r.nonce, Aad(id), plaintext), r.nonce, wrapped, wrapNonce, p.keyId, hash(plaintext)))
  }

  function Open(hash: Hash, p: Provider, id: Identity, env: Sealing): Result<Bytes, AppError> {
    if env.kekId != "" && p.keyId != env.kekId then Err(Internal)
    else
      match Unwrap(p, env.dekWrapped, env.dekNonce)
      case Err(e) => Err(e)
      case Ok(dek) =>
        if |env.nonce| != NONCE_SIZE then Err(Internal)
        else
          match OpenBox(dek, env.nonce, Aad(id), env.ciphertext)
          case None => Err(Internal)
          case Some(plaintext) =>
            if env.checksum != [] && hash(plaintext) != env.checksum then Err(Internal) else Ok(plaintext)
  }

  /** Sealing fails exactly for a version below 1. */
  lemma SealsIff(hash: Hash, p: Provider, id: Identity, plaintext: Bytes, r: Randomness)
    requires ValidRandomness(r)
    ensures Seal(hash, p, id, plaintext, r).Ok? <==> id.version >= 1
    ensures Seal(hash, p, id, plaintext, r).Ok? ==>
      var env := Seal(hash, p, id, plaintext, r).value;
      env.kekId == p.keyId && env.checksum == hash(plaintext) && Open(hash, p, id, env) == Ok(plaintext)
  {
  }

  /**
    Any envelope at all, however it came about, opens to a plaintext exactly if its key
    column is empty or names this key, this key unwraps its DEK, that DEK sealed the
    plaintext for this identity, and its checksum column is empty or the plaintext's own.
  */
  lemma OpensToIff(hash: Hash, p: Provider, id: Identity, env: Sealing, plaintext: Bytes)
    ensures Open(hash, p, id, env) == Ok(plaintext) <==>
      && (env.kekId == "" || env.kekId == p.keyId)
      && (env.checksum == [] || env.checksum == hash(plaintext))
      && |env.nonce| == NONCE_SIZE
      && exists dek ::
           && Unwrap(p, env.dekWrapped, env.dekNonce) == Ok(dek)
           && env.ciphertext == Sealed(dek, env.nonce, Aad(id), plaintext)
  {
    var dek := Unwrap(p, env.dekWrapped, env.dekNonce);
    if dek.Ok? && Open(hash, p, id, env) == Ok(plaintext) {
      assert env.ciphertext == Sealed(dek.value, env.nonce, Aad(id), plaintext);
    }
  }

  /** Moves a DEK from one root key to another; the payload is not an argument. */
  function Rewrap(from: Provider, to: Provider, wrapped: Box, nonce: Bytes, fresh_: Bytes)
    : Result<(Box, Bytes), AppError>
    requires |fresh_| == NONCE_SIZE
  {
    if from.keyId == to.keyId then Ok((wrapped, nonce))
    else
      match Unwrap(from, wrapped, nonce)
      case Err(e) => Err(e)
      case Ok(dek) => Wrap(to, dek, fresh_)
  }

  /**
    A sealed version opens under exactly the root key and the identity it was
    sealed with; under any other key id, tenant, secret or version it fails.
  */
  lemma OpensIff(hash: Hash, p: Provider, q: Provider, id: Identity, other: Identity, plaintext: Bytes, r: Randomness)
    requires ValidRandomness(r) && id.version >= 1 && p.keyId != "" && SameIfSameId(p, q)
    requires Short(id) && Short(other)
    ensures Seal(hash, p, id, plaintext, r).Ok?
    ensures var env := Seal(hash, p, id, plaintext, r).value;
            && (Open(hash, q, other, env) == Ok(plaintext) <==> q.keyId == p.keyId && other == id)
            && (Open(hash, q, other, env).Ok? <==> q.keyId == p.keyId && other == id)
  {
    AadInjective(id, other);
  }

  /** The envelope with its DEK moved to another root key. */
  function Moved(env: Sealing, wrapped: Box, nonce: Bytes, keyId: string): Sealing {
    env.(dekWrapped := wrapped, dekNonce := nonce, kekId := keyId)
  }

  /** A rewrap keeps what the version opens to, for every identity, and moves it to the target key. */
  lemma RewrapKeepsOpening(hash: Hash, from: Provider, to: Provider, env: Sealing, fresh_: Bytes, id: Identity)
    requires |fresh_| == NONCE_SIZE && env.kekId == from.keyId && from.keyId != to.keyId
    requires Rewrap(from, to, env.dekWrapped, env.dekNonce, fresh_).Ok?
    ensures var (wrapped, nonce) := Rewrap(from, to, env.dekWrapped, env.dekNonce, fresh_).value;
            && Open(hash, to, id, Moved(env, wrapped, nonce, to.keyId)) == Open(hash, from, id, env)
            && Unwrap(to, wrapped, nonce) == Unwrap(from, env.dekWrapped, env.dekNonce)
  {
  }

  /** One rewrap of a version: the key it goes to, and the nonce drawn for it. */
  datatype Hop = Hop(to: Provider, nonce: Bytes)

  /** A version rewrapped from key to key. */
  function RewrapThrough(from: Provider, env: Sealing, hops: seq<Hop>): Result<Sealing, AppError>
    requires forall i | 0 <= i < |hops| :: |hops[i].nonce| == NONCE_SIZE
    decreases |hops|
  {
    if hops == [] then Ok(env)
    else
      match Rewrap(from, hops[0].to, env.dekWrapped, env.dekNonce, hops[0].nonce)
      case Err(e) => Err(e)
      case Ok((wrapped, nonce)) => RewrapThrough(hops[0].to, Moved(env, wrapped, nonce, hops[0].to.keyId), hops[1..])
  }

  /** From each key to the next, equal ids mean the same key. */
  predicate FingerprintsAlong(from: Provider, hops: seq<Hop>)
    decreases |hops|
  {
    hops == [] || (SameIfSameId(from, hops[0].to) && FingerprintsAlong(hops[0].to, hops[1..]))
  }

  function LastKey(from: Provider, hops: seq<Hop>): Provider {
    if hops == [] then from else hops[|hops| - 1].to
  }

  /**
    Whatever an envelope opens to, if it opens at all, for any identity: after being
    rewrapped through any keys it opens to the same under the last of them.
  */
  lemma {:induction false} RewrapThroughKeepsOpening(
    hash: Hash, from: Provider, env: Sealing, hops: seq<Hop>, id: Identity)
    requires forall i | 0 <= i < |hops| :: |hops[i].nonce| == NONCE_SIZE
    requires FingerprintsAlong(from, hops) && env.kekId == from.keyId && RewrapThrough(from, env, hops).Ok?
    ensures Open(hash, LastKey(from, hops), id, RewrapThrough(from, env, hops).value) == Open(hash, from, id, env)
    decreases |hops|
  {
    if hops != [] {
      var to := hops[0].to;
      var (wrapped, nonce) := Rewrap(from, to, env.dekWrapped, env.dekNonce, hops[0].nonce).value;
      var moved := Moved(env, wrapped, nonce, to.keyId);
      if from.keyId == to.keyId {
        assert to == from && moved == env;
      } else {
        RewrapKeepsOpening(hash, from, to, env, hops[0].nonce, id);
      }
      assert forall i | 0 <= i < |hops[1..]| :: hops[1..][i] == hops[i + 1];
      RewrapThroughKeepsOpening(hash, to, moved, hops[1..], id);
    }
  }

  /** Rewrapping through any keys succeeds, and only the wrapping of the DEK is another. */
  lemma {:induction false} RewrapThroughWraps(from: Provider, env: Sealing, hops: seq<Hop>, dek: Bytes)
    requires forall i | 0 <= i < |hops| :: |hops[i].nonce| == NONCE_SIZE
    requires FingerprintsAlong(from, hops)
    requires Unwrap(from, env.dekWrapped, env.dekNonce) == Ok(dek) && |dek| == KEY_SIZE && env.kekId == from.keyId
    ensures var moved := RewrapThrough(from, env, hops);
            && moved.Ok?
            && moved.value == Moved(env, moved.value.dekWrapped, moved.value.dekNonce, LastKey(from, hops).keyId)
            && Unwrap(LastKey(from, hops), moved.value.dekWrapped, moved.value.dekNonce) == Ok(dek)
    decreases |hops|
  {
    if hops != [] {
      var to := hops[0].to;
      if from.keyId != to.keyId {
        UnwrapInvertsWrap(to, dek, hops[0].nonce);
      }
      var (wrapped, nonce) := Rewrap(from, to, env.dekWrapped, env.dekNonce, hops[0].nonce).value;
      assert forall i | 0 <= i < |hops[1..]| :: hops[1..][i] == hops[i + 1];
      RewrapThroughWraps(to, Moved(env, wrapped, nonce, to.keyId), hops[1..], dek);
    }
  }

  /**
    A version sealed under one root key and rewrapped through any others opens under
    exactly the last of them and exactly its own identity, to exactly its plaintext. If
    the checksum column is then altered, it opens only with the plaintext's own checksum
    or with none.
  */
  lemma {:induction false} RewrappedOpensIff(
    hash: Hash, p: Provider, hops: seq<Hop>, q: Provider, id: Identity, other: Identity,
    plaintext: Bytes, r: Randomness, checksum: Bytes)
    requires ValidRandomness(r) && id.version >= 1 && Short(id) && Short(other)
    requires forall i | 0 <= i < |hops| :: |hops[i].nonce| == NONCE_SIZE
    requires FingerprintsAlong(p, hops)
    requires LastKey(p, hops).keyId != "" && SameIfSameId(LastKey(p, hops), q)
    ensures Seal(hash, p, id, plaintext, r).Ok?
    ensures var moved := RewrapThrough(p, Seal(hash, p, id, plaintext, r).value, hops);
            && moved.Ok?
            && (Open(hash, q, other, moved.value) == Ok(plaintext) <==>
               q.keyId == LastKey(p, hops).keyId && other == id)
            && (Open(hash, q, other, moved.value).Ok? <==> q.keyId == LastKey(p, hops).keyId && other == id)
            && (Open(hash, LastKey(p, hops), id, moved.value.(checksum := checksum)).Ok? <==>
                  checksum == [] || checksum == hash(plaintext))
  {
    var last := LastKey(p, hops);
    UnwrapInvertsWrap(p, r.dek, r.wrapNonce);
    var env := Seal(hash, p, id, plaintext, r).value;
    RewrapThroughWraps(p, env, hops, r.dek);
    AadInjective(id, other);
  }
}
