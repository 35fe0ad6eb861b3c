/** Which root key writes and which root keys can read (internal/crypto/keyring.go). */
module KeyRings {
  import opened Results
  import opened Envelope

  type Keys = map<string, Provider>

  /** Keys registered in order, a later one replacing an earlier one with its id. */
  function Registered(keys: Keys, more: seq<Option<Provider>>): Keys
    decreases |more|
  {
    if more == [] then keys
    else Registered(match more[0] case None => keys case Some(p) => keys[p.keyId := p], more[1..])
  }

  function Lookup(keys: Keys, kekId: string): Result<Provider, AppError> {
    if kekId in keys then Ok(keys[kekId]) else Err(Internal)
  }

  /** Every key is filed under its own id. */
  ghost predicate WellFiled(keys: Keys) {
    forall k | k in keys :: keys[k].keyId == k
  }

  lemma {:induction false} RegisteredIsWellFiled(keys: Keys, more: seq<Option<Provider>>)
    requires WellFiled(keys)
    ensures WellFiled(Registered(keys, more))
    ensures forall k | k in keys :: k in Registered(keys, more)
    ensures forall i | 0 <= i < |more| && more[i].Some? :: more[i].value.keyId in Registered(keys, more)
    decreases |more|
  {
    if more != [] {
      var next := match more[0] case None => keys case Some(p) => keys[p.keyId := p];
      RegisteredIsWellFiled(next, more[1..]);
      assert forall i | 1 <= i < |more| :: more[i] == more[1..][i - 1];
    }
  }

  class KeyRing {
    var active: Provider
    var byID: Keys

    ghost predicate Valid() reads this {
      WellFiled(byID) && active.keyId in byID
    }

    /** NewKeyRing: the write key, then the superseded keys; an absent one is skipped. */
    constructor NewKeyRing(writer: Provider, previous: seq<Option<Provider>>)
      ensures Valid() && active == writer
      ensures byID == Registered(map[writer.keyId := writer], previous)
    {
      active := writer;
      var ids: Keys := map[writer.keyId := writer];
      var start := ids;
      for i := 0 to |previous|
        invariant Registered(start, previous) == Registered(ids, previous[i..])
        invariant WellFiled(ids) && writer.keyId in ids
      {
        if previous[i].Some? {
          ids := ids[previous[i].value.keyId := previous[i].value];
        }
        assert previous[i..][1..] == previous[i + 1..];
      }
      byID := ids;
    }

    method Active() returns (p: Provider)
      ensures p == active
    {
      p := active;
    }

    method FindProvider(kekId: string) returns (r: Result<Provider, AppError>)
      ensures r == Lookup(byID, kekId)
    {
      r := if kekId in byID then Ok(byID[kekId]) else Err(Internal);
    }

    /** Add: one more key that can read; the write key stays what it was. */
    method Add(p: Option<Provider>)
      requires Valid()
      modifies this
      ensures Valid() && active == old(active)
      ensures byID == Registered(old(byID), [p])
    {
      if p.Some? {
        byID := byID[p.value.keyId := p.value];
      }
    }
  }

  /** Opens a stored envelope with whichever key of the ring wrapped it. */
  function OpenWith(hash: Hash, keys: Keys, id: Identity, env: Sealing): Result<Bytes, AppError> {
    match Lookup(keys, env.kekId)
    case Err(e) => Err(e)
    case Ok(p) => Open(hash, p, id, env)
  }

  lemma WritesReadBackIff(hash: Hash, p: Provider, keys: Keys, id: Identity, plaintext: Bytes, r: Randomness)
    requires ValidRandomness(r) && id.version >= 1 && p.keyId != "" && Short(id)
    requires forall k | k in keys :: SameIfSameId(p, keys[k])
    requires WellFiled(keys)
    ensures Seal(hash, p, id, plaintext, r).Ok?
    ensures OpenWith(hash, keys, id, Seal(hash, p, id, plaintext, r).value) == Ok(plaintext) <==> p.keyId in keys
  {
    if p.keyId in keys {
      OpensIff(hash, p, keys[p.keyId], id, id, plaintext, r);
    }
  }

  /** The keys of a ring, given its write key and those it superseded. */
  function Given(writer: Provider, previous: seq<Option<Provider>>): set<Provider> {
    {writer} + set i | 0 <= i < |previous| && previous[i].Some? :: previous[i].value
  }

  lemma {:induction false} RegisteredFrom(keys: Keys, more: seq<Option<Provider>>, k: string)
    ensures k in Registered(keys, more) ==>
      || (k in keys && Registered(keys, more)[k] == keys[k])
      || exists i | 0 <= i < |more| :: more[i] == Some(Registered(keys, more)[k]) && more[i].value.keyId == k
    decreases |more|
  {
    if more != [] {
      var next := match more[0] case None => keys case Some(p) => keys[p.keyId := p];
      RegisteredFrom(next, more[1..], k);
      assert forall i | 0 <= i < |more[1..]| :: more[1..][i] == more[i + 1];
    }
  }

  /**
    A ring set up with NewKeyRing reads back what was written under a key exactly when
    it was given that key, as its write key or among the superseded ones, whatever else
    it was given and in whatever order.
  */
  lemma {:induction false} RingReadsBackIff(
    hash: Hash, writer: Provider, previous: seq<Option<Provider>>, p: Provider,
    id: Identity, plaintext: Bytes, r: Randomness)
    requires ValidRandomness(r) && id.version >= 1 && p.keyId != "" && Short(id)
    requires forall q | q in Given(writer, previous) :: SameIfSameId(p, q)
    ensures Seal(hash, p, id, plaintext, r).Ok?
    ensures OpenWith(hash, Registered(map[writer.keyId := writer], previous), id, Seal(hash, p, id, plaintext, r).value)
              == Ok(plaintext)
      <==> p in Given(writer, previous)
  {
    var first := map[writer.keyId := writer];
    var keys := Registered(first, previous);
    RegisteredIsWellFiled(first, previous);
    forall k | k in keys ensures keys[k] in Given(writer, previous) && SameIfSameId(p, keys[k]) {
      RegisteredFrom(first, previous, k);
    }
    WritesReadBackIff(hash, p, keys, id, plaintext, r);
    if p.keyId in keys {
      assert keys[p.keyId] == p;
    }
    if p in Given(writer, previous) {
      assert p.keyId in keys;
    }
  }
}
