/**
  Moving every version from one root key to another (internal/crypto/rewrap.go,
  internal/store/rootkeys.go), in batches, with any store call allowed to fail.
*/
module Rewrap {
  import opened Results
  import opened Envelope
  import opened KeyRings

  type Nonce = n: Bytes | |n| == NONCE_SIZE witness seq(NONCE_SIZE, i => 0)

  /** A secret_versions row: the secret version it belongs to, and its envelope. */
  datatype Row = Row(versionId: nat, owner: Identity, env: Sealing)

  /** The columns a rewrap reads; the payload is not among them. */
  datatype VersionWrap = VersionWrap(versionId: nat, kekId: string, dekWrapped: Box, dekNonce: Bytes)

  datatype KeyState = Active | Retiring | Retired

  function WrapOf(row: Row): VersionWrap {
    VersionWrap(row.versionId, row.env.kekId, row.env.dekWrapped, row.env.dekNonce)
  }

  // ---------------------------------------------------------------------------
  // The statements of secret_version.sql
  // ---------------------------------------------------------------------------

  /** The rows of one key, in the order of the table. */
  function Queue(rows: seq<Row>, kekId: string): seq<VersionWrap> {
    if rows == [] then []
    else (if rows[0].env.kekId == kekId then [WrapOf(rows[0])] else []) + Queue(rows[1..], kekId)
  }

  function RewrapRow(row: Row, versionId: nat, from: string, wrapped: Box, nonce: Bytes, to: string): Row {
    if row.versionId == versionId && row.env.kekId == from then row.(env := Moved(row.env, wrapped, nonce, to)) else row
  }

  /** RewrapSecretVersion, guarded on the source key. */
  function RewrapRows(rows: seq<Row>, versionId: nat, from: string, wrapped: Box, nonce: Bytes, to: string): seq<Row> {
    seq(|rows|, i requires 0 <= i < |rows| => RewrapRow(rows[i], versionId, from, wrapped, nonce, to))
  }

  /** The table is kept in the order of its serial key. */
  ghost predicate Ordered(rows: seq<Row>) {
    forall i, j | 0 <= i < j < |rows| :: rows[i].versionId < rows[j].versionId
  }

  // ---------------------------------------------------------------------------
  // What a rewrap may do to a row
  // ---------------------------------------------------------------------------

  function Dek(p: Provider, w: VersionWrap): Result<Bytes, AppError> {
    Unwrap(p, w.dekWrapped, w.dekNonce)
  }

  /** The row is as it was, or its DEK, unchanged, has moved from one key to the other. */
  predicate Carried(from: Provider, to: Provider, before: Row, after: Row) {
    || after == before
    || (&& before.env.kekId == from.keyId
        && after == before.(env := Moved(before.env, after.env.dekWrapped, after.env.dekNonce, to.keyId))
        && Dek(from, WrapOf(before)).Ok?
        && Dek(to, WrapOf(after)) == Dek(from, WrapOf(before)))
  }

  ghost predicate AllCarried(from: Provider, to: Provider, before: seq<Row>, after: seq<Row>) {
    |before| == |after| && forall i | 0 <= i < |before| :: Carried(from, to, before[i], after[i])
  }

  /** Whatever a rewrap did to a row, the ring opens it as it did before. */
  lemma CarriedOpensAlike(hash: Hash, keys: Keys, from: Provider, to: Provider, before: Row, after: Row)
    requires Carried(from, to, before, after) && from.keyId != to.keyId
    requires Lookup(keys, from.keyId) == Ok(from) && Lookup(keys, to.keyId) == Ok(to)
    ensures OpenWith(hash, keys, after.owner, after.env) == OpenWith(hash, keys, before.owner, before.env)
    ensures after.env.ciphertext == before.env.ciphertext && after.env.nonce == before.env.nonce
      && after.env.checksum == before.env.checksum
  {
  }

  /** One run of a rewrap between two keys of the ring, however it ended. */
  ghost predicate Rotates(keys: Keys, move: (Provider, Provider), before: seq<Row>, after: seq<Row>) {
    && move.0.keyId != move.1.keyId
    && Lookup(keys, move.0.keyId) == Ok(move.0) && Lookup(keys, move.1.keyId) == Ok(move.1)
    && AllCarried(move.0, move.1, before, after)
  }

  /**
    After any number of rotations between any keys of the ring, each cut short
    anywhere, every row opens as it did at the start and its payload columns are the
    same.
  */
  lemma {:induction false} RotationsOpenAlike(
    hash: Hash, keys: Keys, moves: seq<(Provider, Provider)>, stages: seq<seq<Row>>, j: nat)
    requires |stages| == |moves| + 1 && j < |stages[0]|
    requires forall i | 0 <= i < |moves| :: Rotates(keys, moves[i], stages[i], stages[i + 1])
    ensures j < |stages[|moves|]|
    ensures var first, last := stages[0][j], stages[|moves|][j];
            && OpenWith(hash, keys, last.owner, last.env) == OpenWith(hash, keys, first.owner, first.env)
            && last.versionId == first.versionId && last.owner == first.owner
            && last.env.ciphertext == first.env.ciphertext && last.env.nonce == first.env.nonce
            && last.env.checksum == first.env.checksum
    decreases |moves|
  {
    if moves != [] {
      var n := |moves| - 1;
      forall i | 0 <= i < |moves[..n]|
        ensures Rotates(keys, moves[..n][i], stages[..n + 1][i], stages[..n + 1][i + 1]) {
        assert Rotates(keys, moves[i], stages[i], stages[i + 1]);
      }
      RotationsOpenAlike(hash, keys, moves[..n], stages[..n + 1], j);
      assert Rotates(keys, moves[n], stages[n], stages[n + 1]);
      CarriedOpensAlike(hash, keys, moves[n].0, moves[n].1, stages[n][j], stages[n + 1][j]);
    }
  }

  /** The part of a row a rotation is about: which version, which DEK, under which key. */
  datatype Abstract = Abstract(versionId: nat, dek: Result<Bytes, AppError>, kekId: string)

  function AbstractOf(from: Provider, to: Provider, row: Row): Abstract {
    Abstract(row.versionId, Dek(if row.env.kekId == from.keyId then from else to, WrapOf(row)), row.env.kekId)
  }

  function Migrated(from: Provider, to: Provider, a: Abstract): Abstract {
    if a.kekId == from.keyId then a.(kekId := to.keyId) else a
  }

  /**
    However often a rotation was cut short and resumed, once nothing is left under
    the old key the table is the one an uninterrupted rotation produces.
  */
  lemma {:induction false} ResumedEqualsUninterrupted(from: Provider, to: Provider, stages: seq<seq<Row>>)
    requires from.keyId != to.keyId && |stages| > 0
    requires forall i | 0 < i < |stages| :: AllCarried(from, to, stages[i - 1], stages[i])
    requires Queue(stages[|stages| - 1], from.keyId) == []
    ensures var first, last := stages[0], stages[|stages| - 1];
            && |first| == |last|
            && forall j | 0 <= j < |first| ::
               AbstractOf(from, to, last[j]) == Migrated(from, to, AbstractOf(from, to, first[j]))
  {
    StagesCompose(from, to, stages);
    var first, last := stages[0], stages[|stages| - 1];
    forall j | 0 <= j < |first|
      ensures AbstractOf(from, to, last[j]) == Migrated(from, to, AbstractOf(from, to, first[j]))
    {
      EmptyQueue(last, from.keyId, j);
      assert Carried(from, to, first[j], last[j]);
    }
  }

  lemma {:induction false} StagesCompose(from: Provider, to: Provider, stages: seq<seq<Row>>)
    requires from.keyId != to.keyId && |stages| > 0
    requires forall i | 0 < i < |stages| :: AllCarried(from, to, stages[i - 1], stages[i])
    ensures AllCarried(from, to, stages[0], stages[|stages| - 1])
    decreases |stages|
  {
    var n := |stages| - 1;
    if n > 0 {
      var fewer := stages[..n];
      forall i | 0 < i < |fewer| ensures AllCarried(from, to, fewer[i - 1], fewer[i]) {
        assert AllCarried(from, to, stages[i - 1], stages[i]);
      }
      StagesCompose(from, to, fewer);
      assert AllCarried(from, to, stages[n - 1], stages[n]);
      forall j | 0 <= j < |stages[0]| ensures Carried(from, to, stages[0][j], stages[n][j]) {
        assert Carried(from, to, stages[0][j], stages[n - 1][j]);
        assert Carried(from, to, stages[n - 1][j], stages[n][j]);
      }
    }
  }

  lemma {:induction false} EmptyQueue(rows: seq<Row>, kekId: string, j: nat)
    requires Queue(rows, kekId) == [] && j < |rows|
    ensures rows[j].env.kekId != kekId
    decreases |rows|
  {
    if j > 0 {
      EmptyQueue(rows[1..], kekId, j - 1);
    }
  }

  // ---------------------------------------------------------------------------
  // One guarded update takes exactly the head off the queue
  // ---------------------------------------------------------------------------

  lemma {:induction false} HeadLeavesQueue(
    rows: seq<Row>, from: string, wrapped: Box, nonce: Bytes, to: string) returns (at: nat)
    requires Ordered(rows) && from != to && Queue(rows, from) != []
    ensures at < |rows| && WrapOf(rows[at]) == Queue(rows, from)[0] && rows[at].env.kekId == from
    ensures var after := RewrapRows(rows, Queue(rows, from)[0].versionId, from, wrapped, nonce, to);
            && after == rows[at := rows[at].(env := Moved(rows[at].env, wrapped, nonce, to))]
            && Queue(after, from) == Queue(rows, from)[1..]
    decreases |rows|
  {
    var head := Queue(rows, from)[0].versionId;
    var after := RewrapRows(rows, head, from, wrapped, nonce, to);
    if rows[0].env.kekId == from {
      at := 0;
      assert forall i | 0 < i < |rows| :: after[i] == rows[i];
      assert after[1..] == rows[1..];
    } else {
      var at' := HeadLeavesQueue(rows[1..], from, wrapped, nonce, to);
      at := at' + 1;
      assert after[1..] == RewrapRows(rows[1..], head, from, wrapped, nonce, to);
      assert after[0] == rows[0];
      assert after == [after[0]] + after[1..];
    }
  }

  // ---------------------------------------------------------------------------
  // The store and the rotation
  // ---------------------------------------------------------------------------

  datatype RewrapReport = RewrapReport(
    fromKekId: string,
    toKekId: string,
    rewrapped: nat,
    remaining: nat,
    retired: bool)

  class RewrapStore {
    var rows: seq<Row>
    var keys: map<string, KeyState>
    var calls: nat
    /** Whether the n-th call to the database fails. */
    const fails: nat -> bool

    constructor (rows: seq<Row>, keys: map<string, KeyState>, fails: nat -> bool)
      requires Ordered(rows)
      ensures this.rows == rows && this.keys == keys && this.fails == fails
    {
      this.rows, this.keys, this.calls, this.fails := rows, keys, 0, fails;
    }

    method ListVersionWraps(kekId: string, limit: nat) returns (r: Result<seq<VersionWrap>, AppError>)
      modifies this`calls
      ensures calls == old(calls) + 1
      ensures fails(old(calls)) ==> r.Err?
      ensures !fails(old(calls)) ==>
        r == Ok(Queue(rows, kekId)[..if limit < |Queue(rows, kekId)| then limit else |Queue(rows, kekId)|])
    {
      var queue := Queue(rows, kekId);
      r := if fails(calls) then Err(Internal) else Ok(queue[..if limit < |queue| then limit else |queue|]);
      calls := calls + 1;
    }

    /** A zero row count is not an error: another worker moved the row first. */
    method RewrapVersion(
      versionId: nat, from: string, wrapped: Box, nonce: Bytes, to: string) returns (r: Result<(), AppError>)
      modifies this`calls, this`rows
      ensures calls == old(calls) + 1
      ensures fails(old(calls)) ==> r.Err? && rows == old(rows)
      ensures !fails(old(calls)) ==> r.Ok? && rows == RewrapRows(old(rows), versionId, from, wrapped, nonce, to)
    {
      if fails(calls) {
        r := Err(Internal);
      } else {
        rows := RewrapRows(rows, versionId, from, wrapped, nonce, to);
        r := Ok(());
      }
      calls := calls + 1;
    }

    method CountVersionWraps(kekId: string) returns (r: Result<nat, AppError>)
      modifies this`calls
      ensures calls == old(calls) + 1
      ensures r == if fails(old(calls)) then Err(Internal) else Ok(|Queue(rows, kekId)|)
    {
      r := if fails(calls) then Err(Internal) else Ok(|Queue(rows, kekId)|);
      calls := calls + 1;
    }

    /** Refuses the active key, and a key it does not know. */
    method RetireRootKey(kekId: string) returns (r: Result<(), AppError>)
      modifies this`calls, this`keys
      ensures calls == old(calls) + 1
      ensures r.Ok? <==> !fails(old(calls)) && kekId in old(keys) && old(keys)[kekId] != Active
      ensures keys == if r.Ok? then old(keys)[kekId := Retired] else old(keys)
    {
      if fails(calls) || kekId !in keys || keys[kekId] == Active {
        r := Err(Internal);
      } else {
        keys := keys[kekId := Retired];
        r := Ok(());
      }
      calls := calls + 1;
    }
  }

  /** Every row under the key has a DEK this provider can unwrap. */
  ghost predicate AllUnwrap(from: Provider, rows: seq<Row>) {
    forall i | 0 <= i < |rows| && rows[i].env.kekId == from.keyId :: Dek(from, WrapOf(rows[i])).Ok?
  }

  /** The store can be asked anything and the source key may be retired. */
  ghost predicate Unobstructed(store: RewrapStore, from: string)
    reads store
  {
    && (forall n :: !store.fails(n))
    && from in store.keys && store.keys[from] != Active
  }

  /** A rotation from `start` that has got to `rows`, `moved` rows on. */
  ghost predicate Progress(from: Provider, to: Provider, start: seq<Row>, rows: seq<Row>, moved: int) {
    && Ordered(rows)
    && AllCarried(from, to, start, rows)
    && moved == |Queue(start, from.keyId)| - |Queue(rows, from.keyId)|
  }

  lemma RewrapKeepsDek(from: Provider, to: Provider, w: VersionWrap, nonce: Nonce)
    requires from.keyId != to.keyId
    ensures Envelope.Rewrap(from, to, w.dekWrapped, w.dekNonce, nonce).Ok? <==> Dek(from, w).Ok?
    ensures Dek(from, w).Ok? ==>
      var moved := Envelope.Rewrap(from, to, w.dekWrapped, w.dekNonce, nonce).value;
      Unwrap(to, moved.0, moved.1) == Dek(from, w)
  {
  }

  lemma {:induction false} CarryHead(
    from: Provider, to: Provider, start: seq<Row>, rows: seq<Row>, moved: int, wrapped: Box, nonce: Bytes)
    requires Progress(from, to, start, rows, moved) && from.keyId != to.keyId
    requires Queue(rows, from.keyId) != []
    requires Dek(from, Queue(rows, from.keyId)[0]).Ok?
      && Unwrap(to, wrapped, nonce) == Dek(from, Queue(rows, from.keyId)[0])
    ensures var after := RewrapRows(rows, Queue(rows, from.keyId)[0].versionId, from.keyId, wrapped, nonce, to.keyId);
            && Progress(from, to, start, after, moved + 1)
            && Queue(after, from.keyId) == Queue(rows, from.keyId)[1..]
  {
    var at := HeadLeavesQueue(rows, from.keyId, wrapped, nonce, to.keyId);
    assert Carried(from, to, start[at], rows[at]);
  }

  /** A wrap that cannot be carried belongs to a row that never unwrapped. */
  lemma {:induction false} HeadDoesNotUnwrap(from: Provider, to: Provider, start: seq<Row>, rows: seq<Row>, moved: int)
    requires Progress(from, to, start, rows, moved) && from.keyId != to.keyId
    requires Queue(rows, from.keyId) != [] && Dek(from, Queue(rows, from.keyId)[0]).Err?
    ensures !AllUnwrap(from, start)
  {
    var at := HeadLeavesQueue(rows, from.keyId, Noise([]), [], to.keyId);
    assert Carried(from, to, start[at], rows[at]);
  }

  /** Once the queue is empty, every row it held had a DEK that unwrapped. */
  lemma {:induction false} AllUnwrapped(from: Provider, to: Provider, start: seq<Row>, rows: seq<Row>, moved: int)
    requires Progress(from, to, start, rows, moved) && from.keyId != to.keyId
    requires Queue(rows, from.keyId) == []
    ensures AllUnwrap(from, start)
  {
    forall i | 0 <= i < |start| && start[i].env.kekId == from.keyId ensures Dek(from, WrapOf(start[i])).Ok? {
      EmptyQueue(rows, from.keyId, i);
      assert Carried(from, to, start[i], rows[i]);
    }
  }

  /** One listed batch: each wrap is moved and saved before the next is looked at. */
  method RewrapBatch(
    store: RewrapStore, from: Provider, target: Provider, wraps: seq<VersionWrap>, ghost start: seq<Row>,
    done: nat, nonces: nat -> Nonce)
    returns (moved: nat, err: Option<AppError>)
    requires from.keyId != target.keyId && Progress(from, target, start, store.rows, done)
    requires |wraps| <= |Queue(store.rows, from.keyId)| && wraps == Queue(store.rows, from.keyId)[..|wraps|]
    modifies store`calls, store`rows
    ensures Progress(from, target, start, store.rows, done + moved)
    ensures err == None ==>
      moved == |wraps| && Queue(store.rows, from.keyId) == Queue(old(store.rows), from.keyId)[|wraps|..]
    ensures err == None ==> store.calls == old(store.calls) + |wraps|
    ensures err.Some? && (forall n :: !store.fails(n)) ==> !AllUnwrap(from, start)
  {
    moved, err := 0, None;
    ghost var queue := Queue(store.rows, from.keyId);
    for i := 0 to |wraps|
      invariant moved == i && err == None && store.calls == old(store.calls) + i
      invariant Progress(from, target, start, store.rows, done + i)
      invariant Queue(store.rows, from.keyId) == queue[i..]
    {
      var w := wraps[i];
      assert w == Queue(store.rows, from.keyId)[0];
      var rewrapped := Envelope.Rewrap(from, target, w.dekWrapped, w.dekNonce, nonces(done + i));
      RewrapKeepsDek(from, target, w, nonces(done + i));
      if rewrapped.Err? {
        HeadDoesNotUnwrap(from, target, start, store.rows, done + i);
        return moved, Some(rewrapped.error);
      }
      CarryHead(from, target, start, store.rows, done + i, rewrapped.value.0, rewrapped.value.1);
      var saved := store.RewrapVersion(w.versionId, from.keyId, rewrapped.value.0, rewrapped.value.1, target.keyId);
      if saved.Err? {
        return moved, Some(saved.error);
      }
      moved := moved + 1;
    }
  }

  const DEFAULT_BATCH := 100

  function BatchSize(batch: int): (size: nat)
    ensures size > 0
  {
    if batch < 1 then DEFAULT_BATCH else batch
  }

  lemma FullOrLast(moved: int, size: nat, full: nat, more: nat)
    requires size > 0 && moved == full * size && more <= size
    ensures more < size ==> (moved + more) / size == full
    ensures more == size ==> moved + more == (full + 1) * size
  {
    if more < size {
      var q := (moved + more) / size;
      assert q * size <= moved + more < q * size + size;
      LessFactor(full, q + 1, size);
      LessFactor(q, full + 1, size);
    }
  }

  lemma LessFactor(x: int, z: int, d: int)
    requires d > 0 && x * d < z * d
    ensures x < z
  {
    var gap := x - z;
    assert gap * d == x * d - z * d < 0;
  }

  /** What `full` full batches and a short one come to, in rows and in calls. */
  predicate Tally(calls: int, rewrapped: int, size: nat, full: nat, drained: bool)
    requires size > 0
  {
    if drained then calls == rewrapped + rewrapped / size + 1
    else rewrapped == full * size && calls == rewrapped + full
  }

  lemma TallyBatch(calls: int, rewrapped: nat, size: nat, full: nat, more: nat)
    requires size > 0 && more <= size && Tally(calls, rewrapped, size, full, false)
    ensures Tally(calls + 1 + more, rewrapped + more, size, full + 1, more < size)
  {
    FullOrLast(rewrapped, size, full, more);
  }

  /** One round of the loop: a batch is listed, and moved if there is anything in it. */
  method DrainBatch(
    store: RewrapStore, from: Provider, target: Provider, size: nat, nonces: nat -> Nonce, ghost start: seq<Row>,
    done: nat)
    returns (moved: nat, last: bool, err: Option<AppError>)
    requires from.keyId != target.keyId && size > 0 && Progress(from, target, start, store.rows, done)
    modifies store`calls, store`rows
    ensures Progress(from, target, start, store.rows, done + moved)
    ensures err == None ==> moved <= size && store.calls == old(store.calls) + 1 + moved && (last <==> moved < size)
    ensures err == None ==> |Queue(store.rows, from.keyId)| == |Queue(old(store.rows), from.keyId)| - moved
    ensures err == None && last ==> Queue(store.rows, from.keyId) == []
    ensures err.Some? && (forall n :: !store.fails(n)) ==> !AllUnwrap(from, start)
  {
    moved, last, err := 0, true, None;
    var listed := store.ListVersionWraps(from.keyId, size);
    if listed.Err? {
      return 0, true, Some(listed.error);
    }
    var wraps := listed.value;
    if |wraps| == 0 {
      return;
    }
    moved, err := RewrapBatch(store, from, target, wraps, start, done, nonces);
    last := |wraps| < size;
  }

  /** The loop of RewrapAll: batch after batch until one is short, or a call fails. */
  method Drain(store: RewrapStore, from: Provider, target: Provider, size: nat, nonces: nat -> Nonce)
    returns (rewrapped: nat, err: Option<AppError>)
    requires from.keyId != target.keyId && size > 0 && Ordered(store.rows)
    modifies store`calls, store`rows
    ensures Progress(from, target, old(store.rows), store.rows, rewrapped)
    ensures err == None ==>
      Queue(store.rows, from.keyId) == [] && store.calls == old(store.calls) + rewrapped + rewrapped / size + 1
    ensures err.Some? && (forall n :: !store.fails(n)) ==> !AllUnwrap(from, old(store.rows))
  {
    rewrapped, err := 0, None;
    ghost var full: nat := 0;
    var drained := false;
    while !drained
      invariant Progress(from, target, old(store.rows), store.rows, rewrapped) && err == None
      invariant Tally(store.calls - old(store.calls), rewrapped, size, full, drained)
      invariant drained ==> Queue(store.rows, from.keyId) == []
      decreases |Queue(store.rows, from.keyId)|, if drained then 0 else 1
    {
      ghost var calls := store.calls - old(store.calls);
      var moved, last, stopped := DrainBatch(store, from, target, size, nonces, old(store.rows), rewrapped);
      if stopped.Some? {
        return rewrapped + moved, stopped;
      }
      TallyBatch(calls, rewrapped, size, full, moved);
      rewrapped, drained, full := rewrapped + moved, last, full + 1;
    }
  }

  /**
    RewrapAll. Whatever fails and wherever it stops, rows are only carried, and
    the report counts exactly those that were. If it finishes, no row is left
    under the source key, and only then is the key retired. With no failing call
    it finishes exactly when every row under the source key unwraps. A run that finishes
    has saved each row once and listed one batch more than were full.
  */
  method RewrapAll(store: RewrapStore, ring: KeyRing, fromKekId: string, batch: int, nonces: nat -> Nonce)
    returns (report: RewrapReport, err: Option<AppError>)
    requires ring.Valid() && Ordered(store.rows)
    modifies store
    ensures report.fromKekId == fromKekId && report.toKekId == ring.active.keyId
    ensures Ordered(store.rows)
    ensures fromKekId == ring.active.keyId || fromKekId !in ring.byID ==>
      store.rows == old(store.rows) && report.rewrapped == 0 && !report.retired
    ensures fromKekId == ring.active.keyId ==> err == None && store.keys == old(store.keys)
    ensures fromKekId !in ring.byID ==> err.Some?
    ensures fromKekId in ring.byID && fromKekId != ring.active.keyId ==>
      && AllCarried(ring.byID[fromKekId], ring.active, old(store.rows), store.rows)
      && report.rewrapped == |Queue(old(store.rows), fromKekId)| - |Queue(store.rows, fromKekId)|
      && (err == None ==> report.remaining == 0 && Queue(store.rows, fromKekId) == [] && report.retired)
      && (old(Unobstructed(store, fromKekId)) ==> (err == None <==> AllUnwrap(ring.byID[fromKekId], old(store.rows))))
    ensures err == None && report.retired ==>
      store.calls == old(store.calls) + report.rewrapped + report.rewrapped / BatchSize(batch) + 3
    ensures report.retired ==>
      && fromKekId in store.keys && store.keys == old(store.keys)[fromKekId := Retired]
      && Queue(store.rows, fromKekId) == []
    ensures !report.retired ==> store.keys == old(store.keys)
  {
    var size := BatchSize(batch);
    var target := ring.Active();
    report := RewrapReport(fromKekId, target.keyId, 0, 0, false);
    err := None;
    if fromKekId == target.keyId {
      return;
    }
    var found := ring.FindProvider(fromKekId);
    if found.Err? {
      return report, Some(found.error);
    }
    var from := found.value;
    var rewrapped, stopped := Drain(store, from, target, size, nonces);
    report := report.(rewrapped := rewrapped);
    if stopped.Some? {
      return report, stopped;
    }
    AllUnwrapped(from, target, old(store.rows), store.rows, rewrapped);
    var counted := store.CountVersionWraps(fromKekId);
    if counted.Err? {
      return report, Some(counted.error);
    }
    report := report.(remaining := counted.value);
    if report.remaining > 0 {
      return;
    }
    var retired := store.RetireRootKey(fromKekId);
    if retired.Err? {
      return report, Some(retired.error);
    }
    report := report.(retired := true);
  }
}
