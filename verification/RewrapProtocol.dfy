/**
  A rotation while the service runs: any number of processes write versions, prune
  them, rewrap and retire keys against one database, each with its own key ring,
  each step one statement, and any process may stop between two of them
  (internal/crypto/rewrap.go, internal/store/rootkeys.go, secret_version.sql).

  A process that is rewrapping may list, save and count in any order the loop of
  RewrapAll allows and more; what is kept here does not depend on the loop.
*/
module RewrapProtocol {
  import opened Results
  import opened Envelope
  import opened KeyRings
  import opened Rewrap

  type ProcId = nat

  /** What a process is in the middle of; `pending` was read earlier and may be stale. */
  datatype Task = Idle | Draining(from: Provider, pending: seq<VersionWrap>) | Drained(from: Provider)

  datatype Process = Process(active: Provider, keys: Keys, task: Task)

  /** What a version was when it was written; a version id is never used again. */
  datatype Origin = Origin(owner: Identity, plaintext: Bytes, dek: Bytes, env: Sealing)

  datatype State = State(
    rows: map<nat, Row>,
    registry: map<string, KeyState>,
    procs: map<ProcId, Process>,
    written: map<nat, Origin>)

  datatype Step =
    | Boot(p: ProcId, active: Provider, keys: Keys)
    | AddKey(p: ProcId, key: Provider)
    | Put(p: ProcId, versionId: nat, owner: Identity, plaintext: Bytes, random: Randomness)
    | Prune(p: ProcId, versionId: nat)
    | List(p: ProcId, from: string, listed: seq<nat>)
    | Save(p: ProcId, nonce: Nonce)
    | Count(p: ProcId)
    | Retire(p: ProcId)
    | Crash(p: ProcId)

  /** Root keys are identified by a fingerprint: this is the key behind each id. */
  type Fingerprints = string -> Bytes

  predicate Genuine(keyOf: Fingerprints, p: Provider) {
    p.keyId != "" && p.key == keyOf(p.keyId)
  }

  function KeyFor(keyOf: Fingerprints, kekId: string): Provider {
    Provider(kekId, keyOf(kekId))
  }

  ghost predicate GoodRing(keyOf: Fingerprints, active: Provider, keys: Keys) {
    && WellFiled(keys) && Lookup(keys, active.keyId) == Ok(active)
    && forall k | k in keys :: Genuine(keyOf, keys[k])
  }

  ghost predicate Referenced(s: State, kekId: string) {
    exists id | id in s.rows :: s.rows[id].env.kekId == kekId
  }

  /** EnsureActiveRootKey: every other active key steps down in the same transaction. */
  function Activated(registry: map<string, KeyState>, kekId: string): map<string, KeyState> {
    map k | k in registry.Keys + {kekId} ::
      if k == kekId then Active else if registry[k] == Active then Retiring else registry[k]
  }

  ghost predicate Enabled(keyOf: Fingerprints, s: State, step: Step) {
    match step
    case Boot(p, active, keys) => p !in s.procs && GoodRing(keyOf, active, keys)
    case AddKey(p, key) => p in s.procs && Genuine(keyOf, key)
    case Put(p, versionId, owner, _, random) =>
      && p in s.procs && versionId !in s.written && owner.version >= 1 && Short(owner) && ValidRandomness(random)
    case Prune(p, versionId) => p in s.procs
    case List(p, from, listed) =>
      && p in s.procs && from in s.procs[p].keys && from != s.procs[p].active.keyId
      && forall i | 0 <= i < |listed| :: listed[i] in s.rows && s.rows[listed[i]].env.kekId == from
    case Save(p, _) => p in s.procs && s.procs[p].task.Draining? && s.procs[p].task.pending != []
    case Count(p) => p in s.procs && s.procs[p].task.Draining?
    case Retire(p) => p in s.procs && s.procs[p].task.Drained?
    case Crash(p) => p in s.procs
  }

  /** The wrap a Save is at, carried to the write key of its process. */
  function SavedWrap(s: State, p: ProcId, nonce: Nonce): Result<(Box, Bytes), AppError>
    requires p in s.procs && s.procs[p].task.Draining? && s.procs[p].task.pending != []
  {
    var Process(active, _, Draining(from, pending)) := s.procs[p];
    Envelope.Rewrap(from, active, pending[0].dekWrapped, pending[0].dekNonce, nonce)
  }

  ghost function NextTask(keyOf: Fingerprints, s: State, step: Step): Task
    requires Enabled(keyOf, s, step) && step.p in s.procs
  {
    var task := s.procs[step.p].task;
    match step
    case List(p, from, listed) =>
      Draining(s.procs[p].keys[from], seq(|listed|, i requires 0 <= i < |listed| => WrapOf(s.rows[listed[i]])))
    case Save(p, nonce) => if SavedWrap(s, p, nonce).Err? then Idle else Draining(task.from, task.pending[1..])
    case Count(p) => if Referenced(s, task.from.keyId) then Idle else Drained(task.from)
    case Retire(p) => Idle
    case _ => task
  }

  ghost function NextProcs(keyOf: Fingerprints, s: State, step: Step): map<ProcId, Process>
    requires Enabled(keyOf, s, step)
  {
    match step
    case Boot(p, active, keys) => s.procs[p := Process(active, keys, Idle)]
    case AddKey(p, key) => s.procs[p := s.procs[p].(keys := s.procs[p].keys[key.keyId := key])]
    case Crash(p) => s.procs - {p}
    case _ => s.procs[step.p := s.procs[step.p].(task := NextTask(keyOf, s, step))]
  }

  ghost function NextRows(keyOf: Fingerprints, hash: Hash, s: State, step: Step): map<nat, Row>
    requires Enabled(keyOf, s, step)
  {
    match step
    case Put(p, versionId, owner, plaintext, random) =>
      var sealed := Seal(hash, s.procs[p].active, owner, plaintext, random);
      if sealed.Err? then s.rows else s.rows[versionId := Row(versionId, owner, sealed.value)]
    case Prune(_, versionId) => s.rows - {versionId}
    case Save(p, nonce) =>
      var id := s.procs[p].task.pending[0].versionId;
      var saved := SavedWrap(s, p, nonce);
      if saved.Err? || id !in s.rows then s.rows
      else s.rows[id := RewrapRow(s.rows[id], id, s.procs[p].task.from.keyId, saved.value.0, saved.value.1,
        s.procs[p].active.keyId)]
    case _ => s.rows
  }

  ghost function NextRegistry(keyOf: Fingerprints, s: State, step: Step): map<string, KeyState>
    requires Enabled(keyOf, s, step)
  {
    match step
    case Boot(_, active, _) => Activated(s.registry, active.keyId)
    case Retire(p) =>
      var kekId := s.procs[p].task.from.keyId;
      if kekId in s.registry && s.registry[kekId] != Active then s.registry[kekId := Retired] else s.registry
    case _ => s.registry
  }

  ghost function NextWritten(keyOf: Fingerprints, hash: Hash, s: State, step: Step): map<nat, Origin>
    requires Enabled(keyOf, s, step)
  {
    match step
    case Put(p, versionId, owner, plaintext, random) =>
      var sealed := Seal(hash, s.procs[p].active, owner, plaintext, random);
      if sealed.Err? then s.written else s.written[versionId := Origin(owner, plaintext, random.dek, sealed.value)]
    case _ => s.written
  }

  ghost function Apply(keyOf: Fingerprints, hash: Hash, s: State, step: Step): State
    requires Enabled(keyOf, s, step)
  {
    State(NextRows(keyOf, hash, s, step), NextRegistry(keyOf, s, step), NextProcs(keyOf, s, step),
      NextWritten(keyOf, hash, s, step))
  }

  ghost predicate Run(keyOf: Fingerprints, hash: Hash, start: State, steps: seq<Step>, end: State)
    decreases |steps|
  {
    if steps == [] then end == start
    else Enabled(keyOf, start, steps[0]) && Run(keyOf, hash, Apply(keyOf, hash, start, steps[0]), steps[1..], end)
  }

  const EMPTY := State(map[], map[], map[], map[])

  // ---------------------------------------------------------------------------
  // Every version stays openable
  // ---------------------------------------------------------------------------

  /** The row still holds what was written: same payload, same DEK, under some genuine key. */
  predicate Intact(keyOf: Fingerprints, hash: Hash, row: Row, origin: Origin) {
    && row.owner == origin.owner
    && row.env == Moved(origin.env, row.env.dekWrapped, row.env.dekNonce, row.env.kekId)
    && row.env.kekId != ""
    && origin.env.ciphertext == Sealed(origin.dek, origin.env.nonce, Aad(origin.owner), origin.plaintext)
    && |origin.env.nonce| == NONCE_SIZE
    && origin.env.checksum == hash(origin.plaintext)
    && Dek(KeyFor(keyOf, row.env.kekId), WrapOf(row)) == Ok(origin.dek)
  }

  ghost predicate RowsIntact(keyOf: Fingerprints, hash: Hash, s: State) {
    forall id | id in s.rows ::
      id in s.written && s.rows[id].versionId == id && Intact(keyOf, hash, s.rows[id], s.written[id])
  }

  /** However stale a listed wrap is, it still holds its version's DEK. */
  ghost predicate GoodTask(keyOf: Fingerprints, s: State, active: Provider, task: Task) {
    match task
    case Idle => true
    case Draining(from, pending) =>
      && Genuine(keyOf, from) && from.keyId != active.keyId
      && forall i | 0 <= i < |pending| ::
         pending[i].versionId in s.written && Dek(from, pending[i]) == Ok(s.written[pending[i].versionId].dek)
    case Drained(from) => Genuine(keyOf, from) && from.keyId != active.keyId
  }

  ghost predicate GoodProcs(keyOf: Fingerprints, s: State) {
    forall p | p in s.procs ::
      GoodRing(keyOf, s.procs[p].active, s.procs[p].keys) && GoodTask(keyOf, s, s.procs[p].active, s.procs[p].task)
  }

  ghost predicate Inv(keyOf: Fingerprints, hash: Hash, s: State) {
    RowsIntact(keyOf, hash, s) && GoodProcs(keyOf, s)
  }

  lemma PutKeepsRows(keyOf: Fingerprints, hash: Hash, s: State, step: Step)
    requires Inv(keyOf, hash, s) && step.Put? && Enabled(keyOf, s, step)
    ensures RowsIntact(keyOf, hash, Apply(keyOf, hash, s, step))
  {
    var active := s.procs[step.p].active;
    assert Genuine(keyOf, active);
    UnwrapInvertsWrap(active, step.random.dek, step.random.wrapNonce);
    assert active == KeyFor(keyOf, active.keyId);
  }

  lemma SaveKeepsRow(keyOf: Fingerprints, hash: Hash, s: State, p: ProcId, nonce: Nonce, row: Row, origin: Origin)
    requires GoodProcs(keyOf, s) && Enabled(keyOf, s, Save(p, nonce)) && SavedWrap(s, p, nonce).Ok?
    requires Intact(keyOf, hash, row, origin) && row.versionId == s.procs[p].task.pending[0].versionId
    requires Dek(s.procs[p].task.from, s.procs[p].task.pending[0]) == Ok(origin.dek)
    ensures var (wrapped, wrapNonce) := SavedWrap(s, p, nonce).value;
            Intact(
              keyOf, hash,
              RewrapRow(row, row.versionId, s.procs[p].task.from.keyId, wrapped, wrapNonce, s.procs[p].active.keyId),
              origin)
  {
    var Process(active, keys, Draining(from, pending)) := s.procs[p];
    assert Genuine(keyOf, active) && active == KeyFor(keyOf, active.keyId);
    RewrapKeepsDek(from, active, pending[0], nonce);
  }

  lemma SaveKeepsRows(keyOf: Fingerprints, hash: Hash, s: State, step: Step)
    requires Inv(keyOf, hash, s) && step.Save? && Enabled(keyOf, s, step)
    ensures RowsIntact(keyOf, hash, Apply(keyOf, hash, s, step))
  {
    var id := s.procs[step.p].task.pending[0].versionId;
    assert GoodTask(keyOf, s, s.procs[step.p].active, s.procs[step.p].task);
    if SavedWrap(s, step.p, step.nonce).Ok? && id in s.rows {
      SaveKeepsRow(keyOf, hash, s, step.p, step.nonce, s.rows[id], s.written[id]);
    }
  }

  ghost predicate GoodProc(keyOf: Fingerprints, s: State, proc: Process) {
    GoodRing(keyOf, proc.active, proc.keys) && GoodTask(keyOf, s, proc.active, proc.task)
  }

  /** What was once written stays written. */
  ghost predicate Extends(s: State, next: State) {
    forall id | id in s.written :: id in next.written && next.written[id] == s.written[id]
  }

  lemma GoodProcLasts(keyOf: Fingerprints, s: State, next: State, proc: Process)
    requires GoodProc(keyOf, s, proc) && Extends(s, next)
    ensures GoodProc(keyOf, next, proc)
  {
  }

  lemma ListedWrapsAreGood(keyOf: Fingerprints, hash: Hash, s: State, step: Step)
    requires Inv(keyOf, hash, s) && step.List? && Enabled(keyOf, s, step)
    ensures GoodTask(keyOf, s, s.procs[step.p].active, NextTask(keyOf, s, step))
  {
    var from := s.procs[step.p].keys[step.from];
    assert GoodProc(keyOf, s, s.procs[step.p]);
    assert Genuine(keyOf, from) && from == KeyFor(keyOf, step.from);
    forall i | 0 <= i < |step.listed|
      ensures step.listed[i] in s.written
        && Dek(from, WrapOf(s.rows[step.listed[i]])) == Ok(s.written[step.listed[i]].dek)
    {
      assert Intact(keyOf, hash, s.rows[step.listed[i]], s.written[step.listed[i]]);
    }
  }

  lemma StepperIsGood(keyOf: Fingerprints, hash: Hash, s: State, step: Step)
    requires Inv(keyOf, hash, s) && Enabled(keyOf, s, step) && !step.Crash?
    ensures GoodProc(keyOf, s, NextProcs(keyOf, s, step)[step.p])
  {
    if step.List? {
      ListedWrapsAreGood(keyOf, hash, s, step);
    } else if !step.Boot? {
      assert GoodProc(keyOf, s, s.procs[step.p]);
    }
  }

  lemma StepKeepsProcs(keyOf: Fingerprints, hash: Hash, s: State, step: Step)
    requires Inv(keyOf, hash, s) && Enabled(keyOf, s, step)
    ensures Extends(s, Apply(keyOf, hash, s, step))
    ensures GoodProcs(keyOf, Apply(keyOf, hash, s, step))
  {
    var next := Apply(keyOf, hash, s, step);
    forall p | p in next.procs ensures GoodProc(keyOf, next, next.procs[p]) {
      if p == step.p {
        StepperIsGood(keyOf, hash, s, step);
      } else {
        assert GoodProc(keyOf, s, s.procs[p]);
      }
      GoodProcLasts(keyOf, s, next, next.procs[p]);
    }
  }

  lemma StepKeepsInv(keyOf: Fingerprints, hash: Hash, s: State, step: Step)
    requires Inv(keyOf, hash, s) && Enabled(keyOf, s, step)
    ensures Inv(keyOf, hash, Apply(keyOf, hash, s, step))
    ensures Extends(s, Apply(keyOf, hash, s, step))
  {
    StepKeepsProcs(keyOf, hash, s, step);
    if step.Put? {
      PutKeepsRows(keyOf, hash, s, step);
    } else if step.Save? {
      SaveKeepsRows(keyOf, hash, s, step);
    }
  }

  lemma {:induction false} RunKeepsInv(keyOf: Fingerprints, hash: Hash, start: State, steps: seq<Step>, end: State)
    requires Inv(keyOf, hash, start) && Run(keyOf, hash, start, steps, end)
    ensures Inv(keyOf, hash, end)
    ensures Extends(start, end)
    decreases |steps|
  {
    if steps != [] {
      StepKeepsInv(keyOf, hash, start, steps[0]);
      RunKeepsInv(keyOf, hash, Apply(keyOf, hash, start, steps[0]), steps[1..], end);
    }
  }

  /**
    At every state of every interleaving, whoever crashed where: each stored
    version opens to the plaintext it was written with, under any ring that holds
    the key the row names, and its payload columns are the written ones.
  */
  lemma {:induction false} EveryVersionOpens(
    keyOf: Fingerprints, hash: Hash, steps: seq<Step>, s: State, id: nat, keys: Keys)
    requires Run(keyOf, hash, EMPTY, steps, s) && id in s.rows
    requires forall k | k in keys :: keys[k] == KeyFor(keyOf, k)
    ensures id in s.written
    ensures OpenWith(hash, keys, s.rows[id].owner, s.rows[id].env) ==
      if s.rows[id].env.kekId in keys then Ok(s.written[id].plaintext) else Err(Internal)
    ensures var env := s.rows[id].env;
            var was := s.written[id].env;
            env.ciphertext == was.ciphertext && env.nonce == was.nonce && env.checksum == was.checksum
  {
    RunKeepsInv(keyOf, hash, EMPTY, steps, s);
    assert Intact(keyOf, hash, s.rows[id], s.written[id]);
  }

  /** In particular the process whose ring opened a version can still open what it wrote itself. */
  lemma {:induction false} WriterReadsItsOwn(
    keyOf: Fingerprints, hash: Hash, steps: seq<Step>, s: State, p: ProcId, id: nat)
    requires Run(keyOf, hash, EMPTY, steps, s) && p in s.procs && id in s.rows
    requires s.rows[id].env.kekId == s.procs[p].active.keyId
    ensures id in s.written
      && OpenWith(hash, s.procs[p].keys, s.rows[id].owner, s.rows[id].env) == Ok(s.written[id].plaintext)
  {
    RunKeepsInv(keyOf, hash, EMPTY, steps, s);
    EveryVersionOpens(keyOf, hash, steps, s, id, s.procs[p].keys);
  }

  // ---------------------------------------------------------------------------
  // Interrupted, repeated and concurrent rotations end alike
  // ---------------------------------------------------------------------------

  /** What the rotation is about, per version: the DEK it unwraps to and the key it is under. */
  ghost function DeksAndKeys(keyOf: Fingerprints, s: State): map<nat, (Result<Bytes, AppError>, string)> {
    map id | id in s.rows :: (Dek(KeyFor(keyOf, s.rows[id].env.kekId), WrapOf(s.rows[id])), s.rows[id].env.kekId)
  }

  ghost function MigrateAll(
    m: map<nat, (Result<Bytes, AppError>, string)>, from: string, to: string)
    : map<nat, (Result<Bytes, AppError>, string)> {
    map id | id in m :: if m[id].1 == from then (m[id].0, to) else m[id]
  }

  /** A step of a rotation from one key to another, at whatever process: no writes, no other keys. */
  predicate RotationStep(s: State, step: Step, from: string, to: string) {
    match step
    case Boot(_, active, _) => active.keyId == to
    case AddKey(_, _) => true
    case Put(_, _, _, _, _) => false
    case Prune(_, _) => false
    case List(_, key, _) => key == from
    case Save(_, _) => true
    case Count(_) => true
    case Retire(_) => true
    case Crash(_) => true
  }

  /** Every process at work writes under `to` and drains `from`, or nothing. */
  ghost predicate AllRotate(s: State, from: string, to: string) {
    forall p | p in s.procs ::
      && s.procs[p].active.keyId == to
      && (s.procs[p].task.Draining? ==> s.procs[p].task.from.keyId == from)
  }

  ghost predicate RotationRun(
    keyOf: Fingerprints, hash: Hash, start: State, steps: seq<Step>, end: State, from: string, to: string)
    decreases |steps|
  {
    if steps == [] then end == start
    else
      && Enabled(keyOf, start, steps[0]) && RotationStep(start, steps[0], from, to)
      && RotationRun(keyOf, hash, Apply(keyOf, hash, start, steps[0]), steps[1..], end, from, to)
  }

  /** Each row of `now` is as it was in `start` or has gone from one key to the other. */
  ghost predicate PartlyMigrated(start: State, now: State, from: string, to: string) {
    && now.rows.Keys == start.rows.Keys && now.written == start.written
    && forall id | id in start.rows ::
         var k, k' := start.rows[id].env.kekId, now.rows[id].env.kekId;
         k' == k || (k == from && k' == to)
  }

  lemma RotationStepMovesRows(keyOf: Fingerprints, hash: Hash, now: State, step: Step, from: string, to: string)
    requires AllRotate(now, from, to)
    requires Enabled(keyOf, now, step) && RotationStep(now, step, from, to)
    ensures PartlyMigrated(now, Apply(keyOf, hash, now, step), from, to)
  {
    if step.Save? {
      assert now.procs[step.p].active.keyId == to && now.procs[step.p].task.from.keyId == from;
    }
  }

  lemma RotationStepKeepsProcs(keyOf: Fingerprints, hash: Hash, now: State, step: Step, from: string, to: string)
    requires GoodProcs(keyOf, now) && AllRotate(now, from, to)
    requires Enabled(keyOf, now, step) && RotationStep(now, step, from, to)
    ensures AllRotate(Apply(keyOf, hash, now, step), from, to)
  {
    var next := NextProcs(keyOf, now, step);
    if !step.Boot? {
      assert now.procs[step.p].active.keyId == to && WellFiled(now.procs[step.p].keys);
    }
    forall p | p in next
      ensures next[p].active.keyId == to && (next[p].task.Draining? ==> next[p].task.from.keyId == from)
    {
      if p != step.p {
        assert next[p] == now.procs[p];
      }
    }
  }

  lemma {:induction false} RotationMigrates(
    keyOf: Fingerprints, hash: Hash, start: State, now: State, steps: seq<Step>, end: State, from: string, to: string)
    requires Inv(keyOf, hash, now) && AllRotate(now, from, to) && from != to
    requires PartlyMigrated(start, now, from, to)
    requires RotationRun(keyOf, hash, now, steps, end, from, to)
    ensures PartlyMigrated(start, end, from, to) && Inv(keyOf, hash, end)
    decreases |steps|
  {
    if steps != [] {
      StepKeepsInv(keyOf, hash, now, steps[0]);
      RotationStepMovesRows(keyOf, hash, now, steps[0], from, to);
      RotationStepKeepsProcs(keyOf, hash, now, steps[0], from, to);
      RotationMigrates(keyOf, hash, start, Apply(keyOf, hash, now, steps[0]), steps[1..], end, from, to);
    }
  }

  lemma KnownDeks(keyOf: Fingerprints, hash: Hash, s: State)
    requires Inv(keyOf, hash, s)
    ensures DeksKnown(keyOf, s)
  {
    forall id | id in s.rows
      ensures id in s.written && DeksAndKeys(keyOf, s)[id] == (Ok(s.written[id].dek), s.rows[id].env.kekId)
    {
      assert Intact(keyOf, hash, s.rows[id], s.written[id]);
    }
  }

  ghost predicate DeksKnown(keyOf: Fingerprints, s: State) {
    forall id | id in s.rows ::
      id in s.written && DeksAndKeys(keyOf, s)[id] == (Ok(s.written[id].dek), s.rows[id].env.kekId)
  }

  lemma MigrationOfMaps(keyOf: Fingerprints, start: State, end: State, from: string, to: string)
    requires DeksKnown(keyOf, start) && DeksKnown(keyOf, end)
    requires PartlyMigrated(start, end, from, to) && !Referenced(end, from)
    ensures DeksAndKeys(keyOf, end) == MigrateAll(DeksAndKeys(keyOf, start), from, to)
  {
    forall id | id in start.rows
      ensures DeksAndKeys(keyOf, end)[id] == MigrateAll(DeksAndKeys(keyOf, start), from, to)[id]
    {
      assert end.rows[id].env.kekId != from;
    }
  }

  lemma CompleteRotation(keyOf: Fingerprints, hash: Hash, start: State, end: State, from: string, to: string)
    requires Inv(keyOf, hash, start) && Inv(keyOf, hash, end)
    requires PartlyMigrated(start, end, from, to) && !Referenced(end, from)
    ensures DeksAndKeys(keyOf, end) == MigrateAll(DeksAndKeys(keyOf, start), from, to)
  {
    KnownDeks(keyOf, hash, start);
    KnownDeks(keyOf, hash, end);
    MigrationOfMaps(keyOf, start, end, from, to);
  }

  /**
    Any rotation that has nothing left to move, whatever its processes, batches,
    crashes, stale wraps and restarts, ends with the same keys and DEKs: those of
    the start with the source key replaced. So two such rotations agree.
  */
  lemma {:induction false} RotationsAgree(
    keyOf: Fingerprints, hash: Hash, start: State, from: string, to: string,
    steps: seq<Step>, end: State, others: seq<Step>, other: State)
    requires Inv(keyOf, hash, start) && AllRotate(start, from, to) && from != to
    requires RotationRun(keyOf, hash, start, steps, end, from, to) && !Referenced(end, from)
    requires RotationRun(keyOf, hash, start, others, other, from, to) && !Referenced(other, from)
    ensures DeksAndKeys(keyOf, end) == MigrateAll(DeksAndKeys(keyOf, start), from, to) == DeksAndKeys(keyOf, other)
  {
    RotationMigrates(keyOf, hash, start, start, steps, end, from, to);
    RotationMigrates(keyOf, hash, start, start, others, other, from, to);
    CompleteRotation(keyOf, hash, start, end, from, to);
    CompleteRotation(keyOf, hash, start, other, from, to);
  }

  // ---------------------------------------------------------------------------
  // The registry
  // ---------------------------------------------------------------------------

  /** uq_root_keys_single_active. */
  ghost predicate OneActive(s: State) {
    forall a, b | a in s.registry && b in s.registry && s.registry[a] == Active && s.registry[b] == Active :: a == b
  }

  predicate IsRetired(s: State, kekId: string) {
    kekId in s.registry && s.registry[kekId] == Retired
  }

  /** Some process has counted no version under the key and is about to retire it. */
  ghost predicate SomeoneDrained(s: State, kekId: string) {
    exists p | p in s.procs :: s.procs[p].task.Drained? && s.procs[p].task.from.keyId == kekId
  }

  /** At some step of the run a process rewrapping from the key counted, and no stored version was under it. */
  ghost predicate CountedNone(keyOf: Fingerprints, hash: Hash, start: State, steps: seq<Step>, kekId: string)
    decreases |steps|
  {
    steps != [] && Enabled(keyOf, start, steps[0])
    && (CountsNone(keyOf, start, steps[0], kekId)
        || CountedNone(keyOf, hash, Apply(keyOf, hash, start, steps[0]), steps[1..], kekId))
  }

  ghost predicate CountsNone(keyOf: Fingerprints, s: State, step: Step, kekId: string) {
    step.Count? && Enabled(keyOf, s, step) && s.procs[step.p].task.from.keyId == kekId && !Referenced(s, kekId)
  }

  lemma StepRetires(keyOf: Fingerprints, hash: Hash, s: State, step: Step, kekId: string)
    requires Enabled(keyOf, s, step)
    ensures OneActive(s) ==> OneActive(Apply(keyOf, hash, s, step))
    ensures IsRetired(Apply(keyOf, hash, s, step), kekId) ==> IsRetired(s, kekId) || SomeoneDrained(s, kekId)
    ensures SomeoneDrained(Apply(keyOf, hash, s, step), kekId)
      ==> SomeoneDrained(s, kekId) || CountsNone(keyOf, s, step, kekId)
    ensures step.Retire? && s.procs[step.p].task.from.keyId == kekId ==>
      (kekId in s.registry && s.registry[kekId] != Active ==> IsRetired(Apply(keyOf, hash, s, step), kekId))
    ensures step.Boot? ==>
      var after := Apply(keyOf, hash, s, step).registry;
      step.active.keyId in after && after[step.active.keyId] == Active
  {
    var next := Apply(keyOf, hash, s, step);
    if SomeoneDrained(next, kekId) {
      var p :| p in next.procs && next.procs[p].task.Drained? && next.procs[p].task.from.keyId == kekId;
      assert p == step.p || s.procs[p] == next.procs[p];
    }
  }

  lemma {:induction false} RunRetires(
    keyOf: Fingerprints, hash: Hash, start: State, steps: seq<Step>, end: State, kekId: string)
    requires Run(keyOf, hash, start, steps, end) && OneActive(start)
    ensures OneActive(end)
    ensures IsRetired(end, kekId)
      ==> IsRetired(start, kekId) || SomeoneDrained(start, kekId) || CountedNone(keyOf, hash, start, steps, kekId)
    decreases |steps|
  {
    if steps != [] {
      StepRetires(keyOf, hash, start, steps[0], kekId);
      RunRetires(keyOf, hash, Apply(keyOf, hash, start, steps[0]), steps[1..], end, kekId);
    }
  }

  /**
    In every interleaving at most one key is active, and a key is retired only if
    earlier in the run a process rewrapping from it counted when no version was stored
    under it.
  */
  lemma {:induction false} RetiredWasCounted(keyOf: Fingerprints, hash: Hash, steps: seq<Step>, s: State, kekId: string)
    requires Run(keyOf, hash, EMPTY, steps, s)
    ensures OneActive(s)
    ensures IsRetired(s, kekId) ==> CountedNone(keyOf, hash, EMPTY, steps, kekId)
  {
    RunRetires(keyOf, hash, EMPTY, steps, s, kekId);
  }

  // ---------------------------------------------------------------------------
  // A retired key stays unreferenced: when it does and when it does not
  // ---------------------------------------------------------------------------

  ghost predicate SomeoneWritesUnder(s: State, kekId: string) {
    exists p | p in s.procs :: s.procs[p].active.keyId == kekId
  }

  predicate BootsUnder(step: Step, kekId: string) {
    step.Boot? && step.active.keyId == kekId
  }

  lemma StaysUnreferenced(keyOf: Fingerprints, hash: Hash, s: State, step: Step, kekId: string)
    requires Inv(keyOf, hash, s) && Enabled(keyOf, s, step) && !BootsUnder(step, kekId)
    requires !SomeoneWritesUnder(s, kekId) && !Referenced(s, kekId)
    ensures var next := Apply(keyOf, hash, s, step); !SomeoneWritesUnder(next, kekId) && !Referenced(next, kekId)
  {
    var next := Apply(keyOf, hash, s, step);
    assert !step.Boot? ==> s.procs[step.p].active.keyId != kekId;
    forall p | p in next.procs ensures next.procs[p].active.keyId != kekId {
      if p in s.procs {
        assert s.procs[p].active.keyId != kekId;
      }
    }
    forall id | id in next.rows ensures next.rows[id].env.kekId != kekId {
      if id in s.rows {
        assert s.rows[id].env.kekId != kekId;
      }
    }
  }

  lemma {:induction false} RunStaysUnreferenced(
    keyOf: Fingerprints, hash: Hash, s: State, steps: seq<Step>, end: State, kekId: string)
    requires Inv(keyOf, hash, s) && Run(keyOf, hash, s, steps, end)
    requires forall i | 0 <= i < |steps| :: !BootsUnder(steps[i], kekId)
    requires !SomeoneWritesUnder(s, kekId) && !Referenced(s, kekId)
    ensures !Referenced(end, kekId)
    decreases |steps|
  {
    if steps != [] {
      StepKeepsInv(keyOf, hash, s, steps[0]);
      StaysUnreferenced(keyOf, hash, s, steps[0], kekId);
      forall i | 0 <= i < |steps[1..]| ensures !BootsUnder(steps[1..][i], kekId) {
        assert steps[1..][i] == steps[i + 1];
      }
      RunStaysUnreferenced(keyOf, hash, Apply(keyOf, hash, s, steps[0]), steps[1..], end, kekId);
    }
  }

  /** One more version written by a process that still has the key as its write key. */
  lemma LateWriterReferences(keyOf: Fingerprints, hash: Hash, s: State, kekId: string) returns (step: Step)
    requires SomeoneWritesUnder(s, kekId)
    ensures Enabled(keyOf, s, step) && !BootsUnder(step, kekId)
    ensures Referenced(Apply(keyOf, hash, s, step), kekId)
  {
    var p :| p in s.procs && s.procs[p].active.keyId == kekId;
    var id := Unused(s.written.Keys);
    var dek: Bytes := seq(KEY_SIZE, i => 0);
    var nonce: Bytes := seq(NONCE_SIZE, i => 0);
    step := Put(p, id, Identity([], [], 1), [], Randomness(dek, nonce, nonce));
    var next := Apply(keyOf, hash, s, step);
    assert next.rows[id].env.kekId == kekId;
  }

  lemma {:induction false} Bounded(ids: set<nat>) returns (bound: nat)
    ensures forall id | id in ids :: id < bound
  {
    if ids == {} {
      bound := 0;
    } else {
      var id :| id in ids;
      var rest := Bounded(ids - {id});
      bound := if id < rest then rest else id + 1;
      assert ids == ids - {id} + {id};
    }
  }

  lemma Unused(ids: set<nat>) returns (id: nat)
    ensures id !in ids
  {
    id := Bounded(ids);
  }

  /**
    The retirement guarantee, exactly. From a state where the count is zero, no
    run that never boots a process under the key makes it referenced again, if and
    only if no running process still has it as its write key.
  */
  lemma {:induction false} DrainedForGoodIff(keyOf: Fingerprints, hash: Hash, s: State, kekId: string)
    requires Inv(keyOf, hash, s) && !Referenced(s, kekId)
    ensures !SomeoneWritesUnder(s, kekId) <==>
      forall steps, end | Run(keyOf, hash, s, steps, end)
        && (forall i | 0 <= i < |steps| :: !BootsUnder(steps[i], kekId)) ::
        !Referenced(end, kekId)
  {
    if SomeoneWritesUnder(s, kekId) {
      var step := LateWriterReferences(keyOf, hash, s, kekId);
      var end := Apply(keyOf, hash, s, step);
      assert Run(keyOf, hash, end, [], end);
      assert [step][1..] == [];
      assert Run(keyOf, hash, s, [step], end);
    } else {
      forall steps, end | Run(keyOf, hash, s, steps, end)
        && (forall i | 0 <= i < |steps| :: !BootsUnder(steps[i], kekId))
        ensures !Referenced(end, kekId)
      {
        RunStaysUnreferenced(keyOf, hash, s, steps, end, kekId);
      }
    }
  }
}
