/**
  Handing out values (internal/api/secrets.go, bulk.go, imports.go, leases.go,
  service.go): which secret an address lands on, in what order it is checked,
  decrypted and recorded, and what a batch does when the trail cannot be written.
*/
module Disclosure {
  import opened Results
  import opened Audit
  import R = References
  import G = ReferenceGraph

  type Address = R.Address

  datatype Scope = Scope(project: string, environment: string, folderPath: string)

  /** What the lease gate answers for a read. */
  datatype Gate = Ungoverned | Leased(issued: bool) | Exhausted | GateFails(error: AppError)

  /**
    Everything a reveal is answered by: the world references are resolved in, the
    existence probe, the import chain of an address, the stored versions, and the
    lease gate, whose answer may differ from one moment of the log to the next.
  */
  datatype Site = Site(
    w: R.World,
    probe: Address -> Result<(), AppError>,
    importsOf: Address -> Result<seq<Scope>, AppError>,
    stored: (Address, nat) -> Result<R.Secret, AppError>,
    gate: (Mrn, nat) -> Gate)

  // ---------------------------------------------------------------------------
  // Which secret an address lands on
  // ---------------------------------------------------------------------------

  datatype Landing = Landing(addr: Address, mrn: Mrn, imported: bool)

  function Candidate(scope: Scope, key: string): Address {
    R.Address(scope.project, scope.environment, scope.folderPath, key)
  }

  predicate Missing(site: Site, addr: Address) {
    site.probe(addr) == Err(NotFound)
  }

  /** The first of these scopes that holds the key, and every one before it is missing it. */
  function FirstHolding(site: Site, key: string, scopes: seq<Scope>): Result<Landing, AppError> {
    if scopes == [] then Err(NotFound)
    else
      var candidate := Candidate(scopes[0], key);
      if Missing(site, candidate) then FirstHolding(site, key, scopes[1..])
      else if site.probe(candidate).Err? then Err(site.probe(candidate).error)
      else if site.w.mrnOf(candidate).Err? then Err(site.w.mrnOf(candidate).error)
      else Ok(Landing(candidate, site.w.mrnOf(candidate).value, true))
  }

  function Land(site: Site, addr: Address): Result<Landing, AppError> {
    if site.w.mrnOf(addr).Err? then Err(site.w.mrnOf(addr).error)
    else if site.probe(addr).Ok? then Ok(Landing(addr, site.w.mrnOf(addr).value, false))
    else if !Missing(site, addr) then Err(site.probe(addr).error)
    else if site.importsOf(addr).Err? then Err(site.importsOf(addr).error)
    else FirstHolding(site, addr.key, site.importsOf(addr).value)
  }

  lemma {:induction false} FirstHoldingIff(site: Site, key: string, scopes: seq<Scope>, l: Landing)
    ensures FirstHolding(site, key, scopes) == Ok(l) <==>
      exists i | 0 <= i < |scopes| ::
        && l == Landing(Candidate(scopes[i], key), l.mrn, true)
        && site.probe(l.addr).Ok? && site.w.mrnOf(l.addr) == Ok(l.mrn)
        && forall j | 0 <= j < i :: Missing(site, Candidate(scopes[j], key))
    decreases |scopes|
  {
    if scopes != [] {
      var candidate := Candidate(scopes[0], key);
      var rest := scopes[1..];
      FirstHoldingIff(site, key, rest, l);
      if Missing(site, candidate) {
        if i :| 0 <= i < |rest| && l == Landing(Candidate(rest[i], key), l.mrn, true) && site.probe(l.addr).Ok?
                && site.w.mrnOf(l.addr) == Ok(l.mrn)
                && forall j | 0 <= j < i :: Missing(site, Candidate(rest[j], key)) {
          assert scopes[i + 1] == rest[i];
          assert forall j | 0 < j < i + 1 :: scopes[j] == rest[j - 1];
        }
        if i :| 0 <= i < |scopes| && l == Landing(Candidate(scopes[i], key), l.mrn, true) && site.probe(l.addr).Ok?
                && site.w.mrnOf(l.addr) == Ok(l.mrn)
                && forall j | 0 <= j < i :: Missing(site, Candidate(scopes[j], key)) {
          assert i > 0 && rest[i - 1] == scopes[i];
          assert forall j | 0 <= j < i - 1 :: rest[j] == scopes[j + 1];
        }
      } else if FirstHolding(site, key, scopes) == Ok(l) {
        assert l.addr == Candidate(scopes[0], key);
      }
    }
  }

  /** Wherever an address lands, the name that is checked is the name of the secret that is read. */
  lemma {:induction false} LandsWhereItReads(site: Site, addr: Address)
    requires Land(site, addr).Ok?
    ensures var l := Land(site, addr).value;
            && site.w.mrnOf(l.addr) == Ok(l.mrn) && site.probe(l.addr).Ok? && l.addr.key == addr.key
            && (l.imported <==> Missing(site, addr))
  {
    if Missing(site, addr) {
      FirstHoldingIff(site, addr.key, site.importsOf(addr).value, Land(site, addr).value);
    }
  }

  // ---------------------------------------------------------------------------
  // One reveal
  // ---------------------------------------------------------------------------

  datatype Disclosed = Disclosed(mrn: Mrn, value: string, hops: seq<Mrn>)

  datatype RevealRun = RevealRun(result: Result<Disclosed, AppError>, events: seq<Event>)

  /** enforceReadLease: the gate's answer and the row it leaves. */
  function PassGate(site: Site, mrn: Mrn, events: seq<Event>): (Option<AppError>, seq<Event>) {
    match site.gate(mrn, |events|)
    case Ungoverned => (None, events)
    case GateFails(e) => (Some(e), events)
    case Exhausted => (Some(Forbidden), Write(site.w.log, Row(ActionLeaseRefused, Denied, mrn, "", 0), events))
    case Leased(issued) =>
      if !issued then (None, events)
      else
        (if site.w.log(|events|) then None else Some(Internal),
         Write(site.w.log, Row(ActionLeaseIssue, Success, mrn, "", 0), events))
  }

  function RevealRow(mrn: Mrn, outcome: Outcome): Row {
    Row(ActionReveal, outcome, mrn, "", 0)
  }

  /** The value of a secret that was read: its own, or what its references resolve to. */
  function Resolved(site: Site, mrn: Mrn, secret: R.Secret, events: seq<Event>): R.Run {
    if secret.isReference then R.Resolve(site.w, mrn, secret.value, events)
    else R.Run(Ok(R.Rendering(secret.value, [])), events)
  }

  /** The end of a reveal whose value has been read and resolved. */
  function Concluded(site: Site, mrn: Mrn, run: R.Run): RevealRun {
    if run.result.Err? then
      RevealRun(Err(R.Class(run.result.error)), Write(site.w.log, RevealRow(mrn, Failure), run.events))
    else
      var recorded := Write(site.w.log, RevealRow(mrn, Success), run.events);
      if !site.w.log(|run.events|) then RevealRun(Err(Internal), recorded)
      else RevealRun(Ok(Disclosed(mrn, run.result.value.value, run.result.value.hops)), recorded)
  }

  function Revelation(site: Site, addr: Address, version: nat, events: seq<Event>): RevealRun {
    if Land(site, addr).Err? then RevealRun(Err(Land(site, addr).error), events)
    else
      var Landing(target, mrn, _) := Land(site, addr).value;
      var checked := Guard(site.w.log, site.w.granted(mrn), ActionReveal, mrn, events);
      if !site.w.granted(mrn) then RevealRun(Err(Forbidden), checked)
      else
        var (refused, gated) := PassGate(site, mrn, checked);
        if refused.Some? then RevealRun(Err(refused.value), gated)
        else if site.stored(target, version).Err? then
          RevealRun(Err(site.stored(target, version).error), Write(site.w.log, RevealRow(mrn, Failure), gated))
        else
          Concluded(site, mrn, Resolved(site, mrn, site.stored(target, version).value, gated + [Decrypted(mrn)]))
  }

  // ---------------------------------------------------------------------------
  // What a reveal leaves in the log
  // ---------------------------------------------------------------------------

  /** Every decryption comes after a grant check on the same secret that passed. */
  ghost predicate GuardedFirst(events: seq<Event>) {
    forall i | 0 <= i < |events| && events[i].Decrypted? :: Guarded(events[i].mrn, true) in events[..i]
  }

  lemma {:induction false} NoSuccessRows(action: Action, events: seq<Event>)
    requires forall i | 0 <= i < |events| && events[i].Audited? ::
      events[i].row.action != action || events[i].row.outcome != Success
    ensures SuccessRows(action, events) == []
    decreases |events|
  {
    if events != [] {
      forall i | 0 <= i < |events[1..]| && events[1..][i].Audited?
        ensures events[1..][i].row.action != action || events[1..][i].row.outcome != Success
      {
        assert events[i + 1] == events[1..][i];
      }
      NoSuccessRows(action, events[1..]);
    }
  }

  lemma GuardedFirstConcat(a: seq<Event>, b: seq<Event>)
    requires GuardedFirst(a) && GuardedFirst(b)
    ensures GuardedFirst(a + b)
  {
    var all := a + b;
    forall i | 0 <= i < |all| && all[i].Decrypted?
      ensures Guarded(all[i].mrn, true) in all[..i]
    {
      if i < |a| {
        assert all[..i] == a[..i];
      } else {
        assert all[..i] == a + b[..i - |a|];
        assert b[i - |a|].Decrypted?;
      }
    }
  }

  /** The start of a reveal that gets as far as decrypting: the check, the lease row, the decryption. */
  ghost predicate Opening(front: seq<Event>, mrn: Mrn) {
    && 2 <= |front| <= 3 && front[0] == Guarded(mrn, true) && front[|front| - 1] == Decrypted(mrn)
    && (|front| == 3 ==> front[1].Audited? && front[1].row.action == ActionLeaseIssue && front[1].written)
  }

  lemma GatePassed(site: Site, mrn: Mrn, events: seq<Event>) returns (front: seq<Event>)
    requires site.w.granted(mrn)
    requires PassGate(site, mrn, Guard(site.w.log, true, ActionReveal, mrn, events)).0.None?
    ensures PassGate(site, mrn, Guard(site.w.log, true, ActionReveal, mrn, events)).1 + [Decrypted(mrn)] ==
      events + front
    ensures Opening(front, mrn)
  {
    var checked := Guard(site.w.log, true, ActionReveal, mrn, events);
    if site.gate(mrn, |checked|) == Leased(true) {
      front := [Guarded(mrn, true), Audited(Row(ActionLeaseIssue, Success, mrn, "", 0), true), Decrypted(mrn)];
    } else {
      front := [Guarded(mrn, true), Decrypted(mrn)];
    }
  }

  lemma {:induction false} OpeningRows(front: seq<Event>, mrn: Mrn)
    requires Opening(front, mrn)
    ensures GuardedFirst(front)
    ensures SuccessRows(ActionReveal, front) == [] && SuccessRows(ActionReferenceResolve, front) == []
  {
    NoSuccessRows(ActionReveal, front);
    NoSuccessRows(ActionReferenceResolve, front);
    assert front[..|front| - 1][0] == Guarded(mrn, true);
  }

  /** What resolving adds: checked decryptions, no reveal rows, and the hops' rows if it succeeds. */
  ghost predicate Inner(inner: seq<Event>, run: R.Run) {
    && GuardedFirst(inner) && SuccessRows(ActionReveal, inner) == []
    && (run.result.Ok? ==> SuccessRows(ActionReferenceResolve, inner) == run.result.value.hops)
  }

  lemma ResolvedTrail(site: Site, mrn: Mrn, secret: R.Secret, events: seq<Event>) returns (inner: seq<Event>)
    ensures Resolved(site, mrn, secret, events).events == events + inner
    ensures Inner(inner, Resolved(site, mrn, secret, events))
  {
    if secret.isReference {
      inner := G.ResolveTrail(site.w, mrn, secret.value, events);
      NoSuccessRows(ActionReveal, inner);
      forall i | 0 <= i < |inner| && inner[i].Decrypted?
        ensures Guarded(inner[i].mrn, true) in inner[..i]
      {
        assert inner[..i][i - 1] == Guarded(inner[i].mrn, true);
      }
    } else {
      inner := [];
    }
  }

  lemma ClosingRows(front: seq<Event>, inner: seq<Event>, run: R.Run, mrn: Mrn, row: Row, written: bool)
    requires Opening(front, mrn) && Inner(inner, run) && row.action == ActionReveal && row.mrn == mrn
    ensures var added := front + inner + [Audited(row, written)];
            && GuardedFirst(added)
            && SuccessRows(ActionReveal, added) == (if written && row.outcome == Success then [mrn] else [])
            && (run.result.Ok? ==> SuccessRows(ActionReferenceResolve, added) == run.result.value.hops)
  {
    var last := [Audited(row, written)];
    OpeningRows(front, mrn);
    GuardedFirstConcat(front, inner);
    GuardedFirstConcat(front + inner, last);
    SuccessRowsConcat(ActionReveal, front + inner, last);
    SuccessRowsConcat(ActionReveal, front, inner);
    SuccessRowsConcat(ActionReferenceResolve, front + inner, last);
    SuccessRowsConcat(ActionReferenceResolve, front, inner);
    assert last[1..] == [];
    var hops := SuccessRows(ActionReferenceResolve, inner);
    assert [] + hops + [] == hops;
    assert SuccessRows(ActionReferenceResolve, last) == [];
  }

  /** A value is handed back if and only if exactly one reveal row was written, for the secret it came from. */
  ghost predicate Accounted(site: Site, addr: Address, run: RevealRun, added: seq<Event>) {
    && GuardedFirst(added)
    && SuccessRows(ActionReveal, added) == (if run.result.Ok? then [run.result.value.mrn] else [])
    && (run.result.Ok? ==>
          && Land(site, addr).Ok? && run.result.value.mrn == Land(site, addr).value.mrn
             && site.w.granted(run.result.value.mrn)
          && Guarded(run.result.value.mrn, true) in added
          && SuccessRows(ActionReferenceResolve, added) == run.result.value.hops)
  }

  lemma {:induction false} RefusedTrail(added: seq<Event>)
    requires forall e | e in added ::
      !e.Decrypted? && (e.Audited? ==> e.row.action != ActionReveal || e.row.outcome != Success)
    ensures GuardedFirst(added) && SuccessRows(ActionReveal, added) == []
  {
    NoSuccessRows(ActionReveal, added);
  }

  /**
    Audit before disclosure, under any pattern of failing audit writes, and for an
    address that is answered through an import as well: what is handed back was
    granted, decrypted after that check, and recorded, all under one name, the name
    of the secret the value came from; what is not handed back left no success row.
  */
  lemma RevealTrail(site: Site, addr: Address, version: nat, events: seq<Event>) returns (added: seq<Event>)
    ensures Revelation(site, addr, version, events).events == events + added
    ensures Accounted(site, addr, Revelation(site, addr, version, events), added)
  {
    var l := Land(site, addr);
    added := [];
    if l.Ok? {
      var mrn := l.value.mrn;
      var checked := Guard(site.w.log, site.w.granted(mrn), ActionReveal, mrn, events);
      if !site.w.granted(mrn) {
        added := [Guarded(mrn, false), Audited(RevealRow(mrn, Denied), site.w.log(|events| + 1))];
      } else if PassGate(site, mrn, checked).0.Some? {
        added := [Guarded(mrn, true)] + PassGate(site, mrn, checked).1[|checked|..];
      } else {
        added := OpenedTrail(site, addr, version, events);
        return;
      }
    }
    RefusedTrail(added);
  }

  lemma OpenedTrail(site: Site, addr: Address, version: nat, events: seq<Event>) returns (added: seq<Event>)
    requires Land(site, addr).Ok? && site.w.granted(Land(site, addr).value.mrn)
    requires PassGate(site, Land(site, addr).value.mrn,
      Guard(site.w.log, true, ActionReveal, Land(site, addr).value.mrn, events)).0.None?
    ensures Revelation(site, addr, version, events).events == events + added
    ensures Accounted(site, addr, Revelation(site, addr, version, events), added)
  {
    var Landing(target, mrn, _) := Land(site, addr).value;
    var gated := PassGate(site, mrn, Guard(site.w.log, true, ActionReveal, mrn, events)).1;
    var front := GatePassed(site, mrn, events);
    if site.stored(target, version).Err? {
      var start := front[..|front| - 1];
      assert (gated + [Decrypted(mrn)])[..|gated|] == gated && (events + front)[..|gated|] == events + start;
      added := start + [Audited(RevealRow(mrn, Failure), site.w.log(|gated|))];
      RefusedTrail(added);
    } else {
      added := ReadTrail(site, mrn, site.stored(target, version).value, events, gated + [Decrypted(mrn)], front);
    }
  }

  lemma ReadTrail(
    site: Site, mrn: Mrn, secret: R.Secret, events: seq<Event>, read: seq<Event>, front: seq<Event>)
    returns (added: seq<Event>)
    requires read == events + front && Opening(front, mrn)
    ensures var run := Concluded(site, mrn, Resolved(site, mrn, secret, read));
            && run.events == events + added && GuardedFirst(added) && Guarded(mrn, true) in added
            && SuccessRows(ActionReveal, added) == (if run.result.Ok? then [mrn] else [])
            && (run.result.Ok? ==>
               run.result.value.mrn == mrn && SuccessRows(ActionReferenceResolve, added) == run.result.value.hops)
  {
    var run := Resolved(site, mrn, secret, read);
    var inner := ResolvedTrail(site, mrn, secret, read);
    var written := site.w.log(|run.events|);
    var row := RevealRow(mrn, if run.result.Ok? then Success else Failure);
    added := front + inner + [Audited(row, written)];
    assert Concluded(site, mrn, run).events == run.events + [Audited(row, written)];
    assert Concluded(site, mrn, run).result.Ok? <==> run.result.Ok? && written;
    ClosingRows(front, inner, run, mrn, row, written);
    assert added[0] == Guarded(mrn, true);
    assert (events + front) + inner + [Audited(row, written)] == events + added;
  }

  /** No event added to the log is a decryption. */
  predicate DecryptsNothing(before: seq<Event>, after: seq<Event>) {
    |before| <= |after| && forall i | |before| <= i < |after| :: !after[i].Decrypted?
  }

  /**
    The lease gate cannot be passed by: a refused or failed gate, or a new lease that
    could not be recorded, ends the reveal before anything is decrypted; a refusal
    leaves its own row, and a value served against a new lease has that lease's row.
  */
  lemma GateHolds(site: Site, addr: Address, version: nat, events: seq<Event>)
    requires Land(site, addr).Ok? && site.w.granted(Land(site, addr).value.mrn)
    ensures var mrn := Land(site, addr).value.mrn;
            var gate := site.gate(mrn, |events| + 1);
            var run := Revelation(site, addr, version, events);
            && (gate.Exhausted? || gate.GateFails? || (gate == Leased(true) && !site.w.log(|events| + 1)) ==>
                  run.result.Err? && DecryptsNothing(events, run.events))
            && (gate.Exhausted? ==>
                  && run.result == Err(Forbidden)
                  && run.events[|events| + 1] ==
                     Audited(Row(ActionLeaseRefused, Denied, mrn, "", 0), site.w.log(|events| + 1)))
            && (run.result.Ok? && gate == Leased(true) ==>
                  && |run.events| > |events| + 1
                  && run.events[|events| + 1] == Audited(Row(ActionLeaseIssue, Success, mrn, "", 0), true))
  {
    var mrn := Land(site, addr).value.mrn;
    var checked := Guard(site.w.log, true, ActionReveal, mrn, events);
    assert |checked| == |events| + 1;
    var added := RevealTrail(site, addr, version, events);
    if PassGate(site, mrn, checked).0.None? {
      GateIsLogged(site, addr, version, events);
    }
  }

  /** Whatever follows, the log goes on from what the gate left. */
  lemma GateIsLogged(site: Site, addr: Address, version: nat, events: seq<Event>)
    requires Land(site, addr).Ok? && site.w.granted(Land(site, addr).value.mrn)
    requires PassGate(site, Land(site, addr).value.mrn,
      Guard(site.w.log, true, ActionReveal, Land(site, addr).value.mrn, events)).0.None?
    ensures PassGate(site, Land(site, addr).value.mrn,
      Guard(site.w.log, true, ActionReveal, Land(site, addr).value.mrn, events)).1
            <= Revelation(site, addr, version, events).events
  {
    var Landing(target, mrn, _) := Land(site, addr).value;
    var gated := PassGate(site, mrn, Guard(site.w.log, true, ActionReveal, mrn, events)).1;
    if site.stored(target, version).Ok? {
      var inner := ResolvedTrail(site, mrn, site.stored(target, version).value, gated + [Decrypted(mrn)]);
    }
  }

  /** The value handed back is the stored one, or what its template means. */
  lemma {:induction false} RevealsTheMeaning(site: Site, addr: Address, version: nat, events: seq<Event>, n: nat)
    requires Revelation(site, addr, version, events).result.Ok?
    ensures Land(site, addr).Ok? && site.stored(Land(site, addr).value.addr, version).Ok?
    ensures var secret := site.stored(Land(site, addr).value.addr, version).value;
            var value := Revelation(site, addr, version, events).result.value.value;
            if !secret.isReference then value == secret.value
            else G.Denote(site.w, secret.value, n).Some? ==> G.Denote(site.w, secret.value, n) == Some(value)
  {
    var Landing(target, mrn, _) := Land(site, addr).value;
    var secret := site.stored(target, version).value;
    if secret.isReference && G.Denote(site.w, secret.value, n).Some? {
      var gated := PassGate(site, mrn, Guard(site.w.log, true, ActionReveal, mrn, events)).1;
      G.ResolveReturnsMeaning(site.w, mrn, secret.value, gated + [Decrypted(mrn)], n);
    }
  }

  // ---------------------------------------------------------------------------
  // A batch
  // ---------------------------------------------------------------------------

  datatype Item = Item(addr: Address, version: nat)

  datatype BatchRun = BatchRun(
    outcomes: seq<Result<Disclosed, AppError>>,
    aborted: Option<AppError>,
    events: seq<Event>)

  /** isAuditFailure: any error that is not of a class a caller can cause, not audit failures alone. */
  predicate IsAuditFailure(e: AppError) {
    e != NotFound && e != Validation && e != Conflict && e != Forbidden && e != Unavailable
  }

  type Revealer = (Address, nat, seq<Event>) -> RevealRun

  function RevealsOf(site: Site): Revealer {
    (addr, version: nat, events) => Revelation(site, addr, version, events)
  }

  /** `done` is what was collected before these items. */
  function Batch(read: Revealer, items: seq<Item>, done: seq<Result<Disclosed, AppError>>, events: seq<Event>): BatchRun
    decreases |items|
  {
    if items == [] then BatchRun(done, None, events)
    else
      var one := read(items[0].addr, items[0].version, events);
      if one.result.Err? && IsAuditFailure(one.result.error) then BatchRun(done, Some(one.result.error), one.events)
      else Batch(read, items[1..], done + [one.result], one.events)
  }

  function MrnsOf(outcomes: seq<Result<Disclosed, AppError>>): seq<Mrn> {
    if outcomes == [] then []
    else
      var last := outcomes[|outcomes| - 1];
      MrnsOf(outcomes[..|outcomes| - 1]) + if last.Ok? then [last.value.mrn] else []
  }

  lemma {:induction false} MrnsOfOneMore(outcomes: seq<Result<Disclosed, AppError>>, next: Result<Disclosed, AppError>)
    ensures MrnsOf(outcomes + [next]) == MrnsOf(outcomes) + if next.Ok? then [next.value.mrn] else []
  {
    assert (outcomes + [next])[..|outcomes|] == outcomes;
  }

  /** What a batch that has collected `done` may end with: an outcome for each item, or an audit failure. */
  ghost predicate BatchShape(run: BatchRun, items: nat, done: seq<Result<Disclosed, AppError>>) {
    && (run.aborted == None ==> |run.outcomes| == |done| + items)
    && (run.aborted.Some? ==> |run.outcomes| < |done| + items && IsAuditFailure(run.aborted.value))
    && done <= run.outcomes
    && forall i | |done| <= i < |run.outcomes| :: run.outcomes[i].Err? ==> !IsAuditFailure(run.outcomes[i].error)
  }

  lemma {:induction false} BatchHasShape(
    read: Revealer, items: seq<Item>, done: seq<Result<Disclosed, AppError>>, events: seq<Event>)
    ensures BatchShape(Batch(read, items, done, events), |items|, done)
    decreases |items|
  {
    if items != [] {
      var one := read(items[0].addr, items[0].version, events);
      if one.result.Ok? || !IsAuditFailure(one.result.error) {
        var run := Batch(read, items[1..], done + [one.result], one.events);
        BatchHasShape(read, items[1..], done + [one.result], one.events);
        assert run.outcomes[|done|] == one.result;
      }
    }
  }

  /**
    A run that only adds to the log, checks before it decrypts, and logs one reveal row
    exactly if it hands back a value.
  */
  ghost predicate Audits(run: RevealRun, events: seq<Event>) {
    && events <= run.events && GuardedFirst(run.events[|events|..]) && RowOf(run.result, run.events[|events|..])
  }

  predicate RowOf(result: Result<Disclosed, AppError>, added: seq<Event>) {
    SuccessRows(ActionReveal, added) == if result.Ok? then [result.value.mrn] else []
  }

  ghost predicate Auditing(read: Revealer) {
    forall addr, version, e :: Audits(read(addr, version, e), e)
  }

  lemma {:induction false} BatchOfAudited(
    read: Revealer, items: seq<Item>, done: seq<Result<Disclosed, AppError>>, events: seq<Event>)
    returns (added: seq<Event>)
    requires Auditing(read)
    ensures Batch(read, items, done, events).events == events + added && GuardedFirst(added)
    ensures MrnsOf(Batch(read, items, done, events).outcomes) == MrnsOf(done) + SuccessRows(ActionReveal, added)
    decreases |items|
  {
    added := [];
    if items == [] {
      NoRows(done);
    } else {
      var more := OneAudited(read, items[0], events);
      var one := read(items[0].addr, items[0].version, events);
      if one.result.Err? && IsAuditFailure(one.result.error) {
        NoRows(done);
        added := more;
      } else {
        var rest := BatchOfAudited(read, items[1..], done + [one.result], one.events);
        RowsStep(done, one.result, more, rest);
        added := more + rest;
        Prepend(events, more, rest);
      }
    }
  }

  lemma OneAudited(read: Revealer, item: Item, events: seq<Event>) returns (more: seq<Event>)
    requires Auditing(read)
    ensures var one := read(item.addr, item.version, events);
            one.events == events + more && GuardedFirst(more) && RowOf(one.result, more)
  {
    var one := read(item.addr, item.version, events);
    assert Audits(one, events);
    more := one.events[|events|..];
  }

  lemma {:induction false} NoRows(done: seq<Result<Disclosed, AppError>>)
    ensures MrnsOf(done) == MrnsOf(done) + []
  {
  }

  lemma Prepend(events: seq<Event>, more: seq<Event>, rest: seq<Event>)
    ensures (events + more) + rest == events + (more + rest)
  {
  }

  lemma {:induction false} RowsStep(
    done: seq<Result<Disclosed, AppError>>, one: Result<Disclosed, AppError>, more: seq<Event>, rest: seq<Event>)
    requires GuardedFirst(more) && GuardedFirst(rest) && RowOf(one, more)
    ensures GuardedFirst(more + rest)
    ensures MrnsOf(done + [one]) + SuccessRows(ActionReveal, rest) ==
      MrnsOf(done) + SuccessRows(ActionReveal, more + rest)
  {
    GuardedFirstConcat(more, rest);
    SuccessRowsConcat(ActionReveal, more, rest);
    MrnsOfOneMore(done, one);
  }

  /**
    A batch that ends has one outcome for each item, in order; one that aborts has
    fewer. Either way the reveal rows it wrote are those of the values it collected,
    in order, so nothing is handed back that is not in the trail.
  */
  lemma BatchTrail(site: Site, items: seq<Item>, events: seq<Event>) returns (added: seq<Event>)
    ensures Batch(RevealsOf(site), items, [], events).events == events + added
    ensures var run := Batch(RevealsOf(site), items, [], events);
            && BatchShape(run, |items|, [])
            && GuardedFirst(added) && SuccessRows(ActionReveal, added) == MrnsOf(run.outcomes)
  {
    forall addr, version, e ensures Audits(RevealsOf(site)(addr, version, e), e) {
      var more := RevealTrail(site, addr, version, e);
      assert (e + more)[|e|..] == more;
    }
    assert Auditing(RevealsOf(site));
    BatchHasShape(RevealsOf(site), items, [], events);
    added := BatchOfAudited(RevealsOf(site), items, [], events);
    assert [] + SuccessRows(ActionReveal, added) == SuccessRows(ActionReveal, added);
  }

  // ---------------------------------------------------------------------------
  // The service
  // ---------------------------------------------------------------------------

  /** A decrypted buffer. */
  class Plaintext {
    var bytes: string

    constructor (bytes: string)
      ensures this.bytes == bytes
    {
      this.bytes := bytes;
    }

    predicate Zeroed() reads this {
      forall i | 0 <= i < |bytes| :: bytes[i] == '\0'
    }

    method Zero()
      modifies this
      ensures Zeroed() && |bytes| == |old(bytes)|
    {
      bytes := seq(|bytes|, i => '\0');
    }
  }

  datatype Revealed = Revealed(mrn: Mrn, buffer: Plaintext, hops: seq<Mrn>)

  datatype BatchResult = BatchResult(addr: Address, secret: Option<Plaintext>, hops: seq<Mrn>, error: Option<AppError>)

  /** The result of one item: exactly its value, or exactly its error. */
  predicate Holds(result: BatchResult, outcome: Result<Disclosed, AppError>)
    reads if result.secret.Some? then {result.secret.value} else {}
  {
    match outcome
    case Ok(d) => result.error == None && result.secret.Some? && result.secret.value.bytes == d.value
      && result.hops == d.hops
    case Err(e) => result.error == Some(e) && result.secret == None
  }

  ghost predicate AllZeroed(buffers: seq<Plaintext>)
    reads buffers
  {
    forall b | b in buffers :: b.Zeroed()
  }

  class Discloser {
    const site: Site
    const resolver: R.Resolver

    ghost predicate Valid() {
      resolver.w == site.w
    }

    constructor (site: Site)
      ensures Valid() && this.site == site && resolver.events == [] && fresh(resolver)
    {
      this.site := site;
      resolver := new R.Resolver(site.w);
    }

    /** resolveThroughImports: the address itself, or the first import that holds the key. */
    method ResolveThroughImports(addr: Address) returns (r: Result<Landing, AppError>)
      ensures r == Land(site, addr)
    {
      var own := site.w.mrnOf(addr);
      if own.Err? {
        return Err(own.error);
      }
      var probed := site.probe(addr);
      if probed.Ok? {
        return Ok(Landing(addr, own.value, false));
      }
      if probed.error != NotFound {
        return Err(probed.error);
      }
      var sources := site.importsOf(addr);
      if sources.Err? {
        return Err(sources.error);
      }
      for i := 0 to |sources.value|
        invariant FirstHolding(site, addr.key, sources.value) == FirstHolding(site, addr.key, sources.value[i..])
      {
        var candidate := Candidate(sources.value[i], addr.key);
        assert sources.value[i..][1..] == sources.value[i + 1..];
        var found := site.probe(candidate);
        if found.Err? {
          if found.error == NotFound {
            continue;
          }
          return Err(found.error);
        }
        var mrn := site.w.mrnOf(candidate);
        if mrn.Err? {
          return Err(mrn.error);
        }
        return Ok(Landing(candidate, mrn.value, true));
      }
      r := Err(NotFound);
    }

    method EnforceReadLease(mrn: Mrn) returns (refused: Option<AppError>)
      requires Valid()
      modifies resolver
      ensures (refused, resolver.events) == PassGate(site, mrn, old(resolver.events))
    {
      match site.gate(mrn, |resolver.events|) {
        case Ungoverned => return None;
        case GateFails(e) => return Some(e);
        case Exhausted =>
          var _ := resolver.RecordRow(Row(ActionLeaseRefused, Denied, mrn, "", 0));
          return Some(Forbidden);
        case Leased(issued) =>
          if issued {
            var written := resolver.RecordRow(Row(ActionLeaseIssue, Success, mrn, "", 0));
            if !written {
              return Some(Internal);
            }
          }
          return None;
      }
    }

    /**
      Reveal. `buffers` are the plaintext buffers it filled: on success all of them
      but the returned one are zeroed, on failure all of them.
    */
    method Reveal(addr: Address, version: nat) returns (r: Result<Revealed, AppError>, ghost buffers: seq<Plaintext>)
      requires Valid()
      modifies resolver
      ensures resolver.events == Revelation(site, addr, version, old(resolver.events)).events
      ensures var spec := Revelation(site, addr, version, old(resolver.events)).result;
              && r.Ok? == spec.Ok?
              && (r.Err? ==> r.error == spec.error && AllZeroed(buffers))
              && (r.Ok? ==>
                    && spec.value == Disclosed(r.value.mrn, r.value.buffer.bytes, r.value.hops)
                    && r.value.buffer in buffers && forall b | b in buffers :: b == r.value.buffer || b.Zeroed())
      ensures forall b | b in buffers :: fresh(b)
    {
      buffers := [];
      var landed := ResolveThroughImports(addr);
      if landed.Err? {
        return Err(landed.error), buffers;
      }
      var Landing(target, mrn, _) := landed.value;
      var allowed := resolver.CheckGrant(ActionReveal, mrn);
      if !allowed {
        return Err(Forbidden), buffers;
      }
      var refused := EnforceReadLease(mrn);
      if refused.Some? {
        return Err(refused.value), buffers;
      }
      var read := site.stored(target, version);
      if read.Err? {
        var _ := resolver.RecordRow(RevealRow(mrn, Failure));
        return Err(read.error), buffers;
      }
      resolver.events := resolver.events + [Decrypted(mrn)];
      var buffer := new Plaintext(read.value.value);
      buffers := [buffer];
      var hops := [];
      if read.value.isReference {
        var resolved := resolver.ResolveReferences(mrn, buffer.bytes);
        buffer.Zero();
        if resolved.Err? {
          var _ := resolver.RecordRow(RevealRow(mrn, Failure));
          return Err(R.Class(resolved.error)), buffers;
        }
        buffer := new Plaintext(resolved.value.value);
        buffers := buffers + [buffer];
        hops := resolved.value.hops;
      }
      var written := resolver.RecordRow(RevealRow(mrn, Success));
      if !written {
        buffer.Zero();
        return Err(Internal), buffers;
      }
      r := Ok(Revealed(mrn, buffer, hops));
    }

    /**
      BatchGet. An internal error, of an audit write or of anything else, abandons the
      batch: nothing is returned and every buffer filled so far is zeroed. Otherwise
      there is one outcome for each item, in order, holding exactly a value or an error.
    */
    method BatchGet(items: seq<Item>)
      returns (out: seq<BatchResult>, err: Option<AppError>, ghost buffers: seq<Plaintext>)
      requires Valid()
      modifies resolver
      ensures var run := Batch(RevealsOf(site), items, [], old(resolver.events));
              && resolver.events == run.events && err == run.aborted
              && (err.Some? ==> out == [] && AllZeroed(buffers))
              && (err == None ==>
                    && |out| == |items| == |run.outcomes|
                    && (forall i | 0 <= i < |out| :: out[i].addr == items[i].addr && Holds(out[i], run.outcomes[i]))
                    && forall b | b in buffers :: b.Zeroed() || exists i | 0 <= i < |out| :: out[i].secret == Some(b))
    {
      out, buffers := [], [];
      ghost var done: seq<Result<Disclosed, AppError>> := [];
      ghost var start := resolver.events;
      for i := 0 to |items|
        invariant |out| == |done| == i
        invariant Batch(RevealsOf(site), items, [], start) == Batch(RevealsOf(site), items[i..], done, resolver.events)
        invariant forall b | b in buffers :: fresh(b)
        invariant forall j | 0 <= j < i :: out[j].addr == items[j].addr && Holds(out[j], done[j])
        invariant forall j | 0 <= j < i && out[j].secret.Some? :: out[j].secret.value in buffers
        invariant forall b | b in buffers :: b.Zeroed() || exists j | 0 <= j < i :: out[j].secret == Some(b)
      {
        ghost var one := Revelation(site, items[i].addr, items[i].version, resolver.events);
        assert items[i..][1..] == items[i + 1..];
        var revealed, filled := Reveal(items[i].addr, items[i].version);
        if revealed.Err? && IsAuditFailure(revealed.error) {
          buffers := buffers + filled;
          ZeroAll(out);
          return [], Some(revealed.error), buffers;
        }
        var result := match revealed
          case Ok(v) => BatchResult(items[i].addr, Some(v.buffer), v.hops, None)
          case Err(e) => BatchResult(items[i].addr, None, [], Some(e));
        ghost var before := out;
        out := out + [result];
        buffers := buffers + filled;
        done := done + [one.result];
        assert out[i] == result;
      }
      err := None;
    }

    /** zeroAll. */
    method ZeroAll(results: seq<BatchResult>)
      modifies set i | 0 <= i < |results| && results[i].secret.Some? :: results[i].secret.value
      ensures forall i | 0 <= i < |results| && results[i].secret.Some? :: results[i].secret.value.Zeroed()
      ensures forall b: Plaintext | old(allocated(b)) && old(b.Zeroed()) :: b.Zeroed()
    {
      for i := 0 to |results|
        invariant forall j | 0 <= j < i && results[j].secret.Some? :: results[j].secret.value.Zeroed()
        invariant forall b: Plaintext | old(allocated(b)) && old(b.Zeroed()) :: b.Zeroed()
      {
        if results[i].secret.Some? {
          results[i].secret.value.Zero();
        }
      }
    }
  }
}
