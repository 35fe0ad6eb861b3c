/**
  When a reveal hands a value back, and what each way of failing answers and records:
  stated over what the store, the grants, the lease gate and the audit log answer, not
  over the steps of the code (internal/api/secrets.go, leases.go, imports.go, bulk.go).
*/
module RevealOutcome {
  import opened Results
  import opened Audit
  import R = References
  import G = ReferenceGraph
  import opened A = ReferenceAudit
  import opened Disclosure

  // ---------------------------------------------------------------------------
  // What the site answers
  // ---------------------------------------------------------------------------

  /** The secret of this key in an imported scope. */
  function InScope(scope: Scope, key: string): Address {
    R.Address(scope.project, scope.environment, scope.folderPath, key)
  }

  /** No scope before the i-th holds the key. */
  predicate MissedBefore(site: Site, key: string, scopes: seq<Scope>, i: nat)
    requires i <= |scopes|
  {
    forall j | 0 <= j < i :: site.probe(InScope(scopes[j], key)) == Err(NotFound)
  }

  ghost predicate HeldByImport(site: Site, key: string, scopes: seq<Scope>, target: Address) {
    exists i: nat | i < |scopes| ::
      target == InScope(scopes[i], key) && site.probe(target).Ok? && MissedBefore(site, key, scopes, i)
  }

  /** An address answers for its own secret, or, if that is missing, for the first import that has the key. */
  ghost predicate LandsAt(site: Site, addr: Address, target: Address, mrn: Mrn) {
    && site.w.mrnOf(addr).Ok? && site.w.mrnOf(target) == Ok(mrn)
    && (if site.probe(addr) == Err(NotFound)
        then site.importsOf(addr).Ok? && HeldByImport(site, addr.key, site.importsOf(addr).value, target)
        else site.probe(addr).Ok? && target == addr)
  }

  lemma {:induction false} LandIff(site: Site, addr: Address, target: Address, mrn: Mrn)
    ensures (Land(site, addr).Ok? && Land(site, addr).value.addr == target && Land(site, addr).value.mrn == mrn)
            <==> LandsAt(site, addr, target, mrn)
  {
    if site.probe(addr) == Err(NotFound) && site.importsOf(addr).Ok? {
      var scopes := site.importsOf(addr).value;
      FirstHoldingIff(site, addr.key, scopes, Landing(target, mrn, true));
      assert forall s :: Candidate(s, addr.key) == InScope(s, addr.key);
      if LandsAt(site, addr, target, mrn) {
        var i: nat :| i < |scopes| && target == InScope(scopes[i], addr.key) && site.probe(target).Ok?
          && MissedBefore(site, addr.key, scopes, i);
        assert forall j | 0 <= j < i :: Missing(site, Candidate(scopes[j], addr.key));
      }
      if Land(site, addr).Ok? {
        LandsWhereItReads(site, addr);
      }
    }
  }

  /** Why an address lands nowhere. */
  ghost predicate LandsNowhere(site: Site, addr: Address, e: AppError) {
    || site.w.mrnOf(addr) == Err(e)
    || (site.w.mrnOf(addr).Ok? && site.probe(addr) == Err(e) && e != NotFound)
    || (site.w.mrnOf(addr).Ok? && site.probe(addr) == Err(NotFound) && site.importsOf(addr) == Err(e))
    || (site.w.mrnOf(addr).Ok? && site.probe(addr) == Err(NotFound) && site.importsOf(addr).Ok?
        && NoneHolds(site, addr.key, site.importsOf(addr).value, e))
  }

  /** Every import is missing the key, or the first that is not cannot be asked or named. */
  ghost predicate NoneHolds(site: Site, key: string, scopes: seq<Scope>, e: AppError) {
    || (e == NotFound && MissedBefore(site, key, scopes, |scopes|))
    || exists i: nat | i < |scopes| ::
         && MissedBefore(site, key, scopes, i)
         && var target := InScope(scopes[i], key);
            || (site.probe(target) == Err(e) && e != NotFound)
            || (site.probe(target).Ok? && site.w.mrnOf(target) == Err(e))
  }

  lemma {:induction false} NoImportHolds(site: Site, key: string, scopes: seq<Scope>, e: AppError)
    requires FirstHolding(site, key, scopes) == Err(e)
    ensures NoneHolds(site, key, scopes, e)
    decreases |scopes|
  {
    if scopes != [] {
      var rest := scopes[1..];
      if Missing(site, Candidate(scopes[0], key)) {
        NoImportHolds(site, key, rest, e);
        assert forall j | 0 < j < |scopes| :: scopes[j] == rest[j - 1];
        if !MissedBefore(site, key, scopes, |scopes|) || e != NotFound {
          var i: nat :| i < |rest| && MissedBefore(site, key, rest, i)
            && ((site.probe(InScope(rest[i], key)) == Err(e) && e != NotFound)
                || (site.probe(InScope(rest[i], key)).Ok? && site.w.mrnOf(InScope(rest[i], key)) == Err(e)));
          assert scopes[i + 1] == rest[i] && MissedBefore(site, key, scopes, i + 1);
        }
      } else {
        assert MissedBefore(site, key, scopes, 0);
      }
    }
  }

  lemma {:induction false} LandFails(site: Site, addr: Address, e: AppError)
    requires Land(site, addr) == Err(e)
    ensures LandsNowhere(site, addr, e)
  {
    if site.w.mrnOf(addr).Ok? && site.probe(addr) == Err(NotFound) && site.importsOf(addr).Ok? {
      NoImportHolds(site, addr.key, site.importsOf(addr).value, e);
    }
  }

  /** The gate lets a read pass; one that issues a lease has to be recorded. */
  predicate GateOpens(gate: Gate, recorded: bool) {
    gate == Ungoverned || gate == Leased(false) || (gate == Leased(true) && recorded)
  }

  /** A reference resolves, if its audit rows can be written. */
  ghost predicate ResolvableSecret(site: Site, mrn: Mrn, secret: R.Secret) {
    secret.isReference ==> G.AllWalksGood(site.w, secret.value, [mrn], 0)
  }

  ghost predicate AllWritten(added: seq<Event>) {
    forall e | e in added :: !UnwrittenSuccess(e)
  }

  // ---------------------------------------------------------------------------
  // The log of each outcome
  // ---------------------------------------------------------------------------

  function LogRow(site: Site, row: Row, at: nat): Event {
    Audited(row, site.w.log(at))
  }

  /** What an open gate leaves in front of the read: the check, and the row of a new lease. */
  function Passed(site: Site, mrn: Mrn, events: seq<Event>): seq<Event> {
    [Guarded(mrn, true)]
    + if site.gate(mrn, |events| + 1) == Leased(true)
      then [LogRow(site, Row(ActionLeaseIssue, Success, mrn, "", 0), |events| + 1)] else []
  }

  /** An address that lands nowhere is answered with its reason, and nothing is checked or recorded. */
  lemma {:induction false} NowhereIsTold(site: Site, addr: Address, version: nat, events: seq<Event>)
    requires forall target, mrn :: !LandsAt(site, addr, target, mrn)
    ensures var run := Revelation(site, addr, version, events);
            run.result.Err? && run.events == events && LandsNowhere(site, addr, run.result.error)
  {
    if Land(site, addr).Ok? {
      LandIff(site, addr, Land(site, addr).value.addr, Land(site, addr).value.mrn);
    } else {
      LandFails(site, addr, Land(site, addr).error);
    }
  }

  /** Without the grant the answer is Forbidden, and the denial is all that is recorded. */
  lemma {:induction false} DenialIsTold(
    site: Site, addr: Address, version: nat, events: seq<Event>, target: Address, mrn: Mrn)
    requires LandsAt(site, addr, target, mrn) && !site.w.granted(mrn)
    ensures var run := Revelation(site, addr, version, events);
            && run.result == Err(Forbidden)
            && run.events == events
                 + [Guarded(mrn, false), LogRow(site, Row(ActionReveal, Denied, mrn, "", 0), |events| + 1)]
  {
    LandIff(site, addr, target, mrn);
  }

  /** A closed gate answers for itself, before anything is read: each answer with its error and its row. */
  lemma {:induction false} ClosedGateIsTold(
    site: Site, addr: Address, version: nat, events: seq<Event>, target: Address, mrn: Mrn)
    requires LandsAt(site, addr, target, mrn) && site.w.granted(mrn)
    requires !GateOpens(site.gate(mrn, |events| + 1), site.w.log(|events| + 1))
    ensures var run := Revelation(site, addr, version, events);
            var gate := site.gate(mrn, |events| + 1);
            && (gate.GateFails? ==> run.result == Err(gate.error) && run.events == events + [Guarded(mrn, true)])
            && (gate == Exhausted ==>
                  && run.result == Err(Forbidden)
                  && run.events == events + [Guarded(mrn, true),
                       LogRow(site, Row(ActionLeaseRefused, Denied, mrn, "", 0), |events| + 1)])
            && (gate == Leased(true) ==>
                  run.result == Err(Internal) && run.events == events + Passed(site, mrn, events))
  {
    LandIff(site, addr, target, mrn);
  }

  /** Behind an open gate a version that cannot be read is answered with its error and recorded as a failure. */
  lemma {:induction false} UnreadIsTold(
    site: Site, addr: Address, version: nat, events: seq<Event>, target: Address, mrn: Mrn)
    requires LandsAt(site, addr, target, mrn) && site.w.granted(mrn)
    requires GateOpens(site.gate(mrn, |events| + 1), site.w.log(|events| + 1)) && site.stored(target, version).Err?
    ensures var run := Revelation(site, addr, version, events);
            var front := events + Passed(site, mrn, events);
            && run.result == Err(site.stored(target, version).error)
            && run.events == front + [LogRow(site, Row(ActionReveal, Failure, mrn, "", 0), |front|)]
  {
    LandIff(site, addr, target, mrn);
    PassesGate(site, mrn, events);
  }

  lemma {:induction false} PassesGate(site: Site, mrn: Mrn, events: seq<Event>)
    requires site.w.granted(mrn) && GateOpens(site.gate(mrn, |events| + 1), site.w.log(|events| + 1))
    ensures PassGate(site, mrn, Guard(site.w.log, true, ActionReveal, mrn, events))
         == (None, events + Passed(site, mrn, events))
  {
    var checked := events + [Guarded(mrn, true)];
    assert Guard(site.w.log, true, ActionReveal, mrn, events) == checked && |checked| == |events| + 1;
    if site.gate(mrn, |events| + 1) == Leased(true) {
      var row := LogRow(site, Row(ActionLeaseIssue, Success, mrn, "", 0), |events| + 1);
      assert checked + [row] == events + ([Guarded(mrn, true)] + [row]);
    } else {
      assert [Guarded(mrn, true)] + [] == [Guarded(mrn, true)];
    }
  }

  /** What a read leaves between its decryption and its own row: the log of its references, if it has any. */
  ghost predicate ReferenceLog(site: Site, mrn: Mrn, secret: R.Secret, base: nat, inner: seq<Event>) {
    if secret.isReference then AllAccounted(site.w, base, [mrn], inner) else inner == []
  }

  /**
    A version that is read is decrypted once, right behind the gate, and the last row is
    the reveal's own: a success row where the value could be resolved, a failure row
    where it could not. Between the two stands the log of the references.
  */
  lemma {:induction false} ReadIsTold(
    site: Site, addr: Address, version: nat, events: seq<Event>, target: Address, mrn: Mrn)
    returns (inner: seq<Event>)
    requires LandsAt(site, addr, target, mrn) && site.w.granted(mrn)
    requires GateOpens(site.gate(mrn, |events| + 1), site.w.log(|events| + 1)) && site.stored(target, version).Ok?
    ensures var run := Revelation(site, addr, version, events);
            var secret := site.stored(target, version).value;
            var read := events + Passed(site, mrn, events) + [Decrypted(mrn)];
            var resolved := ResolvableSecret(site, mrn, secret) && AllWritten(inner);
            var row := Row(ActionReveal, if resolved then Success else Failure, mrn, "", 0);
            && run.events == read + inner + [LogRow(site, row, |read + inner|)]
            && ReferenceLog(site, mrn, secret, |read|, inner)
            && (run.result.Ok? <==> resolved && site.w.log(|read + inner|))
            && (resolved && !site.w.log(|read + inner|) ==> run.result == Err(Internal))
            && (run.result.Ok? ==> run.result.value.mrn == mrn)
            && (run.result.Ok? && !secret.isReference ==> run.result.value == Disclosed(mrn, secret.value, []))
  {
    LandIff(site, addr, target, mrn);
    PassesGate(site, mrn, events);
    var secret := site.stored(target, version).value;
    var read := events + Passed(site, mrn, events) + [Decrypted(mrn)];
    inner := [];
    if secret.isReference {
      inner := ResolvesIffRecorded(site.w, mrn, secret.value, read);
      var logged := ResolutionLog(site.w, mrn, secret.value, read);
      assert (read + inner)[|read|..] == inner && (read + logged)[|read|..] == logged;
    } else {
      assert read + [] == read;
    }
    assert Resolved(site, mrn, secret, read).events == read + inner;
  }

  /** A reference that does not resolve is answered with the class of what its resolution met. */
  lemma {:induction false} UnresolvedIsTold(
    site: Site, addr: Address, version: nat, events: seq<Event>, target: Address, mrn: Mrn)
    requires LandsAt(site, addr, target, mrn) && site.w.granted(mrn)
    requires GateOpens(site.gate(mrn, |events| + 1), site.w.log(|events| + 1))
    requires site.stored(target, version).Ok? && site.stored(target, version).value.isReference
    requires var read := events + Passed(site, mrn, events) + [Decrypted(mrn)];
             R.Resolve(site.w, mrn, site.stored(target, version).value.value, read).result.Err?
    ensures var read := events + Passed(site, mrn, events) + [Decrypted(mrn)];
            var e := R.Resolve(site.w, mrn, site.stored(target, version).value.value, read).result.error;
            var run := Revelation(site, addr, version, events);
            && (e.TooDeep? || e.NeverCloses? || e.BadAddress? || e.Cycle? ==> run.result == Err(Validation))
            && (e.NotGranted? ==> run.result == Err(Forbidden))
            && (e.Store? ==> run.result == Err(e.cause))
            && (e.AuditFailed? ==> run.result == Err(Internal))
  {
    LandIff(site, addr, target, mrn);
    PassesGate(site, mrn, events);
  }

  // ---------------------------------------------------------------------------
  // When a value is handed back
  // ---------------------------------------------------------------------------

  ghost predicate Revealable(site: Site, addr: Address, version: nat, events: seq<Event>) {
    exists target, mrn ::
      && LandsAt(site, addr, target, mrn) && site.w.granted(mrn)
      && GateOpens(site.gate(mrn, |events| + 1), true)
      && site.stored(target, version).Ok?
      && ResolvableSecret(site, mrn, site.stored(target, version).value)
  }

  /**
    A reveal hands a value back if and only if the address lands on a secret that is
    granted, whose lease gate lets the read pass, that can be read and, if it is a
    reference, all of whose walks end well; and every success row of the reveal, the new
    lease's, the references' and its own, is written.
  */
  lemma {:induction false} RevealsIff(site: Site, addr: Address, version: nat, events: seq<Event>)
    returns (added: seq<Event>)
    ensures Revelation(site, addr, version, events).events == events + added
    ensures Revelation(site, addr, version, events).result.Ok? <==>
      Revealable(site, addr, version, events) && AllWritten(added)
  {
    added := RevealTrail(site, addr, version, events);
    var run := Revelation(site, addr, version, events);
    if target, mrn :| LandsAt(site, addr, target, mrn) {
      LandIff(site, addr, target, mrn);
      forall t, m | LandsAt(site, addr, t, m) ensures t == target && m == mrn {
        LandIff(site, addr, t, m);
      }
      if !site.w.granted(mrn) {
        DenialIsTold(site, addr, version, events, target, mrn);
      } else if !GateOpens(site.gate(mrn, |events| + 1), site.w.log(|events| + 1)) {
        ClosedGateBlocks(site, addr, version, events, target, mrn, added);
      } else if site.stored(target, version).Err? {
        UnreadIsTold(site, addr, version, events, target, mrn);
      } else {
        ReadDecides(site, addr, version, events, target, mrn, added);
      }
    } else {
      NowhereIsTold(site, addr, version, events);
    }
  }

  lemma {:induction false} ClosedGateBlocks(
    site: Site, addr: Address, version: nat, events: seq<Event>, target: Address, mrn: Mrn, added: seq<Event>)
    requires LandsAt(site, addr, target, mrn) && site.w.granted(mrn)
    requires !GateOpens(site.gate(mrn, |events| + 1), site.w.log(|events| + 1))
    requires Revelation(site, addr, version, events).events == events + added
    ensures Revelation(site, addr, version, events).result.Err?
    ensures GateOpens(site.gate(mrn, |events| + 1), true) ==> !AllWritten(added)
  {
    ClosedGateIsTold(site, addr, version, events, target, mrn);
    if GateOpens(site.gate(mrn, |events| + 1), true) {
      var row := LogRow(site, Row(ActionLeaseIssue, Success, mrn, "", 0), |events| + 1);
      assert (events + added)[|events| + 1] == row && added[1] == row && UnwrittenSuccess(row);
    }
  }

  lemma {:induction false} ReadDecides(
    site: Site, addr: Address, version: nat, events: seq<Event>, target: Address, mrn: Mrn, added: seq<Event>)
    requires LandsAt(site, addr, target, mrn) && site.w.granted(mrn)
    requires GateOpens(site.gate(mrn, |events| + 1), site.w.log(|events| + 1)) && site.stored(target, version).Ok?
    requires Revelation(site, addr, version, events).events == events + added
    ensures Revelation(site, addr, version, events).result.Ok? <==>
      ResolvableSecret(site, mrn, site.stored(target, version).value) && AllWritten(added)
  {
    var inner := ReadIsTold(site, addr, version, events, target, mrn);
    var resolved := ResolvableSecret(site, mrn, site.stored(target, version).value) && AllWritten(inner);
    var front := Passed(site, mrn, events) + [Decrypted(mrn)];
    var row := Row(ActionReveal, if resolved then Success else Failure, mrn, "", 0);
    var last := LogRow(site, row, |events + Passed(site, mrn, events) + [Decrypted(mrn)] + inner|);
    assert events + Passed(site, mrn, events) + [Decrypted(mrn)] + inner + [last] == events + (front + inner + [last]);
    assert (events + added)[|events|..] == added;
    assert (events + (front + inner + [last]))[|events|..] == front + inner + [last];
    assert added == front + inner + [last];
    assert AllWritten(front);
    AllWrittenConcat(front, inner, last);
  }

  lemma {:induction false} AllWrittenConcat(front: seq<Event>, inner: seq<Event>, last: Event)
    ensures AllWritten(front + inner + [last]) <==> AllWritten(front) && AllWritten(inner) && !UnwrittenSuccess(last)
  {
    var all := front + inner + [last];
    assert forall e | e in front || e in inner || e == last :: e in all;
    assert forall e | e in all :: e in front || e in inner || e == last;
  }

  // ---------------------------------------------------------------------------
  // A batch, item by item
  // ---------------------------------------------------------------------------

  /** The i-th outcome is that of its own item, revealed on the log the one before it left. */
  ghost predicate Told(
    site: Site, items: seq<Item>, outcomes: seq<Result<Disclosed, AppError>>, logs: seq<seq<Event>>, i: nat)
    requires i < |items| && i < |outcomes| && i + 1 < |logs|
  {
    var one := Revelation(site, items[i].addr, items[i].version, logs[i]);
    outcomes[i] == one.result && one.result != Err(Internal) && logs[i + 1] == one.events
  }

  /**
    Each outcome is told by its own reveal. With an outcome for every item the batch is
    complete; otherwise the next reveal ended in an internal error, which is the batch's.
  */
  ghost predicate BatchTold(
    site: Site, items: seq<Item>, outcomes: seq<Result<Disclosed, AppError>>, aborted: Option<AppError>,
    end: seq<Event>, logs: seq<seq<Event>>)
  {
    var n := |outcomes|;
    && n <= |items| && |logs| == n + 1
    && (forall i: nat | i < n :: Told(site, items, outcomes, logs, i))
    && (if n == |items| then aborted == None && end == logs[n]
        else
          var failed := Revelation(site, items[n].addr, items[n].version, logs[n]);
          aborted == Some(Internal) && failed.result == Err(Internal) && end == failed.events)
  }

  /**
    Each outcome of a batch is that of its own reveal, made after those before it. The
    batch is abandoned exactly at the first reveal that ends in an internal error, with
    that error; any other error is the outcome of its item.
  */
  lemma {:induction false} BatchIsItsReveals(site: Site, items: seq<Item>, events: seq<Event>)
    returns (logs: seq<seq<Event>>)
    ensures var run := Batch(RevealsOf(site), items, [], events);
            BatchTold(site, items, run.outcomes, run.aborted, run.events, logs) && logs[0] == events
  {
    logs := BatchFrom(site, items, [], events);
    var run := Batch(RevealsOf(site), items, [], events);
    assert run.outcomes[0..] == run.outcomes;
  }

  lemma {:induction false} BatchFrom(
    site: Site, items: seq<Item>, done: seq<Result<Disclosed, AppError>>, events: seq<Event>)
    returns (logs: seq<seq<Event>>)
    ensures var run := Batch(RevealsOf(site), items, done, events);
            && done <= run.outcomes
            && BatchTold(site, items, run.outcomes[|done|..], run.aborted, run.events, logs) && logs[0] == events
    decreases |items|
  {
    logs := [events];
    if items != [] {
      var one := Revelation(site, items[0].addr, items[0].version, events);
      assert RevealsOf(site)(items[0].addr, items[0].version, events) == one;
      if one.result != Err(Internal) {
        var more := done + [one.result];
        var rest := BatchFrom(site, items[1..], more, one.events);
        logs := [events] + rest;
        var run := Batch(RevealsOf(site), items, done, events);
        assert run == Batch(RevealsOf(site), items[1..], more, one.events);
        assert run.outcomes[..|more|] == more;
        assert run.outcomes[|done|..] == [one.result] + run.outcomes[|more|..];
        OneMoreTold(site, items, run.outcomes[|more|..], run.aborted, run.events, events, rest);
      }
    }
  }

  lemma {:induction false} OneMoreTold(
    site: Site, items: seq<Item>, outcomes: seq<Result<Disclosed, AppError>>, aborted: Option<AppError>,
    end: seq<Event>, events: seq<Event>, rest: seq<seq<Event>>)
    requires items != []
    requires var one := Revelation(site, items[0].addr, items[0].version, events);
             && one.result != Err(Internal) && BatchTold(site, items[1..], outcomes, aborted, end, rest)
             && rest[0] == one.events
    ensures var one := Revelation(site, items[0].addr, items[0].version, events);
            BatchTold(site, items, [one.result] + outcomes, aborted, end, [events] + rest)
  {
    var all := [Revelation(site, items[0].addr, items[0].version, events).result] + outcomes;
    var logs := [events] + rest;
    forall i: nat | i < |all| ensures Told(site, items, all, logs, i) {
      if i > 0 {
        assert Told(site, items[1..], outcomes, rest, i - 1);
      }
    }
  }
}
