/** What the audited operations do to the outside world, in the order they do it. */
module Audit {
  import opened Results

  type Mrn = string

  datatype Action = ActionReveal | ActionReferenceResolve | ActionLeaseIssue | ActionLeaseRefused

  datatype Outcome = Success | Denied | Failure

  /** One audit row. `referrer` and `hop` are the metadata of a reference row. */
  datatype Row = Row(action: Action, outcome: Outcome, mrn: Mrn, referrer: Mrn, hop: nat)

  /** One effect: a grant check, a decryption, an attempted audit write, a wiped buffer. */
  datatype Event =
    | Guarded(mrn: Mrn, allowed: bool)
    | Decrypted(mrn: Mrn)
    | Audited(row: Row, written: bool)
    | Wiped(mrn: Mrn)

  /** Whether the audit write that would be the n-th effect succeeds. */
  type AuditLog = nat -> bool

  function Write(log: AuditLog, row: Row, events: seq<Event>): seq<Event> {
    events + [Audited(row, log(|events|))]
  }

  /** service.guard: the grant check, and a denial row when it fails. */
  function Guard(log: AuditLog, granted: bool, action: Action, mrn: Mrn, events: seq<Event>): seq<Event> {
    var checked := events + [Guarded(mrn, granted)];
    if granted then checked else Write(log, Row(action, Denied, mrn, "", 0), checked)
  }

  /** The success rows of one action that were written, in order. */
  function SuccessRows(action: Action, events: seq<Event>): (rows: seq<Mrn>) {
    if events == [] then []
    else
      (if events[0].Audited? && events[0].written && events[0].row.outcome == Success && events[0].row.action == action
       then [events[0].row.mrn] else [])
      + SuccessRows(action, events[1..])
  }

  lemma {:induction false} SuccessRowsConcat(action: Action, a: seq<Event>, b: seq<Event>)
    ensures SuccessRows(action, a + b) == SuccessRows(action, a) + SuccessRows(action, b)
    decreases |a|
  {
    if a == [] {
      assert a + b == b;
    } else {
      assert (a + b)[1..] == a[1..] + b;
      SuccessRowsConcat(action, a[1..], b);
    }
  }

  /** Decryptions minus wipes of one secret: the buffers still holding its plaintext. */
  function Held(mrn: Mrn, events: seq<Event>): int {
    if events == [] then 0
    else (if events[0] == Decrypted(mrn) then 1 else if events[0] == Wiped(mrn) then -1 else 0) + Held(mrn, events[1..])
  }

  lemma {:induction false} HeldConcat(mrn: Mrn, a: seq<Event>, b: seq<Event>)
    ensures Held(mrn, a + b) == Held(mrn, a) + Held(mrn, b)
    decreases |a|
  {
    if a == [] {
      assert a + b == b;
    } else {
      assert (a + b)[1..] == a[1..] + b;
      HeldConcat(mrn, a[1..], b);
    }
  }
}
