/**
  The sweep that makes dynamic credentials short-lived (internal/api/dynamic.go,
  internal/store/dynamic.go, internal/storage/dynamic.sql.go). What the target
  database and the configuration answer for a lease is a verdict the model is given.
*/
module Reaper {
  import opened Results

  type LeaseId = nat

  datatype Lease = Lease(expiresAt: int, revokedAt: Option<int>, attempts: nat)

  type Leases = map<LeaseId, Lease>

  /**
    What revoking a lease meets: its tenant is gone; its configuration is missing or
    cannot be rendered; its DSN secret is missing or cannot be read; the target refuses,
    and the refusal is recorded or not; the target drops the account but the row cannot
    be updated; or both are done.
  */
  datatype Verdict = TenantGone | Unrenderable | NoDsn | Refused | RefusedUnrecorded | DroppedUnmarked | Dropped

  const DEFAULT_REAP_BATCH := 25

  datatype ReapReport = ReapReport(due: nat, revoked: nat, failed: nat, skipped: nat)

  predicate Open(leases: Leases, id: LeaseId) {
    id in leases && leases[id].revokedAt == None
  }

  predicate Due(leases: Leases, now: int, id: LeaseId) {
    Open(leases, id) && leases[id].expiresAt <= now
  }

  function DueSet(leases: Leases, now: int): set<LeaseId> {
    set id | id in leases && Due(leases, now, id)
  }

  function Listed(page: seq<LeaseId>): set<LeaseId> {
    set id | id in page
  }

  /** No due lease left out expires before one that is listed. */
  ghost predicate OldestFirst(leases: Leases, now: int, page: seq<LeaseId>) {
    && (forall i | 0 <= i < |page| :: Due(leases, now, page[i]))
    && (forall i, j | 0 <= i < j < |page| ::
       page[i] != page[j] && leases[page[i]].expiresAt <= leases[page[j]].expiresAt)
    && (forall i, id | 0 <= i < |page| && id in DueSet(leases, now) && id !in page ::
       leases[page[i]].expiresAt <= leases[id].expiresAt)
  }

  /** Any answer ListExpiredDynamicLeases may give; ties in expires_at may fall either way. */
  ghost predicate Page(leases: Leases, now: int, limit: nat, page: seq<LeaseId>) {
    && OldestFirst(leases, now, page)
    && |page| == if |DueSet(leases, now)| < limit then |DueSet(leases, now)| else limit
  }

  /** What a verdict does to the row: closed at `now`, one more attempt, or nothing. */
  function Settled(lease: Lease, verdict: Verdict, now: int): Lease {
    if lease.revokedAt.Some? then lease
    else
      match verdict
      case Dropped => lease.(revokedAt := Some(now), attempts := lease.attempts + 1)
      case Refused => lease.(attempts := lease.attempts + 1)
      case _ => lease
  }

  function Reaped(leases: Leases, page: seq<LeaseId>, verdicts: LeaseId -> Verdict, now: int): Leases {
    map id | id in leases :: if id in page then Settled(leases[id], verdicts(id), now) else leases[id]
  }

  /** The listed leases that met one of these verdicts. */
  function Met(page: seq<LeaseId>, verdicts: LeaseId -> Verdict, vs: set<Verdict>): set<LeaseId> {
    set id | id in page && verdicts(id) in vs
  }

  const TRIED_IN_VAIN := {NoDsn, Refused, RefusedUnrecorded, DroppedUnmarked}
  const ATTEMPTED := {Unrenderable, NoDsn, Refused, RefusedUnrecorded, DroppedUnmarked, Dropped}

  lemma MetOneMore(page: seq<LeaseId>, i: nat, verdicts: LeaseId -> Verdict, vs: set<Verdict>)
    requires i < |page| && page[i] !in page[..i]
    ensures |Met(page[..i + 1], verdicts, vs)| ==
      |Met(page[..i], verdicts, vs)| + if verdicts(page[i]) in vs then 1 else 0
  {
    assert page[..i + 1] == page[..i] + [page[i]];
    assert Met(page[..i + 1], verdicts, vs) ==
      Met(page[..i], verdicts, vs) + if verdicts(page[i]) in vs then {page[i]} else {};
  }

  /** The report counts each listed lease once, under what it met. */
  ghost predicate Tallied(report: ReapReport, page: seq<LeaseId>, verdicts: LeaseId -> Verdict) {
    && report.due == report.revoked + report.failed + report.skipped
    && report.due == |Met(page, verdicts, ATTEMPTED)|
    && report.revoked == |Met(page, verdicts, {Dropped})|
    && report.failed == |Met(page, verdicts, TRIED_IN_VAIN)|
    && report.skipped == |Met(page, verdicts, {Unrenderable})|
  }

  function Counted(report: ReapReport, verdict: Verdict): ReapReport {
    match verdict
    case TenantGone => report
    case Unrenderable => report.(due := report.due + 1, skipped := report.skipped + 1)
    case NoDsn | Refused | RefusedUnrecorded | DroppedUnmarked =>
      report.(due := report.due + 1, failed := report.failed + 1)
    case Dropped => report.(due := report.due + 1, revoked := report.revoked + 1)
  }

  lemma TalliedOneMore(report: ReapReport, page: seq<LeaseId>, i: nat, verdicts: LeaseId -> Verdict)
    requires i < |page| && page[i] !in page[..i] && Tallied(report, page[..i], verdicts)
    ensures Tallied(Counted(report, verdicts(page[i])), page[..i + 1], verdicts)
  {
    MetOneMore(page, i, verdicts, ATTEMPTED);
    MetOneMore(page, i, verdicts, {Dropped});
    MetOneMore(page, i, verdicts, TRIED_IN_VAIN);
    MetOneMore(page, i, verdicts, {Unrenderable});
  }

  /** The report of a list of leases, counted one after the other. */
  function Tally(page: seq<LeaseId>, verdicts: LeaseId -> Verdict): ReapReport {
    if page == [] then ReapReport(0, 0, 0, 0)
    else Counted(Tally(page[..|page| - 1], verdicts), verdicts(page[|page| - 1]))
  }

  lemma {:induction false} TallyCounts(page: seq<LeaseId>, verdicts: LeaseId -> Verdict)
    requires forall i | 0 <= i < |page| :: page[i] !in page[..i]
    ensures Tallied(Tally(page, verdicts), page, verdicts)
    decreases |page|
  {
    if page != [] {
      var i := |page| - 1;
      var front := page[..i];
      forall j | 0 <= j < |front| ensures front[j] !in front[..j] {
        assert front[..j] == page[..j];
      }
      TallyCounts(front, verdicts);
      TalliedOneMore(Tally(front, verdicts), page, i, verdicts);
      assert page[..i + 1] == page;
    }
  }

  lemma {:induction false} TallyOneMore(page: seq<LeaseId>, i: nat, verdicts: LeaseId -> Verdict)
    requires i < |page|
    ensures Tally(page[..i + 1], verdicts) == Counted(Tally(page[..i], verdicts), verdicts(page[i]))
  {
    assert page[..i + 1][..i] == page[..i];
  }

  lemma ReapedOneMore(leases: Leases, page: seq<LeaseId>, i: nat, verdicts: LeaseId -> Verdict, now: int)
    requires i < |page| && page[i] in leases && page[i] !in page[..i]
    ensures var before := Reaped(leases, page[..i], verdicts, now);
            && page[i] in before
            && Reaped(leases, page[..i + 1], verdicts, now) ==
               before[page[i] := Settled(before[page[i]], verdicts(page[i]), now)]
            && (verdicts(page[i]) == TenantGone ==> Reaped(leases, page[..i + 1], verdicts, now) == before)
  {
    assert page[..i + 1] == page[..i] + [page[i]];
  }

  lemma AppendOldest(leases: Leases, now: int, page: seq<LeaseId>, rest: set<LeaseId>, id: LeaseId)
    requires OldestFirst(leases, now, page) && rest == DueSet(leases, now) - Listed(page)
    requires id in rest && forall i | i in rest :: i in leases && leases[id].expiresAt <= leases[i].expiresAt
    ensures OldestFirst(leases, now, page + [id])
    ensures rest - {id} == DueSet(leases, now) - Listed(page + [id])
  {
    var longer := page + [id];
    assert Listed(longer) == Listed(page) + {id};
    forall i | 0 <= i < |longer| ensures Due(leases, now, longer[i]) {
      assert i < |page| ==> longer[i] == page[i];
    }
    forall i, other | 0 <= i < |longer| && other in DueSet(leases, now) && other !in longer
      ensures leases[longer[i]].expiresAt <= leases[other].expiresAt
    {
      assert other !in page && other in rest;
      assert i < |page| ==> longer[i] == page[i];
    }
    forall i, j | 0 <= i < j < |longer|
      ensures longer[i] != longer[j] && leases[longer[i]].expiresAt <= leases[longer[j]].expiresAt
    {
      assert longer[i] == page[i] && page[i] in Listed(page);
      assert j < |page| ==> longer[j] == page[j];
    }
  }

  lemma NothingReaped(leases: Leases, verdicts: LeaseId -> Verdict, now: int)
    ensures Reaped(leases, [], verdicts, now) == leases
  {
  }

  lemma PageIsDistinct(leases: Leases, now: int, page: seq<LeaseId>)
    requires OldestFirst(leases, now, page)
    ensures forall i | 0 <= i < |page| :: page[i] in leases && page[i] !in page[..i]
  {
    forall i | 0 <= i < |page| ensures page[i] in leases && page[i] !in page[..i] {
      assert Due(leases, now, page[i]);
      assert forall j | 0 <= j < i :: page[j] != page[i];
    }
  }

  class LeaseStore {
    var leases: Leases

    constructor (leases: Leases)
      ensures this.leases == leases
    {
      this.leases := leases;
    }

    /** ORDER BY expires_at LIMIT: the oldest due lease not yet taken, until the page is full. */
    method ListExpired(now: int, limit: nat) returns (page: seq<LeaseId>)
      ensures Page(leases, now, limit, page)
    {
      page := [];
      var rest := DueSet(leases, now);
      while |page| < limit && rest != {}
        invariant OldestFirst(leases, now, page)
        invariant rest == DueSet(leases, now) - Listed(page)
        invariant |page| <= limit && |page| + |rest| == |DueSet(leases, now)|
        decreases rest
      {
        var id := Oldest(rest);
        AppendOldest(leases, now, page, rest, id);
        page := page + [id];
        rest := rest - {id};
      }
    }

    method Oldest(ids: set<LeaseId>) returns (id: LeaseId)
      requires ids != {} && forall i | i in ids :: i in leases
      ensures id in ids && forall i | i in ids :: leases[id].expiresAt <= leases[i].expiresAt
    {
      id :| id in ids;
      var rest := ids - {id};
      while rest != {}
        invariant id in ids && rest < ids
        invariant forall i | i in ids && i !in rest :: leases[id].expiresAt <= leases[i].expiresAt
        decreases rest
      {
        var next :| next in rest;
        if leases[next].expiresAt < leases[id].expiresAt {
          id := next;
        }
        rest := rest - {next};
      }
    }

    /** revokeDynamicLeaseRow: the row is written last, and only if it is still open. */
    method Revoke(id: LeaseId, verdict: Verdict, now: int) returns (r: Result<(), AppError>)
      modifies this
      ensures leases ==
              if id in old(leases) then old(leases)[id := Settled(old(leases)[id], verdict, now)] else old(leases)
      ensures r.Ok? <==> verdict == Dropped
      ensures r.Err? ==> (verdict == Unrenderable <==> r.error == NotFound || r.error == Validation)
      ensures r == Err(Unavailable) <==> verdict == NoDsn || verdict == Refused
    {
      match verdict {
        case TenantGone | Unrenderable =>
          return if verdict == Unrenderable then Err(Validation) else Err(Internal);
        case NoDsn =>
          return Err(Unavailable);
        case RefusedUnrecorded =>
          return Err(Internal);
        case Refused =>
          if id in leases && leases[id].revokedAt == None {
            leases := leases[id := leases[id].(attempts := leases[id].attempts + 1)];
          }
          return Err(Unavailable);
        case DroppedUnmarked =>
          return Err(Internal);
        case Dropped =>
          if id in leases && leases[id].revokedAt == None {
            leases := leases[id := leases[id].(revokedAt := Some(now), attempts := leases[id].attempts + 1)];
          }
          return Ok(());
      }
    }

    /** One listed lease: attempted, and counted by whether the target was contacted. */
    method ReapOne(id: LeaseId, verdict: Verdict, now: int, before: ReapReport) returns (report: ReapReport)
      requires verdict != TenantGone
      modifies this
      ensures report == Counted(before, verdict)
      ensures leases ==
              if id in old(leases) then old(leases)[id := Settled(old(leases)[id], verdict, now)] else old(leases)
    {
      report := before.(due := before.due + 1);
      var revoked := Revoke(id, verdict, now);
      if revoked.Ok? {
        report := report.(revoked := report.revoked + 1);
      } else if revoked.error == NotFound || revoked.error == Validation {
        report := report.(skipped := report.skipped + 1);
      } else {
        report := report.(failed := report.failed + 1);
      }
    }

    /** The loop over the listed leases. */
    method ReapListed(listed: seq<LeaseId>, now: int, verdicts: LeaseId -> Verdict) returns (report: ReapReport)
      requires forall i | 0 <= i < |listed| :: listed[i] in leases && listed[i] !in listed[..i]
      modifies this
      ensures leases == Reaped(old(leases), listed, verdicts, now)
      ensures Tallied(report, listed, verdicts)
    {
      report := ReapReport(0, 0, 0, 0);
      NothingReaped(leases, verdicts, now);
      assert listed[..0] == [];
      for i := 0 to |listed|
        invariant leases == Reaped(old(leases), listed[..i], verdicts, now)
        invariant report == Tally(listed[..i], verdicts)
      {
        var id := listed[i];
        ReapedOneMore(old(leases), listed, i, verdicts, now);
        TallyOneMore(listed, i, verdicts);
        if verdicts(id) == TenantGone {
          continue;
        }
        report := ReapOne(id, verdicts(id), now, report);
      }
      assert listed[..|listed|] == listed;
      TallyCounts(listed, verdicts);
    }

    /**
      ReapExpiredDynamicLeases. Exactly the listed leases whose account was dropped
      and whose row was written are closed, and every listed lease is counted once.
    */
    method Reap(now: int, limit: int, verdicts: LeaseId -> Verdict)
      returns (report: ReapReport, ghost page: seq<LeaseId>)
      modifies this
      ensures Page(old(leases), now, if limit < 1 then DEFAULT_REAP_BATCH else limit, page)
      ensures leases == Reaped(old(leases), page, verdicts, now)
      ensures Tallied(report, page, verdicts)
    {
      var size := if limit < 1 then DEFAULT_REAP_BATCH else limit;
      var listed := ListExpired(now, size);
      PageIsDistinct(leases, now, listed);
      page := listed;
      report := ReapListed(listed, now, verdicts);
    }
  }

  // ---------------------------------------------------------------------------
  // Runs of passes
  // ---------------------------------------------------------------------------

  /** One pass: the table it found, the page it got, when, and what it met. */
  datatype Pass = Pass(found: Leases, page: seq<LeaseId>, now: int, verdicts: LeaseId -> Verdict)

  function After(p: Pass): Leases {
    Reaped(p.found, p.page, p.verdicts, p.now)
  }

  /** Between passes leases may be revoked by others and new ones issued that expire after `cutoff`. */
  ghost predicate Between(before: Leases, after: Leases, cutoff: int) {
    && (forall id | id in before :: id in after && after[id].expiresAt == before[id].expiresAt
          && (before[id].revokedAt.Some? ==> after[id].revokedAt == before[id].revokedAt))
    && (forall id | id in after && id !in before :: after[id].expiresAt > cutoff)
  }

  ghost predicate Follows(passes: seq<Pass>, i: nat, cutoff: int)
    requires 0 < i < |passes|
  {
    Between(After(passes[i - 1]), passes[i].found, cutoff)
  }

  ghost predicate Legal(passes: seq<Pass>, i: nat, limit: nat, cutoff: int)
    requires i < |passes|
  {
    Page(passes[i].found, passes[i].now, limit, passes[i].page) && passes[i].now >= cutoff
  }

  ghost predicate Passes(passes: seq<Pass>, limit: nat, cutoff: int) {
    && (forall i | 0 <= i < |passes| :: Legal(passes, i, limit, cutoff))
    && (forall i | 0 < i < |passes| :: Follows(passes, i, cutoff))
  }

  /**
    What one pass leaves of each lease. An open one on its page is closed at the time of
    the pass exactly if its account was dropped and that was written down; that and a
    recorded refusal count as an attempt, nothing else does; and no other lease changes.
  */
  lemma PassLeaves(p: Pass, limit: nat, id: LeaseId)
    requires Page(p.found, p.now, limit, p.page) && id in p.found
    ensures id in After(p)
    ensures var was, left, met := p.found[id], After(p)[id], p.verdicts(id);
            if id !in p.page then left == was
            else
              && Due(p.found, p.now, id) && left.expiresAt == was.expiresAt
              && left.revokedAt == (if met == Dropped then Some(p.now) else None)
              && left.attempts == was.attempts + if met in {Dropped, Refused} then 1 else 0
  {
  }

  /** A closed lease is never opened again, and the moment it was closed never changes. */
  lemma {:induction false} RevokedOnce(passes: seq<Pass>, limit: nat, cutoff: int, id: LeaseId)
    requires Passes(passes, limit, cutoff) && passes != []
    requires id in passes[0].found && passes[0].found[id].revokedAt.Some?
    ensures id in After(passes[|passes| - 1])
    ensures After(passes[|passes| - 1])[id].revokedAt == passes[0].found[id].revokedAt
    decreases |passes|
  {
    var k := |passes| - 1;
    if k > 0 {
      FewerPasses(passes, limit, cutoff);
      assert Follows(passes, k, cutoff);
      RevokedOnce(passes[..k], limit, cutoff, id);
      assert passes[..k][|passes[..k]| - 1] == passes[k - 1];
    }
  }

  lemma FewerPasses(passes: seq<Pass>, limit: nat, cutoff: int)
    requires Passes(passes, limit, cutoff) && passes != []
    ensures Passes(passes[..|passes| - 1], limit, cutoff)
  {
    var fewer := passes[..|passes| - 1];
    forall i | 0 <= i < |fewer| ensures Legal(fewer, i, limit, cutoff) {
      assert Legal(passes, i, limit, cutoff);
    }
    forall i | 0 < i < |fewer| ensures Follows(fewer, i, cutoff) {
      assert Follows(passes, i, cutoff);
    }
  }

  /** The leases that were due at the cutoff, are still open, and that nothing refuses. */
  function Waiting(leases: Leases, cutoff: int, refused: set<LeaseId>): set<LeaseId> {
    DueSet(leases, cutoff) - refused
  }

  lemma WaitingShrinks(before: Leases, after: Leases, cutoff: int, refused: set<LeaseId>)
    requires Between(before, after, cutoff)
    ensures Waiting(after, cutoff, refused) <= Waiting(before, cutoff, refused)
  {
  }

  lemma {:induction false} SubsetSize<T>(a: set<T>, b: set<T>)
    requires a <= b
    ensures |a| <= |b|
  {
    if a != {} {
      var x :| x in a;
      SubsetSize(a - {x}, b - {x});
    }
  }

  lemma PageAsSet(page: seq<LeaseId>)
    requires forall i, j | 0 <= i < j < |page| :: page[i] != page[j]
    ensures |Listed(page)| == |page|
    decreases |page|
  {
    if page != [] {
      var front := page[..|page| - 1];
      PageAsSet(front);
      assert page == front + [page[|page| - 1]];
      assert Listed(page) == Listed(front) + {page[|page| - 1]};
    }
  }

  /** What is left waiting was not on the page. */
  lemma LeftWaiting(p: Pass, cutoff: int, refused: set<LeaseId>)
    requires OthersDropped(p, cutoff, refused)
    ensures Waiting(After(p), cutoff, refused) == Waiting(p.found, cutoff, refused) - Listed(p.page)
  {
  }

  /** If a waiting lease is left out, the page is full, and everything on it was due by the cutoff. */
  lemma FullOfTheOldest(p: Pass, limit: nat, cutoff: int, left: LeaseId)
    requires Page(p.found, p.now, limit, p.page) && p.now >= cutoff
    requires Due(p.found, cutoff, left) && left !in p.page
    ensures |Listed(p.page)| == limit && Listed(p.page) <= DueSet(p.found, cutoff)
  {
    var due := DueSet(p.found, p.now);
    PageAsSet(p.page);
    assert left in due;
    assert Listed(p.page) + {left} <= due;
    SubsetSize(Listed(p.page) + {left}, due);
    forall id | id in Listed(p.page) ensures Due(p.found, cutoff, id) {
      var i :| 0 <= i < |p.page| && p.page[i] == id;
      assert p.found[p.page[i]].expiresAt <= p.found[left].expiresAt;
    }
  }

  /** A pass closes every waiting lease, or takes at least limit - f of them. */
  lemma PassDrains(p: Pass, limit: nat, cutoff: int, refused: set<LeaseId>)
    requires Page(p.found, p.now, limit, p.page) && p.now >= cutoff && |refused| < limit
    requires OthersDropped(p, cutoff, refused)
    ensures var w, w' := |Waiting(p.found, cutoff, refused)|, |Waiting(After(p), cutoff, refused)|;
            w' == 0 || w' <= w - (limit - |refused|)
  {
    var waiting := Waiting(p.found, cutoff, refused);
    var listed := Listed(p.page);
    LeftWaiting(p, cutoff, refused);
    if waiting - listed != {} {
      var w :| w in waiting - listed;
      FullOfTheOldest(p, limit, cutoff, w);
      SubsetSize(listed * refused, refused);
      assert |listed| == |listed - refused| + |listed * refused|;
      assert waiting - (waiting - listed) == listed - refused;
    }
  }

  function Backlog(n: int, f: int, limit: int, k: int): int {
    n - f - k * (limit - f)
  }

  /**
    The drain bound. With f leases that keep being refused, f < limit, and every
    other revocation accepted, k passes leave at most n - f - k (limit - f) of the
    leases due at the start, whatever expires later.
  */
  lemma {:induction false} DrainBound(passes: seq<Pass>, limit: nat, cutoff: int, refused: set<LeaseId>)
    requires Passes(passes, limit, cutoff) && passes != [] && |refused| < limit
    requires refused <= DueSet(passes[0].found, cutoff)
    requires AllOthersDropped(passes, cutoff, refused)
    ensures var k := |passes|;
            var left := |Waiting(After(passes[k - 1]), cutoff, refused)|;
            left == 0 || left <= Backlog(|DueSet(passes[0].found, cutoff)|, |refused|, limit, k)
    decreases |passes|
  {
    var k, f, n := |passes|, |refused|, |DueSet(passes[0].found, cutoff)|;
    var last := passes[k - 1];
    LastDrains(passes, limit, cutoff, refused);
    var w, left := |Waiting(last.found, cutoff, refused)|, |Waiting(After(last), cutoff, refused)|;
    if k == 1 {
      AllButRefused(last.found, cutoff, refused);
      OneMorePass(n, f, limit, 1, w, left);
    } else {
      FewerPasses(passes, limit, cutoff);
      FewerDropped(passes, cutoff, refused);
      DrainBound(passes[..k - 1], limit, cutoff, refused);
      NextFinds(passes, limit, cutoff, refused);
      OneMorePass(n, f, limit, k, w, left);
    }
  }

  /** So ceil((n - f) / (limit - f)) passes, or more, close every lease that is not refused. */
  lemma DrainedWithin(passes: seq<Pass>, limit: nat, cutoff: int, refused: set<LeaseId>)
    requires Passes(passes, limit, cutoff) && passes != [] && |refused| < limit
    requires refused <= DueSet(passes[0].found, cutoff)
    requires AllOthersDropped(passes, cutoff, refused)
    requires |passes| >= Ceiling(|DueSet(passes[0].found, cutoff)| - |refused|, limit - |refused|)
    ensures Waiting(After(passes[|passes| - 1]), cutoff, refused) == {}
  {
    DrainBound(passes, limit, cutoff, refused);
    CeilingSuffices(|DueSet(passes[0].found, cutoff)| - |refused|, limit - |refused|, |passes|);
  }

  /** ceil(m / d). */
  function Ceiling(m: int, d: int): int
    requires d > 0
  {
    (m + d - 1) / d
  }

  lemma CeilingSuffices(m: int, d: int, k: int)
    requires d > 0 && k >= Ceiling(m, d)
    ensures k * d >= m
  {
    var c := Ceiling(m, d);
    assert c * d >= m;
    assert (k - c) * d >= 0;
    assert k * d == c * d + (k - c) * d;
  }

  /** Nothing but the refused leases keeps a lease of the backlog from being dropped. */
  ghost predicate AllOthersDropped(passes: seq<Pass>, cutoff: int, refused: set<LeaseId>) {
    forall i | 0 <= i < |passes| :: OthersDropped(passes[i], cutoff, refused)
  }

  ghost predicate OthersDropped(p: Pass, cutoff: int, refused: set<LeaseId>) {
    forall id | id in Waiting(p.found, cutoff, refused) :: p.verdicts(id) == Dropped
  }

  lemma OneMorePass(n: int, f: int, limit: int, k: int, w: nat, left: nat)
    requires f < limit && (w == 0 || w <= Backlog(n, f, limit, k - 1))
    requires left == 0 || left <= w - (limit - f)
    ensures left == 0 || left <= Backlog(n, f, limit, k)
  {
    assert (k - 1) * (limit - f) + (limit - f) == k * (limit - f);
  }

  lemma AllButRefused(leases: Leases, cutoff: int, refused: set<LeaseId>)
    requires refused <= DueSet(leases, cutoff)
    ensures |Waiting(leases, cutoff, refused)| == |DueSet(leases, cutoff)| - |refused|
  {
    assert DueSet(leases, cutoff) == Waiting(leases, cutoff, refused) + refused;
  }

  lemma LastDrains(passes: seq<Pass>, limit: nat, cutoff: int, refused: set<LeaseId>)
    requires Passes(passes, limit, cutoff) && passes != [] && |refused| < limit
      && AllOthersDropped(passes, cutoff, refused)
    ensures var last := passes[|passes| - 1];
            var w, w' := |Waiting(last.found, cutoff, refused)|, |Waiting(After(last), cutoff, refused)|;
            w' == 0 || w' <= w - (limit - |refused|)
  {
    assert Legal(passes, |passes| - 1, limit, cutoff);
    PassDrains(passes[|passes| - 1], limit, cutoff, refused);
  }

  lemma FewerDropped(passes: seq<Pass>, cutoff: int, refused: set<LeaseId>)
    requires AllOthersDropped(passes, cutoff, refused) && passes != []
    ensures AllOthersDropped(passes[..|passes| - 1], cutoff, refused)
  {
  }

  /** The last pass finds no more waiting leases than the pass before it left. */
  lemma NextFinds(passes: seq<Pass>, limit: nat, cutoff: int, refused: set<LeaseId>)
    requires Passes(passes, limit, cutoff) && |passes| > 1
    ensures var k := |passes|;
            var fewer := passes[..k - 1];
            && fewer[0] == passes[0] && fewer[|fewer| - 1] == passes[k - 2]
            && |Waiting(passes[k - 1].found, cutoff, refused)| <= |Waiting(After(passes[k - 2]), cutoff, refused)|
  {
    var k := |passes|;
    assert Follows(passes, k - 1, cutoff);
    WaitingShrinks(After(passes[k - 2]), passes[k - 1].found, cutoff, refused);
    SubsetSize(Waiting(passes[k - 1].found, cutoff, refused), Waiting(After(passes[k - 2]), cutoff, refused));
  }

  /** The lease and those ahead of it are all due, and every one ahead expired earlier. */
  ghost predicate Ahead(leases: Leases, blocked: set<LeaseId>, id: LeaseId, cutoff: int) {
    && Due(leases, cutoff, id) && id !in blocked
    && forall b | b in blocked :: Due(leases, cutoff, b) && leases[b].expiresAt < leases[id].expiresAt
  }

  /** With `limit` due leases ahead of it, a lease is not on the page. */
  lemma NotListed(p: Pass, limit: nat, cutoff: int, blocked: set<LeaseId>, id: LeaseId)
    requires Page(p.found, p.now, limit, p.page) && p.now >= cutoff
    requires |blocked| >= limit && Ahead(p.found, blocked, id, cutoff)
    ensures id !in p.page
  {
    PageAsSet(p.page);
    if blocked <= Listed(p.page) {
      SameSize(blocked, Listed(p.page));
    } else {
      var b :| b in blocked && b !in p.page;
      assert b in DueSet(p.found, p.now);
      forall at | 0 <= at < |p.page| ensures p.page[at] != id {
        assert p.found[p.page[at]].expiresAt <= p.found[b].expiresAt;
      }
    }
  }

  lemma SameSize<T>(a: set<T>, b: set<T>)
    requires a <= b && |a| >= |b|
    ensures a == b
  {
    if a != b {
      assert exists y :: y in b && y !in a;
      var x :| x in b && x !in a;
      SubsetSize(a + {x}, b);
      assert false;
    }
  }

  /** Nobody else closes these leases between two passes. */
  ghost predicate LeftAlone(passes: seq<Pass>, ids: set<LeaseId>) {
    forall i | 0 < i < |passes| :: Unrevoked(passes, i, ids)
  }

  ghost predicate Unrevoked(passes: seq<Pass>, i: nat, ids: set<LeaseId>)
    requires 0 < i < |passes|
  {
    forall b | b in ids && Open(After(passes[i - 1]), b) :: Open(passes[i].found, b)
  }

  ghost predicate NoneDropped(passes: seq<Pass>, ids: set<LeaseId>) {
    forall i | 0 <= i < |passes| :: forall b | b in ids :: passes[i].verdicts(b) != Dropped
  }

  /**
    Why f < limit is needed: once `limit` leases that expired earlier keep failing, in
    whatever way, a lease behind them is never attempted, in any number of passes.
  */
  lemma {:induction false} StarvedBehindFailures(
    passes: seq<Pass>, limit: nat, cutoff: int, blocked: set<LeaseId>, id: LeaseId)
    requires Passes(passes, limit, cutoff) && passes != []
    requires |blocked| >= limit && Ahead(passes[0].found, blocked, id, cutoff)
    requires NoneDropped(passes, blocked) && LeftAlone(passes, blocked + {id})
    ensures Ahead(After(passes[|passes| - 1]), blocked, id, cutoff)
    ensures id !in passes[|passes| - 1].page
    decreases |passes|
  {
    var k := |passes| - 1;
    var last := passes[k];
    if k > 0 {
      FewerPasses(passes, limit, cutoff);
      var fewer := passes[..k];
      assert NoneDropped(fewer, blocked);
      assert LeftAlone(fewer, blocked + {id}) by {
        forall i | 0 < i < |fewer| ensures Unrevoked(fewer, i, blocked + {id}) {
          assert Unrevoked(passes, i, blocked + {id});
        }
      }
      StarvedBehindFailures(fewer, limit, cutoff, blocked, id);
      assert fewer[|fewer| - 1] == passes[k - 1];
      assert Follows(passes, k, cutoff) && Unrevoked(passes, k, blocked + {id});
      StillAhead(After(passes[k - 1]), last.found, cutoff, blocked, id);
    }
    assert Legal(passes, k, limit, cutoff);
    NotListed(last, limit, cutoff, blocked, id);
    assert NoneDropped([last], blocked);
    FailedStayAhead(last, cutoff, blocked, id);
  }

  lemma StillAhead(before: Leases, after: Leases, cutoff: int, blocked: set<LeaseId>, id: LeaseId)
    requires Between(before, after, cutoff) && Ahead(before, blocked, id, cutoff)
    requires forall b | b in blocked + {id} && Open(before, b) :: Open(after, b)
    ensures Ahead(after, blocked, id, cutoff)
  {
    assert Open(before, id) && id in blocked + {id};
    forall b | b in blocked ensures Due(after, cutoff, b) && after[b].expiresAt < after[id].expiresAt {
      assert Open(before, b) && b in blocked + {id};
    }
  }

  lemma FailedStayAhead(p: Pass, cutoff: int, blocked: set<LeaseId>, id: LeaseId)
    requires Ahead(p.found, blocked, id, cutoff) && id !in p.page
    requires forall b | b in blocked :: p.verdicts(b) != Dropped
    ensures Ahead(After(p), blocked, id, cutoff)
  {
  }
}
