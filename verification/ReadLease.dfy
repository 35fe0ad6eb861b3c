/**
  Leased reads of one secret by one requester (internal/lease/lease.go,
  internal/store/leases.go, secret_lease.sql): the decision, the transaction around
  it, and what it bounds over a whole run. Times are in one unit, supplied as inputs.
*/
module ReadLease {
  import opened Results

  const DEFAULT_TTL := 3600

  datatype Policy = Policy(ttl: int, maxTtl: int, maxReads: int) {
    predicate Enabled() {
      ttl > 0
    }

    /** An over-long request is refused rather than clamped, and an absent ceiling is not an unbounded one. */
    function ResolveTTL(requested: int): (r: Result<int, AppError>)
      ensures Enabled() ==> (r.Ok? <==> requested <= 0 || requested <= if maxTtl <= 0 then ttl else maxTtl)
      ensures Enabled() && r.Ok? ==> r.value == if requested <= 0 then ttl else requested
    {
      var standard := if ttl <= 0 then DEFAULT_TTL else ttl;
      if requested <= 0 then Ok(standard)
      else
        var ceiling := if maxTtl <= 0 then standard else maxTtl;
        if requested > ceiling then Err(Validation) else Ok(requested)
    }
  }

  /** A lease no statement has revoked; `maxReads` is the cap as it was when issued, 0 for none. */
  datatype Lease = Lease(expiresAt: int, maxReads: int, readsUsed: nat) {
    /** The reads left, and whether there is a cap at all. */
    function Remaining(): (int, bool) {
      if maxReads <= 0 then (0, false) else (if maxReads < readsUsed then 0 else maxReads - readsUsed, true)
    }
  }

  datatype Decision = Issue | Consume | Supersede | Refuse

  /** Exhaustion refuses exactly while the lease runs, and the secret's own expiry whatever the lease says. */
  function Evaluate(policy: Policy, existing: Option<Lease>, secretExpiresAt: Option<int>, now: int): (d: Decision)
    ensures d == Refuse <==>
      || SecretExpired(policy, secretExpiresAt, now)
      || (policy.Enabled() && existing.Some? && now < existing.value.expiresAt
          && 0 < existing.value.maxReads <= existing.value.readsUsed)
  {
    if !policy.Enabled() then Consume
    else if secretExpiresAt.Some? && secretExpiresAt.value <= now then Refuse
    else if existing.None? then Issue
    else if existing.value.expiresAt <= now then Supersede
    else
      var (remaining, capped) := existing.value.Remaining();
      if capped && remaining <= 0 then Refuse else Consume
  }

  predicate SecretExpired(policy: Policy, secretExpiresAt: Option<int>, now: int) {
    policy.Enabled() && secretExpiresAt.Some? && secretExpiresAt.value <= now
  }

  // ---------------------------------------------------------------------------
  // One authorized read
  // ---------------------------------------------------------------------------

  /** The clocks of one read: the decision's, the issue's, and the database's. */
  datatype Clock = Clock(now: int, issueNow: int, dbNow: int)

  datatype Outcome = Ungoverned | Served(lease: Lease, issued: bool) | Refused | Rejected

  /** ConsumeSecretLease: the cap and the expiry are checked again, by the database's clock. */
  predicate Consumable(lease: Lease, dbNow: int) {
    lease.expiresAt > dbNow && (lease.maxReads <= 0 || lease.readsUsed < lease.maxReads)
  }

  /** The lease the read is to be taken from, and whether it is a new one. */
  function Candidate(policy: Policy, live: Option<Lease>, secretExpiresAt: Option<int>, ttl: int, clock: Clock)
    : Option<(Lease, bool)> {
    match Evaluate(policy, live, secretExpiresAt, clock.now)
    case Refuse => None
    case Issue => Some((Lease(clock.issueNow + ttl, policy.maxReads, 0), true))
    case Supersede => Some((Lease(clock.issueNow + ttl, policy.maxReads, 0), true))
    case Consume => if live.Some? then Some((live.value, false)) else None
  }

  /** One read of a governed secret: what comes back and the lease that is live afterwards. */
  function Authorize(policy: Policy, live: Option<Lease>, secretExpiresAt: Option<int>, ttl: int, clock: Clock)
    : (Outcome, Option<Lease>)
    requires policy.Enabled()
  {
    match Candidate(policy, live, secretExpiresAt, ttl, clock)
    case None => (Refused, live)
    case Some((lease, issued)) =>
      if Consumable(lease, clock.dbNow) then
        var used := lease.(readsUsed := lease.readsUsed + 1);
        (Served(used, issued), Some(used))
      else (Refused, live)
  }

  class LeaseTable {
    var live: Option<Lease>

    constructor ()
      ensures live == None
    {
      live := None;
    }

    /** AuthorizeLeasedRead: one transaction; a refusal leaves no trace in the table. */
    method AuthorizeLeasedRead(policy: Policy, secretExpiresAt: Option<int>, requestedTtl: int, clock: Clock)
      returns (out: Outcome)
      modifies this
      ensures !policy.Enabled() ==> out == Ungoverned && live == old(live)
      ensures policy.Enabled() && policy.ResolveTTL(requestedTtl).Err? ==> out == Rejected && live == old(live)
      ensures policy.Enabled() && policy.ResolveTTL(requestedTtl).Ok? ==>
        (out, live) == Authorize(policy, old(live), secretExpiresAt, policy.ResolveTTL(requestedTtl).value, clock)
    {
      if !policy.Enabled() {
        return Ungoverned;
      }
      var ttl := policy.ResolveTTL(requestedTtl);
      if ttl.Err? {
        return Rejected;
      }
      var before := live;
      var issued := false;
      var decision := Evaluate(policy, live, secretExpiresAt, clock.now);
      if decision == Refuse {
        return Refused;
      }
      if decision == Supersede {
        live := None;
      }
      if decision == Supersede || decision == Issue {
        live := Some(Lease(clock.issueNow + ttl.value, policy.maxReads, 0));
        issued := true;
      }
      if live.Some? && Consumable(live.value, clock.dbNow) {
        live := Some(live.value.(readsUsed := live.value.readsUsed + 1));
        out := Served(live.value, issued);
      } else {
        live := before;
        out := Refused;
      }
    }
  }

  // ---------------------------------------------------------------------------
  // Whole runs
  // ---------------------------------------------------------------------------

  /**
    A read with its resolved lifetime, or the sweep that retires what the database's
    clock calls expired; `at` is when it happens, whatever any clock shows.
  */
  datatype Event = Read(at: int, ttl: int, clock: Clock) | Sweep(at: int, dbNow: int)

  /** How far a clock may be ahead when it lets a lease end, and behind when it lets one begin. */
  datatype Skew = Skew(ahead: nat, behind: nat)

  /** What the skew leaves of a lifetime. */
  function Gap(ttl: int, k: Skew): int {
    ttl - k.ahead - k.behind
  }

  function After(policy: Policy, live: Option<Lease>, secretExpiresAt: Option<int>, e: Event): Option<Lease>
    requires policy.Enabled()
  {
    match e
    case Read(_, ttl, clock) => Authorize(policy, live, secretExpiresAt, ttl, clock).1
    case Sweep(_, dbNow) => if live.Some? && live.value.expiresAt <= dbNow then None else live
  }

  predicate Serves(policy: Policy, live: Option<Lease>, secretExpiresAt: Option<int>, e: Event)
    requires policy.Enabled()
  {
    e.Read? && Authorize(policy, live, secretExpiresAt, e.ttl, e.clock).0.Served?
  }

  /** How many reads of a run are served. */
  function ServedIn(policy: Policy, live: Option<Lease>, secretExpiresAt: Option<int>, events: seq<Event>): nat
    requires policy.Enabled()
    decreases |events|
  {
    if events == [] then 0
    else
      (if Serves(policy, live, secretExpiresAt, events[0]) then 1 else 0)
      + ServedIn(policy, After(policy, live, secretExpiresAt, events[0]), secretExpiresAt, events[1..])
  }

  /**
    Events in their order, from `from` to `until`; no lease is shorter than `shortest`,
    and the clocks are no further off than `k`. Replicas may decide by clocks of their
    own, which need not agree with one another or with the database's.
  */
  ghost predicate Timely(events: seq<Event>, shortest: int, k: Skew, from: int, until: int)
    decreases |events|
  {
    events == [] ||
    (&& from <= events[0].at <= until
     && InTime(events[0], shortest, k)
     && Timely(events[1..], shortest, k, events[0].at, until))
  }

  predicate InTime(e: Event, shortest: int, k: Skew) {
    match e
    case Read(at, ttl, clock) => ttl >= shortest && clock.now <= at + k.ahead && clock.issueNow >= at - k.behind
    case Sweep(at, dbNow) => dbNow <= at + k.ahead
  }

  /** The windows that can still be opened from one moment to another. */
  function Windows(from: int, until: int, shortest: int): nat
    requires shortest > 0
  {
    if from > until then 0 else (until - from) / shortest + 1
  }

  lemma Times(a: nat, b: nat, c: nat)
    requires a <= b
    ensures a * c <= b * c
  {
  }

  lemma QuotientUnique(m: int, d: int, q: int)
    requires d > 0 && q * d <= m < q * d + d
    ensures m / d == q
  {
    var x := m / d;
    assert x * d <= m < x * d + d;
    LessFactor(x, q + 1, d);
    LessFactor(q, x + 1, d);
  }

  lemma WindowsStep(from: int, later: int, until: int, shortest: int)
    requires shortest > 0 && from + shortest <= later && from <= until
    ensures Windows(later, until, shortest) + 1 <= Windows(from, until, shortest)
  {
    if later <= until {
      var q := (until - from - shortest) / shortest;
      assert (q + 1) * shortest == q * shortest + shortest;
      QuotientUnique(until - from, shortest, q + 1);
      WindowsShrink(from + shortest, later, until, shortest);
    }
  }

  lemma WindowsShrink(from: int, later: int, until: int, shortest: int)
    requires shortest > 0 && from <= later
    ensures Windows(later, until, shortest) <= Windows(from, until, shortest)
  {
    if later <= until {
      DivMonotone(until - later, until - from, shortest);
    }
  }

  lemma DivMonotone(a: int, b: int, d: int)
    requires d > 0 && 0 <= a <= b
    ensures a / d <= b / d
  {
    var x, y := a / d, b / d;
    assert x * d <= a && b < y * d + d;
    LessFactor(x, y + 1, d);
  }

  lemma LessFactor(x: int, z: int, d: int)
    requires d > 0 && x * d < z * d
    ensures x < z
  {
    var gap := x - z;
    assert gap * d == x * d - z * d < 0;
  }

  /** What a live lease still allows. */
  function Left(live: Option<Lease>): nat {
    if live.None? || live.value.maxReads < live.value.readsUsed then 0 else live.value.maxReads - live.value.readsUsed
  }

  /** When the next window can open at the earliest: the lease may be ended `ahead` too soon. */
  function NextWindow(live: Option<Lease>, ahead: nat, now: int): int {
    if live.None? || live.value.expiresAt - ahead < now then now else live.value.expiresAt - ahead
  }

  /** The reads a run may still be served; a window opens at most every `gap`. */
  function Allowance(live: Option<Lease>, now: int, until: int, gap: int, ahead: nat, cap: nat): nat
    requires gap > 0
  {
    Left(live) + Windows(NextWindow(live, ahead, now), until, gap) * cap
  }

  /** A read that renews the lease spends one window. */
  lemma RenewalSpends(
    live: Option<Lease>, renewed: Lease, now: int, gap: int, ahead: nat, from: int, until: int, cap: nat)
    requires gap > 0 && from <= now <= until && (live.None? || live.value.expiresAt <= now + ahead)
    requires renewed.expiresAt >= now + gap + ahead && renewed.maxReads == cap > 0 && renewed.readsUsed == 1
    ensures Allowance(Some(renewed), now, until, gap, ahead, cap) + 1 <= Allowance(live, from, until, gap, ahead, cap)
  {
    var w, w' := NextWindow(live, ahead, from), NextWindow(Some(renewed), ahead, now);
    WindowsShrink(w, now, until, gap);
    WindowsStep(now, w', until, gap);
    Times(Windows(w', until, gap) + 1, Windows(w, until, gap), cap);
    assert (Windows(w', until, gap) + 1) * cap == Windows(w', until, gap) * cap + cap;
  }

  /** Anything else opens no window and spends what it takes from the lease. */
  lemma KeepingSpends(
    live: Option<Lease>, next: Option<Lease>, now: int, gap: int, ahead: nat, from: int, until: int, cap: nat,
    served: nat)
    requires gap > 0 && from <= now
    requires Left(next) + served <= Left(live) && NextWindow(live, ahead, from) <= NextWindow(next, ahead, now)
    ensures Allowance(next, now, until, gap, ahead, cap) + served <= Allowance(live, from, until, gap, ahead, cap)
  {
    var w, w' := NextWindow(live, ahead, from), NextWindow(next, ahead, now);
    WindowsShrink(w, w', until, gap);
    Times(Windows(w', until, gap), Windows(w, until, gap), cap);
  }

  /** Every event costs as much of the allowance as it serves. */
  lemma EventSpends(
    policy: Policy, live: Option<Lease>, secretExpiresAt: Option<int>, e: Event, shortest: int, k: Skew, from: int,
    until: int)
    requires policy.Enabled() && policy.maxReads > 0 && Gap(shortest, k) > 0
    requires live.Some? ==> live.value.maxReads == policy.maxReads
    requires from <= e.at <= until && InTime(e, shortest, k)
    ensures var next := After(policy, live, secretExpiresAt, e);
            && (next.Some? ==> next.value.maxReads == policy.maxReads)
            && Allowance(next, e.at, until, Gap(shortest, k), k.ahead, policy.maxReads)
                 + (if Serves(policy, live, secretExpiresAt, e) then 1 else 0)
               <= Allowance(live, from, until, Gap(shortest, k), k.ahead, policy.maxReads)
  {
    var next := After(policy, live, secretExpiresAt, e);
    var served := if Serves(policy, live, secretExpiresAt, e) then 1 else 0;
    if served == 1 && (live.None? || live.value.expiresAt <= e.clock.now) {
      RenewalSpends(live, next.value, e.at, Gap(shortest, k), k.ahead, from, until, policy.maxReads);
    } else {
      KeepingSpends(live, next, e.at, Gap(shortest, k), k.ahead, from, until, policy.maxReads, served);
    }
  }

  lemma {:induction false} RunSpends(
    policy: Policy, live: Option<Lease>, secretExpiresAt: Option<int>, events: seq<Event>,
    shortest: int, k: Skew, from: int, until: int)
    requires policy.Enabled() && policy.maxReads > 0 && Gap(shortest, k) > 0
    requires live.Some? ==> live.value.maxReads == policy.maxReads
    requires Timely(events, shortest, k, from, until)
    ensures ServedIn(policy, live, secretExpiresAt, events)
         <= Allowance(live, from, until, Gap(shortest, k), k.ahead, policy.maxReads)
    decreases |events|
  {
    if events != [] {
      var next := After(policy, live, secretExpiresAt, events[0]);
      EventSpends(policy, live, secretExpiresAt, events[0], shortest, k, from, until);
      RunSpends(policy, next, secretExpiresAt, events[1..], shortest, k, events[0].at, until);
    }
  }

  /**
    What a stolen token is worth: of a run from the first read on, at most
    (floor(D / (TTL - ahead - behind)) + 1) * MaxReads reads are served within D, where
    no clock is more than `ahead` ahead when it ends a lease or more than `behind` behind
    when it begins one. When it serves, the database's clock may show anything. With
    clocks in step that is (floor(D / TTL) + 1) * MaxReads.
  */
  lemma {:induction false} ReadsBounded(
    policy: Policy, secretExpiresAt: Option<int>, events: seq<Event>, shortest: int, k: Skew, start: int, d: nat)
    requires policy.Enabled() && policy.maxReads > 0 && Gap(shortest, k) > 0
    requires Timely(events, shortest, k, start, start + d)
    ensures ServedIn(policy, None, secretExpiresAt, events) <= (d / Gap(shortest, k) + 1) * policy.maxReads
  {
    RunSpends(policy, None, secretExpiresAt, events, shortest, k, start, start + d);
  }

  /** Over any stretch of a run one more window may already be open. */
  lemma {:induction false} ReadsBoundedAnywhere(
    policy: Policy, live: Option<Lease>, secretExpiresAt: Option<int>, events: seq<Event>,
    shortest: int, k: Skew, start: int, d: nat)
    requires policy.Enabled() && policy.maxReads > 0 && Gap(shortest, k) > 0
    requires live.Some? ==> live.value.maxReads == policy.maxReads
    requires Timely(events, shortest, k, start, start + d)
    ensures ServedIn(policy, live, secretExpiresAt, events) <= (d / Gap(shortest, k) + 2) * policy.maxReads
  {
    var gap, first := Gap(shortest, k), NextWindow(live, k.ahead, start);
    RunSpends(policy, live, secretExpiresAt, events, shortest, k, start, start + d);
    WindowsShrink(start, first, start + d, gap);
    Times(Windows(first, start + d, gap), d / gap + 1, policy.maxReads);
    assert (d / gap + 2) * policy.maxReads == (d / gap + 1) * policy.maxReads + policy.maxReads;
  }

  // ---------------------------------------------------------------------------
  // Exhaustion
  // ---------------------------------------------------------------------------

  function AfterAll(policy: Policy, live: Option<Lease>, secretExpiresAt: Option<int>, events: seq<Event>)
    : Option<Lease>
    requires policy.Enabled()
    decreases |events|
  {
    if events == [] then live
    else AfterAll(policy, After(policy, live, secretExpiresAt, events[0]), secretExpiresAt, events[1..])
  }

  /** By the clock that judges the event, the lease still runs. */
  predicate Before(e: Event, expiresAt: int) {
    match e
    case Read(_, _, clock) => clock.now < expiresAt
    case Sweep(_, dbNow) => dbNow < expiresAt
  }

  /**
    An exhausted requester is refused for as long as its lease runs, whatever happens,
    and never for its reads afterwards: the first read at or after the expiry is served
    unless the secret itself has expired or the new lease is over before it is used.
  */
  lemma {:induction false} RefusedUntilExpiry(
    policy: Policy, lease: Lease, secretExpiresAt: Option<int>, events: seq<Event>, later: Event)
    requires policy.Enabled() && 0 < lease.maxReads <= lease.readsUsed
    requires forall i | 0 <= i < |events| :: Before(events[i], lease.expiresAt)
    requires later.Read?
    ensures ServedIn(policy, Some(lease), secretExpiresAt, events) == 0
    ensures Serves(policy, AfterAll(policy, Some(lease), secretExpiresAt, events), secretExpiresAt, later) <==>
      && lease.expiresAt <= later.clock.now
      && !SecretExpired(policy, secretExpiresAt, later.clock.now)
      && later.clock.issueNow + later.ttl > later.clock.dbNow
    decreases |events|
  {
    if events != [] {
      assert Before(events[0], lease.expiresAt);
      assert After(policy, Some(lease), secretExpiresAt, events[0]) == Some(lease);
      assert forall i | 0 <= i < |events[1..]| :: events[1..][i] == events[i + 1];
      RefusedUntilExpiry(policy, lease, secretExpiresAt, events[1..], later);
    }
  }

  // ---------------------------------------------------------------------------
  // When a read is served
  // ---------------------------------------------------------------------------

  /** A lease runs for this read: the clock that decides has not reached its end. */
  predicate Running(live: Option<Lease>, now: int) {
    live.Some? && now < live.value.expiresAt
  }

  /** The lease has a read left; without a cap it always has. */
  predicate HasReadLeft(lease: Lease) {
    lease.maxReads > 0 ==> lease.readsUsed < lease.maxReads
  }

  /**
    A read is served exactly when the secret has not expired and the lease it comes from
    has a read left and is not over by the database's clock. That lease is the running
    one if there is one, with one read more used; else a new one of the lifetime asked for
    and the policy's own cap, with this read used. Either way it is what the next read
    finds, and a read that is not served changes nothing.
  */
  lemma ReadIsServedIff(policy: Policy, live: Option<Lease>, secretExpiresAt: Option<int>, e: Event)
    requires policy.Enabled() && e.Read?
    ensures Serves(policy, live, secretExpiresAt, e) <==>
      && !SecretExpired(policy, secretExpiresAt, e.clock.now)
      && if Running(live, e.clock.now) then HasReadLeft(live.value) && e.clock.dbNow < live.value.expiresAt
         else e.clock.dbNow < e.clock.issueNow + e.ttl
    ensures Serves(policy, live, secretExpiresAt, e) ==>
      var runs := Running(live, e.clock.now);
      var lease := if runs then live.value.(readsUsed := live.value.readsUsed + 1)
                   else Lease(e.clock.issueNow + e.ttl, policy.maxReads, 1);
      && Authorize(policy, live, secretExpiresAt, e.ttl, e.clock).0 == Served(lease, !runs)
      && After(policy, live, secretExpiresAt, e) == Some(lease)
    ensures !Serves(policy, live, secretExpiresAt, e) ==>
      && Authorize(policy, live, secretExpiresAt, e.ttl, e.clock).0 == Refused
      && After(policy, live, secretExpiresAt, e) == live
  {
  }

  predicate Uncapped(live: Option<Lease>) {
    live.Some? ==> live.value.maxReads <= 0
  }

  lemma {:induction false} StaysUncapped(
    policy: Policy, live: Option<Lease>, secretExpiresAt: Option<int>, events: seq<Event>)
    requires policy.Enabled() && policy.maxReads <= 0 && Uncapped(live)
    ensures Uncapped(AfterAll(policy, live, secretExpiresAt, events))
    decreases |events|
  {
    if events != [] {
      StaysUncapped(policy, After(policy, live, secretExpiresAt, events[0]), secretExpiresAt, events[1..]);
    }
  }

  /**
    Without a cap, however many reads a run has had: one more is refused only because the
    secret has expired or the lease it comes from is over by the database's clock.
  */
  lemma {:induction false} UncappedIsNeverExhausted(
    policy: Policy, live: Option<Lease>, secretExpiresAt: Option<int>, events: seq<Event>, later: Event)
    requires policy.Enabled() && policy.maxReads <= 0 && Uncapped(live) && later.Read?
    ensures var then_ := AfterAll(policy, live, secretExpiresAt, events);
            var now := later.clock.now;
            Serves(policy, then_, secretExpiresAt, later) <==>
              && !SecretExpired(policy, secretExpiresAt, now)
              && later.clock.dbNow < if Running(then_, now) then then_.value.expiresAt
                                     else later.clock.issueNow + later.ttl
  {
    StaysUncapped(policy, live, secretExpiresAt, events);
  }

  /** How many events of a run are reads. */
  function ReadsIn(events: seq<Event>): nat {
    if events == [] then 0 else (if events[0].Read? then 1 else 0) + ReadsIn(events[1..])
  }

  /** A read of some lifetime, before the secret expires, with all three clocks right. */
  predicate InStep(e: Event, secretExpiresAt: Option<int>) {
    e.Read? ==>
      && e.ttl > 0 && e.clock == Clock(e.at, e.at, e.at)
      && (secretExpiresAt.Some? ==> e.at < secretExpiresAt.value)
  }

  /** Without a cap and with the clocks in step, every read of every run is served. */
  lemma {:induction false} UncappedServesEveryRead(
    policy: Policy, live: Option<Lease>, secretExpiresAt: Option<int>, events: seq<Event>)
    requires policy.Enabled() && policy.maxReads <= 0 && Uncapped(live)
    requires forall i | 0 <= i < |events| :: InStep(events[i], secretExpiresAt)
    ensures ServedIn(policy, live, secretExpiresAt, events) == ReadsIn(events)
    decreases |events|
  {
    if events != [] {
      assert InStep(events[0], secretExpiresAt);
      StaysUncapped(policy, live, secretExpiresAt, [events[0]]);
      assert forall i | 0 <= i < |events[1..]| :: events[1..][i] == events[i + 1];
      UncappedServesEveryRead(
        policy, After(policy, live, secretExpiresAt, events[0]), secretExpiresAt, events[1..]);
    }
  }

  // ---------------------------------------------------------------------------
  // The bound is met
  // ---------------------------------------------------------------------------

  /** `n` reads at one moment, by a clock `behind` and a database's clock `ahead`. */
  function Burst(ttl: int, k: Skew, at: int, n: nat): seq<Event> {
    seq(n, i => OneRead(ttl, k, at))
  }

  function OneRead(ttl: int, k: Skew, at: int): Event {
    Read(at, ttl, Clock(at - k.behind, at - k.behind, at + k.ahead))
  }

  /** The sweep at the moment the database's clock takes the lease for expired, and a full burst. */
  function Window(ttl: int, k: Skew, at: int, cap: nat): seq<Event> {
    [Sweep(at, at + k.ahead)] + Burst(ttl, k, at, cap)
  }

  /** n + 1 such windows, one every gap. */
  function Greedy(ttl: int, k: Skew, at: int, cap: nat, n: nat): seq<Event>
    decreases n
  {
    Window(ttl, k, at, cap) + if n == 0 then [] else Greedy(ttl, k, at + Gap(ttl, k), cap, n - 1)
  }

  lemma {:induction false} BurstServes(policy: Policy, lease: Lease, k: Skew, at: int, n: nat, rest: seq<Event>)
    requires policy.Enabled() && lease.maxReads == policy.maxReads > 0 && at + k.ahead < lease.expiresAt
    requires lease.readsUsed + n <= lease.maxReads
    ensures ServedIn(policy, Some(lease), None, Burst(policy.ttl, k, at, n) + rest)
         == n + ServedIn(policy, Some(lease.(readsUsed := lease.readsUsed + n)), None, rest)
    decreases n
  {
    var events := Burst(policy.ttl, k, at, n) + rest;
    if n == 0 {
      assert events == rest;
    } else {
      var used := lease.(readsUsed := lease.readsUsed + 1);
      assert events[0] == OneRead(policy.ttl, k, at) && events[1..] == Burst(policy.ttl, k, at, n - 1) + rest;
      assert After(policy, Some(lease), None, events[0]) == Some(used);
      BurstServes(policy, used, k, at, n - 1, rest);
    }
  }

  /** The lease a window at this moment leaves, with its reads used up. */
  function Spent(policy: Policy, k: Skew, at: int): Lease
    requires policy.maxReads > 0
  {
    Lease(at - k.behind + policy.ttl, policy.maxReads, policy.maxReads)
  }

  lemma {:induction false} GreedyServes(policy: Policy, live: Option<Lease>, k: Skew, at: int, n: nat)
    requires policy.Enabled() && policy.maxReads > 0 && Gap(policy.ttl, k) > 0
    requires live.None? || live.value.expiresAt <= at + k.ahead
    ensures ServedIn(policy, live, None, Greedy(policy.ttl, k, at, policy.maxReads, n)) == (n + 1) * policy.maxReads
    decreases n
  {
    var next := at + Gap(policy.ttl, k);
    var rest := if n == 0 then [] else Greedy(policy.ttl, k, next, policy.maxReads, n - 1);
    WindowServes(policy, live, k, at, rest);
    if n > 0 {
      GreedyServes(policy, Some(Spent(policy, k, at)), k, next, n - 1);
    }
    OneMoreWindow(n, policy.maxReads);
  }

  lemma OneMoreWindow(n: nat, cap: nat)
    ensures (n + 1) * cap == n * cap + cap
  {
  }

  lemma {:induction false} WindowServes(policy: Policy, live: Option<Lease>, k: Skew, at: int, rest: seq<Event>)
    requires policy.Enabled() && policy.maxReads > 0 && Gap(policy.ttl, k) > 0
    requires live.None? || live.value.expiresAt <= at + k.ahead
    ensures ServedIn(policy, live, None, Window(policy.ttl, k, at, policy.maxReads) + rest)
         == policy.maxReads + ServedIn(policy, Some(Spent(policy, k, at)), None, rest)
  {
    var events := Window(policy.ttl, k, at, policy.maxReads) + rest;
    assert events[0] == Sweep(at, at + k.ahead) && events[1..] == Burst(policy.ttl, k, at, policy.maxReads) + rest;
    ServedStep(policy, live, None, events);
    FirstOfBurst(policy, k, at, rest);
    BurstServes(policy, Spent(policy, k, at).(readsUsed := 1), k, at, policy.maxReads - 1, rest);
  }

  /** Where no lease is left, a read opens a window and is served from it. */
  lemma FirstReadServed(policy: Policy, k: Skew, at: int)
    requires policy.Enabled() && policy.maxReads > 0 && Gap(policy.ttl, k) > 0
    ensures var e := OneRead(policy.ttl, k, at);
            && Serves(policy, None, None, e)
            && After(policy, None, None, e) == Some(Spent(policy, k, at).(readsUsed := 1))
  {
  }

  lemma {:induction false} FirstOfBurst(policy: Policy, k: Skew, at: int, rest: seq<Event>)
    requires policy.Enabled() && policy.maxReads > 0 && Gap(policy.ttl, k) > 0
    ensures ServedIn(policy, None, None, Burst(policy.ttl, k, at, policy.maxReads) + rest)
         == 1 + ServedIn(policy, Some(Spent(policy, k, at).(readsUsed := 1)), None,
                         Burst(policy.ttl, k, at, policy.maxReads - 1) + rest)
  {
    var events := Burst(policy.ttl, k, at, policy.maxReads) + rest;
    FirstReadServed(policy, k, at);
    assert events[0] == OneRead(policy.ttl, k, at);
    assert events[1..] == Burst(policy.ttl, k, at, policy.maxReads - 1) + rest;
    ServedStep(policy, None, None, events);
  }

  lemma {:induction false} ServedStep(
    policy: Policy, live: Option<Lease>, secretExpiresAt: Option<int>, events: seq<Event>)
    requires policy.Enabled() && events != []
    ensures ServedIn(policy, live, secretExpiresAt, events)
         == (if Serves(policy, live, secretExpiresAt, events[0]) then 1 else 0)
            + ServedIn(policy, After(policy, live, secretExpiresAt, events[0]), secretExpiresAt, events[1..])
  {
  }

  lemma {:induction false} BurstTimely(ttl: int, k: Skew, at: int, n: nat, rest: seq<Event>, until: int)
    requires at <= until && Timely(rest, ttl, k, at, until)
    ensures Timely(Burst(ttl, k, at, n) + rest, ttl, k, at, until)
    decreases n
  {
    var events := Burst(ttl, k, at, n) + rest;
    if n == 0 {
      assert events == rest;
    } else {
      assert events[1..] == Burst(ttl, k, at, n - 1) + rest;
      BurstTimely(ttl, k, at, n - 1, rest, until);
    }
  }

  lemma {:induction false} EarlierStart(events: seq<Event>, shortest: int, k: Skew, from: int, later: int, until: int)
    requires from <= later && Timely(events, shortest, k, later, until)
    ensures Timely(events, shortest, k, from, until)
  {
  }

  lemma WindowsFit(at: int, gap: int, n: nat, until: int)
    requires gap > 0 && at + n * gap <= until
    ensures at <= until && (n > 0 ==> at + gap + (n - 1) * gap <= until)
  {
    Times(0, n, gap);
    assert n > 0 ==> gap + (n - 1) * gap == n * gap;
  }

  lemma {:induction false} GreedyTimely(ttl: int, k: Skew, at: int, cap: nat, n: nat, until: int)
    requires Gap(ttl, k) > 0 && at + n * Gap(ttl, k) <= until
    ensures Timely(Greedy(ttl, k, at, cap, n), ttl, k, at, until)
    decreases n
  {
    var gap := Gap(ttl, k);
    var rest := if n == 0 then [] else Greedy(ttl, k, at + gap, cap, n - 1);
    WindowsFit(at, gap, n, until);
    if n > 0 {
      GreedyTimely(ttl, k, at + gap, cap, n - 1, until);
      EarlierStart(rest, ttl, k, at, at + gap, until);
    }
    BurstTimely(ttl, k, at, cap, rest, until);
    SweepIsTimely(Burst(ttl, k, at, cap) + rest, ttl, k, at, until);
    assert Greedy(ttl, k, at, cap, n) == [Sweep(at, at + k.ahead)] + (Burst(ttl, k, at, cap) + rest);
  }

  lemma {:induction false} SweepIsTimely(events: seq<Event>, shortest: int, k: Skew, at: int, until: int)
    requires at <= until && Timely(events, shortest, k, at, until)
    ensures Timely([Sweep(at, at + k.ahead)] + events, shortest, k, at, until)
  {
    assert ([Sweep(at, at + k.ahead)] + events)[1..] == events;
  }

  /**
    No smaller bound would do: with the database's clock `ahead` and every replica's
    `behind` all the time, a requester that reads as fast as it can is served exactly
    this often. In step that is a full window every TTL.
  */
  lemma BoundIsMet(policy: Policy, k: Skew, start: int, d: nat) returns (events: seq<Event>)
    requires policy.Enabled() && policy.maxReads > 0 && Gap(policy.ttl, k) > 0
    ensures Timely(events, policy.ttl, k, start, start + d)
    ensures AllOffBy(events, k)
    ensures ServedIn(policy, None, None, events) == (d / Gap(policy.ttl, k) + 1) * policy.maxReads
  {
    var n := d / Gap(policy.ttl, k);
    events := Greedy(policy.ttl, k, start, policy.maxReads, n);
    assert n * Gap(policy.ttl, k) <= d;
    GreedyTimely(policy.ttl, k, start, policy.maxReads, n, start + d);
    GreedyServes(policy, None, k, start, n);
    GreedyOffBy(policy.ttl, k, start, policy.maxReads, n);
  }

  ghost predicate AllOffBy(events: seq<Event>, k: Skew) {
    forall i | 0 <= i < |events| :: OffBy(events[i], k)
  }

  predicate OffBy(e: Event, k: Skew) {
    match e
    case Read(at, _, clock) => clock == Clock(at - k.behind, at - k.behind, at + k.ahead)
    case Sweep(at, dbNow) => dbNow == at + k.ahead
  }

  lemma {:induction false} GreedyOffBy(ttl: int, k: Skew, at: int, cap: nat, n: nat)
    ensures AllOffBy(Greedy(ttl, k, at, cap, n), k)
    decreases n
  {
    var rest := if n == 0 then [] else Greedy(ttl, k, at + Gap(ttl, k), cap, n - 1);
    if n > 0 {
      GreedyOffBy(ttl, k, at + Gap(ttl, k), cap, n - 1);
    }
    OffByConcat(Window(ttl, k, at, cap), rest, k);
  }

  lemma OffByConcat(xs: seq<Event>, ys: seq<Event>, k: Skew)
    requires AllOffBy(xs, k) && AllOffBy(ys, k)
    ensures AllOffBy(xs + ys, k)
  {
  }

  /**
    The bound for clocks in step fails as soon as they are not: with a cap of 1, a
    lifetime of 100, and the database's clock ahead and the replicas' behind by 90 in
    all, two reads are served within 10.
  */
  lemma UnskewedBoundFails(k: Skew) returns (policy: Policy, events: seq<Event>)
    requires k.ahead + k.behind == 90
    ensures policy == Policy(100, 0, 1) && Timely(events, 100, k, 0, 10) && AllOffBy(events, k)
    ensures ServedIn(policy, None, None, events) == 2 > (10 / 100 + 1) * policy.maxReads
  {
    policy := Policy(100, 0, 1);
    events := BoundIsMet(policy, k, 0, 10);
  }

  /**
    Nor does it take a sweep: of two replicas, one decides by a clock 90 ahead and
    supersedes the lease the other has just issued.
  */
  lemma FastReplicaSupersedes() returns (events: seq<Event>)
    ensures events == [Read(0, 100, Clock(0, 0, 0)), Read(10, 100, Clock(100, 100, 10))]
    ensures Timely(events, 100, Skew(90, 0), 0, 10) && ServedIn(Policy(100, 0, 1), None, None, events) == 2
  {
    var first, second := Read(0, 100, Clock(0, 0, 0)), Read(10, 100, Clock(100, 100, 10));
    events := [first, second];
    var policy, lease := Policy(100, 0, 1), Lease(100, 1, 1);
    assert events[1..] == [second] && [second][1..] == [];
    assert Serves(policy, None, None, first) && After(policy, None, None, first) == Some(lease);
    assert Serves(policy, Some(lease), None, second);
    ServedStep(policy, None, None, events);
    ServedStep(policy, Some(lease), None, [second]);
  }
}
