/**
  The life of a dynamic credential across two databases, one small step at a time
  (internal/store/dynamic.go, internal/api/dynamic.go, internal/storage/dynamic.sql.go).
  The lease row is in this database and the account in the target; no transaction
  spans both, and a process may stop between any two steps.

  A lease and its account share an id, as db_role_name is generated once per lease.
*/
module DynamicLifecycle {
  import opened Results

  type Id = nat
  type RoleId = nat
  type TenantId = nat
  type ProjectId = nat
  type RevokeId = nat
  type UpdateId = nat

  /**
    `dsn` says whether the secret its dsn_secret_ref names can be read, and `tolerant`
    whether its revocation template, as it is stored now, goes through when the account
    is gone already (IF EXISTS).
  */
  datatype Role = Role(
    tenant: TenantId, project: ProjectId, deleted: bool, active: bool, dsn: bool, tolerant: bool)

  datatype LeaseRow = LeaseRow(role: RoleId, revokedAt: Option<int>)

  /** An issue inside its local transaction: the row is inserted but not committed. */
  datatype Issue = Inserted(role: RoleId) | Created(role: RoleId) | Committed(role: RoleId)

  /**
    A revocation under way: it has read the open row, has the template as it was stored
    when it read the role, holds the DSN as well, or has the target's word for the drop.
  */
  datatype Revocation =
    | Found(id: Id)
    | Configured(id: Id, tolerant: bool)
    | Resolved(id: Id, tolerant: bool)
    | Confirmed(id: Id)

  /**
    `updates` are the role updates that have found their role and have yet to write it,
    `dropped` the accounts whose drop the target confirmed to somebody, `counted` the
    roles somebody saw without open leases, `lost` the accounts whose local commit, or
    whose target's answer, never came.
  */
  datatype State = State(
    tenants: set<TenantId>,
    projects: set<ProjectId>,
    roles: map<RoleId, Role>,
    leases: map<Id, LeaseRow>,
    accounts: set<Id>,
    issues: map<Id, Issue>,
    revocations: map<RevokeId, Revocation>,
    updates: map<UpdateId, RoleId>,
    dropped: set<Id>,
    counted: set<RoleId>,
    lost: set<Id>,
    used: set<Id>)

  datatype Step =
    | BeginIssue(id: Id, role: RoleId)
    | CreateAccount(id: Id)
    | CreateRefused(id: Id)
    | CreateUnanswered(id: Id)
    | Commit(id: Id)
    | CommitFails(id: Id)
    | AuditWritten(id: Id)
    | AuditFails(id: Id)
    | BeginRevoke(who: RevokeId, id: Id)
    | ReadRole(who: RevokeId)
    | Resolve(who: RevokeId)
    | Drop(who: RevokeId)
    | DropUnanswered(who: RevokeId)
    | Mark(who: RevokeId, now: int)
    | GiveUp(who: RevokeId)
    | CountLive(role: RoleId)
    | SoftDeleteRole(role: RoleId)
    | BeginUpdate(update: UpdateId, role: RoleId)
    | UpdateRole(update: UpdateId, active: bool, tolerant: bool)
    | SetDsn(role: RoleId, readable: bool)
    | EraseTenant(tenant: TenantId)
    | EraseProject(project: ProjectId)

  predicate IsOpen(s: State, id: Id) {
    id in s.leases && s.leases[id].revokedAt == None
  }

  predicate HasLive(s: State, role: RoleId) {
    exists id | id in s.leases :: IsOpen(s, id) && s.leases[id].role == role
  }

  predicate Deleted(s: State, role: RoleId) {
    role in s.roles && s.roles[role].deleted
  }

  predicate TenantLives(s: State, role: RoleId) {
    role in s.roles && s.roles[role].tenant in s.tenants
  }

  /** Found by its name: the tenant and the project live and the role is undeleted. */
  predicate Manageable(s: State, role: RoleId) {
    TenantLives(s, role) && s.roles[role].project in s.projects && !Deleted(s, role)
  }

  /** What issuing against a role meets before anything is written. */
  function IssueRefusal(s: State, role: RoleId): Option<AppError> {
    if !Manageable(s, role) then Some(NotFound)
    else if !s.roles[role].active then Some(Forbidden)
    else if !s.roles[role].dsn then Some(Unavailable)
    else None
  }

  /**
    An issue is refused unless the role and all it hangs on are there, it is active and
    its DSN can be read; a missing role is told before a disabled one, and that before a
    DSN that cannot be read.
  */
  lemma IssueRefusedIff(s: State, role: RoleId)
    ensures IssueRefusal(s, role) == None <==>
      && role in s.roles && s.roles[role].tenant in s.tenants && s.roles[role].project in s.projects
      && !s.roles[role].deleted && s.roles[role].active && s.roles[role].dsn
    ensures IssueRefusal(s, role) == Some(NotFound) <==>
      || role !in s.roles || s.roles[role].deleted
      || s.roles[role].tenant !in s.tenants || s.roles[role].project !in s.projects
    ensures IssueRefusal(s, role).Some? && IssueRefusal(s, role) != Some(NotFound) ==>
      role in s.roles && IssueRefusal(s, role) == Some(if s.roles[role].active then Unavailable else Forbidden)
  {
  }

  /** The revocation can read its DSN; whether the role is deleted is not asked. */
  predicate Resolvable(s: State, id: Id) {
    id in s.leases && TenantLives(s, s.leases[id].role) && s.roles[s.leases[id].role].dsn
  }

  /** The target carries the template out: the account is there to be dropped, or its absence is tolerated. */
  predicate Droppable(s: State, id: Id, tolerant: bool) {
    id in s.accounts || tolerant
  }

  predicate ToleratesNow(s: State, id: Id) {
    id in s.leases && s.leases[id].role in s.roles && s.roles[s.leases[id].role].tolerant
  }

  predicate WouldDrop(s: State, who: RevokeId) {
    && who in s.revocations && s.revocations[who].Resolved?
    && Droppable(s, s.revocations[who].id, s.revocations[who].tolerant)
  }

  predicate Enabled(s: State, step: Step) {
    match step
    case BeginIssue(id, role) => id !in s.used && IssueRefusal(s, role) == None
    case CreateAccount(id) => id in s.issues && s.issues[id].Inserted?
    case CreateRefused(id) => id in s.issues && s.issues[id].Inserted?
    case CreateUnanswered(id) => id in s.issues && s.issues[id].Inserted?
    case Commit(id) => id in s.issues && s.issues[id].Created?
    case CommitFails(id) => id in s.issues && s.issues[id].Created?
    case AuditWritten(id) => id in s.issues && s.issues[id].Committed?
    case AuditFails(id) => id in s.issues && s.issues[id].Committed?
    case BeginRevoke(who, id) => who !in s.revocations && IsOpen(s, id) && TenantLives(s, s.leases[id].role)
    case ReadRole(who) => who in s.revocations && s.revocations[who].Found?
    case Resolve(who) => who in s.revocations && s.revocations[who].Configured? && Resolvable(s, s.revocations[who].id)
    case Drop(who) => WouldDrop(s, who)
    case DropUnanswered(who) => WouldDrop(s, who)
    case Mark(who, _) => who in s.revocations && s.revocations[who].Confirmed?
    case GiveUp(who) => who in s.revocations
    case CountLive(role) => Manageable(s, role) && !HasLive(s, role)
    case SoftDeleteRole(role) => role in s.counted && role in s.roles
    case BeginUpdate(update, role) => update !in s.updates && Manageable(s, role)
    case UpdateRole(update, _, _) => update in s.updates && s.updates[update] in s.roles
    case SetDsn(role, _) => TenantLives(s, role)
    case EraseTenant(tenant) => tenant in s.tenants
    case EraseProject(project) => project in s.projects
  }

  function Apply(s: State, step: Step): State
    requires Enabled(s, step)
  {
    match step
    case BeginIssue(id, role) => s.(issues := s.issues[id := Inserted(role)], used := s.used + {id})
    case CreateAccount(id) => s.(accounts := s.accounts + {id}, issues := s.issues[id := Created(s.issues[id].role)])
    case CreateRefused(id) => s.(issues := s.issues - {id})
    case CreateUnanswered(id) => s.(accounts := s.accounts + {id}, issues := s.issues - {id}, lost := s.lost + {id})
    case Commit(id) =>
      var role := s.issues[id].role;
      s.(leases := s.leases[id := LeaseRow(role, None)], issues := s.issues[id := Committed(role)])
    case CommitFails(id) => s.(issues := s.issues - {id}, lost := s.lost + {id})
    case AuditWritten(id) => s.(issues := s.issues - {id})
    case AuditFails(id) => s.(issues := s.issues - {id})
    case BeginRevoke(who, id) => s.(revocations := s.revocations[who := Found(id)])
    case ReadRole(who) =>
      var id := s.revocations[who].id;
      s.(revocations := s.revocations[who := Configured(id, ToleratesNow(s, id))])
    case Resolve(who) =>
      var Configured(id, tolerant) := s.revocations[who];
      s.(revocations := s.revocations[who := Resolved(id, tolerant)])
    case Drop(who) =>
      var id := s.revocations[who].id;
      s.(accounts := s.accounts - {id}, dropped := s.dropped + {id}, revocations := s.revocations[who := Confirmed(id)])
    case DropUnanswered(who) =>
      s.(accounts := s.accounts - {s.revocations[who].id}, revocations := s.revocations - {who})
    case Mark(who, now) =>
      var id := s.revocations[who].id;
      var marked := if IsOpen(s, id) then s.leases[id := s.leases[id].(revokedAt := Some(now))] else s.leases;
      s.(leases := marked, revocations := s.revocations - {who})
    case GiveUp(who) => s.(revocations := s.revocations - {who})
    case CountLive(role) => s.(counted := s.counted + {role})
    case SoftDeleteRole(role) => s.(roles := s.roles[role := s.roles[role].(deleted := true)])
    case BeginUpdate(update, role) => s.(updates := s.updates[update := role])
    case UpdateRole(update, active, tolerant) =>
      var role := s.updates[update];
      var updated :=
        if Deleted(s, role) then s.roles else s.roles[role := s.roles[role].(active := active, tolerant := tolerant)];
      s.(roles := updated, updates := s.updates - {update})
    case SetDsn(role, readable) => s.(roles := s.roles[role := s.roles[role].(dsn := readable)])
    case EraseTenant(tenant) => s.(tenants := s.tenants - {tenant})
    case EraseProject(project) => s.(projects := s.projects - {project})
  }

  predicate Run(start: State, steps: seq<Step>, end: State)
    decreases |steps|
  {
    if steps == [] then end == start
    else Enabled(start, steps[0]) && Run(Apply(start, steps[0]), steps[1..], end)
  }

  function Start(tenants: set<TenantId>, projects: set<ProjectId>, roles: map<RoleId, Role>): State {
    State(tenants, projects, roles, map[], {}, map[], map[], map[], {}, {}, {}, {})
  }

  // ---------------------------------------------------------------------------
  // Every account is accounted for
  // ---------------------------------------------------------------------------

  predicate BeingCreated(s: State, id: Id) {
    id in s.issues && s.issues[id].Created?
  }

  ghost predicate Inv(s: State) {
    AccountsInv(s) && IssuesInv(s) && RevocationsInv(s) && RolesInv(s)
  }

  ghost predicate AccountsInv(s: State) {
    && (forall id | id in s.accounts :: id in s.used && (IsOpen(s, id) || BeingCreated(s, id) || id in s.lost))
    && (forall id | id in s.dropped :: id in s.leases && id !in s.accounts)
    && (forall id | id in s.leases && s.leases[id].revokedAt.Some? :: id in s.dropped)
    && (forall id | id in s.lost :: id in s.used && id !in s.leases && id !in s.issues && id in s.accounts)
  }

  ghost predicate IssuesInv(s: State) {
    && (forall id | id in s.leases :: id in s.used)
    && (forall id | id in s.issues :: id in s.used && (s.issues[id].Committed? <==> id in s.leases))
    && (forall id | id in s.issues :: s.issues[id].Created? ==> id in s.accounts)
  }

  ghost predicate RevocationsInv(s: State) {
    forall who | who in s.revocations :: Sound(s, s.revocations[who])
  }

  ghost predicate Sound(s: State, r: Revocation) {
    r.id in s.leases && (r.Confirmed? ==> r.id in s.dropped)
  }

  ghost predicate RolesInv(s: State) {
    && (forall id | id in s.leases :: s.leases[id].role in s.roles)
    && (forall id | id in s.issues :: s.issues[id].role in s.roles)
    && (forall update | update in s.updates :: s.updates[update] in s.roles)
  }

  predicate Settles(step: Step) {
    step.Drop? || step.DropUnanswered? || step.Mark?
  }

  lemma StepKeepsAccounts(s: State, step: Step)
    requires Inv(s) && Enabled(s, step)
    ensures AccountsInv(Apply(s, step))
  {
    if Settles(step) {
      SettlingKeepsAccounts(s, step);
    } else {
      IssuingKeepsAccounts(s, step);
    }
  }

  lemma SettlingKeepsAccounts(s: State, step: Step)
    requires Inv(s) && Enabled(s, step) && Settles(step)
    ensures AccountsInv(Apply(s, step))
  {
    assert Sound(s, s.revocations[step.who]);
  }

  lemma IssuingKeepsAccounts(s: State, step: Step)
    requires AccountsInv(s) && IssuesInv(s) && Enabled(s, step) && !Settles(step)
    ensures AccountsInv(Apply(s, step))
  {
  }

  lemma StepKeepsIssues(s: State, step: Step)
    requires Inv(s) && Enabled(s, step)
    ensures IssuesInv(Apply(s, step))
  {
    if Settles(step) {
      assert Sound(s, s.revocations[step.who]);
    }
  }

  lemma StepKeepsRoles(s: State, step: Step)
    requires RolesInv(s) && Enabled(s, step)
    ensures RolesInv(Apply(s, step))
  {
  }

  lemma StepKeepsRevocations(s: State, step: Step)
    requires Inv(s) && Enabled(s, step)
    ensures RevocationsInv(Apply(s, step))
  {
    var next := Apply(s, step);
    assert s.leases.Keys <= next.leases.Keys && s.dropped <= next.dropped;
    forall who | who in next.revocations ensures Sound(next, next.revocations[who]) {
      assert who in s.revocations ==> Sound(s, s.revocations[who]);
    }
  }

  lemma StepKeepsInv(s: State, step: Step)
    requires Inv(s) && Enabled(s, step)
    ensures Inv(Apply(s, step))
  {
    StepKeepsAccounts(s, step);
    StepKeepsIssues(s, step);
    StepKeepsRoles(s, step);
    StepKeepsRevocations(s, step);
  }

  lemma {:induction false} RunKeepsInv(start: State, steps: seq<Step>, end: State)
    requires Inv(start) && Run(start, steps, end)
    ensures Inv(end)
    decreases |steps|
  {
    if steps != [] {
      StepKeepsInv(start, steps[0]);
      RunKeepsInv(Apply(start, steps[0]), steps[1..], end);
    }
  }

  /** In every interleaving: an account with neither an open lease nor a commit pending is a lost one, and only that. */
  lemma {:induction false} UnaccountedIffLost(
    tenants: set<TenantId>, projects: set<ProjectId>, roles: map<RoleId, Role>, steps: seq<Step>, s: State, id: Id)
    requires Run(Start(tenants, projects, roles), steps, s)
    ensures id in s.accounts && !IsOpen(s, id) && !BeingCreated(s, id) <==> id in s.lost
  {
    RunKeepsInv(Start(tenants, projects, roles), steps, s);
  }

  /** Once a lease exists its account is gone or the lease is open: an issue abandoned on an audit failure included. */
  lemma {:induction false} LeasedAccountGoneOrOpen(
    tenants: set<TenantId>, projects: set<ProjectId>, roles: map<RoleId, Role>, steps: seq<Step>, s: State, id: Id)
    requires Run(Start(tenants, projects, roles), steps, s) && id in s.leases
    ensures id !in s.accounts || IsOpen(s, id)
  {
    RunKeepsInv(Start(tenants, projects, roles), steps, s);
  }

  predicate LosesAccount(step: Step, id: Id) {
    step == CommitFails(id) || step == CreateUnanswered(id)
  }

  /** What one step loses. */
  lemma StepLoses(s: State, step: Step, id: Id)
    requires Inv(s) && Enabled(s, step)
    ensures id in Apply(s, step).lost <==> id in s.lost || LosesAccount(step, id)
    ensures id in s.lost ==> id in Apply(s, step).accounts
  {
  }

  /**
    An account is lost in exactly two ways, at any point of a run: a local commit that
    fails after the target's succeeded, or a target that commits without its answer
    arriving.
  */
  lemma {:induction false} LostIff(start: State, steps: seq<Step>, s: State, id: Id)
    requires Inv(start) && start.lost == {} && Run(start, steps, s)
    ensures id in s.lost <==> exists i | 0 <= i < |steps| :: LosesAccount(steps[i], id)
  {
    LostFrom(start, steps, s, id);
  }

  lemma {:induction false} LostFrom(start: State, steps: seq<Step>, s: State, id: Id)
    requires Inv(start) && Run(start, steps, s)
    ensures id in s.lost <==> id in start.lost || exists i | 0 <= i < |steps| :: LosesAccount(steps[i], id)
    decreases |steps|
  {
    if steps != [] {
      StepKeepsInv(start, steps[0]);
      StepLoses(start, steps[0], id);
      LostFrom(Apply(start, steps[0]), steps[1..], s, id);
      assert forall i | 0 <= i < |steps[1..]| :: steps[1..][i] == steps[i + 1];
      assert forall i | 0 < i < |steps| :: steps[i] == steps[1..][i - 1];
    }
  }

  /** And what is lost stays lost: nothing this service does ever drops that account. */
  lemma {:induction false} LostForGood(s: State, steps: seq<Step>, end: State, id: Id)
    requires Inv(s) && Run(s, steps, end) && id in s.lost
    ensures id in end.lost && id in end.accounts && id !in end.leases
    decreases |steps|
  {
    if steps != [] {
      StepKeepsInv(s, steps[0]);
      StepLoses(s, steps[0], id);
      LostForGood(Apply(s, steps[0]), steps[1..], end, id);
    }
  }

  // ---------------------------------------------------------------------------
  // Revocation
  // ---------------------------------------------------------------------------

  /** revoked_at is set at most once and never changes; a lease row never disappears or changes role. */
  lemma {:induction false} RevokedAtIsFinal(s: State, steps: seq<Step>, end: State, id: Id)
    requires Inv(s) && Run(s, steps, end) && id in s.leases
    ensures id in end.leases && end.leases[id].role == s.leases[id].role
    ensures s.leases[id].revokedAt.Some? ==> end.leases[id].revokedAt == s.leases[id].revokedAt && id !in end.accounts
    decreases |steps|
  {
    if steps != [] {
      StepKeepsInv(s, steps[0]);
      RevokedAtIsFinal(Apply(s, steps[0]), steps[1..], end, id);
    }
  }

  /** The steps of one undisturbed revocation. */
  function Revoking(who: RevokeId, id: Id, now: int): seq<Step> {
    [BeginRevoke(who, id), ReadRole(who), Resolve(who), Drop(who), Mark(who, now)]
  }

  lemma RunOf(start: State, steps: seq<Step>, end: State)
    requires steps != [] && Enabled(start, steps[0]) && Run(Apply(start, steps[0]), steps[1..], end)
    ensures Run(start, steps, end)
  {
  }

  /** What a revocation begun now needs of the configuration and of the target. */
  predicate CloseableNow(s: State, id: Id) {
    Resolvable(s, id) && Droppable(s, id, ToleratesNow(s, id))
  }

  /**
    An open lease can be closed at once exactly when its tenant lives, its DSN secret
    can be read, and its account is there or its role's template tolerates that it is
    not; whether its role has been deleted does not matter. It closes that lease only,
    and removes its account only.
  */
  lemma {:induction false} ClosesAtOnceIff(s: State, who: RevokeId, id: Id, now: int)
    requires Inv(s) && IsOpen(s, id) && who !in s.revocations
    ensures CloseableNow(s, id) ==> exists end :: Run(s, Revoking(who, id, now), end)
    ensures forall end :: Run(s, Revoking(who, id, now), end) ==> CloseableNow(s, id) && Closed(s, end, id, now)
  {
    var steps := Revoking(who, id, now);
    if CloseableNow(s, id) {
      var end := CloseAtOnce(s, who, id, now);
    }
    forall end | Run(s, steps, end) ensures CloseableNow(s, id) && Closed(s, end, id, now) {
      ClosedWasCloseable(s, who, id, now, end);
      var closed := CloseAtOnce(s, who, id, now);
      RunIsFunction(s, steps, end, closed);
    }
  }

  lemma {:induction false} ClosedWasCloseable(s: State, who: RevokeId, id: Id, now: int, end: State)
    requires Inv(s) && IsOpen(s, id) && who !in s.revocations && Run(s, Revoking(who, id, now), end)
    ensures CloseableNow(s, id)
  {
    var steps := Revoking(who, id, now);
    var s1 := Apply(s, steps[0]);
    assert Run(s1, steps[1..], end) && steps[1..][0] == ReadRole(who);
    var s2 := Apply(s1, ReadRole(who));
    assert Run(s2, steps[1..][1..], end) && steps[1..][1..] == steps[2..] && steps[2..][0] == Resolve(who);
    var s3 := Apply(s2, Resolve(who));
    assert Run(s3, steps[2..][1..], end) && steps[2..][1..] == steps[3..] && steps[3..][0] == Drop(who);
    assert Enabled(s2, Resolve(who)) && Enabled(s3, Drop(who));
  }

  lemma {:induction false} RunIsFunction(s: State, steps: seq<Step>, a: State, b: State)
    requires Run(s, steps, a) && Run(s, steps, b)
    ensures a == b
    decreases |steps|
  {
    if steps != [] {
      RunIsFunction(Apply(s, steps[0]), steps[1..], a, b);
    }
  }

  /** `id` is closed and its account gone; every other lease and account is as it was. */
  predicate Closed(s: State, end: State, id: Id, now: int) {
    && id in s.leases && end.leases == s.leases[id := LeaseRow(s.leases[id].role, Some(now))]
    && end.accounts == s.accounts - {id}
  }

  lemma CloseAtOnce(s: State, who: RevokeId, id: Id, now: int) returns (end: State)
    requires Inv(s) && IsOpen(s, id) && who !in s.revocations && CloseableNow(s, id)
    ensures Run(s, Revoking(who, id, now), end) && Closed(s, end, id, now)
  {
    var steps := Revoking(who, id, now);
    var s1 := Apply(s, steps[0]);
    var s2 := Apply(s1, steps[1]);
    assert s2 == s.(revocations := s.revocations[who := Configured(id, ToleratesNow(s, id))]);
    end := CloseConfigured(s2, who, now);
    assert steps[1..][1..] == [Resolve(who), Drop(who), Mark(who, now)];
    RunOf(s1, steps[1..], end);
    RunOf(s, steps, end);
  }

  /** The end of a revocation that has its template. */
  lemma CloseConfigured(s: State, who: RevokeId, now: int) returns (end: State)
    requires who in s.revocations && s.revocations[who].Configured? && IsOpen(s, s.revocations[who].id)
    requires Resolvable(s, s.revocations[who].id)
    requires Droppable(s, s.revocations[who].id, s.revocations[who].tolerant)
    ensures Run(s, [Resolve(who), Drop(who), Mark(who, now)], end) && Closed(s, end, s.revocations[who].id, now)
  {
    var steps := [Resolve(who), Drop(who), Mark(who, now)];
    var next := Apply(s, Resolve(who));
    end := CloseResolved(next, who, now);
    assert steps[1..] == [Drop(who), Mark(who, now)];
    RunOf(s, steps, end);
  }

  /** The end of one that holds the DSN as well. */
  lemma CloseResolved(s: State, who: RevokeId, now: int) returns (end: State)
    requires WouldDrop(s, who) && IsOpen(s, s.revocations[who].id)
    ensures Run(s, [Drop(who), Mark(who, now)], end) && Closed(s, end, s.revocations[who].id, now)
  {
    var next := Apply(s, Drop(who));
    end := Apply(next, Mark(who, now));
    assert [Drop(who), Mark(who, now)][1..] == [Mark(who, now)] && [Mark(who, now)][1..] == [];
    assert Run(end, [], end);
    RunOf(next, [Mark(who, now)], end);
    RunOf(s, [Drop(who), Mark(who, now)], end);
  }

  /** A revocation under way may yet close its lease, with what it has read. */
  predicate CanFinish(s: State, r: Revocation) {
    match r
    case Found(_) => false
    case Configured(id, tolerant) =>
      id in s.leases && TenantLives(s, s.leases[id].role) && Droppable(s, id, tolerant)
    case Resolved(id, tolerant) => Droppable(s, id, tolerant)
    case Confirmed(_) => true
  }

  predicate FinishUnderWay(s: State, id: Id) {
    exists who | who in s.revocations :: s.revocations[who].id == id && CanFinish(s, s.revocations[who])
  }

  /** Somebody can still write the template: the role is found by name, or was found and is undeleted. */
  predicate Correctable(s: State, role: RoleId) {
    Manageable(s, role) || (!Deleted(s, role) && exists update | update in s.updates :: s.updates[update] == role)
  }

  /** A revocation begun later may close the lease: its tenant lives, and the template serves or can be corrected. */
  predicate CanBegin(s: State, id: Id) {
    && id in s.leases && TenantLives(s, s.leases[id].role)
    && (Droppable(s, id, ToleratesNow(s, id)) || Correctable(s, s.leases[id].role))
  }

  ghost predicate CanBeClosed(s: State, id: Id) {
    exists steps, end :: Run(s, steps, end) && !IsOpen(end, id)
  }

  /**
    Whether an open lease can ever be closed. As a lost DSN secret can be put back and
    the template of an undeleted role corrected, by an update that finds it through its
    project or has found it before, exactly in these cases: its tenant lives, and its
    account is still there, the template tolerates that it is not, or the template can
    be corrected; or a revocation under way has read enough to finish. Otherwise the
    lease stays open for good.
  */
  lemma {:induction false} CanBeClosedIff(s: State, id: Id)
    requires Inv(s) && IsOpen(s, id)
    ensures CanBeClosed(s, id) <==> CanBegin(s, id) || FinishUnderWay(s, id)
  {
    if CanBegin(s, id) {
      CloseByBeginning(s, id);
    } else if FinishUnderWay(s, id) {
      var who :| who in s.revocations && s.revocations[who].id == id && CanFinish(s, s.revocations[who]);
      CloseByFinishing(s, who);
    } else {
      forall steps, end | Run(s, steps, end) ensures IsOpen(end, id) {
        StaysOpen(s, steps, end, id);
      }
    }
  }

  lemma CloseByBeginning(s: State, id: Id)
    requires Inv(s) && IsOpen(s, id) && CanBegin(s, id)
    ensures CanBeClosed(s, id)
  {
    if Droppable(s, id, ToleratesNow(s, id)) {
      CloseWithDsn(s, id);
    } else {
      var role := s.leases[id].role;
      if update :| update in s.updates && s.updates[update] == role && !Deleted(s, role) {
        CloseByCorrecting(s, update, id);
      } else {
        var update := Above(s.updates.Keys);
        var begin := BeginUpdate(update, role);
        StepKeepsInv(s, begin);
        CloseByCorrecting(Apply(s, begin), update, id);
        StepThenClosed(s, begin, id);
      }
    }
  }

  lemma CloseByCorrecting(s: State, update: UpdateId, id: Id)
    requires Inv(s) && IsOpen(s, id) && TenantLives(s, s.leases[id].role) && !Deleted(s, s.leases[id].role)
    requires update in s.updates && s.updates[update] == s.leases[id].role
    ensures CanBeClosed(s, id)
  {
    var correct := UpdateRole(update, true, true);
    StepKeepsInv(s, correct);
    CloseWithDsn(Apply(s, correct), id);
    StepThenClosed(s, correct, id);
  }

  lemma CloseWithDsn(s: State, id: Id)
    requires Inv(s) && IsOpen(s, id) && CanBegin(s, id) && Droppable(s, id, ToleratesNow(s, id))
    ensures CanBeClosed(s, id)
  {
    var restore := SetDsn(s.leases[id].role, true);
    var restored := Apply(s, restore);
    StepKeepsInv(s, restore);
    var who := UnusedRevokeId(s);
    var end := CloseAtOnce(restored, who, id, 0);
    assert Run(restored, Revoking(who, id, 0), end) && !IsOpen(end, id);
    StepThenClosed(s, restore, id);
  }

  lemma StepThenClosed(s: State, step: Step, id: Id)
    requires Enabled(s, step) && CanBeClosed(Apply(s, step), id)
    ensures CanBeClosed(s, id)
  {
    var steps, end :| Run(Apply(s, step), steps, end) && !IsOpen(end, id);
    assert ([step] + steps)[1..] == steps;
    RunOf(s, [step] + steps, end);
  }

  lemma CloseByFinishing(s: State, who: RevokeId)
    requires Inv(s) && who in s.revocations && CanFinish(s, s.revocations[who]) && IsOpen(s, s.revocations[who].id)
    ensures CanBeClosed(s, s.revocations[who].id)
  {
    var id := s.revocations[who].id;
    match s.revocations[who] {
      case Configured(_, _) =>
        var restore := SetDsn(s.leases[id].role, true);
        var restored := Apply(s, restore);
        var end := CloseConfigured(restored, who, 0);
        assert !IsOpen(end, id);
        StepThenClosed(s, restore, id);
      case Resolved(_, _) =>
        var end := CloseResolved(s, who, 0);
        assert !IsOpen(end, id);
      case Confirmed(_) =>
        var end := Apply(s, Mark(who, 0));
        assert Run(end, [], end) && !IsOpen(end, id);
        StepThenClosed(s, Mark(who, 0), id);
    }
  }

  lemma UnusedRevokeId(s: State) returns (who: RevokeId)
    ensures who !in s.revocations
  {
    who := Above(s.revocations.Keys);
  }

  lemma Above(ids: set<nat>) returns (n: nat)
    ensures forall id | id in ids :: id < n
  {
    if ids == {} {
      n := 0;
    } else {
      var id :| id in ids;
      var rest := ids - {id};
      var m := Above(rest);
      n := if m <= id then id + 1 else m;
      assert forall other | other in ids :: other == id || other in rest;
    }
  }

  lemma {:induction false} StaysOpen(s: State, steps: seq<Step>, end: State, id: Id)
    requires Inv(s) && Run(s, steps, end) && IsOpen(s, id) && !CanBegin(s, id) && !FinishUnderWay(s, id)
    ensures IsOpen(end, id)
    decreases |steps|
  {
    if steps != [] {
      StepKeepsInv(s, steps[0]);
      StepStaysOpen(s, steps[0], id);
      StaysOpen(Apply(s, steps[0]), steps[1..], end, id);
    }
  }

  lemma StepStaysOpen(s: State, step: Step, id: Id)
    requires Inv(s) && Enabled(s, step) && IsOpen(s, id) && !CanBegin(s, id) && !FinishUnderWay(s, id)
    ensures var next := Apply(s, step); IsOpen(next, id) && !CanBegin(next, id) && !FinishUnderWay(next, id)
  {
    StepFinishesNothing(s, step, id);
    StepBeginsNothing(s, step, id);
  }

  /** A lease that nobody can finish closing is not closed by any one step. */
  lemma StepFinishesNothing(s: State, step: Step, id: Id)
    requires Inv(s) && Enabled(s, step) && IsOpen(s, id) && !FinishUnderWay(s, id)
    ensures var next := Apply(s, step);
            && IsOpen(next, id) && next.leases[id] == s.leases[id]
            && (id in next.accounts ==> id in s.accounts)
  {
    if step.Drop? || step.DropUnanswered? || step.Mark? {
      assert !(s.revocations[step.who].id == id && CanFinish(s, s.revocations[step.who]));
    }
  }

  lemma StepBeginsNothing(s: State, step: Step, id: Id)
    requires Inv(s) && Enabled(s, step) && IsOpen(s, id) && !CanBegin(s, id) && !FinishUnderWay(s, id)
    ensures !CanBegin(Apply(s, step), id) && !FinishUnderWay(Apply(s, step), id)
  {
    var next := Apply(s, step);
    StepFinishesNothing(s, step, id);
    forall who | who in next.revocations
      ensures !(next.revocations[who].id == id && CanFinish(next, next.revocations[who])) {
      if who in s.revocations {
        assert !(s.revocations[who].id == id && CanFinish(s, s.revocations[who]));
      }
    }
  }

  /** An intolerant role, and a lease on it that the target has dropped and nobody has marked. */
  lemma DroppedUnmarked(role: RoleId, id: Id) returns (steps: seq<Step>, s: State)
    ensures Run(Start({0}, {0}, map[role := Role(0, 0, false, true, true, false)]), steps, s) && Inv(s)
    ensures IsOpen(s, id) && s.leases[id].role == role && id !in s.accounts && s.revocations == map[]
      && s.updates == map[]
    ensures s.tenants == {0} && s.projects == {0} && s.roles == map[role := Role(0, 0, false, true, true, false)]
      && role in s.counted
  {
    var start := Start({0}, {0}, map[role := Role(0, 0, false, true, true, false)]);
    steps, s := Issued(role, id);
    steps, s := Then(start, steps, s, BeginRevoke(0, id));
    steps, s := Then(start, steps, s, ReadRole(0));
    var configured := map[0 := Configured(id, false)];
    assert s == LeaseOnly(role, id).(revocations := configured);
    steps, s := Unmarked(role, id, steps, s);
  }

  function LeaseOnly(role: RoleId, id: Id): State {
    Start({0}, {0}, map[role := Role(0, 0, false, true, true, false)]).(
      leases := map[id := LeaseRow(role, None)], accounts := {id}, counted := {role}, used := {id})
  }

  lemma Unmarked(role: RoleId, id: Id, before: seq<Step>, at: State) returns (steps: seq<Step>, s: State)
    requires Run(Start({0}, {0}, map[role := Role(0, 0, false, true, true, false)]), before, at) && Inv(at)
    requires at == LeaseOnly(role, id).(revocations := map[0 := Configured(id, false)])
    ensures Run(Start({0}, {0}, map[role := Role(0, 0, false, true, true, false)]), steps, s) && Inv(s)
    ensures s == LeaseOnly(role, id).(accounts := {}, dropped := {id})
  {
    var start := Start({0}, {0}, map[role := Role(0, 0, false, true, true, false)]);
    steps, s := Then(start, before, at, Resolve(0));
    steps, s := Then(start, steps, s, Drop(0));
    assert s == LeaseOnly(role, id).(accounts := {}, dropped := {id}, revocations := map[0 := Confirmed(id)]);
    steps, s := Then(start, steps, s, GiveUp(0));
    assert s.revocations == map[];
  }

  /** One issue on an intolerant role, begun after somebody counted no lease of it. */
  lemma Issued(role: RoleId, id: Id) returns (steps: seq<Step>, s: State)
    ensures Run(Start({0}, {0}, map[role := Role(0, 0, false, true, true, false)]), steps, s) && Inv(s)
    ensures s == LeaseOnly(role, id)
  {
    var start := Start({0}, {0}, map[role := Role(0, 0, false, true, true, false)]);
    assert Run(start, [], start);
    steps, s := Then(start, [], start, CountLive(role));
    steps, s := Then(start, steps, s, BeginIssue(id, role));
    steps, s := Then(start, steps, s, CreateAccount(id));
    steps, s := Then(start, steps, s, Commit(id));
    steps, s := Then(start, steps, s, AuditWritten(id));
    assert s.issues == map[];
  }

  lemma Then(start: State, steps: seq<Step>, s: State, step: Step) returns (more: seq<Step>, next: State)
    requires Inv(s) && Run(start, steps, s) && Enabled(s, step)
    ensures more == steps + [step] && next == Apply(s, step) && Run(start, more, next) && Inv(next)
  {
    more, next := steps + [step], Apply(s, step);
    RunOneMore(start, steps, s, step);
    StepKeepsInv(s, step);
  }

  /**
    The wedge: without IF EXISTS in the template, a drop that the target confirmed and
    nobody marked leaves an open lease that no revocation closes although tenant and DSN
    are there. While role and project are undeleted, correcting the template helps. Once
    the role is deleted, by a count that the issue outdated, or its project, which no
    count guards, the lease stays open for good.
  */
  lemma WedgedWithoutIfExists(role: RoleId, id: Id) returns (steps: seq<Step>, s: State)
    ensures Run(Start({0}, {0}, map[role := Role(0, 0, false, true, true, false)]), steps, s)
    ensures IsOpen(s, id) && Resolvable(s, id) && CanBeClosed(s, id)
    ensures forall who, now, end | who !in s.revocations :: !Run(s, Revoking(who, id, now), end)
    ensures forall step | step == SoftDeleteRole(role) || step == EraseProject(0) ::
      Enabled(s, step) && Resolvable(Apply(s, step), id) && OpenForGood(Apply(s, step), id)
  {
    steps, s := DroppedUnmarked(role, id);
    CanBeClosedIff(s, id);
    forall who, now, end | who !in s.revocations ensures !Run(s, Revoking(who, id, now), end) {
      ClosesAtOnceIff(s, who, id, now);
    }
    forall step | step == SoftDeleteRole(role) || step == EraseProject(0)
      ensures Enabled(s, step) && Resolvable(Apply(s, step), id) && OpenForGood(Apply(s, step), id)
    {
      StepKeepsInv(s, step);
      CanBeClosedIff(Apply(s, step), id);
    }
  }

  ghost predicate OpenForGood(s: State, id: Id) {
    forall steps, end :: Run(s, steps, end) ==> IsOpen(end, id)
  }

  // ---------------------------------------------------------------------------
  // Deleting a role
  // ---------------------------------------------------------------------------

  /** An open lease whose configuration is deleted: what DeleteDynamicRole is there to refuse. */
  predicate Stranded(s: State, id: Id) {
    IsOpen(s, id) && Deleted(s, s.leases[id].role)
  }

  /** An issue that has read the role and may still commit a lease on it. */
  predicate InFlight(s: State, role: RoleId) {
    exists id | id in s.issues :: s.issues[id].role == role && !s.issues[id].Committed?
  }

  predicate SafeToDelete(s: State, role: RoleId) {
    !HasLive(s, role) && !InFlight(s, role)
  }

  /** Nothing of a role that is deleted is open or on its way. */
  predicate Settled(s: State, role: RoleId) {
    Deleted(s, role) && SafeToDelete(s, role)
  }

  lemma StepKeepsSettled(s: State, step: Step, role: RoleId)
    requires Inv(s) && Enabled(s, step) && Settled(s, role)
    ensures Settled(Apply(s, step), role)
  {
    var next := Apply(s, step);
    forall id | id in next.leases ensures !(IsOpen(next, id) && next.leases[id].role == role) {
      assert id in s.leases ==> !(IsOpen(s, id) && s.leases[id].role == role);
      assert id in s.issues ==> !(s.issues[id].role == role && !s.issues[id].Committed?);
    }
    forall id | id in next.issues ensures !(next.issues[id].role == role && !next.issues[id].Committed?) {
      assert id in s.issues ==> !(s.issues[id].role == role && !s.issues[id].Committed?);
    }
  }

  lemma {:induction false} RunKeepsSettled(s: State, steps: seq<Step>, end: State, role: RoleId)
    requires Inv(s) && Run(s, steps, end) && Settled(s, role)
    ensures Settled(end, role)
    decreases |steps|
  {
    if steps != [] {
      StepKeepsInv(s, steps[0]);
      StepKeepsSettled(s, steps[0], role);
      RunKeepsSettled(Apply(s, steps[0]), steps[1..], end, role);
    }
  }

  /** Every deletion of the run finds its role without an open lease and without an issue under way. */
  ghost predicate DeletesSafely(s: State, steps: seq<Step>)
    decreases |steps|
  {
    steps != [] && Enabled(s, steps[0]) ==>
      && (steps[0].SoftDeleteRole? ==> SafeToDelete(s, steps[0].role))
      && DeletesSafely(Apply(s, steps[0]), steps[1..])
  }

  ghost predicate DeletedAreSettled(s: State) {
    forall role | role in s.roles :: Deleted(s, role) ==> Settled(s, role)
  }

  lemma StepKeepsDeletedSettled(s: State, step: Step)
    requires Inv(s) && Enabled(s, step) && DeletedAreSettled(s)
    requires step.SoftDeleteRole? ==> SafeToDelete(s, step.role)
    ensures DeletedAreSettled(Apply(s, step))
  {
    var next := Apply(s, step);
    forall role | role in next.roles && Deleted(next, role) ensures Settled(next, role) {
      if Deleted(s, role) {
        StepKeepsSettled(s, step, role);
      } else {
        assert step == SoftDeleteRole(role);
        assert next.leases == s.leases && next.issues == s.issues;
        assert forall id | id in s.leases :: IsOpen(next, id) == IsOpen(s, id);
      }
    }
  }

  lemma {:induction false} RunKeepsDeletedSettled(s: State, steps: seq<Step>, end: State)
    requires Inv(s) && Run(s, steps, end) && DeletedAreSettled(s) && DeletesSafely(s, steps)
    ensures DeletedAreSettled(end) && Inv(end)
    decreases |steps|
  {
    if steps != [] {
      StepKeepsInv(s, steps[0]);
      StepKeepsDeletedSettled(s, steps[0]);
      RunKeepsDeletedSettled(Apply(s, steps[0]), steps[1..], end);
    }
  }

  /**
    Every open lease's role config is undeleted, over every run whose deletions each
    find no open lease and no issue of the role under way, as when the count directly
    precedes the delete and nobody is issuing.
  */
  lemma {:induction false} NothingStrandedIfSafe(
    tenants: set<TenantId>, projects: set<ProjectId>, roles: map<RoleId, Role>, steps: seq<Step>, s: State, id: Id)
    requires Run(Start(tenants, projects, roles), steps, s) && DeletesSafely(Start(tenants, projects, roles), steps)
    ensures !Stranded(s, id)
  {
    RunKeepsDeletedSettled(Start(tenants, projects, roles), steps, s);
    if IsOpen(s, id) {
      assert s.leases[id].role in s.roles;
    }
  }

  /**
    So under such deletions nothing is wedged: as long as its tenant and its role's
    project live, every open lease can be closed.
  */
  lemma {:induction false} SafeDeletionsWedgeNothing(
    tenants: set<TenantId>, projects: set<ProjectId>, roles: map<RoleId, Role>, steps: seq<Step>, s: State, id: Id)
    requires Run(Start(tenants, projects, roles), steps, s) && DeletesSafely(Start(tenants, projects, roles), steps)
    requires IsOpen(s, id) && TenantLives(s, s.leases[id].role) && s.roles[s.leases[id].role].project in s.projects
    ensures CanBeClosed(s, id)
  {
    RunKeepsInv(Start(tenants, projects, roles), steps, s);
    NothingStrandedIfSafe(tenants, projects, roles, steps, s, id);
    CanBeClosedIff(s, id);
  }

  /**
    And no less will do, deletion by deletion: whatever happens after a delete leaves
    no lease of that role open, exactly when the delete found none open and no issue of
    the role under way.
  */
  lemma {:induction false} DeleteNeverStrandsIff(s: State, role: RoleId)
    requires Inv(s) && Enabled(s, SoftDeleteRole(role))
    ensures SafeToDelete(s, role) <==>
      forall steps, end :: Run(Apply(s, SoftDeleteRole(role)), steps, end) ==> !HasLive(end, role)
  {
    var next := Apply(s, SoftDeleteRole(role));
    StepKeepsInv(s, SoftDeleteRole(role));
    assert next.leases == s.leases && next.issues == s.issues;
    if SafeToDelete(s, role) {
      forall steps, end | Run(next, steps, end) ensures !HasLive(end, role) {
        RunKeepsSettled(next, steps, end, role);
      }
    } else if HasLive(s, role) {
      LiveAlready(next, role);
    } else {
      var id :| id in s.issues && s.issues[id].role == role && !s.issues[id].Committed?;
      CommitAfterDelete(next, id);
    }
  }

  lemma LiveAlready(s: State, role: RoleId)
    requires HasLive(s, role)
    ensures exists steps, end :: Run(s, steps, end) && HasLive(end, role)
  {
    assert Run(s, [], s);
  }

  lemma CommitAfterDelete(s: State, id: Id)
    requires Inv(s) && id in s.issues && !s.issues[id].Committed?
    ensures exists steps, end :: Run(s, steps, end) && HasLive(end, s.issues[id].role)
  {
    var role := s.issues[id].role;
    if s.issues[id].Created? {
      var end := Apply(s, Commit(id));
      assert [Commit(id)][1..] == [] && Run(end, [], end);
      RunOf(s, [Commit(id)], end);
      assert IsOpen(end, id) && HasLive(end, role);
    } else {
      var created := Apply(s, CreateAccount(id));
      var end := Apply(created, Commit(id));
      var steps := [CreateAccount(id), Commit(id)];
      assert steps[1..] == [Commit(id)] && [Commit(id)][1..] == [] && Run(end, [], end);
      RunOf(created, [Commit(id)], end);
      RunOf(s, steps, end);
      assert IsOpen(end, id) && HasLive(end, role);
    }
  }

  /** It does happen: here an issue and a delete of its role overlap. */
  lemma StrandedIsReachable(role: RoleId, id: Id) returns (steps: seq<Step>, s: State)
    ensures Run(Start({0}, {0}, map[role := Role(0, 0, false, true, true, true)]), steps, s) && Stranded(s, id)
  {
    steps := [BeginIssue(id, role), CountLive(role), CreateAccount(id), SoftDeleteRole(role), Commit(id)];
    var s0 := Start({0}, {0}, map[role := Role(0, 0, false, true, true, true)]);
    var s1 := Apply(s0, steps[0]);
    var s2 := Apply(s1, steps[1]);
    var s3 := Apply(s2, steps[2]);
    var s4 := Apply(s3, steps[3]);
    s := Apply(s4, steps[4]);
    assert steps[1..][1..] == steps[2..] && steps[2..][1..] == steps[3..] && steps[3..][1..] == steps[4..]
      && steps[4..][1..] == [];
    assert Run(s, [], s);
    RunOf(s4, steps[4..], s);
    RunOf(s3, steps[3..], s);
    RunOf(s2, steps[2..], s);
    RunOf(s1, steps[1..], s);
    RunOf(s0, steps, s);
  }

  // ---------------------------------------------------------------------------
  // The code of an issue and of a revocation
  // ---------------------------------------------------------------------------

  /** What the target database answers: done, refused, or done with the answer lost. */
  datatype TargetAnswer = DoneAnswer | RefusedAnswer | NoAnswer

  /** How each call to a database or to the audit log turns out. */
  datatype Answers = Answers(
    create: TargetAnswer, commits: bool, audits: bool, drop: TargetAnswer, marks: bool, now: int)

  /** What becomes of a drop: without the account an intolerant template is refused. */
  function Dropping(s: State, id: Id, tolerant: bool, asked: TargetAnswer): TargetAnswer {
    if Droppable(s, id, tolerant) then asked else RefusedAnswer
  }

  /** What becomes of a revocation begun now; one that cannot read its DSN does not reach the target. */
  function Answer(s: State, id: Id, a: Answers): TargetAnswer {
    if Resolvable(s, id) then Dropping(s, id, ToleratesNow(s, id), a.drop) else RefusedAnswer
  }

  lemma {:induction false} RunOneMore(start: State, steps: seq<Step>, s: State, step: Step)
    requires Run(start, steps, s) && Enabled(s, step)
    ensures Run(start, steps + [step], Apply(s, step))
    decreases |steps|
  {
    if steps == [] {
      assert [step][1..] == [];
    } else {
      assert (steps + [step])[1..] == steps[1..] + [step];
      RunOneMore(Apply(start, steps[0]), steps[1..], s, step);
    }
  }

  /** The two databases as one process sees them, and the run that led there. */
  class Broker {
    var s: State
    ghost var start: State
    ghost var steps: seq<Step>

    ghost predicate Valid() reads this {
      Inv(start) && Run(start, steps, s)
    }

    constructor (s: State)
      requires Inv(s)
      ensures Valid() && this.s == s && this.start == s && this.steps == []
    {
      this.s, this.start, this.steps := s, s, [];
    }

    method Take(step: Step)
      requires Valid() && Enabled(s, step)
      modifies this
      ensures Valid() && s == Apply(old(s), step) && start == old(start) && steps == old(steps) + [step]
    {
      RunOneMore(start, steps, s, step);
      s := Apply(s, step);
      steps := steps + [step];
    }

    /** IssueDynamicLease: the row first, the account inside its transaction, the commit last. */
    method IssueLease(id: Id, role: RoleId, a: Answers) returns (r: Result<(), AppError>)
      requires Valid() && id !in s.used
      modifies this
      ensures Valid() && start == old(start) && old(steps) <= steps
      ensures IssueRefusal(old(s), role).Some? ==> r == Err(IssueRefusal(old(s), role).value) && s == old(s)
      ensures r.Ok? <==> IssueRefusal(old(s), role).None? && a.create.DoneAnswer? && a.commits
      ensures r.Ok? ==>
        && IsOpen(s, id) && s.leases[id].role == role && id in s.accounts
        && id in s.issues && s.issues[id].Committed?
      ensures r.Err? ==> id !in s.leases && id !in s.issues
      ensures r.Err? && IssueRefusal(old(s), role).None? ==>
        && (id in s.accounts <==> !a.create.RefusedAnswer?) && (id in s.lost <==> id in s.accounts)
        && r.error == if a.create.DoneAnswer? then Internal else Unavailable
      ensures s.roles == old(s).roles && s.tenants == old(s).tenants && s.revocations == old(s).revocations
    {
      RunKeepsInv(start, steps, s);
      var refusal := IssueRefusal(s, role);
      if refusal.Some? {
        return Err(refusal.value);
      }
      Take(BeginIssue(id, role));
      r := FinishIssue(id, a);
    }

    /** The local transaction of an issue, from the inserted row on. */
    method FinishIssue(id: Id, a: Answers) returns (r: Result<(), AppError>)
      requires Valid() && id in s.issues && s.issues[id].Inserted?
      modifies this
      ensures Valid() && start == old(start) && old(steps) <= steps
      ensures r.Ok? <==> a.create.DoneAnswer? && a.commits
      ensures r.Err? ==> r.error == if a.create.DoneAnswer? then Internal else Unavailable
      ensures r.Ok? ==> s.leases == old(s).leases[id := LeaseRow(old(s).issues[id].role, None)]
      ensures r.Ok? ==> id in s.accounts && id in s.issues && s.issues[id].Committed?
      ensures r.Err? ==> s.leases == old(s).leases && id !in s.issues
      ensures s.accounts == if a.create.RefusedAnswer? then old(s).accounts else old(s).accounts + {id}
      ensures s.lost == if r.Err? && !a.create.RefusedAnswer? then old(s).lost + {id} else old(s).lost
      ensures s.roles == old(s).roles && s.tenants == old(s).tenants && s.revocations == old(s).revocations
    {
      match a.create {
        case RefusedAnswer =>
          Take(CreateRefused(id));
          return Err(Unavailable);
        case NoAnswer =>
          Take(CreateUnanswered(id));
          return Err(Unavailable);
        case DoneAnswer =>
          Take(CreateAccount(id));
      }
      if !a.commits {
        Take(CommitFails(id));
        return Err(Internal);
      }
      Take(Commit(id));
      r := Ok(());
    }

    /**
      RevokeDynamicLease: nothing for a closed lease; otherwise the configuration and
      the DSN, then the drop, and the row only after it.
    */
    method RevokeLease(who: RevokeId, id: Id, a: Answers) returns (r: Result<(), AppError>)
      requires Valid() && who !in s.revocations
      modifies this
      ensures Valid() && start == old(start) && old(steps) <= steps
      ensures r == Err(NotFound) <==> id !in old(s).leases || !TenantLives(old(s), old(s).leases[id].role)
      ensures r != Err(NotFound) && !IsOpen(old(s), id) ==> r.Ok? && s == old(s)
      ensures r != Err(NotFound) && IsOpen(old(s), id) ==>
        (r.Ok? <==> Answer(old(s), id, a).DoneAnswer? && a.marks)
      ensures r.Ok? ==> !IsOpen(s, id) && id !in s.accounts
      ensures r.Ok? && IsOpen(old(s), id) ==> Closed(old(s), s, id, a.now)
      ensures r.Err? ==> s.leases == old(s).leases
      ensures r.Err? && r.error != NotFound ==>
        r.error == if Answer(old(s), id, a).DoneAnswer? then Internal else Unavailable
      ensures r.Err? ==>
        s.accounts == if r.error == NotFound || Answer(old(s), id, a).RefusedAnswer? then old(s).accounts
          else old(s).accounts - {id}
      ensures s.issues == old(s).issues && s.lost == old(s).lost && s.revocations == old(s).revocations
    {
      if id !in s.leases || !TenantLives(s, s.leases[id].role) {
        return Err(NotFound);
      }
      RunKeepsInv(start, steps, s);
      if s.leases[id].revokedAt.Some? {
        return Ok(());
      }
      r := RevokeOpen(who, id, a);
    }

    /** revokeDynamicLeaseRow: configuration and DSN, then the target, then the row. */
    method RevokeOpen(who: RevokeId, id: Id, a: Answers) returns (r: Result<(), AppError>)
      requires Valid() && who !in s.revocations && IsOpen(s, id) && TenantLives(s, s.leases[id].role)
      modifies this
      ensures Valid() && start == old(start) && old(steps) <= steps
      ensures r.Ok? <==> Answer(old(s), id, a).DoneAnswer? && a.marks
      ensures s.leases ==
              if r.Ok? then old(s).leases[id := LeaseRow(old(s).leases[id].role, Some(a.now))] else old(s).leases
      ensures s.accounts ==
              if Answer(old(s), id, a).RefusedAnswer? then old(s).accounts else old(s).accounts - {id}
      ensures s.issues == old(s).issues && s.lost == old(s).lost && s.revocations == old(s).revocations
      ensures r.Err? ==> r.error == if Answer(old(s), id, a).DoneAnswer? then Internal else Unavailable
    {
      var resolved := ResolveDsn(who, id);
      if !resolved {
        return Err(Unavailable);
      }
      r := DropAndMark(who, id, a);
    }

    /** The open row, and the configuration by its id, deleted or not. */
    method Configure(who: RevokeId, id: Id)
      requires Valid() && who !in s.revocations && IsOpen(s, id) && TenantLives(s, s.leases[id].role)
      modifies this
      ensures Valid() && start == old(start) && old(steps) <= steps
      ensures s == old(s).(revocations := old(s).revocations[who := Configured(id, ToleratesNow(old(s), id))])
    {
      Take(BeginRevoke(who, id));
      Take(ReadRole(who));
    }

    /** The configuration, and the secret it refers to. */
    method ResolveDsn(who: RevokeId, id: Id) returns (ok: bool)
      requires Valid() && who !in s.revocations && IsOpen(s, id) && TenantLives(s, s.leases[id].role)
      modifies this
      ensures Valid() && start == old(start) && old(steps) <= steps
      ensures ok <==> Resolvable(old(s), id)
      ensures s ==
              if ok then old(s).(revocations := old(s).revocations[who := Resolved(id, ToleratesNow(old(s), id))])
              else old(s)
    {
      ok := Resolvable(s, id);
      Configure(who, id);
      if ok {
        Take(Resolve(who));
      } else {
        Take(GiveUp(who));
        assert s.revocations == old(s).revocations;
      }
    }

    /** The end of a revocation, with the DSN in hand. */
    method DropAndMark(who: RevokeId, id: Id, a: Answers) returns (r: Result<(), AppError>)
      requires Valid() && who in s.revocations && s.revocations[who].Resolved? && s.revocations[who].id == id
        && IsOpen(s, id)
      modifies this
      ensures Valid() && start == old(start) && old(steps) <= steps
      ensures r.Ok? <==> Dropping(old(s), id, old(s).revocations[who].tolerant, a.drop).DoneAnswer? && a.marks
      ensures s.leases ==
              if r.Ok? then old(s).leases[id := LeaseRow(old(s).leases[id].role, Some(a.now))] else old(s).leases
      ensures s.accounts ==
              if Dropping(old(s), id, old(s).revocations[who].tolerant, a.drop).RefusedAnswer? then old(s).accounts
              else old(s).accounts - {id}
      ensures s.issues == old(s).issues && s.lost == old(s).lost && s.revocations == old(s).revocations - {who}
      ensures r.Err? ==>
        r.error ==
          if Dropping(old(s), id, old(s).revocations[who].tolerant, a.drop).DoneAnswer? then Internal else Unavailable
    {
      match Dropping(s, id, s.revocations[who].tolerant, a.drop) {
        case RefusedAnswer =>
          Take(GiveUp(who));
          return Err(Unavailable);
        case NoAnswer =>
          Take(DropUnanswered(who));
          return Err(Unavailable);
        case DoneAnswer =>
          Take(Drop(who));
      }
      if !a.marks {
        Take(GiveUp(who));
        return Err(Internal);
      }
      Take(Mark(who, a.now));
      r := Ok(());
    }

    /**
      IssueDynamicCredential. A credential is handed out exactly when the account was
      created, its lease committed and its audit row written. An issue abandoned for
      want of the audit row ends with the account gone or its lease open.
    */
    method IssueDynamicCredential(who: RevokeId, id: Id, role: RoleId, a: Answers) returns (r: Result<Id, AppError>)
      requires Valid() && id !in s.used && who !in s.revocations
      modifies this
      ensures Valid() && start == old(start) && old(steps) <= steps
      ensures r.Ok? <==> IssueRefusal(old(s), role).None? && a.create.DoneAnswer? && a.commits && a.audits
      ensures r.Ok? ==> r.value == id && IsOpen(s, id) && id in s.accounts && AuditWritten(id) in steps
      ensures r.Err? ==>
        r.error == if IssueRefusal(old(s), role).Some? then IssueRefusal(old(s), role).value
                   else if a.create.DoneAnswer? then Internal else Unavailable
      ensures r.Err? && id in s.leases ==> !a.audits && (id !in s.accounts || IsOpen(s, id))
      ensures r.Err? && id in s.leases && a.drop.DoneAnswer? && a.marks ==> id !in s.accounts && !IsOpen(s, id)
      ensures id !in s.issues
    {
      var issued := IssueLease(id, role, a);
      if issued.Err? {
        return Err(issued.error);
      }
      if !a.audits {
        Take(AuditFails(id));
        var _ := RevokeLease(who, id, a);
        return Err(Internal);
      }
      Take(AuditWritten(id));
      r := Ok(id);
    }
  }
}
