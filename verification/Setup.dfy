/**
  First-run setup by any number of replicas against one database, one store call at
  a time (internal/setup/setup.go, internal/store/setup.go, the unique indexes of
  migrations 00001 to 00003 and setup_state.sql). Any store call may fail, before or
  after its write took effect.
*/
module Setup {
  import opened Results

  type Uuid = nat
  type CallId = nat

  datatype Names = Names(tenant: string, project: string, environment: string)

  datatype Tenant = Tenant(uuid: Uuid, name: string, system: bool)
  datatype Project = Project(tenant: Uuid, slug: string)
  datatype Environment = Environment(tenant: Uuid, project: string, slug: string, deleted: bool)

  datatype Kind = ServiceKind | OperatorKind
  datatype Lock = Lock(controller: string, kind: Kind)

  /** The next thing a call does, with the tenant it has found. */
  datatype At =
    | FindTenant
    | InsertTenant
    | RefindTenant
    | FindProject(t: Uuid)
    | InsertProject(t: Uuid)
    | FindEnvironment(t: Uuid)
    | InsertEnvironment(t: Uuid)
    | RecordProvision(t: Uuid)
    | CloseWindow(found: Option<Uuid>)
    | Done(found: Option<Uuid>)
    | Failed(error: AppError)

  /** How a store call ends: done and answered, not done, or done with its answer lost. */
  datatype Reply = Answered | Undone | Unanswered

  /** `closes` is what the call will put on the lock once it has provisioned, if anything. */
  datatype Call = Call(names: Names, closes: Option<Lock>, at: At)

  datatype State = State(
    tenants: seq<Tenant>,
    projects: seq<Project>,
    environments: seq<Environment>,
    setup: Option<Lock>,
    calls: map<CallId, Call>)

  datatype Step =
    | BeginProvision(id: CallId, names: Names)
    | BeginWizard(id: CallId, names: Names, controller: string, coreAttached: bool)
    | BeginComplete(id: CallId, controller: string, kind: Kind)
    | Advance(id: CallId, reply: Reply, uuid: Uuid)
    | OtherTenant(name: string, uuid: Uuid)
    | DeleteEnvironment(which: nat)

  /** RefuseWhenOrchestrated: declared by the operator, or observed in the lock. */
  predicate Refused(s: State, coreAttached: bool) {
    coreAttached || (s.setup.Some? && s.setup.value.kind == ServiceKind)
  }

  predicate HasTenant(s: State, name: string) {
    exists i | 0 <= i < |s.tenants| :: s.tenants[i].name == name
  }

  predicate HasSystem(s: State) {
    exists i | 0 <= i < |s.tenants| :: s.tenants[i].system
  }

  /**
    The unique indexes let the insert of a system tenant of that name through. The one
    on auth_tenant_uuid needs no clause: only a provision sets that column, on the
    system tenant, of which the index on is_system allows one.
  */
  predicate CanMakeTenant(s: State, name: string) {
    !HasTenant(s, name) && !HasSystem(s)
  }

  /** The tenant a name finds. */
  function TenantNamed(tenants: seq<Tenant>, name: string): (t: Option<Uuid>)
    ensures t.Some? <==> exists i | 0 <= i < |tenants| :: tenants[i].name == name
    ensures t.Some? ==> exists i | 0 <= i < |tenants| :: tenants[i].name == name && tenants[i].uuid == t.value
  {
    if tenants == [] then None
    else if tenants[|tenants| - 1].name == name then Some(tenants[|tenants| - 1].uuid)
    else TenantNamed(tenants[..|tenants| - 1], name)
  }

  predicate HasProject(s: State, t: Uuid, slug: string) {
    Project(t, slug) in s.projects
  }

  /** uq_environments_project_slug counts soft-deleted rows as well. */
  predicate HasEnvironmentRow(s: State, t: Uuid, project: string, slug: string) {
    Environment(t, project, slug, false) in s.environments || Environment(t, project, slug, true) in s.environments
  }

  predicate HasEnvironment(s: State, t: Uuid, project: string, slug: string) {
    Environment(t, project, slug, false) in s.environments
  }

  predicate Running(call: Call) {
    !call.at.Done? && !call.at.Failed?
  }

  predicate Enabled(s: State, step: Step) {
    match step
    case BeginProvision(id, _) => id !in s.calls
    case BeginWizard(id, _, _, attached) => id !in s.calls && !Refused(s, attached)
    case BeginComplete(id, _, _) => id !in s.calls
    case Advance(id, _, uuid) => id in s.calls && Running(s.calls[id]) && FreshUuid(s, uuid)
    case OtherTenant(name, uuid) => FreshUuid(s, uuid)
    case DeleteEnvironment(which) => which < |s.environments|
  }

  predicate FreshUuid(s: State, uuid: Uuid) {
    forall i | 0 <= i < |s.tenants| :: s.tenants[i].uuid != uuid
  }

  /** Where a call goes once its scope is provisioned and recorded. */
  function AfterProvision(call: Call, t: Uuid): At {
    if call.closes.Some? then CloseWindow(Some(t)) else Done(Some(t))
  }

  /** What the next store call answers the call with. */
  function NextAt(s: State, call: Call, reply: Reply, uuid: Uuid): At {
    if reply != Answered then Failed(Internal)
    else
      match call.at
      case FindTenant =>
        var t := TenantNamed(s.tenants, call.names.tenant);
        if t.Some? then FindProject(t.value) else InsertTenant
      case InsertTenant => if CanMakeTenant(s, call.names.tenant) then FindProject(uuid) else RefindTenant
      case RefindTenant =>
        var t := TenantNamed(s.tenants, call.names.tenant);
        if t.Some? then FindProject(t.value) else Failed(NotFound)
      case FindProject(t) => if HasProject(s, t, call.names.project) then FindEnvironment(t) else InsertProject(t)
      case InsertProject(t) => FindEnvironment(t)
      case FindEnvironment(t) =>
        if HasEnvironment(s, t, call.names.project, call.names.environment) then RecordProvision(t)
        else InsertEnvironment(t)
      case InsertEnvironment(t) => RecordProvision(t)
      case RecordProvision(t) => AfterProvision(call, t)
      case CloseWindow(t) => if s.setup.Some? then Failed(Conflict) else Done(t)
      case Done(_) => call.at
      case Failed(_) => call.at
  }

  /** What the store call writes; a unique index refuses the rest. */
  function Written(s: State, call: Call, reply: Reply, uuid: Uuid): State {
    if reply == Undone then s
    else
      match call.at
      case InsertTenant =>
        if CanMakeTenant(s, call.names.tenant) then s.(tenants := s.tenants + [Tenant(uuid, call.names.tenant, true)])
        else s
      case InsertProject(t) =>
        if HasProject(s, t, call.names.project) then s
        else s.(projects := s.projects + [Project(t, call.names.project)])
      case InsertEnvironment(t) =>
        if HasEnvironmentRow(s, t, call.names.project, call.names.environment) then s
        else s.(environments := s.environments + [Environment(t, call.names.project, call.names.environment, false)])
      case CloseWindow(_) => if s.setup.Some? then s else s.(setup := call.closes)
      case _ => s
  }

  function Apply(s: State, step: Step): State
    requires Enabled(s, step)
  {
    match step
    case BeginProvision(id, names) => s.(calls := s.calls[id := Call(names, None, FindTenant)])
    case BeginWizard(id, names, controller, _) =>
      s.(calls := s.calls[id := Call(names, Some(Lock(controller, OperatorKind)), FindTenant)])
    case BeginComplete(id, controller, kind) =>
      s.(calls := s.calls[id := Call(Names("", "", ""), Some(Lock(controller, kind)), CloseWindow(None))])
    case Advance(id, reply, uuid) =>
      var call := s.calls[id];
      Written(s, call, reply, uuid).(calls := s.calls[id := call.(at := NextAt(s, call, reply, uuid))])
    case OtherTenant(name, uuid) =>
      if HasTenant(s, name) then s else s.(tenants := s.tenants + [Tenant(uuid, name, false)])
    case DeleteEnvironment(which) =>
      s.(environments := s.environments[which := s.environments[which].(deleted := true)])
  }

  predicate Run(start: State, steps: seq<Step>, end: State)
    decreases |steps|
  {
    if steps == [] then end == start
    else Enabled(start, steps[0]) && Run(Apply(start, steps[0]), steps[1..], end)
  }

  const EMPTY := State([], [], [], None, map[])

  // ---------------------------------------------------------------------------
  // What every interleaving keeps
  // ---------------------------------------------------------------------------

  ghost predicate TenantsUnique(s: State) {
    forall i, j | 0 <= i < j < |s.tenants| ::
      s.tenants[i].name != s.tenants[j].name && s.tenants[i].uuid != s.tenants[j].uuid
        && !(s.tenants[i].system && s.tenants[j].system)
  }

  predicate SameEnvironment(a: Environment, b: Environment) {
    a.tenant == b.tenant && a.project == b.project && a.slug == b.slug
  }

  ghost predicate ScopesUnique(s: State) {
    && (forall i, j | 0 <= i < j < |s.projects| :: s.projects[i] != s.projects[j])
    && (forall i, j | 0 <= i < j < |s.environments| :: !SameEnvironment(s.environments[i], s.environments[j]))
  }

  /** Every environment row belongs to a tenant. */
  ghost predicate EnvironmentsOwned(s: State) {
    forall i | 0 <= i < |s.environments| :: TenantKnown(s, s.environments[i].tenant)
  }

  ghost predicate TenantKnown(s: State, t: Uuid) {
    exists i | 0 <= i < |s.tenants| :: s.tenants[i].uuid == t
  }

  ghost predicate Owns(s: State, t: Uuid, name: string) {
    exists i | 0 <= i < |s.tenants| :: s.tenants[i].name == name && s.tenants[i].uuid == t
  }

  /** How much of its scope a call has seen or made. */
  ghost predicate Founded(s: State, call: Call) {
    var n := call.names;
    match call.at
    case FindProject(t) => Owns(s, t, n.tenant)
    case InsertProject(t) => Owns(s, t, n.tenant)
    case FindEnvironment(t) => Owns(s, t, n.tenant) && HasProject(s, t, n.project)
    case InsertEnvironment(t) => Owns(s, t, n.tenant) && HasProject(s, t, n.project)
    case RecordProvision(t) => Provisioned(s, t, n)
    case CloseWindow(t) => call.closes.Some? && (t.Some? ==> Provisioned(s, t.value, n))
    case Done(t) => t.Some? ==> Provisioned(s, t.value, n)
    case _ => true
  }

  ghost predicate Provisioned(s: State, t: Uuid, n: Names) {
    Owns(s, t, n.tenant) && HasProject(s, t, n.project) && HasEnvironmentRow(s, t, n.project, n.environment)
  }

  ghost predicate Inv(s: State) {
    && TenantsUnique(s) && ScopesUnique(s) && EnvironmentsOwned(s)
    && forall id | id in s.calls :: Founded(s, s.calls[id])
  }

  /** Rows only come; an environment row may only turn deleted. */
  ghost predicate Grows(s: State, next: State) {
    && s.tenants <= next.tenants && s.projects <= next.projects
    && |s.environments| <= |next.environments|
    && forall i | 0 <= i < |s.environments| :: SameEnvironment(s.environments[i], next.environments[i])
  }

  lemma GrowsKeepsOwner(s: State, next: State, t: Uuid, name: string)
    requires Grows(s, next) && Owns(s, t, name)
    ensures Owns(next, t, name)
  {
    var i :| 0 <= i < |s.tenants| && s.tenants[i].name == name && s.tenants[i].uuid == t;
    assert next.tenants[i] == s.tenants[i];
  }

  lemma GrowsKeepsProject(s: State, next: State, t: Uuid, slug: string)
    requires Grows(s, next) && HasProject(s, t, slug)
    ensures HasProject(next, t, slug)
  {
    var i :| 0 <= i < |s.projects| && s.projects[i] == Project(t, slug);
    assert next.projects[i] == s.projects[i];
  }

  lemma EnvironmentRowIff(s: State, t: Uuid, project: string, slug: string)
    ensures HasEnvironmentRow(s, t, project, slug) <==>
      exists i | 0 <= i < |s.environments| :: SameEnvironment(s.environments[i], Environment(t, project, slug, false))
  {
    if i :| 0 <= i < |s.environments| && SameEnvironment(s.environments[i], Environment(t, project, slug, false)) {
      assert s.environments[i] == Environment(t, project, slug, s.environments[i].deleted);
    }
  }

  lemma GrowsKeepsEnvironment(s: State, next: State, t: Uuid, project: string, slug: string)
    requires Grows(s, next) && HasEnvironmentRow(s, t, project, slug)
    ensures HasEnvironmentRow(next, t, project, slug)
  {
    EnvironmentRowIff(s, t, project, slug);
    EnvironmentRowIff(next, t, project, slug);
    var i :| 0 <= i < |s.environments| && SameEnvironment(s.environments[i], Environment(t, project, slug, false));
    assert SameEnvironment(next.environments[i], Environment(t, project, slug, false));
  }

  lemma FoundedLasts(s: State, next: State, call: Call)
    requires Grows(s, next) && Founded(s, call)
    ensures Founded(next, call)
  {
    forall t, name | Owns(s, t, name) ensures Owns(next, t, name) {
      GrowsKeepsOwner(s, next, t, name);
    }
    forall t, slug | HasProject(s, t, slug) ensures HasProject(next, t, slug) {
      GrowsKeepsProject(s, next, t, slug);
    }
    forall t, project, slug | HasEnvironmentRow(s, t, project, slug) ensures HasEnvironmentRow(next, t, project, slug) {
      GrowsKeepsEnvironment(s, next, t, project, slug);
    }
  }

  lemma WrittenGrows(s: State, call: Call, reply: Reply, uuid: Uuid)
    ensures Grows(s, Written(s, call, reply, uuid))
    ensures Written(s, call, reply, uuid).setup ==
      if s.setup.None? && reply != Undone && call.at.CloseWindow? then call.closes else s.setup
  {
  }

  lemma WrittenUnique(s: State, call: Call, reply: Reply, uuid: Uuid)
    requires TenantsUnique(s) && ScopesUnique(s) && FreshUuid(s, uuid)
    ensures TenantsUnique(Written(s, call, reply, uuid)) && ScopesUnique(Written(s, call, reply, uuid))
  {
    if call.at.InsertEnvironment? {
      EnvironmentRowIff(s, call.at.t, call.names.project, call.names.environment);
    }
  }

  lemma NextFounded(s: State, call: Call, reply: Reply, uuid: Uuid)
    requires Founded(s, call) && Running(call)
    ensures Founded(Written(s, call, reply, uuid), call.(at := NextAt(s, call, reply, uuid)))
  {
    var next := Written(s, call, reply, uuid);
    WrittenGrows(s, call, reply, uuid);
    FoundedLasts(s, next, call);
    if call.at.InsertTenant? && next.tenants != s.tenants {
      assert next.tenants[|s.tenants|] == Tenant(uuid, call.names.tenant, true);
    }
    if call.at.InsertProject? && next.projects != s.projects {
      assert next.projects[|s.projects|] == Project(call.at.t, call.names.project);
    }
    if call.at.InsertEnvironment? && next.environments != s.environments {
      assert next.environments[|s.environments|] ==
        Environment(call.at.t, call.names.project, call.names.environment, false);
    }
  }

  lemma StepGrows(s: State, step: Step)
    requires Inv(s) && Enabled(s, step)
    ensures Grows(s, Apply(s, step))
    ensures TenantsUnique(Apply(s, step)) && ScopesUnique(Apply(s, step))
  {
    if step.Advance? {
      WrittenGrows(s, s.calls[step.id], step.reply, step.uuid);
      WrittenUnique(s, s.calls[step.id], step.reply, step.uuid);
    }
  }

  lemma StepKeepsOwned(s: State, step: Step)
    requires Inv(s) && Enabled(s, step)
    ensures EnvironmentsOwned(Apply(s, step))
  {
    var next := Apply(s, step);
    StepGrows(s, step);
    forall i | 0 <= i < |next.environments| ensures TenantKnown(next, next.environments[i].tenant) {
      if i < |s.environments| {
        assert TenantKnown(s, s.environments[i].tenant);
        var j :| 0 <= j < |s.tenants| && s.tenants[j].uuid == s.environments[i].tenant;
        assert next.tenants[j] == s.tenants[j];
      } else {
        var call := s.calls[step.id];
        assert Founded(s, call) && Owns(s, call.at.t, call.names.tenant);
        var j :| 0 <= j < |s.tenants| && s.tenants[j].uuid == call.at.t;
        assert next.tenants[j] == s.tenants[j];
      }
    }
  }

  lemma StepKeepsInv(s: State, step: Step)
    requires Inv(s) && Enabled(s, step)
    ensures Inv(Apply(s, step))
  {
    var next := Apply(s, step);
    StepGrows(s, step);
    StepKeepsOwned(s, step);
    forall id | id in next.calls ensures Founded(next, next.calls[id]) {
      if step.Advance? && id == step.id {
        NextFounded(s, s.calls[id], step.reply, step.uuid);
        var written := Written(s, s.calls[id], step.reply, step.uuid);
        assert Grows(written, next);
        FoundedLasts(written, next, next.calls[id]);
      } else if id in s.calls {
        FoundedLasts(s, next, s.calls[id]);
      }
    }
  }

  lemma {:induction false} RunKeepsInv(start: State, steps: seq<Step>, end: State)
    requires Inv(start) && Run(start, steps, end)
    ensures Inv(end)
    decreases |steps|
  {
    if steps != [] {
      StepKeepsInv(start, steps[0]);
      RunKeepsInv(Apply(start, steps[0]), steps[1..], end);
    }
  }

  // ---------------------------------------------------------------------------
  // Replicas converge
  // ---------------------------------------------------------------------------

  /** However the replicas interleave and fail, calls that succeed for one tenant name report one tenant. */
  lemma {:induction false} SuccessfulCallsAgree(steps: seq<Step>, s: State, a: CallId, b: CallId)
    requires Run(EMPTY, steps, s) && a in s.calls && b in s.calls
    requires s.calls[a].at.Done? && s.calls[a].at.found.Some? && s.calls[b].at.Done? && s.calls[b].at.found.Some?
    requires s.calls[a].names.tenant == s.calls[b].names.tenant
    ensures s.calls[a].at.found == s.calls[b].at.found
  {
    RunKeepsInv(EMPTY, steps, s);
    var i :| 0 <= i < |s.tenants| && s.tenants[i].name == s.calls[a].names.tenant
      && s.tenants[i].uuid == s.calls[a].at.found.value;
    var j :| 0 <= j < |s.tenants| && s.tenants[j].name == s.calls[b].names.tenant
      && s.tenants[j].uuid == s.calls[b].at.found.value;
    assert !(i < j) && !(j < i);
  }

  /** After a success there is exactly one tenant of the name, one project row and one environment row of the scope. */
  lemma {:induction false} ExactlyOneScope(steps: seq<Step>, s: State, id: CallId)
    requires Run(EMPTY, steps, s) && id in s.calls && s.calls[id].at.Done? && s.calls[id].at.found.Some?
    ensures var n, t := s.calls[id].names, s.calls[id].at.found.value;
            && (exists i | 0 <= i < |s.tenants| ::
                  s.tenants[i].name == n.tenant && s.tenants[i].uuid == t
                  && forall j | 0 <= j < |s.tenants| && s.tenants[j].name == n.tenant :: j == i)
            && (exists i | 0 <= i < |s.projects| ::
                  s.projects[i] == Project(t, n.project)
                  && forall j | 0 <= j < |s.projects| && s.projects[j] == Project(t, n.project) :: j == i)
            && (exists i | 0 <= i < |s.environments| ::
                  SameEnvironment(s.environments[i], Environment(t, n.project, n.environment, false))
                  && forall j | 0 <= j < |s.environments|
                     && SameEnvironment(s.environments[j], Environment(t, n.project, n.environment, false)) :: j == i)
  {
    RunKeepsInv(EMPTY, steps, s);
    var n, t := s.calls[id].names, s.calls[id].at.found.value;
    EnvironmentRowIff(s, t, n.project, n.environment);
    OneOfEach(s, t, n);
  }

  lemma OneOfEach(s: State, t: Uuid, n: Names)
    requires TenantsUnique(s) && ScopesUnique(s) && Provisioned(s, t, n)
    ensures exists i | 0 <= i < |s.tenants| ::
      s.tenants[i].name == n.tenant && s.tenants[i].uuid == t
      && forall j | 0 <= j < |s.tenants| && s.tenants[j].name == n.tenant :: j == i
    ensures exists i | 0 <= i < |s.projects| ::
      s.projects[i] == Project(t, n.project)
      && forall j | 0 <= j < |s.projects| && s.projects[j] == Project(t, n.project) :: j == i
    ensures exists i | 0 <= i < |s.environments| ::
      SameEnvironment(s.environments[i], Environment(t, n.project, n.environment, false))
      && forall j | 0 <= j < |s.environments|
         && SameEnvironment(s.environments[j], Environment(t, n.project, n.environment, false)) :: j == i
  {
    var i :| 0 <= i < |s.tenants| && s.tenants[i].name == n.tenant && s.tenants[i].uuid == t;
    forall j | 0 <= j < |s.tenants| && s.tenants[j].name == n.tenant ensures j == i {
      assert !(i < j) && !(j < i);
    }
    var p :| 0 <= p < |s.projects| && s.projects[p] == Project(t, n.project);
    forall j | 0 <= j < |s.projects| && s.projects[j] == Project(t, n.project) ensures j == p {
      assert !(p < j) && !(j < p);
    }
    EnvironmentRowIff(s, t, n.project, n.environment);
    var e :| 0 <= e < |s.environments|
      && SameEnvironment(s.environments[e], Environment(t, n.project, n.environment, false));
    forall j | 0 <= j < |s.environments|
      && SameEnvironment(s.environments[j], Environment(t, n.project, n.environment, false))
      ensures j == e
    {
      assert !(e < j) && !(j < e);
    }
  }

  // ---------------------------------------------------------------------------
  // What a success is worth
  // ---------------------------------------------------------------------------

  /** Some tenant of the name has a soft-deleted environment row of this project and slug. */
  ghost predicate ScopeDeleted(s: State, n: Names) {
    exists i | 0 <= i < |s.tenants| ::
      s.tenants[i].name == n.tenant && Environment(s.tenants[i].uuid, n.project, n.environment, true) in s.environments
  }

  ghost predicate NothingDeleted(steps: seq<Step>) {
    forall i | 0 <= i < |steps| :: !steps[i].DeleteEnvironment?
  }

  /** While nothing is deleted, environment rows stay as they are and new ones are live. */
  ghost predicate OnlyLiveAdded(s: State, next: State) {
    && s.environments <= next.environments && s.tenants <= next.tenants
    && forall i | |s.environments| <= i < |next.environments| :: !next.environments[i].deleted
  }

  lemma {:induction false} RunOnlyAddsLive(start: State, steps: seq<Step>, end: State)
    requires Inv(start) && Run(start, steps, end) && NothingDeleted(steps)
    ensures Inv(end) && OnlyLiveAdded(start, end)
    decreases |steps|
  {
    if steps != [] {
      var next := Apply(start, steps[0]);
      assert !steps[0].DeleteEnvironment?;
      StepKeepsInv(start, steps[0]);
      StepGrows(start, steps[0]);
      assert OnlyLiveAdded(start, next);
      assert NothingDeleted(steps[1..]) by {
        assert forall i | 0 <= i < |steps[1..]| :: steps[1..][i] == steps[i + 1];
      }
      RunOnlyAddsLive(next, steps[1..], end);
    }
  }

  /** Two rows of one scope are one row. */
  lemma OneRowPerScope(s: State, t: Uuid, project: string, slug: string)
    requires ScopesUnique(s) && Environment(t, project, slug, true) in s.environments
    ensures !HasEnvironment(s, t, project, slug)
  {
    var i :| 0 <= i < |s.environments| && s.environments[i] == Environment(t, project, slug, true);
    forall j | 0 <= j < |s.environments| ensures s.environments[j] != Environment(t, project, slug, false) {
      assert i < j ==> !SameEnvironment(s.environments[i], s.environments[j]);
      assert j < i ==> !SameEnvironment(s.environments[j], s.environments[i]);
    }
  }

  /** A row that was there before belongs to a tenant that was there before. */
  lemma DeletedRowIsOfOldTenant(start: State, end: State, t: Uuid, n: Names)
    requires Inv(start) && Inv(end) && OnlyLiveAdded(start, end) && Owns(end, t, n.tenant)
    requires Environment(t, n.project, n.environment, true) in end.environments
    ensures ScopeDeleted(start, n)
  {
    var e :| 0 <= e < |end.environments| && end.environments[e] == Environment(t, n.project, n.environment, true);
    assert e < |start.environments| && start.environments[e] == end.environments[e];
    assert TenantKnown(start, start.environments[e].tenant);
    var j :| 0 <= j < |start.tenants| && start.tenants[j].uuid == t;
    var i :| 0 <= i < |end.tenants| && end.tenants[i].name == n.tenant && end.tenants[i].uuid == t;
    assert end.tenants[j] == start.tenants[j];
    assert i == j;
  }

  lemma DeletedScopeStays(start: State, end: State, t: Uuid, n: Names)
    requires Inv(end) && OnlyLiveAdded(start, end) && Owns(end, t, n.tenant) && ScopeDeleted(start, n)
    ensures Environment(t, n.project, n.environment, true) in end.environments
  {
    var i :| 0 <= i < |start.tenants| && start.tenants[i].name == n.tenant
      && Environment(start.tenants[i].uuid, n.project, n.environment, true) in start.environments;
    var e :| 0 <= e < |start.environments|
      && start.environments[e] == Environment(start.tenants[i].uuid, n.project, n.environment, true);
    assert end.environments[e] == start.environments[e] && end.tenants[i] == start.tenants[i];
    var j :| 0 <= j < |end.tenants| && end.tenants[j].name == n.tenant && end.tenants[j].uuid == t;
    assert !(i < j) && !(j < i);
  }

  /**
    A success promises a usable environment if and only if the scope had no
    soft-deleted environment row before the call: the unique index still counts such a
    row, and the conflict it raises is read as a lost race. Any steps of others may lie
    between, except deletions, which could undo any promise.
  */
  lemma {:induction false} SuccessIsUsableIff(before: seq<Step>, start: State, steps: seq<Step>, end: State, id: CallId)
    requires Run(EMPTY, before, start) && id in start.calls && start.calls[id].at == FindTenant
    requires Run(start, steps, end) && NothingDeleted(steps)
    requires id in end.calls && end.calls[id].at.Done? && end.calls[id].at.found.Some?
    ensures end.calls[id].names == start.calls[id].names
    ensures var n, t := start.calls[id].names, end.calls[id].at.found.value;
            HasEnvironment(end, t, n.project, n.environment) <==> !ScopeDeleted(start, n)
  {
    RunKeepsInv(EMPTY, before, start);
    RunOnlyAddsLive(start, steps, end);
    RunKeepsCallNames(start, steps, end, id);
    var n, t := start.calls[id].names, end.calls[id].at.found.value;
    assert Founded(end, end.calls[id]) && Provisioned(end, t, n);
    if ScopeDeleted(start, n) {
      DeletedScopeStays(start, end, t, n);
      OneRowPerScope(end, t, n.project, n.environment);
    } else if !HasEnvironment(end, t, n.project, n.environment) {
      DeletedRowIsOfOldTenant(start, end, t, n);
    }
  }

  lemma {:induction false} RunKeepsCallNames(start: State, steps: seq<Step>, end: State, id: CallId)
    requires Run(start, steps, end) && id in start.calls
    ensures id in end.calls && end.calls[id].names == start.calls[id].names
      && end.calls[id].closes == start.calls[id].closes
    decreases |steps|
  {
    if steps != [] {
      RunKeepsCallNames(Apply(start, steps[0]), steps[1..], end, id);
    }
  }

  // A run that ends in such a success: provision, delete the environment, provision again.

  function Answer(id: CallId, uuid: Uuid): Step {
    Advance(id, Answered, uuid)
  }

  lemma Then(steps: seq<Step>, s: State, step: Step) returns (more: seq<Step>, next: State)
    requires Run(EMPTY, steps, s) && Enabled(s, step)
    ensures more == steps + [step] && next == Apply(s, step) && Run(EMPTY, more, next)
  {
    more, next := steps + [step], Apply(s, step);
    assert [step][1..] == [] && Run(next, [], next);
    assert Run(s, [step], next);
    RunConcat(EMPTY, steps, s, [step], next);
  }

  /** The tables of the example: what the first provision makes, with its environment live or deleted. */
  function Tables(n: Names, calls: map<CallId, Call>, environments: seq<Environment>): State {
    State([Tenant(7, n.tenant, true)], [Project(7, n.project)], environments, None, calls)
  }

  function Row(n: Names, deleted: bool): Environment {
    Environment(7, n.project, n.environment, deleted)
  }

  function FirstCall(n: Names, at: At): map<CallId, Call> {
    map[0 := Call(n, None, at)]
  }

  /** A provision that nobody disturbs makes its three rows. */
  lemma FirstProvision(n: Names) returns (steps: seq<Step>, s: State)
    ensures Run(EMPTY, steps, s) && s == Tables(n, FirstCall(n, Done(Some(7))), [Row(n, false)])
    ensures AllAnswered(steps, 1)
  {
    assert Run(EMPTY, [], EMPTY);
    steps, s := Then([], EMPTY, BeginProvision(0, n));
    steps, s := Then(steps, s, Answer(0, 7));
    assert s == EMPTY.(calls := FirstCall(n, InsertTenant));
    steps, s := Then(steps, s, Answer(0, 7));
    assert s == State([Tenant(7, n.tenant, true)], [], [], None, FirstCall(n, FindProject(7)));
    steps, s := FirstScope(n, steps, s);
  }

  lemma FirstScope(n: Names, before: seq<Step>, start: State) returns (steps: seq<Step>, s: State)
    requires Run(EMPTY, before, start)
    requires start == State([Tenant(7, n.tenant, true)], [], [], None, FirstCall(n, FindProject(7)))
    ensures Run(EMPTY, steps, s) && s == Tables(n, FirstCall(n, Done(Some(7))), [Row(n, false)])
    ensures steps == before + [Answer(0, 8), Answer(0, 8), Answer(0, 8), Answer(0, 8), Answer(0, 8)]
  {
    steps, s := Then(before, start, Answer(0, 8));
    assert s == start.(calls := FirstCall(n, InsertProject(7)));
    steps, s := Then(steps, s, Answer(0, 8));
    assert s == Tables(n, FirstCall(n, FindEnvironment(7)), []);
    steps, s := FirstEnvironment(n, steps, s);
  }

  lemma FirstEnvironment(n: Names, before: seq<Step>, start: State) returns (steps: seq<Step>, s: State)
    requires Run(EMPTY, before, start) && start == Tables(n, FirstCall(n, FindEnvironment(7)), [])
    ensures Run(EMPTY, steps, s) && s == Tables(n, FirstCall(n, Done(Some(7))), [Row(n, false)])
    ensures steps == before + [Answer(0, 8), Answer(0, 8), Answer(0, 8)]
  {
    steps, s := Then(before, start, Answer(0, 8));
    assert s == Tables(n, FirstCall(n, InsertEnvironment(7)), []);
    steps, s := Then(steps, s, Answer(0, 8));
    assert s == Tables(n, FirstCall(n, RecordProvision(7)), [Row(n, false)]);
    steps, s := Then(steps, s, Answer(0, 8));
  }

  function SecondCall(n: Names, at: At): map<CallId, Call> {
    FirstCall(n, Done(Some(7)))[1 := Call(n, None, at)]
  }

  /** Provisioning again over the deleted row succeeds all the same. */
  lemma SecondProvision(n: Names, before: seq<Step>, start: State) returns (steps: seq<Step>, s: State)
    requires Run(EMPTY, before, start) && start == Tables(n, FirstCall(n, Done(Some(7))), [Row(n, true)])
    ensures Run(EMPTY, steps, s) && s == Tables(n, SecondCall(n, Done(Some(7))), [Row(n, true)])
  {
    steps, s := Then(before, start, BeginProvision(1, n));
    steps, s := Then(steps, s, Answer(1, 8));
    assert s == Tables(n, SecondCall(n, FindProject(7)), [Row(n, true)]);
    steps, s := Then(steps, s, Answer(1, 8));
    assert s == Tables(n, SecondCall(n, FindEnvironment(7)), [Row(n, true)]);
    steps, s := SecondEnvironment(n, steps, s);
  }

  lemma SecondEnvironment(n: Names, before: seq<Step>, start: State) returns (steps: seq<Step>, s: State)
    requires Run(EMPTY, before, start) && start == Tables(n, SecondCall(n, FindEnvironment(7)), [Row(n, true)])
    ensures Run(EMPTY, steps, s) && s == Tables(n, SecondCall(n, Done(Some(7))), [Row(n, true)])
  {
    steps, s := Then(before, start, Answer(1, 8));
    assert s == Tables(n, SecondCall(n, InsertEnvironment(7)), [Row(n, true)]);
    steps, s := Then(steps, s, Answer(1, 8));
    assert s == Tables(n, SecondCall(n, RecordProvision(7)), [Row(n, true)]);
    steps, s := Then(steps, s, Answer(1, 8));
  }

  /** Provision, delete the environment, provision again: the second call succeeds without a usable environment. */
  lemma SuccessCanBeUnusable(n: Names) returns (steps: seq<Step>, s: State)
    ensures Run(EMPTY, steps, s) && 1 in s.calls && s.calls[1] == Call(n, None, Done(Some(7)))
    ensures !HasEnvironment(s, 7, n.project, n.environment)
  {
    steps, s := FirstProvision(n);
    steps, s := Then(steps, s, DeleteEnvironment(0));
    assert s == Tables(n, FirstCall(n, Done(Some(7))), [Row(n, true)]);
    steps, s := SecondProvision(n, steps, s);
  }

  // ---------------------------------------------------------------------------
  // When a lost insert is a lost race
  // ---------------------------------------------------------------------------

  /** Every call that was ever begun provisions the tenant of this name, or only closes the window. */
  ghost predicate OnlyProvisions(s: State, name: string) {
    forall id | id in s.calls :: s.calls[id].names.tenant == name || ClosesOnly(s.calls[id])
  }

  predicate ClosesOnly(call: Call) {
    call.at.CloseWindow? || call.at.Done? || call.at.Failed?
  }

  /** The system tenant is the tenant of that name, and a call that looks again will find it. */
  ghost predicate RacesAreForName(s: State, name: string) {
    && (HasSystem(s) ==> HasTenant(s, name))
    && (forall id | id in s.calls :: s.calls[id].at.RefindTenant? ==> HasTenant(s, name))
    && (forall id | id in s.calls :: s.calls[id].at != Failed(NotFound))
  }

  lemma HasTenantLasts(s: State, next: State, name: string)
    requires Grows(s, next) && HasTenant(s, name)
    ensures HasTenant(next, name)
  {
    var i :| 0 <= i < |s.tenants| && s.tenants[i].name == name;
    assert next.tenants[i] == s.tenants[i];
  }

  lemma StepKeepsRaces(s: State, step: Step, name: string)
    requires Inv(s) && OnlyProvisions(s, name) && RacesAreForName(s, name) && Enabled(s, step) && IsFor(step, name)
    ensures OnlyProvisions(Apply(s, step), name) && RacesAreForName(Apply(s, step), name)
  {
    var next := Apply(s, step);
    StepGrows(s, step);
    if HasTenant(s, name) {
      HasTenantLasts(s, next, name);
    }
    if HasSystem(next) && !HasSystem(s) {
      var i :| 0 <= i < |next.tenants| && next.tenants[i].system;
      assert next.tenants[i].name == name;
    }
  }

  predicate IsFor(step: Step, name: string) {
    match step
    case BeginProvision(_, names) => names.tenant == name
    case BeginWizard(_, names, _, _) => names.tenant == name
    case _ => true
  }

  ghost predicate AllFor(steps: seq<Step>, name: string) {
    forall i | 0 <= i < |steps| :: IsFor(steps[i], name)
  }

  ghost predicate AllAnswered(steps: seq<Step>, id: CallId) {
    forall i | 0 <= i < |steps| :: steps[i].Advance? && steps[i].id == id ==> steps[i].reply == Answered
  }

  /** A call whose store calls all answer can end badly only at the lock. */
  ghost predicate FailsAtLockOnly(s: State, id: CallId) {
    id in s.calls && s.calls[id].at.Failed? && s.calls[id].at != Failed(NotFound)
    ==> s.calls[id].at == Failed(Conflict) && s.calls[id].closes.Some?
  }

  lemma {:induction false} RunKeepsRaces(start: State, steps: seq<Step>, end: State, name: string, id: CallId)
    requires Inv(start) && OnlyProvisions(start, name) && RacesAreForName(start, name) && FailsAtLockOnly(start, id)
    requires Run(start, steps, end) && AllFor(steps, name) && AllAnswered(steps, id)
    ensures RacesAreForName(end, name) && FailsAtLockOnly(end, id)
    decreases |steps|
  {
    if steps != [] {
      var next := Apply(start, steps[0]);
      StepKeepsInv(start, steps[0]);
      assert IsFor(steps[0], name);
      StepKeepsRaces(start, steps[0], name);
      assert steps[0].Advance? && steps[0].id == id ==> steps[0].reply == Answered;
      assert FailsAtLockOnly(next, id) by {
        if id in start.calls {
          assert Founded(start, start.calls[id]);
        }
      }
      assert AllFor(steps[1..], name) && AllAnswered(steps[1..], id) by {
        assert forall i | 0 <= i < |steps[1..]| :: steps[1..][i] == steps[i + 1];
      }
      RunKeepsRaces(next, steps[1..], end, name, id);
    }
  }

  /**
    Replicas that provision one tenant name, in any interleaving and with any failures
    of one another: a call whose own store calls all answer succeeds, or finds the
    setup window closed when it was to close it.
  */
  lemma {:induction false} SameNameSucceeds(steps: seq<Step>, s: State, name: string, id: CallId)
    requires Run(EMPTY, steps, s) && AllFor(steps, name) && AllAnswered(steps, id)
    requires id in s.calls && !Running(s.calls[id])
    ensures s.calls[id].at.Done? || (s.calls[id].at == Failed(Conflict) && s.calls[id].closes.Some?)
  {
    RunKeepsRaces(EMPTY, steps, s, name, id);
  }

  /** For two tenant names it fails: the second finds another system tenant and no tenant of its own name. */
  lemma ForeignSystemTenantRefuses(n: Names, other: Names) returns (steps: seq<Step>, s: State)
    requires other.tenant != n.tenant
    ensures Run(EMPTY, steps, s) && AllAnswered(steps, 1)
    ensures 1 in s.calls && s.calls[1] == Call(other, None, Failed(NotFound))
  {
    steps, s := FirstProvision(n);
    var first := steps;
    var calls := FirstCall(n, Done(Some(7)));
    steps, s := Then(steps, s, BeginProvision(1, other));
    steps, s := Then(steps, s, Answer(1, 8));
    assert s == Tables(n, calls[1 := Call(other, None, InsertTenant)], [Row(n, false)]);
    steps, s := Then(steps, s, Answer(1, 8));
    assert s == Tables(n, calls[1 := Call(other, None, RefindTenant)], [Row(n, false)]);
    steps, s := Then(steps, s, Answer(1, 8));
    assert steps == first + [BeginProvision(1, other), Answer(1, 8), Answer(1, 8), Answer(1, 8)];
  }

  // ---------------------------------------------------------------------------
  // The one-shot lock
  // ---------------------------------------------------------------------------

  /** The controller is recorded at most once, whichever path gets there first. */
  lemma {:induction false} LockSetOnce(start: State, steps: seq<Step>, end: State)
    requires Run(start, steps, end) && start.setup.Some?
    ensures end.setup == start.setup
    decreases |steps|
  {
    if steps != [] {
      if steps[0].Advance? {
        WrittenGrows(start, start.calls[steps[0].id], steps[0].reply, steps[0].uuid);
      }
      LockSetOnce(Apply(start, steps[0]), steps[1..], end);
    }
  }

  /** Once an orchestrator owns the instance no later wizard request is let in, on any replica. */
  lemma {:induction false} WizardStaysClosed(
    start: State, steps: seq<Step>, end: State, id: CallId, names: Names, controller: string, coreAttached: bool)
    requires Run(start, steps, end) && start.setup.Some? && start.setup.value.kind == ServiceKind
    ensures !Enabled(end, BeginWizard(id, names, controller, coreAttached))
  {
    LockSetOnce(start, steps, end);
  }

  /** The step begins a call that sets out to put this on the lock; a wizard is an operator's. */
  predicate SetsOut(step: Step, id: CallId, lock: Lock) {
    match step
    case BeginWizard(call, _, controller, _) => call == id && lock == Lock(controller, OperatorKind)
    case BeginComplete(call, controller, kind) => call == id && lock == Lock(controller, kind)
    case _ => false
  }

  ghost predicate SetOutIn(steps: seq<Step>, id: CallId, lock: Lock) {
    exists i | 0 <= i < |steps| :: SetsOut(steps[i], id, lock)
  }

  lemma {:induction false} CallsSetOut(start: State, steps: seq<Step>, end: State, id: CallId)
    requires Run(start, steps, end) && id in end.calls && end.calls[id].closes.Some?
    ensures (id in start.calls && start.calls[id].closes == end.calls[id].closes)
      || SetOutIn(steps, id, end.calls[id].closes.value)
    decreases |steps|
  {
    if steps != [] {
      var next := Apply(start, steps[0]);
      CallsSetOut(next, steps[1..], end, id);
      var lock := end.calls[id].closes.value;
      if SetOutIn(steps[1..], id, lock) {
        var i :| 0 <= i < |steps[1..]| && SetsOut(steps[1..][i], id, lock);
        assert SetsOut(steps[i + 1], id, lock);
      } else if id !in start.calls {
        assert SetsOut(steps[0], id, lock);
      }
    }
  }

  lemma {:induction false} LockSetOut(start: State, steps: seq<Step>, end: State) returns (id: CallId)
    requires Run(start, steps, end) && end.setup.Some? && start.setup.None?
    ensures id in end.calls && end.calls[id].closes == end.setup
    decreases |steps|
  {
    var next := Apply(start, steps[0]);
    if next.setup.None? {
      id := LockSetOut(next, steps[1..], end);
    } else {
      id := steps[0].id;
      LockSetOnce(next, steps[1..], end);
      RunKeepsCallNames(next, steps[1..], end, id);
    }
  }

  /**
    What the lock says of whoever closed the window is true: some call set out to put
    exactly this there, and if a call succeeded in closing it, that call did. Wizards
    leave an operator's lock, and only a completion on behalf of a service a service's.
  */
  lemma {:induction false} LockTellsWhoClosed(steps: seq<Step>, s: State) returns (closer: CallId)
    requires Run(EMPTY, steps, s) && s.setup.Some?
    ensures SetOutIn(steps, closer, s.setup.value)
    ensures forall id | id in s.calls && Closed(s.calls[id]) :: SetOutIn(steps, id, s.setup.value)
  {
    closer := LockSetOut(EMPTY, steps, s);
    CallsSetOut(EMPTY, steps, s, closer);
    RunKeepsOneCloser(EMPTY, steps, s);
    forall id | id in s.calls && Closed(s.calls[id]) ensures SetOutIn(steps, id, s.setup.value) {
      CallsSetOut(EMPTY, steps, s, id);
    }
  }

  /** A wizard request is let in unless an orchestrator is declared or has closed the window. */
  lemma WizardIsLetInIff(s: State, id: CallId, names: Names, controller: string, coreAttached: bool)
    requires id !in s.calls
    ensures Enabled(s, BeginWizard(id, names, controller, coreAttached)) <==>
      !coreAttached && !(exists service :: s.setup == Some(Lock(service, ServiceKind)))
  {
    if s.setup.Some? && s.setup.value.kind == ServiceKind {
      assert s.setup == Some(Lock(s.setup.value.controller, ServiceKind));
    }
  }

  /** The call succeeded in closing the window. */
  predicate Closed(call: Call) {
    call.at.Done? && call.closes.Some?
  }

  ghost predicate OneCloser(s: State) {
    && (forall a, b | a in s.calls && b in s.calls && Closed(s.calls[a]) && Closed(s.calls[b]) :: a == b)
    && (forall a | a in s.calls && Closed(s.calls[a]) :: s.setup == s.calls[a].closes)
  }

  lemma {:induction false} RunKeepsOneCloser(start: State, steps: seq<Step>, end: State)
    requires Inv(start) && OneCloser(start) && Run(start, steps, end)
    ensures OneCloser(end)
    decreases |steps|
  {
    if steps != [] {
      StepKeepsInv(start, steps[0]);
      if steps[0].Advance? {
        var call := start.calls[steps[0].id];
        WrittenGrows(start, call, steps[0].reply, steps[0].uuid);
        assert Founded(start, call);
      }
      assert OneCloser(Apply(start, steps[0]));
      RunKeepsOneCloser(Apply(start, steps[0]), steps[1..], end);
    }
  }

  /**
    Of the calls that set out to close the window, in any interleaving, at most one
    succeeds, the lock is that one's, and every other one that has ended has failed.
  */
  lemma {:induction false} OneCallCloses(steps: seq<Step>, s: State, winner: CallId, other: CallId)
    requires Run(EMPTY, steps, s) && winner in s.calls && Closed(s.calls[winner])
    requires other in s.calls && s.calls[other].closes.Some? && other != winner
    ensures s.setup == s.calls[winner].closes
    ensures Running(s.calls[other]) || s.calls[other].at.Failed?
  {
    RunKeepsOneCloser(EMPTY, steps, s);
  }

  // ---------------------------------------------------------------------------
  // The code of one replica among the others
  // ---------------------------------------------------------------------------

  /** What the rest of the world may do between two store calls of one call. */
  ghost predicate OthersRan(s: State, next: State, id: CallId) {
    exists steps: seq<Step> ::
      Run(s, steps, next) && forall i | 0 <= i < |steps| :: !(steps[i].Advance? && steps[i].id == id)
  }

  lemma {:induction false} ReachedIsFounded(steps: seq<Step>, s: State, id: CallId)
    requires Run(EMPTY, steps, s) && id in s.calls
    ensures Founded(s, s.calls[id])
  {
    RunKeepsInv(EMPTY, steps, s);
  }

  /** The world around one call: what the others do before its k-th store call, how that call ends, new uuids. */
  datatype World = World(others: (nat, State) -> State, reply: nat -> Reply, newUuid: State -> Uuid)

  ghost predicate Fair(w: World, id: CallId) {
    forall k: nat, s :: OthersRan(s, w.others(k, s), id) && FreshUuid(w.others(k, s), w.newUuid(w.others(k, s)))
  }

  /** One store call of the call: the state it met and how it ended. */
  datatype Visit = Visit(met: State, at: At, reply: Reply)

  ghost predicate Replied(visits: seq<Visit>) {
    forall i | 0 <= i < |visits| :: visits[i].reply == Answered
  }

  /**
    The tenant is there when it is looked for, can be made when it is to be made, or is
    there when looked for again.
  */
  predicate TenantToBeHad(visits: seq<Visit>, name: string) {
    || (|visits| > 0 && HasTenant(visits[0].met, name))
    || (|visits| > 1 && CanMakeTenant(visits[1].met, name))
    || (|visits| > 2 && HasTenant(visits[2].met, name))
  }

  /** The store calls of a provision that goes through, in order, ending with its audit record. */
  predicate InOrder(visits: seq<Visit>) {
    && (forall i | 0 <= i < |visits| - 1 :: Rank(visits[i].at) < Rank(visits[i + 1].at))
    && (forall i | 0 <= i < |visits| :: Rank(visits[i].at) <= 7)
  }

  function Rank(at: At): nat {
    match at
    case FindTenant => 0
    case InsertTenant => 1
    case RefindTenant => 2
    case FindProject(_) => 3
    case InsertProject(_) => 4
    case FindEnvironment(_) => 5
    case InsertEnvironment(_) => 6
    case RecordProvision(_) => 7
    case CloseWindow(_) => 8
    case Done(_) => 9
    case Failed(_) => 9
  }

  /** The store calls so far are in order and none lies beyond that rank. */
  ghost predicate UpTo(visits: seq<Visit>, rank: nat) {
    visits != [] && InOrder(visits) && Rank(visits[|visits| - 1].at) <= rank
  }

  lemma NextInOrder(visits: seq<Visit>, v: Visit, rank: nat)
    requires UpTo(visits, rank) && rank < Rank(v.at) <= 7
    ensures UpTo(visits + [v], Rank(v.at))
    ensures Replied(visits + [v]) <==> Replied(visits) && v.reply == Answered
  {
    var more := visits + [v];
    assert more[|visits|] == v;
    assert forall i | 0 <= i < |visits| :: more[i] == visits[i];
  }

  lemma HadStays(visits: seq<Visit>, more: seq<Visit>, name: string)
    requires visits <= more && TenantToBeHad(visits, name)
    ensures TenantToBeHad(more, name)
  {
  }

  /** The database as one call sees it, and the run of the protocol that led there. */
  class Database {
    var s: State
    var storeCalls: nat
    ghost var steps: seq<Step>
    ghost var visits: seq<Visit>
    const w: World
    const id: CallId

    ghost predicate Valid() reads this {
      Fair(w, id) && Run(EMPTY, steps, s) && id in s.calls
    }

    constructor (s: State, ghost steps: seq<Step>, w: World, id: CallId)
      requires Fair(w, id) && Run(EMPTY, steps, s) && id in s.calls
      ensures Valid() && this.s == s && this.id == id && visits == []
    {
      this.s, this.steps, this.w, this.id, this.storeCalls, this.visits := s, steps, w, id, 0, [];
    }

    /** One store call, after whatever the others did first. */
    method StoreCall() returns (at: At)
      requires Valid() && Running(s.calls[id])
      modifies this
      ensures Valid() && at == s.calls[id].at && s.calls[id] == old(s).calls[id].(at := at)
      ensures |visits| == |old(visits)| + 1 && visits == old(visits) + [visits[|old(visits)|]]
      ensures var v := visits[|old(visits)|];
              && v.at == old(s).calls[id].at && Founded(v.met, old(s).calls[id])
              && exists uuid :: at == NextAt(v.met, old(s).calls[id], v.reply, uuid)
    {
      var before := w.others(storeCalls, s);
      assert OthersRan(s, before, id);
      ghost var more: seq<Step> :| Run(s, more, before)
        && forall i | 0 <= i < |more| :: !(more[i].Advance? && more[i].id == id);
      OthersLeaveCall(s, more, before, id);
      RunConcat(EMPTY, steps, s, more, before);
      ReachedIsFounded(steps + more, before, id);
      var step := Advance(id, w.reply(storeCalls), w.newUuid(before));
      visits := visits + [Visit(before, s.calls[id].at, step.reply)];
      s := Apply(before, step);
      storeCalls := storeCalls + 1;
      at := s.calls[id].at;
      assert [step][1..] == [];
      assert Run(s, [], s);
      assert Run(before, [step], s);
      RunConcat(EMPTY, steps + more, before, [step], s);
      steps := steps + more + [step];
    }

    /**
      The first part of Provision: the tenant, found, made, or found again after a
      conflict.
    */
    method EnsureTenant() returns (at: At)
      requires Valid() && s.calls[id].at == FindTenant && visits == []
      modifies this
      ensures Valid() && s.calls[id] == old(s).calls[id].(at := at)
      ensures at.FindProject? || at.Failed?
      ensures UpTo(visits, 2)
      ensures Replied(visits) ==> (at.FindProject? <==> TenantToBeHad(visits, s.calls[id].names.tenant))
      ensures at.FindProject? ==> Replied(visits)
      ensures at.Failed? && Replied(visits) ==> at.error == NotFound
    {
      at := StoreCall();
      if at.InsertTenant? {
        at := StoreCall();
        if at.RefindTenant? {
          at := StoreCall();
        }
      }
    }

    /** One store call of a provision, in its place among the others. */
    method NextCall(ghost rank: nat) returns (at: At)
      requires Valid() && Running(s.calls[id]) && UpTo(visits, rank) && rank < Rank(s.calls[id].at) <= 7
        && Replied(visits)
      modifies this
      ensures Valid() && at == s.calls[id].at && s.calls[id] == old(s).calls[id].(at := at)
      ensures UpTo(visits, Rank(old(s).calls[id].at)) && old(visits) <= visits
      ensures exists met, reply, uuid ::
        at == NextAt(met, old(s).calls[id], reply, uuid) && (Replied(visits) <==> reply == Answered)
    {
      at := StoreCall();
      ghost var v := visits[|old(visits)|];
      NextInOrder(old(visits), v, rank);
      ghost var uuid :| at == NextAt(v.met, old(s).calls[id], v.reply, uuid);
      assert at == NextAt(v.met, old(s).calls[id], v.reply, uuid) && (Replied(visits) <==> v.reply == Answered);
    }

    method EnsureProject() returns (at: At)
      requires Valid() && s.calls[id].at.FindProject? && UpTo(visits, 2) && Replied(visits)
      modifies this
      ensures Valid() && s.calls[id] == old(s).calls[id].(at := at)
      ensures at == (if Replied(visits) then FindEnvironment(old(s).calls[id].at.t) else Failed(Internal))
      ensures UpTo(visits, 4) && old(visits) <= visits
    {
      at := NextCall(2);
      if at.InsertProject? {
        at := NextCall(3);
      }
    }

    method EnsureEnvironment() returns (at: At)
      requires Valid() && s.calls[id].at.FindEnvironment? && UpTo(visits, 4) && Replied(visits)
      modifies this
      ensures Valid() && s.calls[id] == old(s).calls[id].(at := at)
      ensures at == (if Replied(visits) then RecordProvision(old(s).calls[id].at.t) else Failed(Internal))
      ensures UpTo(visits, 6) && old(visits) <= visits
    {
      at := NextCall(4);
      if at.InsertEnvironment? {
        at := NextCall(5);
      }
    }

    /** What Provision does once it has its tenant. */
    method EnsureScope() returns (at: At)
      requires Valid() && s.calls[id].at.FindProject? && UpTo(visits, 2) && Replied(visits)
      modifies this
      ensures Valid() && s.calls[id] == old(s).calls[id].(at := at)
      ensures at == (if Replied(visits) then AfterProvision(s.calls[id], old(s).calls[id].at.t) else Failed(Internal))
      ensures InOrder(visits) && old(visits) <= visits
    {
      at := EnsureProject();
      if at.Failed? {
        return;
      }
      at := EnsureEnvironment();
      if at.Failed? {
        return;
      }
      at := NextCall(6);
    }

    /**
      Provision. Whatever the other replicas do in between, its store calls are steps
      of the protocol in their order; if it succeeds its scope exists under the tenant
      it reports. It succeeds exactly when every store call answers and the tenant can
      be had; if only the latter fails, it ends as not found.
    */
    method Provision() returns (r: Result<Uuid, AppError>)
      requires Valid() && s.calls[id].at == FindTenant && visits == []
      modifies this
      ensures Valid() && InOrder(visits)
      ensures s.calls[id] ==
        old(s).calls[id].(at := if r.Ok? then AfterProvision(old(s).calls[id], r.value) else Failed(r.error))
      ensures r.Ok? ==> Provisioned(s, r.value, s.calls[id].names)
      ensures r.Ok? <==> Replied(visits) && TenantToBeHad(visits, s.calls[id].names.tenant)
      ensures r.Err? && Replied(visits) ==> r.error == NotFound
    {
      var at := EnsureTenant();
      if at.Failed? {
        return Err(at.error);
      }
      var tenant := at.t;
      ghost var had := visits;
      at := EnsureScope();
      HadStays(had, visits, s.calls[id].names.tenant);
      if at.Failed? {
        return Err(at.error);
      }
      r := Ok(tenant);
      ReachedIsFounded(steps, s, id);
    }

    /** Complete: the one-shot write. With its store call answered it succeeds exactly on an open window. */
    method Complete() returns (r: Result<(), AppError>)
      requires Valid() && s.calls[id].at.CloseWindow?
      modifies this
      ensures Valid() && s.calls[id] == old(s).calls[id].(at := s.calls[id].at)
      ensures if r.Ok? then s.calls[id].at == Done(old(s).calls[id].at.found) else s.calls[id].at == Failed(r.error)
      ensures |visits| == |old(visits)| + 1 && old(visits) <= visits
      ensures var v := visits[|old(visits)|];
              && v.at == old(s).calls[id].at && Founded(v.met, old(s).calls[id])
              && (r.Ok? <==> v.reply == Answered && v.met.setup.None?)
    {
      var at := StoreCall();
      r := if at.Failed? then Err(at.error) else Ok(());
    }

    /**
      The wizard's single call. The scope first and the window last: the store calls
      are those of a provision, followed by a single attempt at the window exactly when
      that provision succeeded, and that attempt met the provisioned scope. A failed
      provision never attempts it.
    */
    method ProvisionAndComplete() returns (r: Result<Uuid, AppError>, ghost provision: seq<Visit>)
      requires Valid() && s.calls[id].at == FindTenant && s.calls[id].closes.Some? && visits == []
      modifies this
      ensures Valid()
      ensures if r.Ok? then s.calls[id].at == Done(Some(r.value)) else s.calls[id].at == Failed(r.error)
      ensures provision <= visits && InOrder(provision)
      ensures if Replied(provision) && TenantToBeHad(provision, s.calls[id].names.tenant)
              then |visits| == |provision| + 1 && ClosesProvisioned(visits[|provision|], s.calls[id], r)
              else visits == provision && r.Err?
    {
      r := Provision();
      provision := visits;
      if r.Err? {
        return;
      }
      ReachedIsFounded(steps, s, id);
      var completed := Complete();
      if completed.Err? {
        r := Err(completed.error);
      }
    }
  }

  /** An attempt at the window over the provisioned scope; it decides the result. */
  ghost predicate ClosesProvisioned(v: Visit, call: Call, r: Result<Uuid, AppError>) {
    && v.at.CloseWindow? && v.at.found.Some? && Provisioned(v.met, v.at.found.value, call.names)
    && (r.Ok? ==> r.value == v.at.found.value)
    && (r.Ok? <==> v.reply == Answered && v.met.setup.None?)
  }

  lemma {:induction false} OthersLeaveCall(s: State, steps: seq<Step>, next: State, id: CallId)
    requires Run(s, steps, next) && id in s.calls
    requires forall i | 0 <= i < |steps| :: !(steps[i].Advance? && steps[i].id == id)
    ensures id in next.calls && next.calls[id] == s.calls[id]
    decreases |steps|
  {
    if steps != [] {
      forall i | 0 <= i < |steps[1..]| ensures !(steps[1..][i].Advance? && steps[1..][i].id == id) {
        assert steps[1..][i] == steps[i + 1];
      }
      OthersLeaveCall(Apply(s, steps[0]), steps[1..], next, id);
    }
  }

  lemma {:induction false} RunConcat(a: State, xs: seq<Step>, b: State, ys: seq<Step>, c: State)
    requires Run(a, xs, b) && Run(b, ys, c)
    ensures Run(a, xs + ys, c)
    decreases |xs|
  {
    if xs == [] {
      assert xs + ys == ys;
    } else {
      assert (xs + ys)[1..] == xs[1..] + ys;
      RunConcat(Apply(a, xs[0]), xs[1..], b, ys, c);
    }
  }
}
