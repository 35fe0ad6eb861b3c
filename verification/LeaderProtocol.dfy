/**
  Leader election as a protocol of small steps: any number of replicas campaign
  for one session-scoped advisory lock (internal/leader/leader.go and
  internal/leader/postgres.go).

  One step is one thing no other participant can interleave with: a statement
  the database executes, or a change a replica makes to its own fields. Database
  sessions may die at any step, and a replica may crash at any step.
*/
module LeaderProtocol {
  import opened Results

  type ReplicaId = nat
  type SessionId = nat

  /** Where a replica is inside a call that holds the elector's mutex. */
  datatype Phase =
    | Idle
    | Granted(conn: SessionId)    // the lock was granted, the flag is not set yet
    | Releasing(conn: SessionId)  // the flag is cleared, the unlock has not run yet

  /** An elector's fields, and the idle connections of its pool. */
  datatype Replica = Replica(
    leader: bool,
    session: Option<SessionId>,
    promotions: nat,
    pool: set<SessionId>,
    phase: Phase)

  /** The lock manager: who holds the lock, which sessions live, how many were ever opened. */
  datatype Database = Database(holder: Option<SessionId>, alive: set<SessionId>, issued: nat)

  datatype Cluster = Cluster(db: Database, replicas: map<ReplicaId, Replica>)

  /**
    How a statement on a connection ends. A refusal ran nothing; a break ends the
    session. A dropped connection is lost to the client while its session lives on
    until the server notices; the statement may have run.
  */
  datatype Reply = Answered | Refused | Broken | Dropped(ran: bool)

  /** A session ends, and PostgreSQL releases the lock if that session held it. */
  function Kill(db: Database, s: SessionId): Database {
    Database(if db.holder == Some(s) then None else db.holder, db.alive - {s}, db.issued)
  }

  function KillAll(db: Database, lost: set<SessionId>): Database {
    Database(if db.holder.Some? && db.holder.value in lost then None else db.holder, db.alive - lost, db.issued)
  }

  // ---------------------------------------------------------------------------
  // What each step does to the database and to the replica taking it
  // ---------------------------------------------------------------------------

  /** TryLock: acquire `conn` (pooled, or the next fresh session) and try the lock on it. */
  function CampaignEffect(db: Database, rep: Replica, conn: SessionId, reply: Reply): (Database, Replica) {
    var db1 := if conn == db.issued then Database(db.holder, db.alive + {conn}, db.issued + 1) else db;
    var taken := rep.(pool := rep.pool - {conn});
    if reply == Broken || conn !in db1.alive then
      (Kill(db1, conn), taken)
    else if reply.Dropped? then
      (if reply.ran && (db1.holder == None || db1.holder == Some(conn)) then db1.(holder := Some(conn)) else db1, taken)
    else if reply == Refused || (db1.holder != None && db1.holder != Some(conn)) then
      (db1, rep.(pool := rep.pool + {conn}))
    else
      (db1.(holder := Some(conn)), taken.(phase := Granted(conn)))
  }

  /** The rest of Elect once the lock was granted: keep the session, then set the flag. */
  function AdoptEffect(rep: Replica): Replica
    requires rep.phase.Granted?
  {
    rep.(session := Some(rep.phase.conn), leader := true, promotions := rep.promotions + 1, phase := Idle)
  }

  /** releaseLocked up to the unlock: clear the flag first, then take the session away. */
  function BeginReleaseEffect(rep: Replica): Replica {
    rep.(leader := false,
         session := None,
         phase := if rep.session.Some? then Releasing(rep.session.value) else rep.phase)
  }

  /** Heartbeat up to the unlock: only a failed ping stands the replica down. */
  function HeartbeatEffect(rep: Replica, pingOk: bool): Replica {
    if rep.session.Some? && pingOk then rep else BeginReleaseEffect(rep)
  }

  /**
    Release: the three exits. A failed unlock destroys the connection, which ends the
    session if the server hears of it; an unlock that answers, whether or not this
    session held the lock, returns it to the pool.
  */
  function UnlockEffect(db: Database, rep: Replica, reply: Reply): (Database, Replica)
    requires rep.phase.Releasing?
  {
    var conn := rep.phase.conn;
    if conn in db.alive && reply.Dropped? then
      (db.(holder := if reply.ran && db.holder == Some(conn) then None else db.holder), rep.(phase := Idle))
    else if reply != Answered || conn !in db.alive then
      (Kill(db, conn), rep.(phase := Idle))
    else
      (db.(holder := if db.holder == Some(conn) then None else db.holder),
       rep.(phase := Idle, pool := rep.pool + {conn}))
  }

  // ---------------------------------------------------------------------------
  // Runs
  // ---------------------------------------------------------------------------

  datatype Step =
    | Campaign(r: ReplicaId, conn: SessionId, reply: Reply)
    | Adopt(r: ReplicaId)
    | Resign(r: ReplicaId)
    | Heartbeat(r: ReplicaId, pingOk: bool)
    | Unlock(r: ReplicaId, reply: Reply)
    | SessionDies(s: SessionId)
    | Crash(r: ReplicaId, noticed: bool)

  predicate Enabled(c: Cluster, step: Step) {
    match step
    case Campaign(r, conn, _) =>
      r in c.replicas && c.replicas[r].phase == Idle && c.replicas[r].session == None
      && (conn in c.replicas[r].pool || conn == c.db.issued)
    case Adopt(r) => r in c.replicas && c.replicas[r].phase.Granted?
    case Resign(r) => r in c.replicas && c.replicas[r].phase == Idle
    case Heartbeat(r, pingOk) =>
      r in c.replicas && c.replicas[r].phase == Idle
      && (pingOk && c.replicas[r].session.Some? ==> c.replicas[r].session.value in c.db.alive)
    case Unlock(r, _) => r in c.replicas && c.replicas[r].phase.Releasing?
    case SessionDies(s) => true
    case Crash(r, _) => r in c.replicas
  }

  /** Every session a replica has in hand: its pool, its leadership, and the call under way. */
  function Owned(rep: Replica): set<SessionId> {
    rep.pool + InUse(rep)
  }

  function InUse(rep: Replica): set<SessionId> {
    (if rep.session.Some? then {rep.session.value} else {}) + (if rep.phase == Idle then {} else {rep.phase.conn})
  }

  function Apply(c: Cluster, step: Step): Cluster
    requires Enabled(c, step)
  {
    match step
    case Campaign(r, conn, reply) =>
      var (db, rep) := CampaignEffect(c.db, c.replicas[r], conn, reply);
      Cluster(db, c.replicas[r := rep])
    case Adopt(r) => c.(replicas := c.replicas[r := AdoptEffect(c.replicas[r])])
    case Resign(r) => c.(replicas := c.replicas[r := BeginReleaseEffect(c.replicas[r])])
    case Heartbeat(r, pingOk) => c.(replicas := c.replicas[r := HeartbeatEffect(c.replicas[r], pingOk)])
    case Unlock(r, reply) =>
      var (db, rep) := UnlockEffect(c.db, c.replicas[r], reply);
      Cluster(db, c.replicas[r := rep])
    case SessionDies(s) => c.(db := Kill(c.db, s))
    case Crash(r, noticed) =>
      Cluster(if noticed then KillAll(c.db, Owned(c.replicas[r])) else c.db,
              c.replicas[r := Replica(false, None, c.replicas[r].promotions, {}, Idle)])
  }

  /** `steps` leads from `c` to `end`, every step being enabled where it is taken. */
  predicate Leads(c: Cluster, steps: seq<Step>, end: Cluster)
    decreases |steps|
  {
    if steps == [] then c == end
    else Enabled(c, steps[0]) && Leads(Apply(c, steps[0]), steps[1..], end)
  }

  /** No replica has connected yet. */
  predicate Initial(c: Cluster) {
    c.db.holder == None && c.db.alive == {}
    && forall r | r in c.replicas :: c.replicas[r] == Replica(false, None, 0, {}, Idle)
  }

  ghost predicate Reachable(c: Cluster) {
    exists start, steps :: Initial(start) && Leads(start, steps, c)
  }

  // ---------------------------------------------------------------------------
  // The invariant
  // ---------------------------------------------------------------------------

  /** One replica against the database: what it may believe about the lock. */
  predicate Coherent(db: Database, rep: Replica) {
    && (rep.leader <==> rep.session.Some?)
    && (rep.phase != Idle ==> rep.session == None)
    && rep.pool !! InUse(rep)
    && (forall s | s in Owned(rep) :: s < db.issued)
    && (forall s | s in InUse(rep) && s in db.alive :: db.holder == Some(s))
    && (forall s | s in rep.pool :: db.holder != Some(s))
  }

  ghost predicate Inv(c: Cluster) {
    && (forall s | s in c.db.alive :: s < c.db.issued)
    && (forall r | r in c.replicas :: Coherent(c.db, c.replicas[r]))
    && (forall r, q | r in c.replicas && q in c.replicas && r != q :: Owned(c.replicas[r]) !! Owned(c.replicas[q]))
    && (c.db.holder.Some? ==> c.db.holder.value in c.db.alive)
  }

  lemma InitialInv(c: Cluster)
    requires Initial(c)
    ensures Inv(c)
  {
  }

  /** A step of replica r keeps the invariant when these hold of its own fields and of the database. */
  lemma OneReplicaChanged(c: Cluster, d: Cluster, r: ReplicaId, rep: Replica)
    requires Inv(c) && r in c.replicas && d.replicas == c.replicas[r := rep]
    requires c.db.issued <= d.db.issued && forall s | s in d.db.alive ::
      s in c.db.alive || c.db.issued <= s < d.db.issued
    requires forall s | s in Owned(rep) :: s in Owned(c.replicas[r]) || c.db.issued <= s
    requires Coherent(d.db, rep)
    requires forall q, s | q in c.replicas && q != r && s in Owned(c.replicas[q]) ::
               && (s in d.db.alive <==> s in c.db.alive)
               && (d.db.holder == Some(s) <==> c.db.holder == Some(s))
    requires d.db.holder.Some? ==> d.db.holder.value in d.db.alive
    ensures Inv(d)
  {
    forall q | q in c.replicas && q != r
      ensures Coherent(d.db, c.replicas[q]) && Owned(rep) !! Owned(c.replicas[q])
    {
      assert Owned(c.replicas[r]) !! Owned(c.replicas[q]);
      assert Coherent(c.db, c.replicas[q]);
    }
    assert d.replicas[r] == rep;
  }

  /** A campaign leaves its own replica coherent, in what it has in hand and in what the database holds. */
  lemma CampaignIsCoherent(c: Cluster, r: ReplicaId, conn: SessionId, reply: Reply)
    requires Inv(c) && Enabled(c, Campaign(r, conn, reply))
    ensures var (db, rep) := CampaignEffect(c.db, c.replicas[r], conn, reply);
            && Coherent(db, rep) && Owned(rep) <= Owned(c.replicas[r]) + {conn}
            && (conn in Owned(c.replicas[r]) || conn == c.db.issued)
            && (db.holder.Some? ==> db.holder.value in db.alive)
  {
    var was := c.replicas[r];
    assert Coherent(c.db, was);
    assert InUse(was) == {} && Owned(was) == was.pool;
    assert c.db.holder != Some(conn);
    var after := CampaignEffect(c.db, was, conn, reply);
    var db, rep := after.0, after.1;
    assert rep.session == None && rep.leader == was.leader;
    if rep.phase == Idle {
      assert InUse(rep) == {};
    } else {
      assert InUse(rep) == {conn} && conn !in rep.pool && db.holder == Some(conn);
    }
    forall s | s in rep.pool ensures s in was.pool || s == conn {}
    forall s | s in rep.pool ensures s < db.issued && db.holder != Some(s) {
      assert s != conn ==> s in Owned(was);
    }
  }

  lemma CampaignKeepsInv(c: Cluster, r: ReplicaId, conn: SessionId, reply: Reply)
    requires Inv(c) && Enabled(c, Campaign(r, conn, reply))
    ensures Inv(Apply(c, Campaign(r, conn, reply)))
  {
    var d := Apply(c, Campaign(r, conn, reply));
    CampaignIsCoherent(c, r, conn, reply);
    forall q, s | q in c.replicas && q != r && s in Owned(c.replicas[q])
      ensures s != conn && s < c.db.issued
    {
      assert Coherent(c.db, c.replicas[q]);
      assert Owned(c.replicas[r]) !! Owned(c.replicas[q]);
    }
    OneReplicaChanged(c, d, r, d.replicas[r]);
  }

  lemma UnlockKeepsInv(c: Cluster, r: ReplicaId, reply: Reply)
    requires Inv(c) && Enabled(c, Unlock(r, reply))
    ensures Inv(Apply(c, Unlock(r, reply)))
  {
    var d := Apply(c, Unlock(r, reply));
    var conn := c.replicas[r].phase.conn;
    assert Coherent(c.db, c.replicas[r]);
    assert InUse(c.replicas[r]) == {conn};
    forall q, s | q in c.replicas && q != r && s in Owned(c.replicas[q])
      ensures s != conn
    {
      assert Owned(c.replicas[r]) !! Owned(c.replicas[q]);
    }
    OneReplicaChanged(c, d, r, d.replicas[r]);
  }

  lemma StepKeepsInv(c: Cluster, step: Step)
    requires Inv(c) && Enabled(c, step)
    ensures Inv(Apply(c, step))
  {
    var d := Apply(c, step);
    match step {
      case Campaign(r, conn, reply) => CampaignKeepsInv(c, r, conn, reply);
      case Unlock(r, reply) => UnlockKeepsInv(c, r, reply);
      case Adopt(r) => FieldsOnly(c, d, r, AdoptEffect(c.replicas[r]));
      case Resign(r) => FieldsOnly(c, d, r, BeginReleaseEffect(c.replicas[r]));
      case Heartbeat(r, pingOk) => FieldsOnly(c, d, r, HeartbeatEffect(c.replicas[r], pingOk));
      case SessionDies(s) =>
      case Crash(r, _) =>
        forall q | q in c.replicas && q != r ensures Owned(c.replicas[r]) !! Owned(c.replicas[q]) {}
        OneReplicaChanged(c, d, r, d.replicas[r]);
    }
  }

  /** A step that only moves a session between a replica's fields drops nothing. */
  lemma FieldsOnly(c: Cluster, d: Cluster, r: ReplicaId, rep: Replica)
    requires Inv(c) && r in c.replicas && d == c.(replicas := c.replicas[r := rep])
    requires InUse(rep) == InUse(c.replicas[r]) && rep.pool == c.replicas[r].pool
    requires (rep.leader <==> rep.session.Some?) && (rep.phase != Idle ==> rep.session == None)
    ensures Inv(d)
  {
    assert Coherent(c.db, c.replicas[r]);
    assert Owned(rep) == Owned(c.replicas[r]);
    OneReplicaChanged(c, d, r, rep);
  }

  lemma {:induction false} RunKeepsInv(c: Cluster, steps: seq<Step>, end: Cluster)
    requires Inv(c) && Leads(c, steps, end)
    ensures Inv(end)
    decreases |steps|
  {
    if steps != [] {
      StepKeepsInv(c, steps[0]);
      RunKeepsInv(Apply(c, steps[0]), steps[1..], end);
    }
  }

  lemma ReachableInv(c: Cluster)
    requires Reachable(c)
    ensures Inv(c)
  {
    var start, steps :| Initial(start) && Leads(start, steps, c);
    InitialInv(start);
    RunKeepsInv(start, steps, c);
  }

  // ---------------------------------------------------------------------------
  // The guarantees
  // ---------------------------------------------------------------------------

  predicate LiveLeader(c: Cluster, r: ReplicaId) {
    r in c.replicas && c.replicas[r].leader
    && c.replicas[r].session.Some? && c.replicas[r].session.value in c.db.alive
  }

  /**
    Mutual exclusion: in every reachable state at most one replica reports
    leadership over a session that still lives, and that session holds the lock.
    So two flags are set together only when one belongs to a dead session.
  */
  lemma AtMostOneLiveLeader(c: Cluster, r: ReplicaId, q: ReplicaId)
    requires Reachable(c)
    ensures LiveLeader(c, r) ==> c.db.holder == c.replicas[r].session
    ensures LiveLeader(c, r) && LiveLeader(c, q) ==> r == q
  {
    ReachableInv(c);
    if LiveLeader(c, r) {
      assert c.replicas[r].session.value in InUse(c.replicas[r]);
    }
    if LiveLeader(c, q) {
      assert c.replicas[q].session.value in InUse(c.replicas[q]);
    }
  }

  /** The step is the replica's own, and ends in its flag being looked at again. */
  predicate Reconsiders(step: Step, r: ReplicaId) {
    || (step.Resign? && step.r == r)
    || (step.Heartbeat? && step.r == r)
    || (step.Crash? && step.r == r)
  }

  lemma {:induction false} StaleUntilReconsidered(c: Cluster, steps: seq<Step>, end: Cluster, r: ReplicaId)
    requires Inv(c) && Leads(c, steps, end) && r in c.replicas && c.replicas[r].leader && !LiveLeader(c, r)
    requires forall i | 0 <= i < |steps| :: !Reconsiders(steps[i], r)
    ensures Inv(end) && r in end.replicas && end.replicas[r] == c.replicas[r] && !LiveLeader(end, r)
    decreases |steps|
  {
    if steps != [] {
      assert !Reconsiders(steps[0], r);
      StepKeepsInv(c, steps[0]);
      StepKeepsStale(c, steps[0], r);
      assert forall i | 0 <= i < |steps[1..]| :: steps[1..][i] == steps[i + 1];
      StaleUntilReconsidered(Apply(c, steps[0]), steps[1..], end, r);
    }
  }

  lemma StepKeepsStale(c: Cluster, step: Step, r: ReplicaId)
    requires Inv(c) && Enabled(c, step) && !Reconsiders(step, r)
    requires r in c.replicas && c.replicas[r].leader && !LiveLeader(c, r)
    ensures var next := Apply(c, step);
            r in next.replicas && next.replicas[r] == c.replicas[r] && !LiveLeader(next, r)
  {
    assert Coherent(c.db, c.replicas[r]) && c.replicas[r].session.value in Owned(c.replicas[r]);
    var next := Apply(c, step);
    assert forall s | s in next.db.alive :: s in c.db.alive || s == c.db.issued;
  }

  /**
    Two replicas that report leadership at once: one of them is over a dead session.
    Whatever happens in the cluster, it reports so until its own next heartbeat (unless
    it resigns or crashes first), and that heartbeat clears its flag without touching
    the lock.
  */
  lemma {:induction false} TwoFlagsUntilHeartbeat(
    c: Cluster, r: ReplicaId, q: ReplicaId, steps: seq<Step>, end: Cluster, pingOk: bool)
    requires Reachable(c) && r in c.replicas && q in c.replicas && r != q && c.replicas[r].leader
      && c.replicas[q].leader
    requires Leads(c, steps, end)
    ensures !LiveLeader(c, r) || !LiveLeader(c, q)
    ensures !LiveLeader(c, r) && (forall i | 0 <= i < |steps| :: !Reconsiders(steps[i], r)) ==>
              && r in end.replicas && end.replicas[r].leader && !LiveLeader(end, r)
              && end.replicas[r].phase == Idle
              && (Enabled(end, Heartbeat(r, pingOk)) <==> !pingOk)
              && var next := Apply(end, Heartbeat(r, false)); !next.replicas[r].leader && next.db == end.db
  {
    ReachableInv(c);
    AtMostOneLiveLeader(c, r, q);
    if !LiveLeader(c, r) && forall i | 0 <= i < |steps| :: !Reconsiders(steps[i], r) {
      StaleUntilReconsidered(c, steps, end, r);
      assert Coherent(end.db, end.replicas[r]);
    }
  }

  /** A heartbeat of a live leader whose ping answers changes nothing at all. */
  lemma HeartbeatKeepsLeader(c: Cluster, r: ReplicaId)
    requires Reachable(c) && LiveLeader(c, r)
    ensures Enabled(c, Heartbeat(r, true)) && Apply(c, Heartbeat(r, true)) == c
  {
    ReachableInv(c);
    assert c.replicas[r := c.replicas[r]] == c.replicas;
  }

  /**
    The flag is cleared before the unlock: in no reachable state does a replica
    whose unlock is pending report leadership, and the unlock itself leaves it cleared.
  */
  lemma FlagClearedBeforeUnlock(c: Cluster, r: ReplicaId, reply: Reply)
    requires Reachable(c) && Enabled(c, Unlock(r, reply))
    ensures !c.replicas[r].leader && !Apply(c, Unlock(r, reply)).replicas[r].leader
  {
    ReachableInv(c);
  }

  /**
    All exits of Release end with the lock not held by that session, and with the
    session destroyed or back in the pool without the lock, unless the connection was
    dropped before the unlock ran and the server has yet to notice. While the session
    lives it did hold the lock, so the exit that reports an unlock of a lock it did not
    hold is never taken.
  */
  lemma ReleaseFreesTheLockIff(c: Cluster, r: ReplicaId, reply: Reply)
    requires Reachable(c) && Enabled(c, Unlock(r, reply))
    ensures var conn := c.replicas[r].phase.conn;
            var d := Apply(c, Unlock(r, reply));
            && (d.db.holder != Some(conn) <==> !(reply == Dropped(false) && conn in c.db.alive))
            && (conn in d.db.alive <==> (reply == Answered || reply.Dropped?) && conn in c.db.alive)
            && (conn in d.replicas[r].pool <==> reply == Answered && conn in c.db.alive)
            && (conn in c.db.alive ==> c.db.holder == Some(conn))
            && conn !in InUse(d.replicas[r])
  {
    ReachableInv(c);
    assert c.replicas[r].phase.conn in InUse(c.replicas[r]);
  }

  /** The step loses a connection whose session the server keeps for the time being. */
  predicate LosesConnection(step: Step) {
    || (step.Campaign? && step.reply.Dropped?)
    || (step.Unlock? && step.reply.Dropped?)
    || (step.Crash? && !step.noticed)
  }

  predicate HeldInUse(c: Cluster) {
    c.db.holder.Some? ==> exists r :: r in c.replicas && c.db.holder.value in InUse(c.replicas[r])
  }

  lemma StepKeepsHeldInUse(c: Cluster, step: Step)
    requires Inv(c) && Enabled(c, step) && HeldInUse(c) && !LosesConnection(step)
    ensures HeldInUse(Apply(c, step))
  {
    var d := Apply(c, step);
    if d.db.holder.Some? {
      if step.Campaign? && d.db.holder != c.db.holder {
        assert d.db.holder.value in InUse(d.replicas[step.r]);
      } else {
        var q :| q in c.replicas && c.db.holder.value in InUse(c.replicas[q]);
        assert Coherent(c.db, c.replicas[q]);
        if step.Campaign? {
          assert step.r == q || Owned(c.replicas[step.r]) !! Owned(c.replicas[q]);
        }
        assert d.db.holder.value in InUse(d.replicas[q]);
      }
    }
  }

  lemma {:induction false} RunKeepsHeldInUse(c: Cluster, steps: seq<Step>, end: Cluster)
    requires Inv(c) && HeldInUse(c) && Leads(c, steps, end)
    requires forall i | 0 <= i < |steps| :: !LosesConnection(steps[i])
    ensures HeldInUse(end)
    decreases |steps|
  {
    if steps != [] {
      assert !LosesConnection(steps[0]);
      StepKeepsInv(c, steps[0]);
      StepKeepsHeldInUse(c, steps[0]);
      assert forall i | 0 <= i < |steps[1..]| :: steps[1..][i] == steps[i + 1];
      RunKeepsHeldInUse(Apply(c, steps[0]), steps[1..], end);
    }
  }

  /**
    Whoever holds the lock is alive and is no idle pooled connection. While no
    connection was lost behind the server's back, the lock is never held by nobody: its
    holder belongs to a replica that leads or is inside a call that ends by leading or
    by releasing.
  */
  lemma {:induction false} LockAlwaysOwned(start: Cluster, steps: seq<Step>, c: Cluster)
    requires Initial(start) && Leads(start, steps, c) && c.db.holder.Some?
    ensures c.db.holder.value in c.db.alive
    ensures forall r | r in c.replicas :: c.db.holder.value !in c.replicas[r].pool
    ensures (forall i | 0 <= i < |steps| :: !LosesConnection(steps[i]))
      ==> exists r :: r in c.replicas && c.db.holder.value in InUse(c.replicas[r])
  {
    InitialInv(start);
    RunKeepsInv(start, steps, c);
    if forall i | 0 <= i < |steps| :: !LosesConnection(steps[i]) {
      RunKeepsHeldInUse(start, steps, c);
    }
  }

  /**
    A connection lost as the lock is granted leaves it held by nobody: no replica has
    the session, and only its death, which needs no replica, makes the lock free again.
  */
  lemma LockCanBeOrphaned() returns (c: Cluster, holder: SessionId)
    ensures Reachable(c) && c.db.holder == Some(holder) && c.replicas.Keys == {0}
    ensures forall r | r in c.replicas :: holder !in Owned(c.replicas[r])
    ensures Apply(c, SessionDies(holder)).db.holder == None
    ensures forall step | Enabled(c, step) && step != SessionDies(holder) :: Apply(c, step).db.holder == Some(holder)
  {
    var c0 := Cluster(Database(None, {}, 0), map[0 := Replica(false, None, 0, {}, Idle)]);
    var lost := Campaign(0, 0, Dropped(true));
    c, holder := Apply(c0, lost), 0;
    LeadsOne(c0, lost);
  }

  /** A follower that campaigns while the lock is free becomes the one live leader. */
  lemma FreeLockIsTaken(c: Cluster, r: ReplicaId)
    requires Reachable(c) && c.db.holder == None
    requires r in c.replicas && c.replicas[r].phase == Idle && !c.replicas[r].leader
    ensures Enabled(c, Campaign(r, c.db.issued, Answered))
    ensures var granted := Apply(c, Campaign(r, c.db.issued, Answered));
            && Enabled(granted, Adopt(r))
            && LiveLeader(Apply(granted, Adopt(r)), r)
            && Apply(granted, Adopt(r)).replicas[r].promotions == c.replicas[r].promotions + 1
  {
    ReachableInv(c);
  }

  /**
    What one attempt comes to, whatever connection it is made on: the lock is granted
    exactly if the statement is answered over a living session and nobody holds it. The
    connection goes back to the pool exactly if nothing was granted and it still works,
    it is never lost to a broken one, and nothing else of the replica changes.
  */
  lemma CampaignComesTo(c: Cluster, r: ReplicaId, conn: SessionId, reply: Reply)
    requires Reachable(c) && Enabled(c, Campaign(r, conn, reply))
    ensures var d := Apply(c, Campaign(r, conn, reply));
            var alive := conn == c.db.issued || conn in c.db.alive;
            var free := c.db.holder == None;
            var was, now := c.replicas[r], d.replicas[r];
            && now.phase == (if reply == Answered && alive && free then Granted(conn) else Idle)
            && (conn in now.pool <==> alive && (reply == Refused || (reply == Answered && !free)))
            && now.pool - {conn} == was.pool - {conn}
            && now == was.(phase := now.phase, pool := now.pool)
            && d.db.holder ==
               (if alive && free && (reply == Answered || reply == Dropped(true)) then Some(conn) else c.db.holder)
            && (conn in d.db.alive <==> alive && reply != Broken)
            && d.db.alive - {conn} == c.db.alive - {conn}
  {
    ReachableInv(c);
  }

  /** While a session holds the lock, no campaign of another replica is granted. */
  lemma HeldLockIsNotGranted(c: Cluster, r: ReplicaId, conn: SessionId, reply: Reply)
    requires Reachable(c) && Enabled(c, Campaign(r, conn, reply)) && c.db.holder.Some?
    ensures var d := Apply(c, Campaign(r, conn, reply));
            d.db.holder == c.db.holder && d.replicas[r].phase == Idle && !d.replicas[r].leader
  {
    ReachableInv(c);
    assert c.db.holder.value != conn;
  }

  /**
    The window the package documents: a session can die unnoticed, another replica
    take the lock, and two replicas report leadership at once. Only one of the two
    is live, as AtMostOneLiveLeader says.
  */
  lemma TwoFlagsAreReachable() returns (c: Cluster)
    ensures Reachable(c) && 0 in c.replicas && 1 in c.replicas
    ensures c.replicas[0].leader && c.replicas[1].leader && !LiveLeader(c, 0) && LiveLeader(c, 1)
  {
    var follower := Replica(false, None, 0, {}, Idle);
    var c0 := Cluster(Database(None, {}, 0), map[0 := follower, 1 := follower]);
    var s1, s2, s3, s4, s5 :=
      Campaign(0, 0, Answered), Adopt(0), SessionDies(0), Campaign(1, 1, Answered), Adopt(1);
    var c1 := Apply(c0, s1);
    var c2 := Apply(c1, s2);
    var c3 := Apply(c2, s3);
    var c4 := Apply(c3, s4);
    c := Apply(c4, s5);
    LeadsOne(c4, s5);
    LeadsCons(c3, s4, [s5], c);
    LeadsCons(c2, s3, [s4] + [s5], c);
    LeadsCons(c1, s2, [s3] + ([s4] + [s5]), c);
    LeadsCons(c0, s1, [s2] + ([s3] + ([s4] + [s5])), c);
  }

  lemma {:induction false} LeadsOne(c: Cluster, step: Step)
    requires Enabled(c, step)
    ensures Leads(c, [step], Apply(c, step))
  {
    assert Leads(Apply(c, step), [step][1..], Apply(c, step));
  }

  lemma {:induction false} LeadsCons(c: Cluster, step: Step, rest: seq<Step>, end: Cluster)
    requires Enabled(c, step) && Leads(Apply(c, step), rest, end)
    ensures Leads(c, [step] + rest, end)
  {
    assert ([step] + rest)[1..] == rest;
  }
}
