/**
  The elector and its PostgreSQL lock sessions as objects (internal/leader/leader.go,
  internal/leader/postgres.go). What the database answers arrives as parameters.
  Every method is proved to take exactly the protocol steps of LeaderProtocol, so
  the guarantees proved there about all runs are guarantees about these methods.
*/
module Elector {
  import opened Results
  import opened LeaderProtocol

  /** The lock manager one PostgreSQL server keeps. */
  class Server {
    var holder: Option<SessionId>
    var alive: set<SessionId>
    var issued: nat

    constructor ()
      ensures View() == Database(None, {}, 0)
    {
      holder, alive, issued := None, {}, 0;
    }

    function View(): Database
      reads this
    {
      Database(holder, alive, issued)
    }

    method Close(s: SessionId)
      modifies this
      ensures View() == Kill(old(View()), s)
    {
      if holder == Some(s) {
        holder := None;
      }
      alive := alive - {s};
    }
  }

  /** The three outcomes TryLock keeps apart. */
  datatype LockResult = Won(session: SessionId) | Lost | Unknown

  class PgLocker {
    const server: Server
    var pool: set<SessionId>

    constructor (server: Server)
      ensures this.server == server && pool == {}
    {
      this.server := server;
      pool := {};
    }

    /** One attempt on `conn`, a pooled connection or the next one the pool opens. */
    method TryLock(conn: SessionId, reply: Reply, ghost rep: Replica) returns (r: LockResult)
      requires conn in pool || conn == server.issued
      requires rep.pool == pool && rep.phase == Idle
      modifies this, server
      ensures var (db, rep') := CampaignEffect(old(server.View()), rep, conn, reply);
              && server.View() == db && pool == rep'.pool
              && (r.Won? <==> rep'.phase == Granted(conn)) && (r.Won? ==> r.session == conn)
      ensures r == Unknown <==> reply != Answered || (conn != old(server.issued) && conn !in old(server.alive))
    {
      if conn == server.issued {
        server.alive, server.issued := server.alive + {conn}, server.issued + 1;
      }
      if reply == Broken || conn !in server.alive {
        pool := pool - {conn};
        server.Close(conn);
        return Unknown;
      }
      if reply.Dropped? {
        pool := pool - {conn};
        if reply.ran && (server.holder == None || server.holder == Some(conn)) {
          server.holder := Some(conn);
        }
        return Unknown;
      }
      if reply == Refused {
        pool := pool + {conn};
        return Unknown;
      }
      if server.holder.Some? && server.holder != Some(conn) {
        pool := pool + {conn};
        return Lost;
      }
      pool := pool - {conn};
      server.holder := Some(conn);
      r := Won(conn);
    }

    /**
      Unlock and dispose of the session. `ok` is false on the error exits. The
      precondition on the replica is the order releaseLocked keeps: by the time
      the unlock runs the flag is cleared and the session is taken away.
    */
    method Release(conn: SessionId, reply: Reply, ghost rep: Replica) returns (ok: bool)
      requires rep.pool == pool && rep.phase == Releasing(conn) && !rep.leader && rep.session == None
      modifies this, server
      ensures var (db, rep') := UnlockEffect(old(server.View()), rep, reply);
              server.View() == db && pool == rep'.pool
      ensures ok <==> reply == Answered && conn in old(server.alive) && old(server.holder) == Some(conn)
    {
      if reply.Dropped? && conn in server.alive {
        if reply.ran && server.holder == Some(conn) {
          server.holder := None;
        }
        return false;
      }
      if reply != Answered || conn !in server.alive {
        server.Close(conn);
        return false;
      }
      pool := pool + {conn};
      ok := server.holder == Some(conn);
      if ok {
        server.holder := None;
      }
    }
  }

  // ---------------------------------------------------------------------------
  // What whole calls do, as steps of the protocol
  // ---------------------------------------------------------------------------

  /** The Campaign step, and the Adopt step if the lock was granted; nothing with a session in hand. */
  function ElectEffect(db: Database, rep: Replica, conn: SessionId, reply: Reply): (Database, Replica) {
    if rep.session.Some? then (db, rep)
    else
      var (db', rep') := CampaignEffect(db, rep, conn, reply);
      (db', if rep'.phase.Granted? then AdoptEffect(rep') else rep')
  }

  /** The Unlock step, if one is pending. */
  function PendingUnlock(db: Database, rep: Replica, reply: Reply): (Database, Replica) {
    if rep.phase.Releasing? then UnlockEffect(db, rep, reply) else (db, rep)
  }

  /** One iteration of the loop: the calls of a follower, or those of a leader. */
  function IterationEffect(db: Database, rep: Replica, conn: SessionId, campaign: Reply, pingOk: bool, unlock: Reply)
    : (Database, Replica)
  {
    if rep.leader then PendingUnlock(db, HeartbeatEffect(rep, pingOk), unlock)
    else ElectEffect(db, rep, conn, campaign)
  }

  /** The replica's part of a cluster before and after. */
  function With(c: Cluster, r: ReplicaId, after: (Database, Replica)): Cluster {
    Cluster(after.0, c.replicas[r := after.1])
  }

  lemma ElectIsARun(c: Cluster, r: ReplicaId, conn: SessionId, reply: Reply) returns (steps: seq<Step>)
    requires r in c.replicas && c.replicas[r].phase == Idle
    requires conn in c.replicas[r].pool || conn == c.db.issued
    ensures Leads(c, steps, With(c, r, ElectEffect(c.db, c.replicas[r], conn, reply)))
    ensures forall i | 0 <= i < |steps| :: steps[i] == Campaign(r, conn, reply) || steps[i] == Adopt(r)
  {
    var rep := c.replicas[r];
    var end := With(c, r, ElectEffect(c.db, rep, conn, reply));
    if rep.session.Some? {
      assert end.replicas == c.replicas;
      return [];
    }
    var tried := Apply(c, Campaign(r, conn, reply));
    if tried.replicas[r].phase.Granted? {
      steps := [Campaign(r, conn, reply)] + [Adopt(r)];
      assert Apply(tried, Adopt(r)).replicas == end.replicas;
      LeadsOne(tried, Adopt(r));
      LeadsCons(c, Campaign(r, conn, reply), [Adopt(r)], end);
    } else {
      steps := [Campaign(r, conn, reply)];
      LeadsOne(c, Campaign(r, conn, reply));
    }
  }

  lemma HeartbeatIsARun(c: Cluster, r: ReplicaId, pingOk: bool, unlock: Reply) returns (steps: seq<Step>)
    requires r in c.replicas && c.replicas[r].phase == Idle
    requires pingOk && c.replicas[r].session.Some? ==> c.replicas[r].session.value in c.db.alive
    ensures Leads(c, steps, With(c, r, PendingUnlock(c.db, HeartbeatEffect(c.replicas[r], pingOk), unlock)))
    ensures forall i | 0 <= i < |steps| :: steps[i] == Heartbeat(r, pingOk) || steps[i] == Unlock(r, unlock)
  {
    var beat := Apply(c, Heartbeat(r, pingOk));
    var end := With(c, r, PendingUnlock(c.db, beat.replicas[r], unlock));
    if beat.replicas[r].phase.Releasing? {
      steps := [Heartbeat(r, pingOk)] + [Unlock(r, unlock)];
      assert Apply(beat, Unlock(r, unlock)).replicas == end.replicas;
      LeadsOne(beat, Unlock(r, unlock));
      LeadsCons(c, Heartbeat(r, pingOk), [Unlock(r, unlock)], end);
    } else {
      steps := [Heartbeat(r, pingOk)];
      LeadsOne(c, Heartbeat(r, pingOk));
    }
  }

  /**
    An iteration of one elector's loop, whatever the database answers, is a run of that
    replica's own protocol steps in the cluster around it. So what is proved of every
    run of the protocol holds after every iteration of every replica.
  */
  lemma IterationIsARun(
    c: Cluster, r: ReplicaId, conn: SessionId, campaign: Reply, pingOk: bool, unlock: Reply) returns (steps: seq<Step>)
    requires Reachable(c) && r in c.replicas && c.replicas[r].phase == Idle
    requires conn in c.replicas[r].pool || conn == c.db.issued
    requires pingOk && c.replicas[r].session.Some? ==> c.replicas[r].session.value in c.db.alive
    ensures var end := With(c, r, IterationEffect(c.db, c.replicas[r], conn, campaign, pingOk, unlock));
            && Leads(c, steps, end) && Reachable(end)
            && end.replicas[r].phase == Idle
            && (LiveLeader(end, r) ==> forall q | LiveLeader(end, q) :: q == r)
    ensures forall i | 0 <= i < |steps| ::
      !steps[i].SessionDies? && !steps[i].Crash? && steps[i].r == r
  {
    if c.replicas[r].leader {
      steps := HeartbeatIsARun(c, r, pingOk, unlock);
    } else {
      steps := ElectIsARun(c, r, conn, campaign);
    }
    var end := With(c, r, IterationEffect(c.db, c.replicas[r], conn, campaign, pingOk, unlock));
    var start, before :| Initial(start) && Leads(start, before, c);
    LeadsOn(start, before, c, steps, end);
    forall q | LiveLeader(end, q) && LiveLeader(end, r) ensures q == r {
      AtMostOneLiveLeader(end, r, q);
    }
  }

  /**
    And what one iteration decides: a leader stays one exactly if its ping answers, and a
    follower becomes one exactly if its campaign is answered over a living session while
    nobody holds the lock. Whoever leads afterwards leads over the session that holds the
    lock; a leader that stands down gives it up unless the connection is lost too early.
  */
  lemma IterationDecides(
    c: Cluster, r: ReplicaId, conn: SessionId, campaign: Reply, pingOk: bool, unlock: Reply)
    requires Reachable(c) && r in c.replicas && c.replicas[r].phase == Idle
    requires conn in c.replicas[r].pool || conn == c.db.issued
    requires pingOk && c.replicas[r].session.Some? ==> c.replicas[r].session.value in c.db.alive
    ensures var end := With(c, r, IterationEffect(c.db, c.replicas[r], conn, campaign, pingOk, unlock));
            var was, now := c.replicas[r], end.replicas[r];
            var living := conn == c.db.issued || conn in c.db.alive;
            && (now.leader <==>
                  if was.leader then pingOk else campaign == Answered && living && c.db.holder == None)
            && (now.leader ==> LiveLeader(end, r))
            && now.promotions == was.promotions + (if now.leader && !was.leader then 1 else 0)
            && (was.leader && pingOk ==> end == c)
            && (was.leader && !pingOk && unlock != Dropped(false) ==> end.db.holder != was.session)
  {
    ReachableInv(c);
    assert Coherent(c.db, c.replicas[r]);
    assert InUse(c.replicas[r]) == if c.replicas[r].session.Some? then {c.replicas[r].session.value} else {};
  }

  lemma {:induction false} LeadsOn(a: Cluster, xs: seq<Step>, b: Cluster, ys: seq<Step>, c: Cluster)
    requires Leads(a, xs, b) && Leads(b, ys, c)
    ensures Leads(a, xs + ys, c)
    decreases |xs|
  {
    if xs == [] {
      assert xs + ys == ys;
    } else {
      LeadsOn(Apply(a, xs[0]), xs[1..], b, ys, c);
      LeadsCons(a, xs[0], xs[1..] + ys, c);
      assert [xs[0]] + (xs[1..] + ys) == xs + ys;
    }
  }

  class Elector {
    const locker: PgLocker
    var session: Option<SessionId>
    var leader: bool
    var promotions: nat

    constructor (locker: PgLocker)
      ensures this.locker == locker && session == None && !leader && promotions == 0
    {
      this.locker := locker;
      session, leader, promotions := None, false, 0;
    }

    /** The elector between two calls, as the protocol sees it. */
    ghost function View(): Replica
      reads this, locker
    {
      Replica(leader, session, promotions, locker.pool, Idle)
    }

    /**
      One attempt to take the lock. A replica that has a session is the leader
      already; otherwise the attempt is the Campaign step, followed by the Adopt
      step when the lock was granted.
    */
    method Elect(conn: SessionId, reply: Reply) returns (won: bool, known: bool)
      requires conn in locker.pool || conn == locker.server.issued
      modifies this, locker, locker.server
      ensures (locker.server.View(), View()) == ElectEffect(old(locker.server.View()), old(View()), conn, reply)
      ensures won <==> session.Some?
      ensures old(session) == None ==>
        (known <==> reply == Answered && (conn == old(locker.server.issued) || conn in old(locker.server.alive)))
      ensures old(session).Some? ==> known
      ensures old(session) == None ==> (won <==> promotions == old(promotions) + 1)
    {
      if session.Some? {
        return true, true;
      }
      var r := locker.TryLock(conn, reply, View());
      if r == Unknown {
        return false, false;
      }
      if r == Lost {
        return false, true;
      }
      session := Some(r.session);
      leader := true;
      promotions := promotions + 1;
      won, known := true, true;
    }

    /** releaseLocked: clear the flag, take the session away, and only then unlock. */
    method ReleaseLocked(reply: Reply) returns (ok: bool)
      modifies this, locker, locker.server
      ensures (locker.server.View(), View())
           == PendingUnlock(old(locker.server.View()), BeginReleaseEffect(old(View())), reply)
      ensures old(session) == None ==> ok
    {
      leader := false;
      if session == None {
        return true;
      }
      var held := session.value;
      session := None;
      ghost var rep := View().(phase := Releasing(held));
      ok := locker.Release(held, reply, rep);
    }

    /** Verify the session, and stand down when the ping fails. `ok` is the ping's verdict. */
    method Heartbeat(pingOk: bool, reply: Reply) returns (ok: bool)
      requires pingOk && session.Some? ==> session.value in locker.server.alive
      modifies this, locker, locker.server
      ensures (locker.server.View(), View())
           == PendingUnlock(old(locker.server.View()), HeartbeatEffect(old(View()), pingOk), reply)
      ensures ok <==> pingOk || old(session) == None
    {
      if session == None {
        leader := false;
        return true;
      }
      if !pingOk {
        var _ := ReleaseLocked(reply);
        return false;
      }
      ok := true;
    }

    /**
      One iteration of the campaign loop: campaign as a follower, verify as a leader.
      IterationIsARun says what its effect is in a cluster.
    */
    method Step(conn: SessionId, campaign: Reply, pingOk: bool, unlock: Reply)
      requires conn in locker.pool || conn == locker.server.issued
      requires pingOk && session.Some? ==> session.value in locker.server.alive
      modifies this, locker, locker.server
      ensures (locker.server.View(), View())
           == IterationEffect(old(locker.server.View()), old(View()), conn, campaign, pingOk, unlock)
    {
      if !leader {
        var won, known := Elect(conn, campaign);
      } else {
        var ok := Heartbeat(pingOk, unlock);
      }
    }
  }
}
