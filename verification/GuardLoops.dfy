/**
 The Guard's service loop as the object it is. Each method is one arm of the loop, or the body of a
 tunnel task, written in the order of the source; its contract is the step of the machine.
 */
module GuardLoops {
  import opened Basics
  import opened Wire
  import opened Whitelists
  import opened Tunnels
  import opened Auth
  import opened Guards
  import opened GuardMetrics

  /** What is left of a task once its outcome is known: its shared writes, four, or six after a relay. */
  function Settled(s: GuardState, t: nat): GuardState
    requires t in s.tasks && s.tasks[t].phase.Finished?
  {
    var counted := OnSettle(OnSettle(s, t), t);
    var recorded := if s.tasks[t].phase.outcome.Served? then OnSettle(OnSettle(counted, t), t) else counted;
    OnSettle(OnSettle(recorded, t), t)
  }

  /** A whole task, run without interruption. */
  function TaskRun(cfg: Config, s: GuardState, t: nat, a: Attempt, relayed: Option<(nat, nat)>): GuardState
    requires t in s.tasks
  {
    var s1 := OnServe(cfg, s, t, a).0;
    Settled(if s1.tasks[t].phase.Relaying? then OnRelayEnd(s1, t, relayed).0 else s1, t)
  }

  class GuardLoop {
    const cfg: Config
    const authenticator: GuardAuthenticator
    const metrics: Metrics
    ghost var conns: map<PeerId, nat>
    var perPeer: map<PeerId, nat>
    var free: map<nat, nat>
    var globalFree: nat
    var tasks: map<nat, Task>
    var pc: Pc
    var nextSem: nat
    var nextTask: nat
    var deadline: Option<nat>
    var controlOpen: bool
    var running: bool

    ghost predicate Valid()
      reads this, authenticator, authenticator.whitelist, metrics
    {
      authenticator.Valid() && authenticator.crypto == cfg.crypto && metrics.Valid()
    }

    ghost function Model(): GuardState
      reads this, authenticator, authenticator.whitelist, metrics
    {
      GuardState(authenticator.Model(), conns, perPeer, free, globalFree, tasks, pc, nextSem, nextTask,
                 deadline, controlOpen, running, metrics.Read())
    }

    constructor (cfg: Config, authenticator: GuardAuthenticator, metrics: Metrics, controlOpen: bool)
      requires authenticator.Valid() && authenticator.crypto == cfg.crypto
      requires authenticator.pending == map[] && authenticator.sessions == map[]
      requires metrics.Valid() && metrics.Read() == Counters(0, 0, 0, 0, 0, 0, 0)
      ensures Valid() && Model() == Init(cfg, authenticator.whitelist.AsMap(), controlOpen)
      ensures this.cfg == cfg && this.authenticator == authenticator && this.metrics == metrics
    {
      this.cfg, this.authenticator, this.metrics := cfg, authenticator, metrics;
      conns, perPeer, free, tasks := map[], map[], map[], map[];
      globalFree, nextSem, nextTask := cfg.registry.maxStreamsTotal, 0, 0;
      pc, deadline, running := Idle, None, true;
      this.controlOpen := controlOpen;
    }

    /** `numEstablished` is the number of connections the peer has left. */
    method HandleConnectionClosed(peer: PeerId, numEstablished: nat)
      requires Valid() && peer in conns && numEstablished == SaturatingSub(conns[peer], 1)
      modifies this`perPeer, this`conns, authenticator
      ensures Valid() && Model() == OnClosed(old(Model()), peer)
    {
      if numEstablished == 0 {
        perPeer := perPeer - {peer};
        authenticator.CloseSession(peer);
        conns := conns - {peer};
      } else {
        conns := conns[peer := numEstablished];
      }
    }

    method HandleAuthRequest(peer: PeerId, request: NuxRequest, nonce: Nonce, now: u64) returns (outs: seq<Output>)
      requires Valid()
      modifies authenticator, metrics
      ensures Valid() && (Model(), outs) == OnAuthRequest(cfg, old(Model()), peer, request, nonce, now)
    {
      hide Issue, Verify;
      match request {
        case HandshakeInit =>
          if deadline.Some? {
            metrics.RecordAuthDenied();
            outs := Silenced(peer);
          } else {
            var challenge := authenticator.IssueAt(peer, nonce, now);
            if challenge.Some? {
              outs := [Respond(peer, challenge.value)];
            } else {
              metrics.RecordAuthDenied();
              outs := Silenced(peer);
            }
          }
        case ChallengeAnswer(signature, timestamp) =>
          var outcome := authenticator.VerifyAt(peer, signature, timestamp, now);
          match outcome {
            case Granted(roles) =>
              metrics.RecordAuthGranted();
              outs := [Respond(peer, AccessGranted(roles))];
            case Reject =>
              metrics.RecordAuthDenied();
              outs := Silenced(peer);
          }
      }
    }

    method Silenced(peer: PeerId) returns (outs: seq<Output>)
      ensures outs == Answer(peer, Silence)
    {
      outs := [DropChannel(peer)];
      outs := outs + [Disconnect({peer})];
    }

    method HandleStream(peer: PeerId) returns (outs: seq<Output>)
      requires Valid() && pc.Idle?
      modifies this, metrics
      ensures Valid() && (Model(), outs) == OnStream(cfg, old(Model()), peer)
    {
      hide WithSemaphore, SessionRoles;
      if deadline.Some? {
        metrics.RecordTunnelDenied();
        return [DropStream(peer)];
      }
      var roles := authenticator.CurrentRoles(peer);
      if roles.None? {
        metrics.RecordTunnelDenied();
        return [DropStream(peer), Disconnect({peer})];
      }
      var sem := SemaphoreFor(peer);
      if sem !in free || free[sem] == 0 {
        metrics.RecordTunnelDenied();
        return [DropStream(peer)];
      }
      free := free[sem := free[sem] - 1];
      pc := Reserving(peer, roles.value, sem);
      outs := [];
    }

    /** The entry of `peer` in the table of semaphores, created with all its permits when there is none. */
    method SemaphoreFor(peer: PeerId) returns (sem: nat)
      requires Valid()
      modifies this`perPeer, this`free, this`nextSem
      ensures Valid() && Model() == WithSemaphore(cfg, old(Model()), peer)
      ensures peer in perPeer && perPeer[peer] == sem
    {
      if peer !in perPeer {
        perPeer := perPeer[peer := nextSem];
        free := free[nextSem := cfg.registry.maxStreamsPerPeer];
        nextSem := nextSem + 1;
      }
      sem := perPeer[peer];
    }

    method ReserveGlobalPermit() returns (outs: seq<Output>)
      requires Valid() && pc.Reserving?
      modifies this, metrics
      ensures Valid() && (Model(), outs) == OnReserveGlobal(old(Model()))
    {
      var peer, roles, sem := pc.peer, pc.roles, pc.sem;
      pc := Idle;
      if globalFree == 0 {
        metrics.RecordTunnelDenied();
        free := free[sem := (if sem in free then free[sem] else 0) + 1];
        return [DropStream(peer)];
      }
      globalFree := globalFree - 1;
      metrics.RecordTunnelStarted();
      tasks := tasks[nextTask := Task(peer, roles, sem, AwaitHeader)];
      nextTask := nextTask + 1;
      outs := [];
    }

    method HandleShutdown(gracePeriod: nat, instant: nat)
      requires Valid()
      modifies this`deadline
      ensures deadline == Some(instant + gracePeriod)
      ensures Valid() && (Model(), []) == OnControl(old(Model()), Shutdown(gracePeriod), instant)
    {
      deadline := Some(instant + gracePeriod);
      assert perPeer - {} == perPeer;
    }

    method HandleRevoke(peer: PeerId, instant: nat) returns (outs: seq<Output>)
      requires Valid()
      modifies this`perPeer, authenticator, authenticator.whitelist
      ensures Valid() && (Model(), outs) == OnControl(old(Model()), Revocation(peer), instant)
    {
      var hadSession := authenticator.RevokePeer(peer);
      ghost var cut := {peer} * old(authenticator.sessions.Keys);
      if hadSession {
        perPeer := perPeer - {peer};
        outs := [Disconnect({peer})];
        assert cut == {peer};
      } else {
        outs := [];
        assert cut == {} && perPeer - {} == perPeer;
      }
    }

    method HandleAllow(peer: PeerId, roles: Roles, instant: nat)
      requires Valid()
      modifies authenticator.whitelist
      ensures Valid() && (Model(), []) == OnControl(old(Model()), Authorisation(peer, roles), instant)
    {
      authenticator.whitelist.Allow(peer, roles);
      assert perPeer - {} == perPeer;
    }

    /** The authenticated peers `newList` does not have. */
    method ToRevoke(newList: Whitelist) returns (toRevoke: set<PeerId>)
      requires Valid() && newList.Valid()
      ensures toRevoke == Dropped(authenticator.Model(), newList.AsMap())
    {
      toRevoke := {};
      var unseen := authenticator.sessions.Keys;
      while unseen != {}
        invariant unseen <= authenticator.sessions.Keys
        invariant toRevoke == (authenticator.sessions.Keys - unseen) - newList.AsMap().Keys
        decreases unseen
      {
        var peer :| peer in unseen;
        unseen := unseen - {peer};
        var roles := newList.Lookup(peer);
        if roles.None? {
          toRevoke := toRevoke + {peer};
        }
      }
      assert authenticator.sessions.Keys - {} == authenticator.sessions.Keys;
    }

    /** Replaces the whitelist, then revokes one by one the authenticated peers it leaves out. */
    method HandleReload(newList: Whitelist, instant: nat) returns (outs: seq<Output>)
      requires Valid() && newList.Valid() && newList != authenticator.whitelist
      modifies this`perPeer, authenticator, authenticator.whitelist
      ensures Valid() && (Model(), outs) == OnControl(old(Model()), ReloadWhitelist(newList.AsMap()), instant)
    {
      ghost var auth, table := authenticator.Model(), perPeer;
      ghost var list := newList.AsMap();
      var toRevoke := ToRevoke(newList);
      ghost var dropped := toRevoke;
      authenticator.whitelist.entries := newList.entries;
      var cut := {};
      assert auth.pending - {} == auth.pending && auth.sessions - {} == auth.sessions && table - {} == table;
      while toRevoke != {}
        invariant Valid() && newList.AsMap() == list
        invariant toRevoke !! cut && toRevoke + cut == dropped
        invariant authenticator.Model() == AuthState(list, auth.pending - cut, auth.sessions - cut)
        invariant perPeer == table - cut
        decreases toRevoke
      {
        var peer :| peer in toRevoke;
        toRevoke := toRevoke - {peer};
        assert list - {peer} == list;
        var hadSession := authenticator.RevokePeer(peer);
        assert hadSession;
        perPeer := perPeer - {peer};
        RemoveOneMore(auth.pending, cut, peer);
        RemoveOneMore(auth.sessions, cut, peer);
        RemoveOneMore(table, cut, peer);
        cut := cut + {peer};
      }
      outs := if cut == {} then [] else [Disconnect(cut)];
    }

    method HandleDrainTick(instant: nat)
      requires Valid() && deadline.Some? && running
      modifies this`running
      ensures Valid() && Model() == OnDrainTick(cfg, old(Model()), instant)
    {
      if globalFree == cfg.registry.maxStreamsTotal {
        running := false;
      } else if instant >= deadline.value {
        running := false;
      }
    }

    /** The end of a task: the counters, then the peer permit, then the global permit. */
    method Finish(t: nat)
      requires Valid() && t in tasks && tasks[t].phase.Finished?
      modifies this`free, this`globalFree, this`tasks, metrics
      ensures Valid() && Model() == Settled(old(Model()), t)
    {
      hide Settled, CountOutcome;
      ghost var s := Model();
      var task := tasks[t];
      metrics.RecordTunnelFinished(task.phase.outcome);
      free := free[task.sem := (if task.sem in free then free[task.sem] else 0) + 1];
      globalFree := globalFree + 1;
      tasks := tasks - {t};
      SettledEnd(s, t);
    }

    /** A tunnel task from its stream to its last write, when nothing runs in between. */
    method RunTask(t: nat, stream: ByteStream, timely: bool, reachable: set<SocketAddr>, relayed: Option<(nat, nat)>)
      requires Valid() && t in tasks && tasks[t].phase.AwaitHeader?
      modifies this`free, this`globalFree, this`tasks, metrics, stream
      ensures var input := if timely then Some(old(stream.incoming)) else None;
              var a := Attempt(input, reachable, old(stream.room) > 0, stream.flushable);
              && Valid() && Model() == TaskRun(cfg, old(Model()), t, a, relayed)
              && stream.outgoing == old(stream.outgoing)
                                    + Emitted(cfg.registry, old(tasks[t].peer), old(tasks[t].roles), a)
    {
      hide Emitted, HeaderOf, Settled, Established;
      ghost var s := Model();
      var task := tasks[t];
      ghost var input := if timely then Some(stream.incoming) else None;
      ghost var a := Attempt(input, reachable, stream.room > 0, stream.flushable);
      var outcome := ServeIo(stream, task.peer, task.roles, cfg.registry, timely, reachable, relayed);
      tasks := tasks[t := task.(phase := Finished(outcome))];
      TaskRunOutcome(cfg, s, t, a, relayed, outcome);
      Finish(t);
    }
  }

  /** Serving and relaying change nothing but the phase, which ends with the outcome. */
  lemma TaskRunOutcome(cfg: Config, s: GuardState, t: nat, a: Attempt,
                       relayed: Option<(nat, nat)>, outcome: TunnelOutcome)
    requires t in s.tasks && s.tasks[t].phase.AwaitHeader?
    requires outcome == if !Established(cfg.registry, s.tasks[t].peer, s.tasks[t].roles, a) then Refused
                        else if relayed.None? then Served(0, 0)
                        else Served(relayed.value.0, relayed.value.1)
    ensures TaskRun(cfg, s, t, a, relayed)
            == Settled(s.(tasks := s.tasks[t := s.tasks[t].(phase := Finished(outcome))]), t)
  {
    hide Emitted, Settled, Established;
    var s1 := OnServe(cfg, s, t, a).0;
    var task := s.tasks[t];
    assert s1.tasks[t := task.(phase := Finished(outcome))] == s.tasks[t := task.(phase := Finished(outcome))];
  }

  lemma RemoveOneMore<V>(m: map<PeerId, V>, cut: set<PeerId>, peer: PeerId)
    ensures m - cut - {peer} == m - (cut + {peer})
  {
  }

  lemma SettledEnd(s: GuardState, t: nat)
    requires t in s.tasks && s.tasks[t].phase.Finished?
    ensures var task := s.tasks[t];
            Settled(s, t) == s.(
              counters := CountOutcome(s.counters, task.phase.outcome),
              free := s.free[task.sem := Available(s, task.sem) + 1],
              globalFree := s.globalFree + 1,
              tasks := s.tasks - {t})
  {
    CountedEnd(s, t);
    hide OnSettle;
    var recorded := s.(counters := CountOutcome(s.counters, s.tasks[t].phase.outcome),
                       tasks := s.tasks[t := s.tasks[t].(phase := Recorded)]);
    RecordedEnd(recorded, t);
    assert recorded.tasks - {t} == s.tasks - {t};
  }

  lemma CountedEnd(s: GuardState, t: nat)
    requires t in s.tasks && s.tasks[t].phase.Finished?
    ensures var counted := OnSettle(OnSettle(s, t), t);
            (if s.tasks[t].phase.outcome.Served? then OnSettle(OnSettle(counted, t), t) else counted)
            == s.(counters := CountOutcome(s.counters, s.tasks[t].phase.outcome),
                  tasks := s.tasks[t := s.tasks[t].(phase := Recorded)])
  {
    hide OnSettle;
    SettleCounts(s, t);
    var s1 := OnSettle(s, t);
    SettleCounts(s1, t);
    var s2 := OnSettle(s1, t);
    if s.tasks[t].phase.outcome.Served? {
      SettleCounts(s2, t);
      SettleCounts(OnSettle(s2, t), t);
    }
  }

  lemma RecordedEnd(s: GuardState, t: nat)
    requires t in s.tasks && s.tasks[t].phase.Recorded?
    ensures OnSettle(OnSettle(s, t), t) == s.(
              free := s.free[s.tasks[t].sem := Available(s, s.tasks[t].sem) + 1],
              globalFree := s.globalFree + 1,
              tasks := s.tasks - {t})
  {
    var s1 := OnSettle(s, t);
    assert s1.tasks - {t} == s.tasks - {t};
  }
}
