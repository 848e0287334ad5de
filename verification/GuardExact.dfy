/**
 Exactly what every event does: to each table of the Guard, to its deadline, and to the peer. Each
 statement is about all events, so it also says what leaves a table alone.
 */
module GuardExact {
  import opened Basics
  import opened Wire
  import opened Tunnels
  import opened Auth
  import opened Guards
  import opened GuardRuns
  import opened GuardAccounts

  // ---- The whitelist -----------------------------------------------------------------------------

  /** Only the three commands change the whitelist, each as it says. */
  lemma WhitelistExact(cfg: Config, s: GuardState, e: Event, p: PeerId)
    requires Enabled(s, e)
    ensures var before, after := s.auth.whitelist, Step(cfg, s, e).0.auth.whitelist;
            && (p in after <==>
                  if e.Control? && e.command == Revocation(p) then false
                  else if e.Control? && e.command.Authorisation? && e.command.peer == p then true
                  else if e.Control? && e.command.ReloadWhitelist? then p in e.command.whitelist
                  else p in before)
            && (p in after ==>
                  after[p] == if e.Control? && e.command.Authorisation? && e.command.peer == p then e.command.roles
                              else if e.Control? && e.command.ReloadWhitelist? then e.command.whitelist[p]
                              else before[p])
  {
    hide Acceptable, OnStream, OnReserveGlobal, OnServe, OnRelayEnd, OnSettle;
    if IsTaskEvent(e) {
      TaskEventsFrame(cfg, s, e);
    } else if e.Stream? || e.ReserveGlobal? {
      StreamKeepsAuth(cfg, s, e);
    }
  }

  // ---- Pending challenges ------------------------------------------------------------------------

  /** A challenge is pending exactly when this event issued it, or it was and this event did not take it away. */
  lemma PendingExact(cfg: Config, s: GuardState, e: Event, p: PeerId)
    requires Enabled(s, e)
    ensures var s' := Step(cfg, s, e).0;
            && (p in s'.auth.pending <==> IsIssue(s, e, p) || (p in s.auth.pending && !TakesChallenge(s, e, p)))
            && (p in s'.auth.pending ==>
                  s'.auth.pending[p] == if IsIssue(s, e, p) then IssuedChallenge(e.nonce, e.now) else s.auth.pending[p])
  {
    hide Acceptable, OnStream, OnReserveGlobal, OnServe, OnRelayEnd, OnSettle;
    if IsTaskEvent(e) {
      TaskEventsFrame(cfg, s, e);
    } else if e.Stream? || e.ReserveGlobal? {
      StreamKeepsAuth(cfg, s, e);
    }
  }

  // ---- Sessions ----------------------------------------------------------------------------------

  /** A session is open exactly when this event granted it, or it was and this event did not close it. */
  lemma SessionExact(cfg: Config, s: GuardState, e: Event, p: PeerId)
    requires Enabled(s, e)
    ensures p in Step(cfg, s, e).0.auth.sessions <==>
            IsGrant(cfg, s, e, p) || (p in s.auth.sessions && !ClosesLast(s, e, p) && !LosesAccess(s, e, p))
  {
    hide Acceptable, OnStream, OnReserveGlobal, OnServe, OnRelayEnd, OnSettle;
    if IsTaskEvent(e) {
      TaskEventsFrame(cfg, s, e);
    } else if e.Stream? || e.ReserveGlobal? {
      StreamKeepsAuth(cfg, s, e);
    }
  }

  /** A peer has a session if and only if it was granted one, and since then no last close and no loss of access. */
  lemma {:induction false} SessionHistory(cfg: Config, r: Run, n: nat, p: PeerId)
    requires Behaves(cfg, r) && n < |r.states|
    ensures p in r.states[n].auth.sessions <==>
            exists j :: && 0 <= j < n && IsGrant(cfg, r.states[j], r.events[j], p)
                        && forall m | j < m < n ::
                             !ClosesLast(r.states[m], r.events[m], p) && !LosesAccess(r.states[m], r.events[m], p)
  {
    hide Step, IsGrant, ClosesLast, LosesAccess;
    if n > 0 {
      SessionHistory(cfg, r, n - 1, p);
      SessionExact(cfg, r.states[n - 1], r.events[n - 1], p);
    }
  }

  /**
   Exactly when an answer is granted, from the challenge on the wire to the octets that are signed:
   the challenge of some event `i` is still the pending one, the peer is listed, it answers no later
   than five seconds after the issue, with a timestamp within five seconds of the Guard's clock, and
   with a signature its own key accepts on the nonce followed by the eight octets of the timestamp.
   The reply is then the roles of the whitelist, and otherwise the silence.
   */
  lemma GrantExact(cfg: Config, r: Run, j: nat, p: PeerId)
    requires Behaves(cfg, r) && j < |r.events| && IsAnswer(r.events[j], p)
    ensures var e, listed := r.events[j], r.states[j].auth.whitelist;
            var granted :=
              exists i: nat :: i < j && PendingFrom(r, i, j, p) && p in listed
                && e.now <= r.events[i].now + 5 && -5 <= e.now - e.request.timestamp <= 5
                && cfg.crypto.keyOf(p).Some?
                && cfg.crypto.verifies(cfg.crypto.keyOf(p).value, r.events[i].nonce + BigEndian(e.request.timestamp, 8),
                                       e.request.signature);
            && (granted <==> IsGrant(cfg, r.states[j], e, p))
            && OutputsAt(cfg, r, j) == if granted then [Respond(p, AccessGranted(listed[p]))]
                                       else [DropChannel(p), Disconnect({p})]
  {
    AnswerExact(cfg, r.states[j], r.events[j], p);
    hide Step, BigEndian;
    if IsGrant(cfg, r.states[j], r.events[j], p) {
      var i := PendingSince(cfg, r, j, p);
    }
  }

  lemma AnswerExact(cfg: Config, s: GuardState, e: Event, p: PeerId)
    requires Enabled(s, e) && IsAnswer(e, p)
    ensures Step(cfg, s, e).1 == if IsGrant(cfg, s, e, p) then [Respond(p, AccessGranted(s.auth.whitelist[p]))]
                                 else [DropChannel(p), Disconnect({p})]
  {
    hide Timely, Signed;
  }

  /** The first request of a handshake gets a challenge outside a shutdown from a listed peer, and else the silence. */
  lemma HelloExact(cfg: Config, s: GuardState, e: Event, p: PeerId)
    requires Enabled(s, e) && e.AuthRequest? && e.peer == p && e.request.HandshakeInit?
    ensures Step(cfg, s, e).1 ==
            if s.deadline.None? && p in s.auth.whitelist then [Respond(p, Challenge(e.nonce, e.now))]
            else [DropChannel(p), Disconnect({p})]
  {
  }

  // ---- The table of semaphores -------------------------------------------------------------------

  /** A peer has a semaphore exactly when this stream gives it one, or it had one and keeps its session. */
  lemma SemaphoreExact(cfg: Config, s: GuardState, e: Event, p: PeerId)
    requires Enabled(s, e) && Inclusion(s) && Ownership(s)
    ensures var s' := Step(cfg, s, e).0;
            && (p in s'.perPeer <==>
                  || (e == Stream(p) && s.deadline.None? && p in s.auth.sessions)
                  || (p in s.perPeer && !ClosesLast(s, e, p) && !LosesAccess(s, e, p)))
            && (p in s'.perPeer ==> if p in s.perPeer then s'.perPeer[p] == s.perPeer[p] else s'.perPeer[p] !in s.free)
  {
    if e.Stream? {
      hide OnStream, OnAuthRequest, OnControl, OnClosed, OnReserveGlobal, OnServe, OnRelayEnd, OnSettle;
      StreamTable(cfg, s, e.peer, p);
    } else if IsTaskEvent(e) {
      hide Step, Inclusion, Ownership;
      TaskEventsFrame(cfg, s, e);
    } else {
      hide OnStream, OnServe, OnRelayEnd, OnSettle, Ownership;
      hide Authenticate, Answer, Administer, EndSession, CountRefusal;
    }
  }

  lemma StreamTable(cfg: Config, s: GuardState, peer: PeerId, p: PeerId)
    requires Inclusion(s) && Ownership(s)
    ensures var s' := OnStream(cfg, s, peer).0;
            && (p in s'.perPeer <==> (peer == p && s.deadline.None? && p in s.auth.sessions) || p in s.perPeer)
            && (p in s'.perPeer ==> if p in s.perPeer then s'.perPeer[p] == s.perPeer[p] else s'.perPeer[p] !in s.free)
  {
    hide CountRefusal, TakePeerPermit;
    var roles := SessionRoles(s.auth, peer);
    SemaphoreKeeps(cfg, s, peer);
    if roles.Some? {
      TakeKeepsTable(WithSemaphore(cfg, s, peer), peer, roles.value);
    }
  }

  // ---- The deadline ------------------------------------------------------------------------------

  /** The event `m` is the last order to shut down before the state `n`. */
  ghost predicate LastShutdown(r: Run, m: nat, n: nat)
    requires n <= |r.events|
  {
    && m < n && r.events[m].Control? && r.events[m].command.Shutdown?
    && forall l | m < l < n :: !(r.events[l].Control? && r.events[l].command.Shutdown?)
  }

  lemma DeadlineStep(cfg: Config, s: GuardState, e: Event)
    requires Enabled(s, e)
    ensures Step(cfg, s, e).0.deadline ==
            if e.Control? && e.command.Shutdown? then Some(e.instant + e.command.gracePeriod) else s.deadline
  {
    hide Authenticate, Answer, Administer, CutOff, OnStream, OnReserveGlobal, OnServe, OnRelayEnd, OnSettle;
    if IsTaskEvent(e) {
      TaskEventsFrame(cfg, s, e);
    } else if e.Stream? || e.ReserveGlobal? {
      StreamKeepsAuth(cfg, s, e);
    }
  }

  /**
   There is a deadline exactly when a shutdown has been ordered, and it lies the grace period of the
   last such order after the instant of that order.
   */
  lemma {:induction false} DeadlineExact(cfg: Config, r: Run, n: nat)
    requires Behaves(cfg, r) && n < |r.states|
    ensures r.states[n].deadline.Some? <==> exists m: nat :: LastShutdown(r, m, n)
    ensures forall m: nat | LastShutdown(r, m, n) ::
              r.states[n].deadline == Some(r.events[m].instant + r.events[m].command.gracePeriod)
  {
    hide Step, LastShutdown;
    if n == 0 {
      NoneBefore(r);
      assert r.states[0].deadline.None?;
    } else {
      var last: nat := n - 1;
      DeadlineExact(cfg, r, last);
      DeadlineStep(cfg, r.states[last], r.events[last]);
      forall m: nat
        ensures LastShutdown(r, m, n) <==>
                if r.events[last].Control? && r.events[last].command.Shutdown? then m == last
                else LastShutdown(r, m, last)
      {
        LaterShutdown(r, m, n);
      }
      if m: nat :| LastShutdown(r, m, last) {
        LaterShutdown(r, m, n);
      }
      assert r.events[last].Control? && r.events[last].command.Shutdown? ==> LastShutdown(r, last, n);
    }
  }

  lemma NoneBefore(r: Run)
    ensures forall m: nat :: !LastShutdown(r, m, 0)
  {
  }

  lemma LaterShutdown(r: Run, m: nat, n: nat)
    requires 0 < n <= |r.events|
    ensures LastShutdown(r, m, n) <==>
            if r.events[n - 1].Control? && r.events[n - 1].command.Shutdown? then m == n - 1
            else LastShutdown(r, m, n - 1)
  {
  }

  /** An order to shut down sets the deadline and does nothing else, and sends nothing. */
  lemma ShutdownEffect(cfg: Config, s: GuardState, gracePeriod: nat, instant: nat)
    requires Enabled(s, Control(Shutdown(gracePeriod), instant))
    ensures Step(cfg, s, Control(Shutdown(gracePeriod), instant))
            == (s.(deadline := Some(instant + gracePeriod)), [])
  {
    assert s.perPeer - {} == s.perPeer;
  }

  /**
   The loop returns exactly at a drain tick that finds no tunnel left, or that comes no earlier than
   the grace period of the last order after that order; a drain tick changes nothing else.
   */
  lemma {:induction false} LoopReturns(cfg: Config, r: Run, m: nat)
    requires Behaves(cfg, r) && m < |r.events| && r.states[m].running
    ensures !r.states[m + 1].running <==>
            && r.events[m].DrainTick?
            && exists l: nat :: LastShutdown(r, l, m)
                 && (r.states[m].tasks.Keys == {}
                     || r.events[l].instant + r.events[l].command.gracePeriod <= r.events[m].instant)
    ensures r.events[m].DrainTick? ==> r.states[m + 1] == r.states[m].(running := r.states[m + 1].running)
  {
    hide LastShutdown, Inclusion, Ownership;
    DeadlineExact(cfg, r, m);
    var s, e := r.states[m], r.events[m];
    if e.DrainTick? {
      Invariants(cfg, r, m);
      assert |s.tasks| == |s.tasks.Keys|;
      DrainStep(cfg, s, e.instant);
    } else {
      hide Step;
      RunningStep(cfg, s, e);
    }
  }

  /** Only a drain tick ends the loop. */
  lemma RunningStep(cfg: Config, s: GuardState, e: Event)
    requires Enabled(s, e) && !e.DrainTick?
    ensures Step(cfg, s, e).0.running == s.running
  {
    hide Authenticate, Answer, Administer, CutOff, CountRefusal;
    hide Emitted, Established, HeaderOf, OnStream, OnReserveGlobal, NextPhase;
    if e.Stream? || e.ReserveGlobal? {
      StreamKeepsAuth(cfg, s, e);
    } else if IsTaskEvent(e) {
      TaskEventsFrame(cfg, s, e);
    }
  }

  lemma DrainStep(cfg: Config, s: GuardState, instant: nat)
    requires s.deadline.Some? && s.globalFree + |s.tasks.Keys| == cfg.registry.maxStreamsTotal
    ensures !OnDrainTick(cfg, s, instant).running <==> s.tasks.Keys == {} || s.deadline.value <= instant
  {
    assert s.tasks.Keys == {} <==> |s.tasks.Keys| == 0;
  }

  // ---- The control channel -----------------------------------------------------------------------

  lemma ControlStep(cfg: Config, s: GuardState, e: Event)
    requires Enabled(s, e)
    ensures Step(cfg, s, e).0.controlOpen <==> s.controlOpen && !e.ControlClosed?
  {
    hide Authenticate, Answer, Administer, CutOff, OnServe, OnRelayEnd, OnSettle;
    hide CountRefusal, SessionRoles, WithSemaphore;
    if IsTaskEvent(e) {
      TaskEventsFrame(cfg, s, e);
    } else if e.Stream? {
      ChannelKept(cfg, s, e.peer);
    }
  }

  lemma ChannelKept(cfg: Config, s: GuardState, peer: PeerId)
    ensures WithSemaphore(cfg, s, peer).controlOpen == s.controlOpen && peer in WithSemaphore(cfg, s, peer).perPeer
  {
  }

  /** Once the control channel is found closed it is polled no more: no command and no second closing follow. */
  lemma {:induction false} ClosedForGood(cfg: Config, r: Run, n: nat, m: nat)
    requires Behaves(cfg, r) && n < m < |r.states| && r.events[n].ControlClosed?
    ensures !r.states[m].controlOpen
    ensures m < |r.events| ==> !r.events[m].Control? && !r.events[m].ControlClosed?
    decreases m
  {
    hide Step;
    if n < m - 1 {
      ClosedForGood(cfg, r, n, m - 1);
    }
    ControlStep(cfg, r.states[m - 1], r.events[m - 1]);
  }

  // ---- Tunnel tasks ------------------------------------------------------------------------------

  /** What becomes of a served task: it relays to the address of its service, or it is over and its stream dropped. */
  lemma ServeExact(cfg: Config, s: GuardState, e: Event)
    requires Enabled(s, e) && e.Serve?
    ensures var task := s.tasks[e.task];
            var established := Admitted(cfg.registry, task.peer, task.roles, e.attempt)
                               && e.attempt.writable && e.attempt.flushable;
            && Step(cfg, s, e).0.tasks == s.tasks[e.task := task.(phase :=
                 if established
                 then var name := ReadHeader(e.attempt.input.value).0.value.service;
                      Relaying(name, cfg.registry.services[name].target)
                 else Finished(Refused))]
            && (DropStream(task.peer) in Step(cfg, s, e).1 <==> !established)
  {
    hide ReadHeader, Authorized, OnAuthRequest, OnStream, OnReserveGlobal, OnControl, OnClosed, OnSettle, OnRelayEnd;
  }

  /** The end of a relay drops its stream; after an error it counts as served, with no octets. */
  lemma RelayEndExact(cfg: Config, s: GuardState, e: Event)
    requires Enabled(s, e) && e.RelayEnd?
    ensures var task := s.tasks[e.task];
            && Step(cfg, s, e).1 == [DropStream(task.peer)]
            && Step(cfg, s, e).0 == s.(tasks := s.tasks[e.task := task.(phase := Finished(
                 if e.relayed.None? then Served(0, 0) else Served(e.relayed.value.0, e.relayed.value.1)))])
  {
  }
}
