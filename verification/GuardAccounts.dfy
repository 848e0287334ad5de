/** What is conserved: event counts, the gauge of active tunnels, and the caps on streams. */
module GuardAccounts {
  import opened Basics
  import opened Tunnels
  import opened Auth
  import opened Guards
  import opened GuardRuns

  // ---- Event accounting ------------------------------------------------------------------------

  /** Streams received during the first `n` events. */
  function StreamsIn(r: Run, n: nat): nat
    requires n <= |r.events|
  {
    if n == 0 then 0 else StreamsIn(r, n - 1) + if r.events[n - 1].Stream? then 1 else 0
  }

  /** Authentication requests received during the first `n` events. */
  function RequestsIn(r: Run, n: nat): nat
    requires n <= |r.events|
  {
    if n == 0 then 0 else RequestsIn(r, n - 1) + if r.events[n - 1].AuthRequest? then 1 else 0
  }

  predicate SendsChallenge(outs: seq<Output>) {
    outs != [] && outs[0].Respond? && outs[0].response.Challenge?
  }

  /** Challenges sent during the first `n` events. */
  function ChallengesOut(cfg: Config, r: Run, n: nat): nat
    requires n <= |r.events| < |r.states|
    requires forall i | 0 <= i < n :: Enabled(r.states[i], r.events[i])
  {
    if n == 0 then 0
    else ChallengesOut(cfg, r, n - 1) + if SendsChallenge(OutputsAt(cfg, r, n - 1)) then 1 else 0
  }

  /** Streams whose fate is counted, or which are still on their way to being counted. */
  ghost function StreamTotal(s: GuardState): int {
    s.counters.tunnelsOpened + s.counters.tunnelsDenied + s.counters.tunnelsActive
    + |Uncounted(s)| + if s.pc.Reserving? then 1 else 0
  }

  ghost predicate GaugeExact(s: GuardState) {
    s.counters.tunnelsActive == |OnGauge(s)|
  }

  lemma GaugeSettles(s: GuardState, t: nat)
    requires t in s.tasks && !s.tasks[t].phase.AwaitHeader? && !s.tasks[t].phase.Relaying?
    ensures OnGauge(OnSettle(s, t)) == OnGauge(s) - {t}
    ensures t in OnGauge(s) <==> s.tasks[t].phase.Finished?
  {
    hide Available, SettleCounters;
  }

  lemma UncountedMoves(s: GuardState, t: nat)
    requires t in s.tasks
    ensures Uncounted(OnSettle(s, t)) == if s.tasks[t].phase.Finished? then Uncounted(s) + {t} else Uncounted(s) - {t}
    ensures t in Uncounted(s) <==> s.tasks[t].phase.GaugeLowered?
  {
    hide Available, SettleCounters;
  }

  lemma UncountedSettles(s: GuardState, t: nat)
    requires t in s.tasks
    ensures |Uncounted(OnSettle(s, t))| == |Uncounted(s)|
              + (if s.tasks[t].phase.Finished? then 1 else if s.tasks[t].phase.GaugeLowered? then -1 else 0)
  {
    UncountedMoves(s, t);
    hide OnSettle, Uncounted;
  }

  /** A task moves from the gauge to its outcome as the counters do. */
  lemma SettleAccount(s: GuardState, t: nat)
    requires t in s.tasks && GaugeExact(s)
    requires !s.tasks[t].phase.AwaitHeader? && !s.tasks[t].phase.Relaying?
    ensures GaugeExact(OnSettle(s, t)) && StreamTotal(OnSettle(s, t)) == StreamTotal(s)
  {
    hide Available, OnGauge, Uncounted, NextPhase;
    GaugeSettles(s, t);
    UncountedSettles(s, t);
  }

  lemma TaskAccount(cfg: Config, s: GuardState, e: Event)
    requires Enabled(s, e) && IsTaskEvent(e) && GaugeExact(s)
    ensures GaugeExact(Step(cfg, s, e).0) && StreamTotal(Step(cfg, s, e).0) == StreamTotal(s)
  {
    hide Emitted, Established, HeaderOf, OnAuthRequest, OnStream, OnReserveGlobal, OnControl, OnClosed, OnSettle;
    if e.Settle? {
      SettleAccount(s, e.task);
    } else {
      var s' := Step(cfg, s, e).0;
      assert OnGauge(s') == OnGauge(s) && Uncounted(s') == Uncounted(s);
    }
  }

  lemma ReserveAccount(s: GuardState)
    requires s.pc.Reserving? && GaugeExact(s) && s.nextTask !in s.tasks
    ensures GaugeExact(OnReserveGlobal(s).0) && StreamTotal(OnReserveGlobal(s).0) == StreamTotal(s)
  {
    var s' := OnReserveGlobal(s).0;
    assert Uncounted(s') == Uncounted(s);
    if s.globalFree > 0 {
      assert OnGauge(s') == OnGauge(s) + {s.nextTask};
    } else {
      assert OnGauge(s') == OnGauge(s);
    }
  }

  lemma StreamAccount(cfg: Config, s: GuardState, peer: PeerId)
    requires s.pc.Idle?
    ensures var s' := OnStream(cfg, s, peer).0;
            && s'.tasks == s.tasks && s'.counters.tunnelsActive == s.counters.tunnelsActive
            && s'.counters.tunnelsOpened == s.counters.tunnelsOpened
            && s'.counters.tunnelsDenied + (if s'.pc.Reserving? then 1 else 0) == s.counters.tunnelsDenied + 1
  {
    hide SessionRoles, WithSemaphore, Available;
    SemaphoreKeeps(cfg, s, peer);
  }

  lemma {:induction false} LoopAccount(cfg: Config, s: GuardState, e: Event)
    requires Enabled(s, e) && !IsTaskEvent(e) && !e.ReserveGlobal? && GaugeExact(s)
    ensures GaugeExact(Step(cfg, s, e).0)
    ensures StreamTotal(Step(cfg, s, e).0) == StreamTotal(s) + if e.Stream? then 1 else 0
  {
    var s' := Step(cfg, s, e).0;
    if e.Stream? {
      hide OnAuthRequest, OnReserveGlobal, OnControl, OnClosed, OnStream;
      StreamAccount(cfg, s, e.peer);
    } else {
      hide Step;
      QuietFrame(cfg, s, e);
    }
    assert s'.tasks == s.tasks;
    assert OnGauge(s') == OnGauge(s) && Uncounted(s') == Uncounted(s);
  }

  lemma AuthAccount(cfg: Config, s: GuardState, e: Event)
    requires Enabled(s, e)
    ensures var (s', outs) := Step(cfg, s, e);
            s'.counters.authGranted + s'.counters.authDenied + (if SendsChallenge(outs) then 1 else 0)
            == s.counters.authGranted + s.counters.authDenied + if e.AuthRequest? then 1 else 0
  {
    hide Timely, Signed, Acceptable, Administer, CutOff, SessionRoles, WithSemaphore;
    hide Emitted, Established, HeaderOf, NextPhase;
    if e.Stream? {
      SemaphoreKeeps(cfg, s, e.peer);
    }
  }

  /**
   In every reachable state, each stream received is opened, denied, active, being reserved for, or
   between the two writes with which its task moves it from the gauge to its outcome; and each
   authentication request was granted, denied, or answered with a challenge. The gauge is exact,
   never negative, and never above the global cap.
   */
  lemma {:induction false} EventAccounting(cfg: Config, r: Run, n: nat)
    requires Behaves(cfg, r) && n <= |r.events|
    ensures var s := r.states[n];
            && StreamsIn(r, n) == StreamTotal(s)
            && RequestsIn(r, n) == s.counters.authGranted + s.counters.authDenied + ChallengesOut(cfg, r, n)
            && GaugeExact(s)
            && 0 <= s.counters.tunnelsActive <= cfg.registry.maxStreamsTotal
  {
    hide Step, IsTaskEvent;
    if n > 0 {
      EventAccounting(cfg, r, n - 1);
      Invariants(cfg, r, n - 1);
      var s, e := r.states[n - 1], r.events[n - 1];
      AuthAccount(cfg, s, e);
      if IsTaskEvent(e) {
        TaskAccount(cfg, s, e);
        NotLoopEvent(e);
      } else if e.ReserveGlobal? {
        assert s.nextTask !in s.tasks;
        ReserveAccount(s);
        ReserveIsStep(cfg, s);
      } else {
        LoopAccount(cfg, s, e);
      }
    } else {
      assert OnGauge(r.states[0]) == {} && Uncounted(r.states[0]) == {};
    }
    GaugeBounded(cfg, r, n);
  }

  lemma NotLoopEvent(e: Event)
    requires IsTaskEvent(e)
    ensures !e.Stream?
  {
  }

  lemma ReserveIsStep(cfg: Config, s: GuardState)
    requires Enabled(s, ReserveGlobal)
    ensures Step(cfg, s, ReserveGlobal) == OnReserveGlobal(s)
  {
  }

  lemma GaugeBounded(cfg: Config, r: Run, n: nat)
    requires Behaves(cfg, r) && n < |r.states|
    ensures |OnGauge(r.states[n])| <= cfg.registry.maxStreamsTotal
  {
    hide Step;
    Invariants(cfg, r, n);
    var s := r.states[n];
    assert |s.tasks| == |s.tasks.Keys|;
    SubsetCardinality(OnGauge(s), s.tasks.Keys);
  }

  // ---- What each counter counts ------------------------------------------------------------------

  /** Sessions granted during the first `n` events. */
  function GrantsIn(cfg: Config, r: Run, n: nat): nat
    requires n <= |r.events| < |r.states|
  {
    if n == 0 then 0
    else
      var e := r.events[n - 1];
      GrantsIn(cfg, r, n - 1) + if e.AuthRequest? && IsGrant(cfg, r.states[n - 1], e, e.peer) then 1 else 0
  }

  /** `e` establishes the tunnel of its task. */
  predicate Establishes(cfg: Config, s: GuardState, e: Event)
    requires Enabled(s, e)
  {
    e.Serve? && Established(cfg.registry, s.tasks[e.task].peer, s.tasks[e.task].roles, e.attempt)
  }

  /** Tunnels established during the first `n` events. */
  function EstablishedIn(cfg: Config, r: Run, n: nat): nat
    requires n <= |r.events| < |r.states|
    requires forall i | 0 <= i < n :: Enabled(r.states[i], r.events[i])
  {
    if n == 0 then 0
    else EstablishedIn(cfg, r, n - 1) + if Establishes(cfg, r.states[n - 1], r.events[n - 1]) then 1 else 0
  }

  predicate ServedPhase(phase: Phase) {
    || phase.Relaying?
    || (phase.Finished? && phase.outcome.Served?)
    || (phase.GaugeLowered? && phase.outcome.Served?)
  }

  /** The tasks whose tunnel was established and is not counted as opened yet. */
  ghost function Serving(s: GuardState): set<nat> {
    set t | t in s.tasks && ServedPhase(s.tasks[t].phase)
  }

  lemma ServingSettle(s: GuardState, t: nat)
    requires t in s.tasks && !s.tasks[t].phase.AwaitHeader? && !s.tasks[t].phase.Relaying?
    ensures var s' := OnSettle(s, t);
            s'.counters.tunnelsOpened + |Serving(s')| == s.counters.tunnelsOpened + |Serving(s)|
  {
    hide Available;
    var s', phase := OnSettle(s, t), s.tasks[t].phase;
    if phase.GaugeLowered? && phase.outcome.Served? {
      assert Serving(s') == Serving(s) - {t} && t in Serving(s);
    } else {
      assert Serving(s') == Serving(s);
    }
  }

  lemma ServingServe(cfg: Config, s: GuardState, t: nat, a: Attempt)
    requires t in s.tasks && s.tasks[t].phase.AwaitHeader?
    ensures var s' := OnServe(cfg, s, t, a).0;
            && s'.counters == s.counters
            && |Serving(s')| == |Serving(s)|
               + if Established(cfg.registry, s.tasks[t].peer, s.tasks[t].roles, a) then 1 else 0
  {
    hide Emitted, HeaderOf, Established;
    var s' := OnServe(cfg, s, t, a).0;
    if s'.tasks[t].phase.Relaying? {
      assert Serving(s') == Serving(s) + {t} && t !in Serving(s);
    } else {
      assert Serving(s') == Serving(s);
    }
  }

  lemma ServingRelayEnd(s: GuardState, t: nat, relayed: Option<(nat, nat)>)
    requires t in s.tasks && s.tasks[t].phase.Relaying?
    ensures var s' := OnRelayEnd(s, t, relayed).0; s'.counters == s.counters && Serving(s') == Serving(s)
  {
  }

  lemma ServingTask(cfg: Config, s: GuardState, e: Event)
    requires Enabled(s, e) && IsTaskEvent(e)
    ensures var s' := Step(cfg, s, e).0;
            s'.counters.tunnelsOpened + |Serving(s')|
            == s.counters.tunnelsOpened + |Serving(s)| + if Establishes(cfg, s, e) then 1 else 0
  {
    hide Serving, Established, OnAuthRequest, OnStream, OnReserveGlobal, OnControl, OnClosed;
    hide OnSettle, OnServe, OnRelayEnd;
    match e
    case Serve(t, a) => ServingServe(cfg, s, t, a);
    case RelayEnd(t, relayed) => ServingRelayEnd(s, t, relayed);
    case Settle(t) => ServingSettle(s, t);
  }

  lemma ServingLoop(cfg: Config, s: GuardState, e: Event)
    requires Enabled(s, e) && !IsTaskEvent(e) && s.nextTask !in s.tasks
    ensures var s' := Step(cfg, s, e).0;
            s'.counters.tunnelsOpened == s.counters.tunnelsOpened && Serving(s') == Serving(s)
  {
    LoopTasks(cfg, s, e);
    if e.Stream? {
      hide OnStream, OnAuthRequest, OnReserveGlobal, OnControl, OnClosed, OnSettle, OnServe, OnRelayEnd;
      StreamCounts(cfg, s, e.peer);
    } else if e.ReserveGlobal? {
      hide OnAuthRequest, OnStream, OnControl, OnClosed, OnSettle, OnServe, OnRelayEnd, Available;
    } else {
      hide Step;
      QuietFrame(cfg, s, e);
    }
  }

  lemma GrantCounted(cfg: Config, s: GuardState, e: Event)
    requires Enabled(s, e)
    ensures Step(cfg, s, e).0.counters.authGranted
            == s.counters.authGranted + if e.AuthRequest? && IsGrant(cfg, s, e, e.peer) then 1 else 0
  {
    hide Timely, Signed, Administer, CutOff, SessionRoles, WithSemaphore, Emitted, Established, HeaderOf, NextPhase;
    if e.Stream? {
      SemaphoreKeeps(cfg, s, e.peer);
    }
  }

  /**
   The counters count what they are named for: grants exactly, and established tunnels as soon as
   their task has written its outcome. With the totals above this fixes the denials as well.
   */
  lemma {:induction false} CountersExact(cfg: Config, r: Run, n: nat)
    requires Behaves(cfg, r) && n <= |r.events|
    ensures r.states[n].counters.authGranted == GrantsIn(cfg, r, n)
    ensures r.states[n].counters.tunnelsOpened + |Serving(r.states[n])| == EstablishedIn(cfg, r, n)
  {
    hide Step, IsTaskEvent, IsGrant, Establishes;
    if n == 0 {
      assert Serving(r.states[0]) == {};
    } else {
      CountersExact(cfg, r, n - 1);
      Invariants(cfg, r, n - 1);
      var s, e := r.states[n - 1], r.events[n - 1];
      GrantCounted(cfg, s, e);
      if IsTaskEvent(e) {
        ServingTask(cfg, s, e);
      } else {
        NextIsFresh(s);
        ServingLoop(cfg, s, e);
        LoopEstablishesNothing(cfg, s, e);
      }
    }
  }

  /** `e` sends an acknowledgement. */
  predicate Acknowledges(cfg: Config, s: GuardState, e: Event)
    requires Enabled(s, e)
  {
    e.Serve? && Emitted(cfg.registry, s.tasks[e.task].peer, s.tasks[e.task].roles, e.attempt) != []
  }

  /** Acknowledgements sent during the first `n` events. */
  function AcknowledgedIn(cfg: Config, r: Run, n: nat): nat
    requires n <= |r.events| < |r.states|
    requires forall i | 0 <= i < n :: Enabled(r.states[i], r.events[i])
  {
    if n == 0 then 0
    else AcknowledgedIn(cfg, r, n - 1) + if Acknowledges(cfg, r.states[n - 1], r.events[n - 1]) then 1 else 0
  }

  /**
   The tunnels established, which are those that count as opened, are all the tunnels acknowledged
   if and only if no acknowledgement failed to be flushed; otherwise they are fewer.
   */
  lemma {:induction false} AcknowledgedExact(cfg: Config, r: Run, n: nat)
    requires Behaves(cfg, r) && n <= |r.events|
    ensures EstablishedIn(cfg, r, n) <= AcknowledgedIn(cfg, r, n)
    ensures EstablishedIn(cfg, r, n) == AcknowledgedIn(cfg, r, n) <==>
            forall i | 0 <= i < n && Acknowledges(cfg, r.states[i], r.events[i]) :: r.events[i].attempt.flushable
  {
    hide Step, Acknowledges, Establishes;
    if n > 0 {
      AcknowledgedExact(cfg, r, n - 1);
      EstablishedMeansFlushed(cfg, r.states[n - 1], r.events[n - 1]);
    }
  }

  lemma EstablishedMeansFlushed(cfg: Config, s: GuardState, e: Event)
    requires Enabled(s, e)
    ensures Establishes(cfg, s, e) <==> Acknowledges(cfg, s, e) && e.attempt.flushable
  {
    hide Admitted, HeaderOf;
  }

  lemma NextIsFresh(s: GuardState)
    requires Ownership(s)
    ensures s.nextTask !in s.tasks
  {
  }

  lemma LoopEstablishesNothing(cfg: Config, s: GuardState, e: Event)
    requires Enabled(s, e) && !IsTaskEvent(e)
    ensures !Establishes(cfg, s, e)
  {
  }

  /** The octets counted as received from peers (`up`) or sent to them. */
  function BytesCounted(c: Counters, up: bool): nat {
    if up then c.bytesFromPeer else c.bytesToPeer
  }

  /** The octets a finished relay still owes to the counters. */
  function BytesOf(phase: Phase, up: bool): nat {
    match phase
    case Finished(Served(fromPeer, toPeer)) => if up then fromPeer else toPeer
    case GaugeLowered(Served(fromPeer, toPeer)) => if up then fromPeer else toPeer
    case OpenedCounted(fromPeer, toPeer) => if up then fromPeer else toPeer
    case FromPeerCounted(toPeer) => if up then 0 else toPeer
    case _ => 0
  }

  function BytesAt(tasks: map<nat, Task>, t: nat, up: bool): nat {
    if t in tasks then BytesOf(tasks[t].phase, up) else 0
  }

  /** The octets owed by the tasks numbered below `n`. */
  function BytesOwed(tasks: map<nat, Task>, n: nat, up: bool): nat {
    if n == 0 then 0 else BytesOwed(tasks, n - 1, up) + BytesAt(tasks, n - 1, up)
  }

  /** The octets `e` reports as relayed. */
  function BytesIn(e: Event, up: bool): nat {
    if e.RelayEnd? && e.relayed.Some? then if up then e.relayed.value.0 else e.relayed.value.1 else 0
  }

  /** The octets reported as relayed during the first `n` events. */
  function BytesRelayed(r: Run, n: nat, up: bool): nat
    requires n <= |r.events|
  {
    if n == 0 then 0 else BytesRelayed(r, n - 1, up) + BytesIn(r.events[n - 1], up)
  }

  /** When only the entry of `t` differs, so does the sum, by as much. */
  lemma {:induction false} OwedChanges(a: map<nat, Task>, b: map<nat, Task>, t: nat, n: nat, up: bool)
    requires forall u: nat | u != t :: BytesAt(a, u, up) == BytesAt(b, u, up)
    ensures BytesOwed(b, n, up) == BytesOwed(a, n, up) + if t < n then BytesAt(b, t, up) - BytesAt(a, t, up) else 0
  {
    hide BytesAt;
    if n > 0 {
      OwedChanges(a, b, t, n - 1, up);
    }
  }

  /** The task that acts passes on what it owes, and takes on what its relay reports. */
  lemma TaskBytes(cfg: Config, s: GuardState, e: Event, up: bool)
    requires Enabled(s, e) && IsTaskEvent(e)
    ensures var s' := Step(cfg, s, e).0;
            && (forall u: nat | u != e.task :: BytesAt(s'.tasks, u, up) == BytesAt(s.tasks, u, up))
            && BytesCounted(s'.counters, up) + BytesAt(s'.tasks, e.task, up)
               == BytesCounted(s.counters, up) + BytesAt(s.tasks, e.task, up) + BytesIn(e, up)
  {
    hide Emitted, Established, HeaderOf, OnAuthRequest, OnStream, OnReserveGlobal, OnControl, OnClosed, Available;
  }

  lemma LoopBytes(cfg: Config, s: GuardState, e: Event, up: bool)
    requires Enabled(s, e) && !IsTaskEvent(e)
    ensures var s' := Step(cfg, s, e).0;
            && BytesCounted(s'.counters, up) == BytesCounted(s.counters, up)
            && ((s'.nextTask == s.nextTask && s'.tasks == s.tasks)
                || (s'.nextTask == s.nextTask + 1
                    && exists task: Task :: task.phase.AwaitHeader? && s'.tasks == s.tasks[s.nextTask := task]))
  {
    if e.Stream? {
      hide OnStream, OnAuthRequest, OnControl, OnClosed, OnReserveGlobal, OnSettle, OnServe, OnRelayEnd;
      StreamCounts(cfg, s, e.peer);
    } else if e.ReserveGlobal? {
      hide OnStream, OnAuthRequest, OnControl, OnClosed, OnSettle, OnServe, OnRelayEnd, Available;
    } else {
      hide Step;
      QuietFrame(cfg, s, e);
    }
  }

  lemma StreamCounts(cfg: Config, s: GuardState, peer: PeerId)
    ensures var s' := OnStream(cfg, s, peer).0;
            && s'.tasks == s.tasks && s'.nextTask == s.nextTask
            && s'.counters == s.counters.(tunnelsDenied := s'.counters.tunnelsDenied)
  {
    hide SessionRoles, WithSemaphore, Available;
    SemaphoreKeeps(cfg, s, peer);
  }

  /** The octet counters are exact: what relays reported is counted, or still owed by a finished task. */
  lemma {:induction false} BytesExact(cfg: Config, r: Run, n: nat, up: bool)
    requires Behaves(cfg, r) && n <= |r.events|
    ensures var s := r.states[n];
            BytesRelayed(r, n, up) == BytesCounted(s.counters, up) + BytesOwed(s.tasks, s.nextTask, up)
  {
    hide Step, IsTaskEvent, BytesCounted, BytesIn, BytesAt;
    if n > 0 {
      BytesExact(cfg, r, n - 1, up);
      BytesStep(cfg, r, n - 1, up);
    } else {
      assert r.states[0].counters == Counters(0, 0, 0, 0, 0, 0, 0);
      NothingCounted(r.states[0].counters, up);
    }
  }

  lemma NothingCounted(c: Counters, up: bool)
    requires c == Counters(0, 0, 0, 0, 0, 0, 0)
    ensures BytesCounted(c, up) == 0
  {
  }

  lemma BytesStep(cfg: Config, r: Run, n: nat, up: bool)
    requires Behaves(cfg, r) && n < |r.events|
    ensures var s, s' := r.states[n], r.states[n + 1];
            BytesCounted(s'.counters, up) + BytesOwed(s'.tasks, s'.nextTask, up)
            == BytesCounted(s.counters, up) + BytesOwed(s.tasks, s.nextTask, up) + BytesIn(r.events[n], up)
  {
    hide Step, BytesCounted, BytesIn, BytesAt, BytesOwed, Inclusion, Permits, Ownership;
    var s, e, s' := r.states[n], r.events[n], r.states[n + 1];
    Invariants(cfg, r, n);
    if IsTaskEvent(e) {
      TaskEventsFrame(cfg, s, e);
      TaskBytes(cfg, s, e, up);
      NumberBelow(s, e.task);
      OwedChanges(s.tasks, s'.tasks, e.task, s.nextTask, up);
    } else {
      LoopBytes(cfg, s, e, up);
      NextIsFresh(s);
      NothingRelayed(e, up);
      if s'.nextTask != s.nextTask {
        NewcomerOwesNothing(s.tasks, s'.tasks, s.nextTask, up);
      }
    }
  }

  lemma NothingRelayed(e: Event, up: bool)
    requires !IsTaskEvent(e)
    ensures BytesIn(e, up) == 0
  {
  }

  lemma NewcomerOwesNothing(a: map<nat, Task>, b: map<nat, Task>, n: nat, up: bool)
    requires n !in a && exists task: Task :: task.phase.AwaitHeader? && b == a[n := task]
    ensures BytesOwed(b, n + 1, up) == BytesOwed(a, n, up)
  {
    OwedChanges(a, b, n, n, up);
  }

  /** Connections of `p` established and not closed during the first `n` events. */
  function OpenConnections(r: Run, n: nat, p: PeerId): int
    requires n <= |r.events|
  {
    if n == 0 then 0
    else
      var e := r.events[n - 1];
      OpenConnections(r, n - 1, p)
      + (if e == Connected(p) then 1 else if e == Closed(p) then -1 else 0)
  }

  lemma ConnectionStep(cfg: Config, s: GuardState, e: Event)
    requires Enabled(s, e)
    ensures var s' := Step(cfg, s, e).0;
            s'.conns == if e.Connected? then OnConnected(s, e.peer).conns
                        else if e.Closed? then OnClosed(s, e.peer).conns else s.conns
  {
    hide Authenticate, Answer, Administer, CutOff, SessionRoles, WithSemaphore;
    hide Emitted, Established, HeaderOf, NextPhase;
    if e.Stream? {
      SemaphoreKeeps(cfg, s, e.peer);
    } else if IsTaskEvent(e) {
      TaskEventsFrame(cfg, s, e);
    }
  }

  /** A peer has a session only while a connection of it is open: the table of connections is exact. */
  lemma {:induction false} ConnectionsExact(cfg: Config, r: Run, n: nat, p: PeerId)
    requires Behaves(cfg, r) && n <= |r.events|
    ensures OpenConnections(r, n, p) == if p in r.states[n].conns then r.states[n].conns[p] else 0
    ensures p in r.states[n].conns <==> OpenConnections(r, n, p) > 0
    ensures p in r.states[n].auth.sessions ==> OpenConnections(r, n, p) > 0
  {
    hide Step, Inclusion, Ownership, Permits;
    TablesIncluded(cfg, r, n);
    if n > 0 {
      ConnectionsExact(cfg, r, n - 1, p);
      ConnectionStep(cfg, r.states[n - 1], r.events[n - 1]);
    }
  }

  /**
   Exactly when a stream gets through the loop: no shutdown, a session, a peer permit left over by
   the tasks on the semaphore of the peer; then a global one left over by all live tasks. A stream
   refused for want of a permit is dropped and its connection kept.
   */
  lemma AdmissionExact(cfg: Config, r: Run, n: nat, p: PeerId)
    requires Behaves(cfg, r) && n < |r.events| && r.events[n] == Stream(p)
    ensures var s := r.states[n];
            var room := if p in s.perPeer then |Holders(s, s.perPeer[p])| < cfg.registry.maxStreamsPerPeer
                        else 0 < cfg.registry.maxStreamsPerPeer;
            && (r.states[n + 1].pc.Reserving? <==> s.deadline.None? && p in s.auth.sessions && room)
            && OutputsAt(cfg, r, n) ==
                 (if s.deadline.Some? then [DropStream(p)]
                  else if p !in s.auth.sessions then [DropStream(p), Disconnect({p})]
                  else if room then [] else [DropStream(p)])
  {
    hide OnStream, Inclusion, Ownership, Permits;
    Invariants(cfg, r, n);
    StreamAdmitted(cfg, r.states[n], p);
  }

  lemma StreamAdmitted(cfg: Config, s: GuardState, p: PeerId)
    requires Inclusion(s) && Ownership(s) && Permits(cfg, s) && s.pc.Idle?
    ensures var (s', outs) := OnStream(cfg, s, p);
            var room := if p in s.perPeer then |Holders(s, s.perPeer[p])| < cfg.registry.maxStreamsPerPeer
                        else 0 < cfg.registry.maxStreamsPerPeer;
            && (s'.pc.Reserving? <==> s.deadline.None? && p in s.auth.sessions && room)
            && outs ==
                 (if s.deadline.Some? then [DropStream(p)]
                  else if p !in s.auth.sessions then [DropStream(p), Disconnect({p})]
                  else if room then [] else [DropStream(p)])
  {
    hide CountRefusal, Holders, WithSemaphore, TakePeerPermit;
    if p in s.perPeer {
      assert Balanced(cfg, s, s.perPeer[p]);
    }
    hide Permits, Ownership;
    SemaphoreKeeps(cfg, s, p);
    SemaphoreRoom(cfg, s, p);
    var roles := SessionRoles(s.auth, p);
    if roles.Some? {
      TakeAdmits(WithSemaphore(cfg, s, p), p, roles.value);
    }
  }

  lemma SemaphoreRoom(cfg: Config, s: GuardState, p: PeerId)
    ensures var s1 := WithSemaphore(cfg, s, p);
            p in s1.perPeer && Available(s1, s1.perPeer[p]) ==
              if p in s.perPeer then Available(s, s.perPeer[p]) else cfg.registry.maxStreamsPerPeer
  {
  }

  lemma TakeAdmits(s: GuardState, p: PeerId, roles: Roles)
    requires p in s.perPeer && s.pc.Idle?
    ensures var (s', outs) := TakePeerPermit(s, p, roles);
            && (s'.pc.Reserving? <==> Available(s, s.perPeer[p]) > 0)
            && outs == if s'.pc.Reserving? then [] else [DropStream(p)]
  {
    hide CountRefusal, Available;
  }

  lemma ReservationExact(cfg: Config, r: Run, n: nat)
    requires Behaves(cfg, r) && n < |r.events| && r.events[n].ReserveGlobal?
    ensures var s, s' := r.states[n], r.states[n + 1];
            && (s.nextTask in s'.tasks <==> |s.tasks| < cfg.registry.maxStreamsTotal)
            && (s.nextTask in s'.tasks ==>
                  s'.tasks == s.tasks[s.nextTask := Task(s.pc.peer, s.pc.roles, s.pc.sem, AwaitHeader)])
            && (s.nextTask !in s'.tasks ==> s'.tasks == s.tasks && OutputsAt(cfg, r, n) == [DropStream(s.pc.peer)])
  {
    Invariants(cfg, r, n);
    NextIsFresh(r.states[n]);
    hide CountRefusal, Available;
  }

  // ---- Inclusion and permits over runs -------------------------------------------------------------

  /** Semaphores ⊆ sessions ⊆ whitelisted and connected peers, so the table is no larger than the whitelist. */
  lemma TablesIncluded(cfg: Config, r: Run, n: nat)
    requires Behaves(cfg, r) && n < |r.states|
    ensures var s := r.states[n];
            && s.perPeer.Keys <= s.auth.sessions.Keys <= s.auth.whitelist.Keys * s.conns.Keys
            && |s.perPeer| <= |s.auth.whitelist|
  {
    hide Step;
    Invariants(cfg, r, n);
    var s := r.states[n];
    assert |s.perPeer| == |s.perPeer.Keys| && |s.auth.whitelist| == |s.auth.whitelist.Keys|;
    SubsetCardinality(s.perPeer.Keys, s.auth.whitelist.Keys);
  }

  /**
   Permit conservation: the free global permits and the live tasks add up to the global cap, and
   for every semaphore ever created the free permits, the tasks holding one and the loop holding
   one add up to the per-peer cap.
   */
  lemma PermitConservation(cfg: Config, r: Run, n: nat)
    requires Behaves(cfg, r) && n < |r.states|
    ensures var s := r.states[n];
            && s.globalFree + |s.tasks| == cfg.registry.maxStreamsTotal
            && (forall g | g in s.free ::
                  && s.free[g] + |Holders(s, g)| + HeldByLoop(s, g) == cfg.registry.maxStreamsPerPeer
                  && |Holders(s, g)| <= cfg.registry.maxStreamsPerPeer)
  {
    hide Step;
    Invariants(cfg, r, n);
    forall g | g in r.states[n].free
      ensures r.states[n].free[g] + |Holders(r.states[n], g)| + HeldByLoop(r.states[n], g)
              == cfg.registry.maxStreamsPerPeer
    {
      assert Balanced(cfg, r.states[n], g);
    }
  }

  // ---- The cap per peer ------------------------------------------------------------------------

  /** `p` loses its semaphore: its last connection closes, or it is deprived of its access. */
  predicate Resets(s: GuardState, e: Event, p: PeerId) {
    || ClosesLast(s, e, p)
    || LosesAccess(s, e, p)
  }

  lemma SemaphoreStep(cfg: Config, s: GuardState, e: Event, p: PeerId)
    requires Enabled(s, e) && !Resets(s, e, p) && p in s.perPeer
    ensures var s' := Step(cfg, s, e).0; p in s'.perPeer && s'.perPeer[p] == s.perPeer[p]
  {
    if IsTaskEvent(e) {
      hide Step, Resets;
      TaskEventsFrame(cfg, s, e);
    } else if e.Stream? {
      hide OnStream, OnAuthRequest, OnControl, OnClosed, OnReserveGlobal, OnServe, OnRelayEnd, OnSettle;
      StreamKeepsTable(cfg, s, e.peer, p);
    } else {
      hide OnStream, OnServe, OnRelayEnd, OnSettle, Authenticate, Answer, Administer, CutOff, EndSession, CountRefusal;
    }
  }

  lemma StreamKeepsTable(cfg: Config, s: GuardState, peer: PeerId, p: PeerId)
    requires p in s.perPeer
    ensures var s' := OnStream(cfg, s, peer).0; p in s'.perPeer && s'.perPeer[p] == s.perPeer[p]
  {
    hide CountRefusal, SessionRoles, WithSemaphore, TakePeerPermit;
    SemaphoreKeeps(cfg, s, peer);
    SemaphoreKeepsTable(cfg, s, peer, p);
    var roles := SessionRoles(s.auth, peer);
    if roles.Some? {
      TakeKeepsTable(WithSemaphore(cfg, s, peer), peer, roles.value);
    }
  }

  lemma SemaphoreKeepsTable(cfg: Config, s: GuardState, peer: PeerId, p: PeerId)
    requires p in s.perPeer
    ensures var s1 := WithSemaphore(cfg, s, peer); p in s1.perPeer && s1.perPeer[p] == s.perPeer[p]
  {
  }

  lemma TakeKeepsTable(s: GuardState, peer: PeerId, roles: Roles)
    requires peer in s.perPeer
    ensures TakePeerPermit(s, peer, roles).0.perPeer == s.perPeer
  {
    hide CountRefusal, Available;
  }

  /** The tasks of `p` accepted since state `b` that still hold their permit. */
  ghost function AcceptedSince(r: Run, b: nat, n: nat, p: PeerId): set<nat>
    requires b <= n < |r.states|
  {
    set t | t in r.states[n].tasks && r.states[b].nextTask <= t
            && r.states[n].tasks[t].peer == p && !r.states[n].tasks[t].phase.PeerPermitDropped?
  }

  lemma NumberBelow(s: GuardState, t: nat)
    requires Ownership(s) && t in s.tasks
    ensures t < s.nextTask
  {
  }

  /** While `p` keeps its semaphore, all its streams draw on that one. */
  lemma OneSemaphore(cfg: Config, r: Run, b: nat, n: nat, p: PeerId, t: nat)
    requires Behaves(cfg, r) && b <= n < |r.states|
    requires forall m | b <= m < n :: !Resets(r.states[m], r.events[m], p)
    requires t in r.states[n].tasks && r.states[b].nextTask <= t && r.states[n].tasks[t].peer == p
    ensures p in r.states[n].perPeer && r.states[n].tasks[t].sem == r.states[n].perPeer[p]
    decreases n
  {
    hide Step, Resets, IsTaskEvent, Ownership, Permits;
    Invariants(cfg, r, n);
    NumberBelow(r.states[n], t);
    assert b < n;
    var s, e := r.states[n - 1], r.events[n - 1];
    Invariants(cfg, r, n - 1);
    if t in s.tasks {
      TaskKept(cfg, s, e, t);
      OneSemaphore(cfg, r, b, n - 1, p, t);
    } else {
      TaskStep(cfg, s, e, t);
    }
    SemaphoreStep(cfg, s, e, p);
  }

  /** The streams of a peer accepted since its last full disconnection or revocation respect its cap. */
  lemma PeerCapSinceReset(cfg: Config, r: Run, b: nat, n: nat, p: PeerId)
    requires Behaves(cfg, r) && b <= n < |r.states|
    requires forall m | b <= m < n :: !Resets(r.states[m], r.events[m], p)
    ensures |AcceptedSince(r, b, n, p)| <= cfg.registry.maxStreamsPerPeer
  {
    hide Step, Resets;
    var s := r.states[n];
    var live := AcceptedSince(r, b, n, p);
    if live != {} {
      forall t | t in live ensures p in s.perPeer && t in Holders(s, s.perPeer[p]) {
        OneSemaphore(cfg, r, b, n, p, t);
      }
      var t :| t in live;
      Invariants(cfg, r, n);
      SubsetCardinality(live, Holders(s, s.perPeer[p]));
      PermitConservation(cfg, r, n);
    }
  }

  /** All tasks of `p` that hold a peer permit, and those whose semaphore has left the table. */
  ghost function LiveOf(s: GuardState, p: PeerId): set<nat> {
    set t | t in s.tasks && s.tasks[t].peer == p && !s.tasks[t].phase.PeerPermitDropped?
  }

  ghost function StaleOf(s: GuardState, p: PeerId): set<nat> {
    set t | t in LiveOf(s, p) && (p !in s.perPeer || s.tasks[t].sem != s.perPeer[p])
  }

  /**
   The per-peer cap is one per semaphore. When the loop holds a peer permit for `p` and goes on to
   accept its stream, the live streams of `p` stay within the cap if and only if those surviving
   from before its last reset are no more than the permits its present semaphore has left.
   */
  lemma PeerCapExact(cfg: Config, r: Run, n: nat)
    requires Behaves(cfg, r) && n < |r.events|
    requires r.events[n].ReserveGlobal? && r.states[n].globalFree > 0
    ensures var s, p := r.states[n], r.states[n].pc.peer;
            |LiveOf(r.states[n + 1], p)| <= cfg.registry.maxStreamsPerPeer
            <==> |StaleOf(s, p)| <= Available(s, s.pc.sem)
  {
    var s, p, g := r.states[n], r.states[n].pc.peer, r.states[n].pc.sem;
    Invariants(cfg, r, n);
    HoldersOfTable(s, p);
    assert Balanced(cfg, s, g);
    assert LiveOf(s, p) == Holders(s, g) + StaleOf(s, p);
    assert Holders(s, g) !! StaleOf(s, p);
    hide Step;
    ReserveIsStep(cfg, s);
    NextIsFresh(s);
    ReserveAddsOne(s);
  }

  lemma HoldersOfTable(s: GuardState, p: PeerId)
    requires Ownership(s) && p in s.perPeer
    ensures forall t | t in Holders(s, s.perPeer[p]) :: s.tasks[t].peer == p
  {
  }

  lemma ReserveAddsOne(s: GuardState)
    requires s.nextTask !in s.tasks && s.pc.Reserving? && s.globalFree > 0
    ensures |LiveOf(OnReserveGlobal(s).0, s.pc.peer)| == |LiveOf(s, s.pc.peer)| + 1
  {
    hide Available, LiveOf;
    LiveGrows(s, OnReserveGlobal(s).0, s.nextTask, Task(s.pc.peer, s.pc.roles, s.pc.sem, AwaitHeader));
  }

  lemma LiveGrows(s: GuardState, s': GuardState, t: nat, task: Task)
    requires t !in s.tasks && s'.tasks == s.tasks[t := task] && !task.phase.PeerPermitDropped?
    ensures |LiveOf(s', task.peer)| == |LiveOf(s, task.peer)| + 1
  {
    assert LiveOf(s', task.peer) == LiveOf(s, task.peer) + {t};
  }
}
