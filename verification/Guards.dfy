/**
 The Guard as a step machine. The service loop owns the authority, the table of per-peer
 semaphores and the shutdown deadline; every accepted tunnel runs in a task of its own. One step is
 one event handled by the loop, or one action of one task on what is shared (semaphores, counters),
 so tasks interleave freely with the loop, also between the two reservations the loop makes for a
 stream. What the environment chooses (nonces, clocks, signatures, stream contents) is in the event.
 */
module Guards {
  import opened Basics
  import opened Wire
  import opened Tunnels
  import opened Auth

  datatype Config = Config(crypto: Crypto, registry: Registry)

  datatype Command =
    | Revocation(peer: PeerId)
    | Authorisation(peer: PeerId, roles: Roles)
    | ReloadWhitelist(whitelist: map<PeerId, Roles>)
    | Shutdown(gracePeriod: nat)

  /** Where a tunnel task is; from `Finished` on it settles its account one shared write at a time. */
  datatype Phase =
    | AwaitHeader
    | Relaying(service: Text, target: SocketAddr)
    | Finished(outcome: TunnelOutcome)
    | GaugeLowered(outcome: TunnelOutcome)
    | OpenedCounted(fromPeer: nat, toPeer: nat)
    | FromPeerCounted(toPeer: nat)
    | Recorded
    | PeerPermitDropped

  /** `sem` identifies the semaphore its peer permit came from. */
  datatype Task = Task(peer: PeerId, roles: Roles, sem: nat, phase: Phase)

  /** The loop is waiting, or holds a peer permit and is about to try the global semaphore. */
  datatype Pc = Idle | Reserving(peer: PeerId, roles: Roles, sem: nat)

  datatype Counters = Counters(
    authGranted: nat, authDenied: nat, tunnelsOpened: nat, tunnelsDenied: nat, tunnelsActive: int,
    bytesFromPeer: nat, bytesToPeer: nat)

  datatype GuardState = GuardState(
    auth: AuthState,
    conns: map<PeerId, nat>,       // established connections, of the peers that have any
    perPeer: map<PeerId, nat>,     // the semaphore in the table for a peer
    free: map<nat, nat>,           // available permits of every per-peer semaphore ever created
    globalFree: nat,               // available permits of the global semaphore
    tasks: map<nat, Task>,
    pc: Pc,
    nextSem: nat,
    nextTask: nat,
    deadline: Option<nat>,
    controlOpen: bool,
    running: bool,
    counters: Counters)

  datatype Event =
    | Connected(peer: PeerId)
    | Closed(peer: PeerId)                                               // one of its connections
    | AuthRequest(peer: PeerId, request: NuxRequest, nonce: Nonce, now: u64)
    | Stream(peer: PeerId)
    | ReserveGlobal                                                      // second half of a stream
    | Control(command: Command, instant: nat)
    | ControlClosed
    | DrainTick(instant: nat)
    | Serve(task: nat, attempt: Attempt)
    | RelayEnd(task: nat, relayed: Option<(nat, nat)>)
    | Settle(task: nat)

  datatype Output =
    | Respond(peer: PeerId, response: NuxResponse)
    | DropChannel(peer: PeerId)
    | DropStream(peer: PeerId)
    | SendOctets(peer: PeerId, octets: seq<byte>)
    | Disconnect(peers: set<PeerId>)

  function Init(cfg: Config, whitelist: map<PeerId, Roles>, controlOpen: bool): GuardState {
    GuardState(
      AuthState(whitelist, map[], map[]), map[], map[], map[], cfg.registry.maxStreamsTotal, map[],
      Idle, 0, 0, None, controlOpen, true, Counters(0, 0, 0, 0, 0, 0, 0))
  }

  /**
   When an event can happen. Two facts are assumed of the network: a connection that closes was
   established, and an authentication request comes from a connected peer.
   */
  predicate Enabled(s: GuardState, e: Event) {
    match e
    case Connected(_) => LoopWaits(s)
    case Closed(peer) => LoopWaits(s) && peer in s.conns
    case AuthRequest(peer, _, _, _) => LoopWaits(s) && peer in s.conns
    case Stream(_) => LoopWaits(s)
    case ReserveGlobal => s.running && s.pc.Reserving?
    case Control(_, _) => LoopWaits(s) && s.controlOpen
    case ControlClosed => LoopWaits(s) && s.controlOpen
    case DrainTick(_) => LoopWaits(s) && s.deadline.Some?
    case Serve(t, _) => t in s.tasks && s.tasks[t].phase.AwaitHeader?
    case RelayEnd(t, _) => t in s.tasks && s.tasks[t].phase.Relaying?
    case Settle(t) => t in s.tasks && !s.tasks[t].phase.AwaitHeader? && !s.tasks[t].phase.Relaying?
  }

  predicate LoopWaits(s: GuardState) { s.running && s.pc.Idle? }

  // ---- What the loop does ----------------------------------------------------------------------

  function OnConnected(s: GuardState, peer: PeerId): GuardState {
    s.(conns := s.conns[peer := 1 + if peer in s.conns then s.conns[peer] else 0])
  }

  /** The last connection of a peer takes its session and its semaphore with it. */
  function OnClosed(s: GuardState, peer: PeerId): GuardState
    requires peer in s.conns
  {
    if s.conns[peer] > 1 then s.(conns := s.conns[peer := s.conns[peer] - 1])
    else s.(conns := s.conns - {peer}, perPeer := s.perPeer - {peer}, auth := EndSession(s.auth, peer))
  }

  datatype AuthReply = Challenged(challenge: NuxResponse) | Welcomed(roles: Roles) | Silence

  /** During a shutdown only the first request of a handshake is refused outright. */
  function Authenticate(cfg: Config, auth: AuthState, stopping: bool, peer: PeerId,
                        request: NuxRequest, nonce: Nonce, now: u64): (AuthState, AuthReply)
  {
    match request
    case HandshakeInit =>
      if stopping then (auth, Silence)
      else
        var (auth', challenge) := Issue(auth, peer, nonce, now);
        (auth', if challenge.Some? then Challenged(challenge.value) else Silence)
    case ChallengeAnswer(signature, timestamp) =>
      var (auth', outcome) := Verify(cfg.crypto, auth, peer, signature, timestamp, now);
      (auth', if outcome.Granted? then Welcomed(outcome.roles) else Silence)
  }

  function CountAuth(c: Counters, reply: AuthReply): Counters {
    c.(authGranted := c.authGranted + if reply.Welcomed? then 1 else 0,
       authDenied := c.authDenied + if reply.Silence? then 1 else 0)
  }

  /** Radio silence: no octet is sent, the response channel is dropped and the peer cut off. */
  function Answer(peer: PeerId, reply: AuthReply): seq<Output> {
    match reply
    case Challenged(challenge) => [Respond(peer, challenge)]
    case Welcomed(roles) => [Respond(peer, AccessGranted(roles))]
    case Silence => [DropChannel(peer), Disconnect({peer})]
  }

  function OnAuthRequest(cfg: Config, s: GuardState, peer: PeerId, request: NuxRequest, nonce: Nonce, now: u64)
    : (GuardState, seq<Output>)
  {
    var (auth, reply) := Authenticate(cfg, s.auth, s.deadline.Some?, peer, request, nonce, now);
    (s.(auth := auth, counters := CountAuth(s.counters, reply)), Answer(peer, reply))
  }

  function CountRefusal(c: Counters): Counters {
    c.(tunnelsDenied := c.tunnelsDenied + 1)
  }

  function Available(s: GuardState, sem: nat): nat {
    if sem in s.free then s.free[sem] else 0
  }

  /** The semaphore of a peer, created with its first stream. */
  function WithSemaphore(cfg: Config, s: GuardState, peer: PeerId): GuardState {
    if peer in s.perPeer then s
    else s.(perPeer := s.perPeer[peer := s.nextSem],
            free := s.free[s.nextSem := cfg.registry.maxStreamsPerPeer],
            nextSem := s.nextSem + 1)
  }

  /** Tries to take a permit of the semaphore of `peer`. */
  function TakePeerPermit(s: GuardState, peer: PeerId, roles: Roles): (GuardState, seq<Output>)
    requires peer in s.perPeer
  {
    var sem := s.perPeer[peer];
    if Available(s, sem) == 0 then (s.(counters := CountRefusal(s.counters)), [DropStream(peer)])
    else (s.(free := s.free[sem := Available(s, sem) - 1], pc := Reserving(peer, roles, sem)), [])
  }

  /** First half of an incoming stream: the session check, the semaphore of the peer, its permit. */
  function OnStream(cfg: Config, s: GuardState, peer: PeerId): (GuardState, seq<Output>) {
    var roles := SessionRoles(s.auth, peer);
    if s.deadline.Some? then (s.(counters := CountRefusal(s.counters)), [DropStream(peer)])
    else if roles.None? then
      (s.(counters := CountRefusal(s.counters)), [DropStream(peer), Disconnect({peer})])
    else TakePeerPermit(WithSemaphore(cfg, s, peer), peer, roles.value)
  }

  /** Second half: the global permit, and the task; without it the peer permit goes back. */
  function OnReserveGlobal(s: GuardState): (GuardState, seq<Output>)
    requires s.pc.Reserving?
  {
    var Reserving(peer, roles, sem) := s.pc;
    var granted := s.globalFree > 0;
    (s.(globalFree := if granted then s.globalFree - 1 else 0,
        free := if granted then s.free else s.free[sem := Available(s, sem) + 1],
        tasks := if granted then s.tasks[s.nextTask := Task(peer, roles, sem, AwaitHeader)] else s.tasks,
        nextTask := if granted then s.nextTask + 1 else s.nextTask,
        counters := if granted then s.counters.(tunnelsActive := s.counters.tunnelsActive + 1)
                    else CountRefusal(s.counters),
        pc := Idle),
     if granted then [] else [DropStream(peer)])
  }

  /** The authenticated peers a command deprives of their access. */
  function CutOff(auth: AuthState, command: Command): set<PeerId> {
    match command
    case Revocation(peer) => {peer} * auth.sessions.Keys
    case ReloadWhitelist(whitelist) => Dropped(auth, whitelist)
    case _ => {}
  }

  function Administer(auth: AuthState, command: Command): AuthState {
    match command
    case Shutdown(_) => auth
    case Revocation(peer) => Revoke(auth, peer)
    case Authorisation(peer, roles) => auth.(whitelist := auth.whitelist[peer := roles])
    case ReloadWhitelist(whitelist) => Reload(auth, whitelist)
  }

  function OnControl(s: GuardState, command: Command, instant: nat): (GuardState, seq<Output>) {
    var cut := CutOff(s.auth, command);
    (s.(auth := Administer(s.auth, command),
        perPeer := s.perPeer - cut,
        deadline := if command.Shutdown? then Some(instant + command.gracePeriod) else s.deadline),
     if cut == {} then [] else [Disconnect(cut)])
  }

  /** The loop returns when every permit is back, or when the deadline has come. */
  function OnDrainTick(cfg: Config, s: GuardState, instant: nat): GuardState
    requires s.deadline.Some?
  {
    s.(running := s.globalFree != cfg.registry.maxStreamsTotal && instant < s.deadline.value)
  }

  // ---- What a task does ------------------------------------------------------------------------

  function OnServe(cfg: Config, s: GuardState, t: nat, a: Attempt): (GuardState, seq<Output>)
    requires t in s.tasks
  {
    var task := s.tasks[t];
    var octets := Emitted(cfg.registry, task.peer, task.roles, a);
    var established := Established(cfg.registry, task.peer, task.roles, a);
    var phase :=
      if established then
        var name := HeaderOf(a).value.service;
        Relaying(name, cfg.registry.services[name].target)
      else Finished(Refused);
    (s.(tasks := s.tasks[t := task.(phase := phase)]),
     (if octets == [] then [] else [SendOctets(task.peer, octets)])
     + (if established then [] else [DropStream(task.peer)]))
  }

  /** A relay that ended in an error counts as served, with no octets. */
  function OnRelayEnd(s: GuardState, t: nat, relayed: Option<(nat, nat)>): (GuardState, seq<Output>)
    requires t in s.tasks
  {
    var task := s.tasks[t];
    var outcome := if relayed.Some? then Served(relayed.value.0, relayed.value.1) else Served(0, 0);
    (s.(tasks := s.tasks[t := task.(phase := Finished(outcome))]), [DropStream(task.peer)])
  }

  /** The next shared write of a finished task: gauge, outcome, octets each way, peer permit, global permit. */
  function OnSettle(s: GuardState, t: nat): GuardState
    requires t in s.tasks
  {
    var task := s.tasks[t];
    var ends := task.phase.PeerPermitDropped?;
    s.(counters := SettleCounters(s.counters, task.phase),
       free := if task.phase.Recorded? then s.free[task.sem := Available(s, task.sem) + 1] else s.free,
       globalFree := if ends then s.globalFree + 1 else s.globalFree,
       tasks := if ends then s.tasks - {t} else s.tasks[t := task.(phase := NextPhase(task.phase))])
  }

  function NextPhase(phase: Phase): Phase {
    match phase
    case Finished(outcome) => GaugeLowered(outcome)
    case GaugeLowered(Served(fromPeer, toPeer)) => OpenedCounted(fromPeer, toPeer)
    case GaugeLowered(Refused) => Recorded
    case OpenedCounted(_, toPeer) => FromPeerCounted(toPeer)
    case FromPeerCounted(_) => Recorded
    case Recorded => PeerPermitDropped
    case _ => phase
  }

  function SettleCounters(c: Counters, phase: Phase): Counters {
    match phase
    case Finished(_) => c.(tunnelsActive := c.tunnelsActive - 1)
    case GaugeLowered(outcome) =>
      if outcome.Served? then c.(tunnelsOpened := c.tunnelsOpened + 1)
      else c.(tunnelsDenied := c.tunnelsDenied + 1)
    case OpenedCounted(fromPeer, _) => c.(bytesFromPeer := c.bytesFromPeer + fromPeer)
    case FromPeerCounted(toPeer) => c.(bytesToPeer := c.bytesToPeer + toPeer)
    case _ => c
  }

  function Step(cfg: Config, s: GuardState, e: Event): (GuardState, seq<Output>)
    requires Enabled(s, e)
  {
    match e
    case Connected(peer) => (OnConnected(s, peer), [])
    case Closed(peer) => (OnClosed(s, peer), [])
    case AuthRequest(peer, request, nonce, now) => OnAuthRequest(cfg, s, peer, request, nonce, now)
    case Stream(peer) => OnStream(cfg, s, peer)
    case ReserveGlobal => OnReserveGlobal(s)
    case Control(command, instant) => OnControl(s, command, instant)
    case ControlClosed => (s.(controlOpen := false), [])
    case DrainTick(instant) => (OnDrainTick(cfg, s, instant), [])
    case Serve(t, a) => OnServe(cfg, s, t, a)
    case RelayEnd(t, relayed) => OnRelayEnd(s, t, relayed)
    case Settle(t) => (OnSettle(s, t), [])
  }

  // ---- Runs ------------------------------------------------------------------------------------

  datatype Run = Run(states: seq<GuardState>, events: seq<Event>)

  ghost predicate Behaves(cfg: Config, r: Run) {
    && |r.states| == |r.events| + 1
    && (exists whitelist, open :: r.states[0] == Init(cfg, whitelist, open))
    && forall i | 0 <= i < |r.events| ::
         Enabled(r.states[i], r.events[i]) && r.states[i + 1] == Step(cfg, r.states[i], r.events[i]).0
  }

  function OutputsAt(cfg: Config, r: Run, i: nat): seq<Output>
    requires i < |r.events| < |r.states| && Enabled(r.states[i], r.events[i])
  {
    Step(cfg, r.states[i], r.events[i]).1
  }

  // ---- Invariants of one state --------------------------------------------------------------------

  /** Semaphores only for sessions, sessions only for whitelisted and connected peers. */
  ghost predicate Inclusion(s: GuardState) {
    && s.perPeer.Keys <= s.auth.sessions.Keys
    && s.auth.sessions.Keys <= s.auth.whitelist.Keys
    && s.auth.sessions.Keys <= s.conns.Keys
    && (s.pc.Reserving? ==>
          && s.deadline.None?
          && s.pc.peer in s.perPeer && s.perPeer[s.pc.peer] == s.pc.sem)
  }

  predicate IsTaskEvent(e: Event) { e.Serve? || e.RelayEnd? || e.Settle? }

  /** `s'` differs from `s` at most in the shared semaphores and counters and in the tasks. */
  ghost predicate LoopUntouched(s: GuardState, s': GuardState) {
    && s'.auth == s.auth && s'.conns == s.conns && s'.perPeer == s.perPeer && s'.pc == s.pc
    && s'.nextSem == s.nextSem && s'.nextTask == s.nextTask && s'.deadline == s.deadline
    && s'.controlOpen == s.controlOpen && s'.running == s.running
    && s'.counters.authGranted == s.counters.authGranted
    && s'.counters.authDenied == s.counters.authDenied
  }

  /** The tasks of `s'` are tasks of `s`, possibly further on. */
  ghost predicate TasksAdvance(s: GuardState, s': GuardState) {
    forall t | t in s'.tasks :: t in s.tasks && s'.tasks[t] == s.tasks[t].(phase := s'.tasks[t].phase)
  }

  /** A task never touches what the loop owns. */
  lemma TaskEventsFrame(cfg: Config, s: GuardState, e: Event)
    requires Enabled(s, e) && IsTaskEvent(e)
    ensures LoopUntouched(s, Step(cfg, s, e).0)
  {
    hide Emitted, Established, HeaderOf, NextPhase, OnAuthRequest, OnStream, OnReserveGlobal, OnControl, OnClosed;
  }

  lemma TaskEventsAdvance(cfg: Config, s: GuardState, e: Event)
    requires Enabled(s, e) && IsTaskEvent(e)
    ensures TasksAdvance(s, Step(cfg, s, e).0)
    ensures Ownership(s) ==> Step(cfg, s, e).0.free.Keys == s.free.Keys
  {
    hide Emitted, Established, HeaderOf, NextPhase, OnAuthRequest, OnStream, OnReserveGlobal, OnControl, OnClosed;
  }

  /** The authority changes by these operations only. */
  lemma AuthInclusion(cfg: Config, s: GuardState, peer: PeerId, request: NuxRequest, nonce: Nonce, now: u64)
    requires Inclusion(s) && s.pc.Idle? && peer in s.conns
    ensures Inclusion(OnAuthRequest(cfg, s, peer, request, nonce, now).0)
  {
    hide Timely, Signed;
  }

  lemma ControlInclusion(s: GuardState, command: Command, instant: nat)
    requires Inclusion(s) && s.pc.Idle?
    ensures Inclusion(OnControl(s, command, instant).0)
  {
  }

  lemma StreamInclusion(cfg: Config, s: GuardState, peer: PeerId)
    requires Inclusion(s) && s.pc.Idle?
    ensures Inclusion(OnStream(cfg, s, peer).0)
  {
    hide TakePeerPermit, CountRefusal;
    var roles := SessionRoles(s.auth, peer);
    if s.deadline.None? && roles.Some? {
      TakeInclusion(WithSemaphore(cfg, s, peer), peer, roles.value);
    }
  }

  lemma TakeInclusion(s: GuardState, peer: PeerId, roles: Roles)
    requires Inclusion(s) && s.pc.Idle? && s.deadline.None? && peer in s.perPeer
    ensures Inclusion(TakePeerPermit(s, peer, roles).0)
  {
    hide CountRefusal;
  }

  lemma ReserveInclusion(s: GuardState)
    requires Inclusion(s) && s.pc.Reserving?
    ensures Inclusion(OnReserveGlobal(s).0)
  {
    hide CountRefusal;
  }

  lemma ClosedInclusion(s: GuardState, peer: PeerId)
    requires Inclusion(s) && s.pc.Idle? && peer in s.conns
    ensures Inclusion(OnClosed(s, peer))
  {
  }

  lemma {:induction false} InclusionStep(cfg: Config, s: GuardState, e: Event)
    requires Enabled(s, e) && Inclusion(s)
    ensures Inclusion(Step(cfg, s, e).0)
  {
    hide OnAuthRequest, OnControl, OnStream, OnServe, OnRelayEnd, OnSettle, OnReserveGlobal, OnClosed;
    if IsTaskEvent(e) {
      TaskEventsFrame(cfg, s, e);
    } else {
      match e
      case AuthRequest(peer, request, nonce, now) => AuthInclusion(cfg, s, peer, request, nonce, now);
      case Stream(peer) => StreamInclusion(cfg, s, peer);
      case Control(command, instant) => ControlInclusion(s, command, instant);
      case ReserveGlobal => ReserveInclusion(s);
      case Closed(peer) => ClosedInclusion(s, peer);
      case _ =>
    }
  }

  /** The tasks holding a permit of semaphore `sem`. */
  ghost function Holders(s: GuardState, sem: nat): set<nat> {
    set t | t in s.tasks && s.tasks[t].sem == sem && !s.tasks[t].phase.PeerPermitDropped?
  }

  /** The permit of `sem` the loop itself holds between its two reservations. */
  function HeldByLoop(s: GuardState, sem: nat): nat {
    if s.pc.Reserving? && s.pc.sem == sem then 1 else 0
  }

  /** No permit is lost or made up, globally and for every semaphore ever created. */
  ghost predicate Permits(cfg: Config, s: GuardState) {
    && s.globalFree + |s.tasks| == cfg.registry.maxStreamsTotal
    && (forall g | g in s.free :: Balanced(cfg, s, g))
  }

  ghost predicate Balanced(cfg: Config, s: GuardState, sem: nat)
    requires sem in s.free
  {
    s.free[sem] + |Holders(s, sem)| + HeldByLoop(s, sem) == cfg.registry.maxStreamsPerPeer
  }

  /** Semaphores and tasks are known by fresh numbers; a semaphore serves one peer for ever. */
  ghost predicate Ownership(s: GuardState) {
    && (forall g | g in s.free :: g < s.nextSem)
    && (forall t | t in s.tasks :: t < s.nextTask && s.tasks[t].sem in s.free)
    && (forall p | p in s.perPeer :: s.perPeer[p] in s.free)
    && (forall p, q | p in s.perPeer && q in s.perPeer && s.perPeer[p] == s.perPeer[q] :: p == q)
    && (forall p, t | p in s.perPeer && t in s.tasks && s.tasks[t].sem == s.perPeer[p] :: s.tasks[t].peer == p)
    && (forall t, u | t in s.tasks && u in s.tasks && s.tasks[t].sem == s.tasks[u].sem ::
          s.tasks[t].peer == s.tasks[u].peer)
    && (s.pc.Reserving? ==> s.pc.peer in s.perPeer && s.perPeer[s.pc.peer] == s.pc.sem)
  }

  lemma SemaphoreOwnership(cfg: Config, s: GuardState, peer: PeerId)
    requires Ownership(s) && s.pc.Idle?
    ensures Ownership(WithSemaphore(cfg, s, peer))
  {
  }

  lemma StreamOwnership(cfg: Config, s: GuardState, peer: PeerId)
    requires Ownership(s) && s.pc.Idle?
    ensures Ownership(OnStream(cfg, s, peer).0)
  {
    hide WithSemaphore, TakePeerPermit, CountRefusal;
    SemaphoreOwnership(cfg, s, peer);
    SemaphoreKeeps(cfg, s, peer);
    var roles := SessionRoles(s.auth, peer);
    if s.deadline.None? && roles.Some? {
      TakeOwnership(WithSemaphore(cfg, s, peer), peer, roles.value);
    } else {
      OwnershipShrinks(s, OnStream(cfg, s, peer).0);
    }
  }

  lemma TakeOwnership(s: GuardState, peer: PeerId, roles: Roles)
    requires Ownership(s) && peer in s.perPeer
    ensures Ownership(TakePeerPermit(s, peer, roles).0)
  {
    hide CountRefusal;
    var s' := TakePeerPermit(s, peer, roles).0;
    assert s'.free.Keys == s.free.Keys;
  }

  lemma SemaphoreKeeps(cfg: Config, s: GuardState, peer: PeerId)
    ensures var s1 := WithSemaphore(cfg, s, peer);
            && peer in s1.perPeer && s1.pc == s.pc && s1.tasks == s.tasks
            && s1.nextTask == s.nextTask && s1.globalFree == s.globalFree
            && s1.auth == s.auth && s1.conns == s.conns && s1.deadline == s.deadline
            && s1.running == s.running && s1.counters == s.counters
  {
  }

  lemma ReserveOwnership(s: GuardState)
    requires Ownership(s) && s.pc.Reserving?
    ensures Ownership(OnReserveGlobal(s).0)
  {
  }

  /** Fewer table entries and fewer tasks, nothing else changed that ownership speaks of. */
  lemma OwnershipShrinks(s: GuardState, s': GuardState)
    requires Ownership(s) && (s.pc.Reserving? ==> s'.pc == s.pc && s'.perPeer == s.perPeer)
    requires s'.pc.Reserving? ==> s.pc.Reserving?
    requires s'.nextSem == s.nextSem && s'.nextTask == s.nextTask && s'.free.Keys == s.free.Keys
    requires forall p | p in s'.perPeer :: p in s.perPeer && s'.perPeer[p] == s.perPeer[p]
    requires forall t | t in s'.tasks :: t in s.tasks && s'.tasks[t] == s.tasks[t].(phase := s'.tasks[t].phase)
    ensures Ownership(s')
  {
  }

  lemma {:induction false} OwnershipStep(cfg: Config, s: GuardState, e: Event)
    requires Enabled(s, e) && Ownership(s)
    ensures Ownership(Step(cfg, s, e).0)
  {
    hide OnStream, OnReserveGlobal, OnServe, OnRelayEnd, OnSettle, Authenticate, Answer, Administer, CutOff;
    var s' := Step(cfg, s, e).0;
    if IsTaskEvent(e) {
      TaskEventsFrame(cfg, s, e);
      TaskEventsAdvance(cfg, s, e);
      OwnershipShrinks(s, s');
    } else {
      match e
      case Stream(peer) => StreamOwnership(cfg, s, peer);
      case ReserveGlobal => ReserveOwnership(s);
      case _ => OwnershipShrinks(s, s');
    }
  }

  /** What permit conservation looks at stays as it is. */
  lemma PermitsFrame(cfg: Config, s: GuardState, s': GuardState)
    requires Permits(cfg, s)
    requires s'.globalFree == s.globalFree && s'.free == s.free && s'.pc == s.pc
    requires s'.tasks.Keys == s.tasks.Keys
    requires forall t | t in s.tasks ::
               && s'.tasks[t].sem == s.tasks[t].sem
               && s'.tasks[t].phase.PeerPermitDropped? == s.tasks[t].phase.PeerPermitDropped?
    ensures Permits(cfg, s')
  {
    assert |s'.tasks| == |s'.tasks.Keys| && |s.tasks| == |s.tasks.Keys|;
    forall g | g in s.free ensures Balanced(cfg, s', g) {
      assert Balanced(cfg, s, g);
      assert Holders(s', g) == Holders(s, g);
    }
  }

  lemma SemaphorePermits(cfg: Config, s: GuardState, peer: PeerId)
    requires Permits(cfg, s) && s.pc.Idle?
    requires s.nextSem !in s.free && forall t | t in s.tasks :: s.tasks[t].sem != s.nextSem
    ensures Permits(cfg, WithSemaphore(cfg, s, peer))
  {
    var s' := WithSemaphore(cfg, s, peer);
    forall g | g in s'.free ensures Balanced(cfg, s', g) {
      assert Holders(s', g) == Holders(s, g);
      if g in s.free {
        assert Balanced(cfg, s, g);
      } else {
        assert Holders(s, g) == {};
      }
    }
  }

  lemma TakePermits(cfg: Config, s: GuardState, peer: PeerId, roles: Roles)
    requires Permits(cfg, s) && s.pc.Idle? && peer in s.perPeer && s.perPeer[peer] in s.free
    ensures Permits(cfg, TakePeerPermit(s, peer, roles).0)
  {
    hide CountRefusal;
    var s' := TakePeerPermit(s, peer, roles).0;
    forall g | g in s'.free ensures Balanced(cfg, s', g) {
      assert Holders(s', g) == Holders(s, g);
      assert Balanced(cfg, s, g);
    }
  }

  lemma StreamPermits(cfg: Config, s: GuardState, peer: PeerId)
    requires Ownership(s) && Permits(cfg, s) && s.pc.Idle?
    ensures Permits(cfg, OnStream(cfg, s, peer).0)
  {
    hide WithSemaphore, TakePeerPermit, CountRefusal, Permits;
    var s1 := WithSemaphore(cfg, s, peer);
    SemaphoreKeeps(cfg, s, peer);
    SemaphoreOwnership(cfg, s, peer);
    SemaphorePermits(cfg, s, peer);
    var roles := SessionRoles(s.auth, peer);
    if s.deadline.None? && roles.Some? {
      TakePermits(cfg, s1, peer, roles.value);
    } else {
      PermitsFrame(cfg, s, OnStream(cfg, s, peer).0);
    }
  }

  lemma ReserveHolders(s: GuardState, g: nat)
    requires s.pc.Reserving? && s.nextTask !in s.tasks
    ensures Holders(OnReserveGlobal(s).0, g) ==
            Holders(s, g) + if g == s.pc.sem && s.globalFree > 0 then {s.nextTask} else {}
  {
    hide CountRefusal, Available;
  }

  /** Both outcomes of the second reservation balance, also giving the peer permit back. */
  lemma ReservePermits(cfg: Config, s: GuardState)
    requires Permits(cfg, s) && s.pc.Reserving? && s.pc.sem in s.free && s.nextTask !in s.tasks
    ensures Permits(cfg, OnReserveGlobal(s).0)
  {
    hide CountRefusal, Holders, Balanced;
    var s' := OnReserveGlobal(s).0;
    forall g | g in s'.free ensures Balanced(cfg, s', g) {
      assert Balanced(cfg, s, g);
      ReserveBalanced(cfg, s, g);
    }
  }

  lemma ReserveBalanced(cfg: Config, s: GuardState, g: nat)
    requires s.pc.Reserving? && s.nextTask !in s.tasks && g in s.free && Balanced(cfg, s, g)
    ensures g in OnReserveGlobal(s).0.free && Balanced(cfg, OnReserveGlobal(s).0, g)
  {
    hide CountRefusal, Holders;
    ReserveHolders(s, g);
    FreshHolder(s, g);
  }

  lemma FreshHolder(s: GuardState, g: nat)
    requires s.nextTask !in s.tasks
    ensures s.nextTask !in Holders(s, g)
  {
  }

  lemma SettlePermits(cfg: Config, s: GuardState, t: nat)
    requires Permits(cfg, s) && t in s.tasks && s.tasks[t].sem in s.free
    ensures Permits(cfg, OnSettle(s, t))
  {
    hide SettleCounters, Permits, OnSettle, NextPhase;
    match s.tasks[t].phase
    case Recorded => DropPeerPermit(cfg, s, t);
    case PeerPermitDropped => DropGlobalPermit(cfg, s, t);
    case _ => CountPermits(cfg, s, t);
  }

  lemma CountPermits(cfg: Config, s: GuardState, t: nat)
    requires Permits(cfg, s) && t in s.tasks && !s.tasks[t].phase.Recorded? && !s.tasks[t].phase.PeerPermitDropped?
    ensures Permits(cfg, OnSettle(s, t))
  {
    hide SettleCounters, Permits, OnSettle, NextPhase;
    SettleCounts(s, t);
    PermitsFrame(cfg, s, OnSettle(s, t));
  }

  /** Until its outcome is recorded, a task only counts and goes on to its next phase. */
  lemma SettleCounts(s: GuardState, t: nat)
    requires t in s.tasks && !s.tasks[t].phase.Recorded? && !s.tasks[t].phase.PeerPermitDropped?
    ensures !NextPhase(s.tasks[t].phase).PeerPermitDropped?
    ensures var task := s.tasks[t];
            OnSettle(s, t) == s.(counters := SettleCounters(s.counters, task.phase),
                                 tasks := s.tasks[t := task.(phase := NextPhase(task.phase))])
  {
    hide SettleCounters, Available;
  }

  lemma DropPeerPermit(cfg: Config, s: GuardState, t: nat)
    requires Permits(cfg, s) && t in s.tasks && s.tasks[t].phase.Recorded? && s.tasks[t].sem in s.free
    ensures Permits(cfg, OnSettle(s, t))
  {
    hide SettleCounters;
    var s' := OnSettle(s, t);
    assert s'.tasks == s.tasks[t := s.tasks[t].(phase := PeerPermitDropped)];
    assert s'.tasks.Keys == s.tasks.Keys && |s'.tasks| == |s'.tasks.Keys| && |s.tasks| == |s.tasks.Keys|;
    forall g | g in s'.free ensures Balanced(cfg, s', g) {
      assert Balanced(cfg, s, g);
      if g == s.tasks[t].sem {
        assert t in Holders(s, g);
        assert Holders(s', g) == Holders(s, g) - {t};
      } else {
        assert Holders(s', g) == Holders(s, g);
      }
    }
  }

  lemma DropGlobalPermit(cfg: Config, s: GuardState, t: nat)
    requires Permits(cfg, s) && t in s.tasks && s.tasks[t].phase.PeerPermitDropped?
    ensures Permits(cfg, OnSettle(s, t))
  {
    hide SettleCounters;
    var s' := OnSettle(s, t);
    assert s'.tasks.Keys == s.tasks.Keys - {t} && |s'.tasks| == |s'.tasks.Keys| && |s.tasks| == |s.tasks.Keys|;
    forall g | g in s'.free ensures Balanced(cfg, s', g) {
      assert Balanced(cfg, s, g);
      assert Holders(s', g) == Holders(s, g);
    }
  }

  lemma PhasePermits(cfg: Config, s: GuardState, e: Event)
    requires Enabled(s, e) && Permits(cfg, s) && (e.Serve? || e.RelayEnd?)
    ensures Permits(cfg, Step(cfg, s, e).0)
  {
    hide Permits, Emitted, Established, HeaderOf;
    hide OnStream, OnReserveGlobal, OnSettle, OnAuthRequest, OnControl, OnClosed;
    PermitsFrame(cfg, s, Step(cfg, s, e).0);
  }

  /** Only streams and tasks touch permits and tasks. */
  lemma QuietFrame(cfg: Config, s: GuardState, e: Event)
    requires Enabled(s, e) && !IsTaskEvent(e) && !e.Stream? && !e.ReserveGlobal?
    ensures var s' := Step(cfg, s, e).0;
            && s'.globalFree == s.globalFree && s'.free == s.free && s'.pc == s.pc && s'.tasks == s.tasks
            && s'.nextTask == s.nextTask
            && s'.counters.tunnelsOpened == s.counters.tunnelsOpened
            && s'.counters.tunnelsDenied == s.counters.tunnelsDenied
            && s'.counters.tunnelsActive == s.counters.tunnelsActive
            && s'.counters.bytesFromPeer == s.counters.bytesFromPeer
            && s'.counters.bytesToPeer == s.counters.bytesToPeer
  {
    hide Authenticate, Answer, Administer, CutOff, OnStream, OnReserveGlobal, OnSettle, OnServe, OnRelayEnd;
  }

  /** The loop adds tasks by the second reservation only, and changes none. */
  lemma LoopTasks(cfg: Config, s: GuardState, e: Event)
    requires Enabled(s, e) && !IsTaskEvent(e)
    ensures var s' := Step(cfg, s, e).0;
            if e.ReserveGlobal? && s.globalFree > 0
            then s'.tasks == s.tasks[s.nextTask := Task(s.pc.peer, s.pc.roles, s.pc.sem, AwaitHeader)]
            else s'.tasks == s.tasks
  {
    if e.Stream? {
      hide WithSemaphore, SessionRoles, CountRefusal, OnAuthRequest, OnControl, OnClosed, OnReserveGlobal;
      SemaphoreKeeps(cfg, s, e.peer);
    } else if e.ReserveGlobal? {
      hide OnStream, OnAuthRequest, OnControl, OnClosed, CountRefusal, Available;
    } else {
      QuietFrame(cfg, s, e);
    }
  }

  lemma QuietPermits(cfg: Config, s: GuardState, e: Event)
    requires Enabled(s, e) && Permits(cfg, s) && !IsTaskEvent(e) && !e.Stream? && !e.ReserveGlobal?
    ensures Permits(cfg, Step(cfg, s, e).0)
  {
    hide Permits, Step;
    QuietFrame(cfg, s, e);
    PermitsFrame(cfg, s, Step(cfg, s, e).0);
  }

  lemma {:induction false} PermitsStep(cfg: Config, s: GuardState, e: Event)
    requires Enabled(s, e) && Ownership(s) && Permits(cfg, s)
    ensures Permits(cfg, Step(cfg, s, e).0)
  {
    hide Permits;
    if e.Serve? || e.RelayEnd? {
      PhasePermits(cfg, s, e);
    } else if e.Stream? || e.ReserveGlobal? || e.Settle? {
      hide OnStream, OnReserveGlobal, OnSettle, OnServe, OnRelayEnd, OnAuthRequest, OnControl, OnClosed;
      match e
      case Stream(peer) => StreamPermits(cfg, s, peer);
      case ReserveGlobal => assert s.nextTask !in s.tasks; ReservePermits(cfg, s);
      case Settle(t) => SettlePermits(cfg, s, t);
    } else {
      QuietPermits(cfg, s, e);
    }
  }

  /** The tasks the gauge counts: accepted, and not yet subtracted. */
  ghost function OnGauge(s: GuardState): set<nat> {
    set t | t in s.tasks && (s.tasks[t].phase.AwaitHeader? || s.tasks[t].phase.Relaying? || s.tasks[t].phase.Finished?)
  }

  /** The tasks subtracted from the gauge whose outcome is not counted yet. */
  ghost function Uncounted(s: GuardState): set<nat> {
    set t | t in s.tasks && s.tasks[t].phase.GaugeLowered?
  }

  lemma Invariants(cfg: Config, r: Run, i: nat)
    requires Behaves(cfg, r) && i < |r.states|
    ensures Inclusion(r.states[i]) && Ownership(r.states[i]) && Permits(cfg, r.states[i])
  {
    if i > 0 {
      Invariants(cfg, r, i - 1);
      InclusionStep(cfg, r.states[i - 1], r.events[i - 1]);
      OwnershipStep(cfg, r.states[i - 1], r.events[i - 1]);
      PermitsStep(cfg, r.states[i - 1], r.events[i - 1]);
    }
  }
}
