/** What holds over whole runs of the Guard: who gets a tunnel, what is counted, how it stops. */
module GuardRuns {
  import opened Basics
  import opened Wire
  import opened Tunnels
  import opened Auth
  import opened Guards

  // ---- Building runs ---------------------------------------------------------------------------

  function Last(r: Run): GuardState
    requires r.states != []
  {
    r.states[|r.states| - 1]
  }

  function Extend(cfg: Config, r: Run, e: Event): Run
    requires r.states != [] && Enabled(Last(r), e)
  {
    Run(r.states + [Step(cfg, Last(r), e).0], r.events + [e])
  }

  /** `x` goes on from `r`. */
  predicate Prefix(r: Run, x: Run) {
    r.states <= x.states && r.events <= x.events
  }

  lemma ExtendBehaves(cfg: Config, r: Run, e: Event)
    requires Behaves(cfg, r) && Enabled(Last(r), e)
    ensures var x := Extend(cfg, r, e);
            && Behaves(cfg, x) && Last(x) == Step(cfg, Last(r), e).0
            && Prefix(r, x) && |x.events| == |r.events| + 1
            && x.events[|r.events|] == e && x.states[|r.events|] == Last(r)
  {
    hide Step;
    var x := Extend(cfg, r, e);
    assert x.states[0] == r.states[0];
    forall i | 0 <= i < |x.events|
      ensures Enabled(x.states[i], x.events[i]) && x.states[i + 1] == Step(cfg, x.states[i], x.events[i]).0
    {
      if i < |r.events| {
        assert x.states[i] == r.states[i] && x.states[i + 1] == r.states[i + 1] && x.events[i] == r.events[i];
      }
    }
  }

  // ---- Issues and grants -----------------------------------------------------------------------

  /** A challenge is sent to `p`. */
  predicate IsIssue(s: GuardState, e: Event, p: PeerId) {
    e.AuthRequest? && e.peer == p && e.request.HandshakeInit? && s.deadline.None? && p in s.auth.whitelist
  }

  /** `p` answers a challenge, rightly or not. */
  predicate IsAnswer(e: Event, p: PeerId) {
    e.AuthRequest? && e.peer == p && e.request.ChallengeAnswer?
  }

  /** `p` gets a session. */
  predicate IsGrant(cfg: Config, s: GuardState, e: Event, p: PeerId) {
    IsAnswer(e, p) && Acceptable(cfg.crypto, s.auth, p, e.request.signature, e.request.timestamp, e.now)
  }

  /** The last connection of `p` closes. */
  predicate ClosesLast(s: GuardState, e: Event, p: PeerId) {
    e.Closed? && e.peer == p && p in s.conns && s.conns[p] <= 1
  }

  /** A command deprives `p` of its session: a revocation, or a reload that leaves it out. */
  predicate LosesAccess(s: GuardState, e: Event, p: PeerId) {
    && p in s.auth.sessions && e.Control?
    && (e.command == Revocation(p) || (e.command.ReloadWhitelist? && p !in e.command.whitelist))
  }

  /** `e` takes the pending challenge of `p` away: an answer of `p`, its last close, the loss of its access. */
  predicate TakesChallenge(s: GuardState, e: Event, p: PeerId) {
    || IsAnswer(e, p)
    || ClosesLast(s, e, p)
    || (e.Control? && e.command == Revocation(p))
    || LosesAccess(s, e, p)
  }

  function ChallengeOf(e: Event): IssuedChallenge
    requires e.AuthRequest?
  {
    IssuedChallenge(e.nonce, e.now)
  }

  lemma PendingStep(cfg: Config, s: GuardState, e: Event, p: PeerId)
    requires Enabled(s, e)
    ensures var s' := Step(cfg, s, e).0;
            && (p in s'.auth.pending ==>
                  if IsIssue(s, e, p) then s'.auth.pending[p] == ChallengeOf(e)
                  else p in s.auth.pending && s'.auth.pending[p] == s.auth.pending[p])
            && (IsIssue(s, e, p) ==>
                  p in s'.auth.pending && Step(cfg, s, e).1 == [Respond(p, Challenge(e.nonce, e.now))])
            && (IsAnswer(e, p) ==> p !in s'.auth.pending)
  {
    hide Acceptable, OnStream, OnReserveGlobal, Emitted, Established, HeaderOf;
    if IsTaskEvent(e) {
      TaskEventsFrame(cfg, s, e);
    } else if e.Stream? || e.ReserveGlobal? {
      StreamKeepsAuth(cfg, s, e);
    }
  }

  lemma StreamKeepsAuth(cfg: Config, s: GuardState, e: Event)
    requires Enabled(s, e) && (e.Stream? || e.ReserveGlobal?)
    ensures Step(cfg, s, e).0.auth == s.auth && Step(cfg, s, e).0.conns == s.conns
    ensures Step(cfg, s, e).0.deadline == s.deadline && Step(cfg, s, e).0.running == s.running
  {
    hide CountRefusal, WithSemaphore, SessionRoles, OnServe, OnRelayEnd, OnSettle, OnAuthRequest, OnControl, OnClosed;
    SemaphoreKeeps(cfg, s, if e.Stream? then e.peer else s.pc.peer);
  }

  lemma SessionStep(cfg: Config, s: GuardState, e: Event, p: PeerId)
    requires Enabled(s, e)
    requires p in Step(cfg, s, e).0.auth.sessions
    ensures p in s.auth.sessions || IsGrant(cfg, s, e, p)
  {
    hide Acceptable, OnStream, OnReserveGlobal, Emitted, Established, HeaderOf;
    if IsTaskEvent(e) {
      TaskEventsFrame(cfg, s, e);
    } else if e.Stream? || e.ReserveGlobal? {
      StreamKeepsAuth(cfg, s, e);
    }
  }

  /** A pending challenge was issued at some point `i` and has stayed the pending one since. */
  ghost predicate PendingFrom(r: Run, i: nat, n: nat, p: PeerId)
    requires i < n < |r.states| && i < |r.events|
  {
    && IsIssue(r.states[i], r.events[i], p)
    && forall m | i < m <= n ::
         p in r.states[m].auth.pending && r.states[m].auth.pending[p] == ChallengeOf(r.events[i])
  }

  lemma PendingSince(cfg: Config, r: Run, n: nat, p: PeerId) returns (i: nat)
    requires Behaves(cfg, r) && n < |r.states| && p in r.states[n].auth.pending
    ensures i < n && PendingFrom(r, i, n, p)
  {
    hide Step;
    assert n > 0;
    PendingStep(cfg, r.states[n - 1], r.events[n - 1], p);
    if IsIssue(r.states[n - 1], r.events[n - 1], p) {
      i := n - 1;
    } else {
      i := PendingSince(cfg, r, n - 1, p);
    }
  }

  /** A session was granted at some point `j` and has not been closed since. */
  ghost predicate SessionFrom(cfg: Config, r: Run, j: nat, n: nat, p: PeerId)
    requires j < n < |r.states| && j < |r.events|
  {
    && IsGrant(cfg, r.states[j], r.events[j], p)
    && forall m | j < m <= n :: p in r.states[m].auth.sessions
  }

  lemma SessionSince(cfg: Config, r: Run, n: nat, p: PeerId) returns (j: nat)
    requires Behaves(cfg, r) && n < |r.states| && p in r.states[n].auth.sessions
    ensures j < n && SessionFrom(cfg, r, j, n, p)
  {
    hide Step;
    assert n > 0;
    SessionStep(cfg, r.states[n - 1], r.events[n - 1], p);
    if p in r.states[n - 1].auth.sessions {
      j := SessionSince(cfg, r, n - 1, p);
    } else {
      j := n - 1;
    }
  }

  /**
   One grant per challenge: between any answer of a peer and a later grant to it lies the issue of
   the challenge the grant consumes. So grants inject into issues, and a failed answer also uses
   its challenge up.
   */
  lemma GrantNeedsFreshIssue(cfg: Config, r: Run, j1: nat, j2: nat, p: PeerId)
    requires Behaves(cfg, r) && j1 < j2 < |r.events|
    requires IsAnswer(r.events[j1], p) && IsGrant(cfg, r.states[j2], r.events[j2], p)
    ensures exists i: nat :: j1 < i < j2 && PendingFrom(r, i, j2, p)
  {
    hide Step;
    var i := PendingSince(cfg, r, j2, p);
    PendingStep(cfg, r.states[j1], r.events[j1], p);
    assert p !in r.states[j1 + 1].auth.pending;
    assert j1 < i;
  }

  /** Nonces drawn for different challenges to one peer differ. */
  ghost predicate FreshNonces(r: Run, p: PeerId)
    requires |r.states| == |r.events| + 1
  {
    forall i, k | 0 <= i < k < |r.events|
                  && IsIssue(r.states[i], r.events[i], p) && IsIssue(r.states[k], r.events[k], p) ::
      r.events[i].nonce != r.events[k].nonce
  }

  /** The pending challenge is never older than a given issue. */
  lemma PendingIsLatest(cfg: Config, r: Run, i2: nat, j: nat, p: PeerId) returns (i: nat)
    requires Behaves(cfg, r) && FreshNonces(r, p) && i2 < j < |r.events|
    requires IsIssue(r.states[i2], r.events[i2], p) && p in r.states[j].auth.pending
    ensures i2 <= i < j && PendingFrom(r, i, j, p)
  {
    hide Step;
    i := PendingSince(cfg, r, j, p);
    PendingStep(cfg, r.states[i2], r.events[i2], p);
    assert i <= i2 ==> r.states[i2 + 1].auth.pending[p] == ChallengeOf(r.events[i]);
    assert i <= i2 ==> r.events[i].nonce == r.events[i2].nonce;
  }

  /** Once a newer challenge is issued, no answer made for the older one is granted, whatever its timestamp. */
  lemma SupersededAnswerRejected(cfg: Config, r: Run, i1: nat, i2: nat, j: nat, p: PeerId, timestamp: u64)
    requires Behaves(cfg, r) && FreshNonces(r, p) && Binding(cfg.crypto)
    requires i1 < i2 < j < |r.events|
    requires IsIssue(r.states[i1], r.events[i1], p) && IsIssue(r.states[i2], r.events[i2], p)
    requires IsAnswer(r.events[j], p)
    requires Signed(cfg.crypto, p, r.events[i1].nonce, timestamp, r.events[j].request.signature)
    ensures !IsGrant(cfg, r.states[j], r.events[j], p)
  {
    hide Step;
    if IsGrant(cfg, r.states[j], r.events[j], p) {
      var i := PendingIsLatest(cfg, r, i2, j, p);
      ChallengePayloadInjective(r.events[i1].nonce, timestamp, r.events[i].nonce, r.events[j].request.timestamp);
      assert false;
    }
  }

  /** A signature earns at most one grant in a run. */
  lemma NoReplay(cfg: Config, r: Run, j1: nat, j2: nat, p: PeerId)
    requires Behaves(cfg, r) && FreshNonces(r, p) && Binding(cfg.crypto)
    requires j1 < j2 < |r.events|
    requires IsGrant(cfg, r.states[j1], r.events[j1], p) && IsGrant(cfg, r.states[j2], r.events[j2], p)
    ensures r.events[j1].request.signature != r.events[j2].request.signature
  {
    var i1 := PendingSince(cfg, r, j1, p);
    GrantNeedsFreshIssue(cfg, r, j1, j2, p);
    var i2: nat :| j1 < i2 < j2 && PendingFrom(r, i2, j2, p);
    ChallengePayloadInjective(
      r.events[i1].nonce, r.events[j1].request.timestamp, r.events[i2].nonce, r.events[j2].request.timestamp);
  }

  /** The Guard's clock does not run backwards between authentication requests. */
  ghost predicate MonotoneClock(r: Run) {
    forall i, k | 0 <= i < k < |r.events| && r.events[i].AuthRequest? && r.events[k].AuthRequest? ::
      r.events[i].now <= r.events[k].now
  }

  /** Every grant comes within five seconds of its challenge, with a timestamp from 5 s before to 10 s after it. */
  lemma GrantTiming(cfg: Config, r: Run, j: nat, p: PeerId)
    requires Behaves(cfg, r) && MonotoneClock(r) && j < |r.events| && IsGrant(cfg, r.states[j], r.events[j], p)
    ensures exists i: nat :: i < j && PendingFrom(r, i, j, p)
              && r.events[i].now <= r.events[j].now <= r.events[i].now + 5
              && r.events[i].now - 5 <= r.events[j].request.timestamp <= r.events[i].now + 10
  {
    var i := PendingSince(cfg, r, j, p);
  }

  // ---- Where tasks come from -------------------------------------------------------------------

  /** At `a` the loop accepted a stream of `p`, capturing the roles the whitelist gave it then. */
  ghost predicate AcceptedAt(r: Run, a: nat, p: PeerId, roles: Roles)
    requires a < |r.events| < |r.states|
  {
    && r.events[a] == Stream(p)
    && r.states[a].deadline.None?
    && p in r.states[a].auth.sessions
    && p in r.states[a].auth.whitelist
    && roles == r.states[a].auth.whitelist[p]
  }

  lemma PcStep(cfg: Config, s: GuardState, e: Event)
    requires Enabled(s, e)
    ensures var s' := Step(cfg, s, e).0;
            s'.pc.Reserving? ==>
              s'.pc == s.pc
              || (e == Stream(s'.pc.peer) && s.deadline.None? && SessionRoles(s.auth, s'.pc.peer) == Some(s'.pc.roles))
  {
    hide Authenticate, Answer, Administer, CutOff, CountRefusal, Emitted, Established, HeaderOf;
    if IsTaskEvent(e) {
      TaskEventsFrame(cfg, s, e);
    }
  }

  /** A reservation under way began with the acceptance of its own stream and has not been left since. */
  lemma PcSince(cfg: Config, r: Run, n: nat) returns (a: nat)
    requires Behaves(cfg, r) && n < |r.states| && r.states[n].pc.Reserving?
    ensures a < n && AcceptedAt(r, a, r.states[n].pc.peer, r.states[n].pc.roles)
    ensures forall m | a < m <= n :: r.states[m].pc == r.states[n].pc
  {
    hide Step;
    assert n > 0;
    PcStep(cfg, r.states[n - 1], r.events[n - 1]);
    if r.states[n - 1].pc == r.states[n].pc {
      a := PcSince(cfg, r, n - 1);
    } else {
      a := n - 1;
    }
  }

  lemma TaskStep(cfg: Config, s: GuardState, e: Event, t: nat)
    requires Enabled(s, e)
    requires t in Step(cfg, s, e).0.tasks && t !in s.tasks
    ensures e.ReserveGlobal? && s.pc.Reserving? && t == s.nextTask
    ensures Step(cfg, s, e).0.tasks[t] == Task(s.pc.peer, s.pc.roles, s.pc.sem, AwaitHeader)
  {
    hide Step;
    if IsTaskEvent(e) {
      TaskEventsAdvance(cfg, s, e);
    } else {
      LoopTasks(cfg, s, e);
    }
  }

  lemma TaskKept(cfg: Config, s: GuardState, e: Event, t: nat)
    requires Enabled(s, e) && Ownership(s)
    requires t in Step(cfg, s, e).0.tasks && t in s.tasks
    ensures var s' := Step(cfg, s, e).0;
            && s'.tasks[t].peer == s.tasks[t].peer && s'.tasks[t].roles == s.tasks[t].roles
            && s'.tasks[t].sem == s.tasks[t].sem
            && (s'.tasks[t].phase != s.tasks[t].phase ==> IsTaskEvent(e) && e.task == t)
  {
    if IsTaskEvent(e) {
      hide Emitted, Established, HeaderOf, NextPhase, Ownership, Available;
      hide OnAuthRequest, OnStream, OnReserveGlobal, OnControl, OnClosed;
    } else {
      hide Step;
      LoopTasks(cfg, s, e);
      assert t < s.nextTask;
    }
  }

  /**
   The stream accepted at `a` is the one that task `t` serves: the loop went from its acceptance
   straight to the global permit taken at `b`, which started `t`, and `t` has been serving it since.
   */
  ghost predicate StartedBy(r: Run, a: nat, b: nat, n: nat, t: nat)
    requires a < b < n < |r.states| == |r.events| + 1 && t in r.states[n].tasks
  {
    var Task(p, roles, sem, _) := r.states[n].tasks[t];
    && AcceptedAt(r, a, p, roles)
    && (forall m | a < m <= b :: r.states[m].pc == Reserving(p, roles, sem))
    && r.events[b] == ReserveGlobal && r.states[b].nextTask == t
    && forall m | b < m <= n :: t in r.states[m].tasks && SameStream(r.states[m].tasks[t], r.states[n].tasks[t])
  }

  predicate SameStream(x: Task, y: Task) {
    x.peer == y.peer && x.roles == y.roles && x.sem == y.sem
  }

  lemma TaskSince(cfg: Config, r: Run, n: nat, t: nat) returns (a: nat, b: nat)
    requires Behaves(cfg, r) && n < |r.states| && t in r.states[n].tasks
    ensures a < b < n && StartedBy(r, a, b, n, t)
  {
    hide Step, IsTaskEvent, AcceptedAt, Inclusion, Ownership, Permits;
    assert n > 0;
    if t in r.states[n - 1].tasks {
      Invariants(cfg, r, n - 1);
      TaskKept(cfg, r.states[n - 1], r.events[n - 1], t);
      a, b := TaskSince(cfg, r, n - 1, t);
    } else {
      TaskStep(cfg, r.states[n - 1], r.events[n - 1], t);
      b := n - 1;
      a := PcSince(cfg, r, b);
    }
  }

  // ---- Authorisation chain -----------------------------------------------------------------------

  /**
   The history behind an octet sent at `k` to the peer of task `t`: a challenge issued at `i`, a
   grant at `j` that consumed it with a signature on exactly that nonce and the answer's timestamp,
   a session and a whitelist entry kept without a gap until the very stream of `t` was accepted at
   `a`, its two permits taken and `t` started for it at `b`, and at the acceptance whitelist roles
   that satisfy the service named in the header.
   */
  ghost predicate Chain(cfg: Config, r: Run, i: nat, j: nat, a: nat, b: nat, k: nat)
    requires i < j < a < b < k < |r.events| && |r.states| == |r.events| + 1
    requires Enabled(r.states[k], r.events[k]) && r.events[k].Serve?
  {
    var t := r.events[k].task;
    var p := r.states[k].tasks[t].peer;
    && PendingFrom(r, i, j, p)
    && SessionFrom(cfg, r, j, a, p)
    && Signed(cfg.crypto, p, r.events[i].nonce, r.events[j].request.timestamp, r.events[j].request.signature)
    && (forall m | j < m <= a :: p in r.states[m].auth.whitelist)
    && StartedBy(r, a, b, k, t)
    && HeaderOf(r.events[k].attempt).Some?
    && var h := HeaderOf(r.events[k].attempt).value;
    && h.service in cfg.registry.services
    && (var role := cfg.registry.services[h.service].requiredRole;
        role.Some? ==> role.value in r.states[a].auth.whitelist[p])
    && (p in cfg.registry.attestedBinaries ==> cfg.registry.attestedBinaries[p] == h.binarySha256)
  }

  lemma AuthorizationChain(cfg: Config, r: Run, k: nat, octets: seq<byte>)
    requires Behaves(cfg, r) && k < |r.events| && r.events[k].Serve?
    requires SendOctets(r.states[k].tasks[r.events[k].task].peer, octets) in OutputsAt(cfg, r, k)
    ensures octets == [1]
    ensures exists i: nat, j: nat, a: nat, b: nat :: i < j < a < b < k && Chain(cfg, r, i, j, a, b, k)
  {
    var t := r.events[k].task;
    var p := r.states[k].tasks[t].peer;
    AcknowledgesAdmitted(cfg, r.states[k], r.events[k], octets);
    hide Step, Admitted, IsGrant, IsIssue;
    var a, b := TaskSince(cfg, r, k, t);
    var j := SessionSince(cfg, r, a, p);
    var i := PendingSince(cfg, r, j, p);
    GrantSigned(cfg, r, i, j, p);
    forall m | j < m <= a ensures p in r.states[m].auth.whitelist {
      Invariants(cfg, r, m);
      assert p in r.states[m].auth.sessions;
    }
    assert Chain(cfg, r, i, j, a, b, k);
  }

  lemma AcknowledgesAdmitted(cfg: Config, s: GuardState, e: Event, octets: seq<byte>)
    requires Enabled(s, e) && e.Serve? && SendOctets(s.tasks[e.task].peer, octets) in Step(cfg, s, e).1
    ensures var task := s.tasks[e.task];
            && octets == [TUNNEL_ACK] && HeaderOf(e.attempt).Some?
            && Authorized(cfg.registry, task.peer, task.roles, HeaderOf(e.attempt).value)
  {
    hide HeaderOf, Authorized;
  }

  /**
   The converse as well: a task acknowledges its tunnel, as soon as it is served, if and only if the
   stream was opened with a header in time that names a service of the registry, the whitelist gave
   its peer the role this service requires, if any, when the stream was accepted, the fingerprint
   expected of the peer, if any, is the one in the header, the target can be reached, and the octet
   can be written.
   */
  lemma AcknowledgedExactly(cfg: Config, r: Run, a: nat, b: nat, k: nat)
    requires Behaves(cfg, r) && a < b < k < |r.events| && r.events[k].Serve?
    requires StartedBy(r, a, b, k, r.events[k].task)
    ensures var p := r.states[k].tasks[r.events[k].task].peer;
            var attempt := r.events[k].attempt;
            SendOctets(p, [1]) in OutputsAt(cfg, r, k) <==>
            && attempt.input.Some? && ReadHeader(attempt.input.value).0.Some?
            && var h := ReadHeader(attempt.input.value).0.value;
            && h.service in cfg.registry.services
            && (var role := cfg.registry.services[h.service].requiredRole;
                role.Some? ==> role.value in r.states[a].auth.whitelist[p])
            && (p in cfg.registry.attestedBinaries ==> cfg.registry.attestedBinaries[p] == h.binarySha256)
            && cfg.registry.services[h.service].target in attempt.reachable
            && attempt.writable
  {
    hide ReadHeader, OnAuthRequest, OnStream, OnReserveGlobal, OnControl, OnClosed, OnSettle, OnRelayEnd;
  }

  lemma GrantSigned(cfg: Config, r: Run, i: nat, j: nat, p: PeerId)
    requires i < j < |r.events| < |r.states| && PendingFrom(r, i, j, p)
    requires IsGrant(cfg, r.states[j], r.events[j], p)
    ensures Signed(cfg.crypto, p, r.events[i].nonce, r.events[j].request.timestamp, r.events[j].request.signature)
  {
    hide Signed, Timely;
  }

  /** Octets reach peers by this road only: no other event sends any. */
  lemma OnlyServeSends(cfg: Config, r: Run, k: nat, p: PeerId, octets: seq<byte>)
    requires Behaves(cfg, r) && k < |r.events| && SendOctets(p, octets) in OutputsAt(cfg, r, k)
    ensures r.events[k].Serve? && p == r.states[k].tasks[r.events[k].task].peer
  {
    hide Authenticate, Administer, CutOff, Emitted, Established, HeaderOf, WithSemaphore;
  }

  /** A tunnel that relays was established by such an event, to the address of the service it names. */
  lemma RelayingWasServed(cfg: Config, r: Run, n: nat, t: nat) returns (k: nat)
    requires Behaves(cfg, r) && n < |r.states| && t in r.states[n].tasks && r.states[n].tasks[t].phase.Relaying?
    ensures k < n && r.events[k].Serve? && r.events[k].task == t && t in r.states[k].tasks
    ensures var task := r.states[k].tasks[t];
            var attempt := r.events[k].attempt;
            && Established(cfg.registry, task.peer, task.roles, attempt)
            && SendOctets(task.peer, [TUNNEL_ACK]) in OutputsAt(cfg, r, k)
            && var name := HeaderOf(attempt).value.service;
               r.states[n].tasks[t].phase == Relaying(name, cfg.registry.services[name].target)
  {
    hide Step;
    assert n > 0;
    var s, e := r.states[n - 1], r.events[n - 1];
    if t !in s.tasks {
      TaskStep(cfg, s, e, t);
    } else {
      Invariants(cfg, r, n - 1);
      TaskKept(cfg, s, e, t);
      if s.tasks[t].phase == r.states[n].tasks[t].phase {
        k := RelayingWasServed(cfg, r, n - 1, t);
      } else {
        k := n - 1;
        RelayingStep(cfg, s, e, t);
      }
    }
  }

  lemma RelayingStep(cfg: Config, s: GuardState, e: Event, t: nat)
    requires Enabled(s, e) && IsTaskEvent(e) && e.task == t && t in Step(cfg, s, e).0.tasks
    requires Step(cfg, s, e).0.tasks[t].phase.Relaying?
    ensures e.Serve?
    ensures var task := s.tasks[t];
            && Established(cfg.registry, task.peer, task.roles, e.attempt)
            && SendOctets(task.peer, [TUNNEL_ACK]) in Step(cfg, s, e).1
            && var name := HeaderOf(e.attempt).value.service;
               Step(cfg, s, e).0.tasks[t].phase == Relaying(name, cfg.registry.services[name].target)
  {
    hide Authenticate, Answer, Administer, CutOff, CountRefusal, HeaderOf, Authorized;
  }
}
