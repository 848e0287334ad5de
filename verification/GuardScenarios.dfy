/** Runs that do happen: what the code allows although its comments may suggest otherwise. */
module GuardScenarios {
  import opened Basics
  import opened Wire
  import opened Tunnels
  import opened Auth
  import opened Guards
  import opened GuardRuns
  import opened GuardSilence
  import opened GuardAccounts

  /** A peer's way to sign, accepted under the key its identity embeds. */
  ghost predicate Signs(crypto: Crypto, p: PeerId, sign: seq<byte> -> seq<byte>) {
    && crypto.keyOf(p).Some?
    && forall payload :: crypto.verifies(crypto.keyOf(p).value, payload, sign(payload))
  }

  // ---- Runs with fresh nonces and a clock that does not run backwards ---------------------------------

  /** What the environment draws for a handshake: its nonce and its instant. */
  type Draw = (Nonce, u64)

  /** No nonce is drawn twice, and no draw comes before an earlier one. */
  ghost predicate Plausible(draws: seq<Draw>) {
    forall i, j | 0 <= i < j < |draws| :: draws[i].0 != draws[j].0 && draws[i].1 <= draws[j].1
  }

  /** The authentication requests of `r` use these draws, as a sound random generator and clock would. */
  ghost predicate Sound(r: Run, p: PeerId, draws: seq<Draw>)
    requires |r.states| == |r.events| + 1
  {
    && FreshNonces(r, p) && MonotoneClock(r)
    && forall i | 0 <= i < |r.events| && r.events[i].AuthRequest? :: (r.events[i].nonce, r.events[i].now) in draws
  }

  /** Going on with an event that is no authentication request, opens a handshake on a new draw, or ends the last. */
  lemma ExtendSound(cfg: Config, r: Run, e: Event, p: PeerId, draws: seq<Draw>, draws': seq<Draw>)
    requires Behaves(cfg, r) && Enabled(Last(r), e) && Sound(r, p, draws)
    requires Plausible(draws') && draws <= draws'
    requires e.AuthRequest? ==> draws' != [] && (e.nonce, e.now) == draws'[|draws'| - 1]
    requires IsIssue(Last(r), e, p) ==> draws' == draws + [(e.nonce, e.now)]
    ensures Behaves(cfg, Extend(cfg, r, e)) && Sound(Extend(cfg, r, e), p, draws')
    ensures Last(Extend(cfg, r, e)) == Step(cfg, Last(r), e).0
    ensures Prefix(r, Extend(cfg, r, e)) && Extend(cfg, r, e).events == r.events + [e]
  {
    ExtendBehaves(cfg, r, e);
    hide Step, Behaves, IsIssue;
    var x, n := Extend(cfg, r, e), |r.events|;
    forall i | 0 <= i < |x.events| && x.events[i].AuthRequest?
      ensures (x.events[i].nonce, x.events[i].now) in draws'
      ensures i < n ==> (x.events[i].nonce, x.events[i].now) in draws
    {
      if i < n {
        assert x.events[i] == r.events[i] && (r.events[i].nonce, r.events[i].now) in draws;
      }
    }
    forall i, k | 0 <= i < k < |x.events| && x.events[i].AuthRequest? && x.events[k].AuthRequest?
      ensures x.events[i].now <= x.events[k].now
    {
      if k < n {
        assert x.events[i] == r.events[i] && x.events[k] == r.events[k];
      } else {
        NotAfterLast(draws', (x.events[i].nonce, x.events[i].now));
      }
    }
    forall i, k | 0 <= i < k < |x.events|
                  && IsIssue(x.states[i], x.events[i], p) && IsIssue(x.states[k], x.events[k], p)
      ensures x.events[i].nonce != x.events[k].nonce
    {
      assert x.events[i] == r.events[i] && x.states[i] == r.states[i];
      IssueAsks(x.states[i], x.events[i], p);
      if k < n {
        assert x.events[k] == r.events[k] && x.states[k] == r.states[k];
      } else {
        NewToDraws(draws, (e.nonce, e.now), (x.events[i].nonce, x.events[i].now));
      }
    }
  }

  lemma IssueAsks(s: GuardState, e: Event, p: PeerId)
    requires IsIssue(s, e, p)
    ensures e.AuthRequest?
  {
  }

  lemma NotAfterLast(draws: seq<Draw>, d: Draw)
    requires Plausible(draws) && d in draws
    ensures d.1 <= draws[|draws| - 1].1
  {
  }

  lemma NewToDraws(draws: seq<Draw>, d: Draw, earlier: Draw)
    requires Plausible(draws + [d]) && earlier in draws
    ensures earlier.0 != d.0
  {
    var i :| 0 <= i < |draws| && draws[i] == earlier;
    assert (draws + [d])[i] == earlier && (draws + [d])[|draws|] == d;
  }

  // ---- A visit of a peer -----------------------------------------------------------------------------

  /** The loop waits for events and no shutdown is under way. */
  predicate Open(s: GuardState) {
    s.running && s.pc.Idle? && s.deadline.None?
  }

  /** What a visit of `p` so far leaves alone. */
  predicate TunnelsUntouched(s: GuardState, t: GuardState) {
    && t.tasks == s.tasks && t.globalFree == s.globalFree && t.perPeer == s.perPeer && t.nextTask == s.nextTask
    && t.auth.whitelist == s.auth.whitelist
    && t.counters.tunnelsDenied == s.counters.tunnelsDenied && t.counters.tunnelsOpened == s.counters.tunnelsOpened
  }

  /** No event from number `n` on is the serving of a stream. */
  predicate NoServe(r: Run, n: nat) {
    forall i | n <= i < |r.events| :: !r.events[i].Serve?
  }

  lemma LogIn(cfg: Config, r: Run, p: PeerId, sign: seq<byte> -> seq<byte>, draws: seq<Draw>, d: Draw) returns (x: Run)
    requires Behaves(cfg, r) && Open(Last(r)) && Sound(r, p, draws) && Plausible(draws + [d])
    requires p in Last(r).auth.whitelist && p !in Last(r).conns && Signs(cfg.crypto, p, sign)
    ensures Behaves(cfg, x) && Sound(x, p, draws + [d]) && Prefix(r, x) && NoServe(x, |r.events|)
    ensures var s, t := Last(r), Last(x);
            && Open(t) && TunnelsUntouched(s, t)
            && p in t.auth.sessions && p in t.conns && t.conns[p] == 1
  {
    hide FreshNonces, MonotoneClock, Sound, Plausible, Signs;
    hide OnStream, OnReserveGlobal, OnAuthRequest, OnControl, OnClosed, OnSettle, OnServe, OnRelayEnd;
    PlausiblePrefix(draws, d);
    ExtendSound(cfg, r, Connected(p), p, draws, draws);
    x := Extend(cfg, r, Connected(p));
    x := ShakeHands(cfg, x, p, sign, draws, d);
  }

  lemma ShakeHands(cfg: Config, r: Run, p: PeerId, sign: seq<byte> -> seq<byte>, draws: seq<Draw>, d: Draw)
    returns (x: Run)
    requires Behaves(cfg, r) && Open(Last(r)) && Sound(r, p, draws) && Plausible(draws + [d])
    requires p in Last(r).auth.whitelist && p in Last(r).conns && Signs(cfg.crypto, p, sign)
    ensures Behaves(cfg, x) && Sound(x, p, draws + [d]) && Prefix(r, x) && NoServe(x, |r.events|)
    ensures var s, t := Last(r), Last(x);
            Open(t) && TunnelsUntouched(s, t) && p in t.auth.sessions && t.conns == s.conns
  {
    hide FreshNonces, MonotoneClock, Sound, Plausible;
    hide OnStream, OnReserveGlobal, OnControl, OnClosed, OnSettle, OnServe, OnRelayEnd;
    var all := draws + [d];
    var signature := sign(ChallengePayload(d.0, d.1));
    var hello := AuthRequest(p, HandshakeInit, d.0, d.1);
    var answer := AuthRequest(p, ChallengeAnswer(signature, d.1), d.0, d.1);
    assert Signed(cfg.crypto, p, d.0, d.1, signature);
    hide Signs, Signed;
    ExtendSound(cfg, r, hello, p, draws, all);
    x := Extend(cfg, r, hello);
    ExtendSound(cfg, x, answer, p, all, all);
    x := Extend(cfg, x, answer);
  }

  lemma PlausiblePrefix(draws: seq<Draw>, d: Draw)
    requires Plausible(draws + [d])
    ensures Plausible(draws)
  {
    assert forall i | 0 <= i < |draws| :: (draws + [d])[i] == draws[i];
  }

  /** The stream of `p` gets the task number `Last(r).nextTask`. */
  lemma OpenStream(cfg: Config, r: Run, p: PeerId, draws: seq<Draw>) returns (x: Run)
    requires Behaves(cfg, r) && Open(Last(r)) && Sound(r, p, draws) && Plausible(draws)
    requires p in Last(r).auth.sessions && p in Last(r).auth.whitelist && p !in Last(r).perPeer
    requires cfg.registry.maxStreamsPerPeer > 0 && Last(r).globalFree > 0
    ensures Behaves(cfg, x) && Sound(x, p, draws) && Prefix(r, x) && NoServe(x, |r.events|)
    ensures var s, t := Last(r), Last(x);
            && Open(t) && t.globalFree == s.globalFree - 1 && t.auth == s.auth && t.conns == s.conns
            && |LiveOf(t, p)| == |LiveOf(s, p)| + 1
            && s.nextTask in t.tasks && t.tasks[s.nextTask].peer == p
            && t.tasks[s.nextTask].roles == s.auth.whitelist[p] && t.tasks[s.nextTask].phase.AwaitHeader?
            && t.counters.tunnelsDenied == s.counters.tunnelsDenied
            && t.counters.tunnelsOpened == s.counters.tunnelsOpened
  {
    hide Sound, Plausible, OnStream, OnReserveGlobal, OnAuthRequest, OnControl, OnClosed, OnSettle, OnServe, OnRelayEnd;
    ExtendSound(cfg, r, Stream(p), p, draws, draws);
    x := Extend(cfg, r, Stream(p));
    StreamTaken(cfg, Last(r), p);
    var s := Last(x);
    hide LiveOf, Inclusion, Permits, Ownership;
    LiveDepends(Last(r), s, p);
    Invariants(cfg, x, |x.states| - 1);
    NextIsFresh(s);
    ReserveAddsOne(s);
    ReservationTaken(s);
    ExtendSound(cfg, x, ReserveGlobal, p, draws, draws);
    x := Extend(cfg, x, ReserveGlobal);
  }

  lemma LiveDepends(s: GuardState, t: GuardState, p: PeerId)
    requires s.tasks == t.tasks
    ensures LiveOf(s, p) == LiveOf(t, p)
  {
  }

  lemma StreamTaken(cfg: Config, s: GuardState, p: PeerId)
    requires s.deadline.None? && p in s.auth.sessions && p in s.auth.whitelist && p !in s.perPeer
    requires cfg.registry.maxStreamsPerPeer > 0
    ensures var (t, _) := OnStream(cfg, s, p);
            && t.pc.Reserving? && t.pc.peer == p && t.pc.roles == s.auth.whitelist[p]
            && t.tasks == s.tasks && t.nextTask == s.nextTask && t.globalFree == s.globalFree
            && t.auth == s.auth && t.conns == s.conns && t.deadline == s.deadline && t.running == s.running
            && t.counters == s.counters
  {
  }

  lemma ReservationTaken(s: GuardState)
    requires s.pc.Reserving? && s.globalFree > 0
    ensures var (t, _) := OnReserveGlobal(s);
            && t.tasks == s.tasks[s.nextTask := Task(s.pc.peer, s.pc.roles, s.pc.sem, AwaitHeader)]
            && t.pc.Idle? && t.globalFree == s.globalFree - 1
            && t.auth == s.auth && t.conns == s.conns && t.deadline == s.deadline && t.running == s.running
            && t.counters == s.counters.(tunnelsActive := s.counters.tunnelsActive + 1)
  {
  }

  // ---- Reconnecting gets round the cap ----------------------------------------------------------

  /** `p` is whitelisted and away, and `k` of its former tasks still hold their permits. */
  ghost predicate Away(cfg: Config, s: GuardState, p: PeerId, k: nat) {
    && Open(s) && p in s.auth.whitelist && p !in s.conns && p !in s.perPeer
    && s.globalFree == cfg.registry.maxStreamsTotal - k
    && |LiveOf(s, p)| == k
  }

  /** Connecting, authenticating, opening a stream and leaving: one more task of `p` holds permits. */
  lemma Visit(cfg: Config, r: Run, p: PeerId, k: nat, sign: seq<byte> -> seq<byte>, draws: seq<Draw>, d: Draw)
    returns (x: Run)
    requires Behaves(cfg, r) && Away(cfg, Last(r), p, k) && k < cfg.registry.maxStreamsTotal
    requires cfg.registry.maxStreamsPerPeer > 0 && Signs(cfg.crypto, p, sign)
    requires Sound(r, p, draws) && Plausible(draws + [d])
    ensures Behaves(cfg, x) && Away(cfg, Last(x), p, k + 1) && Sound(x, p, draws + [d])
  {
    hide Sound, Plausible, Signs, OnStream, OnReserveGlobal, OnAuthRequest, OnControl, OnSettle, OnServe, OnRelayEnd;
    x := LogIn(cfg, r, p, sign, draws, d);
    LiveDepends(Last(r), Last(x), p);
    x := OpenStream(cfg, x, p, draws + [d]);
    ExtendSound(cfg, x, Closed(p), p, draws + [d], draws + [d]);
    var s := Last(x);
    x := Extend(cfg, x, Closed(p));
    LiveDepends(s, Last(x), p);
  }

  /**
   The cap per peer is not a cap on the tasks of a peer that hold permits. By leaving and returning,
   one whitelisted peer that can sign leaves behind as many tasks still holding theirs as it makes
   visits, up to the global cap and whatever the positive cap per peer; and it does so with a new
   nonce for every visit and a clock that does not run backwards.
   */
  lemma {:induction false} ReconnectionEvadesCap(cfg: Config, p: PeerId, roles: Roles,
                                                 sign: seq<byte> -> seq<byte>, draws: seq<Draw>)
    returns (r: Run)
    requires cfg.registry.maxStreamsPerPeer > 0 && Signs(cfg.crypto, p, sign)
    requires Plausible(draws) && |draws| <= cfg.registry.maxStreamsTotal
    ensures Behaves(cfg, r) && FreshNonces(r, p) && MonotoneClock(r)
    ensures |LiveOf(Last(r), p)| == |draws|
    ensures Away(cfg, Last(r), p, |draws|) && Sound(r, p, draws)
  {
    if draws == [] {
      var s := Init(cfg, map[p := roles], false);
      r := Run([s], []);
      assert LiveOf(s, p) == {};
    } else {
      var front, d := draws[..|draws| - 1], draws[|draws| - 1];
      assert draws == front + [d];
      PlausiblePrefix(front, d);
      r := ReconnectionEvadesCap(cfg, p, roles, sign, front);
      r := Visit(cfg, r, p, |front|, sign, front, d);
    }
  }

  // ---- An acknowledged tunnel that counts as denied ----------------------------------------------

  lemma {:induction false} NothingServed(cfg: Config, r: Run, n: nat)
    requires Behaves(cfg, r) && n <= |r.events| && forall i | 0 <= i < n :: !r.events[i].Serve?
    ensures AcknowledgedIn(cfg, r, n) == 0 && EstablishedIn(cfg, r, n) == 0
  {
    hide Step;
    if n > 0 {
      NothingServed(cfg, r, n - 1);
    }
  }

  /**
   An authorised peer opens a stream, its acknowledgement is written but cannot be flushed: one
   octet is sent, and the only tunnel of the run ends up counted as denied and none as opened.
   */
  lemma AcknowledgedButDenied(cfg: Config, p: PeerId, roles: Roles, sign: seq<byte> -> seq<byte>,
                              d: Draw, h: TunnelHeader)
    returns (r: Run, k: nat)
    requires cfg.registry.maxStreamsPerPeer > 0 && cfg.registry.maxStreamsTotal > 0
    requires Signs(cfg.crypto, p, sign) && Authorized(cfg.registry, p, roles, h) && WriteHeader(h).Some?
    ensures Behaves(cfg, r) && k < |r.events| && SendOctets(p, [TUNNEL_ACK]) in OutputsAt(cfg, r, k)
    ensures AcknowledgedIn(cfg, r, k + 1) == 1 && EstablishedIn(cfg, r, k + 1) == 0
    ensures Last(r).counters.tunnelsDenied == 1 && Last(r).counters.tunnelsOpened == 0
  {
    r := Run([Init(cfg, map[p := roles], false)], []);
    assert Plausible([] + [d]);
    r := LogIn(cfg, r, p, sign, [], d);
    var t := Last(r).nextTask;
    r := OpenStream(cfg, r, p, [d]);
    var a := Attempt(Some(WriteHeader(h).value + []), {cfg.registry.services[h.service].target}, true, false);
    HeaderRoundTrip(h, []);
    k := |r.events|;
    r := Unflushed(cfg, r, p, t, a);
  }

  lemma Unflushed(cfg: Config, r: Run, p: PeerId, t: nat, a: Attempt) returns (x: Run)
    requires Behaves(cfg, r) && NoServe(r, 0) && t in Last(r).tasks && Last(r).tasks[t].phase.AwaitHeader?
    requires Last(r).tasks[t].peer == p && Admitted(cfg.registry, p, Last(r).tasks[t].roles, a)
    requires a.writable && !a.flushable
    ensures var k := |r.events|;
            && Behaves(cfg, x) && k < |x.events| && SendOctets(p, [TUNNEL_ACK]) in OutputsAt(cfg, x, k)
            && AcknowledgedIn(cfg, x, k + 1) == 1 && EstablishedIn(cfg, x, k + 1) == 0
    ensures Last(x).counters.tunnelsDenied == Last(r).counters.tunnelsDenied + 1
    ensures Last(x).counters.tunnelsOpened == Last(r).counters.tunnelsOpened
  {
    hide Admitted, HeaderOf, OnStream, OnReserveGlobal, OnAuthRequest, OnControl, OnClosed;
    var k := |r.events|;
    ExtendBehaves(cfg, r, Serve(t, a));
    x := Extend(cfg, r, Serve(t, a));
    ExtendBehaves(cfg, x, Settle(t));
    x := Extend(cfg, x, Settle(t));
    ExtendBehaves(cfg, x, Settle(t));
    x := Extend(cfg, x, Settle(t));
    assert x.events[k] == Serve(t, a) && x.states[k] == Last(r);
    assert forall i | 0 <= i < k :: x.events[i] == r.events[i];
    NothingServed(cfg, x, k);
    assert Acknowledges(cfg, x.states[k], x.events[k]) && !Establishes(cfg, x.states[k], x.events[k]);
  }

  // ---- Shutdowns that show -----------------------------------------------------------------------

  /** A challenge is issued, the shutdown is ordered, and then the answer is granted. */
  lemma LateGrantHappens(cfg: Config, p: PeerId, roles: Roles, nonce: Nonce, now: u64, signature: seq<byte>, grace: nat)
    returns (r: Run)
    requires Signed(cfg.crypto, p, nonce, now, signature)
    ensures Behaves(cfg, r) && |r.events| == 4
    ensures r.events[2] == Control(Shutdown(grace), 0) && r.states[3].deadline.Some?
    ensures IsGrant(cfg, r.states[3], r.events[3], p) && p !in r.states[3].auth.sessions
    ensures OutputsAt(cfg, r, 3) == [Respond(p, AccessGranted(roles))]
  {
    hide Signed;
    var hello := AuthRequest(p, HandshakeInit, nonce, now);
    var answer := AuthRequest(p, ChallengeAnswer(signature, now), nonce, now);
    r := Run([Init(cfg, map[p := roles], true)], []);
    ExtendBehaves(cfg, r, Connected(p));
    r := Extend(cfg, r, Connected(p));
    ExtendBehaves(cfg, r, hello);
    r := Extend(cfg, r, hello);
    ExtendBehaves(cfg, r, Control(Shutdown(grace), 0));
    r := Extend(cfg, r, Control(Shutdown(grace), 0));
    ExtendBehaves(cfg, r, answer);
    r := Extend(cfg, r, answer);
  }

  /** A peer has a challenge pending, then a reload empties the list: the table of challenges is the larger one. */
  lemma ChallengeOutlivesEntry(cfg: Config, p: PeerId, roles: Roles, nonce: Nonce, now: u64) returns (r: Run)
    ensures Behaves(cfg, r) && |r.events| == 3 && r.events[2] == Control(ReloadWhitelist(map[]), 0)
    ensures |Last(r).auth.pending| == 1 && |Last(r).auth.whitelist| == 0
  {
    var hello := AuthRequest(p, HandshakeInit, nonce, now);
    var reload := Control(ReloadWhitelist(map[]), 0);
    r := Run([Init(cfg, map[p := roles], true)], []);
    ExtendBehaves(cfg, r, Connected(p));
    r := Extend(cfg, r, Connected(p));
    ExtendBehaves(cfg, r, hello);
    r := Extend(cfg, r, hello);
    ExtendBehaves(cfg, r, reload);
    r := Extend(cfg, r, reload);
    assert Last(r).auth.pending == map[p := IssuedChallenge(nonce, now)];
  }

  /** A stream of an outsider, met by a Guard that runs on and by one that is shutting down. */
  lemma ShutdownSeen(cfg: Config, whitelist: map<PeerId, Roles>, p: PeerId, grace: nat) returns (r1: Run, r2: Run)
    requires p !in whitelist
    ensures Behaves(cfg, r1) && |r1.events| == 1 && Outsider(r1, p, 1)
    ensures Behaves(cfg, r2) && |r2.events| == 2 && Outsider(r2, p, 2)
    ensures SameInputs(Inputs(r1, p, 1), Inputs(r2, p, 2))
    ensures Observed(cfg, r1, p, 1) != Observed(cfg, r2, p, 2)
  {
    var s := Init(cfg, whitelist, true);
    r1 := Run([s], []);
    r2 := r1;
    ExtendBehaves(cfg, r1, Stream(p));
    r1 := Extend(cfg, r1, Stream(p));
    ExtendBehaves(cfg, r2, Control(Shutdown(grace), 0));
    r2 := Extend(cfg, r2, Control(Shutdown(grace), 0));
    ExtendBehaves(cfg, r2, Stream(p));
    r2 := Extend(cfg, r2, Stream(p));
    hide Step, Behaves;
    InputsOfOne(r1, p);
    InputsOfTwo(r2, p);
    var a, b := Inputs(r1, p, 1), Inputs(r2, p, 2);
    assert a[0] == (Opened, false) && b[0] == (Opened, true);
    assert !FlagsAgree(a, b);
    ShutdownVisible(cfg, r1, 1, cfg, r2, 2, p);
  }

  lemma InputsOfOne(r: Run, p: PeerId)
    requires |r.events| == 1 && |r.states| == 2 && r.events[0] == Stream(p) && r.states[0].deadline.None?
    ensures Inputs(r, p, 1) == [(Opened, false)]
  {
    assert Inputs(r, p, 0) == [];
  }

  lemma InputsOfTwo(r: Run, p: PeerId)
    requires |r.events| == 2 && |r.states| == 3 && r.events[0].Control? && r.events[1] == Stream(p)
    requires r.states[1].deadline.Some?
    ensures Inputs(r, p, 2) == [(Opened, true)]
  {
    assert Inputs(r, p, 0) == [] && Inputs(r, p, 1) == [];
  }
}
