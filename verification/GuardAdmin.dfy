/** The exact effect of changing the whitelist of a running Guard. */
module GuardAdmin {
  import opened Basics
  import opened Wire
  import opened Tunnels
  import opened Auth
  import opened Guards
  import opened GuardRuns
  import opened GuardShutdown

  /** The peers whose connections a step cuts. */
  function CutBy(outs: seq<Output>): set<PeerId> {
    if outs == [] then {}
    else (if outs[0].Disconnect? then outs[0].peers else {}) + CutBy(outs[1..])
  }

  /**
   A reload makes the whitelist the new one as it is. For every peer: its session survives exactly
   when the new list has it, with the roles it has there; it is cut off, and loses its semaphore,
   exactly when it had a session and is not on the list. Nothing else changes.
   */
  lemma ReloadEffect(cfg: Config, r: Run, n: nat, whitelist: map<PeerId, Roles>, instant: nat, p: PeerId)
    requires Behaves(cfg, r) && n < |r.events| && r.events[n] == Control(ReloadWhitelist(whitelist), instant)
    ensures var s, t := r.states[n], r.states[n + 1];
            && t.auth.whitelist == whitelist
            && (p in t.auth.sessions <==> p in s.auth.sessions && p in whitelist)
            && (p in s.auth.sessions && p in whitelist ==> SessionRoles(t.auth, p) == Some(whitelist[p]))
            && (p in CutBy(OutputsAt(cfg, r, n)) <==> p in s.auth.sessions && p !in whitelist)
            && (p in t.perPeer <==> p in s.perPeer && p in whitelist)
            && (p in t.perPeer ==> t.perPeer[p] == s.perPeer[p])
            && (p in t.auth.pending <==> p in s.auth.pending && (p in s.auth.sessions ==> p in whitelist))
            && t == s.(auth := t.auth, perPeer := t.perPeer)
  {
    Invariants(cfg, r, n);
    var outs := OutputsAt(cfg, r, n);
    ReloadExact(r.states[n].auth, whitelist, p);
    assert outs != [] ==> outs[1..] == [];
  }

  /** An authorisation gives its peer those roles at once, also for a session under way, and cuts nobody off. */
  lemma AuthorisationEffect(cfg: Config, r: Run, n: nat, p: PeerId, roles: Roles, instant: nat, q: PeerId)
    requires Behaves(cfg, r) && n < |r.events| && r.events[n] == Control(Authorisation(p, roles), instant)
    ensures var s, t := r.states[n], r.states[n + 1];
            && SessionRoles(t.auth, q)
               == (if q == p && p in s.auth.sessions then Some(roles) else SessionRoles(s.auth, q))
            && t == s.(auth := s.auth.(whitelist := s.auth.whitelist[p := roles]))
            && OutputsAt(cfg, r, n) == []
  {
    assert r.states[n].perPeer - {} == r.states[n].perPeer;
  }

  /** A command that may put `p` on the whitelist. */
  predicate Readmits(e: Event, p: PeerId) {
    && e.Control?
    && match e.command
       case Authorisation(peer, _) => peer == p
       case ReloadWhitelist(whitelist) => p in whitelist
       case _ => false
  }

  lemma WhitelistStep(cfg: Config, s: GuardState, e: Event, p: PeerId)
    requires Enabled(s, e) && p !in s.auth.whitelist && !Readmits(e, p)
    ensures p !in Step(cfg, s, e).0.auth.whitelist
  {
    hide Acceptable, OnStream, OnReserveGlobal, Emitted, Established, HeaderOf;
    if IsTaskEvent(e) {
      TaskEventsFrame(cfg, s, e);
    } else if e.Stream? || e.ReserveGlobal? {
      StreamKeepsAuth(cfg, s, e);
    }
  }

  lemma StaysOut(cfg: Config, r: Run, n: nat, m: nat, p: PeerId)
    requires Behaves(cfg, r) && n <= m < |r.states| && p !in r.states[n].auth.whitelist
    requires forall k | n <= k < m :: !Readmits(r.events[k], p)
    ensures p !in r.states[m].auth.whitelist
    decreases m
  {
    hide Step;
    if n < m {
      StaysOut(cfg, r, n, m - 1, p);
      WhitelistStep(cfg, r.states[m - 1], r.events[m - 1], p);
    }
  }

  // ---- Challenges of peers that are off the list -------------------------------------------------

  /** Only connected peers have a challenge pending. */
  lemma {:induction false} PendingConnected(cfg: Config, r: Run, n: nat)
    requires Behaves(cfg, r) && n < |r.states|
    ensures r.states[n].auth.pending.Keys <= r.states[n].conns.Keys
    ensures |r.states[n].auth.pending| <= |r.states[n].conns|
  {
    hide Step;
    if n > 0 {
      PendingConnected(cfg, r, n - 1);
      PendingConnectedStep(cfg, r.states[n - 1], r.events[n - 1]);
    }
    var s := r.states[n];
    assert |s.auth.pending| == |s.auth.pending.Keys| && |s.conns| == |s.conns.Keys|;
    SubsetCardinality(s.auth.pending.Keys, s.conns.Keys);
  }

  lemma PendingConnectedStep(cfg: Config, s: GuardState, e: Event)
    requires Enabled(s, e) && s.auth.pending.Keys <= s.conns.Keys
    ensures Step(cfg, s, e).0.auth.pending.Keys <= Step(cfg, s, e).0.conns.Keys
  {
    hide Acceptable, OnStream, OnReserveGlobal, Emitted, Established, HeaderOf;
    if IsTaskEvent(e) {
      TaskEventsFrame(cfg, s, e);
    } else if e.Stream? || e.ReserveGlobal? {
      StreamKeepsAuth(cfg, s, e);
    }
  }

  /** `e` is a reload that leaves `p` out and its pending challenge alone, as `p` has no session. */
  predicate LeavesOut(s: GuardState, e: Event, p: PeerId) {
    && e.Control? && e.command.ReloadWhitelist? && p !in e.command.whitelist
    && p in s.auth.pending && p !in s.auth.sessions
  }

  /** `p` has a challenge pending and is not on the list. */
  predicate Stale(s: GuardState, p: PeerId) {
    p in s.auth.pending && p !in s.auth.whitelist
  }

  lemma StaleStep(cfg: Config, s: GuardState, e: Event, p: PeerId)
    requires Enabled(s, e) && Inclusion(s)
    ensures Stale(Step(cfg, s, e).0, p) <==>
            LeavesOut(s, e, p) || (Stale(s, p) && !TakesChallenge(s, e, p) && !Readmits(e, p))
  {
    hide OnAuthRequest, OnControl, OnStream, OnReserveGlobal, OnServe, OnRelayEnd, OnSettle, Inclusion;
    if IsTaskEvent(e) {
      TaskEventsFrame(cfg, s, e);
    } else {
      match e
      case AuthRequest(peer, request, nonce, now) => StaleAuth(cfg, s, peer, request, nonce, now, p);
      case Control(command, instant) => StaleControl(s, command, instant, p);
      case Stream(_) => StreamKeepsAuth(cfg, s, e);
      case ReserveGlobal => StreamKeepsAuth(cfg, s, e);
      case _ =>
    }
  }

  lemma StaleAuth(cfg: Config, s: GuardState, peer: PeerId, request: NuxRequest, nonce: Nonce, now: u64, p: PeerId)
    ensures Stale(OnAuthRequest(cfg, s, peer, request, nonce, now).0, p) <==>
            Stale(s, p) && !IsAnswer(AuthRequest(peer, request, nonce, now), p)
  {
    hide Acceptable;
  }

  lemma StaleControl(s: GuardState, command: Command, instant: nat, p: PeerId)
    requires Inclusion(s)
    ensures var e := Control(command, instant);
            Stale(OnControl(s, command, instant).0, p) <==>
            LeavesOut(s, e, p) || (Stale(s, p) && !TakesChallenge(s, e, p) && !Readmits(e, p))
  {
  }

  /**
   Exactly when a peer off the list has a challenge pending: a reload left it out while it had one
   and no session, and since then nothing has taken the challenge away or put the peer back.
   */
  lemma {:induction false} StaleExact(cfg: Config, r: Run, n: nat, p: PeerId)
    requires Behaves(cfg, r) && n < |r.states|
    ensures Stale(r.states[n], p) <==>
            exists m :: && 0 <= m < n && LeavesOut(r.states[m], r.events[m], p)
                        && forall l | m < l < n ::
                             !TakesChallenge(r.states[l], r.events[l], p) && !Readmits(r.events[l], p)
  {
    hide Step, TakesChallenge, Readmits, LeavesOut, Stale, Inclusion, Ownership, Permits;
    if n == 0 {
      NothingStale(cfg, r, p);
    } else {
      StaleExact(cfg, r, n - 1, p);
      Invariants(cfg, r, n - 1);
      StaleStep(cfg, r.states[n - 1], r.events[n - 1], p);
    }
  }

  lemma NothingStale(cfg: Config, r: Run, p: PeerId)
    requires Behaves(cfg, r)
    ensures !Stale(r.states[0], p)
  {
  }

  // ---- Revocation ------------------------------------------------------------------------------

  /**
   A revocation takes the peer out of every table at once, and cuts it off exactly when it had a
   session. For any other peer every table stays as it is, and nothing else changes.
   */
  lemma RevocationEffect(cfg: Config, r: Run, n: nat, p: PeerId, instant: nat, q: PeerId)
    requires Behaves(cfg, r) && n < |r.events| && r.events[n] == Control(Revocation(p), instant) && q != p
    ensures var s, t := r.states[n], r.states[n + 1];
            && p !in t.auth.whitelist && p !in t.auth.sessions && p !in t.auth.pending && p !in t.perPeer
            && CutBy(OutputsAt(cfg, r, n)) == (if p in s.auth.sessions then {p} else {})
            && SameAt(s.auth.whitelist, t.auth.whitelist, q) && SameAt(s.auth.pending, t.auth.pending, q)
            && SameAt(s.auth.sessions, t.auth.sessions, q) && SameAt(s.perPeer, t.perPeer, q)
            && SessionRoles(t.auth, q) == SessionRoles(s.auth, q)
            && t == s.(auth := t.auth, perPeer := t.perPeer)
  {
    hide Inclusion, Ownership, Permits, OnControl, CutBy, SessionRoles;
    Invariants(cfg, r, n);
    RevocationState(r.states[n], p, instant, q);
  }

  lemma RevocationState(s: GuardState, p: PeerId, instant: nat, q: PeerId)
    requires Inclusion(s) && q != p
    ensures var (t, outs) := OnControl(s, Revocation(p), instant);
            && p !in t.auth.whitelist && p !in t.auth.sessions && p !in t.auth.pending && p !in t.perPeer
            && CutBy(outs) == (if p in s.auth.sessions then {p} else {})
            && SameAt(s.auth.whitelist, t.auth.whitelist, q) && SameAt(s.auth.pending, t.auth.pending, q)
            && SameAt(s.auth.sessions, t.auth.sessions, q) && SameAt(s.perPeer, t.perPeer, q)
            && SessionRoles(t.auth, q) == SessionRoles(s.auth, q)
            && t == s.(auth := t.auth, perPeer := t.perPeer)
  {
    var outs := OnControl(s, Revocation(p), instant).1;
    assert outs != [] ==> outs[1..] == [];
  }

  /** The maps agree on `q`. */
  predicate SameAt<V(==)>(a: map<PeerId, V>, b: map<PeerId, V>, q: PeerId) {
    (q in a <==> q in b) && (q in a ==> a[q] == b[q])
  }

  lemma RevokedOut(cfg: Config, s: GuardState, p: PeerId, instant: nat)
    requires Enabled(s, Control(Revocation(p), instant))
    ensures p !in Step(cfg, s, Control(Revocation(p), instant)).0.auth.whitelist
  {
  }

  /**
   Until it is readmitted, a revoked peer gets no challenge, no session and no new tunnel: every
   task that serves it was serving it when it was revoked, and no octet reaches it but from these.
   */
  lemma {:induction false} RevocationHolds(cfg: Config, r: Run, n: nat, k: nat, p: PeerId, instant: nat)
    requires Behaves(cfg, r) && n < k < |r.events| && r.events[n] == Control(Revocation(p), instant)
    requires forall m | n < m < k :: !Readmits(r.events[m], p)
    ensures !IsIssue(r.states[k], r.events[k], p) && !IsGrant(cfg, r.states[k], r.events[k], p)
    ensures forall t | t in r.states[k].tasks && r.states[k].tasks[t].peer == p ::
              t in r.states[n].tasks && SameStream(r.states[n].tasks[t], r.states[k].tasks[t])
    ensures forall octets | SendOctets(p, octets) in OutputsAt(cfg, r, k) ::
              r.events[k].Serve? && r.events[k].task in r.states[n].tasks
              && r.states[n].tasks[r.events[k].task].peer == p
  {
    hide Step;
    RevokedOut(cfg, r.states[n], p, instant);
    StaysOut(cfg, r, n + 1, k, p);
    forall t | t in r.states[k].tasks && r.states[k].tasks[t].peer == p
      ensures t in r.states[n].tasks && SameStream(r.states[n].tasks[t], r.states[k].tasks[t])
    {
      TaskBeforeRevocation(cfg, r, n, k, p, t);
    }
    forall octets | SendOctets(p, octets) in OutputsAt(cfg, r, k)
      ensures r.events[k].Serve? && r.events[k].task in r.states[n].tasks
              && r.states[n].tasks[r.events[k].task].peer == p
    {
      OnlyServeSends(cfg, r, k, p, octets);
    }
  }

  /** The loop takes no command between the two permits of a stream, and no stream of an unlisted peer. */
  lemma TaskBeforeRevocation(cfg: Config, r: Run, n: nat, k: nat, p: PeerId, t: nat)
    requires Behaves(cfg, r) && n < k < |r.states| && n < |r.events| && r.events[n].Control?
    requires forall m | n < m < k :: !Readmits(r.events[m], p)
    requires p !in r.states[n + 1].auth.whitelist
    requires t in r.states[k].tasks && r.states[k].tasks[t].peer == p
    ensures t in r.states[n].tasks && SameStream(r.states[n].tasks[t], r.states[k].tasks[t])
  {
    hide Step;
    var a, b := TaskSince(cfg, r, k, t);
    assert r.states[n].pc.Idle?;
    if n < a {
      StaysOut(cfg, r, n + 1, a, p);
    }
    assert b < n;
  }
}
