/** The challenge-response authority of a Guard: whitelist, pending challenges, sessions. */
module Auth {
  import opened Basics
  import opened Wire
  import opened Whitelists

  const MAX_CLOCK_SKEW_SECS: nat := 5

  datatype PublicKey = PublicKey(octets: seq<byte>)

  /**
   Ideal cryptography: which key an identity embeds, and which signatures a key accepts on a
   payload. Every result holds for every such pair of functions unless it assumes more.
   */
  datatype Crypto = Crypto(
    keyOf: PeerId -> Option<PublicKey>,
    verifies: (PublicKey, seq<byte>, seq<byte>) -> bool)

  /** `signature` is accepted on `nonce` and `timestamp` under the key of `peer`. */
  predicate Signed(crypto: Crypto, peer: PeerId, nonce: Nonce, timestamp: u64, signature: seq<byte>) {
    && crypto.keyOf(peer).Some?
    && crypto.verifies(crypto.keyOf(peer).value, ChallengePayload(nonce, timestamp), signature)
  }

  /** Unforgeability, as far as it is used: a signature is accepted on one payload only. */
  ghost predicate Binding(crypto: Crypto) {
    forall k, p1, p2, sig :: crypto.verifies(k, p1, sig) && crypto.verifies(k, p2, sig) ==> p1 == p2
  }

  datatype AuthOutcome = Granted(roles: Roles) | Reject

  datatype IssuedChallenge = IssuedChallenge(nonce: Nonce, issuedAt: u64)

  datatype AuthState = AuthState(
    whitelist: map<PeerId, Roles>,
    pending: map<PeerId, IssuedChallenge>,
    sessions: map<PeerId, Roles>)

  function Issue(s: AuthState, peer: PeerId, nonce: Nonce, now: u64): (AuthState, Option<NuxResponse>) {
    if peer in s.whitelist then
      (s.(pending := s.pending[peer := IssuedChallenge(nonce, now)]), Some(Challenge(nonce, now)))
    else (s, None)
  }

  /** The two five-second checks: the age of the challenge and the skew of the answer. */
  predicate Timely(issuedAt: u64, timestamp: u64, now: u64) {
    && SaturatingSub(now, issuedAt) <= MAX_CLOCK_SKEW_SECS
    && AbsDiff(now, timestamp) <= MAX_CLOCK_SKEW_SECS
  }

  /** When an answer earns a session. */
  predicate Acceptable(crypto: Crypto, s: AuthState, peer: PeerId, signature: seq<byte>, timestamp: u64, now: u64) {
    && peer in s.pending
    && peer in s.whitelist
    && Timely(s.pending[peer].issuedAt, timestamp, now)
    && Signed(crypto, peer, s.pending[peer].nonce, timestamp, signature)
  }

  /** An answer always consumes the pending challenge; a good one opens a session. */
  function Verify(crypto: Crypto, s: AuthState, peer: PeerId, signature: seq<byte>, timestamp: u64, now: u64)
    : (AuthState, AuthOutcome)
  {
    var consumed := s.(pending := s.pending - {peer});
    if Acceptable(crypto, s, peer, signature, timestamp, now) then
      var roles := s.whitelist[peer];
      (consumed.(sessions := s.sessions[peer := roles]), Granted(roles))
    else (consumed, Reject)
  }

  /** The roles of a peer with a session: those of the whitelist now, not those of the grant. */
  function SessionRoles(s: AuthState, peer: PeerId): Option<Roles> {
    if peer in s.sessions && peer in s.whitelist then Some(s.whitelist[peer]) else None
  }

  function Revoke(s: AuthState, peer: PeerId): AuthState {
    AuthState(s.whitelist - {peer}, s.pending - {peer}, s.sessions - {peer})
  }

  function EndSession(s: AuthState, peer: PeerId): AuthState {
    s.(pending := s.pending - {peer}, sessions := s.sessions - {peer})
  }

  /** The authenticated peers a new whitelist leaves out. */
  function Dropped(s: AuthState, whitelist: map<PeerId, Roles>): set<PeerId> {
    s.sessions.Keys - whitelist.Keys
  }

  function Reload(s: AuthState, whitelist: map<PeerId, Roles>): AuthState {
    var dropped := Dropped(s, whitelist);
    AuthState(whitelist, s.pending - dropped, s.sessions - dropped)
  }

  /**
   The exact effect of a reload: the new list as it is, the sessions of the peers it keeps, with
   the roles it gives them, and nothing pending for the peers it drops.
   */
  lemma ReloadExact(s: AuthState, whitelist: map<PeerId, Roles>, peer: PeerId)
    ensures var t := Reload(s, whitelist);
            && t.whitelist == whitelist
            && (peer in t.sessions <==> peer in s.sessions && peer in whitelist)
            && SessionRoles(t, peer)
               == (if peer in s.sessions && peer in whitelist then Some(whitelist[peer]) else None)
            && (peer in t.pending <==> peer in s.pending && (peer in s.sessions ==> peer in whitelist))
            && (peer in t.pending ==> t.pending[peer] == s.pending[peer])
  {
  }

  // ---- The object ------------------------------------------------------------------------------

  class GuardAuthenticator {
    const crypto: Crypto
    const whitelist: Whitelist
    var pending: map<PeerId, IssuedChallenge>
    var sessions: map<PeerId, Roles>

    ghost predicate Valid()
      reads this, whitelist
    {
      whitelist.Valid()
    }

    ghost function Model(): AuthState
      reads this, whitelist
    {
      AuthState(whitelist.AsMap(), pending, sessions)
    }

    constructor (crypto: Crypto, whitelist: Whitelist)
      requires whitelist.Valid()
      ensures Valid() && this.whitelist == whitelist && this.crypto == crypto
      ensures Model() == AuthState(whitelist.AsMap(), map[], map[])
    {
      this.crypto := crypto;
      this.whitelist := whitelist;
      pending := map[];
      sessions := map[];
    }

    /** `nonce` is the draw of the random generator. */
    method IssueAt(peer: PeerId, nonce: Nonce, now: u64) returns (response: Option<NuxResponse>)
      requires Valid()
      modifies this
      ensures Valid() && (Model(), response) == Issue(old(Model()), peer, nonce, now)
      ensures response == if peer in whitelist.AsMap() then Some(Challenge(nonce, now)) else None
      ensures pending == if peer in whitelist.AsMap() then old(pending)[peer := IssuedChallenge(nonce, now)]
                         else old(pending)
      ensures sessions == old(sessions) && whitelist.AsMap() == old(whitelist.AsMap())
    {
      var roles := whitelist.Lookup(peer);
      if roles.None? {
        return None;
      }
      pending := pending[peer := IssuedChallenge(nonce, now)];
      response := Some(Challenge(nonce, now));
    }

    method VerifyAt(peer: PeerId, signature: seq<byte>, timestamp: u64, now: u64) returns (outcome: AuthOutcome)
      requires Valid()
      modifies this
      ensures Valid() && (Model(), outcome) == Verify(crypto, old(Model()), peer, signature, timestamp, now)
      ensures var list := whitelist.AsMap();
              var granted :=
                && peer in old(pending) && now <= old(pending)[peer].issuedAt + 5 && -5 <= now - timestamp <= 5
                && peer in list && crypto.keyOf(peer).Some?
                && crypto.verifies(crypto.keyOf(peer).value,
                                   old(pending)[peer].nonce + BigEndian(timestamp, 8), signature);
              && outcome == (if granted then Granted(list[peer]) else Reject)
              && sessions == (if granted then old(sessions)[peer := list[peer]] else old(sessions))
      ensures pending == old(pending) - {peer} && whitelist.AsMap() == old(whitelist.AsMap())
    {
      if peer !in pending {
        assert pending - {peer} == pending;
        return Reject;
      }
      var challenge := pending[peer];
      pending := pending - {peer};
      if SaturatingSub(now, challenge.issuedAt) > MAX_CLOCK_SKEW_SECS {
        return Reject;
      }
      if AbsDiff(now, timestamp) > MAX_CLOCK_SKEW_SECS {
        return Reject;
      }
      var roles := whitelist.Lookup(peer);
      if roles.None? {
        return Reject;
      }
      var public := crypto.keyOf(peer);
      if public.None? {
        return Reject;
      }
      if !crypto.verifies(public.value, ChallengePayload(challenge.nonce, timestamp), signature) {
        return Reject;
      }
      sessions := sessions[peer := roles.value];
      outcome := Granted(roles.value);
    }

    method CurrentRoles(peer: PeerId) returns (roles: Option<Roles>)
      requires Valid()
      ensures roles == SessionRoles(Model(), peer)
      ensures roles == if peer in sessions && peer in whitelist.AsMap() then Some(whitelist.AsMap()[peer]) else None
    {
      if peer !in sessions {
        return None;
      }
      roles := whitelist.Lookup(peer);
    }

    method RevokePeer(peer: PeerId) returns (hadSession: bool)
      requires Valid()
      modifies this, whitelist
      ensures Valid() && Model() == Revoke(old(Model()), peer)
      ensures whitelist.AsMap() == old(whitelist.AsMap()) - {peer}
      ensures pending == old(pending) - {peer} && sessions == old(sessions) - {peer}
      ensures hadSession <==> peer in old(sessions)
    {
      whitelist.Revoke(peer);
      pending := pending - {peer};
      hadSession := peer in sessions;
      sessions := sessions - {peer};
    }

    method CloseSession(peer: PeerId)
      requires Valid()
      modifies this
      ensures Valid() && Model() == EndSession(old(Model()), peer)
      ensures pending == old(pending) - {peer} && sessions == old(sessions) - {peer}
      ensures whitelist.AsMap() == old(whitelist.AsMap())
    {
      pending := pending - {peer};
      sessions := sessions - {peer};
    }
  }
}
