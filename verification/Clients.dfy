/** The client's side of the handshake, and what it gets from a Guard it is composed with. */
module Clients {
  import opened Basics
  import opened Wire
  import opened Tunnels
  import opened Auth
  import opened Guards
  import opened GuardRuns

  datatype AuthResult = Accepted(roles: Roles) | AccessDenied | ProtocolError | SigningFailed

  /** What the swarm reports while `authenticate` waits; `id` is the number of the request answered. */
  datatype ClientEvent =
    | ResponseReceived(id: nat, response: NuxResponse)
    | OutboundFailure(id: nat)
    | ConnectionLost
    | Unrelated

  datatype ClientState = Waiting(awaiting: nat, answered: bool) | Done(result: AuthResult)

  /** The signer of the client; `None` is a signing error. */
  type Signer = seq<byte> -> Option<seq<byte>>

  /** One event, at client time `now`: the next state, and the request sent if any. */
  function ClientStep(sign: Signer, st: ClientState, e: ClientEvent, now: u64): (ClientState, Option<NuxRequest>) {
    if st.Done? then (st, None)
    else
      match e
      case ResponseReceived(id, response) =>
        if id != st.awaiting then (st, None)
        else if !st.answered && response.Challenge? then
          (match sign(ChallengePayload(response.nonce, now))
           case None => (Done(SigningFailed), None)
           case Some(signature) => (Waiting(st.awaiting + 1, true), Some(ChallengeAnswer(signature, now))))
        else if st.answered && response.AccessGranted? then (Done(Accepted(response.roles)), None)
        else if response.Denied? then (Done(AccessDenied), None)
        else (Done(ProtocolError), None)
      case OutboundFailure(id) => (if id == st.awaiting then Done(AccessDenied) else st, None)
      case ConnectionLost => (Done(AccessDenied), None)
      case Unrelated => (st, None)
  }

  function ClientRun(sign: Signer, first: nat, events: seq<(ClientEvent, u64)>): (ClientState, seq<NuxRequest>) {
    if events == [] then (Waiting(first, false), [HandshakeInit])
    else
      var (st, sent) := ClientRun(sign, first, events[..|events| - 1]);
      var last := events[|events| - 1];
      var (st', request) := ClientStep(sign, st, last.0, last.1);
      (st', if request.Some? then sent + [request.value] else sent)
  }

  /** `authenticate`, fed the events of the swarm; `None` when it still waits after the last of them. */
  method Authenticate(sign: Signer, first: nat, events: seq<(ClientEvent, u64)>)
    returns (result: Option<AuthResult>, sent: seq<NuxRequest>)
    ensures var (st, requests) := ClientRun(sign, first, events);
            && sent == requests
            && result == if st.Done? then Some(st.result) else None
    ensures forall roles :: result == Some(Accepted(roles)) <==> EndsInGrant(sign, first, events, roles)
  {
    forall roles: Roles
      ensures ClientRun(sign, first, events).0 == Done(Accepted(roles)) <==> EndsInGrant(sign, first, events, roles)
    {
      AcceptedExact(sign, first, events, roles);
    }
    hide EndsInGrant;
    var awaiting := first;
    var challengeAnswered := false;
    sent := [HandshakeInit];
    for i := 0 to |events|
      invariant ClientRun(sign, first, events[..i]) == (Waiting(awaiting, challengeAnswered), sent)
    {
      assert events[..i + 1][..i] == events[..i];
      match events[i].0 {
        case ResponseReceived(id, response) =>
          if id == awaiting {
            if !challengeAnswered && response.Challenge? {
              var now := events[i].1;
              var signature := sign(ChallengePayload(response.nonce, now));
              if signature.None? {
                DoneStays(sign, first, events, i + 1);
                return Some(SigningFailed), sent;
              }
              sent := sent + [ChallengeAnswer(signature.value, now)];
              awaiting := awaiting + 1;
              challengeAnswered := true;
            } else {
              DoneStays(sign, first, events, i + 1);
              if challengeAnswered && response.AccessGranted? {
                return Some(Accepted(response.roles)), sent;
              } else if response.Denied? {
                return Some(AccessDenied), sent;
              } else {
                return Some(ProtocolError), sent;
              }
            }
          }
        case OutboundFailure(id) =>
          if id == awaiting {
            DoneStays(sign, first, events, i + 1);
            return Some(AccessDenied), sent;
          }
        case ConnectionLost =>
          DoneStays(sign, first, events, i + 1);
          return Some(AccessDenied), sent;
        case Unrelated =>
      }
    }
    assert events[..|events|] == events;
    result := None;
  }

  lemma {:induction false} DoneStays(sign: Signer, first: nat, events: seq<(ClientEvent, u64)>, n: nat)
    requires n <= |events| && ClientRun(sign, first, events[..n]).0.Done?
    ensures ClientRun(sign, first, events) == ClientRun(sign, first, events[..n])
  {
    if n == |events| {
      assert events[..n] == events;
    } else {
      var front := events[..|events| - 1];
      assert front[..n] == events[..n];
      DoneStays(sign, first, front, n);
    }
  }

  // ---- What `authenticate` returns, on any sequence of events ---------------------------------------

  /** `e` does not concern the request `id`. */
  predicate Quiet(e: ClientEvent, id: nat) {
    match e
    case ResponseReceived(id', _) => id' != id
    case OutboundFailure(id') => id' != id
    case ConnectionLost => false
    case Unrelated => true
  }

  ghost predicate AllQuiet(events: seq<(ClientEvent, u64)>, id: nat) {
    forall i | 0 <= i < |events| :: Quiet(events[i].0, id)
  }

  lemma {:induction false} ClientRunSnoc(sign: Signer, first: nat, events: seq<(ClientEvent, u64)>,
                                        e: ClientEvent, now: u64)
    ensures var (st, sent) := ClientRun(sign, first, events);
            var (st', request) := ClientStep(sign, st, e, now);
            ClientRun(sign, first, events + [(e, now)])
            == (st', if request.Some? then sent + [request.value] else sent)
  {
    hide ClientStep;
    var all := events + [(e, now)];
    assert all[..|all| - 1] == events;
  }

  /** Quiet events leave a waiting client as it is. */
  lemma {:induction false} QuietRun(sign: Signer, first: nat, events: seq<(ClientEvent, u64)>,
                                    quiet: seq<(ClientEvent, u64)>)
    requires var st := ClientRun(sign, first, events).0; st.Waiting? && AllQuiet(quiet, st.awaiting)
    ensures ClientRun(sign, first, events + quiet) == ClientRun(sign, first, events)
  {
    if quiet == [] {
      assert events + quiet == events;
    } else {
      var front, last := quiet[..|quiet| - 1], quiet[|quiet| - 1];
      assert forall i | 0 <= i < |front| :: front[i] == quiet[i];
      QuietRun(sign, first, events, front);
      ClientRunSnoc(sign, first, events + front, last.0, last.1);
      assert events + front + [(last.0, last.1)] == events + quiet;
    }
  }

  function AnswerTo(sign: Signer, nonce: Nonce, now: u64): NuxRequest
    requires sign(ChallengePayload(nonce, now)).Some?
  {
    ChallengeAnswer(sign(ChallengePayload(nonce, now)).value, now)
  }

  /** At `i` comes the first event that concerns the first request: a challenge the client can sign. */
  ghost predicate ChallengedAt(sign: Signer, first: nat, events: seq<(ClientEvent, u64)>, i: nat) {
    && i < |events| && AllQuiet(events[..i], first)
    && events[i].0.ResponseReceived? && events[i].0.id == first && events[i].0.response.Challenge?
    && sign(ChallengePayload(events[i].0.response.nonce, events[i].1)).Some?
  }

  /** Then, at `j`, the first event that concerns the second request: the grant of `roles`. */
  ghost predicate GrantedAt(sign: Signer, first: nat, events: seq<(ClientEvent, u64)>, i: nat, j: nat, roles: Roles) {
    && ChallengedAt(sign, first, events, i) && i < j < |events|
    && AllQuiet(events[i + 1..j], first + 1)
    && events[j].0 == ResponseReceived(first + 1, AccessGranted(roles))
  }

  ghost predicate EndsInGrant(sign: Signer, first: nat, events: seq<(ClientEvent, u64)>, roles: Roles) {
    exists i: nat, j: nat :: GrantedAt(sign, first, events, i, j, roles)
  }

  /** A client that still waits, or that accepted: what it has been through and what it has sent. */
  ghost predicate History(sign: Signer, first: nat, events: seq<(ClientEvent, u64)>) {
    var (st, sent) := ClientRun(sign, first, events);
    match st
    case Waiting(awaiting, false) => awaiting == first && AllQuiet(events, first) && sent == [HandshakeInit]
    case Waiting(awaiting, true) =>
      && awaiting == first + 1
      && exists i: nat ::
           && ChallengedAt(sign, first, events, i) && AllQuiet(events[i + 1..], first + 1)
           && sent == [HandshakeInit, AnswerTo(sign, events[i].0.response.nonce, events[i].1)]
    case Done(Accepted(roles)) =>
      exists i: nat, j: nat ::
        && GrantedAt(sign, first, events, i, j, roles)
        && sent == [HandshakeInit, AnswerTo(sign, events[i].0.response.nonce, events[i].1)]
    case _ => true
  }

  lemma ChallengedLater(sign: Signer, first: nat, events: seq<(ClientEvent, u64)>,
                        more: seq<(ClientEvent, u64)>, i: nat)
    requires ChallengedAt(sign, first, events, i)
    ensures ChallengedAt(sign, first, events + more, i) && (events + more)[i] == events[i]
  {
    assert (events + more)[..i] == events[..i];
  }

  lemma {:induction false} ClientHistory(sign: Signer, first: nat, events: seq<(ClientEvent, u64)>)
    ensures History(sign, first, events)
  {
    if events != [] {
      var front, last := events[..|events| - 1], events[|events| - 1];
      ClientHistory(sign, first, front);
      assert events == front + [last];
      HistoryStep(sign, first, front, last);
    }
  }

  lemma HistoryStep(sign: Signer, first: nat, front: seq<(ClientEvent, u64)>, last: (ClientEvent, u64))
    requires History(sign, first, front)
    ensures History(sign, first, front + [last])
  {
    hide ClientRun;
    var (st, sent) := ClientRun(sign, first, front);
    var events := front + [last];
    ClientRunSnoc(sign, first, front, last.0, last.1);
    match st
    case Waiting(_, false) =>
      assert events[..|front|] == front && events[|front| + 1..] == [];
      FirstStep(sign, first, front, last);
    case Waiting(_, true) =>
      var i: nat :| && ChallengedAt(sign, first, front, i) && AllQuiet(front[i + 1..], first + 1)
                    && sent == [HandshakeInit, AnswerTo(sign, front[i].0.response.nonce, front[i].1)];
      ChallengedLater(sign, first, front, [last], i);
      ChallengedBelow(sign, first, front, i);
      assert events[i + 1..|front|] == front[i + 1..] && events[i + 1..] == front[i + 1..] + [last];
      var st' := ClientRun(sign, first, events).0;
      assert st'.Done? && st'.result.Accepted? ==> GrantedAt(sign, first, events, i, |front|, st'.result.roles);
    case Done(Accepted(roles)) =>
      var i: nat, j: nat :| && GrantedAt(sign, first, front, i, j, roles)
                            && sent == [HandshakeInit, AnswerTo(sign, front[i].0.response.nonce, front[i].1)];
      ChallengedLater(sign, first, front, [last], i);
      assert events[i + 1..j] == front[i + 1..j];
      assert GrantedAt(sign, first, events, i, j, roles);
    case Done(_) =>
  }

  lemma ChallengedBelow(sign: Signer, first: nat, events: seq<(ClientEvent, u64)>, i: nat)
    requires ChallengedAt(sign, first, events, i)
    ensures i < |events|
  {
  }

  lemma FirstStep(sign: Signer, first: nat, front: seq<(ClientEvent, u64)>, last: (ClientEvent, u64))
    requires ClientRun(sign, first, front) == (Waiting(first, false), [HandshakeInit]) && AllQuiet(front, first)
    ensures History(sign, first, front + [last])
  {
    hide ClientRun;
    ClientRunSnoc(sign, first, front, last.0, last.1);
    var events := front + [last];
    assert events[..|front|] == front && events[|front| + 1..] == [];
    if ClientRun(sign, first, events).0 == Waiting(first + 1, true) {
      assert ChallengedAt(sign, first, events, |front|);
    }
  }

  /**
   On any sequence of events whatever, `authenticate` returns `roles` exactly when it has answered
   the first event that concerned its first request, a challenge it could sign, and the next event
   that concerned the answer granted `roles`; it has then sent these two requests and no other.
   */
  lemma {:induction false} AcceptedExact(sign: Signer, first: nat, events: seq<(ClientEvent, u64)>, roles: Roles)
    ensures ClientRun(sign, first, events).0 == Done(Accepted(roles))
            <==> EndsInGrant(sign, first, events, roles)
    ensures forall i: nat, j: nat | GrantedAt(sign, first, events, i, j, roles) ::
              ClientRun(sign, first, events)
              == (Done(Accepted(roles)), [HandshakeInit, AnswerTo(sign, events[i].0.response.nonce, events[i].1)])
  {
    hide ClientRun;
    ClientHistory(sign, first, events);
    forall i: nat, j: nat | GrantedAt(sign, first, events, i, j, roles)
      ensures ClientRun(sign, first, events)
              == (Done(Accepted(roles)), [HandshakeInit, AnswerTo(sign, events[i].0.response.nonce, events[i].1)])
    {
      var answer := AnswerTo(sign, events[i].0.response.nonce, events[i].1);
      TwoReplies(sign, first, events, i, j, answer, Done(Accepted(roles)));
    }
  }

  /** What an event that concerns the first request makes of the client, when it is no challenge it can sign. */
  predicate EndsFirst(sign: Signer, first: nat, e: (ClientEvent, u64), end: AuthResult) {
    match e.0
    case ConnectionLost => end == AccessDenied
    case OutboundFailure(id) => id == first && end == AccessDenied
    case ResponseReceived(id, Denied) => id == first && end == AccessDenied
    case ResponseReceived(id, AccessGranted(_)) => id == first && end == ProtocolError
    case ResponseReceived(id, Challenge(nonce, _)) =>
      id == first && sign(ChallengePayload(nonce, e.1)).None? && end == SigningFailed
    case Unrelated => false
  }

  /** The same for the answer, when it is not granted. */
  predicate EndsSecond(first: nat, e: (ClientEvent, u64), end: AuthResult) {
    match e.0
    case ConnectionLost => end == AccessDenied
    case OutboundFailure(id) => id == first + 1 && end == AccessDenied
    case ResponseReceived(id, Denied) => id == first + 1 && end == AccessDenied
    case ResponseReceived(id, Challenge(_, _)) => id == first + 1 && end == ProtocolError
    case _ => false
  }

  /**
   When `authenticate` fails, and how. The first event that concerns its first request ends it, with
   nothing else sent; or that was a challenge it answered, and the next that concerns the answer
   ends it. A lost connection or request and a denial read as a denial, a failing signer as that,
   and a reply out of turn as a protocol error.
   */
  lemma {:induction false} FailureExact(sign: Signer, first: nat, events: seq<(ClientEvent, u64)>,
                                        i: nat, j: nat, end: AuthResult)
    ensures i < |events| && AllQuiet(events[..i], first) && EndsFirst(sign, first, events[i], end) ==>
              ClientRun(sign, first, events) == (Done(end), [HandshakeInit])
    ensures ChallengedAt(sign, first, events, i) && i < j < |events| && AllQuiet(events[i + 1..j], first + 1)
            && EndsSecond(first, events[j], end) ==>
              ClientRun(sign, first, events)
              == (Done(end), [HandshakeInit, AnswerTo(sign, events[i].0.response.nonce, events[i].1)])
  {
    if i < |events| && AllQuiet(events[..i], first) && EndsFirst(sign, first, events[i], end) {
      OneReply(sign, first, events, i, Done(end));
    }
    if ChallengedAt(sign, first, events, i) && i < j < |events| && AllQuiet(events[i + 1..j], first + 1)
       && EndsSecond(first, events[j], end) {
      hide ClientRun;
      TwoReplies(sign, first, events, i, j, AnswerTo(sign, events[i].0.response.nonce, events[i].1), Done(end));
    }
  }

  lemma OneReply(sign: Signer, first: nat, events: seq<(ClientEvent, u64)>, i: nat, end: ClientState)
    requires i < |events| && end.Done? && AllQuiet(events[..i], first)
    requires ClientStep(sign, Waiting(first, false), events[i].0, events[i].1) == (end, None)
    ensures ClientRun(sign, first, events) == (end, [HandshakeInit])
  {
    hide ClientStep;
    assert ClientRun(sign, first, events[..0]) == (Waiting(first, false), [HandshakeInit]);
    hide ClientRun;
    ReplyAfterQuiet(sign, first, events, 0, i);
    DoneStays(sign, first, events, i + 1);
  }

  /**
   A client whose first reply, at `i`, makes it send `answer`, and whose second, at `j`, makes it
   end as `end`, ends so on all the events, if every other event up to `j` is quiet.
   */
  lemma {:induction false} TwoReplies(sign: Signer, first: nat, events: seq<(ClientEvent, u64)>, i: nat, j: nat,
                                      answer: NuxRequest, end: ClientState)
    requires i < j < |events| && end.Done?
    requires AllQuiet(events[..i], first) && AllQuiet(events[i + 1..j], first + 1)
    requires ClientStep(sign, Waiting(first, false), events[i].0, events[i].1)
             == (Waiting(first + 1, true), Some(answer))
    requires ClientStep(sign, Waiting(first + 1, true), events[j].0, events[j].1) == (end, None)
    ensures ClientRun(sign, first, events) == (end, [HandshakeInit, answer])
  {
    hide ClientStep;
    assert ClientRun(sign, first, events[..0]) == (Waiting(first, false), [HandshakeInit]);
    hide ClientRun;
    ReplyAfterQuiet(sign, first, events, 0, i);
    ReplyAfterQuiet(sign, first, events, i + 1, j);
    assert [HandshakeInit] + [answer] == [HandshakeInit, answer];
    DoneStays(sign, first, events, j + 1);
  }

  lemma ReplyAfterQuiet(sign: Signer, first: nat, events: seq<(ClientEvent, u64)>, a: nat, b: nat)
    requires a <= b < |events|
    requires var st := ClientRun(sign, first, events[..a]).0; st.Waiting? && AllQuiet(events[a..b], st.awaiting)
    ensures var (st, sent) := ClientRun(sign, first, events[..a]);
            var (st', request) := ClientStep(sign, st, events[b].0, events[b].1);
            ClientRun(sign, first, events[..b + 1]) == (st', if request.Some? then sent + [request.value] else sent)
  {
    hide ClientRun, ClientStep, AllQuiet;
    assert events[..a] + events[a..b] == events[..b];
    assert events[..b] + [(events[b].0, events[b].1)] == events[..b + 1];
    QuietRun(sign, first, events[..a], events[a..b]);
    ClientRunSnoc(sign, first, events[..b], events[b].0, events[b].1);
  }

  // ---- Composition with a Guard ----------------------------------------------------------------

  /** What the client's swarm reports of the outputs of the Guard's step, through the codec. */
  function Delivered(p: PeerId, id: nat, outs: seq<Output>): ClientEvent {
    if outs != [] && outs[0].Respond? && outs[0].peer == p then
      match Encode(RESPONSE_SCHEMA, outs[0].response)
      case None => OutboundFailure(id)
      case Some(bs) =>
        match Decode(RESPONSE_SCHEMA, bs)
        case None => OutboundFailure(id)
        case Some(response) => ResponseReceived(id, response)
    else OutboundFailure(id)
  }

  /** The client signs with the key its identity embeds; such signatures are short. */
  ghost predicate Honest(crypto: Crypto, p: PeerId, sign: Signer) {
    && crypto.keyOf(p).Some?
    && forall payload ::
         && sign(payload).Some? && |sign(payload).value| <= 64
         && crypto.verifies(crypto.keyOf(p).value, payload, sign(payload).value)
  }

  /** Between the events `i` and `j` nothing takes the challenge of `p` away, and it stays whitelisted. */
  ghost predicate Undisturbed(r: Run, i: nat, j: nat, p: PeerId)
    requires i < j < |r.events| < |r.states|
  {
    && (forall m | i < m <= j :: p in r.states[m].auth.whitelist)
    && (forall m | i < m < j :: !(r.events[m].AuthRequest? && r.events[m].peer == p))
    && (forall m | i < m < j :: !ClosesLast(r.states[m], r.events[m], p))
  }

  lemma PendingKept(cfg: Config, s: GuardState, e: Event, p: PeerId)
    requires Enabled(s, e) && p in s.auth.pending && p in Step(cfg, s, e).0.auth.whitelist
    requires !(e.AuthRequest? && e.peer == p) && !ClosesLast(s, e, p)
    ensures p in Step(cfg, s, e).0.auth.pending && Step(cfg, s, e).0.auth.pending[p] == s.auth.pending[p]
  {
    hide Acceptable, OnStream, OnReserveGlobal, Emitted, Established, HeaderOf;
    if IsTaskEvent(e) {
      TaskEventsFrame(cfg, s, e);
    } else if e.Stream? || e.ReserveGlobal? {
      StreamKeepsAuth(cfg, s, e);
    }
  }

  lemma ChallengeWaits(cfg: Config, r: Run, i: nat, j: nat, n: nat, p: PeerId)
    requires Behaves(cfg, r) && i < n <= j < |r.events| && Undisturbed(r, i, j, p)
    requires IsIssue(r.states[i], r.events[i], p)
    ensures p in r.states[n].auth.pending && r.states[n].auth.pending[p] == ChallengeOf(r.events[i])
    decreases n
  {
    hide Step;
    if n == i + 1 {
      PendingStep(cfg, r.states[i], r.events[i], p);
    } else {
      ChallengeWaits(cfg, r, i, j, n - 1, p);
      assert p in r.states[n].auth.whitelist && r.states[n] == Step(cfg, r.states[n - 1], r.events[n - 1]).0;
      assert !(r.events[n - 1].AuthRequest? && r.events[n - 1].peer == p);
      assert !ClosesLast(r.states[n - 1], r.events[n - 1], p);
      PendingKept(cfg, r.states[n - 1], r.events[n - 1], p);
    }
  }

  /** The first reply from the Guard: the challenge reaches the client, which signs an answer that reaches the Guard. */
  lemma ClientAnswers(cfg: Config, r: Run, i: nat, p: PeerId, sign: Signer, id: nat, clientNow: u64)
    requires Behaves(cfg, r) && i < |r.events| && IsIssue(r.states[i], r.events[i], p) && Honest(cfg.crypto, p, sign)
    ensures var answer := ChallengeAnswer(sign(ChallengePayload(r.events[i].nonce, clientNow)).value, clientNow);
            && ClientStep(sign, Waiting(id, false), Delivered(p, id, OutputsAt(cfg, r, i)), clientNow)
               == (Waiting(id + 1, true), Some(answer))
            && Encode(REQUEST_SCHEMA, answer).Some?
            && Decode(REQUEST_SCHEMA, Encode(REQUEST_SCHEMA, answer).value) == Some(answer)
  {
    hide Step, WriteVarint, ParseVarint, WriteRequest, ParseRequest, WriteResponse, ParseResponse, Decode;
    PendingStep(cfg, r.states[i], r.events[i], p);
    var signature := sign(ChallengePayload(r.events[i].nonce, clientNow)).value;
    ShortMessages(r.events[i].nonce, r.events[i].now, signature, clientNow);
    SchemasLawful();
    EncodeThenDecode(RESPONSE_SCHEMA, Challenge(r.events[i].nonce, r.events[i].now));
    EncodeThenDecode(REQUEST_SCHEMA, ChallengeAnswer(signature, clientNow));
  }

  lemma ShortMessages(nonce: Nonce, issuedAt: u64, signature: seq<byte>, timestamp: u64)
    requires |signature| <= 64
    ensures |WriteResponse(Challenge(nonce, issuedAt))| <= MAX_MESSAGE_SIZE
    ensures |WriteRequest(ChallengeAnswer(signature, timestamp))| <= MAX_MESSAGE_SIZE
  {
    hide WriteVarint;
  }

  /** The client's last reply from the Guard. */
  function Verdict(cfg: Config, r: Run, j: nat, p: PeerId, sign: Signer, id: nat, later: u64): ClientState
    requires j < |r.events| < |r.states| && Enabled(r.states[j], r.events[j])
  {
    ClientStep(sign, Waiting(id, true), Delivered(p, id, OutputsAt(cfg, r, j)), later).0
  }

  lemma AnswerReply(cfg: Config, s: GuardState, e: Event, p: PeerId)
    requires Enabled(s, e) && IsAnswer(e, p)
    ensures Step(cfg, s, e).1 ==
            if IsGrant(cfg, s, e, p) then [Respond(p, AccessGranted(s.auth.whitelist[p]))]
            else [DropChannel(p), Disconnect({p})]
  {
    hide Timely, Signed;
  }

  /** The reply to an answer, delivered: a grant whose roles fit in one message is accepted, all else is a denial. */
  lemma ReplyVerdict(cfg: Config, r: Run, j: nat, p: PeerId, sign: Signer, id: nat, later: u64)
    requires Behaves(cfg, r) && j < |r.events| && IsAnswer(r.events[j], p)
    ensures Verdict(cfg, r, j, p, sign, id, later) ==
            Done(if IsGrant(cfg, r.states[j], r.events[j], p)
                    && |WriteResponse(AccessGranted(r.states[j].auth.whitelist[p]))| <= MAX_MESSAGE_SIZE
                 then Accepted(r.states[j].auth.whitelist[p]) else AccessDenied)
  {
    AnswerReply(cfg, r.states[j], r.events[j], p);
    hide Step, WriteResponse, ParseResponse, Decode;
    SchemasLawful();
    if IsGrant(cfg, r.states[j], r.events[j], p) {
      EncodeThenDecode(RESPONSE_SCHEMA, AccessGranted(r.states[j].auth.whitelist[p]));
    }
  }

  /** A response to request `id`, if that is what `e` is, is what the Guard sent for some answer of `p`. */
  ghost predicate Genuine(cfg: Config, r: Run, p: PeerId, id: nat, e: ClientEvent)
    requires Behaves(cfg, r)
  {
    e.ResponseReceived? && e.id == id ==>
      exists j: nat :: j < |r.events| && IsAnswer(r.events[j], p) && e == Delivered(p, id, OutputsAt(cfg, r, j))
  }

  /** The network may lose, delay and reorder what it likes, but makes up no reply to the client's answer. */
  ghost predicate NoForgedReply(cfg: Config, r: Run, p: PeerId, first: nat, events: seq<(ClientEvent, u64)>)
    requires Behaves(cfg, r)
  {
    forall m | 0 <= m < |events| :: Genuine(cfg, r, p, first + 1, events[m].0)
  }

  /**
   Whatever else the swarm reports, in any order, `authenticate` returns roles only after a grant of
   the Guard, and they are those the whitelist gave the client at that grant.
   */
  lemma AcceptedMeansGranted(cfg: Config, r: Run, p: PeerId, sign: Signer, first: nat,
                             events: seq<(ClientEvent, u64)>, roles: Roles)
    requires Behaves(cfg, r) && NoForgedReply(cfg, r, p, first, events)
    requires ClientRun(sign, first, events).0 == Done(Accepted(roles))
    ensures exists j: nat ::
              && j < |r.events| && IsGrant(cfg, r.states[j], r.events[j], p)
              && roles == r.states[j].auth.whitelist[p]
  {
    hide ClientRun, ChallengedAt, AllQuiet, Genuine, Behaves, Step, IsGrant;
    AcceptedExact(sign, first, events, roles);
    var i: nat, m: nat :| GrantedAt(sign, first, events, i, m, roles);
    GrantArrives(cfg, r, p, sign, first, events[m], roles);
  }

  lemma GrantArrives(cfg: Config, r: Run, p: PeerId, sign: Signer, first: nat, e: (ClientEvent, u64), roles: Roles)
    requires Behaves(cfg, r) && Genuine(cfg, r, p, first + 1, e.0)
    requires e.0 == ResponseReceived(first + 1, AccessGranted(roles))
    ensures exists j: nat ::
              && j < |r.events| && IsGrant(cfg, r.states[j], r.events[j], p)
              && roles == r.states[j].auth.whitelist[p]
  {
    hide Step, IsGrant, Delivered, WriteResponse, Inclusion;
    var j: nat :| j < |r.events| && IsAnswer(r.events[j], p) && e.0 == Delivered(p, first + 1, OutputsAt(cfg, r, j));
    GrantRead(cfg, r, j, p, sign, first + 1, e, roles);
  }

  lemma GrantRead(cfg: Config, r: Run, j: nat, p: PeerId, sign: Signer, id: nat, e: (ClientEvent, u64), roles: Roles)
    requires Behaves(cfg, r) && j < |r.events| && IsAnswer(r.events[j], p)
    requires e.0 == Delivered(p, id, OutputsAt(cfg, r, j)) == ResponseReceived(id, AccessGranted(roles))
    ensures IsGrant(cfg, r.states[j], r.events[j], p) && roles == r.states[j].auth.whitelist[p]
  {
    hide Step, IsGrant, IsAnswer, Delivered, WriteResponse;
    ReplyVerdict(cfg, r, j, p, sign, id, e.1);
    assert Verdict(cfg, r, j, p, sign, id, e.1) == Done(Accepted(roles));
  }

  /** The events of a handshake: its two replies, with any quiet events before, between and any after. */
  function Exchange(before: seq<(ClientEvent, u64)>, challenge: (ClientEvent, u64),
                    between: seq<(ClientEvent, u64)>, verdict: (ClientEvent, u64),
                    after: seq<(ClientEvent, u64)>): (events: seq<(ClientEvent, u64)>)
  {
    before + [challenge] + between + [verdict] + after
  }

  lemma ExchangeParts(before: seq<(ClientEvent, u64)>, challenge: (ClientEvent, u64),
                      between: seq<(ClientEvent, u64)>, verdict: (ClientEvent, u64), after: seq<(ClientEvent, u64)>)
    ensures var events := Exchange(before, challenge, between, verdict, after);
            var i, j := |before|, |before| + 1 + |between|;
            && j < |events| && events[..i] == before && events[i] == challenge
            && events[i + 1..j] == between && events[j] == verdict
  {
  }

  /**
   The composed handshake. An honest whitelisted client gets a challenge at `i`, signs it at its own
   time `clientNow`, and the Guard handles the answer at `j`, undisturbed in between while anything
   else goes on. The swarm reports anything that does not concern the request awaited before and
   between the two replies, and anything at all after them. Then `authenticate` returns exactly the
   roles the whitelist gives the client at that moment if and only if both five-second checks hold
   and those roles fit in one message; otherwise it reports a denial; and it sends the two requests
   of the handshake and no more.
   */
  lemma {:induction false} HonestHandshake(
      cfg: Config, r: Run, i: nat, j: nat, p: PeerId, sign: Signer, first: nat, clientNow: u64, later: u64,
      before: seq<(ClientEvent, u64)>, between: seq<(ClientEvent, u64)>, after: seq<(ClientEvent, u64)>)
    requires Behaves(cfg, r) && i < j < |r.events| && Honest(cfg.crypto, p, sign)
    requires IsIssue(r.states[i], r.events[i], p) && Undisturbed(r, i, j, p)
    requires r.events[j].AuthRequest? && r.events[j].peer == p
    requires r.events[j].request == AnswerTo(sign, r.events[i].nonce, clientNow)
    requires AllQuiet(before, first) && AllQuiet(between, first + 1)
    ensures var challenge := (Delivered(p, first, OutputsAt(cfg, r, i)), clientNow);
            var verdict := (Delivered(p, first + 1, OutputsAt(cfg, r, j)), later);
            var roles := r.states[j].auth.whitelist[p];
            ClientRun(sign, first, Exchange(before, challenge, between, verdict, after)) ==
            (Done(if r.events[j].now <= r.events[i].now + 5 && -5 <= r.events[j].now - clientNow <= 5
                     && |WriteResponse(AccessGranted(roles))| <= 65536
                  then Accepted(roles) else AccessDenied),
             [HandshakeInit, r.events[j].request])
  {
    hide Step, Timely, WriteResponse, Encode, Decode;
    TimelyMeans(r.events[i].now, clientNow, r.events[j].now);
    ClientAnswers(cfg, r, i, p, sign, first, clientNow);
    ChallengeWaits(cfg, r, i, j, j, p);
    ReplyVerdict(cfg, r, j, p, sign, first + 1, later);
    var challenge := (Delivered(p, first, OutputsAt(cfg, r, i)), clientNow);
    var verdict := (Delivered(p, first + 1, OutputsAt(cfg, r, j)), later);
    LastStepSendsNothing(sign, first + 1, verdict.0, later);
    hide Delivered, ClientRun, Acceptable;
    ExchangeParts(before, challenge, between, verdict, after);
    var events := Exchange(before, challenge, between, verdict, after);
    hide Exchange;
    TwoReplies(sign, first, events, |before|, |before| + 1 + |between|, r.events[j].request,
               Verdict(cfg, r, j, p, sign, first + 1, later));
  }

  lemma TimelyMeans(issuedAt: u64, timestamp: u64, now: u64)
    ensures Timely(issuedAt, timestamp, now) <==> now <= issuedAt + 5 && -5 <= now - timestamp <= 5
  {
  }

  lemma LastStepSendsNothing(sign: Signer, id: nat, e: ClientEvent, now: u64)
    ensures ClientStep(sign, Waiting(id, true), e, now).1.None?
  {
  }

  /** Roles that a whitelist may hold and no message can carry: one role of 65536 letters is enough. */
  lemma OversizedRoles() returns (roles: Roles)
    ensures |roles| == 1 && |roles[0]| == MAX_MESSAGE_SIZE
    ensures |WriteResponse(AccessGranted(roles))| > MAX_MESSAGE_SIZE
  {
    hide ValidUtf8, WriteVarint;
    var role: seq<byte> := seq(MAX_MESSAGE_SIZE, _ => 0x61);
    AsciiIsUtf8(role);
    roles := [role];
    assert WriteTexts(roles) == WriteVector(role) + WriteTexts([]);
  }
}
