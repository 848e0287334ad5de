/** Graceful shutdown: what stops, what may still end, and when the loop returns. */
module GuardShutdown {
  import opened Basics
  import opened Wire
  import opened Tunnels
  import opened Auth
  import opened Guards
  import opened GuardRuns

  /** One step with the deadline set: it stays set, nothing new starts, no challenge leaves. */
  lemma StoppingStep(cfg: Config, s: GuardState, e: Event)
    requires Enabled(s, e) && Inclusion(s) && s.deadline.Some?
    ensures var (s', outs) := Step(cfg, s, e);
            && s'.deadline.Some?
            && s'.tasks.Keys <= s.tasks.Keys
            && (forall p, n, ts :: Respond(p, Challenge(n, ts)) !in outs)
            && (!s.running ==> !s'.running)
  {
    hide Issue, Verify, Emitted, Established, HeaderOf, CountRefusal, Administer, CutOff, NextPhase;
  }

  /**
   From the moment the deadline is set it stays set and the live tunnel tasks only become fewer;
   once the loop has returned it stays so.
   */
  lemma StoppingRun(cfg: Config, r: Run, k: nat, n: nat)
    requires Behaves(cfg, r) && k <= n < |r.states| && r.states[k].deadline.Some?
    ensures r.states[n].deadline.Some?
    ensures r.states[n].tasks.Keys <= r.states[k].tasks.Keys
    ensures !r.states[k].running ==> !r.states[n].running
    decreases n
  {
    hide Step, IsTaskEvent, Inclusion, Ownership, Permits;
    if k < n {
      StoppingRun(cfg, r, k, n - 1);
      Invariants(cfg, r, n - 1);
      StoppingStep(cfg, r.states[n - 1], r.events[n - 1]);
    }
  }

  lemma NoChallenge(cfg: Config, r: Run, k: nat, n: nat, p: PeerId)
    requires Behaves(cfg, r) && k <= n < |r.events| && r.states[k].deadline.Some?
    ensures !IsIssue(r.states[n], r.events[n], p)
    ensures forall nonce, ts :: Respond(p, Challenge(nonce, ts)) !in OutputsAt(cfg, r, n)
  {
    hide Step, IsTaskEvent;
    StoppingRun(cfg, r, k, n);
    Invariants(cfg, r, n);
    StoppingStep(cfg, r.states[n], r.events[n]);
  }

  /**
   A grant after the shutdown consumes a challenge that was pending when it began, issued before it
   and at most five seconds old; and there is at most one such grant for each pending challenge.
   */
  lemma LateGrant(cfg: Config, r: Run, k: nat, j: nat, p: PeerId)
    requires Behaves(cfg, r) && k <= j < |r.events| && r.states[k].deadline.Some?
    requires IsGrant(cfg, r.states[j], r.events[j], p)
    ensures p in r.states[k].auth.pending && r.states[j].auth.pending[p] == r.states[k].auth.pending[p]
    ensures exists i: nat :: i < k && PendingFrom(r, i, j, p)
    ensures SaturatingSub(r.events[j].now, r.states[k].auth.pending[p].issuedAt) <= MAX_CLOCK_SKEW_SECS
    ensures forall j' | k <= j' < j :: !IsAnswer(r.events[j'], p)
  {
    hide Step;
    var i := PendingSince(cfg, r, j, p);
    if k <= i {
      NoChallenge(cfg, r, k, i, p);
    }
    assert i < k;
    forall j' | k <= j' < j ensures !IsAnswer(r.events[j'], p) {
      if IsAnswer(r.events[j'], p) {
        GrantNeedsFreshIssue(cfg, r, j', j, p);
        var i': nat :| j' < i' < j && PendingFrom(r, i', j, p);
        NoChallenge(cfg, r, k, i', p);
        assert false;
      }
    }
  }

  /** During a shutdown a challenge stays the pending one until something takes it away, and none appears. */
  lemma ChallengeFate(cfg: Config, s: GuardState, e: Event, p: PeerId)
    requires Enabled(s, e) && s.deadline.Some?
    ensures var s' := Step(cfg, s, e).0;
            && (p in s'.auth.pending <==> p in s.auth.pending && !TakesChallenge(s, e, p))
            && (p in s'.auth.pending ==> s'.auth.pending[p] == s.auth.pending[p])
  {
    hide Acceptable, OnStream, OnReserveGlobal, Emitted, Established, HeaderOf;
    if IsTaskEvent(e) {
      TaskEventsFrame(cfg, s, e);
    } else if e.Stream? || e.ReserveGlobal? {
      StreamKeepsAuth(cfg, s, e);
    }
  }

  lemma {:induction false} ChallengeKeeps(cfg: Config, r: Run, k: nat, n: nat, p: PeerId)
    requires Behaves(cfg, r) && k <= n < |r.states| && r.states[k].deadline.Some?
    ensures p in r.states[n].auth.pending <==>
            p in r.states[k].auth.pending && forall m | k <= m < n :: !TakesChallenge(r.states[m], r.events[m], p)
    ensures p in r.states[n].auth.pending ==> r.states[n].auth.pending[p] == r.states[k].auth.pending[p]
    decreases n
  {
    hide Step, TakesChallenge;
    if k < n {
      ChallengeKeeps(cfg, r, k, n - 1, p);
      StoppingRun(cfg, r, k, n - 1);
      ChallengeFate(cfg, r.states[n - 1], r.events[n - 1], p);
    }
  }

  /**
   Exactly when an answer is granted although a shutdown is under way: its peer had a challenge
   pending when the shutdown began, nothing has taken it away since, the peer is on the whitelist
   now, and the answer is timely for that challenge and signed on its nonce.
   */
  lemma {:induction false} LateGrantExact(cfg: Config, r: Run, k: nat, j: nat, p: PeerId)
    requires Behaves(cfg, r) && k <= j < |r.events| && r.states[k].deadline.Some? && IsAnswer(r.events[j], p)
    ensures IsGrant(cfg, r.states[j], r.events[j], p) <==>
            && p in r.states[k].auth.pending
            && (forall m | k <= m < j :: !TakesChallenge(r.states[m], r.events[m], p))
            && p in r.states[j].auth.whitelist
            && Timely(r.states[k].auth.pending[p].issuedAt, r.events[j].request.timestamp, r.events[j].now)
            && Signed(cfg.crypto, p, r.states[k].auth.pending[p].nonce, r.events[j].request.timestamp,
                      r.events[j].request.signature)
  {
    hide Step, Timely, Signed, TakesChallenge;
    ChallengeKeeps(cfg, r, k, j, p);
  }
}
