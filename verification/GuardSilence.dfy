/** Radio silence: what a peer outside the whitelist can observe of a Guard. */
module GuardSilence {
  import opened Basics
  import opened Wire
  import opened Tunnels
  import opened Auth
  import opened Guards
  import opened GuardRuns

  /** What reaches one peer. */
  datatype Observation =
    | Reply(response: NuxResponse)
    | Octets(octets: seq<byte>)
    | ChannelDropped
    | StreamDropped
    | Cut

  function See(p: PeerId, o: Output): seq<Observation> {
    match o
    case Respond(peer, response) => if peer == p then [Reply(response)] else []
    case SendOctets(peer, octets) => if peer == p then [Octets(octets)] else []
    case DropChannel(peer) => if peer == p then [ChannelDropped] else []
    case DropStream(peer) => if peer == p then [StreamDropped] else []
    case Disconnect(peers) => if p in peers then [Cut] else []
  }

  function SeeAll(p: PeerId, outs: seq<Output>): seq<Observation> {
    if outs == [] then [] else See(p, outs[0]) + SeeAll(p, outs[1..])
  }

  /** What `p` sees during the first `n` events. */
  function Observed(cfg: Config, r: Run, p: PeerId, n: nat): seq<Observation>
    requires n <= |r.events| < |r.states|
    requires forall i | 0 <= i < n :: Enabled(r.states[i], r.events[i])
  {
    if n == 0 then [] else Observed(cfg, r, p, n - 1) + SeeAll(p, OutputsAt(cfg, r, n - 1))
  }

  /** What one peer does to the Guard. */
  datatype Input = Asked(request: NuxRequest) | Opened

  function InputOf(p: PeerId, e: Event): seq<Input> {
    match e
    case AuthRequest(peer, request, _, _) => if peer == p then [Asked(request)] else []
    case Stream(peer) => if peer == p then [Opened] else []
    case _ => []
  }

  /** The inputs of `p` during the first `n` events, each with whether the Guard was shutting down. */
  function Inputs(r: Run, p: PeerId, n: nat): seq<(Input, bool)>
    requires n <= |r.events| < |r.states|
  {
    if n == 0 then []
    else
      var input := InputOf(p, r.events[n - 1]);
      Inputs(r, p, n - 1)
      + (if input == [] then [] else [(input[0], r.states[n - 1].deadline.Some?)])
  }

  /** The silence that answers an input: the same for every request, and no reply in it. */
  function Refusal(input: Input, stopping: bool): seq<Observation> {
    match input
    case Asked(_) => [ChannelDropped, Cut]
    case Opened => if stopping then [StreamDropped] else [StreamDropped, Cut]
  }

  function Refusals(inputs: seq<(Input, bool)>): (seen: seq<Observation>)
    ensures forall o | o in seen :: !o.Reply? && !o.Octets?
  {
    if inputs == [] then []
    else
      var last := inputs[|inputs| - 1];
      Refusals(inputs[..|inputs| - 1]) + Refusal(last.0, last.1)
  }

  /** `p` is on the whitelist at no moment of the first `n` events. */
  ghost predicate Outsider(r: Run, p: PeerId, n: nat)
    requires n < |r.states|
  {
    forall m | 0 <= m <= n :: p !in r.states[m].auth.whitelist
  }

  /** Neither the loop nor any task serves `p`. */
  ghost predicate Unserved(s: GuardState, p: PeerId) {
    && (forall t | t in s.tasks :: s.tasks[t].peer != p)
    && (s.pc.Reserving? ==> s.pc.peer != p)
  }

  lemma OutsiderUnserved(cfg: Config, r: Run, p: PeerId, n: nat)
    requires Behaves(cfg, r) && n < |r.states| && Outsider(r, p, n)
    ensures Unserved(r.states[n], p)
  {
    hide Step;
    if r.states[n].pc.Reserving? {
      var a := PcSince(cfg, r, n);
    }
    forall t | t in r.states[n].tasks ensures r.states[n].tasks[t].peer != p {
      var a, b := TaskSince(cfg, r, n, t);
    }
  }

  /** One step, seen by a peer outside the whitelist: the refusal of its input, or nothing. */
  lemma OutsiderStep(cfg: Config, s: GuardState, e: Event, p: PeerId)
    requires Enabled(s, e) && p !in s.auth.whitelist && p !in s.auth.sessions && Unserved(s, p)
    ensures var input := InputOf(p, e);
            SeeAll(p, Step(cfg, s, e).1) == if input == [] then [] else Refusal(input[0], s.deadline.Some?)
  {
    hide Timely, Signed, Emitted, Established, HeaderOf, NextPhase;
    var outs := Step(cfg, s, e).1;
    assert |outs| <= 2;
    if |outs| == 2 {
      assert outs[1..] == [outs[1]] && SeeAll(p, outs[1..]) == See(p, outs[1]) + SeeAll(p, outs[1..][1..]);
    }
  }

  lemma {:induction false} OutsiderSees(cfg: Config, r: Run, p: PeerId, n: nat)
    requires Behaves(cfg, r) && n <= |r.events| && Outsider(r, p, n)
    ensures Observed(cfg, r, p, n) == Refusals(Inputs(r, p, n))
  {
    hide Step;
    if n > 0 {
      OutsiderSees(cfg, r, p, n - 1);
      OutsiderUnserved(cfg, r, p, n - 1);
      Invariants(cfg, r, n - 1);
      OutsiderStep(cfg, r.states[n - 1], r.events[n - 1], p);
      var before, all := Inputs(r, p, n - 1), Inputs(r, p, n);
      assert all != before ==> all[..|all| - 1] == before;
    }
  }

  /**
   Radio silence. Take any two Guards, with any registries, keys, whitelists, sessions and traffic
   of other peers, and a peer on neither whitelist. If it does the same things to both, each while
   both are or neither is shutting down, it sees the same, and never an octet.
   */
  lemma {:induction false} RadioSilence(cfg1: Config, r1: Run, n1: nat, cfg2: Config, r2: Run, n2: nat, p: PeerId)
    requires Behaves(cfg1, r1) && n1 <= |r1.events| && Outsider(r1, p, n1)
    requires Behaves(cfg2, r2) && n2 <= |r2.events| && Outsider(r2, p, n2)
    requires Inputs(r1, p, n1) == Inputs(r2, p, n2)
    ensures Observed(cfg1, r1, p, n1) == Observed(cfg2, r2, p, n2)
    ensures forall o | o in Observed(cfg1, r1, p, n1) :: !o.Reply? && !o.Octets?
  {
    OutsiderSees(cfg1, r1, p, n1);
    OutsiderSees(cfg2, r2, p, n2);
  }

  /**
   The shutdown flag cannot be left out. A refused authentication request looks the same during a
   shutdown, but a refused stream does not: the connection is cut exactly when none is under way.
   So a peer on neither whitelist, doing the same things to two Guards, tells them apart if and only
   if some stream of it met different flags.
   */
  lemma {:induction false} ShutdownVisible(cfg1: Config, r1: Run, n1: nat, cfg2: Config, r2: Run, n2: nat, p: PeerId)
    requires Behaves(cfg1, r1) && n1 <= |r1.events| && Outsider(r1, p, n1)
    requires Behaves(cfg2, r2) && n2 <= |r2.events| && Outsider(r2, p, n2)
    requires SameInputs(Inputs(r1, p, n1), Inputs(r2, p, n2))
    ensures Observed(cfg1, r1, p, n1) == Observed(cfg2, r2, p, n2)
            <==> FlagsAgree(Inputs(r1, p, n1), Inputs(r2, p, n2))
  {
    OutsiderSees(cfg1, r1, p, n1);
    OutsiderSees(cfg2, r2, p, n2);
    RefusalsTellFlags(Inputs(r1, p, n1), Inputs(r2, p, n2));
  }

  /** The same inputs, whatever the flags they met. */
  ghost predicate SameInputs(a: seq<(Input, bool)>, b: seq<(Input, bool)>) {
    |a| == |b| && forall i | 0 <= i < |a| :: a[i].0 == b[i].0
  }

  lemma {:induction false} RefusalsTellFlags(a: seq<(Input, bool)>, b: seq<(Input, bool)>)
    requires SameInputs(a, b)
    ensures Refusals(a) == Refusals(b) <==> FlagsAgree(a, b)
  {
    if a != [] {
      var n := |a| - 1;
      RefusalsTellFlags(a[..n], b[..n]);
      FlagsAgreeSnoc(a, b);
      var x, y := Refusals(a[..n]), Refusals(b[..n]);
      var u, v := Refusal(a[n].0, a[n].1), Refusal(b[n].0, b[n].1);
      if x + u == y + v {
        SameTail(x, u, y, v);
      }
    }
  }

  /** Every stream met the same shutdown flag in both histories. */
  ghost predicate FlagsAgree(a: seq<(Input, bool)>, b: seq<(Input, bool)>)
    requires |a| == |b|
  {
    forall i | 0 <= i < |a| && a[i].0.Opened? :: a[i].1 == b[i].1
  }

  lemma FlagsAgreeSnoc(a: seq<(Input, bool)>, b: seq<(Input, bool)>)
    requires |a| == |b| > 0
    ensures var n := |a| - 1;
            FlagsAgree(a, b) <==> FlagsAgree(a[..n], b[..n]) && (a[n].0.Opened? ==> a[n].1 == b[n].1)
  {
    var n := |a| - 1;
    assert forall i | 0 <= i < n :: a[..n][i] == a[i] && b[..n][i] == b[i];
  }

  /** Refusals of one kind of input can be read off the end of what was seen. */
  lemma SameTail(x: seq<Observation>, u: seq<Observation>, y: seq<Observation>, v: seq<Observation>)
    requires x + u == y + v
    requires u == v == [ChannelDropped, Cut]
             || (u in {[StreamDropped], [StreamDropped, Cut]} && v in {[StreamDropped], [StreamDropped, Cut]})
    ensures x == y && u == v
  {
    var last := (x + u)[|x + u| - 1];
    assert last == u[|u| - 1] == v[|v| - 1];
    assert u == v;
    assert x == (x + u)[..|x|] && y == (y + v)[..|y|];
  }

  // ---- Refused tunnels -------------------------------------------------------------------------

  /** The attempt that a task serves at `e` reaches the acknowledgement. */
  predicate ReachesAck(cfg: Config, s: GuardState, e: Event)
    requires Enabled(s, e) && e.Serve?
  {
    var task := s.tasks[e.task];
    Admitted(cfg.registry, task.peer, task.roles, e.attempt) && e.attempt.writable
  }

  /** A peer sees nothing but the end of its stream exactly when its attempt does not reach the acknowledgement. */
  lemma {:induction false} ServeSeen(cfg: Config, s: GuardState, e: Event)
    requires Enabled(s, e) && e.Serve?
    ensures SeeAll(s.tasks[e.task].peer, Step(cfg, s, e).1) == [StreamDropped] <==> !ReachesAck(cfg, s, e)
    ensures SeeAll(s.tasks[e.task].peer, Step(cfg, s, e).1) != [StreamDropped] ==>
              Octets([TUNNEL_ACK]) in SeeAll(s.tasks[e.task].peer, Step(cfg, s, e).1)
  {
    hide HeaderOf, Admitted, OnAuthRequest, OnStream, OnReserveGlobal, OnControl, OnClosed, OnSettle;
    var outs := Step(cfg, s, e).1;
    var p := s.tasks[e.task].peer;
    if ReachesAck(cfg, s, e) {
      assert outs[0] == SendOctets(p, [TUNNEL_ACK]);
      assert SeeAll(p, outs)[0] == Octets([TUNNEL_ACK]);
    } else {
      assert outs == [DropStream(p)] && outs[1..] == [];
      assert SeeAll(p, outs) == See(p, outs[0]) + [];
    }
  }

  /**
   All refusals of a tunnel look alike. Take two Guards with any configurations, each serving a
   stream of `p` in any state, and two attempts that do not reach the acknowledgement: a header too
   late or unreadable, a service that does not exist, a role or a fingerprint that does not do, a
   target that is down. `p` sees the same of both, the end of its stream and no octet; and any
   attempt that looks different from a refused one has reached the acknowledgement.
   */
  lemma {:induction false} RefusalsAlike(cfg1: Config, s1: GuardState, e1: Event,
                                         cfg2: Config, s2: GuardState, e2: Event, p: PeerId)
    requires Enabled(s1, e1) && e1.Serve? && s1.tasks[e1.task].peer == p
    requires Enabled(s2, e2) && e2.Serve? && s2.tasks[e2.task].peer == p
    requires !ReachesAck(cfg1, s1, e1)
    ensures SeeAll(p, Step(cfg1, s1, e1).1) == [StreamDropped]
    ensures SeeAll(p, Step(cfg1, s1, e1).1) == SeeAll(p, Step(cfg2, s2, e2).1) <==> !ReachesAck(cfg2, s2, e2)
  {
    hide Step, SeeAll, ReachesAck;
    ServeSeen(cfg1, s1, e1);
    ServeSeen(cfg2, s2, e2);
  }
}
