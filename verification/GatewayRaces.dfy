/**
 PUT handlers that run at the same time. Each writes its row in one step and sends its commands one
 by one, while the node handles what arrives; the steps of different handlers interleave in any order.
 */
module GatewayRaces {
  import opened Basics
  import opened Gateways

  /** A handler has validated its configuration, or has written it and still sends the rest. */
  datatype Handler = Validated(row: ConfigRow) | Sending(rest: seq<Mention>)

  datatype Shared = Shared(
    rows: seq<ConfigRow>, live: map<PeerId, Roles>, channel: seq<Mention>, handlers: map<nat, Handler>)

  datatype Event =
    | Validate(id: nat, row: ConfigRow)
    | Write(id: nat)
    | WriteFails(id: nat)
    | Send(id: nat)
    | Reply(id: nat)
    | Handle                             // by the node

  /** A configuration that is refused changes nothing, and so is no event. */
  predicate Enabled(f: Formats, s: Shared, e: Event) {
    match e
    case Validate(id, row) => id !in s.handlers && Acceptable(f, row)
    case Write(id) => id in s.handlers && s.handlers[id].Validated?
    case WriteFails(id) => id in s.handlers && s.handlers[id].Validated?
    case Send(id) => id in s.handlers && s.handlers[id].Sending? && s.handlers[id].rest != []
    case Reply(id) => id in s.handlers && s.handlers[id] == Sending([])
    case Handle => s.channel != []
  }

  function Step(f: Formats, s: Shared, e: Event): Shared
    requires Enabled(f, s, e)
  {
    match e
    case Validate(id, row) => s.(handlers := s.handlers[id := Validated(row)])
    case Write(id) =>
      var row := s.handlers[id].row;
      s.(rows := Upsert(s.rows, row), handlers := s.handlers[id := Sending(RolesForConfig(f.parse, row))])
    case WriteFails(id) => s.(handlers := s.handlers - {id})
    case Send(id) =>
      var rest := s.handlers[id].rest;
      s.(channel := s.channel + [rest[0]], handlers := s.handlers[id := Sending(rest[1..])])
    case Reply(id) => s.(handlers := s.handlers - {id})
    case Handle =>
      var (peer, roles) := s.channel[0];
      s.(live := s.live[peer := roles], channel := s.channel[1..])
  }

  datatype Run = Run(states: seq<Shared>, events: seq<Event>)

  ghost predicate Behaves(f: Formats, start: seq<ConfigRow>, r: Run) {
    && |r.states| == |r.events| + 1
    && r.states[0] == Shared(start, Rebuilt(f.parse, start), [], map[])
    && forall i | 0 <= i < |r.events| ::
         Enabled(f, r.states[i], r.events[i]) && r.states[i + 1] == Step(f, r.states[i], r.events[i])
  }

  /** The rows written during the first `n` events. */
  function Written(f: Formats, r: Run, n: nat): seq<ConfigRow>
    requires n <= |r.events| < |r.states|
    requires forall i | 0 <= i < n :: Enabled(f, r.states[i], r.events[i])
  {
    if n == 0 then []
    else
      var s, e := r.states[n - 1], r.events[n - 1];
      assert Enabled(f, s, e);
      Written(f, r, n - 1) + if e.Write? then [s.handlers[e.id].row] else []
  }

  /** Everything sent has been handled, and every handler that has written has sent everything. */
  predicate Quiet(s: Shared) {
    s.channel == [] && forall id | id in s.handlers && s.handlers[id].Sending? :: s.handlers[id].rest == []
  }

  // ---- Only mentions of known rows are on their way --------------------------------------------------

  ghost predicate MentionedBy(parse: Parser, all: seq<ConfigRow>, m: Mention) {
    exists row :: row in all && m in RolesForConfig(parse, row)
  }

  ghost predicate Known(parse: Parser, all: seq<ConfigRow>, s: Shared) {
    && (forall p | p in s.live :: MentionedBy(parse, all, (p, s.live[p])))
    && (forall m | m in s.channel :: MentionedBy(parse, all, m))
    && (forall id, m | id in s.handlers && s.handlers[id].Sending? && m in s.handlers[id].rest ::
          MentionedBy(parse, all, m))
    && (forall row | row in s.rows :: row in all)
  }

  /** `p` is served live, or a command about it is on its way. */
  ghost predicate OnItsWay(s: Shared, p: PeerId) {
    || p in s.live
    || (exists m :: m in s.channel && m.0 == p)
    || (exists id, m :: id in s.handlers && s.handlers[id].Sending? && m in s.handlers[id].rest && m.0 == p)
  }

  ghost predicate Covered(parse: Parser, s: Shared) {
    forall row, m | row in s.rows && m in RolesForConfig(parse, row) :: OnItsWay(s, m.0)
  }

  lemma UpsertMembers(rows: seq<ConfigRow>, row: ConfigRow)
    ensures forall x | x in Upsert(rows, row) :: x in rows || x == row
  {
  }

  lemma KnownStep(f: Formats, all: seq<ConfigRow>, s: Shared, e: Event)
    requires Enabled(f, s, e) && Known(f.parse, all, s)
    requires e.Write? ==> s.handlers[e.id].row in all
    ensures Known(f.parse, all, Step(f, s, e))
  {
    hide RolesForConfig, Acceptable, Upsert;
    var s' := Step(f, s, e);
    match e
    case Write(id) =>
      UpsertMembers(s.rows, s.handlers[id].row);
    case Send(id) =>
      var rest := s.handlers[id].rest;
      assert rest[0] in rest && forall m | m in rest[1..] :: m in rest;
    case Handle =>
      var c := s.channel;
      assert c[0] in c && (c[0].0, c[0].1) == c[0] && forall m | m in c[1..] :: m in c;
    case _ =>
  }

  /** Nobody on the way is lost. */
  lemma OnItsWayStep(f: Formats, s: Shared, e: Event, p: PeerId)
    requires Enabled(f, s, e) && OnItsWay(s, p)
    ensures OnItsWay(Step(f, s, e), p)
  {
    hide RolesForConfig, Acceptable, Upsert;
    var s' := Step(f, s, e);
    if p in s.live {
      assert p in s'.live;
    } else if m :| m in s.channel && m.0 == p {
      if e.Handle? {
        assert s.channel == [s.channel[0]] + s.channel[1..];
        assert m == s.channel[0] || m in s'.channel;
      } else {
        assert m in s'.channel;
      }
    } else {
      var id, m :| id in s.handlers && s.handlers[id].Sending? && m in s.handlers[id].rest && m.0 == p;
      if e == Send(id) {
        var rest := s.handlers[id].rest;
        assert rest == [rest[0]] + rest[1..];
        assert rest[0] in s'.channel && s'.handlers[id].rest == rest[1..];
        assert m == rest[0] || m in rest[1..];
      } else {
        assert id in s'.handlers && s'.handlers[id] == s.handlers[id];
      }
    }
  }

  lemma CoveredStep(f: Formats, s: Shared, e: Event)
    requires Enabled(f, s, e) && Covered(f.parse, s)
    ensures Covered(f.parse, Step(f, s, e))
  {
    hide RolesForConfig, Acceptable, OnItsWay;
    var s' := Step(f, s, e);
    forall row, m | row in s'.rows && m in RolesForConfig(f.parse, row) ensures OnItsWay(s', m.0) {
      if row in s.rows {
        OnItsWayStep(f, s, e, m.0);
      } else {
        hide Step;
        JustWritten(f, s, e, row, m);
      }
    }
  }

  lemma JustWritten(f: Formats, s: Shared, e: Event, row: ConfigRow, m: Mention)
    requires Enabled(f, s, e) && row in Step(f, s, e).rows && row !in s.rows && m in RolesForConfig(f.parse, row)
    ensures OnItsWay(Step(f, s, e), m.0)
  {
    hide RolesForConfig, Acceptable;
    assert e.Write?;
    UpsertMembers(s.rows, s.handlers[e.id].row);
    hide Upsert;
    assert Step(f, s, e).handlers[e.id] == Sending(RolesForConfig(f.parse, row));
  }

  lemma {:induction false} MentionFound(ms: seq<Mention>, p: PeerId)
    ensures LastMention(ms, p).Some? <==> exists m :: m in ms && m.0 == p
    ensures LastMention(ms, p).Some? ==> (p, LastMention(ms, p).value) in ms
  {
    if ms != [] {
      var front, last := ms[..|ms| - 1], ms[|ms| - 1];
      MentionFound(front, p);
      assert ms == front + [last];
      assert (last.0, last.1) == last && last in ms;
    }
  }

  /** What a start leaves live is what its rows mention. */
  lemma StartKnown(parse: Parser, start: seq<ConfigRow>, all: seq<ConfigRow>, p: PeerId)
    requires p in Rebuilt(parse, start) && forall row | row in start :: row in all
    ensures MentionedBy(parse, all, (p, Rebuilt(parse, start)[p]))
  {
    RebuiltLast(parse, start, p);
    GivenBySomeRow(parse, start, p);
    var row :| row in start && Gives(parse, row, p) == LastGives(parse, start, p);
    hide RolesForConfig, Rebuilt;
    MentionFound(RolesForConfig(parse, row), p);
  }

  lemma StartCovered(parse: Parser, start: seq<ConfigRow>, row: ConfigRow, m: Mention)
    requires row in start && m in RolesForConfig(parse, row)
    ensures m.0 in Rebuilt(parse, start)
  {
    RebuiltLast(parse, start, m.0);
    GivenBySomeRow(parse, start, m.0);
    hide RolesForConfig, Rebuilt;
    MentionFound(RolesForConfig(parse, row), m.0);
    assert Gives(parse, row, m.0).Some?;
  }

  lemma {:induction false} WrittenGrows(f: Formats, r: Run, i: nat, n: nat)
    requires i <= n <= |r.events| < |r.states|
    requires forall i | 0 <= i < n :: Enabled(f, r.states[i], r.events[i])
    ensures forall row | row in Written(f, r, i) :: row in Written(f, r, n)
    decreases n
  {
    if i < n {
      WrittenGrows(f, r, i, n - 1);
    }
  }

  lemma WrittenAt(f: Formats, r: Run, i: nat, n: nat)
    requires 0 < i <= n <= |r.events| < |r.states|
    requires forall i | 0 <= i < n :: Enabled(f, r.states[i], r.events[i])
    requires Enabled(f, r.states[i - 1], r.events[i - 1]) && r.events[i - 1].Write?
    ensures r.states[i - 1].handlers[r.events[i - 1].id].row in Written(f, r, n)
  {
    var row := r.states[i - 1].handlers[r.events[i - 1].id].row;
    assert row in Written(f, r, i);
    WrittenGrows(f, r, i, n);
  }

  lemma {:induction false} RaceInvariant(f: Formats, start: seq<ConfigRow>, r: Run, i: nat, n: nat)
    requires Behaves(f, start, r) && i <= n <= |r.events|
    ensures Known(f.parse, start + Written(f, r, n), r.states[i]) && Covered(f.parse, r.states[i])
    decreases i
  {
    hide Step, RolesForConfig, Rebuilt, Known, Covered, Acceptable;
    var all := start + Written(f, r, n);
    if i == 0 {
      RaceBegins(f, start, r, all);
    } else {
      RaceInvariant(f, start, r, i - 1, n);
      if r.events[i - 1].Write? {
        WrittenAt(f, r, i, n);
      }
      KnownStep(f, all, r.states[i - 1], r.events[i - 1]);
      CoveredStep(f, r.states[i - 1], r.events[i - 1]);
    }
  }

  lemma RaceBegins(f: Formats, start: seq<ConfigRow>, r: Run, all: seq<ConfigRow>)
    requires Behaves(f, start, r) && forall row | row in start :: row in all
    ensures Known(f.parse, all, r.states[0]) && Covered(f.parse, r.states[0])
  {
    hide Step, RolesForConfig, Rebuilt, Enabled, MentionedBy;
    var s := r.states[0];
    forall p | p in s.live ensures MentionedBy(f.parse, all, (p, s.live[p])) {
      StartKnown(f.parse, start, all, p);
    }
    forall row, m | row in s.rows && m in RolesForConfig(f.parse, row) ensures OnItsWay(s, m.0) {
      StartCovered(f.parse, start, row, m);
    }
  }

  lemma {:induction false} RowsWritten(f: Formats, start: seq<ConfigRow>, r: Run, n: nat)
    requires Behaves(f, start, r) && n <= |r.events|
    ensures r.states[n].rows == StoredBy(start, Written(f, r, n))
  {
    hide RolesForConfig, Rebuilt, Acceptable, Upsert;
    if n > 0 {
      RowsWritten(f, start, r, n - 1);
      var e := r.events[n - 1];
      if e.Write? {
        StoredOneMore(start, Written(f, r, n - 1), r.states[n - 1].handlers[e.id].row);
      } else {
        assert Written(f, r, n) == Written(f, r, n - 1);
      }
    }
  }

  /** However handlers interleave, the stored row of a uuid is the last one written for it, or that of the start. */
  lemma {:induction false} ConcurrentRowsExact(f: Formats, start: seq<ConfigRow>, r: Run, n: nat)
    requires Behaves(f, start, r) && n <= |r.events| && UniqueUuids(start)
    ensures UniqueUuids(r.states[n].rows)
    ensures forall x :: x in r.states[n].rows <==> LastWithUuid(start + Written(f, r, n), x)
  {
    hide Step, Written, StoredBy;
    RowsWritten(f, start, r, n);
    StoredLast(start, Written(f, r, n));
  }

  // ---- Agreement ---------------------------------------------------------------------------------

  /** With Guards and clients apart, all mentions of a peer in known rows give it the same roles. */
  lemma SameRoles(parse: Parser, all: seq<ConfigRow>, m1: Mention, m2: Mention)
    requires Separated(parse, all) && MentionedBy(parse, all, m1) && MentionedBy(parse, all, m2) && m1.0 == m2.0
    ensures m1.1 == m2.1
  {
    MentionRoles(parse, all, m1);
    MentionRoles(parse, all, m2);
    hide IsGuard, IsClient, MentionedBy;
    assert !(IsGuard(parse, all, m1.0) && IsClient(parse, all, m1.0));
  }

  lemma MentionRoles(parse: Parser, all: seq<ConfigRow>, m: Mention)
    requires MentionedBy(parse, all, m)
    ensures || (IsGuard(parse, all, m.0) && m.1 == [ROLE_GUARD, ROLE_CLIENT])
            || (IsClient(parse, all, m.0) && m.1 == [ROLE_CLIENT])
  {
    var row :| row in all && m in RolesForConfig(parse, row);
    AllowMentioned(parse, row.allow, m);
  }

  lemma {:induction false} AllowMentioned(parse: Parser, allow: seq<Text>, m: Mention)
    ensures m in AllowMentions(parse, allow) ==>
              m.1 == [ROLE_CLIENT] && exists text :: text in allow && parse(text) == Some(m.0)
  {
    if allow != [] {
      var front, last := allow[..|allow| - 1], allow[|allow| - 1];
      AllowMentioned(parse, front, m);
      assert allow == front + [last];
    }
  }

  /**
   Suppose no peer is ever both a Guard and let in by one, in the rows of the start and those
   written. Then however the writes and sends of concurrent PUTs and the node's handling interleave,
   at any quiet moment and in whatever order a restart would load the rows, every peer of the
   rebuilt whitelist has the same roles live; and the two whitelists are equal if and only if every
   peer served live is still named by a stored row.
   */
  lemma {:induction false} ConcurrentPutsAgree(f: Formats, start: seq<ConfigRow>, r: Run, n: nat,
                                               loaded: seq<ConfigRow>)
    requires Behaves(f, start, r) && n <= |r.events| && Quiet(r.states[n])
    requires Separated(f.parse, start + Written(f, r, n)) && Reordered(loaded, r.states[n].rows)
    ensures var s := r.states[n];
            var rebuilt := Rebuilt(f.parse, loaded);
            && (forall p | p in rebuilt :: p in s.live && s.live[p] == rebuilt[p])
            && (s.live == rebuilt <==>
                  forall p | p in s.live :: exists row :: row in s.rows && Gives(f.parse, row, p).Some?)
  {
    hide Step, Enabled, RolesForConfig, Rebuilt, Separated, Gives, MentionedBy, LastGives;
    var s, all, rebuilt := r.states[n], start + Written(f, r, n), Rebuilt(f.parse, loaded);
    RaceInvariant(f, start, r, n, n);
    ReorderedMembers(loaded, s.rows);
    forall p
      ensures p in rebuilt ==> p in s.live && s.live[p] == rebuilt[p]
      ensures p in rebuilt <==> exists row :: row in s.rows && Gives(f.parse, row, p).Some?
    {
      RebuiltLast(f.parse, loaded, p);
      GivenBySomeRow(f.parse, loaded, p);
      assert p in rebuilt <==> Get(rebuilt, p).Some?;
      if p in rebuilt {
        var row :| row in loaded && Gives(f.parse, row, p) == LastGives(f.parse, loaded, p);
        GivesIsMentioned(f.parse, row, p);
        assert MentionedBy(f.parse, all, (p, rebuilt[p])) by {
          RowMentions(f.parse, all, row, (p, rebuilt[p]));
        }
        assert OnItsWay(s, (p, rebuilt[p]).0);
        assert p in s.live;
        SameRoles(f.parse, all, (p, rebuilt[p]), (p, s.live[p]));
      }
    }
  }

  lemma GivesIsMentioned(parse: Parser, row: ConfigRow, p: PeerId)
    requires Gives(parse, row, p).Some?
    ensures (p, Gives(parse, row, p).value) in RolesForConfig(parse, row)
  {
    MentionFound(RolesForConfig(parse, row), p);
  }

  lemma RowMentions(parse: Parser, all: seq<ConfigRow>, row: ConfigRow, m: Mention)
    requires row in all && m in RolesForConfig(parse, row)
    ensures MentionedBy(parse, all, m)
  {
  }

  // ---- Particular orders -------------------------------------------------------------------------

  /** The state after the events, if they can happen one after the other. */
  function After(f: Formats, s: Shared, es: seq<Event>): Option<Shared> {
    if es == [] then Some(s)
    else
      match After(f, s, es[..|es| - 1])
      case None => None
      case Some(m) => if Enabled(f, m, es[|es| - 1]) then Some(Step(f, m, es[|es| - 1])) else None
  }

  lemma {:induction false} AfterOn(f: Formats, s: Shared, es: seq<Event>, m: Shared, e: Event)
    requires After(f, s, es) == Some(m) && Enabled(f, m, e)
    ensures After(f, s, es + [e]) == Some(Step(f, m, e))
  {
    hide Step, Enabled;
    assert (es + [e])[..|es|] == es;
  }

  function Sends(id: nat, n: nat): (es: seq<Event>)
    ensures |es| == n
  {
    if n == 0 then [] else Sends(id, n - 1) + [Send(id)]
  }

  /** What handler `id` has still to send, but for the first `n` commands. */
  function Sent(m: Shared, id: nat, n: nat): Shared
    requires id in m.handlers && m.handlers[id].Sending? && n <= |m.handlers[id].rest|
  {
    var rest := m.handlers[id].rest;
    m.(channel := m.channel + rest[..n], handlers := m.handlers[id := Sending(rest[n..])])
  }

  lemma {:induction false} SendsLead(f: Formats, s: Shared, es: seq<Event>, m: Shared, id: nat, n: nat)
    requires After(f, s, es) == Some(m)
    requires id in m.handlers && m.handlers[id].Sending? && n <= |m.handlers[id].rest|
    ensures After(f, s, es + Sends(id, n)) == Some(Sent(m, id, n))
  {
    hide After;
    if n == 0 {
      assert es + Sends(id, 0) == es;
      assert Sent(m, id, 0) == m;
    } else {
      SendsLead(f, s, es, m, id, n - 1);
      AfterOn(f, s, es + Sends(id, n - 1), Sent(m, id, n - 1), Send(id));
      assert es + Sends(id, n - 1) + [Send(id)] == es + Sends(id, n);
      OneMoreSent(f, m, id, n);
    }
  }

  lemma OneMoreSent(f: Formats, m: Shared, id: nat, n: nat)
    requires id in m.handlers && m.handlers[id].Sending? && 0 < n <= |m.handlers[id].rest|
    ensures Step(f, Sent(m, id, n - 1), Send(id)) == Sent(m, id, n)
  {
    var rest := m.handlers[id].rest;
    assert rest[n - 1..][0] == rest[n - 1] && rest[n - 1..][1..] == rest[n..];
    assert m.channel + rest[..n - 1] + [rest[n - 1]] == m.channel + rest[..n];
  }

  /** A handler that runs alone: it validates, writes, sends everything and replies. */
  function Alone(id: nat, row: ConfigRow, sends: nat): seq<Event> {
    [Validate(id, row), Write(id)] + Sends(id, sends) + [Reply(id)]
  }

  /** It does what one uninterrupted PUT does: the row, then all mentions in order. */
  lemma {:induction false} AloneIsOnePut(f: Formats, s: Shared, id: nat, row: ConfigRow)
    requires id !in s.handlers && Acceptable(f, row)
    ensures var mentions := RolesForConfig(f.parse, row);
            After(f, s, Alone(id, row, |mentions|))
            == Some(s.(rows := Upsert(s.rows, row), channel := s.channel + mentions))
  {
    var mentions := RolesForConfig(f.parse, row);
    hide RolesForConfig, Acceptable, Upsert;
    assert After(f, s, []) == Some(s);
    hide After;
    AfterOn(f, s, [], s, Validate(id, row));
    var s1 := Step(f, s, Validate(id, row));
    assert [] + [Validate(id, row)] == [Validate(id, row)];
    AfterOn(f, s, [Validate(id, row)], s1, Write(id));
    var s2 := Step(f, s1, Write(id));
    var es := [Validate(id, row), Write(id)];
    assert [Validate(id, row)] + [Write(id)] == es;
    SendsLead(f, s, es, s2, id, |mentions|);
    AllSent(s2, id);
    AfterOn(f, s, es + Sends(id, |mentions|), Sent(s2, id, |mentions|), Reply(id));
    assert (s.handlers[id := Validated(row)][id := Sending(mentions)][id := Sending([])]) - {id} == s.handlers;
  }

  lemma AllSent(m: Shared, id: nat)
    requires id in m.handlers && m.handlers[id].Sending?
    ensures var rest := m.handlers[id].rest;
            Sent(m, id, |rest|) == m.(channel := m.channel + rest, handlers := m.handlers[id := Sending([])])
  {
    var rest := m.handlers[id].rest;
    assert rest[..|rest|] == rest && rest[|rest|..] == [];
  }

  function Handles(n: nat): (es: seq<Event>)
    ensures |es| == n
  {
    if n == 0 then [] else [Handle] + Handles(n - 1)
  }

  /** The node handles all that is in the channel. */
  lemma {:induction false} HandlesLead(f: Formats, s: Shared, es: seq<Event>, m: Shared)
    requires After(f, s, es) == Some(m)
    ensures After(f, s, es + Handles(|m.channel|)) == Some(m.(live := ApplyAll(m.live, m.channel), channel := []))
    decreases |m.channel|
  {
    hide After;
    if m.channel == [] {
      assert es + Handles(0) == es;
    } else {
      AfterOn(f, s, es, m, Handle);
      HandlesLead(f, s, es + [Handle], Step(f, m, Handle));
      assert es + [Handle] + Handles(|m.channel| - 1) == es + Handles(|m.channel|);
      ApplyFirst(m.live, m.channel);
      assert (m.channel[0].0, m.channel[0].1) == m.channel[0];
    }
  }

  /** Two configurations are validated and written, the first one first; nothing is sent yet. */
  lemma BothWritten(f: Formats, a: ConfigRow, b: ConfigRow) returns (es: seq<Event>, m: Shared)
    requires Acceptable(f, a) && Acceptable(f, b) && a.uuid != b.uuid
    ensures After(f, Shared([], map[], [], map[]), es) == Some(m)
    ensures m == Shared([a, b], map[], [], map[0 := Sending(RolesForConfig(f.parse, a)),
                                              1 := Sending(RolesForConfig(f.parse, b))])
  {
    hide RolesForConfig, Acceptable;
    var s := Shared([], map[], [], map[]);
    es, m := [], s;
    assert After(f, s, es) == Some(m);
    hide After;
    AfterOn(f, s, es, m, Validate(0, a));
    es, m := es + [Validate(0, a)], Step(f, m, Validate(0, a));
    AfterOn(f, s, es, m, Validate(1, b));
    es, m := es + [Validate(1, b)], Step(f, m, Validate(1, b));
    AfterOn(f, s, es, m, Write(0));
    es, m := es + [Write(0)], Step(f, m, Write(0));
    AfterOn(f, s, es, m, Write(1));
    es, m := es + [Write(1)], Step(f, m, Write(1));
    assert RowOf([a], b.uuid) == 1;
  }

  /** Handler `i` sends everything, then handler `j`, then the node handles it all. */
  lemma SendBoth(f: Formats, s: Shared, es: seq<Event>, m: Shared, i: nat, j: nat) returns (all: seq<Event>)
    requires After(f, s, es) == Some(m) && m.channel == [] && m.live == map[] && i != j && m.handlers.Keys == {i, j}
    requires m.handlers[i].Sending? && m.handlers[j].Sending?
    ensures After(f, s, all).Some? && Quiet(After(f, s, all).value)
    ensures var t := After(f, s, all).value;
            t.rows == m.rows && t.live == ApplyAll(map[], m.handlers[i].rest + m.handlers[j].rest)
  {
    hide After;
    var first, second := m.handlers[i].rest, m.handlers[j].rest;
    SendsLead(f, s, es, m, i, |first|);
    AllSent(m, i);
    var m1 := m.(channel := [] + first, handlers := m.handlers[i := Sending([])]);
    SendsLead(f, s, es + Sends(i, |first|), m1, j, |second|);
    AllSent(m1, j);
    var m2 := m1.(channel := m1.channel + second, handlers := m1.handlers[j := Sending([])]);
    HandlesLead(f, s, es + Sends(i, |first|) + Sends(j, |second|), m2);
    all := es + Sends(i, |first|) + Sends(j, |second|) + Handles(|m2.channel|);
    assert m2.channel == first + second;
  }

  /**
   Without that separation concurrent PUTs are decided by the order of their sends. A Guard, and a
   configuration that lets it in, are written in one order; depending on who sends first, the Guard
   ends up with both roles or with the client role only, and the stored rows are the same.
   */
  lemma OrderOfSendsDecides(f: Formats, a: ConfigRow, b: ConfigRow, p: PeerId, text: Text)
    returns (es1: seq<Event>, es2: seq<Event>)
    requires Acceptable(f, a) && Acceptable(f, b) && a.uuid != b.uuid
    requires f.parse(a.uuid) == Some(p) && text in b.allow && f.parse(text) == Some(p)
    requires forall t | t in a.allow :: f.parse(t) != Some(p)
    ensures var start := Shared([], map[], [], map[]);
            var t1, t2 := After(f, start, es1), After(f, start, es2);
            && t1.Some? && t2.Some? && Quiet(t1.value) && Quiet(t2.value)
            && t1.value.rows == t2.value.rows == [a, b]
            && Get(t1.value.live, p) == Some([ROLE_CLIENT])
            && Get(t2.value.live, p) == Some([ROLE_GUARD, ROLE_CLIENT])
  {
    GivesOwn(f.parse, a, p);
    GivesLetIn(f.parse, b, p, text);
    hide RolesForConfig, Acceptable, After, ApplyAll, Quiet, LastMention, Get;
    es1, es2 := BothOrders(f, a, b);
    LastSenderDecides(RolesForConfig(f.parse, a), RolesForConfig(f.parse, b), p);
    LastSenderDecides(RolesForConfig(f.parse, b), RolesForConfig(f.parse, a), p);
  }

  /** Two PUTs written in one order, their commands sent in either. */
  lemma BothOrders(f: Formats, a: ConfigRow, b: ConfigRow) returns (es1: seq<Event>, es2: seq<Event>)
    requires Acceptable(f, a) && Acceptable(f, b) && a.uuid != b.uuid
    ensures var start := Shared([], map[], [], map[]);
            var ma, mb := RolesForConfig(f.parse, a), RolesForConfig(f.parse, b);
            var t1, t2 := After(f, start, es1), After(f, start, es2);
            && t1.Some? && t2.Some? && Quiet(t1.value) && Quiet(t2.value)
            && t1.value.rows == t2.value.rows == [a, b]
            && t1.value.live == ApplyAll(map[], ma + mb) && t2.value.live == ApplyAll(map[], mb + ma)
  {
    hide RolesForConfig, Acceptable, After, ApplyAll, Quiet;
    var es, m := BothWritten(f, a, b);
    var start := Shared([], map[], [], map[]);
    es1 := SendBoth(f, start, es, m, 0, 1);
    es2 := SendBoth(f, start, es, m, 1, 0);
  }

  lemma LastSenderDecides(x: seq<Mention>, y: seq<Mention>, p: PeerId)
    requires LastMention(y, p).Some?
    ensures Get(ApplyAll(map[], x + y), p) == LastMention(y, p)
  {
    AppliedLast(map[], x + y, p);
    LastOfAppend(x, y, p);
  }
}
