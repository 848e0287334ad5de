/**
 The gateway's whitelist. It is kept live by the Allow commands of each stored configuration, and
 rebuilt from the stored rows at a restart; this compares the two.
 */
module Gateways {
  import opened Basics
  import opened Whitelists

  function Ascii(s: seq<byte>): Text
    requires forall i | 0 <= i < |s| :: s[i] <= 0x7F
  {
    AsciiIsUtf8(s);
    s
  }

  /** `gw-guard` and `gw-client`. */
  const ROLE_GUARD: Text := Ascii([0x67, 0x77, 0x2D, 0x67, 0x75, 0x61, 0x72, 0x64])
  const ROLE_CLIENT: Text := Ascii([0x67, 0x77, 0x2D, 0x63, 0x6C, 0x69, 0x65, 0x6E, 0x74])

  /** An expected binary: a peer and the hexadecimal text of its digest. */
  datatype CheckSum = CheckSum(peer: Text, sha256: Text)

  /** A configuration as it is sent and stored. */
  datatype ConfigRow = ConfigRow(
    uuid: Text, windowSecs: nat, exempt: seq<Text>, allow: seq<Text>, checkSums: seq<CheckSum>)

  /** How text is read as a peer identity; nothing is assumed of it. */
  type Parser = Text -> Option<PeerId>

  /** How the other texts of a configuration are read: IP addresses, and hexadecimal digests once trimmed. */
  datatype Formats = Formats(parse: Parser, isIp: Text -> bool, unhex: Text -> Option<seq<byte>>)

  /** One peer named by a configuration, with the roles it gets for it. */
  type Mention = (PeerId, Roles)

  function AllowMentions(parse: Parser, allow: seq<Text>): seq<Mention> {
    if allow == [] then []
    else
      var before := AllowMentions(parse, allow[..|allow| - 1]);
      match parse(allow[|allow| - 1])
      case Some(peer) => before + [(peer, [ROLE_CLIENT])]
      case None => before
  }

  /** The Guard itself, then every peer it lets in; what is not an identity is skipped. */
  function RolesForConfig(parse: Parser, row: ConfigRow): seq<Mention> {
    (match parse(row.uuid)
     case Some(peer) => [(peer, [ROLE_GUARD, ROLE_CLIENT])]
     case None => [])
    + AllowMentions(parse, row.allow)
  }

  function Mentions(parse: Parser, rows: seq<ConfigRow>): seq<Mention> {
    if rows == [] then []
    else Mentions(parse, rows[..|rows| - 1]) + RolesForConfig(parse, rows[|rows| - 1])
  }

  function ApplyAll(m: map<PeerId, Roles>, ms: seq<Mention>): map<PeerId, Roles> {
    if ms == [] then m
    else
      var last := ms[|ms| - 1];
      ApplyAll(m, ms[..|ms| - 1])[last.0 := last.1]
  }

  /** The whitelist rebuilt from the rows in the order they are loaded. */
  function Rebuilt(parse: Parser, rows: seq<ConfigRow>): map<PeerId, Roles> {
    ApplyAll(map[], Mentions(parse, rows))
  }

  function RowOf(rows: seq<ConfigRow>, uuid: Text): (i: nat)
    ensures i <= |rows| && (i < |rows| ==> rows[i].uuid == uuid)
  {
    if rows == [] || rows[0].uuid == uuid then 0 else 1 + RowOf(rows[1..], uuid)
  }

  function Upsert(rows: seq<ConfigRow>, row: ConfigRow): seq<ConfigRow> {
    var i := RowOf(rows, row.uuid);
    if i < |rows| then rows[i := row] else rows + [row]
  }

  /** The rows a table holds after some writes. */
  function StoredBy(rows: seq<ConfigRow>, writes: seq<ConfigRow>): seq<ConfigRow> {
    if writes == [] then rows
    else Upsert(StoredBy(rows, writes[..|writes| - 1]), writes[|writes| - 1])
  }

  /** The uuid is the primary key of the table. */
  ghost predicate UniqueUuids(rows: seq<ConfigRow>) {
    forall i, j | 0 <= i < j < |rows| :: rows[i].uuid != rows[j].uuid
  }

  /** `row` is the last of the rows with its uuid. */
  ghost predicate LastWithUuid(rows: seq<ConfigRow>, row: ConfigRow) {
    exists i :: 0 <= i < |rows| && rows[i] == row && forall j | i < j < |rows| :: rows[j].uuid != row.uuid
  }

  lemma RowOfFirst(rows: seq<ConfigRow>, uuid: Text)
    ensures RowOf(rows, uuid) == |rows| ==> forall x | x in rows :: x.uuid != uuid
  {
    hide ValidUtf8;
    if rows != [] && rows[0].uuid != uuid {
      RowOfFirst(rows[1..], uuid);
      assert rows == [rows[0]] + rows[1..];
    }
  }

  /** A write puts its row in the place of the one with its uuid, and leaves every other row where it is. */
  lemma UpsertExact(rows: seq<ConfigRow>, row: ConfigRow)
    requires UniqueUuids(rows)
    ensures var after := Upsert(rows, row);
            && UniqueUuids(after)
            && (forall x :: x in after <==> x == row || (x in rows && x.uuid != row.uuid))
            && |rows| <= |after| && forall i | 0 <= i < |rows| && rows[i].uuid != row.uuid :: after[i] == rows[i]
  {
    hide ValidUtf8;
    RowOfFirst(rows, row.uuid);
    var i, after := RowOf(rows, row.uuid), Upsert(rows, row);
    hide RowOf;
    if i < |rows| {
      assert after == rows[i := row] && after[i] == row;
      forall x | x in rows && x.uuid != row.uuid ensures x in after {
        var j :| 0 <= j < |rows| && rows[j] == x;
        assert after[j] == x;
      }
      forall x | x in after && x != row ensures x in rows && x.uuid != row.uuid {
        var j :| 0 <= j < |after| && after[j] == x;
        assert rows[j] == x && j != i;
      }
    } else {
      assert after == rows + [row];
    }
  }

  /**
   After any writes the table holds, for each uuid, the last row written for it, or else the row it
   held at the start, and nothing else.
   */
  lemma {:induction false} StoredLast(rows: seq<ConfigRow>, writes: seq<ConfigRow>)
    requires UniqueUuids(rows)
    ensures UniqueUuids(StoredBy(rows, writes))
    ensures forall x :: x in StoredBy(rows, writes) <==> LastWithUuid(rows + writes, x)
  {
    hide Upsert, ValidUtf8;
    if writes == [] {
      assert rows + writes == rows;
      forall x ensures x in rows <==> LastWithUuid(rows, x) {
        if x in rows {
          var i :| 0 <= i < |rows| && rows[i] == x;
          assert forall j | i < j < |rows| :: rows[j].uuid != x.uuid;
        }
      }
    } else {
      var front, last := writes[..|writes| - 1], writes[|writes| - 1];
      StoredLast(rows, front);
      UpsertExact(StoredBy(rows, front), last);
      assert rows + writes == rows + front + [last];
      forall x ensures LastWithUuid(rows + front + [last], x)
                       <==> x == last || (LastWithUuid(rows + front, x) && x.uuid != last.uuid) {
        LastOfMore(rows + front, last, x);
      }
    }
  }

  lemma LastOfMore(all: seq<ConfigRow>, last: ConfigRow, x: ConfigRow)
    ensures LastWithUuid(all + [last], x) <==> x == last || (LastWithUuid(all, x) && x.uuid != last.uuid)
  {
    hide ValidUtf8;
    var more := all + [last];
    if x == last {
      assert more[|all|] == last;
    }
    if LastWithUuid(all, x) && x.uuid != last.uuid {
      var i :| 0 <= i < |all| && all[i] == x && forall j | i < j < |all| :: all[j].uuid != x.uuid;
      assert more[i] == x && forall j | i < j < |more| :: more[j].uuid != x.uuid;
    }
    if LastWithUuid(more, x) && x != last {
      var i :| 0 <= i < |more| && more[i] == x && forall j | i < j < |more| :: more[j].uuid != x.uuid;
      assert more[|all|] == last && all[i] == x;
      assert forall j | i < j < |all| :: all[j] == more[j];
    }
  }

  /** What the body of a configuration must satisfy. */
  predicate WellFormed(f: Formats, row: ConfigRow) {
    && row.windowSecs != 0
    && (forall i | 0 <= i < |row.exempt| :: f.isIp(row.exempt[i]))
    && (forall i | 0 <= i < |row.allow| :: f.parse(row.allow[i]).Some?)
    && (forall i | 0 <= i < |row.checkSums| :: GoodCheckSum(f, row.checkSums[i]))
  }

  predicate GoodCheckSum(f: Formats, c: CheckSum) {
    f.parse(c.peer).Some? && f.unhex(c.sha256).Some? && |f.unhex(c.sha256).value| == 32
  }

  /** The checks a configuration passes before it is stored. */
  predicate Acceptable(f: Formats, row: ConfigRow) {
    f.parse(row.uuid).Some? && WellFormed(f, row)
  }

  /** The stored rows and the live whitelist after a start on `rows` and a sequence of PUTs. */
  function Served(f: Formats, rows: seq<ConfigRow>, puts: seq<ConfigRow>): (seq<ConfigRow>, map<PeerId, Roles>) {
    if puts == [] then (rows, Rebuilt(f.parse, rows))
    else
      var (stored, live) := Served(f, rows, puts[..|puts| - 1]);
      var row := puts[|puts| - 1];
      if Acceptable(f, row) then (Upsert(stored, row), ApplyAll(live, RolesForConfig(f.parse, row)))
      else (stored, live)
  }

  // ---- The last mention decides ------------------------------------------------------------------

  function LastMention(ms: seq<Mention>, p: PeerId): Option<Roles> {
    if ms == [] then None
    else if ms[|ms| - 1].0 == p then Some(ms[|ms| - 1].1)
    else LastMention(ms[..|ms| - 1], p)
  }

  function Get(m: map<PeerId, Roles>, p: PeerId): Option<Roles> {
    if p in m then Some(m[p]) else None
  }

  function OrElse(a: Option<Roles>, b: Option<Roles>): Option<Roles> {
    if a.Some? then a else b
  }

  lemma {:induction false} AppliedLast(m: map<PeerId, Roles>, ms: seq<Mention>, p: PeerId)
    ensures Get(ApplyAll(m, ms), p) == OrElse(LastMention(ms, p), Get(m, p))
  {
    if ms != [] {
      AppliedLast(m, ms[..|ms| - 1], p);
    }
  }

  lemma {:induction false} LastOfAppend(a: seq<Mention>, b: seq<Mention>, p: PeerId)
    ensures LastMention(a + b, p) == OrElse(LastMention(b, p), LastMention(a, p))
  {
    if b == [] {
      assert a + b == a;
    } else {
      LastOfAppend(a, b[..|b| - 1], p);
      assert (a + b)[..|a + b| - 1] == a + b[..|b| - 1];
    }
  }

  /** The roles one configuration gives to `p`. */
  function Gives(parse: Parser, row: ConfigRow, p: PeerId): Option<Roles> {
    LastMention(RolesForConfig(parse, row), p)
  }

  /** What the last row that names `p` gives it. */
  function LastGives(parse: Parser, rows: seq<ConfigRow>, p: PeerId): Option<Roles> {
    if rows == [] then None
    else OrElse(Gives(parse, rows[|rows| - 1], p), LastGives(parse, rows[..|rows| - 1], p))
  }

  lemma {:induction false} RebuiltLast(parse: Parser, rows: seq<ConfigRow>, p: PeerId)
    ensures Get(Rebuilt(parse, rows), p) == LastGives(parse, rows, p)
  {
    AppliedLast(map[], Mentions(parse, rows), p);
    MentionsLast(parse, rows, p);
  }

  lemma {:induction false} MentionsLast(parse: Parser, rows: seq<ConfigRow>, p: PeerId)
    ensures LastMention(Mentions(parse, rows), p) == LastGives(parse, rows, p)
  {
    if rows != [] {
      MentionsLast(parse, rows[..|rows| - 1], p);
      LastOfAppend(Mentions(parse, rows[..|rows| - 1]), RolesForConfig(parse, rows[|rows| - 1]), p);
    }
  }

  function Accepted(f: Formats, puts: seq<ConfigRow>): seq<ConfigRow> {
    if puts == [] then []
    else
      var last := puts[|puts| - 1];
      Accepted(f, puts[..|puts| - 1]) + if Acceptable(f, last) then [last] else []
  }

  /** Live, a peer has the roles of its last mention in the initial rows followed by the accepted PUTs. */
  lemma {:induction false} LiveLast(f: Formats, rows: seq<ConfigRow>, puts: seq<ConfigRow>, p: PeerId)
    ensures Get(Served(f, rows, puts).1, p) == LastGives(f.parse, rows + Accepted(f, puts), p)
  {
    hide RolesForConfig, Acceptable, Rebuilt, Upsert, LastMention;
    if puts == [] {
      RebuiltLast(f.parse, rows, p);
      assert rows + [] == rows;
    } else {
      var before, last := puts[..|puts| - 1], puts[|puts| - 1];
      LiveLast(f, rows, before, p);
      AppliedLast(Served(f, rows, before).1, RolesForConfig(f.parse, last), p);
      var all := rows + Accepted(f, puts);
      if Acceptable(f, last) {
        assert all[..|all| - 1] == rows + Accepted(f, before);
      } else {
        assert all == rows + Accepted(f, before);
      }
    }
  }

  lemma StoredOneMore(rows: seq<ConfigRow>, writes: seq<ConfigRow>, row: ConfigRow)
    ensures StoredBy(rows, writes + [row]) == Upsert(StoredBy(rows, writes), row)
  {
    hide Upsert;
    assert (writes + [row])[..|writes|] == writes;
  }

  lemma {:induction false} ServedRows(f: Formats, rows: seq<ConfigRow>, puts: seq<ConfigRow>)
    ensures Served(f, rows, puts).0 == StoredBy(rows, Accepted(f, puts))
  {
    hide RolesForConfig, Acceptable, Rebuilt, ApplyAll, Upsert;
    if puts != [] {
      var before, last := puts[..|puts| - 1], puts[|puts| - 1];
      ServedRows(f, rows, before);
      if Acceptable(f, last) {
        StoredOneMore(rows, Accepted(f, before), last);
      } else {
        assert Accepted(f, puts) == Accepted(f, before);
      }
    }
  }

  /**
   After a start and any PUTs, the stored row of a uuid is that of the last accepted PUT for it, or
   else that of the start; there is one row for each uuid, and no other.
   */
  lemma {:induction false} StoredExact(f: Formats, rows: seq<ConfigRow>, puts: seq<ConfigRow>)
    requires UniqueUuids(rows)
    ensures UniqueUuids(Served(f, rows, puts).0)
    ensures forall x :: x in Served(f, rows, puts).0 <==> LastWithUuid(rows + Accepted(f, puts), x)
  {
    hide Served, Accepted, StoredBy;
    ServedRows(f, rows, puts);
    StoredLast(rows, Accepted(f, puts));
  }

  // ---- Which rows name a peer ------------------------------------------------------------------

  lemma {:induction false} GivenBySomeRow(parse: Parser, rows: seq<ConfigRow>, p: PeerId)
    ensures LastGives(parse, rows, p).Some? <==> exists row :: row in rows && Gives(parse, row, p).Some?
    ensures LastGives(parse, rows, p).Some? ==>
              exists row :: row in rows && Gives(parse, row, p) == LastGives(parse, rows, p)
  {
    if rows != [] {
      var front, last := rows[..|rows| - 1], rows[|rows| - 1];
      GivenBySomeRow(parse, front, p);
      assert rows == front + [last];
      assert last in rows && forall row | row in front :: row in rows;
    }
  }

  /** `a` has the rows of `b` in some order. */
  ghost predicate Reordered(a: seq<ConfigRow>, b: seq<ConfigRow>) {
    multiset(a) == multiset(b)
  }

  lemma ReorderedMembers(a: seq<ConfigRow>, b: seq<ConfigRow>)
    requires Reordered(a, b)
    ensures forall row :: row in a <==> row in b
  {
    forall row ensures row in a <==> row in b {
      assert row in a <==> row in multiset(a);
      assert row in b <==> row in multiset(b);
    }
  }

  lemma MoveLast(rows: seq<ConfigRow>, row: ConfigRow) returns (moved: seq<ConfigRow>)
    requires row in rows
    ensures Reordered(moved, rows) && moved != [] && moved[|moved| - 1] == row
  {
    var i :| 0 <= i < |rows| && rows[i] == row;
    moved := rows[..i] + rows[i + 1..] + [row];
    assert rows == rows[..i] + [row] + rows[i + 1..];
  }

  /**
   A restart gives `p` exactly the roles it has live, in whatever order the rows are loaded, if and
   only if every stored row that names `p` gives it those roles.
   */
  lemma AgreementExact(parse: Parser, rows: seq<ConfigRow>, live: map<PeerId, Roles>, p: PeerId)
    requires LastGives(parse, rows, p).Some?
    ensures (forall loaded | Reordered(loaded, rows) :: Get(Rebuilt(parse, loaded), p) == Get(live, p)) <==>
            (forall row | row in rows && Gives(parse, row, p).Some? :: Gives(parse, row, p) == Get(live, p))
  {
    if forall row | row in rows && Gives(parse, row, p).Some? :: Gives(parse, row, p) == Get(live, p) {
      forall loaded | Reordered(loaded, rows) ensures Get(Rebuilt(parse, loaded), p) == Get(live, p) {
        ReorderedMembers(loaded, rows);
        RebuiltLast(parse, loaded, p);
        GivenBySomeRow(parse, rows, p);
        GivenBySomeRow(parse, loaded, p);
      }
    }
    if forall loaded | Reordered(loaded, rows) :: Get(Rebuilt(parse, loaded), p) == Get(live, p) {
      forall row | row in rows && Gives(parse, row, p).Some? ensures Gives(parse, row, p) == Get(live, p) {
        var loaded := MoveLast(rows, row);
        assert Reordered(loaded, rows);
        RebuiltLast(parse, loaded, p);
      }
    }
  }

  // ---- When no peer is both a Guard and a client -----------------------------------------------------

  /** `p` is the identity of a configured Guard. */
  ghost predicate IsGuard(parse: Parser, rows: seq<ConfigRow>, p: PeerId) {
    exists row :: row in rows && parse(row.uuid) == Some(p)
  }

  /** `p` is let in by some configuration. */
  ghost predicate IsClient(parse: Parser, rows: seq<ConfigRow>, p: PeerId) {
    exists row, text :: row in rows && text in row.allow && parse(text) == Some(p)
  }

  ghost predicate Separated(parse: Parser, rows: seq<ConfigRow>) {
    forall p :: !(IsGuard(parse, rows, p) && IsClient(parse, rows, p))
  }

  lemma {:induction false} AllowGives(parse: Parser, allow: seq<Text>, p: PeerId)
    ensures LastMention(AllowMentions(parse, allow), p)
            == if exists text :: text in allow && parse(text) == Some(p) then Some([ROLE_CLIENT]) else None
  {
    if allow != [] {
      var front, last := allow[..|allow| - 1], allow[|allow| - 1];
      AllowGives(parse, front, p);
      assert allow == front + [last];
      var before := AllowMentions(parse, front);
      match parse(last)
      case Some(peer) => assert (before + [(peer, [ROLE_CLIENT])])[..|before|] == before;
      case None =>
    }
  }

  /** One configuration gives a peer it lets in the client role, and otherwise its Guard both roles. */
  lemma GivesExact(parse: Parser, row: ConfigRow, p: PeerId)
    ensures Gives(parse, row, p)
            == if exists text :: text in row.allow && parse(text) == Some(p) then Some([ROLE_CLIENT])
               else if parse(row.uuid) == Some(p) then Some([ROLE_GUARD, ROLE_CLIENT])
               else None
  {
    hide ValidUtf8;
    AllowGives(parse, row.allow, p);
    var own := match parse(row.uuid)
      case Some(peer) => [(peer, [ROLE_GUARD, ROLE_CLIENT])]
      case None => [];
    LastOfAppend(own, AllowMentions(parse, row.allow), p);
    assert own != [] ==> own[..0] == [];
  }

  /** The octets of the two role names. */
  lemma RoleNames()
    ensures |ROLE_GUARD| == |"gw-guard"|
    ensures forall i | 0 <= i < |ROLE_GUARD| :: ROLE_GUARD[i] == "gw-guard"[i] as int
    ensures |ROLE_CLIENT| == |"gw-client"|
    ensures forall i | 0 <= i < |ROLE_CLIENT| :: ROLE_CLIENT[i] == "gw-client"[i] as int
  {
    hide ValidUtf8;
  }

  lemma {:induction false} GivesOwn(parse: Parser, row: ConfigRow, p: PeerId)
    requires parse(row.uuid) == Some(p) && forall t | t in row.allow :: parse(t) != Some(p)
    ensures Gives(parse, row, p) == Some([ROLE_GUARD, ROLE_CLIENT])
  {
    GivesExact(parse, row, p);
  }

  lemma {:induction false} GivesLetIn(parse: Parser, row: ConfigRow, p: PeerId, text: Text)
    requires text in row.allow && parse(text) == Some(p)
    ensures Gives(parse, row, p) == Some([ROLE_CLIENT])
  {
    GivesExact(parse, row, p);
  }

  lemma SeparatedGives(parse: Parser, all: seq<ConfigRow>, r1: ConfigRow, r2: ConfigRow, p: PeerId)
    requires Separated(parse, all) && r1 in all && r2 in all
    requires Gives(parse, r1, p).Some? && Gives(parse, r2, p).Some?
    ensures Gives(parse, r1, p) == Gives(parse, r2, p)
  {
    GivesExact(parse, r1, p);
    GivesExact(parse, r2, p);
    assert !(IsGuard(parse, all, p) && IsClient(parse, all, p));
  }

  lemma {:induction false} StoredAreKnown(f: Formats, rows: seq<ConfigRow>, puts: seq<ConfigRow>, row: ConfigRow)
    requires row in Served(f, rows, puts).0
    ensures row in rows + Accepted(f, puts)
  {
    hide RolesForConfig, Acceptable, Rebuilt, ApplyAll;
    if puts != [] {
      var before, last := puts[..|puts| - 1], puts[|puts| - 1];
      var stored := Served(f, rows, before).0;
      if row in stored {
        StoredAreKnown(f, rows, before, row);
      } else {
        assert row == last;
      }
    }
  }

  /**
   Suppose no peer is ever both a Guard and let in by one. Then after any start and any PUTs, and
   in whatever order a restart loads the rows, every peer of the rebuilt whitelist has the same
   roles live; and the two whitelists are equal if and only if every peer served live is still
   named by a stored row.
   */
  lemma LiveAgreesWithRebuilt(f: Formats, rows: seq<ConfigRow>, puts: seq<ConfigRow>, loaded: seq<ConfigRow>)
    requires Separated(f.parse, rows + Accepted(f, puts))
    requires Reordered(loaded, Served(f, rows, puts).0)
    ensures var (stored, live) := Served(f, rows, puts);
            var rebuilt := Rebuilt(f.parse, loaded);
            && (forall p | p in rebuilt :: p in live && live[p] == rebuilt[p])
            && (live == rebuilt <==>
                  forall p | p in live :: exists row :: row in stored && Gives(f.parse, row, p).Some?)
  {
    hide Served, Accepted, Rebuilt, Gives, LastGives;
    var (stored, live) := Served(f, rows, puts);
    var all, rebuilt := rows + Accepted(f, puts), Rebuilt(f.parse, loaded);
    ReorderedMembers(loaded, stored);
    forall p
      ensures p in rebuilt ==> p in live && live[p] == rebuilt[p]
      ensures p in rebuilt <==> exists row :: row in stored && Gives(f.parse, row, p).Some?
    {
      RebuiltLast(f.parse, loaded, p);
      GivenBySomeRow(f.parse, loaded, p);
      assert p in rebuilt <==> Get(rebuilt, p).Some?;
      if p in rebuilt {
        var row :| row in loaded && Gives(f.parse, row, p) == LastGives(f.parse, loaded, p);
        StoredAreKnown(f, rows, puts, row);
        LiveLast(f, rows, puts, p);
        GivenBySomeRow(f.parse, all, p);
        var known :| known in all && Gives(f.parse, known, p) == LastGives(f.parse, all, p);
        SeparatedGives(f.parse, all, row, known, p);
      }
    }
  }

  lemma {:induction false} TwoPuts(f: Formats, a: ConfigRow, b: ConfigRow)
    requires Acceptable(f, a) && Acceptable(f, b) && a.uuid != b.uuid
    ensures Served(f, [], [a, b]).0 == [a, b] && Accepted(f, [a, b]) == [a, b]
  {
    hide RolesForConfig, ApplyAll, Rebuilt, Acceptable;
    var puts := [a, b];
    assert puts[..1] == [a] && [a][..0] == [];
    assert Served(f, [], [a]).0 == [a] && Accepted(f, [a]) == [a];
    assert RowOf([a], b.uuid) == 1;
  }

  lemma LastOfTwo(parse: Parser, a: ConfigRow, b: ConfigRow, p: PeerId)
    ensures LastGives(parse, [a, b], p) == OrElse(Gives(parse, b, p), Gives(parse, a, p))
  {
    hide Gives;
    assert [a, b][..1] == [a] && [a][..0] == [];
    assert LastGives(parse, [a], p) == OrElse(Gives(parse, a, p), None);
  }

  lemma SwapReordered(a: ConfigRow, b: ConfigRow)
    ensures Reordered([b, a], [a, b])
  {
    assert [b, a] == [b] + [a] && [a, b] == [a] + [b];
  }

  /** A Guard let in by another: live it keeps the client role only, and a restart may give it back the Guard role. */
  lemma {:induction false} SharedPeerDisagrees(f: Formats, a: ConfigRow, b: ConfigRow, p: PeerId, text: Text)
    requires Acceptable(f, a) && Acceptable(f, b) && a.uuid != b.uuid
    requires f.parse(a.uuid) == Some(p) && text in b.allow && f.parse(text) == Some(p)
    requires forall t | t in a.allow :: f.parse(t) != Some(p)
    ensures var (stored, live) := Served(f, [], [a, b]);
            && Reordered([b, a], stored)
            && Get(live, p) == Some([ROLE_CLIENT])
            && Get(Rebuilt(f.parse, [b, a]), p) == Some([ROLE_GUARD, ROLE_CLIENT])
  {
    GivesOwn(f.parse, a, p);
    GivesLetIn(f.parse, b, p, text);
    hide Gives, LastGives, Served, Accepted, Rebuilt, Acceptable, Reordered;
    TwoPuts(f, a, b);
    LiveLast(f, [], [a, b], p);
    assert [] + [a, b] == [a, b];
    SwapReordered(a, b);
    LastOfTwo(f.parse, a, b, p);
    LastOfTwo(f.parse, b, a, p);
    RebuiltLast(f.parse, [b, a], p);
  }

  // ---- The objects -----------------------------------------------------------------------------

  method CollectRoles(parse: Parser, row: ConfigRow) returns (out: seq<Mention>)
    ensures out == RolesForConfig(parse, row)
  {
    hide ValidUtf8;
    out := [];
    var own := parse(row.uuid);
    if own.Some? {
      out := out + [(own.value, [ROLE_GUARD, ROLE_CLIENT])];
    }
    ghost var head := out;
    for i := 0 to |row.allow|
      invariant out == head + AllowMentions(parse, row.allow[..i])
    {
      assert row.allow[..i + 1][..i] == row.allow[..i];
      var peer := parse(row.allow[i]);
      if peer.Some? {
        out := out + [(peer.value, [ROLE_CLIENT])];
      }
    }
    assert row.allow[..|row.allow|] == row.allow;
  }

  method ValidateInput(f: Formats, row: ConfigRow) returns (ok: bool)
    ensures ok <==>
            && row.windowSecs >= 1
            && (forall ip | ip in row.exempt :: f.isIp(ip))
            && (forall peer | peer in row.allow :: f.parse(peer).Some?)
            && (forall c | c in row.checkSums ::
                  f.parse(c.peer).Some? && f.unhex(c.sha256).Some? && |f.unhex(c.sha256).value| == 32)
    ensures ok <==> WellFormed(f, row)
  {
    hide ValidUtf8;
    if row.windowSecs == 0 {
      return false;
    }
    for i := 0 to |row.exempt|
      invariant forall j | 0 <= j < i :: f.isIp(row.exempt[j])
    {
      if !f.isIp(row.exempt[i]) {
        return false;
      }
    }
    for i := 0 to |row.allow|
      invariant forall j | 0 <= j < i :: f.parse(row.allow[j]).Some?
    {
      if f.parse(row.allow[i]).None? {
        return false;
      }
    }
    for i := 0 to |row.checkSums|
      invariant forall j | 0 <= j < i :: GoodCheckSum(f, row.checkSums[j])
    {
      var entry := row.checkSums[i];
      if f.parse(entry.peer).None? {
        return false;
      }
      var bytes := f.unhex(entry.sha256);
      if bytes.None? || |bytes.value| != 32 {
        return false;
      }
    }
    ok := true;
  }

  lemma {:induction false} ApplyAppend(m: map<PeerId, Roles>, a: seq<Mention>, b: seq<Mention>)
    ensures ApplyAll(m, a + b) == ApplyAll(ApplyAll(m, a), b)
  {
    if b == [] {
      assert a + b == a;
    } else {
      ApplyAppend(m, a, b[..|b| - 1]);
      assert (a + b)[..|a + b| - 1] == a + b[..|b| - 1];
    }
  }

  /** The inner loop of the rebuild: one Allow for each mention, in order. */
  method AllowAll(whitelist: Whitelist, mentions: seq<Mention>)
    requires whitelist.Valid()
    modifies whitelist
    ensures whitelist.Valid() && whitelist.AsMap() == ApplyAll(old(whitelist.AsMap()), mentions)
  {
    hide ValidUtf8;
    for j := 0 to |mentions|
      invariant whitelist.Valid() && whitelist.AsMap() == ApplyAll(old(whitelist.AsMap()), mentions[..j])
    {
      assert mentions[..j + 1][..j] == mentions[..j];
      whitelist.Allow(mentions[j].0, mentions[j].1);
    }
    assert mentions[..|mentions|] == mentions;
  }

  method RebuildWhitelist(parse: Parser, rows: seq<ConfigRow>) returns (whitelist: Whitelist)
    ensures fresh(whitelist) && whitelist.Valid() && whitelist.AsMap() == Rebuilt(parse, rows)
  {
    hide RolesForConfig, ValidUtf8;
    whitelist := new Whitelist();
    for i := 0 to |rows|
      invariant fresh(whitelist) && whitelist.Valid()
      invariant whitelist.AsMap() == Rebuilt(parse, rows[..i])
    {
      var mentions := CollectRoles(parse, rows[i]);
      assert rows[..i + 1][..i] == rows[..i];
      ApplyAppend(map[], Mentions(parse, rows[..i]), mentions);
      AllowAll(whitelist, mentions);
    }
    assert rows[..|rows|] == rows;
  }

  lemma ServedNext(f: Formats, rows: seq<ConfigRow>, puts: seq<ConfigRow>, row: ConfigRow)
    ensures var (stored, live) := Served(f, rows, puts);
            Served(f, rows, puts + [row]) ==
              if Acceptable(f, row) then (Upsert(stored, row), ApplyAll(live, RolesForConfig(f.parse, row)))
              else (stored, live)
  {
    hide Acceptable, Upsert, ApplyAll, RolesForConfig, Rebuilt;
    assert (puts + [row])[..|puts|] == puts;
  }

  /** The first mention can be applied first. */
  lemma ApplyFirst(m: map<PeerId, Roles>, ms: seq<Mention>)
    requires ms != []
    ensures ApplyAll(m, ms) == ApplyAll(m[ms[0].0 := ms[0].1], ms[1..])
  {
    ApplyAppend(m, ms[..1], ms[1..]);
    assert ms == ms[..1] + ms[1..] && ms[..1][..0] == [];
  }

  datatype PutResult = Saved | BadRequest | Internal

  /**
   The gateway: its rows, its control channel to the embedded node, and that node's whitelist.
   PUTs and the node's handling of commands alternate in any order. The rows are always those of
   the PUTs that reached the database; while the node runs, so is what its whitelist will be once
   the channel is empty.
   */
  class Gateway {
    const formats: Formats
    const live: Whitelist
    var rows: seq<ConfigRow>
    var channel: seq<Mention>
    var connected: bool
    ghost const start: seq<ConfigRow>
    ghost var puts: seq<ConfigRow>

    ghost predicate Valid()
      reads this, live
    {
      && live.Valid() && UniqueUuids(start)
      && rows == Served(formats, start, puts).0
      && (connected ==> ApplyAll(live.AsMap(), channel) == Served(formats, start, puts).1)
    }

    constructor (formats: Formats, rows: seq<ConfigRow>)
      requires UniqueUuids(rows)
      ensures Valid() && fresh(live) && this.formats == formats && channel == [] && connected
      ensures start == rows && puts == []
    {
      var whitelist := RebuildWhitelist(formats.parse, rows);
      this.formats := formats;
      this.rows := rows;
      live := whitelist;
      channel := [];
      connected := true;
      start := rows;
      puts := [];
    }

    /**
     Validates, stores the row, then sends one Allow for each peer it names. `written` is false when
     the database fails. A send to a node that has stopped is logged and the request still succeeds.
     */
    method PutConfig(row: ConfigRow, written: bool) returns (result: PutResult)
      requires Valid()
      modifies this`rows, this`channel, this`puts
      ensures Valid() && puts == old(puts) + if result.Saved? then [row] else []
      ensures result == if !Acceptable(formats, row) then BadRequest else if written then Saved else Internal
      ensures result.Saved? ==> row in rows && forall x | x in rows && x.uuid == row.uuid :: x == row
      ensures result.Saved? ==> forall x: ConfigRow | x.uuid != row.uuid :: x in rows <==> x in old(rows)
      ensures !result.Saved? ==> rows == old(rows)
      ensures UniqueUuids(rows)
      ensures channel == old(channel)
                         + if result.Saved? && connected then RolesForConfig(formats.parse, row) else []
    {
      hide ValidUtf8, WellFormed, RolesForConfig, Served, ApplyAll, Upsert, UniqueUuids;
      StoredExact(formats, start, puts);
      if formats.parse(row.uuid).None? {
        return BadRequest;
      }
      var ok := ValidateInput(formats, row);
      if !ok {
        return BadRequest;
      }
      if !written {
        return Internal;
      }
      ServedNext(formats, start, puts, row);
      puts := puts + [row];
      StoreRow(row);
      var mentions := CollectRoles(formats.parse, row);
      for j := 0 to |mentions|
        invariant rows == Upsert(old(rows), row) && puts == old(puts) + [row]
        invariant channel == old(channel) + if connected then mentions[..j] else []
      {
        if connected {
          channel := channel + [mentions[j]];
        }
      }
      assert mentions[..|mentions|] == mentions;
      ApplyAppend(live.AsMap(), old(channel), mentions);
      UpsertExact(old(rows), row);
      result := Saved;
    }

    /** The row of the same uuid is replaced, or the new one appended. */
    method StoreRow(row: ConfigRow)
      requires UniqueUuids(rows)
      modifies this`rows
      ensures rows == Upsert(old(rows), row)
      ensures UniqueUuids(rows) && row in rows && forall x | x in rows && x.uuid == row.uuid :: x == row
      ensures forall x: ConfigRow | x.uuid != row.uuid :: x in rows <==> x in old(rows)
    {
      hide ValidUtf8;
      UpsertExact(rows, row);
      var i := 0;
      while i < |rows| && rows[i].uuid != row.uuid
        invariant i <= |rows| && rows == old(rows)
        invariant RowOf(rows, row.uuid) == i + RowOf(rows[i..], row.uuid)
      {
        assert rows[i..][1..] == rows[i + 1..];
        i := i + 1;
      }
      rows := if i < |rows| then rows[i := row] else rows + [row];
    }

    /** The node handles the next command. */
    method Deliver()
      requires Valid() && connected && channel != []
      modifies this`channel, live
      ensures Valid() && channel == old(channel)[1..]
      ensures live.AsMap() == old(live.AsMap())[old(channel)[0].0 := old(channel)[0].1]
    {
      hide Served, ApplyAll;
      ApplyFirst(live.AsMap(), channel);
      live.Allow(channel[0].0, channel[0].1);
      channel := channel[1..];
    }

    /** The node stops: what was sent and not handled is lost. */
    method Disconnect()
      requires Valid()
      modifies this`connected, this`channel
      ensures Valid() && !connected && channel == []
    {
      connected := false;
      channel := [];
    }

    /** Once every command is handled, the live whitelist is that of the PUTs received. */
    method Drain()
      requires Valid() && connected
      modifies this`channel, live
      ensures Valid() && channel == [] && live.AsMap() == Served(formats, start, puts).1
    {
      hide Served;
      while channel != []
        invariant Valid()
        decreases |channel|
      {
        Deliver();
      }
    }
  }
}
