/** The vector of authorised peers, and the finite map it stands for. */
module Whitelists {
  import opened Basics

  type Entry = (PeerId, Roles)

  ghost predicate Distinct(es: seq<Entry>) {
    forall i, j | 0 <= i < j < |es| :: es[i].0 != es[j].0
  }

  /** The map a vector stands for; were a peer listed twice, its last entry would count. */
  function MapOf(es: seq<Entry>): map<PeerId, Roles> {
    if es == [] then map[]
    else
      var last := es[|es| - 1];
      MapOf(es[..|es| - 1])[last.0 := last.1]
  }

  /** The position of the first entry of `peer`, or the length when there is none. */
  function IndexOf(es: seq<Entry>, peer: PeerId): (i: nat)
    ensures i <= |es|
    ensures forall j | 0 <= j < i :: es[j].0 != peer
    ensures i < |es| ==> es[i].0 == peer
  {
    if es == [] || es[0].0 == peer then 0 else 1 + IndexOf(es[1..], peer)
  }

  /** Replaces the roles of the first entry of `peer`, or appends one. */
  function AllowEntries(es: seq<Entry>, peer: PeerId, roles: Roles): seq<Entry> {
    var i := IndexOf(es, peer);
    if i < |es| then es[i := (peer, roles)] else es + [(peer, roles)]
  }

  /** Keeps the entries of the other peers, in their order. */
  function RevokeEntries(es: seq<Entry>, peer: PeerId): seq<Entry> {
    if es == [] then []
    else
      var last := es[|es| - 1];
      RevokeEntries(es[..|es| - 1], peer) + if last.0 == peer then [] else [last]
  }

  /** A vector of distinct peers has exactly the bindings of its map. */
  lemma {:induction false} MapOfDistinct(es: seq<Entry>)
    requires Distinct(es)
    ensures forall p, r :: p in MapOf(es) && MapOf(es)[p] == r <==> (p, r) in es
  {
    if es != [] {
      var front, last := es[..|es| - 1], es[|es| - 1];
      MapOfDistinct(front);
      assert es == front + [last];
      assert forall e | e in front :: e.0 != last.0;
    }
  }

  /** Distinctness fixes the map: two such vectors with the bindings of a map stand for it. */
  lemma MapFromBindings(es: seq<Entry>, m: map<PeerId, Roles>)
    requires Distinct(es)
    requires forall p, r :: p in m && m[p] == r <==> (p, r) in es
    ensures MapOf(es) == m
  {
    MapOfDistinct(es);
    var n := MapOf(es);
    forall p ensures p in m <==> p in n {
      if p in m { assert (p, m[p]) in es; }
      if p in n { assert (p, n[p]) in es; }
    }
    forall p | p in m ensures m[p] == n[p] {
      assert (p, m[p]) in es;
    }
  }

  lemma AllowRefines(es: seq<Entry>, peer: PeerId, roles: Roles)
    requires Distinct(es)
    ensures Distinct(AllowEntries(es, peer, roles))
    ensures MapOf(AllowEntries(es, peer, roles)) == MapOf(es)[peer := roles]
  {
    MapOfDistinct(es);
    var out, m := AllowEntries(es, peer, roles), MapOf(es)[peer := roles];
    forall p, r ensures p in m && m[p] == r <==> (p, r) in out {
      AllowMember(es, peer, roles, p, r);
    }
    MapFromBindings(out, m);
  }

  lemma AllowMember(es: seq<Entry>, peer: PeerId, roles: Roles, p: PeerId, r: Roles)
    requires Distinct(es)
    ensures (p, r) in AllowEntries(es, peer, roles) <==> if p == peer then r == roles else (p, r) in es
  {
    var i, out := IndexOf(es, peer), AllowEntries(es, peer, roles);
    assert out[i] == (peer, roles);
    if (p, r) in es && p != peer {
      var j :| 0 <= j < |es| && es[j] == (p, r);
      assert out[j] == es[j];
    }
    if (p, r) in out && p != peer {
      var j :| 0 <= j < |out| && out[j] == (p, r);
      assert j != i && out[j] == es[j];
    }
    if (p, r) in out && p == peer {
      var j :| 0 <= j < |out| && out[j] == (p, r);
      assert j == i;
    }
  }

  lemma {:induction false} RevokeRefines(es: seq<Entry>, peer: PeerId)
    requires Distinct(es)
    ensures Distinct(RevokeEntries(es, peer))
    ensures MapOf(RevokeEntries(es, peer)) == MapOf(es) - {peer}
  {
    RevokeMembers(es, peer);
    MapOfDistinct(es);
    MapFromBindings(RevokeEntries(es, peer), MapOf(es) - {peer});
  }

  lemma {:induction false} RevokeMembers(es: seq<Entry>, peer: PeerId)
    requires Distinct(es)
    ensures Distinct(RevokeEntries(es, peer))
    ensures forall e :: e in RevokeEntries(es, peer) <==> e in es && e.0 != peer
  {
    if es != [] {
      var front, last := es[..|es| - 1], es[|es| - 1];
      RevokeMembers(front, peer);
      assert es == front + [last];
      assert forall e | e in front :: e.0 != last.0;
      var kept := RevokeEntries(front, peer);
      assert forall i | 0 <= i < |kept| :: kept[i] in kept;
    }
  }

  // ---- Any sequence of operations ------------------------------------------------------------

  datatype Op = Put(peer: PeerId, roles: Roles) | Remove(peer: PeerId)

  function RunEntries(ops: seq<Op>): seq<Entry> {
    if ops == [] then []
    else
      var before := RunEntries(ops[..|ops| - 1]);
      match ops[|ops| - 1]
      case Put(peer, roles) => AllowEntries(before, peer, roles)
      case Remove(peer) => RevokeEntries(before, peer)
  }

  function RunMap(ops: seq<Op>): map<PeerId, Roles> {
    if ops == [] then map[]
    else
      var before := RunMap(ops[..|ops| - 1]);
      match ops[|ops| - 1]
      case Put(peer, roles) => before[peer := roles]
      case Remove(peer) => before - {peer}
  }

  /** After any operations the vector lists each peer once and is the map the operations describe. */
  lemma {:induction false} VectorRefinesMap(ops: seq<Op>)
    ensures Distinct(RunEntries(ops))
    ensures MapOf(RunEntries(ops)) == RunMap(ops)
    ensures |RunEntries(ops)| == |RunMap(ops)|
  {
    if ops != [] {
      VectorRefinesMap(ops[..|ops| - 1]);
      var before := RunEntries(ops[..|ops| - 1]);
      match ops[|ops| - 1]
      case Put(peer, roles) => AllowRefines(before, peer, roles);
      case Remove(peer) => RevokeRefines(before, peer);
    }
    DistinctSize(RunEntries(ops));
  }

  lemma {:induction false} DistinctSize(es: seq<Entry>)
    requires Distinct(es)
    ensures |MapOf(es)| == |es|
  {
    if es != [] {
      var front, last := es[..|es| - 1], es[|es| - 1];
      DistinctSize(front);
      MapOfDistinct(front);
      assert forall e | e in front :: e.0 != last.0;
      forall p | p in MapOf(front) ensures p != last.0 {
        assert (p, MapOf(front)[p]) in front;
      }
    }
  }

  // ---- The object ------------------------------------------------------------------------------

  class Whitelist {
    var entries: seq<Entry>

    ghost predicate Valid()
      reads this
    {
      Distinct(entries)
    }

    ghost function AsMap(): map<PeerId, Roles>
      reads this
    {
      MapOf(entries)
    }

    constructor ()
      ensures Valid() && AsMap() == map[]
    {
      entries := [];
    }

    /** Authorises `peer` with exactly `roles`, in place when it was listed already. */
    method Allow(peer: PeerId, roles: Roles)
      requires Valid()
      modifies this
      ensures Valid() && AsMap() == old(AsMap())[peer := roles]
      ensures entries == AllowEntries(old(entries), peer, roles)
    {
      AllowRefines(entries, peer, roles);
      var i := 0;
      while i < |entries| && entries[i].0 != peer
        invariant 0 <= i <= |entries|
        invariant forall j | 0 <= j < i :: entries[j].0 != peer
      {
        i := i + 1;
      }
      if i < |entries| {
        entries := entries[i := (peer, roles)];
      } else {
        entries := entries + [(peer, roles)];
      }
    }

    /** Removes `peer`, keeping the other entries in order. */
    method Revoke(peer: PeerId)
      requires Valid()
      modifies this
      ensures Valid() && AsMap() == old(AsMap()) - {peer}
      ensures entries == RevokeEntries(old(entries), peer)
    {
      RevokeRefines(entries, peer);
      var kept: seq<Entry> := [];
      for i := 0 to |entries|
        invariant kept == RevokeEntries(entries[..i], peer)
      {
        assert entries[..i + 1][..i] == entries[..i];
        if entries[i].0 != peer {
          kept := kept + [entries[i]];
        }
      }
      assert entries[..|entries|] == entries;
      entries := kept;
    }

    /** Looks `peer` up by a full scan without early exit, keeping the last match. */
    method Lookup(peer: PeerId) returns (found: Option<Roles>)
      requires Valid()
      ensures found == if peer in AsMap() then Some(AsMap()[peer]) else None
    {
      var index: Option<nat> := None;
      for i := 0 to |entries|
        invariant index.None? ==> forall j | 0 <= j < i :: entries[j].0 != peer
        invariant index.Some? ==> index.value < i && entries[index.value].0 == peer
        invariant index.Some? ==> forall j | index.value < j < i :: entries[j].0 != peer
      {
        if entries[i].0 == peer {
          index := Some(i);
        }
      }
      MapOfDistinct(entries);
      match index {
        case None =>
          found := None;
          forall p | p in AsMap() ensures p != peer {
            assert (p, AsMap()[p]) in entries;
          }
        case Some(i) =>
          found := Some(entries[i].1);
          assert (peer, entries[i].1) in entries;
      }
    }
  }
}
