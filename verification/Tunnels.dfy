/** Opening a tunnel: the framed header, the registry of services, and the Guard's decision. */
module Tunnels {
  import opened Basics
  import opened Wire

  const MAX_TUNNEL_HEADER_SIZE: nat := 1024

  const TUNNEL_ACK: byte := 1

  datatype SocketAddr = SocketAddr(octets: seq<byte>, port: nat)

  datatype ExposedService = ExposedService(target: SocketAddr, requiredRole: Option<Text>)

  datatype Registry = Registry(
    services: map<Text, ExposedService>,
    maxStreamsPerPeer: nat,
    maxStreamsTotal: nat,
    attestedBinaries: map<PeerId, Digest>)

  datatype TunnelOutcome = Refused | Served(bytesFromPeer: nat, bytesToPeer: nat)

  // ---- Framing ---------------------------------------------------------------------------------

  /** A header on the wire: its length on two octets, most significant first, then its encoding. */
  function WriteHeader(h: TunnelHeader): Option<seq<byte>> {
    match Encode(HEADER_SCHEMA, h)
    case None => None
    case Some(bs) => if |bs| <= MAX_TUNNEL_HEADER_SIZE then Some(BigEndian(|bs|, 2) + bs) else None
  }

  /** The header at the front of `input`, if there is one, and the octets left unread. */
  function ReadHeader(input: seq<byte>): (r: (Option<TunnelHeader>, seq<byte>)) {
    if |input| < 2 then (None, [])
    else
      var len := FromBigEndian(input[..2]);
      if len > MAX_TUNNEL_HEADER_SIZE then (None, input[2..])
      else if |input| < 2 + len then (None, [])
      else (Decode(HEADER_SCHEMA, input[2..2 + len]), input[2 + len..])
  }

  lemma {:induction false} FrameRoundTrip(bs: seq<byte>, rest: seq<byte>)
    requires |bs| <= MAX_TUNNEL_HEADER_SIZE
    ensures ReadHeader(BigEndian(|bs|, 2) + bs + rest) == (Decode(HEADER_SCHEMA, bs), rest)
  {
    hide Decode, BigEndian, FromBigEndian, Bound;
    Widths();
    BigEndianRoundTrip(|bs|, 2);
    ThreeParts(BigEndian(|bs|, 2), bs, rest);
  }

  lemma ThreeParts(a: seq<byte>, b: seq<byte>, c: seq<byte>)
    ensures var s := a + b + c;
            s[..|a|] == a && s[|a|..|a| + |b|] == b && s[|a| + |b|..] == c
  {
  }

  /** Reading a written header returns it and leaves exactly what follows; only oversize is refused. */
  lemma HeaderRoundTrip(h: TunnelHeader, rest: seq<byte>)
    ensures WriteHeader(h).Some? <==> |WriteHeaderBody(h)| <= MAX_TUNNEL_HEADER_SIZE
    ensures WriteHeader(h).Some? ==> ReadHeader(WriteHeader(h).value + rest) == (Some(h), rest)
  {
    hide WriteHeaderBody, ParseHeaderBody, ReadHeader, BigEndian, Decode;
    SchemasLawful();
    EncodeThenDecode(HEADER_SCHEMA, h);
    if WriteHeader(h).Some? {
      FrameRoundTrip(Encode(HEADER_SCHEMA, h).value, rest);
    }
  }

  /** On any input the reader takes a bounded front, and what it accepts fits in a frame again. */
  lemma {:induction false} ReadHeaderBounded(input: seq<byte>)
    ensures var (h, rest) := ReadHeader(input);
            && |rest| <= |input| && rest == input[|input| - |rest|..]
            && |input| - |rest| <= 2 + MAX_TUNNEL_HEADER_SIZE
            && (h.Some? ==> WriteHeader(h.value).Some? && |WriteHeader(h.value).value| + |rest| <= |input|)
  {
    hide WriteHeaderBody, ParseHeaderBody;
    SchemasLawful();
    var (h, rest) := ReadHeader(input);
    if h.Some? {
      var len := FromBigEndian(input[..2]);
      DecodeThenEncode(HEADER_SCHEMA, input[2..2 + len]);
    }
  }

  /** The frame octet for octet: the length, most significant octet first, then the header; 1024 octets at most. */
  lemma FrameOctets(h: TunnelHeader)
    ensures var body := WriteHeaderBody(h);
            WriteHeader(h) == if |body| <= 1024 then Some([|body| / 256, |body| % 256] + body) else None
  {
    hide WriteHeaderBody, ParseHeaderBody;
    var n := |WriteHeaderBody(h)|;
    if n <= 1024 {
      assert BigEndian(n, 2) == BigEndian(n / 256, 1) + [n % 256];
      assert BigEndian(n / 256, 1) == BigEndian(n / 256 / 256, 0) + [n / 256 % 256];
      assert BigEndian(n / 256 / 256, 0) == [] && BigEndian(n, 2) == [n / 256, n % 256];
    }
  }

  /** A header cut short is no header: whatever arrives of a broken opening is refused. */
  lemma CutShort(h: TunnelHeader, n: nat)
    requires WriteHeader(h).Some? && n < |WriteHeader(h).value|
    ensures ReadHeader(WriteHeader(h).value[..n]) == (None, [])
  {
    hide Encode, Decode, BigEndian, FromBigEndian, Bound;
    var bs := Encode(HEADER_SCHEMA, h).value;
    Widths();
    BigEndianRoundTrip(|bs|, 2);
    var input := WriteHeader(h).value[..n];
    if n >= 2 {
      assert input[..2] == BigEndian(|bs|, 2);
    }
  }

  // ---- Authorisation ---------------------------------------------------------------------------

  predicate RoleGranted(granted: Roles, required: Option<Text>) {
    required.Some? ==> required.value in granted
  }

  /** The role check of the source: a full scan without early exit. */
  method CheckRole(granted: Roles, required: Option<Text>) returns (authorized: bool)
    ensures authorized <==> required.None? || required.value in granted
  {
    match required {
      case None => authorized := true;
      case Some(role) =>
        authorized := false;
        for i := 0 to |granted|
          invariant authorized <==> role in granted[..i]
        {
          if granted[i] == role {
            authorized := true;
          }
        }
        assert granted[..|granted|] == granted;
    }
  }

  /** The peer may open the service its header names. */
  predicate Authorized(registry: Registry, peer: PeerId, roles: Roles, h: TunnelHeader) {
    && h.service in registry.services
    && RoleGranted(roles, registry.services[h.service].requiredRole)
    && (peer in registry.attestedBinaries ==> registry.attestedBinaries[peer] == h.binarySha256)
  }

  /**
   What the environment decides while a stream is opened: the octets the peer sent before the
   deadline (`None` when no header came in time), the reachable local addresses, and whether
   writing and flushing the acknowledgement succeed.
   */
  datatype Attempt = Attempt(
    input: Option<seq<byte>>, reachable: set<SocketAddr>, writable: bool, flushable: bool)

  function HeaderOf(a: Attempt): Option<TunnelHeader> {
    if a.input.Some? then ReadHeader(a.input.value).0 else None
  }

  /** Everything that must hold before the acknowledgement is written. */
  predicate Admitted(registry: Registry, peer: PeerId, roles: Roles, a: Attempt) {
    && HeaderOf(a).Some?
    && Authorized(registry, peer, roles, HeaderOf(a).value)
    && registry.services[HeaderOf(a).value.service].target in a.reachable
  }

  /** The octets a peer receives while its stream is opened. */
  function Emitted(registry: Registry, peer: PeerId, roles: Roles, a: Attempt): seq<byte> {
    if Admitted(registry, peer, roles, a) && a.writable then [TUNNEL_ACK] else []
  }

  predicate Established(registry: Registry, peer: PeerId, roles: Roles, a: Attempt) {
    Admitted(registry, peer, roles, a) && a.writable && a.flushable
  }

  // ---- The client's end ------------------------------------------------------------------------

  datatype OpenResult = TunnelOpen | TunnelDenied | BadAck | NotSent

  /** What `open` concludes from the octets it gets back. */
  function OpenReply(reply: seq<byte>): OpenResult {
    if reply == [] then TunnelDenied
    else if reply[0] == TUNNEL_ACK then TunnelOpen
    else BadAck
  }

  /**
   End to end: a client that writes header `h`, then anything, on a healthy stream gets a tunnel
   exactly when it is authorised and the service is reachable, and otherwise sees a bare refusal.
   */
  lemma HonestOpen(registry: Registry, peer: PeerId, roles: Roles, h: TunnelHeader,
                   rest: seq<byte>, reachable: set<SocketAddr>)
    requires WriteHeader(h).Some?
    ensures var a := Attempt(Some(WriteHeader(h).value + rest), reachable, true, true);
            OpenReply(Emitted(registry, peer, roles, a))
            == if && h.service in registry.services
                  && (var role := registry.services[h.service].requiredRole; role.Some? ==> role.value in roles)
                  && (peer in registry.attestedBinaries ==> registry.attestedBinaries[peer] == h.binarySha256)
                  && registry.services[h.service].target in reachable
               then TunnelOpen else TunnelDenied
  {
    HeaderRoundTrip(h, rest);
  }

  /** The first `n` octets of `bs`, or all of them when there are fewer. */
  function UpTo(bs: seq<byte>, n: nat): seq<byte> {
    if |bs| <= n then bs else bs[..n]
  }

  lemma UpToAppend(a: seq<byte>, b: seq<byte>, n: nat)
    ensures UpTo(a + b, n) == if |a| <= n then a + UpTo(b, n - |a|) else UpTo(a, n)
  {
  }

  // ---- The stream object and the Guard's decision on it --------------------------------------------

  /**
   One end of a stream. `incoming` is what the other side sends before it ends its half; `room` is
   how many octets the stream still takes before it breaks.
   */
  class ByteStream {
    var incoming: seq<byte>
    var outgoing: seq<byte>
    var room: nat
    const flushable: bool

    constructor (incoming: seq<byte>, room: nat, flushable: bool)
      ensures this.incoming == incoming && outgoing == []
      ensures this.room == room && this.flushable == flushable
    {
      this.incoming := incoming;
      outgoing := [];
      this.room := room;
      this.flushable := flushable;
    }

    /** Reads exactly `n` octets; an early end of stream is an error that consumes what there was. */
    method ReadExact(n: nat) returns (r: Option<seq<byte>>)
      modifies this`incoming
      ensures r == if n <= |old(incoming)| then Some(old(incoming)[..n]) else None
      ensures incoming == if n <= |old(incoming)| then old(incoming)[n..] else []
    {
      if n <= |incoming| {
        r := Some(incoming[..n]);
        incoming := incoming[n..];
      } else {
        r := None;
        incoming := [];
      }
    }

    /** Writes all of `bs`, or as much of it as the stream takes before it breaks. */
    method WriteAll(bs: seq<byte>) returns (ok: bool)
      modifies this`outgoing, this`room
      ensures ok <==> |bs| <= old(room)
      ensures outgoing == old(outgoing) + UpTo(bs, old(room)) && room == old(room) - |UpTo(bs, old(room))|
    {
      ok := |bs| <= room;
      var written := UpTo(bs, room);
      outgoing := outgoing + written;
      room := room - |written|;
    }

    /** Sends the frame of `h`, of which a broken stream takes the front; nothing when it is too long. */
    method SendHeader(h: TunnelHeader) returns (ok: bool)
      modifies this`outgoing, this`room
      ensures ok <==> WriteHeader(h).Some? && |WriteHeader(h).value| <= old(room) && flushable
      ensures outgoing == old(outgoing)
                          + if WriteHeader(h).None? then []
                            else if |WriteHeader(h).value| <= old(room) then WriteHeader(h).value
                            else WriteHeader(h).value[..old(room)]
    {
      hide WriteHeaderBody, ParseHeaderBody;
      var bytes := Encode(HEADER_SCHEMA, h);
      if bytes.None? || |bytes.value| > MAX_TUNNEL_HEADER_SIZE {
        return false;
      }
      var len := BigEndian(|bytes.value|, 2);
      ok := WriteAll(len);
      UpToAppend(len, bytes.value, old(room));
      if ok {
        ok := WriteAll(bytes.value);
      }
      ok := ok && flushable;
    }

    method ReceiveHeader() returns (h: Option<TunnelHeader>)
      modifies this`incoming
      ensures (h, incoming) == ReadHeader(old(incoming))
    {
      var prefix := ReadExact(2);
      if prefix.None? {
        return None;
      }
      var len := FromBigEndian(prefix.value);
      if len > MAX_TUNNEL_HEADER_SIZE {
        return None;
      }
      var body := ReadExact(len);
      if body.None? {
        return None;
      }
      assert body.value == old(incoming)[2..2 + len];
      h := Decode(HEADER_SCHEMA, body.value);
    }
  }

  /**
   The client's end: it sends its header and waits for one octet. A stream that ends is a denial,
   an octet other than the acknowledgement an error; what follows that octet is left to the relay.
   */
  method Open(stream: ByteStream, h: TunnelHeader) returns (result: OpenResult)
    modifies stream
    ensures stream.outgoing == old(stream.outgoing)
                               + if WriteHeader(h).None? then []
                                 else if |WriteHeader(h).value| <= old(stream.room) then WriteHeader(h).value
                                 else WriteHeader(h).value[..old(stream.room)]
    ensures var sent := WriteHeader(h).Some? && |WriteHeader(h).value| <= old(stream.room) && stream.flushable;
            && (result == NotSent <==> !sent)
            && (result == TunnelDenied <==> sent && old(stream.incoming) == [])
            && (result == TunnelOpen <==> sent && old(stream.incoming) != [] && old(stream.incoming)[0] == 1)
            && stream.incoming == if sent && old(stream.incoming) != [] then old(stream.incoming)[1..]
                                  else old(stream.incoming)
    ensures result.TunnelOpen? || result.TunnelDenied? || result.BadAck? ==> result == OpenReply(old(stream.incoming))
  {
    var ok := stream.SendHeader(h);
    if !ok {
      return NotSent;
    }
    var ack := stream.ReadExact(1);
    if ack.None? {
      return TunnelDenied;
    }
    if ack.value != [TUNNEL_ACK] {
      assert ack.value[0] == old(stream.incoming)[0];
      return BadAck;
    }
    assert old(stream.incoming)[0] == ack.value[0];
    result := TunnelOpen;
  }

  /** `NuxCodec::read_bounded`: at most one octet more than the limit is taken off the stream. */
  method ReadBounded(stream: ByteStream) returns (r: Option<seq<byte>>)
    modifies stream`incoming
    ensures r == if |old(stream.incoming)| <= 65536 then Some(old(stream.incoming)) else None
    ensures |old(stream.incoming)| - |stream.incoming| <= 65537
  {
    var n := if |stream.incoming| <= MAX_MESSAGE_SIZE then |stream.incoming| else MAX_MESSAGE_SIZE + 1;
    ghost var all := stream.incoming;
    r := stream.ReadExact(n);
    assert all[..|all|] == all;
    if n > MAX_MESSAGE_SIZE {
      r := None;
    }
  }

  /**
   The Guard's side of an opening, in the order of the source, each refusal returning early.
   `timely` is false when no header came before the deadline; `relayed` counts the octets relayed,
   or is `None` when the relay ended in an error (such a tunnel counts as served, with no octets).
   */
  method ServeIo(stream: ByteStream, peer: PeerId, roles: Roles, registry: Registry,
                 timely: bool, reachable: set<SocketAddr>, relayed: Option<(nat, nat)>)
    returns (outcome: TunnelOutcome)
    modifies stream
    ensures var input := if timely then Some(old(stream.incoming)) else None;
            var a := Attempt(input, reachable, old(stream.room) > 0, stream.flushable);
            && (!Admitted(registry, peer, roles, a) ==> stream.outgoing == old(stream.outgoing))
            && |old(stream.incoming)| - 1026 <= |stream.incoming| <= |old(stream.incoming)|
            && stream.incoming == old(stream.incoming)[|old(stream.incoming)| - |stream.incoming|..]
            && stream.outgoing == old(stream.outgoing) + Emitted(registry, peer, roles, a)
            && outcome == (if !Established(registry, peer, roles, a) then Refused
                           else if relayed.None? then Served(0, 0)
                           else Served(relayed.value.0, relayed.value.1))
    ensures var h := if timely then ReadHeader(old(stream.incoming)).0 else None;
            var admitted :=
              && h.Some? && h.value.service in registry.services
              && (var role := registry.services[h.value.service].requiredRole; role.Some? ==> role.value in roles)
              && (peer in registry.attestedBinaries ==> registry.attestedBinaries[peer] == h.value.binarySha256)
              && registry.services[h.value.service].target in reachable;
            && stream.outgoing == old(stream.outgoing) + (if admitted && old(stream.room) > 0 then [1] else [])
            && (outcome.Served? <==> admitted && old(stream.room) > 0 && stream.flushable)
            && (outcome.Served? ==>
                  outcome == if relayed.None? then Served(0, 0) else Served(relayed.value.0, relayed.value.1))
  {
    if !timely {
      return Refused;
    }
    ReadHeaderBounded(stream.incoming);
    var header := stream.ReceiveHeader();
    if header.None? {
      return Refused;
    }
    var h := header.value;
    if h.service !in registry.services {
      return Refused;
    }
    var service := registry.services[h.service];
    var granted := CheckRole(roles, service.requiredRole);
    if !granted {
      return Refused;
    }
    if peer in registry.attestedBinaries && registry.attestedBinaries[peer] != h.binarySha256 {
      return Refused;
    }
    if service.target !in reachable {
      return Refused;
    }
    var written := stream.WriteAll([TUNNEL_ACK]);
    if !written || !stream.flushable {
      return Refused;
    }
    match relayed {
      case None => outcome := Served(0, 0);
      case Some(counts) => outcome := Served(counts.0, counts.1);
    }
  }
}
