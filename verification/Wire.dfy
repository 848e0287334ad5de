/**
 The authentication protocol on the wire: messages, the signed payload, and the bounded codec.

 The octet layout is the one of bincode 1 with `DefaultOptions` (little-endian, variable-length
 integers, lengths and variant tags, a size limit, trailing octets rejected). That library is not
 part of the repository; its layout is written out here as a modelling assumption:
 an integer below 251 is one octet; 251, 252, 253 announce 2, 4, 8 little-endian octets; a reader
 accepts a longer form than necessary; arrays carry no length; vectors and strings carry theirs.
 */
module Wire {
  import opened Basics

  const MAX_MESSAGE_SIZE: nat := 64 * 1024

  datatype NuxRequest =
    | HandshakeInit
    | ChallengeAnswer(signature: seq<byte>, timestamp: u64)

  datatype NuxResponse =
    | Challenge(nonce: Nonce, timestamp: u64)
    | AccessGranted(roles: Roles)
    | Denied

  datatype TunnelHeader = TunnelHeader(service: Text, binarySha256: Digest)

  // ---- Fixed-width integers ------------------------------------------------------------------

  /** 256 to the power `k`. */
  function Bound(k: nat): (b: nat)
    ensures b > 0
  {
    if k == 0 then 1 else 256 * Bound(k - 1)
  }

  function LittleEndian(n: nat, k: nat): (bs: seq<byte>)
    ensures |bs| == k
  {
    if k == 0 then [] else [n % 256] + LittleEndian(n / 256, k - 1)
  }

  function FromLittleEndian(bs: seq<byte>): (n: nat)
    ensures n < Bound(|bs|)
  {
    if bs == [] then 0 else bs[0] + 256 * FromLittleEndian(bs[1..])
  }

  function BigEndian(n: nat, k: nat): (bs: seq<byte>)
    ensures |bs| == k
  {
    if k == 0 then [] else BigEndian(n / 256, k - 1) + [n % 256]
  }

  function FromBigEndian(bs: seq<byte>): (n: nat)
    ensures n < Bound(|bs|)
  {
    if bs == [] then 0 else FromBigEndian(bs[..|bs| - 1]) * 256 + bs[|bs| - 1]
  }

  lemma {:induction false} LittleEndianRoundTrip(n: nat, k: nat)
    requires n < Bound(k)
    ensures FromLittleEndian(LittleEndian(n, k)) == n
  {
    if k > 0 {
      LittleEndianRoundTrip(n / 256, k - 1);
      assert LittleEndian(n, k)[1..] == LittleEndian(n / 256, k - 1);
    }
  }

  lemma {:induction false} BigEndianRoundTrip(n: nat, k: nat)
    requires n < Bound(k)
    ensures FromBigEndian(BigEndian(n, k)) == n
  {
    if k > 0 {
      BigEndianRoundTrip(n / 256, k - 1);
      assert BigEndian(n, k)[..k - 1] == BigEndian(n / 256, k - 1);
    }
  }

  lemma Widths()
    ensures Bound(2) == 0x1_0000 && Bound(4) == 0x1_0000_0000 && Bound(8) == 0x1_0000_0000_0000_0000
  {
    assert Bound(1) == 256 && Bound(2) == 0x1_0000 && Bound(3) == 0x100_0000;
    assert Bound(4) == 0x1_0000_0000 && Bound(5) == 0x100_0000_0000 && Bound(6) == 0x1_0000_0000_0000;
    assert Bound(7) == 0x100_0000_0000_0000;
  }

  // ---- The octets that are signed --------------------------------------------------------------

  function ChallengePayload(nonce: Nonce, timestamp: u64): (payload: seq<byte>)
    ensures |payload| == NONCE_LEN + 8
  {
    nonce + BigEndian(timestamp, 8)
  }

  /** Signing the payload commits to both the nonce and the timestamp. */
  lemma ChallengePayloadInjective(n1: Nonce, t1: u64, n2: Nonce, t2: u64)
    ensures ChallengePayload(n1, t1) == ChallengePayload(n2, t2) <==> n1 == n2 && t1 == t2
  {
    Widths();
    BigEndianRoundTrip(t1, 8);
    BigEndianRoundTrip(t2, 8);
    var p1, p2 := ChallengePayload(n1, t1), ChallengePayload(n2, t2);
    assert p1[..NONCE_LEN] == n1 && p2[..NONCE_LEN] == n2;
    assert p1[NONCE_LEN..] == BigEndian(t1, 8) && p2[NONCE_LEN..] == BigEndian(t2, 8);
  }

  // ---- Primitive writers and parsers -----------------------------------------------------------

  /** What a parser found, and the octets it left. */
  type Parsed<T> = Option<(T, seq<byte>)>

  function WriteVarint(n: nat): (w: seq<byte>)
    ensures 1 <= |w| <= 9
  {
    if n < 251 then [n]
    else if n < 0x1_0000 then [251] + LittleEndian(n, 2)
    else if n < 0x1_0000_0000 then [252] + LittleEndian(n, 4)
    else [253] + LittleEndian(n, 8)
  }

  function ParseVarint(bs: seq<byte>): Parsed<u64> {
    if bs == [] then None
    else if bs[0] < 251 then Some((bs[0], bs[1..]))
    else if bs[0] == 251 then ParseFixed(2, bs[1..])
    else if bs[0] == 252 then ParseFixed(4, bs[1..])
    else if bs[0] == 253 then ParseFixed(8, bs[1..])
    else None
  }

  function ParseFixed(k: nat, bs: seq<byte>): Parsed<u64>
    requires k == 2 || k == 4 || k == 8
  {
    if |bs| < k then None
    else
      Widths();
      Some((FromLittleEndian(bs[..k]), bs[k..]))
  }

  lemma VarintRoundTrip(n: u64, rest: seq<byte>)
    ensures ParseVarint(WriteVarint(n) + rest) == Some((n, rest))
  {
    Widths();
    var w := WriteVarint(n);
    var k := |w| - 1;
    assert (w + rest)[1..] == w[1..] + rest;
    assert (w[1..] + rest)[..k] == w[1..] && (w[1..] + rest)[k..] == rest;
    if n >= 251 {
      LittleEndianRoundTrip(n, k);
    }
  }

  lemma VarintShrinks(bs: seq<byte>)
    ensures match ParseVarint(bs)
            case None => true
            case Some((n, rest)) => |WriteVarint(n)| + |rest| <= |bs|
  {
    Widths();
  }

  function ParseBytes(n: nat, bs: seq<byte>): Parsed<seq<byte>> {
    if |bs| < n then None else Some((bs[..n], bs[n..]))
  }

  function WriteVector(v: seq<byte>): (w: seq<byte>)
    ensures |w| > |v|
  {
    WriteVarint(|v|) + v
  }

  function ParseVector(bs: seq<byte>): Parsed<seq<byte>> {
    match ParseVarint(bs)
    case None => None
    case Some((n, rest)) => ParseBytes(n, rest)
  }

  lemma VectorRoundTrip(v: seq<byte>, rest: seq<byte>)
    requires |v| <= MAX_MESSAGE_SIZE
    ensures ParseVector(WriteVector(v) + rest) == Some((v, rest))
  {
    VarintRoundTrip(|v|, v + rest);
    assert WriteVector(v) + rest == WriteVarint(|v|) + (v + rest);
    assert (v + rest)[..|v|] == v && (v + rest)[|v|..] == rest;
  }

  lemma VectorShrinks(bs: seq<byte>)
    ensures match ParseVector(bs)
            case None => true
            case Some((v, rest)) => |WriteVector(v)| + |rest| <= |bs|
  {
    VarintShrinks(bs);
  }

  function ParseText(bs: seq<byte>): Parsed<Text> {
    match ParseVector(bs)
    case None => None
    case Some((v, rest)) => if ValidUtf8(v) then Some((v, rest)) else None
  }

  function WriteTexts(ts: Roles): seq<byte> {
    if ts == [] then [] else WriteVector(ts[0]) + WriteTexts(ts[1..])
  }

  function ParseTexts(n: nat, bs: seq<byte>): Parsed<Roles> {
    if n == 0 then Some(([], bs))
    else
      match ParseText(bs)
      case None => None
      case Some((t, rest)) =>
        match ParseTexts(n - 1, rest)
        case None => None
        case Some((ts, rest')) => Some(([t] + ts, rest'))
  }

  lemma {:induction false} TextsRoundTrip(ts: Roles, rest: seq<byte>)
    requires |WriteTexts(ts)| <= MAX_MESSAGE_SIZE
    ensures ParseTexts(|ts|, WriteTexts(ts) + rest) == Some((ts, rest))
    ensures |ts| <= |WriteTexts(ts)|
  {
    hide WriteVarint, ParseVarint, ValidUtf8;
    if ts == [] {
      assert WriteTexts(ts) + rest == rest;
    } else {
      TextsRoundTrip(ts[1..], rest);
      VectorRoundTrip(ts[0], WriteTexts(ts[1..]) + rest);
      assert WriteTexts(ts) + rest == WriteVector(ts[0]) + (WriteTexts(ts[1..]) + rest);
      assert ValidUtf8(ts[0]) && [ts[0]] + ts[1..] == ts;
    }
  }

  lemma {:induction false} TextsShrink(n: nat, bs: seq<byte>)
    ensures match ParseTexts(n, bs)
            case None => true
            case Some((ts, rest)) => |ts| == n && |WriteTexts(ts)| + |rest| <= |bs|
  {
    if n > 0 {
      VectorShrinks(bs);
      match ParseText(bs)
      case None =>
      case Some((t, rest)) =>
        TextsShrink(n - 1, rest);
        match ParseTexts(n - 1, rest)
        case None =>
        case Some((ts, rest')) =>
          assert ([t] + ts)[1..] == ts;
    }
  }

  // ---- Messages --------------------------------------------------------------------------------

  function WriteRequest(m: NuxRequest): seq<byte> {
    match m
    case HandshakeInit => WriteVarint(0)
    case ChallengeAnswer(signature, timestamp) =>
      WriteVarint(1) + WriteVector(signature) + WriteVarint(timestamp)
  }

  function ParseRequest(bs: seq<byte>): Parsed<NuxRequest> {
    match ParseVarint(bs)
    case None => None
    case Some((tag, rest)) =>
      if tag == 0 then Some((HandshakeInit, rest))
      else if tag == 1 then
        match ParseVector(rest)
        case None => None
        case Some((signature, rest')) =>
          match ParseVarint(rest')
          case None => None
          case Some((timestamp, rest'')) => Some((ChallengeAnswer(signature, timestamp), rest''))
      else None
  }

  function WriteResponse(m: NuxResponse): seq<byte> {
    match m
    case Challenge(nonce, timestamp) => WriteVarint(0) + nonce + WriteVarint(timestamp)
    case AccessGranted(roles) => WriteVarint(1) + WriteVarint(|roles|) + WriteTexts(roles)
    case Denied => WriteVarint(2)
  }

  function ParseResponse(bs: seq<byte>): Parsed<NuxResponse> {
    match ParseVarint(bs)
    case None => None
    case Some((tag, rest)) =>
      if tag == 0 then
        match ParseBytes(NONCE_LEN, rest)
        case None => None
        case Some((nonce, rest')) =>
          match ParseVarint(rest')
          case None => None
          case Some((timestamp, rest'')) => Some((Challenge(nonce, timestamp), rest''))
      else if tag == 1 then
        match ParseVarint(rest)
        case None => None
        case Some((n, rest')) =>
          match ParseTexts(n, rest')
          case None => None
          case Some((roles, rest'')) => Some((AccessGranted(roles), rest''))
      else if tag == 2 then Some((Denied, rest))
      else None
  }

  function WriteHeaderBody(h: TunnelHeader): seq<byte> {
    WriteVector(h.service) + h.binarySha256
  }

  function ParseHeaderBody(bs: seq<byte>): Parsed<TunnelHeader> {
    match ParseText(bs)
    case None => None
    case Some((service, rest)) =>
      match ParseBytes(32, rest)
      case None => None
      case Some((digest, rest')) => Some((TunnelHeader(service, digest), rest'))
  }

  lemma RequestRoundTrip(m: NuxRequest, rest: seq<byte>)
    requires |WriteRequest(m)| <= MAX_MESSAGE_SIZE
    ensures ParseRequest(WriteRequest(m) + rest) == Some((m, rest))
  {
    hide WriteVarint, ParseVarint, WriteVector, ParseVector;
    match m
    case HandshakeInit => VarintRoundTrip(0, rest);
    case ChallengeAnswer(signature, timestamp) =>
      var tail := WriteVarint(timestamp) + rest;
      VarintRoundTrip(timestamp, rest);
      VectorRoundTrip(signature, tail);
      VarintRoundTrip(1, WriteVector(signature) + tail);
      assert WriteRequest(m) + rest == WriteVarint(1) + (WriteVector(signature) + tail);
  }

  lemma {:induction false} RequestShrinks(bs: seq<byte>)
    ensures match ParseRequest(bs)
            case None => true
            case Some((m, rest)) => |WriteRequest(m)| + |rest| <= |bs|
  {
    VarintShrinks(bs);
    match ParseVarint(bs)
    case None =>
    case Some((_, rest)) =>
      VectorShrinks(rest);
      match ParseVector(rest)
      case None =>
      case Some((_, rest')) => VarintShrinks(rest');
  }

  lemma ResponseRoundTrip(m: NuxResponse, rest: seq<byte>)
    requires |WriteResponse(m)| <= MAX_MESSAGE_SIZE
    ensures ParseResponse(WriteResponse(m) + rest) == Some((m, rest))
  {
    hide WriteVarint, ParseVarint, WriteTexts, ParseTexts;
    match m
    case Challenge(nonce, timestamp) =>
      var tail := WriteVarint(timestamp) + rest;
      VarintRoundTrip(timestamp, rest);
      VarintRoundTrip(0, nonce + tail);
      assert WriteResponse(m) + rest == WriteVarint(0) + (nonce + tail);
      assert (nonce + tail)[..NONCE_LEN] == nonce && (nonce + tail)[NONCE_LEN..] == tail;
    case AccessGranted(roles) =>
      var tail := WriteTexts(roles) + rest;
      TextsRoundTrip(roles, rest);
      VarintRoundTrip(|roles|, tail);
      VarintRoundTrip(1, WriteVarint(|roles|) + tail);
      assert WriteResponse(m) + rest == WriteVarint(1) + (WriteVarint(|roles|) + tail);
    case Denied => VarintRoundTrip(2, rest);
  }

  lemma ResponseShrinks(bs: seq<byte>)
    ensures match ParseResponse(bs)
            case None => true
            case Some((m, rest)) => |WriteResponse(m)| + |rest| <= |bs|
  {
    VarintShrinks(bs);
    match ParseVarint(bs)
    case None =>
    case Some((tag, rest)) =>
      if tag == 0 && |rest| >= NONCE_LEN {
        VarintShrinks(rest[NONCE_LEN..]);
      } else if tag == 1 {
        VarintShrinks(rest);
        match ParseVarint(rest)
        case None =>
        case Some((n, rest')) => TextsShrink(n, rest');
      }
  }

  lemma HeaderBodyRoundTrip(h: TunnelHeader, rest: seq<byte>)
    requires |WriteHeaderBody(h)| <= MAX_MESSAGE_SIZE
    ensures ParseHeaderBody(WriteHeaderBody(h) + rest) == Some((h, rest))
  {
    var tail := h.binarySha256 + rest;
    VectorRoundTrip(h.service, tail);
    assert WriteHeaderBody(h) + rest == WriteVector(h.service) + tail;
    assert tail[..32] == h.binarySha256 && tail[32..] == rest;
  }

  lemma HeaderBodyShrinks(bs: seq<byte>)
    ensures match ParseHeaderBody(bs)
            case None => true
            case Some((h, rest)) => |WriteHeaderBody(h)| + |rest| <= |bs|
  {
    VectorShrinks(bs);
  }

  // ---- Octet for octet ---------------------------------------------------------------------------

  /** 256 to the power `k`, as it is written. */
  function PowerOf256(k: nat): nat
    requires k <= 8
  {
    match k
    case 0 => 1
    case 1 => 0x100
    case 2 => 0x1_0000
    case 3 => 0x100_0000
    case 4 => 0x1_0000_0000
    case 5 => 0x100_0000_0000
    case 6 => 0x1_0000_0000_0000
    case 7 => 0x100_0000_0000_0000
    case _ => 0x1_0000_0000_0000_0000
  }

  lemma {:induction false} BigEndianAt(n: nat, k: nat, i: nat)
    requires i < k <= 8
    ensures BigEndian(n, k)[i] == (n / PowerOf256(k - 1 - i)) % 256
  {
    if i < k - 1 {
      BigEndianAt(n / 256, k - 1, i);
      DivideTwice(n, k - 2 - i);
    }
  }

  lemma {:induction false} LittleEndianAt(n: nat, k: nat, i: nat)
    requires i < k <= 8
    ensures LittleEndian(n, k)[i] == (n / PowerOf256(i)) % 256
  {
    if i > 0 {
      LittleEndianAt(n / 256, k - 1, i - 1);
      DivideTwice(n, i - 1);
    }
  }

  lemma DivideTwice(n: nat, j: nat)
    requires j < 8
    ensures n / 256 / PowerOf256(j) == n / PowerOf256(j + 1)
  {
  }

  /** The signed octets: the nonce, then the timestamp with its most significant octet first. */
  lemma PayloadOctets(nonce: Nonce, timestamp: u64, i: nat)
    requires i < 40
    ensures |ChallengePayload(nonce, timestamp)| == 40
    ensures ChallengePayload(nonce, timestamp)[i] ==
            if i < 32 then nonce[i] else (timestamp / PowerOf256(39 - i)) % 256
  {
    if i >= 32 {
      BigEndianAt(timestamp, 8, i - 32);
    }
  }

  /** An integer: itself below 251, else 251, 252 or 253 and its 2, 4 or 8 octets, least significant first. */
  lemma VarintOctets(n: u64, i: nat)
    requires i < |WriteVarint(n)|
    ensures |WriteVarint(n)| == if n < 251 then 1 else if n < 0x1_0000 then 3 else if n < 0x1_0000_0000 then 5 else 9
    ensures WriteVarint(n)[i] ==
            if i > 0 then (n / PowerOf256(i - 1)) % 256
            else if n < 251 then n else if n < 0x1_0000 then 251 else if n < 0x1_0000_0000 then 252 else 253
  {
    if i > 0 {
      LittleEndianAt(n, |WriteVarint(n)| - 1, i - 1);
    }
  }

  /** The messages octet for octet: a tag, then the fields in their order, with `Varint` as above. */
  lemma MessageOctets(signature: seq<byte>, timestamp: u64, nonce: Nonce, roles: Roles, service: Text, digest: Digest)
    ensures WriteRequest(HandshakeInit) == [0]
    ensures WriteRequest(ChallengeAnswer(signature, timestamp))
            == [1] + WriteVarint(|signature|) + signature + WriteVarint(timestamp)
    ensures WriteResponse(Challenge(nonce, timestamp)) == [0] + nonce + WriteVarint(timestamp)
    ensures WriteResponse(AccessGranted([])) == [1, 0]
    ensures WriteResponse(Denied) == [2]
    ensures WriteHeaderBody(TunnelHeader(service, digest)) == WriteVarint(|service|) + service + digest
  {
    hide ValidUtf8;
    assert WriteVarint(0) == [0] && WriteVarint(1) == [1] && WriteVarint(2) == [2];
    var empty: Roles := [];
    assert WriteResponse(AccessGranted(empty)) == WriteVarint(1) + WriteVarint(|empty|) + WriteTexts(empty);
    assert WriteVarint(1) + WriteVarint(0) + [] == [1, 0];
  }

  /** Each further role adds its length and its octets at the end, and one to the count in front. */
  lemma {:induction false} RolesOctets(roles: Roles, role: Text)
    ensures WriteResponse(AccessGranted(roles)) == [1] + WriteVarint(|roles|) + WriteTexts(roles)
    ensures WriteTexts(roles + [role]) == WriteTexts(roles) + (WriteVarint(|role|) + role)
  {
    hide ValidUtf8, WriteVarint;
    assert WriteVarint(1) == [1] by {
      OneOctet(1);
    }
    if roles == [] {
      assert roles + [role] == [role] && [role][1..] == [];
    } else {
      RolesOctets(roles[1..], role);
      assert (roles + [role])[1..] == roles[1..] + [role];
    }
  }

  lemma OneOctet(n: nat)
    requires n < 251
    ensures WriteVarint(n) == [n]
  {
  }

  // ---- The bounded codec, once for all message types -------------------------------------------

  /** A serialisable type: how its values are written and parsed. */
  datatype Schema<!T> = Schema(write: T -> seq<byte>, parse: seq<byte> -> Parsed<T>)

  const REQUEST_SCHEMA := Schema(WriteRequest, ParseRequest)
  const RESPONSE_SCHEMA := Schema(WriteResponse, ParseResponse)
  const HEADER_SCHEMA := Schema(WriteHeaderBody, ParseHeaderBody)

  /** `encode`: refused when the message is larger than the limit. */
  function Encode<T>(schema: Schema<T>, value: T): Option<seq<byte>> {
    var bs := schema.write(value);
    if |bs| <= MAX_MESSAGE_SIZE then Some(bs) else None
  }

  /** `decode`: the input is within the limit and the parser consumes all of it. */
  function Decode<T>(schema: Schema<T>, bs: seq<byte>): Option<T> {
    if |bs| > MAX_MESSAGE_SIZE then None
    else
      match schema.parse(bs)
      case None => None
      case Some((value, rest)) => if rest == [] then Some(value) else None
  }

  /** Written values parse back, leaving what follows; no accepted input is shorter than its rewriting. */
  ghost predicate Lawful<T(!new)>(schema: Schema<T>) {
    && (forall v: T, rest: seq<byte> | |schema.write(v)| <= MAX_MESSAGE_SIZE ::
          schema.parse(schema.write(v) + rest) == Some((v, rest)))
    && (forall bs: seq<byte> | schema.parse(bs).Some? ::
          |schema.write(schema.parse(bs).value.0)| + |schema.parse(bs).value.1| <= |bs|)
  }

  lemma {:induction false} SchemasLawful()
    ensures Lawful(REQUEST_SCHEMA) && Lawful(RESPONSE_SCHEMA) && Lawful(HEADER_SCHEMA)
  {
    hide WriteRequest, ParseRequest, WriteResponse, ParseResponse, WriteHeaderBody, ParseHeaderBody;
    forall v: NuxRequest, rest: seq<byte> | |WriteRequest(v)| <= MAX_MESSAGE_SIZE
      ensures ParseRequest(WriteRequest(v) + rest) == Some((v, rest))
    {
      RequestRoundTrip(v, rest);
    }
    forall v: NuxResponse, rest: seq<byte> | |WriteResponse(v)| <= MAX_MESSAGE_SIZE
      ensures ParseResponse(WriteResponse(v) + rest) == Some((v, rest))
    {
      ResponseRoundTrip(v, rest);
    }
    forall v: TunnelHeader, rest: seq<byte> | |WriteHeaderBody(v)| <= MAX_MESSAGE_SIZE
      ensures ParseHeaderBody(WriteHeaderBody(v) + rest) == Some((v, rest))
    {
      HeaderBodyRoundTrip(v, rest);
    }
    forall bs: seq<byte> | ParseRequest(bs).Some?
      ensures |WriteRequest(ParseRequest(bs).value.0)| + |ParseRequest(bs).value.1| <= |bs|
    {
      RequestShrinks(bs);
    }
    forall bs: seq<byte> | ParseResponse(bs).Some?
      ensures |WriteResponse(ParseResponse(bs).value.0)| + |ParseResponse(bs).value.1| <= |bs|
    {
      ResponseShrinks(bs);
    }
    forall bs: seq<byte> | ParseHeaderBody(bs).Some?
      ensures |WriteHeaderBody(ParseHeaderBody(bs).value.0)| + |ParseHeaderBody(bs).value.1| <= |bs|
    {
      HeaderBodyShrinks(bs);
    }
  }

  lemma EncodeThenDecode<T(!new)>(schema: Schema<T>, value: T)
    requires Lawful(schema)
    ensures Encode(schema, value).Some? <==> |schema.write(value)| <= MAX_MESSAGE_SIZE
    ensures Encode(schema, value).Some? ==> Decode(schema, Encode(schema, value).value) == Some(value)
  {
    var bs := schema.write(value);
    assert bs + [] == bs;
  }

  /** The fuzzing oracle: an accepted input re-encodes, no longer than it was, and reads back the same. */
  lemma DecodeThenEncode<T(!new)>(schema: Schema<T>, bs: seq<byte>)
    requires Lawful(schema)
    requires Decode(schema, bs).Some?
    ensures var value := Decode(schema, bs).value;
            && Encode(schema, value).Some?
            && |Encode(schema, value).value| <= |bs|
            && Decode(schema, Encode(schema, value).value) == Some(value)
  {
    EncodeThenDecode(schema, Decode(schema, bs).value);
  }

  /** Both laws, for every message of the protocol. */
  lemma WireRoundTrips(q: NuxRequest, r: NuxResponse, h: TunnelHeader, bs: seq<byte>)
    ensures |WriteRequest(q)| <= 65536 <==> Encode(REQUEST_SCHEMA, q) == Some(WriteRequest(q))
    ensures |WriteResponse(r)| <= 65536 <==> Encode(RESPONSE_SCHEMA, r) == Some(WriteResponse(r))
    ensures |WriteRequest(q)| <= MAX_MESSAGE_SIZE ==> Decode(REQUEST_SCHEMA, WriteRequest(q)) == Some(q)
    ensures |WriteResponse(r)| <= MAX_MESSAGE_SIZE ==> Decode(RESPONSE_SCHEMA, WriteResponse(r)) == Some(r)
    ensures |WriteHeaderBody(h)| <= MAX_MESSAGE_SIZE ==> Decode(HEADER_SCHEMA, WriteHeaderBody(h)) == Some(h)
    ensures Decode(REQUEST_SCHEMA, bs) == Some(q) ==>
              |WriteRequest(q)| <= |bs| <= MAX_MESSAGE_SIZE && Decode(REQUEST_SCHEMA, WriteRequest(q)) == Some(q)
    ensures Decode(RESPONSE_SCHEMA, bs) == Some(r) ==>
              |WriteResponse(r)| <= |bs| <= MAX_MESSAGE_SIZE && Decode(RESPONSE_SCHEMA, WriteResponse(r)) == Some(r)
    ensures Decode(HEADER_SCHEMA, bs) == Some(h) ==>
              |WriteHeaderBody(h)| <= |bs| <= MAX_MESSAGE_SIZE && Decode(HEADER_SCHEMA, WriteHeaderBody(h)) == Some(h)
  {
    SchemasLawful();
    EncodeThenDecode(REQUEST_SCHEMA, q);
    EncodeThenDecode(RESPONSE_SCHEMA, r);
    EncodeThenDecode(HEADER_SCHEMA, h);
  }

  /** Acceptance is not injective: a tag in a longer form than necessary reads as the same message. */
  lemma NonCanonicalFormsAreAccepted()
    ensures Decode(REQUEST_SCHEMA, [0]) == Some(HandshakeInit)
    ensures Decode(REQUEST_SCHEMA, [251, 0, 0]) == Some(HandshakeInit)
  {
    assert FromLittleEndian([0, 0]) == 0 by {
      assert [0, 0][1..] == [0] && [0][1..] == [];
    }
    var bs: seq<byte> := [251, 0, 0];
    assert bs[1..] == [0, 0] && bs[1..][..2] == [0, 0] && bs[1..][2..] == [];
  }
}
