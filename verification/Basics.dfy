/** Vocabulary shared by every module: bytes, identities, roles and the clock type. */
module Basics {

  datatype Option<+T> = None | Some(value: T)

  type byte = x: int | 0 <= x < 256

  type u64 = x: int | 0 <= x < 0x1_0000_0000_0000_0000

  const NONCE_LEN := 32

  /** The nonce of a challenge (`[u8; NONCE_LEN]`). */
  type Nonce = s: seq<byte> | |s| == NONCE_LEN witness seq(NONCE_LEN, _ => 0)

  /** A SHA-256 digest (`[u8; 32]`). */
  type Digest = s: seq<byte> | |s| == 32 witness seq(32, _ => 0)

  /** Continuation octets of UTF-8 (section 3 of RFC 3629). */
  predicate IsTail(b: byte) { 0x80 <= b <= 0xBF }

  /** Well-formed UTF-8 octet sequences, by the grammar of section 4 of RFC 3629. */
  predicate ValidUtf8(s: seq<byte>) {
    if s == [] then true
    else if s[0] <= 0x7F then ValidUtf8(s[1..])
    else if 0xC2 <= s[0] <= 0xDF then |s| >= 2 && IsTail(s[1]) && ValidUtf8(s[2..])
    else if 0xE0 <= s[0] <= 0xEF then
      && |s| >= 3 && IsTail(s[1]) && IsTail(s[2])
      && (s[0] == 0xE0 ==> s[1] >= 0xA0)
      && (s[0] == 0xED ==> s[1] <= 0x9F)
      && ValidUtf8(s[3..])
    else if 0xF0 <= s[0] <= 0xF4 then
      && |s| >= 4 && IsTail(s[1]) && IsTail(s[2]) && IsTail(s[3])
      && (s[0] == 0xF0 ==> s[1] >= 0x90)
      && (s[0] == 0xF4 ==> s[1] <= 0x8F)
      && ValidUtf8(s[4..])
    else false
  }

  lemma {:induction false} AsciiIsUtf8(s: seq<byte>)
    requires forall i | 0 <= i < |s| :: s[i] <= 0x7F
    ensures ValidUtf8(s)
  {
    if s != [] {
      AsciiIsUtf8(s[1..]);
    }
  }

  /** A Rust `String`: its UTF-8 octets. */
  type Text = s: seq<byte> | ValidUtf8(s) witness []

  type Roles = seq<Text>

  /** A peer identity: the octets of its multihash, which is what the source compares. */
  datatype PeerId = PeerId(bytes: seq<byte>)

  /** `u64::saturating_sub`, also `Instant::duration_since`, which saturates at zero. */
  function SaturatingSub(a: nat, b: nat): nat {
    if a >= b then a - b else 0
  }

  /** `u64::abs_diff`. */
  function AbsDiff(a: nat, b: nat): nat {
    if a >= b then a - b else b - a
  }

  lemma SubsetCardinality<T>(a: set<T>, b: set<T>)
    requires a <= b
    ensures |a| <= |b|
  {
    assert b == a + (b - a);
  }
}
