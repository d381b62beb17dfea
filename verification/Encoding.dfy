/**
 Byte strings that are signed or hashed: big-endian 8-byte heights in front of a payload.
 */
module Encoding {

  newtype byte = x: int | 0 <= x < 256

  type Bytes = seq<byte>

  const UINT64_RANGE := 0x1_0000_0000_0000_0000

  /** The last `width` base-256 digits of x, most significant first. */
  function BigEndian(x: nat, width: nat): (b: Bytes)
    ensures |b| == width
  {
    if width == 0 then [] else BigEndian(x / 256, width - 1) + [(x % 256) as byte]
  }

  function FromBigEndian(b: Bytes): nat {
    if b == [] then 0 else FromBigEndian(b[..|b| - 1]) * 256 + b[|b| - 1] as int
  }

  function Pow256(width: nat): nat {
    if width == 0 then 1 else 256 * Pow256(width - 1)
  }

  /** Decoding inverts encoding on every number that fits the width. */
  lemma {:induction false} RoundTrip(x: nat, width: nat)
    requires x < Pow256(width)
    ensures FromBigEndian(BigEndian(x, width)) == x
  {
    if width > 0 {
      RoundTrip(x / 256, width - 1);
      var b := BigEndian(x, width);
      assert b[..|b| - 1] == BigEndian(x / 256, width - 1);
    }
  }

  /** Encoding inverts decoding on every byte string, so the two are bijective on a width. */
  lemma {:induction false} RoundTripBytes(b: Bytes)
    ensures FromBigEndian(b) < Pow256(|b|)
    ensures BigEndian(FromBigEndian(b), |b|) == b
  {
    if b != [] {
      var front, last := b[..|b| - 1], b[|b| - 1];
      RoundTripBytes(front);
      var x := FromBigEndian(b);
      assert x == FromBigEndian(front) * 256 + last as int;
      assert x / 256 == FromBigEndian(front) && x % 256 == last as int;
    }
  }

  /** The 8 bytes of the low 64 bits, as a uint64 conversion yields them. */
  function Uint64ToBigEndian(x: nat): Bytes {
    BigEndian(x, 8)
  }

  lemma Uint64Fits()
    ensures Pow256(8) == UINT64_RANGE
  {
    assert Pow256(4) == 0x1_0000_0000 by {
      assert Pow256(2) == 0x1_0000;
    }
    assert Pow256(6) == 0x1_0000_0000_0000;
  }

  /** An 8-byte number followed by a payload. */
  function Prefixed(x: nat, payload: Bytes): Bytes {
    Uint64ToBigEndian(x) + payload
  }

  /** A prefixed payload determines number and payload. */
  lemma PrefixedIsInjective(x: nat, p: Bytes, y: nat, q: Bytes)
    requires x < UINT64_RANGE && y < UINT64_RANGE
    ensures Prefixed(x, p) == Prefixed(y, q) <==> x == y && p == q
  {
    if Prefixed(x, p) == Prefixed(y, q) {
      var ex, ey := Uint64ToBigEndian(x), Uint64ToBigEndian(y);
      assert ex == (ex + p)[..8] && ey == (ey + q)[..8];
      assert p == (ex + p)[8..] && q == (ey + q)[8..];
      Uint64Fits();
      RoundTrip(x, 8);
      RoundTrip(y, 8);
    }
  }

  /** The first 8 bytes of a prefixed payload are the number, the rest is the payload. */
  lemma PrefixedLayout(x: nat, payload: Bytes)
    requires x < UINT64_RANGE
    ensures var b := Prefixed(x, payload);
            |b| == 8 + |payload| && FromBigEndian(b[..8]) == x && b[8..] == payload
  {
    var e := Uint64ToBigEndian(x);
    Uint64Fits();
    RoundTrip(x, 8);
    assert (e + payload)[..8] == e && (e + payload)[8..] == payload;
  }

  // ---------------------------------------------------------------------------------------
  // The three encodings

  /** The message signed for a vote. */
  function VoteMessage(height: nat, hash: Bytes): Bytes {
    Prefixed(height, hash)
  }

  /** The input of the keyed hash that yields the private randomness of a height. */
  function Seed(height: nat, chainID: Bytes): Bytes {
    Prefixed(height, chainID)
  }

  /** The input of the hash signed with a randomness commitment. */
  function CommitMessage(start: nat, count: nat, commitment: Bytes): Bytes {
    Prefixed(start, Prefixed(count, commitment))
  }

  /** The hasher is fed start, count and commitment one after the other. */
  method CommitHashInput(start: nat, count: nat, commitment: Bytes) returns (written: Bytes)
    ensures written == CommitMessage(start, count, commitment)
    ensures start < UINT64_RANGE && count < UINT64_RANGE ==>
              && |written| == 16 + |commitment|
              && FromBigEndian(written[..8]) == start
              && FromBigEndian(written[8..16]) == count
              && written[16..] == commitment
  {
    written := [];
    written := written + Uint64ToBigEndian(start);
    written := written + Uint64ToBigEndian(count);
    written := written + commitment;
    assert written == CommitMessage(start, count, commitment);
    if start < UINT64_RANGE && count < UINT64_RANGE {
      MessageLayouts(start, count, commitment);
    }
  }

  /** Where the parts lie in the three messages: the height comes first and the block hash or chain
      after it; in a commit message the start comes first, then the count, then the commitment. */
  lemma MessageLayouts(x: nat, count: nat, rest: Bytes)
    requires x < UINT64_RANGE && count < UINT64_RANGE
    ensures var v := VoteMessage(x, rest);
            |v| == 8 + |rest| && FromBigEndian(v[..8]) == x && v[8..] == rest
    ensures var s := Seed(x, rest);
            |s| == 8 + |rest| && FromBigEndian(s[..8]) == x && s[8..] == rest
    ensures var c := CommitMessage(x, count, rest);
            && |c| == 16 + |rest|
            && FromBigEndian(c[..8]) == x && FromBigEndian(c[8..16]) == count && c[16..] == rest
  {
    PrefixedLayout(x, rest);
    PrefixedLayout(count, rest);
    PrefixedLayout(x, Prefixed(count, rest));
    var c := CommitMessage(x, count, rest);
    assert c[8..16] == c[8..][..8] && c[16..] == c[8..][8..];
  }

  /** A commit message determines start height, count and commitment; a vote message determines
      height and block hash; a seed determines height and chain. */
  lemma EncodingsAreInjective(s1: nat, n1: nat, c1: Bytes, s2: nat, n2: nat, c2: Bytes)
    requires s1 < UINT64_RANGE && n1 < UINT64_RANGE && s2 < UINT64_RANGE && n2 < UINT64_RANGE
    ensures CommitMessage(s1, n1, c1) == CommitMessage(s2, n2, c2) <==> s1 == s2 && n1 == n2 && c1 == c2
    ensures VoteMessage(s1, c1) == VoteMessage(s2, c2) <==> s1 == s2 && c1 == c2
    ensures Seed(s1, c1) == Seed(s2, c2) <==> s1 == s2 && c1 == c2
  {
    PrefixedIsInjective(s1, c1, s2, c2);
    PrefixedIsInjective(s1, Prefixed(n1, c1), s2, Prefixed(n2, c2));
    PrefixedIsInjective(n1, c1, n2, c2);
  }

  /** Beyond 64 bits heights collide: the encoding sees a height only modulo 2^64. */
  lemma {:induction false} EncodingWraps(x: nat, payload: Bytes)
    ensures Prefixed(x + UINT64_RANGE, payload) == Prefixed(x, payload)
  {
    Uint64Fits();
    DigitsWrap(x, 8, 1);
  }

  lemma {:induction false} DigitsWrap(x: nat, width: nat, k: nat)
    ensures BigEndian(x + k * Pow256(width), width) == BigEndian(x, width)
  {
    if width > 0 {
      var y := k * Pow256(width - 1);
      assert k * Pow256(width) == 256 * y by {
        assert Pow256(width) == 256 * Pow256(width - 1);
        assert k * (256 * Pow256(width - 1)) == 256 * (k * Pow256(width - 1));
      }
      assert (x + 256 * y) / 256 == x / 256 + y && (x + 256 * y) % 256 == x % 256;
      DigitsWrap(x / 256, width - 1, k);
    }
  }
}
