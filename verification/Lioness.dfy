/**
 The LIONESS wide-block cipher over the onion payload: a four-round unbalanced Feistel network
 on the halves L = buf[..32] and R = buf[32..], updated in place. The keystream and the keyed
 hash are arbitrary functions.
 */
module Lioness {
  import opened Words

  const LIONESS_L: nat := 32

  /** The primitives a hop works with, as arbitrary functions. `stream(k)(i)` is byte `i` of the
      keystream of key `k`, so it does not depend on how many bytes are asked for. */
  datatype Suite = Suite(
    kdf: (string, Bytes32) -> Bytes32,
    stream: Bytes32 -> nat -> u8,
    mac16: (Bytes32, Bytes) -> Bytes16,
    mac32: (Bytes32, Bytes) -> Bytes32,
    dh: (Bytes32, Bytes32) -> Bytes32,
    pub: Bytes32 -> Bytes32)
  {
    function LionKey(s: Bytes32, round: nat): Bytes32
      requires 1 <= round <= 4
    {
      match round
      case 1 => kdf("norn-sphinx:lion1:v1", s)
      case 2 => kdf("norn-sphinx:lion2:v1", s)
      case 3 => kdf("norn-sphinx:lion3:v1", s)
      case 4 => kdf("norn-sphinx:lion4:v1", s)
    }

    /** R after a keystream round: R XOR S(L XOR k). */
    function StreamRound(s: Bytes32, round: nat, l: Bytes32, r: Bytes): (r': Bytes)
      requires 1 <= round <= 4
      ensures |r'| == |r|
    {
      Mask(stream(Xor(l, LionKey(s, round))), 0, r)
    }

    /** L after a hash round: L XOR H(k, R). */
    function HashRound(s: Bytes32, round: nat, l: Bytes32, r: Bytes): (l': Bytes32)
      requires 1 <= round <= 4
    {
      Xor(l, mac32(LionKey(s, round), r))
    }

    function EncryptBlock(s: Bytes32, buf: Bytes): (out: Bytes)
      requires |buf| > LIONESS_L
      ensures |out| == |buf|
    {
      var l0, r0 := buf[..LIONESS_L], buf[LIONESS_L..];
      var r1 := StreamRound(s, 1, l0, r0);
      var l1 := HashRound(s, 2, l0, r1);
      var r2 := StreamRound(s, 3, l1, r1);
      var l2 := HashRound(s, 4, l1, r2);
      l2 + r2
    }

    function DecryptBlock(s: Bytes32, buf: Bytes): (out: Bytes)
      requires |buf| > LIONESS_L
      ensures |out| == |buf|
    {
      var l2, r2 := buf[..LIONESS_L], buf[LIONESS_L..];
      var l1 := HashRound(s, 4, l2, r2);
      var r1 := StreamRound(s, 3, l1, r2);
      var l0 := HashRound(s, 2, l1, r1);
      var r0 := StreamRound(s, 1, l0, r1);
      l0 + r0
    }

    /** Encryption on the bytes: the halves `l` and `r` become `l2` and `r2` by the four equations of the
        cipher, each round with a key of its own. */
    lemma FourRounds(s: Bytes32, l: Bytes32, r: Bytes, r1: Bytes, l1: Bytes32, r2: Bytes, l2: Bytes32)
      requires |r| == |r1| == |r2| > 0
      requires forall i | 0 <= i < |r| :: r1[i] == XorByte(r[i], stream(Xor(l, kdf("norn-sphinx:lion1:v1", s)))(i))
      requires forall i | 0 <= i < 32 :: l1[i] == XorByte(l[i], mac32(kdf("norn-sphinx:lion2:v1", s), r1)[i])
      requires forall i | 0 <= i < |r| :: r2[i] == XorByte(r1[i], stream(Xor(l1, kdf("norn-sphinx:lion3:v1", s)))(i))
      requires forall i | 0 <= i < 32 :: l2[i] == XorByte(l1[i], mac32(kdf("norn-sphinx:lion4:v1", s), r2)[i])
      ensures EncryptBlock(s, l + r) == l2 + r2
    {
      hide XorByte;
      assert (l + r)[..LIONESS_L] == l && (l + r)[LIONESS_L..] == r;
      assert r1 == StreamRound(s, 1, l, r);
      assert l1 == HashRound(s, 2, l, r1);
      assert r2 == StreamRound(s, 3, l1, r1);
      assert l2 == HashRound(s, 4, l1, r2);
    }

    /** Each round is its own inverse, whatever the keystream and the hash. */
    lemma RoundsCancel(s: Bytes32, round: nat, l: Bytes32, r: Bytes)
      requires 1 <= round <= 4
      ensures StreamRound(s, round, l, StreamRound(s, round, l, r)) == r
      ensures HashRound(s, round, HashRound(s, round, l, r), r) == l
    {
      MaskCancels(stream(Xor(l, LionKey(s, round))), 0, r);
      XorCancels(l, mac32(LionKey(s, round), r));
    }

    lemma DecryptUndoesEncrypt(s: Bytes32, buf: Bytes)
      requires |buf| > LIONESS_L
      ensures DecryptBlock(s, EncryptBlock(s, buf)) == buf
    {
      var l0: Bytes, r0 := buf[..LIONESS_L], buf[LIONESS_L..];
      var r1 := StreamRound(s, 1, l0, r0);
      var l1: Bytes := HashRound(s, 2, l0, r1);
      var r2 := StreamRound(s, 3, l1, r1);
      var l2: Bytes := HashRound(s, 4, l1, r2);
      assert (l2 + r2)[..LIONESS_L] == l2 && (l2 + r2)[LIONESS_L..] == r2;
      RoundsCancel(s, 4, l1, r2);
      RoundsCancel(s, 3, l1, r1);
      RoundsCancel(s, 2, l0, r1);
      RoundsCancel(s, 1, l0, r0);
      assert buf == l0 + r0;
    }

    lemma EncryptUndoesDecrypt(s: Bytes32, buf: Bytes)
      requires |buf| > LIONESS_L
      ensures EncryptBlock(s, DecryptBlock(s, buf)) == buf
    {
      var l2: Bytes, r2 := buf[..LIONESS_L], buf[LIONESS_L..];
      var l1: Bytes := HashRound(s, 4, l2, r2);
      var r1 := StreamRound(s, 3, l1, r2);
      var l0: Bytes := HashRound(s, 2, l1, r1);
      var r0 := StreamRound(s, 1, l0, r1);
      assert (l0 + r0)[..LIONESS_L] == l0 && (l0 + r0)[LIONESS_L..] == r0;
      RoundsCancel(s, 1, l0, r1);
      RoundsCancel(s, 2, l1, r1);
      RoundsCancel(s, 3, l1, r2);
      RoundsCancel(s, 4, l2, r2);
      assert buf == l2 + r2;
    }
  }

  /** XORs `src` into `buf[lo..hi]` in place. */
  method XorInto(buf: array<u8>, lo: nat, hi: nat, src: Bytes)
    requires lo <= hi <= buf.Length
    requires |src| == hi - lo
    modifies buf
    ensures buf[..lo] == old(buf[..lo])
    ensures buf[lo..hi] == Xor(old(buf[lo..hi]), src)
    ensures buf[hi..] == old(buf[hi..])
  {
    hide Xor, XorByte;
    for i := lo to hi
      invariant forall j | 0 <= j < lo || i <= j < buf.Length :: buf[j] == old(buf[j])
      invariant forall j | lo <= j < i :: buf[j] == XorByte(old(buf[j]), src[j - lo])
    {
      buf[i] := XorByte(buf[i], src[i - lo]);
    }
    ghost var was, now := old(buf[lo..hi]), buf[lo..hi];
    assert forall k | 0 <= k < |src| :: was[k] == old(buf[lo + k]) && now[k] == buf[lo + k];
    XorOf(was, src, now);
  }

  /** R ^= S(L ^ k), in place. */
  method StreamRoundInPlace(c: Suite, s: Bytes32, round: nat, buf: array<u8>)
    requires buf.Length > LIONESS_L && 1 <= round <= 4
    modifies buf
    ensures buf[..LIONESS_L] == old(buf[..LIONESS_L])
    ensures buf[LIONESS_L..] == c.StreamRound(s, round, old(buf[..LIONESS_L]), old(buf[LIONESS_L..]))
  {
    var n := buf.Length;
    assert buf[LIONESS_L..n] == buf[LIONESS_L..];
    XorInto(buf, LIONESS_L, n, Slice(c.stream(Xor(buf[..LIONESS_L], c.LionKey(s, round))), 0, n - LIONESS_L));
    assert buf[LIONESS_L..n] == buf[LIONESS_L..];
  }

  /** L ^= H(k, R), in place. */
  method HashRoundInPlace(c: Suite, s: Bytes32, round: nat, buf: array<u8>)
    requires buf.Length > LIONESS_L && 1 <= round <= 4
    modifies buf
    ensures buf[..LIONESS_L] == c.HashRound(s, round, old(buf[..LIONESS_L]), old(buf[LIONESS_L..]))
    ensures buf[LIONESS_L..] == old(buf[LIONESS_L..])
  {
    XorInto(buf, 0, LIONESS_L, c.mac32(c.LionKey(s, round), buf[LIONESS_L..]));
  }

  method LionessEncrypt(c: Suite, s: Bytes32, buf: array<u8>)
    requires buf.Length > LIONESS_L
    modifies buf
    ensures buf[..] == c.EncryptBlock(s, old(buf[..]))
  {
    assert buf[..][..LIONESS_L] == buf[..LIONESS_L] && buf[..][LIONESS_L..] == buf[LIONESS_L..];
    StreamRoundInPlace(c, s, 1, buf);
    HashRoundInPlace(c, s, 2, buf);
    StreamRoundInPlace(c, s, 3, buf);
    HashRoundInPlace(c, s, 4, buf);
    assert buf[..] == buf[..LIONESS_L] + buf[LIONESS_L..];
  }

  method LionessDecrypt(c: Suite, s: Bytes32, buf: array<u8>)
    requires buf.Length > LIONESS_L
    modifies buf
    ensures buf[..] == c.DecryptBlock(s, old(buf[..]))
  {
    assert buf[..][..LIONESS_L] == buf[..LIONESS_L] && buf[..][LIONESS_L..] == buf[LIONESS_L..];
    HashRoundInPlace(c, s, 4, buf);
    StreamRoundInPlace(c, s, 3, buf);
    HashRoundInPlace(c, s, 2, buf);
    StreamRoundInPlace(c, s, 1, buf);
    assert buf[..] == buf[..LIONESS_L] + buf[LIONESS_L..];
  }
}
