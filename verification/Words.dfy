/** Fixed-width integers, byte strings and the XOR masks shared by the other modules. */
module Words {

  const U64_MODULUS: nat := 0x1_0000_0000_0000_0000
  const U64_MAX: nat := U64_MODULUS - 1

  type u8 = x: int | 0 <= x < 0x100
  type u16 = x: int | 0 <= x < 0x1_0000
  type u64 = x: int | 0 <= x < 0x1_0000_0000_0000_0000

  datatype Option<+T> = None | Some(value: T)

  datatype Result<+T, +E> = Ok(value: T) | Err(error: E)

  type Bytes = seq<u8>

  function Pow2(w: nat): (r: nat)
    ensures r > 0
  {
    if w == 0 then 1 else 2 * Pow2(w - 1)
  }

  /** XOR of the `w` low bits of two numbers, bit by bit. */
  function BitXor(w: nat, a: nat, b: nat): (r: nat)
    ensures r < Pow2(w)
  {
    if w == 0 then 0 else 2 * BitXor(w - 1, a / 2, b / 2) + if a % 2 == b % 2 then 0 else 1
  }

  lemma {:induction false} BitXorCancels(w: nat, a: nat, b: nat)
    requires a < Pow2(w)
    ensures BitXor(w, BitXor(w, a, b), b) == a
  {
    if w > 0 {
      var q, bit := BitXor(w - 1, a / 2, b / 2), if a % 2 == b % 2 then 0 else 1;
      BitXorCancels(w - 1, a / 2, b / 2);
      HalvesOf(q, bit);
    }
  }

  lemma {:induction false} BitXorRecovers(w: nat, a: nat, b: nat)
    requires b < Pow2(w)
    ensures BitXor(w, a, BitXor(w, a, b)) == b
  {
    if w > 0 {
      var q, bit := BitXor(w - 1, a / 2, b / 2), if a % 2 == b % 2 then 0 else 1;
      BitXorRecovers(w - 1, a / 2, b / 2);
      HalvesOf(q, bit);
    }
  }

  lemma HalvesOf(q: nat, bit: nat)
    requires bit < 2
    ensures (2 * q + bit) / 2 == q && (2 * q + bit) % 2 == bit
  {
  }

  lemma {:induction false} BitXorZero(w: nat, b: nat)
    requires b < Pow2(w)
    ensures BitXor(w, 0, b) == b
  {
    if w > 0 {
      BitXorZero(w - 1, b / 2);
    }
  }

  function XorByte(a: u8, b: u8): (r: u8) {
    assert Pow2(8) == 256;
    BitXor(8, a, b)
  }

  lemma XorByteLaws(a: u8, b: u8)
    ensures XorByte(XorByte(a, b), b) == a
    ensures XorByte(0, b) == b
  {
    assert Pow2(8) == 256;
    BitXorCancels(8, a, b);
    BitXorZero(8, b);
  }

  type Bytes16 = b: Bytes | |b| == 16 witness seq(16, _ => 0)
  type Bytes32 = b: Bytes | |b| == 32 witness seq(32, _ => 0)

  /** The number whose little-endian bytes are `lo` and `hi`. */
  function U16Le(lo: u8, hi: u8): (n: u16) {
    var low: int, high: int := lo, hi;
    low + 256 * high
  }

  function Pow256(n: nat): (r: nat)
    ensures r > 0
  {
    if n == 0 then 1 else 256 * Pow256(n - 1)
  }

  /** `v` as `n` bytes, least significant first. */
  function LeBytes(n: nat, v: nat): (b: Bytes)
    ensures |b| == n
  {
    if n == 0 then [] else [v % 256] + LeBytes(n - 1, v / 256)
  }

  function FromLe(b: Bytes): (v: nat)
    ensures v < Pow256(|b|)
  {
    if b == [] then 0
    else
      var low: int := b[0];
      low + 256 * FromLe(b[1..])
  }

  lemma {:induction false} LeRoundTrip(n: nat, v: nat)
    requires v < Pow256(n)
    ensures FromLe(LeBytes(n, v)) == v
  {
    if n > 0 {
      LeRoundTrip(n - 1, v / 256);
      assert LeBytes(n, v)[1..] == LeBytes(n - 1, v / 256);
    }
  }

  /** Byte `i` is the digit of 256^i. */
  lemma {:induction false} LeByteAt(n: nat, v: nat, i: nat)
    requires i < n
    ensures LeBytes(n, v)[i] == v / Pow256(i) % 256
  {
    if i > 0 {
      LeByteAt(n - 1, v / 256, i - 1);
      DivideTwice(v, Pow256(i - 1));
    }
  }

  lemma DivideTwice(v: nat, p: nat)
    requires p > 0
    ensures v / 256 / p == v / (256 * p)
  {
    var q := v / 256 / p;
    var r := v / 256 % p;
    assert v == 256 * (p * q + r) + v % 256;
    assert 256 * (p * q) == (256 * p) * q;
    DivisionUnique(v, 256 * p, q, 256 * r + v % 256);
  }

  lemma DivisionUnique(v: nat, d: nat, q: nat, r: nat)
    requires d > 0 && v == d * q + r && r < d
    ensures v / d == q
  {
    var q' := v / d;
    assert d * q' <= v < d * q' + d;
    if q' < q {
      Times(d, q' + 1, q);
    } else if q < q' {
      Times(d, q + 1, q');
    }
  }

  lemma Times(d: nat, a: nat, b: nat)
    requires a <= b
    ensures d * a <= d * b
  {
  }

  function Zeros(n: nat): (r: Bytes)
    ensures |r| == n
  {
    seq(n, _ => 0)
  }

  /** `a` XOR `b`, where `b` is at least as long as `a`. */
  function Xor(a: Bytes, b: Bytes): (r: Bytes)
    requires |a| <= |b|
    ensures |r| == |a|
  {
    seq(|a|, i requires 0 <= i < |a| => XorByte(a[i], b[i]))
  }

  /** `n` bytes of the keystream `stream`, from position `off` on. */
  function Slice(stream: nat -> u8, off: nat, n: nat): (r: Bytes)
    ensures |r| == n
  {
    seq(n, i requires 0 <= i < n => stream(off + i))
  }

  /** `data` XOR the keystream from position `off` on. */
  function Mask(stream: nat -> u8, off: nat, data: Bytes): (r: Bytes)
    ensures |r| == |data|
  {
    Xor(data, Slice(stream, off, |data|))
  }

  lemma XorOf(a: Bytes, b: Bytes, r: Bytes)
    requires |r| == |a| <= |b| && forall i | 0 <= i < |a| :: r[i] == XorByte(a[i], b[i])
    ensures r == Xor(a, b)
  {
    hide XorByte;
  }

  /** XOR with the same bytes twice gives the data back. */
  lemma XorCancels(a: Bytes, b: Bytes)
    requires |a| <= |b|
    ensures Xor(Xor(a, b), b) == a
  {
    forall i | 0 <= i < |a| ensures Xor(Xor(a, b), b)[i] == a[i] {
      XorByteLaws(a[i], b[i]);
    }
  }

  /** Masking twice at the same position gives the data back. */
  lemma MaskCancels(stream: nat -> u8, off: nat, data: Bytes)
    ensures Mask(stream, off, Mask(stream, off, data)) == data
  {
    XorCancels(data, Slice(stream, off, |data|));
  }

  lemma MaskAt(stream: nat -> u8, off: nat, data: Bytes, i: nat)
    requires i < |data|
    ensures Mask(stream, off, data)[i] == XorByte(data[i], stream(off + i))
  {
  }

  /** Masking is bytewise, so it commutes with taking a sub-string. */
  lemma MaskSlice(stream: nat -> u8, off: nat, data: Bytes, lo: nat, hi: nat)
    requires lo <= hi <= |data|
    ensures Mask(stream, off, data)[lo..hi] == Mask(stream, off + lo, data[lo..hi])
  {
    forall i | 0 <= i < hi - lo
      ensures Mask(stream, off, data)[lo..hi][i] == Mask(stream, off + lo, data[lo..hi])[i]
    {
      MaskAt(stream, off, data, lo + i);
      MaskAt(stream, off + lo, data[lo..hi], i);
      assert off + (lo + i) == (off + lo) + i;
    }
  }

  lemma MaskConcat(stream: nat -> u8, off: nat, a: Bytes, b: Bytes)
    ensures Mask(stream, off, a + b) == Mask(stream, off, a) + Mask(stream, off + |a|, b)
  {
    var m := Mask(stream, off, a + b);
    MaskSlice(stream, off, a + b, 0, |a|);
    MaskSlice(stream, off, a + b, |a|, |a + b|);
    assert (a + b)[0..|a|] == a && (a + b)[|a|..|a + b|] == b;
    assert m == m[0..|a|] + m[|a|..|a + b|];
  }

  /** The numbers from `a` up to `b`. */
  function Interval(a: nat, b: nat): (r: set<nat>)
    ensures forall i: nat :: i in r <==> a <= i < b
    ensures a <= b ==> |r| == b - a
  {
    if a >= b then {} else Interval(a, b - 1) + {b - 1}
  }
}
