/**
 How candidate roots are ranked. A node's metric is its key XOR a salt that depends on the tree and
 the epoch; metrics are compared as byte strings. The rank of a node is its metric read as one
 big-endian number, so that comparing ranks is comparing metrics.
 */
module TreeMath {
  import opened Words

  type Key = Bytes32

  /** Byte-by-byte comparison, first difference decides. */
  predicate MetricLess(a: Bytes, b: Bytes)
    requires |a| == |b|
  {
    a != [] && (a[0] < b[0] || (a[0] == b[0] && MetricLess(a[1..], b[1..])))
  }

  function BigEndian(a: Bytes): (n: nat)
    ensures n < Pow256(|a|)
  {
    if a == [] then 0
    else
      var first: int := a[0];
      Scaled(first, Pow256(|a| - 1), BigEndian(a[1..]));
      first * Pow256(|a| - 1) + BigEndian(a[1..])
  }

  lemma Scaled(d: int, p: nat, r: nat)
    requires 0 <= d < 256 && r < p
    ensures 0 <= d * p + r < 256 * p
  {
    assert d * p <= 255 * p;
  }

  lemma LeadingDigitDecides(d: int, e: int, p: nat, r: nat, q: nat)
    requires d < e && r < p && 0 <= q
    ensures d * p + r < e * p + q
  {
    assert (d + 1) * p <= e * p;
  }

  /** Comparing metrics byte by byte is comparing them as numbers. */
  lemma {:induction false} MetricLessIsNumeric(a: Bytes, b: Bytes)
    requires |a| == |b|
    ensures MetricLess(a, b) <==> BigEndian(a) < BigEndian(b)
    ensures a == b <==> BigEndian(a) == BigEndian(b)
  {
    if a != [] {
      var p, x, y := Pow256(|a| - 1), BigEndian(a[1..]), BigEndian(b[1..]);
      MetricLessIsNumeric(a[1..], b[1..]);
      assert a == [a[0]] + a[1..] && b == [b[0]] + b[1..];
      if a[0] < b[0] {
        LeadingDigitDecides(a[0], b[0], p, x, y);
      } else if b[0] < a[0] {
        LeadingDigitDecides(b[0], a[0], p, y, x);
      }
    }
  }

  /** The metric of a key under a salt, XORed into a copy of the key byte by byte. */
  method TreeMetricAt(key: Key, salt: Key) returns (metric: Bytes)
    ensures metric == Xor(key, salt)
  {
    var buf := new u8[32](i requires 0 <= i < 32 => key[i]);
    for i := 0 to 32
      invariant forall j | 0 <= j < i :: buf[j] == XorByte(key[j], salt[j])
      invariant forall j | i <= j < 32 :: buf[j] == key[j]
    {
      buf[i] := XorByte(buf[i], salt[i]);
    }
    metric := buf[..];
  }

  function Rank(salt: Key, key: Key): nat {
    BigEndian(Xor(key, salt))
  }

  /** Within one epoch every node ranks the same way, and no two nodes tie. */
  lemma RankInjective(salt: Key, a: Key, b: Key)
    ensures Rank(salt, a) == Rank(salt, b) <==> a == b
    ensures Rank(salt, a) < Rank(salt, b) <==> MetricLess(Xor(a, salt), Xor(b, salt))
  {
    MetricLessIsNumeric(Xor(a, salt), Xor(b, salt));
    XorCancels(a, salt);
    XorCancels(b, salt);
  }

  // ---------------------------------------------------------------- ranked candidates

  /** No two candidates tie. Ranks stand for metrics: smaller is better. */
  ghost predicate NoTies<T(!new)>(rank: T -> nat) {
    forall a, b :: rank(a) == rank(b) ==> a == b
  }

  /** The metrics of one tree and epoch are such a ranking of the keys. */
  lemma MetricsDoNotTie(salt: Key)
    ensures NoTies((k: Key) => Rank(salt, k))
  {
    forall a: Key, b: Key | Rank(salt, a) == Rank(salt, b) ensures a == b {
      RankInjective(salt, a, b);
    }
  }

  /** `r` is the best-ranked member of `s`. */
  ghost predicate IsLeast<T>(rank: T -> nat, r: T, s: set<T>) {
    r in s && forall x | x in s :: rank(r) <= rank(x)
  }

  lemma LeastUnique<T(!new)>(rank: T -> nat, r: T, r': T, s: set<T>)
    requires NoTies(rank) && IsLeast(rank, r, s) && IsLeast(rank, r', s)
    ensures r == r'
  {
    assert rank(r) == rank(r');
  }
}
