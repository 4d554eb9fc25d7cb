/**
 How large a share of the voting weight bad observers may hold before they can move the consensus.
 Trimming is by number, so a coalition of many light observers gets by with little weight.
 */
module ConsensusShare {
  import opened Words
  import opened Consensus

  /** Weights as the code gives them out. */
  predicate RealWeights(s: seq<Vote>) {
    forall v | v in s :: REPUTATION_WEIGHT_FLOOR <= v.weight <= 1.0
  }

  function BadWeight(s: seq<Vote>, bad: set<nat>): real {
    if s == [] then 0.0
    else
      var k := |s| - 1;
      BadWeight(s[..k], bad) + if k in bad then s[k].weight else 0.0
  }

  function BadCount(n: nat, bad: set<nat>): (c: nat)
    ensures c <= n
  {
    if n == 0 then 0 else BadCount(n - 1, bad) + if n - 1 in bad then 1 else 0
  }

  lemma {:induction false} BadCountIsSize(n: nat, bad: set<nat>)
    ensures |bad * Interval(0, n)| == BadCount(n, bad)
  {
    hide Interval;
    if n == 0 {
      assert bad * Interval(0, 0) == {};
    } else {
      BadCountIsSize(n - 1, bad);
      var before := bad * Interval(0, n - 1);
      assert bad * Interval(0, n) == if n - 1 in bad then before + {n - 1} else before;
    }
  }

  predicate AtMostShare(part: real, f: real, whole: real) {
    part <= f * whole
  }

  /** What is promised if the bad may hold the share `f` of the weight. */
  ghost predicate ResistsShare(n: nat, f: real) {
    forall s: seq<Vote>, bad: set<nat>, lo: real, hi: real ::
      |s| == n && RealWeights(s) && HonestWithin(s, bad, lo, hi) && AtMostShare(BadWeight(s, bad), f, TotalWeight(s)) ==>
        TrimmedMean(s).Some? && lo <= TrimmedMean(s).value <= hi
  }

  /** The least weight that can move the mean, and the total it is then part of, in units of the
      floor: one more than a quarter of the observers at the floor, everybody else at full weight. */
  function Least(n: nat): nat {
    n / 4 + 1
  }

  function LeastTotal(n: nat): nat
    requires n >= REPUTATION_MIN_QUORUM
  {
    16 * (n - Least(n)) + Least(n)
  }

  predicate BelowLeast(n: nat, f: real)
    requires n >= REPUTATION_MIN_QUORUM
  {
    f * LeastTotal(n) as real < Least(n) as real
  }

  /** Bad votes weigh at least the floor each, honest ones at most 1. */
  lemma {:induction false} WeightsBounded(s: seq<Vote>, bad: set<nat>)
    requires RealWeights(s)
    ensures BadWeight(s, bad) >= REPUTATION_WEIGHT_FLOOR * BadCount(|s|, bad) as real
    ensures TotalWeight(s) - BadWeight(s, bad) <= (|s| - BadCount(|s|, bad)) as real
    ensures TotalWeight(s) >= REPUTATION_WEIGHT_FLOOR * |s| as real
  {
    if s != [] {
      var k := |s| - 1;
      assert forall v | v in s[..k] :: v in s;
      assert s[k] in s;
      WeightsBounded(s[..k], bad);
    }
  }

  lemma LightBadAreFew(s: seq<Vote>, bad: set<nat>, f: real)
    requires |s| >= REPUTATION_MIN_QUORUM && RealWeights(s) && AtMostShare(BadWeight(s, bad), f, TotalWeight(s))
    requires BelowLeast(|s|, f)
    ensures BadCount(|s|, bad) <= |s| / 4
  {
    hide BelowLeast, AtMostShare, BadWeight, TotalWeight, RealWeights, BadCount;
    var n, b, weight, total := |s|, BadCount(|s|, bad), BadWeight(s, bad), TotalWeight(s);
    WeightsBounded(s, bad);
    if b > n / 4 {
      ShareTooSmall(n, b, weight, total, f);
    }
  }

  /** More than a quarter of the observers hold more than the share. */
  lemma ShareTooSmall(n: nat, b: nat, weight: real, total: real, f: real)
    requires n >= REPUTATION_MIN_QUORUM && n / 4 < b <= n && BelowLeast(n, f)
    requires weight >= REPUTATION_WEIGHT_FLOOR * b as real && total - weight <= (n - b) as real && total > 0.0
    ensures !AtMostShare(weight, f, total)
  {
    hide Least, LeastTotal;
    Leasts(n, b);
    var l := Least(n) as real;
    if f <= 0.0 {
      NotPositive(f, total);
    } else {
      Products(f, l, (LeastTotal(n) as real - l) / 16.0, weight, total - weight);
    }
  }

  lemma Leasts(n: nat, b: nat)
    requires n >= REPUTATION_MIN_QUORUM && n / 4 < b <= n
    ensures 1 <= Least(n) <= b && LeastTotal(n) >= Least(n)
    ensures (LeastTotal(n) as real - Least(n) as real) / 16.0 >= (n - b) as real
  {
    assert LeastTotal(n) as real - Least(n) as real == 16.0 * (n - Least(n)) as real;
  }

  lemma NotPositive(f: real, t: real)
    requires f <= 0.0 && t > 0.0
    ensures f * t <= 0.0
  {
  }

  lemma Products(f: real, l: real, h: real, w: real, r: real)
    requires f > 0.0 && l >= 1.0 && h >= 0.0 && 16.0 * w >= l && r <= h
    requires f * (16.0 * h + l) < l
    ensures w > f * (w + r)
  {
    assert f * (16.0 * h + l) == 16.0 * (f * h) + f * l;
    assert f * h >= 0.0;
    if f >= 1.0 {
      AtLeastOne(f, l);
    }
    assert (1.0 - f) * l == l - f * l;
    assert (1.0 - f) * (16.0 * w) >= (1.0 - f) * l;
    assert f * r <= f * h;
    assert (1.0 - f) * (16.0 * w) == 16.0 * (w - f * w) && f * (w + r) == f * w + f * r;
  }

  lemma AtLeastOne(f: real, l: real)
    requires f >= 1.0 && l >= 1.0
    ensures f * l >= l
  {
  }

  lemma AttackAt(n: nat, i: nat)
    requires i < n
    ensures Attack(n)[i] == if i < n - Least(n) then Vote(1.0, 1.0) else Vote(REPUTATION_WEIGHT_FLOOR, 2.0)
  {
  }

  lemma {:induction false} AttackSums(n: nat, m: nat)
    requires n >= REPUTATION_MIN_QUORUM && m <= n
    ensures var good, bad := n - Least(n), Interval(n - Least(n), n);
            && BadWeight(Attack(n)[..m], bad) == (if m <= good then 0.0 else REPUTATION_WEIGHT_FLOOR * (m - good) as real)
            && TotalWeight(Attack(n)[..m]) - BadWeight(Attack(n)[..m], bad) == (if m <= good then m else good) as real
  {
    hide Attack, Interval;
    if m > 0 {
      AttackSums(n, m - 1);
      AttackAt(n, m - 1);
      assert Attack(n)[..m][..m - 1] == Attack(n)[..m - 1];
    }
  }

  lemma AttackLight(n: nat, f: real)
    requires n >= REPUTATION_MIN_QUORUM && !BelowLeast(n, f)
    ensures var s, bad := Attack(n), Interval(n - Least(n), n);
            RealWeights(s) && AtMostShare(BadWeight(s, bad), f, TotalWeight(s))
  {
    hide Attack, Interval, BadWeight, TotalWeight;
    AttackSums(n, n);
    assert Attack(n)[..n] == Attack(n);
    forall v | v in Attack(n) ensures REPUTATION_WEIGHT_FLOOR <= v.weight <= 1.0 {
      var i :| 0 <= i < n && Attack(n)[i] == v;
      AttackAt(n, i);
    }
    Sixteenths(n, f, TotalWeight(Attack(n)));
  }

  lemma Sixteenths(n: nat, f: real, total: real)
    requires n >= REPUTATION_MIN_QUORUM && !BelowLeast(n, f)
    requires total == (n - Least(n)) as real + REPUTATION_WEIGHT_FLOOR * Least(n) as real
    ensures AtMostShare(REPUTATION_WEIGHT_FLOOR * Least(n) as real, f, total)
  {
    assert LeastTotal(n) as real == 16.0 * total;
    assert f * (16.0 * total) == 16.0 * (f * total);
  }

  /** Exactly which share of the weight the mean resists. */
  lemma ResistsShareIff(n: nat, f: real)
    requires n >= REPUTATION_MIN_QUORUM
    ensures ResistsShare(n, f) <==> f * LeastTotal(n) as real < Least(n) as real
  {
    hide TrimmedMean, HonestWithin, Attack, RealWeights, TotalWeight, BadWeight, AtMostShare, Interval, BadCount;
    if BelowLeast(n, f) {
      forall s: seq<Vote>, bad: set<nat>, lo: real, hi: real
        | |s| == n && RealWeights(s) && HonestWithin(s, bad, lo, hi) && AtMostShare(BadWeight(s, bad), f, TotalWeight(s))
        ensures TrimmedMean(s).Some? && lo <= TrimmedMean(s).value <= hi
      {
        LightBadAreFew(s, bad, f);
        BadCountIsSize(n, bad);
        OnlyPositions(s, bad, lo, hi);
        ByzantineBound(s, bad * Interval(0, n), lo, hi);
      }
    } else {
      var s, bad := Attack(n), Interval(n - Least(n), n);
      AttackSucceeds(n);
      AttackLight(n, f);
      assert HonestWithin(s, bad, 1.0, 1.0);
      assert !(TrimmedMean(s).Some? && 1.0 <= TrimmedMean(s).value <= 1.0);
    }
  }

  lemma OnlyPositions(s: seq<Vote>, bad: set<nat>, lo: real, hi: real)
    requires RealWeights(s) && HonestWithin(s, bad, lo, hi)
    ensures Weighted(s) && HonestWithin(s, bad * Interval(0, |s|), lo, hi)
  {
    hide Interval;
  }

  /** A quarter of the weight is never resisted, whatever the number of observers; the bad votes
      that show it weigh no more than that. */
  lemma QuarterOfWeightFails(n: nat)
    requires n >= REPUTATION_MIN_QUORUM
    ensures !ResistsShare(n, 0.25)
    ensures 4.0 * BadWeight(Attack(n), Interval(n - Least(n), n)) <= TotalWeight(Attack(n))
  {
    hide ResistsShare, Attack, BadWeight, TotalWeight, Interval;
    ResistsShareIff(n, 0.25);
    AttackLight(n, 0.25);
  }
}
