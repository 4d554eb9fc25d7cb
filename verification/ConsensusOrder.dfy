/**
 The order in which a hash map hands out the reports. The sort is stable, so of several equal scores
 at an edge of the part kept, the order decides which are trimmed. This module says exactly when the
 consensus depends on it.
 */
module ConsensusOrder {
  import opened Words
  import opened Consensus

  // ---------------------------------------------------------------- sums over the same votes

  function Without<T>(s: seq<T>, i: nat): (r: seq<T>)
    requires i < |s|
    ensures |r| == |s| - 1
  {
    s[..i] + s[i + 1..]
  }

  lemma {:induction false} SumsWithout(s: seq<Vote>, i: nat, p: Vote -> bool)
    requires i < |s|
    ensures TotalWeight(s) == TotalWeight(Without(s, i)) + s[i].weight
    ensures WeightedSum(s) == WeightedSum(Without(s, i)) + Share(s[i])
    ensures Count(s, p) == Count(Without(s, i), p) + if p(s[i]) then 1 else 0
    decreases |s|
  {
    hide Share;
    var k, r := |s| - 1, Without(s, i);
    if i == k {
      assert r == s[..k];
    } else {
      SumsWithout(s[..k], i, p);
      assert r[..k - 1] == Without(s[..k], i) && r[k - 1] == s[k];
    }
  }

  lemma BagWithout<T>(s: seq<T>, i: nat)
    requires i < |s|
    ensures multiset(Without(s, i)) == multiset(s) - multiset{s[i]}
  {
    assert s == s[..i] + [s[i]] + s[i + 1..];
  }

  /** The sums and counts depend on the votes only, not on their order. */
  lemma {:induction false} SumsPermute(a: seq<Vote>, b: seq<Vote>, p: Vote -> bool)
    requires SameVotes(a, b)
    ensures TotalWeight(a) == TotalWeight(b) && WeightedSum(a) == WeightedSum(b) && Count(a, p) == Count(b, p)
    decreases |a|
  {
    hide Share, Without;
    if a != [] {
      var k := |a| - 1;
      var i := SomeIndex(b, a[k]);
      SumsWithout(a, k, p);
      SumsWithout(b, i, p);
      BagWithout(a, k);
      BagWithout(b, i);
      SumsPermute(Without(a, k), Without(b, i), p);
    }
  }

  lemma SomeIndex<T>(s: seq<T>, x: T) returns (i: nat)
    requires x in multiset(s)
    ensures i < |s| && s[i] == x
  {
    assert x in s;
    i :| 0 <= i < |s| && s[i] == x;
  }

  // ---------------------------------------------------------------- sorted votes

  lemma NotAbove(t: seq<Vote>, t': seq<Vote>, i: nat)
    requires Sorted(t) && Sorted(t') && SameVotes(t, t') && i < |t|
    ensures t[i].trust >= t'[i].trust
  {
    hide Count, Interval;
    var p := (v: Vote) => v.trust <= t[i].trust;
    SumsPermute(t, t', p);
    CountStretch(t, p, 0, i + 1);
    if t'[i].trust > t[i].trust {
      CountBad(t', p, Interval(0, i));
    }
  }

  /** Sorted, the same votes show the same scores place by place. */
  lemma SameTrusts(t: seq<Vote>, t': seq<Vote>)
    requires Sorted(t) && Sorted(t') && SameVotes(t, t')
    ensures forall i | 0 <= i < |t| :: t[i].trust == t'[i].trust
  {
    hide Sorted;
    forall i: nat | i < |t| ensures t[i].trust == t'[i].trust {
      NotAbove(t, t', i);
      NotAbove(t', t, i);
    }
  }

  /** A cut between equal scores is harmless if the votes with that score are all alike. */
  predicate Harmless(t: seq<Vote>, c: nat)
    requires c <= |t|
  {
    0 < c < |t| && t[c - 1].trust == t[c].trust ==> forall v | v in t && v.trust == t[c].trust :: v == t[c]
  }

  lemma BelowCut(t: seq<Vote>, c: nat, v: Vote)
    requires Sorted(t) && c < |t|
    ensures v.trust < t[c].trust ==> multiset(t[..c])[v] == multiset(t)[v]
    ensures v.trust > t[c].trust ==> multiset(t[..c])[v] == 0
    ensures v in multiset(t[..c]) ==> v in t && exists i :: 0 <= i < c && t[i] == v
  {
    assert t == t[..c] + t[c..];
    if v in multiset(t[..c]) {
      var i := SomeIndex(t[..c], v);
      assert t[i] == v;
    }
    if v in multiset(t[c..]) {
      var i := SomeIndex(t[c..], v);
      assert t[c + i] == v;
    }
  }

  lemma OneValueLeft(a: multiset<Vote>, b: multiset<Vote>, u: Vote)
    requires |a| == |b| && forall v | v != u :: a[v] == b[v]
    ensures a == b
  {
    assert a[u := 0] == b[u := 0];
    assert |a[u := 0]| == |a| - a[u] && |b[u := 0]| == |b| - b[u];
  }

  /** What lies before a harmless cut is determined. */
  lemma PrefixDetermined(t: seq<Vote>, t': seq<Vote>, c: nat)
    requires Sorted(t) && Sorted(t') && SameVotes(t, t') && c <= |t| && Harmless(t, c)
    ensures multiset(t[..c]) == multiset(t'[..c])
  {
    hide Sorted;
    if c == 0 || c == |t| {
      assert t[..|t|] == t && t'[..|t'|] == t';
    } else {
      SameTrusts(t, t');
      var u := t[c];
      forall v | v != u ensures multiset(t[..c])[v] == multiset(t'[..c])[v] {
        BelowCut(t, c, v);
        BelowCut(t', c, v);
        if v.trust == u.trust {
          NotBefore(t, t', c, v);
        }
      }
      assert |multiset(t[..c])| == c == |multiset(t'[..c])|;
      OneValueLeft(multiset(t[..c]), multiset(t'[..c]), u);
    }
  }

  lemma NotBefore(t: seq<Vote>, t': seq<Vote>, c: nat, v: Vote)
    requires Sorted(t) && Sorted(t') && SameVotes(t, t') && 0 < c < |t| && Harmless(t, c)
    requires v != t[c] && v.trust == t[c].trust
    ensures v !in multiset(t[..c]) && v !in multiset(t'[..c])
  {
    SameTrusts(t, t');
    BelowCut(t, c, v);
    BelowCut(t', c, v);
    assert v in t <==> v in multiset(t);
    assert v in t' <==> v in multiset(t');
  }

  // ---------------------------------------------------------------- the condition

  predicate OneTrust(s: seq<Vote>) {
    forall v, w | v in s && w in s :: v.trust == w.trust
  }

  /** No quorum, or nothing but one score is kept, or both cuts are harmless. */
  predicate OrderFree(s: seq<Vote>) {
    || |s| < REPUTATION_MIN_QUORUM
    || OneTrust(Kept(s))
    || (Harmless(Sort(s), |s| / 4) && Harmless(Sort(s), |s| - |s| / 4))
  }

  ghost predicate SameInAnyOrder(s: seq<Vote>) {
    forall s' | SameVotes(s', s) :: TrimmedMean(s') == TrimmedMean(s)
  }

  lemma SortsAlike(s: seq<Vote>, s': seq<Vote>)
    requires SameVotes(s', s)
    ensures Sorted(Sort(s)) && Sorted(Sort(s')) && SameVotes(Sort(s), Sort(s'))
  {
    hide Sort;
    SortSorted(s);
    SortSorted(s');
    SortPermutes(s);
    SortPermutes(s');
  }

  lemma MiddleBag(t: seq<Vote>, lo: nat, hi: nat)
    requires lo <= hi <= |t|
    ensures multiset(t[lo..hi]) == multiset(t[..hi]) - multiset(t[..lo])
  {
    assert t[..hi] == t[..lo] + t[lo..hi];
  }

  lemma KeptAlike(s: seq<Vote>, s': seq<Vote>)
    requires |s| >= REPUTATION_MIN_QUORUM && SameVotes(s', s)
    requires Harmless(Sort(s), |s| / 4) && Harmless(Sort(s), |s| - |s| / 4)
    ensures SameVotes(Kept(s), Kept(s'))
  {
    hide Sort, Sorted, Harmless, SameVotes;
    var t, t', lo := Sort(s), Sort(s'), |s| / 4;
    var hi := |s| - lo;
    SameLength(s', s);
    SortsAlike(s, s');
    PrefixDetermined(t, t', lo);
    PrefixDetermined(t, t', hi);
    MiddleAlike(t, t', lo, hi);
  }

  lemma SameLength(a: seq<Vote>, b: seq<Vote>)
    requires SameVotes(a, b)
    ensures |a| == |b|
  {
  }

  lemma MiddleAlike(t: seq<Vote>, t': seq<Vote>, lo: nat, hi: nat)
    requires |t| == |t'| && lo <= hi <= |t|
    requires multiset(t[..lo]) == multiset(t'[..lo]) && multiset(t[..hi]) == multiset(t'[..hi])
    ensures SameVotes(t[lo..hi], t'[lo..hi])
  {
    MiddleBag(t, lo, hi);
    MiddleBag(t', lo, hi);
  }

  lemma HarmlessSuffices(s: seq<Vote>, s': seq<Vote>)
    requires |s| >= REPUTATION_MIN_QUORUM && SameVotes(s', s)
    requires Harmless(Sort(s), |s| / 4) && Harmless(Sort(s), |s| - |s| / 4)
    ensures TrimmedMean(s') == TrimmedMean(s)
  {
    hide Sort, TotalWeight, WeightedSum, Harmless, Kept;
    KeptAlike(s, s');
    SumsPermute(Kept(s), Kept(s'), (v: Vote) => true);
  }

  lemma MeanOfOneTrust(kept: seq<Vote>, x: real)
    requires kept != [] && Weighted(kept) && forall v | v in kept :: v.trust == x
    ensures TotalWeight(kept) > EPSILON && WeightedSum(kept) / TotalWeight(kept) == x
  {
    hide TotalWeight, WeightedSum, Bounds;
    MeanWithin(kept, x, x);
    QuotientWithin(WeightedSum(kept), TotalWeight(kept), x, x);
  }

  lemma KeptWeighted(s: seq<Vote>)
    requires |s| >= REPUTATION_MIN_QUORUM && Weighted(s)
    ensures Weighted(Kept(s))
  {
    hide Sort;
    SortKeepsWeights(s);
    assert forall v | v in Kept(s) :: v in Sort(s);
  }

  lemma OneTrustSuffices(s: seq<Vote>, s': seq<Vote>)
    requires |s| >= REPUTATION_MIN_QUORUM && SameVotes(s', s) && Weighted(s) && OneTrust(Kept(s))
    ensures TrimmedMean(s') == TrimmedMean(s)
  {
    hide Sort, TotalWeight, WeightedSum, Sorted;
    SortsAlike(s, s');
    SameTrusts(Sort(s), Sort(s'));
    var x, lo := Kept(s)[0].trust, |s| / 4;
    forall v | v in Kept(s) ensures v.trust == x {
    }
    forall v | v in Kept(s') ensures v.trust == x {
      var i :| 0 <= i < |Kept(s')| && Kept(s')[i] == v;
      assert Kept(s)[i] in Kept(s);
    }
    SameWeighted(s, s');
    KeptWeighted(s);
    KeptWeighted(s');
    MeanOfOneTrust(Kept(s), x);
    MeanOfOneTrust(Kept(s'), x);
  }

  lemma SameWeighted(s: seq<Vote>, s': seq<Vote>)
    requires SameVotes(s', s) && Weighted(s)
    ensures Weighted(s')
  {
    forall v | v in s' ensures v in s {
      assert v in multiset(s');
    }
  }

  // ---------------------------------------------------------------- and otherwise it matters

  /** Two votes of one score at a cut, one on each side, that differ. */
  lemma UnlikeAcross(t: seq<Vote>, c: nat) returns (i: nat, j: nat)
    requires c <= |t| && !Harmless(t, c)
    ensures i < c <= j < |t| && t[i].trust == t[j].trust == t[c].trust && t[i].weight != t[j].weight
  {
    var v :| v in t && v.trust == t[c].trust && v != t[c];
    var m :| 0 <= m < |t| && t[m] == v;
    if m < c {
      i, j := m, c;
    } else if t[c - 1].weight != t[c].weight {
      i, j := c - 1, c;
    } else {
      i, j := c - 1, m;
    }
  }

  /** Exchanging them changes the weight kept, but not what the kept scores exceed `x` by. */
  lemma Exchanged(k: seq<Vote>, m: nat, u: Vote)
    requires m < |k| && u.trust == k[m].trust
    ensures TotalWeight(k[m := u]) == TotalWeight(k) - k[m].weight + u.weight
    ensures var x := u.trust;
            WeightedSum(k[m := u]) - x * TotalWeight(k[m := u]) == WeightedSum(k) - x * TotalWeight(k)
  {
    hide TotalWeight, WeightedSum;
    var all := (v: Vote) => true;
    SumsWithout(k, m, all);
    SumsWithout(k[m := u], m, all);
    assert Without(k[m := u], m) == Without(k, m);
    var x, rest := u.trust, TotalWeight(Without(k, m));
    assert x * (rest + u.weight) == x * rest + x * u.weight && x * (rest + k[m].weight) == x * rest + x * k[m].weight;
  }

  /** Two means over the same excess above `x`, which is not zero, but over different weights. */
  lemma MeansDiffer(x: real, sum: real, w: real, sum': real, w': real)
    requires sum - x * w == sum' - x * w' && sum != x * w && w > 0.0 && w' > 0.0 && w != w'
    ensures sum / w != sum' / w'
  {
    var q, q', d := sum / w, sum' / w', sum - x * w;
    assert q * w == sum && q' * w' == sum';
    assert (q - x) * w == d && (q' - x) * w' == d;
    if q == q' {
      SameFactor(q - x, w, w', d);
    }
  }

  lemma SameFactor(e: real, w: real, w': real, d: real)
    requires e * w == d && e * w' == d && w != w'
    ensures d == 0.0
  {
    assert e * (w - w') == e * w - e * w';
  }

  /** Unless all kept votes have one score, those at an edge do not have the mean score. */
  lemma ExcessAtEdge(k: seq<Vote>, x: real, m: nat)
    requires Weighted(k) && m < |k| && k[m].trust != x
    requires (forall v | v in k :: v.trust >= x) || (forall v | v in k :: v.trust <= x)
    ensures WeightedSum(k) != x * TotalWeight(k)
  {
    hide TotalWeight, WeightedSum, Bounds;
    var r := Without(k, m);
    SumsWithout(k, m, (v: Vote) => true);
    assert forall v | v in r :: v in k;
    assert k[m] in k;
    var far := Extreme(r, x, k[m].trust >= x);
    if k[m].trust > x {
      MeanWithin(r, x, far);
    } else {
      MeanWithin(r, far, x);
    }
    StrictlyOff(x, far, TotalWeight(r), WeightedSum(r), k[m]);
  }

  lemma {:induction false} Extreme(r: seq<Vote>, x: real, up: bool) returns (far: real)
    ensures if up then far >= x && forall v | v in r :: v.trust <= far else far <= x && forall v | v in r :: v.trust >= far
  {
    far := x;
    if r != [] {
      var k := |r| - 1;
      far := Extreme(r[..k], x, up);
      if (up && r[k].trust > far) || (!up && r[k].trust < far) {
        far := r[k].trust;
      }
    }
  }

  lemma StrictlyOff(x: real, far: real, total: real, sum: real, v: Vote)
    requires v.weight > 0.0 && v.trust != x
    requires if v.trust > x then Bounds(x, far, total, sum) else Bounds(far, x, total, sum)
    ensures sum + Share(v) != x * (total + v.weight)
  {
    assert x * (total + v.weight) == x * total + x * v.weight;
    if v.trust > x {
      assert v.weight * v.trust > v.weight * x;
    } else {
      assert v.weight * v.trust < v.weight * x;
    }
  }

  function Swapped(t: seq<Vote>, a: nat, b: nat): (r: seq<Vote>)
    requires a < |t| && b < |t|
    ensures |r| == |t|
  {
    t[a := t[b]][b := t[a]]
  }

  /** Exchanging two votes of one score keeps the order sorted. */
  lemma SwapSorted(t: seq<Vote>, a: nat, b: nat)
    requires Sorted(t) && a < |t| && b < |t| && a != b && t[a].trust == t[b].trust
    ensures Sorted(Swapped(t, a, b)) && SameVotes(Swapped(t, a, b), t)
  {
    var r := Swapped(t, a, b);
    assert forall i | 0 <= i < |t| :: r[i].trust == t[i].trust;
    assert multiset(t[a := t[b]]) == multiset(t) - multiset{t[a]} + multiset{t[b]};
  }

  /** Exchanging a kept vote for a trimmed one of the same score but another weight moves the mean,
      if not all that is kept has this score. */
  lemma SwapMovesMean(t: seq<Vote>, a: nat, b: nat)
    requires |t| >= REPUTATION_MIN_QUORUM && Sorted(t) && Weighted(t)
    requires |t| / 4 <= a < |t| - |t| / 4 && b < |t| && (b < |t| / 4 || |t| - |t| / 4 <= b)
    requires t[a].trust == t[b].trust && t[a].weight != t[b].weight
    requires (forall v | v in Kept(t) :: v.trust >= t[a].trust) || (forall v | v in Kept(t) :: v.trust <= t[a].trust)
    requires !OneTrust(Kept(t))
    ensures TrimmedMean(Swapped(t, a, b)) != TrimmedMean(t)
  {
    hide Sort, TotalWeight, WeightedSum, Sorted, Weighted, OneTrust;
    var lo, t' := |t| / 4, Swapped(t, a, b);
    var hi := |t| - lo;
    SwapSorted(t, a, b);
    SortOfSorted(t);
    SortOfSorted(t');
    var k, m, u := t[lo..hi], a - lo, t[b];
    assert Kept(t) == k && Kept(t') == k[m := u] && k[m] == t[a];
    SameWeighted(t, t');
    KeptWeighted(t);
    KeptWeighted(t');
    PositiveTotal(k);
    PositiveTotal(k[m := u]);
    KeptMeansDiffer(k, m, u);
  }

  lemma KeptMeansDiffer(k: seq<Vote>, m: nat, u: Vote)
    requires m < |k| && Weighted(k) && Weighted(k[m := u]) && u.trust == k[m].trust && u.weight != k[m].weight
    requires (forall v | v in k :: v.trust >= u.trust) || (forall v | v in k :: v.trust <= u.trust)
    requires !OneTrust(k)
    ensures TotalWeight(k) > 0.0 && TotalWeight(k[m := u]) > 0.0
    ensures WeightedSum(k[m := u]) / TotalWeight(k[m := u]) != WeightedSum(k) / TotalWeight(k)
  {
    hide TotalWeight, WeightedSum, Weighted, OneTrust;
    PositiveTotal(k);
    PositiveTotal(k[m := u]);
    Exchanged(k, m, u);
    var i := SomeOther(k, u.trust);
    ExcessAtEdge(k, u.trust, i);
    MeansDiffer(u.trust, WeightedSum(k), TotalWeight(k), WeightedSum(k[m := u]), TotalWeight(k[m := u]));
  }

  lemma PositiveTotal(k: seq<Vote>)
    requires k != [] && Weighted(k)
    ensures TotalWeight(k) > EPSILON
  {
    hide TotalWeight, WeightedSum, Bounds;
    var top := Extreme(k, k[0].trust, true);
    var bottom := Extreme(k, k[0].trust, false);
    MeanWithin(k, bottom, top);
  }

  lemma SomeOther(k: seq<Vote>, x: real) returns (i: nat)
    requires !OneTrust(k)
    ensures i < |k| && k[i].trust != x
  {
    var v, w :| v in k && w in k && v.trust != w.trust;
    var y := if v.trust != x then v else w;
    i :| 0 <= i < |k| && k[i] == y;
  }

  /** A harmful cut lets two orders disagree. */
  lemma HarmfulCut(t: seq<Vote>, c: nat) returns (t': seq<Vote>)
    requires |t| >= REPUTATION_MIN_QUORUM && Sorted(t) && Weighted(t) && !OneTrust(Kept(t))
    requires (c == |t| / 4 || c == |t| - |t| / 4) && !Harmless(t, c)
    ensures SameVotes(t', t) && TrimmedMean(t') != TrimmedMean(t)
  {
    hide Sort, TrimmedMean, Weighted, Harmless, OneTrust, Sorted;
    var lo := |t| / 4;
    var hi := |t| - lo;
    SortOfSorted(t);
    var i, j := UnlikeAcross(t, c);
    if i < lo && j >= hi {
      AllBetween(t, i, j, lo, hi);
    }
    var a, b := if c == lo then j else i, if c == lo then i else j;
    EdgeOfKept(t, lo, hi, a, b);
    SwapMovesMean(t, a, b);
    SwapSorted(t, a, b);
    t' := Swapped(t, a, b);
  }

  lemma AllBetween(t: seq<Vote>, i: nat, j: nat, lo: nat, hi: nat)
    requires Sorted(t) && i < lo <= hi <= j < |t| && t[i].trust == t[j].trust
    ensures OneTrust(t[lo..hi])
  {
    forall v | v in t[lo..hi] ensures v.trust == t[i].trust {
      var m :| 0 <= m < hi - lo && t[lo..hi][m] == v;
      assert t[i].trust <= t[lo + m].trust <= t[j].trust;
    }
  }

  lemma EdgeOfKept(t: seq<Vote>, lo: nat, hi: nat, a: nat, b: nat)
    requires Sorted(t) && lo <= a < hi <= |t| && b < |t| && t[a].trust == t[b].trust && (b < lo || b >= hi)
    ensures (forall v | v in t[lo..hi] :: v.trust >= t[a].trust) || (forall v | v in t[lo..hi] :: v.trust <= t[a].trust)
  {
    forall v | v in t[lo..hi] ensures if b < lo then v.trust >= t[a].trust else v.trust <= t[a].trust {
      var m :| 0 <= m < hi - lo && t[lo..hi][m] == v;
      assert t[lo + m] == v;
    }
  }

  lemma HarmMatters(s: seq<Vote>)
    requires Weighted(s) && !OrderFree(s)
    ensures !SameInAnyOrder(s)
  {
    hide Sort, TrimmedMean, Sorted, Weighted, Harmless, OneTrust;
    var t, lo := Sort(s), |s| / 4;
    SortsAlike(s, s);
    SortPermutes(s);
    SortOfSorted(t);
    SameWeighted(s, t);
    var t' := HarmfulCut(t, if !Harmless(t, lo) then lo else |s| - lo);
    assert SameVotes(t, s) && SameVotes(t', s);
  }

  /** Exactly when the order of the votes does not matter. */
  lemma OrderFreeIff(s: seq<Vote>)
    requires Weighted(s)
    ensures SameInAnyOrder(s) <==> OrderFree(s)
  {
    hide Sort, TrimmedMean, Weighted, Harmless, OneTrust, Kept;
    if !OrderFree(s) {
      HarmMatters(s);
    } else {
      forall s' | SameVotes(s', s) ensures TrimmedMean(s') == TrimmedMean(s) {
        if |s| < REPUTATION_MIN_QUORUM {
          NoQuorum(s);
          NoQuorum(s');
        } else if OneTrust(Kept(s)) {
          OneTrustSuffices(s, s');
        } else {
          HarmlessSuffices(s, s');
        }
      }
    }
  }

  lemma NoQuorum(s: seq<Vote>)
    requires |s| < REPUTATION_MIN_QUORUM
    ensures TrimmedMean(s) == None
  {
  }

  /** An input on which the order matters: of two equal scores at the edge, the first is trimmed. */
  lemma OrderMatters()
    ensures exists s, s' | SameVotes(s, s') && Weighted(s) :: TrimmedMean(s) != TrimmedMean(s')
  {
    var heavy, light := Vote(1.0, 1.0), Vote(REPUTATION_WEIGHT_FLOOR, 1.0);
    var rest := [Vote(1.0, 2.0), Vote(1.0, 3.0)];
    var s, s' := [heavy, light] + rest, [light, heavy] + rest;
    FourVotes(s);
    FourVotes(s');
    assert SameVotes(s, s') && Weighted(s);
  }

  lemma FourVotes(s: seq<Vote>)
    requires |s| == 4 && Sorted(s) && s[1].weight + s[2].weight >= REPUTATION_WEIGHT_FLOOR
    ensures TrimmedMean(s) == Some((Share(s[1]) + Share(s[2])) / (s[1].weight + s[2].weight))
  {
    hide Share;
    SortOfSorted(s);
    var kept := Kept(s);
    assert kept == [s[1], s[2]];
    TwoVotes(s[1], s[2]);
  }

  lemma TwoVotes(a: Vote, b: Vote)
    ensures TotalWeight([a, b]) == a.weight + b.weight && WeightedSum([a, b]) == Share(a) + Share(b)
  {
    hide Share;
    assert [a, b][..1] == [a] && [a][..0] == [];
    assert TotalWeight([]) == 0.0 && WeightedSum([]) == 0.0;
    assert TotalWeight([a]) == a.weight && WeightedSum([a]) == Share(a);
  }

  // ---------------------------------------------------------------- for a whole table

  /** Two lists of the same observers give the same votes. */
  lemma {:induction false} SameObserversSameVotes(reports: map<Id, Report>, bits: Id -> nat, a: seq<Id>, b: seq<Id>)
    requires Distinct(a) && Distinct(b) && (forall o :: o in a <==> o in b) && forall o | o in a :: o in reports
    ensures SameVotes(Votes(reports, bits, a), Votes(reports, bits, b))
    decreases |a|
  {
    hide VoteOf;
    if a == [] {
      if b != [] {
        SomeoneListed(b);
      }
    } else {
      var k := |a| - 1;
      assert a[k] in b;
      var i :| 0 <= i < |b| && b[i] == a[k];
      var a1, b1 := a[..k], b[..i] + b[i + 1..];
      WithoutObserver(a, k);
      WithoutObserver(b, i);
      assert a[..k] + a[k + 1..] == a1;
      SameObserversSameVotes(reports, bits, a1, b1);
      VotesWithout(reports, bits, a, k);
      VotesWithout(reports, bits, b, i);
    }
  }

  lemma SomeoneListed(order: seq<Id>)
    requires order != []
    ensures exists o :: o in order
  {
    assert order[0] in order;
  }

  lemma WithoutObserver(a: seq<Id>, i: nat)
    requires Distinct(a) && i < |a|
    ensures var r := a[..i] + a[i + 1..]; Distinct(r) && forall o :: o in r <==> o in a && o != a[i]
  {
    var r := a[..i] + a[i + 1..];
    assert forall j | 0 <= j < |r| :: r[j] == a[if j < i then j else j + 1];
    forall o | o in a && o != a[i] ensures o in r {
      var j :| 0 <= j < |a| && a[j] == o;
      assert r[if j < i then j else j - 1] == o;
    }
  }

  lemma VotesWithout(reports: map<Id, Report>, bits: Id -> nat, a: seq<Id>, i: nat)
    requires i < |a| && forall o | o in a :: o in reports
    ensures var r := a[..i] + a[i + 1..];
            && (forall o | o in r :: o in reports)
            && a[i] in reports
            && multiset(Votes(reports, bits, a)) == multiset(Votes(reports, bits, r)) + multiset{VoteOf(reports, bits, a[i])}
  {
    hide VoteOf;
    var r := a[..i] + a[i + 1..];
    forall o | o in r ensures o in a {
    }
    assert a[i] in a;
    var v, w := Votes(reports, bits, a), Votes(reports, bits, r);
    assert v[..i] == w[..i] && v[i + 1..] == w[i..];
    assert v == v[..i] + [v[i]] + v[i + 1..] && w == w[..i] + w[i..];
  }

  lemma VotesSnoc(reports: map<Id, Report>, bits: Id -> nat, order: seq<Id>, o: Id)
    requires o in reports && forall x | x in order :: x in reports
    ensures Votes(reports, bits, order + [o]) == Votes(reports, bits, order) + [VoteOf(reports, bits, o)]
  {
    hide VoteOf;
  }

  /** Every arrangement of the votes is that of some list of the observers. */
  lemma {:induction false} Realised(reports: map<Id, Report>, bits: Id -> nat, order: seq<Id>, s: seq<Vote>) returns (order': seq<Id>)
    requires Distinct(order) && (forall o | o in order :: o in reports) && SameVotes(s, Votes(reports, bits, order))
    ensures Distinct(order') && (forall o :: o in order' <==> o in order) && Votes(reports, bits, order') == s
    decreases |order|
  {
    hide VoteOf, Votes, Distinct;
    if order == [] {
      order' := [];
      NothingDistinct();
    } else {
      var k := |s| - 1;
      var i, rest := OneLess(reports, bits, order, s);
      var before := Realised(reports, bits, rest, s[..k]);
      order' := before + [order[i]];
      DistinctSnoc(before, order[i]);
      VotesSnoc(reports, bits, before, order[i]);
      assert s[..k] + [s[k]] == s;
    }
  }

  lemma NothingDistinct()
    ensures Distinct([])
  {
  }

  lemma DistinctSnoc(order: seq<Id>, o: Id)
    requires Distinct(order) && o !in order
    ensures Distinct(order + [o])
  {
  }

  /** Take out an observer whose vote is the last one wanted. */
  lemma OneLess(reports: map<Id, Report>, bits: Id -> nat, order: seq<Id>, s: seq<Vote>) returns (i: nat, rest: seq<Id>)
    requires order != [] && Distinct(order) && (forall o | o in order :: o in reports)
    requires SameVotes(s, Votes(reports, bits, order))
    ensures i < |order| && order[i] in reports && VoteOf(reports, bits, order[i]) == s[|s| - 1]
    ensures |rest| < |order| && Distinct(rest) && (forall o :: o in rest <==> o in order && o != order[i])
    ensures (forall o | o in rest :: o in reports) && SameVotes(s[..|s| - 1], Votes(reports, bits, rest))
  {
    hide VoteOf, Distinct;
    var k, all := |s| - 1, Votes(reports, bits, order);
    assert s[k] in multiset(s);
    i := SomeIndex(all, s[k]);
    assert order[i] in order;
    rest := Without(order, i);
    WithoutObserver(order, i);
    VotesWithout(reports, bits, order, i);
    BagWithout(s, k);
    assert Without(s, k) == s[..k];
  }

  /** Whichever way the fresh reports are listed, the consensus is the same. */
  ghost predicate Determined(reports: map<Id, Report>, bits: Id -> nat, now: nat, order: seq<Id>)
    requires Lists(reports, now, order)
  {
    forall order' | Lists(reports, now, order') ::
      TrimmedMean(Votes(reports, bits, order')) == TrimmedMean(Votes(reports, bits, order))
  }

  /** Exactly when the consensus is a function of the table. */
  lemma ConsensusDeterminedIff(reports: map<Id, Report>, bits: Id -> nat, now: nat, order: seq<Id>)
    requires Lists(reports, now, order)
    ensures Determined(reports, bits, now, order) <==> OrderFree(Votes(reports, bits, order))
  {
    hide TrimmedMean, Votes, OrderFree, SameVotes, Fresh, Distinct;
    ListedReported(reports, now, order);
    var s := Votes(reports, bits, order);
    VotesWeighted(reports, bits, order);
    OrderFreeIff(s);
    if OrderFree(s) {
      forall order' | Lists(reports, now, order')
        ensures (forall o | o in order' :: o in reports) && TrimmedMean(Votes(reports, bits, order')) == TrimmedMean(s)
      {
        ListedReported(reports, now, order');
        SameObserversSameVotes(reports, bits, order', order);
      }
    } else {
      var s' :| SameVotes(s', s) && TrimmedMean(s') != TrimmedMean(s);
      var order' := Realised(reports, bits, order, s');
      assert Lists(reports, now, order');
      assert TrimmedMean(Votes(reports, bits, order')) != TrimmedMean(s);
    }
  }

  lemma ListedReported(reports: map<Id, Report>, now: nat, order: seq<Id>)
    requires Lists(reports, now, order)
    ensures forall o | o in order :: o in reports
  {
  }
}
