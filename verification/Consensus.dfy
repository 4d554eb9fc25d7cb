/**
 Consensus trust: the reports about one node, weighted by the observers' proof of work, sorted,
 trimmed at both ends and averaged. Trust scores and weights are real numbers.
 */
module Consensus {
  import opened Words

  type Id = nat

  const TRUST_MIN: real := 0.01
  const TRUST_MAX: real := 4.0
  const REPUTATION_VALIDITY_MS: nat := 3_600_000
  const REPUTATION_MIN_QUORUM: nat := 3
  const REPUTATION_WEIGHT_BITS: nat := 16
  const REPUTATION_WEIGHT_FLOOR: real := 0.0625
  const EPSILON: real := 0.0000000000000002220446049250313

  /** One observer's report: a score between 0 and 1, and when it was recorded. */
  datatype Report = Report(score: real, at: nat)

  datatype Vote = Vote(weight: real, trust: real)

  /** Reports from before are left out; a clock younger than the validity falls back to `now`. */
  function Cutoff(now: nat): nat {
    if now >= REPUTATION_VALIDITY_MS then now - REPUTATION_VALIDITY_MS else now
  }

  predicate Counts(at: nat, now: nat) {
    at >= Cutoff(now)
  }

  /** Exactly on which clocks a report counts for the whole of its validity: on a younger one every
      report but those of this very instant is left out. */
  lemma ValidityHonouredIff(now: nat)
    ensures (forall at: nat | at <= now :: Counts(at, now) <==> now - at <= REPUTATION_VALIDITY_MS)
       <==> now == 0 || now >= REPUTATION_VALIDITY_MS
  {
    if 0 < now < REPUTATION_VALIDITY_MS {
      assert !Counts(now - 1, now);
    }
  }

  function Weight(bits: nat): (w: real)
    ensures REPUTATION_WEIGHT_FLOOR <= w <= 1.0
  {
    var w := bits as real / REPUTATION_WEIGHT_BITS as real;
    if w < REPUTATION_WEIGHT_FLOOR then REPUTATION_WEIGHT_FLOOR else if w > 1.0 then 1.0 else w
  }

  /** More proof of work never counts for less, and counts for more exactly between one bit and the
      cap of sixteen; a full vote is sixteen times the least. */
  lemma WeightRises(a: nat, b: nat)
    requires a < b
    ensures Weight(a) <= Weight(b)
    ensures Weight(a) < Weight(b) <==> a < 16 && 1 < b
    ensures a <= 1 && 16 <= b ==> Weight(b) == 16.0 * Weight(a)
  {
  }

  function RealTrust(score: real): real {
    TRUST_MIN + score * (TRUST_MAX - TRUST_MIN)
  }

  // ---------------------------------------------------------------- sorting

  predicate Sorted(s: seq<Vote>) {
    forall i, j | 0 <= i <= j < |s| :: s[i].trust <= s[j].trust
  }

  /** Behind every vote that is not larger, so that equal scores keep their order. */
  function Insert(s: seq<Vote>, v: Vote): (r: seq<Vote>)
    ensures |r| == |s| + 1
  {
    if s == [] || s[|s| - 1].trust <= v.trust then s + [v]
    else Insert(s[..|s| - 1], v) + [s[|s| - 1]]
  }

  function Sort(s: seq<Vote>): (r: seq<Vote>)
    ensures |r| == |s|
  {
    if s == [] then [] else Insert(Sort(s[..|s| - 1]), s[|s| - 1])
  }

  lemma {:induction false} InsertSorted(s: seq<Vote>, v: Vote, top: real)
    requires Sorted(s) && v.trust <= top && forall i | 0 <= i < |s| :: s[i].trust <= top
    ensures Sorted(Insert(s, v)) && forall i | 0 <= i <= |s| :: Insert(s, v)[i].trust <= top
  {
    if s != [] && s[|s| - 1].trust > v.trust {
      var k := |s| - 1;
      InsertSorted(s[..k], v, s[k].trust);
    }
  }

  lemma {:induction false} SortSorted(s: seq<Vote>)
    ensures Sorted(Sort(s))
  {
    if s != [] {
      SortSorted(s[..|s| - 1]);
      var init, v := Sort(s[..|s| - 1]), s[|s| - 1];
      InsertSorted(init, v, if init == [] || init[|init| - 1].trust <= v.trust then v.trust else init[|init| - 1].trust);
    }
  }

  lemma {:induction false} SortOfSorted(s: seq<Vote>)
    requires Sorted(s)
    ensures Sort(s) == s
  {
    hide Insert, Sorted;
    if s != [] {
      var k := |s| - 1;
      InsertInOrder(s);
      SortOfSorted(s[..k]);
    }
  }

  lemma InsertInOrder(s: seq<Vote>)
    requires s != [] && Sorted(s)
    ensures var k := |s| - 1; Sorted(s[..k]) && Insert(s[..k], s[k]) == s
  {
    assert s == s[..|s| - 1] + [s[|s| - 1]];
  }

  // ---------------------------------------------------------------- counting

  function Count(s: seq<Vote>, p: Vote -> bool): (n: nat)
    ensures n <= |s|
  {
    if s == [] then 0 else Count(s[..|s| - 1], p) + if p(s[|s| - 1]) then 1 else 0
  }

  lemma {:induction false} CountInsert(s: seq<Vote>, v: Vote, p: Vote -> bool)
    ensures Count(Insert(s, v), p) == Count(s, p) + if p(v) then 1 else 0
  {
    if s == [] || s[|s| - 1].trust <= v.trust {
      assert (s + [v])[..|s|] == s;
    } else {
      var k := |s| - 1;
      CountInsert(s[..k], v, p);
      assert Insert(s, v)[..|s|] == Insert(s[..k], v);
    }
  }

  /** Sorting keeps how many votes have any given property. */
  lemma {:induction false} CountSort(s: seq<Vote>, p: Vote -> bool)
    ensures Count(Sort(s), p) == Count(s, p)
  {
    if s != [] {
      CountSort(s[..|s| - 1], p);
      CountInsert(Sort(s[..|s| - 1]), s[|s| - 1], p);
    }
  }

  /** A stretch of votes that all have the property is counted in full. */
  lemma {:induction false} CountStretch(s: seq<Vote>, p: Vote -> bool, a: nat, b: nat)
    requires a <= b <= |s| && forall i | a <= i < b :: p(s[i])
    ensures Count(s, p) >= b - a
  {
    if s != [] && a < b {
      var k := |s| - 1;
      if b == |s| {
        CountStretch(s[..k], p, a, b - 1);
      } else {
        CountStretch(s[..k], p, a, b);
      }
    }
  }

  /** Only votes at the positions in `bad` can have the property. */
  lemma {:induction false} CountBad(s: seq<Vote>, p: Vote -> bool, bad: set<nat>)
    requires forall i: nat | i < |s| && i !in bad :: !p(s[i])
    ensures Count(s, p) <= |bad|
  {
    if s != [] {
      var k := |s| - 1;
      if k in bad {
        CountBad(s[..k], p, bad - {k});
      } else {
        CountBad(s[..k], p, bad);
      }
    }
  }

  // ---------------------------------------------------------------- the trimmed mean

  function TotalWeight(s: seq<Vote>): real {
    if s == [] then 0.0 else TotalWeight(s[..|s| - 1]) + s[|s| - 1].weight
  }

  function Share(v: Vote): real {
    v.weight * v.trust
  }

  function WeightedSum(s: seq<Vote>): real {
    if s == [] then 0.0 else WeightedSum(s[..|s| - 1]) + Share(s[|s| - 1])
  }

  /** The votes left after dropping a quarter, rounded down, at each end. */
  function Kept(s: seq<Vote>): (k: seq<Vote>)
    requires |s| >= REPUTATION_MIN_QUORUM
    ensures k != []
  {
    var trim := |s| / 4;
    Sort(s)[trim..|s| - trim]
  }

  function TrimmedMean(s: seq<Vote>): Option<real> {
    if |s| < REPUTATION_MIN_QUORUM then None
    else
      var kept := Kept(s);
      if TotalWeight(kept) <= EPSILON then None
      else Some(WeightedSum(kept) / TotalWeight(kept))
  }

  predicate Weighted(s: seq<Vote>) {
    forall v | v in s :: v.weight >= REPUTATION_WEIGHT_FLOOR
  }

  predicate Bounds(lo: real, hi: real, total: real, sum: real) {
    lo * total <= sum <= hi * total
  }

  lemma {:induction false} MeanWithin(s: seq<Vote>, lo: real, hi: real)
    requires Weighted(s) && forall v | v in s :: lo <= v.trust <= hi
    ensures Bounds(lo, hi, TotalWeight(s), WeightedSum(s))
    ensures s != [] ==> TotalWeight(s) >= REPUTATION_WEIGHT_FLOOR
    ensures TotalWeight(s) >= 0.0
  {
    hide Bounds, Share;
    if s == [] {
      NothingWithin(lo, hi);
    } else {
      var init, v := s[..|s| - 1], s[|s| - 1];
      assert forall x | x in init :: x in s;
      assert v in s;
      MeanWithin(init, lo, hi);
      Accumulate(lo, hi, TotalWeight(init), WeightedSum(init), v);
    }
  }

  lemma NothingWithin(lo: real, hi: real)
    ensures Bounds(lo, hi, 0.0, 0.0)
  {
  }

  lemma Accumulate(lo: real, hi: real, total: real, sum: real, v: Vote)
    requires Bounds(lo, hi, total, sum) && v.weight >= 0.0 && lo <= v.trust <= hi
    ensures Bounds(lo, hi, total + v.weight, sum + Share(v))
  {
    var w, t := v.weight, v.trust;
    assert lo * w <= t * w <= hi * w;
    assert lo * (total + w) == lo * total + lo * w && hi * (total + w) == hi * total + hi * w;
  }

  lemma Cancel(a: real, b: real, w: real)
    requires w > 0.0 && a * w <= b * w
    ensures a <= b
  {
  }

  lemma QuotientWithin(s: real, w: real, lo: real, hi: real)
    requires w > 0.0 && Bounds(lo, hi, w, s)
    ensures lo <= s / w <= hi
  {
    var q := s / w;
    assert q * w == s;
    Cancel(lo, q, w);
    Cancel(q, hi, w);
  }

  lemma {:induction false} InsertKeepsWeights(s: seq<Vote>, v: Vote)
    requires Weighted(s) && v.weight >= REPUTATION_WEIGHT_FLOOR
    ensures Weighted(Insert(s, v))
  {
    if s != [] && s[|s| - 1].trust > v.trust {
      assert forall x | x in s[..|s| - 1] :: x in s;
      InsertKeepsWeights(s[..|s| - 1], v);
      assert s[|s| - 1] in s;
    }
  }

  lemma {:induction false} SortKeepsWeights(s: seq<Vote>)
    requires Weighted(s)
    ensures Weighted(Sort(s))
  {
    if s != [] {
      assert forall x | x in s[..|s| - 1] :: x in s;
      SortKeepsWeights(s[..|s| - 1]);
      assert s[|s| - 1] in s;
      InsertKeepsWeights(Sort(s[..|s| - 1]), s[|s| - 1]);
    }
  }

  // ---------------------------------------------------------------- the order of the reports

  lemma {:induction false} InsertPermutes(s: seq<Vote>, v: Vote)
    ensures multiset(Insert(s, v)) == multiset(s) + multiset{v}
  {
    if s != [] && s[|s| - 1].trust > v.trust {
      var k := |s| - 1;
      InsertPermutes(s[..k], v);
      assert s == s[..k] + [s[k]];
    }
  }

  /** Sorting only rearranges the votes. */
  lemma {:induction false} SortPermutes(s: seq<Vote>)
    ensures multiset(Sort(s)) == multiset(s)
  {
    if s != [] {
      var k := |s| - 1;
      SortPermutes(s[..k]);
      InsertPermutes(Sort(s[..k]), s[k]);
      assert s == s[..k] + [s[k]];
    }
  }

  predicate SameVotes(a: seq<Vote>, b: seq<Vote>) {
    |a| == |b| && multiset(a) == multiset(b)
  }

  // ---------------------------------------------------------------- the Byzantine bound

  /** The votes outside the positions in `bad` lie between `lo` and `hi`. */
  ghost predicate HonestWithin(s: seq<Vote>, bad: set<nat>, lo: real, hi: real) {
    forall i: nat | i < |s| && i !in bad :: lo <= s[i].trust <= hi
  }

  /** With at most a quarter of the votes bad, everything that is kept lies in the honest range. */
  lemma KeptWithin(s: seq<Vote>, bad: set<nat>, lo: real, hi: real)
    requires |s| >= REPUTATION_MIN_QUORUM && HonestWithin(s, bad, lo, hi) && |bad| <= |s| / 4
    ensures forall v | v in Kept(s) :: lo <= v.trust <= hi
  {
    hide Sort, Count;
    var n, trim, sorted := |s|, |s| / 4, Sort(s);
    var low, high := (v: Vote) => v.trust < lo, (v: Vote) => v.trust > hi;
    SortSorted(s);
    CountSort(s, low);
    CountSort(s, high);
    CountBad(s, low, bad);
    CountBad(s, high, bad);
    forall k | trim <= k < n - trim ensures lo <= sorted[k].trust <= hi {
      if sorted[k].trust < lo {
        CountStretch(sorted, low, 0, k + 1);
      }
      if sorted[k].trust > hi {
        CountStretch(sorted, high, k, n);
      }
    }
  }

  /** The mean lies in the honest range, whatever the weights and whatever the bad votes say. */
  lemma ByzantineBound(s: seq<Vote>, bad: set<nat>, lo: real, hi: real)
    requires |s| >= REPUTATION_MIN_QUORUM && Weighted(s)
    requires HonestWithin(s, bad, lo, hi) && |bad| <= |s| / 4
    ensures TrimmedMean(s).Some? && lo <= TrimmedMean(s).value <= hi
  {
    hide Sort, Bounds;
    var kept := Kept(s);
    KeptWithin(s, bad, lo, hi);
    SortKeepsWeights(s);
    assert forall v | v in kept :: v in Sort(s);
    MeanWithin(kept, lo, hi);
    QuotientWithin(WeightedSum(kept), TotalWeight(kept), lo, hi);
  }

  /** What is promised for `n` votes of which `b` may be bad: the mean stays in the honest range. */
  ghost predicate Resists(n: nat, b: nat) {
    forall s: seq<Vote>, bad: set<nat>, lo: real, hi: real ::
      |s| == n && Weighted(s) && |bad| <= b && HonestWithin(s, bad, lo, hi) ==>
        TrimmedMean(s).Some? && lo <= TrimmedMean(s).value <= hi
  }

  /** One bad vote more than a quarter, all pulling up: the honest say 1 with full weight, the bad
      say 2 with the least weight there is. */
  function Attack(n: nat): (s: seq<Vote>)
    ensures |s| == n
  {
    seq(n, i => if i < n - n / 4 - 1 then Vote(1.0, 1.0) else Vote(REPUTATION_WEIGHT_FLOOR, 2.0))
  }

  lemma {:induction false} SumAtLeastTotal(s: seq<Vote>)
    requires forall v | v in s :: v.weight >= 0.0 && v.trust in {1.0, 2.0}
    ensures WeightedSum(s) >= TotalWeight(s) >= 0.0
  {
    if s != [] {
      assert forall v | v in s[..|s| - 1] :: v in s;
      SumAtLeastTotal(s[..|s| - 1]);
      assert s[|s| - 1] in s;
    }
  }

  lemma AttackKept(n: nat)
    requires n >= REPUTATION_MIN_QUORUM
    ensures var kept := Kept(Attack(n));
            && kept[|kept| - 1] == Vote(REPUTATION_WEIGHT_FLOOR, 2.0)
            && forall v | v in kept :: v.weight >= 0.0 && v.trust in {1.0, 2.0}
  {
    hide Sort;
    var s := Attack(n);
    SortOfSorted(s);
    assert forall v | v in Kept(s) :: v in s;
  }

  lemma AttackSucceeds(n: nat)
    requires n >= REPUTATION_MIN_QUORUM
    ensures var bad := Interval(n - n / 4 - 1, n);
            && |bad| == n / 4 + 1 && HonestWithin(Attack(n), bad, 1.0, 1.0) && Weighted(Attack(n))
    ensures TrimmedMean(Attack(n)).Some? && TrimmedMean(Attack(n)).value > 1.0
  {
    hide Kept;
    var kept := Kept(Attack(n));
    AttackKept(n);
    SumAtLeastTotal(kept[..|kept| - 1]);
    MoreThanOne(WeightedSum(kept), TotalWeight(kept));
  }

  lemma MoreThanOne(s: real, w: real)
    requires s > w > 0.0
    ensures s / w > 1.0
  {
    var q := s / w;
    assert q * w == s;
    if q <= 1.0 {
      assert false;
    }
  }

  /** Exactly how many bad votes the mean resists: a quarter of the votes, rounded down. Trimming
      is by number of observers, so the weights play no part in it. */
  lemma ResistsIff(n: nat, b: nat)
    requires n >= REPUTATION_MIN_QUORUM
    ensures Resists(n, b) <==> b <= n / 4
  {
    hide TrimmedMean, HonestWithin, Attack, Weighted;
    if b <= n / 4 {
      forall s: seq<Vote>, bad: set<nat>, lo: real, hi: real
        | |s| == n && Weighted(s) && |bad| <= b && HonestWithin(s, bad, lo, hi)
        ensures TrimmedMean(s).Some? && lo <= TrimmedMean(s).value <= hi
      {
        ByzantineBound(s, bad, lo, hi);
      }
    } else {
      AttackSucceeds(n);
      var s, bad := Attack(n), Interval(n - n / 4 - 1, n);
      assert Weighted(s) && |bad| <= b && HonestWithin(s, bad, 1.0, 1.0);
      assert !(TrimmedMean(s).Some? && 1.0 <= TrimmedMean(s).value <= 1.0);
    }
  }

  // ---------------------------------------------------------------- reading the table

  predicate Fresh(reports: map<Id, Report>, now: nat, o: Id) {
    o in reports && Counts(reports[o].at, now)
  }

  function VoteOf(reports: map<Id, Report>, bits: Id -> nat, o: Id): Vote
    requires o in reports
  {
    Vote(Weight(bits(o)), RealTrust(reports[o].score))
  }

  predicate Distinct(order: seq<Id>) {
    forall i, j | 0 <= i < j < |order| :: order[i] != order[j]
  }

  /** `order` lists the observers with a fresh report, each once. */
  ghost predicate Lists(reports: map<Id, Report>, now: nat, order: seq<Id>) {
    Distinct(order) && forall o :: o in order <==> Fresh(reports, now, o)
  }

  function Votes(reports: map<Id, Report>, bits: Id -> nat, order: seq<Id>): (s: seq<Vote>)
    requires forall o | o in order :: o in reports
    ensures |s| == |order|
  {
    seq(|order|, i requires 0 <= i < |order| => assert order[i] in order; VoteOf(reports, bits, order[i]))
  }

  /** The consensus about one node, reading its reports in some order. */
  method ConsensusTrust(reports: map<Id, Report>, bits: Id -> nat, now: nat) returns (r: Option<real>)
    ensures exists order :: Lists(reports, now, order) && r == TrimmedMean(Votes(reports, bits, order))
  {
    hide TrimmedMean, Weight, RealTrust;
    var cutoff := Cutoff(now);
    var weighted: seq<Vote> := [];
    ghost var order: seq<Id> := [];
    var todo := reports.Keys;
    while todo != {}
      invariant todo <= reports.Keys
      invariant forall o :: o in order <==> o !in todo && Fresh(reports, now, o)
      invariant Distinct(order)
      invariant weighted == Votes(reports, bits, order)
      decreases todo
    {
      var o :| o in todo;
      todo := todo - {o};
      if reports[o].at >= cutoff {
        weighted := weighted + [Vote(Weight(bits(o)), RealTrust(reports[o].score))];
        order := order + [o];
        assert weighted == Votes(reports, bits, order);
      }
    }
    r := Average(weighted);
    assert Lists(reports, now, order);
  }

  method Average(weighted: seq<Vote>) returns (r: Option<real>)
    ensures r == TrimmedMean(weighted)
  {
    hide Sort, Insert;
    var n := |weighted|;
    if n < REPUTATION_MIN_QUORUM {
      return None;
    }
    var sorted := SortByTrust(weighted);
    var trim := n / 4;
    var end := if n - trim > trim + 1 then n - trim else trim + 1;
    var kept := sorted[trim..end];
    var totalW, weightedSum := 0.0, 0.0;
    for i := 0 to |kept|
      invariant totalW == TotalWeight(kept[..i]) && weightedSum == WeightedSum(kept[..i])
    {
      totalW := totalW + kept[i].weight;
      weightedSum := weightedSum + kept[i].weight * kept[i].trust;
      assert kept[..i + 1][..i] == kept[..i];
    }
    assert kept[..|kept|] == kept;
    if totalW <= EPSILON {
      return None;
    }
    return Some(weightedSum / totalW);
  }

  /** A stable sort, as the library's is; here by insertion. */
  method SortByTrust(votes: seq<Vote>) returns (sorted: seq<Vote>)
    ensures sorted == Sort(votes)
  {
    hide Insert;
    sorted := [];
    for i := 0 to |votes|
      invariant sorted == Sort(votes[..i])
    {
      sorted := InsertByTrust(sorted, votes[i]);
      assert votes[..i + 1][..i] == votes[..i];
    }
    assert votes[..|votes|] == votes;
  }

  method InsertByTrust(s: seq<Vote>, v: Vote) returns (r: seq<Vote>)
    ensures r == Insert(s, v)
  {
    var i := |s|;
    assert s[..i] == s && s[i..] == [];
    while i > 0 && s[i - 1].trust > v.trust
      invariant 0 <= i <= |s| && Insert(s, v) == Insert(s[..i], v) + s[i..]
    {
      assert s[..i][..i - 1] == s[..i - 1] && [s[i - 1]] + s[i..] == s[i - 1..];
      i := i - 1;
    }
    r := s[..i] + [v] + s[i..];
  }

  lemma VotesWeighted(reports: map<Id, Report>, bits: Id -> nat, order: seq<Id>)
    requires forall o | o in order :: o in reports
    ensures Weighted(Votes(reports, bits, order))
  {
    hide Weight, RealTrust;
  }

  lemma {:induction false} PositionsOf(order: seq<Id>, byz: set<Id>) returns (bad: set<nat>)
    requires Distinct(order)
    ensures |bad| <= |byz| && forall i: nat | i < |order| :: i in bad <==> order[i] in byz
  {
    if order == [] {
      bad := {};
    } else {
      var k := |order| - 1;
      if order[k] in byz {
        var rest := PositionsOf(order[..k], byz - {order[k]});
        bad := (rest - {k}) + {k};
        assert |rest - {k}| <= |rest|;
      } else {
        var rest := PositionsOf(order[..k], byz);
        bad := rest - {k};
        assert |rest - {k}| <= |rest|;
      }
    }
  }

  /** For a whole table: if the fresh reports of everyone outside `byz` put the node's trust between
      `lo` and `hi`, and at most a quarter of the fresh observers are in `byz`, then so does the
      consensus, in whatever order the reports are read; below quorum there is none. */
  lemma ConsensusResistsByzantine(reports: map<Id, Report>, bits: Id -> nat, now: nat, order: seq<Id>, byz: set<Id>, lo: real, hi: real)
    requires Lists(reports, now, order) && |byz| <= |order| / 4
    requires forall o | Fresh(reports, now, o) && o !in byz :: lo <= RealTrust(reports[o].score) <= hi
    ensures var r := TrimmedMean(Votes(reports, bits, order));
            && (r.Some? <==> |order| >= REPUTATION_MIN_QUORUM)
            && (r.Some? ==> lo <= r.value <= hi)
  {
    hide Weight, RealTrust, Kept;
    if |order| >= REPUTATION_MIN_QUORUM {
      var s := Votes(reports, bits, order);
      var bad := PositionsOf(order, byz);
      VotesWeighted(reports, bits, order);
      forall i: nat | i < |s| && i !in bad ensures lo <= s[i].trust <= hi {
        assert order[i] in order;
      }
      ByzantineBound(s, bad, lo, hi);
    }
  }

  /** The same on the scores themselves: 0 stands for the least trust and 1 for the most, and the
      consensus of three or more lies where the honest scores lie between the two. */
  lemma ConsensusFollowsScores(reports: map<Id, Report>, bits: Id -> nat, now: nat, order: seq<Id>, byz: set<Id>, lo: real, hi: real)
    requires Lists(reports, now, order) && |byz| <= |order| / 4
    requires forall o | Fresh(reports, now, o) && o !in byz :: lo <= reports[o].score <= hi
    ensures var r := TrimmedMean(Votes(reports, bits, order));
            && (r.Some? <==> |order| >= 3)
            && (r.Some? ==> 0.01 + lo * (4.0 - 0.01) <= r.value <= 0.01 + hi * (4.0 - 0.01))
  {
    hide TrimmedMean, Votes, Lists;
    var l, h := 0.01 + lo * (4.0 - 0.01), 0.01 + hi * (4.0 - 0.01);
    forall o | Fresh(reports, now, o) && o !in byz ensures l <= RealTrust(reports[o].score) <= h {
    }
    ConsensusResistsByzantine(reports, bits, now, order, byz, l, h);
  }

  ghost predicate Unanimous(reports: map<Id, Report>, now: nat, score: real) {
    forall o | Fresh(reports, now, o) :: reports[o].score == score
  }

  /** Where all agree the consensus is their score, brought to the range of trust; so the extremes
      give the least and the most trust, and a higher agreed score gives a higher consensus. */
  lemma UnanimousConsensus(reports: map<Id, Report>, bits: Id -> nat, now: nat, order: seq<Id>, score: real,
                           reports': map<Id, Report>, bits': Id -> nat, now': nat, order': seq<Id>, score': real)
    requires Lists(reports, now, order) && |order| >= 3 && Unanimous(reports, now, score)
    requires Lists(reports', now', order') && |order'| >= 3 && Unanimous(reports', now', score')
    ensures var r, r' := TrimmedMean(Votes(reports, bits, order)), TrimmedMean(Votes(reports', bits', order'));
            && r.Some? && r'.Some?
            && (score == 0.0 ==> r.value == TRUST_MIN) && (score == 1.0 ==> r.value == TRUST_MAX)
            && (score < score' ==> r.value < r'.value)
  {
    hide TrimmedMean, Votes, Lists;
    ConsensusFollowsScores(reports, bits, now, order, {}, score, score);
    ConsensusFollowsScores(reports', bits', now', order', {}, score', score');
  }

  /** Scores are between 0 and 1, and then the consensus is a trust a peer can have. */
  lemma ConsensusInRange(reports: map<Id, Report>, bits: Id -> nat, now: nat, order: seq<Id>)
    requires Lists(reports, now, order)
    requires forall o | o in reports :: 0.0 <= reports[o].score <= 1.0
    ensures var r := TrimmedMean(Votes(reports, bits, order)); r.Some? ==> TRUST_MIN <= r.value <= TRUST_MAX
  {
    hide TrimmedMean, Votes, Lists;
    forall o | Fresh(reports, now, o) ensures TRUST_MIN <= RealTrust(reports[o].score) <= TRUST_MAX {
      TrustInRange(reports[o].score);
    }
    ConsensusResistsByzantine(reports, bits, now, order, {}, TRUST_MIN, TRUST_MAX);
  }

  lemma TrustInRange(score: real)
    requires 0.0 <= score <= 1.0
    ensures TRUST_MIN <= RealTrust(score) <= TRUST_MAX
  {
  }

  /** The single trust signal: the mean of the local trust and the consensus, if there is one. */
  function CombinedTrust(local: real, consensus: Option<real>): real {
    match consensus
    case None => local
    case Some(c) => (local + c) * 0.5
  }

  /** A minority of bad observers moves the combined trust by at most half the way to the honest
      range: it stays between the local trust and the honest extremes. */
  lemma CombinedTrustBounded(local: real, reports: map<Id, Report>, bits: Id -> nat, now: nat, order: seq<Id>, byz: set<Id>, lo: real, hi: real)
    requires Lists(reports, now, order) && |byz| <= |order| / 4
    requires forall o | Fresh(reports, now, o) && o !in byz :: lo <= RealTrust(reports[o].score) <= hi
    ensures var c := CombinedTrust(local, TrimmedMean(Votes(reports, bits, order)));
            (if |order| < REPUTATION_MIN_QUORUM then c == local else (local + lo) * 0.5 <= c <= (local + hi) * 0.5)
  {
    hide TrimmedMean, Votes, Lists, RealTrust;
    ConsensusResistsByzantine(reports, bits, now, order, byz, lo, hi);
  }
}
