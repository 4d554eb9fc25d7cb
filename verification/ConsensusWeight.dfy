/**
 What an observer's proof of work does to the consensus, shown on the smallest quorum, where no vote
 is trimmed.
 */
module ConsensusWeight {
  import opened Words
  import opened Consensus
  import opened ConsensusOrder

  predicate IsMean(mean: real, total: real, sum: real) {
    mean * total == sum
  }

  lemma MeanOfThree(s: seq<Vote>)
    requires |s| == 3 && Weighted(s)
    ensures TrimmedMean(s).Some?
    ensures IsMean(TrimmedMean(s).value, TotalWeight(s), WeightedSum(s)) && TotalWeight(s) > 0.0
  {
    hide Sort, Share, Weighted, Bounds;
    var kept := Kept(s);
    assert kept == Sort(s);
    SortPermutes(s);
    SumsPermute(kept, s, v => true);
    SomeRange(s);
    assert WeightedSum(kept) / TotalWeight(kept) * TotalWeight(kept) == WeightedSum(kept);
  }

  lemma SomeRange(s: seq<Vote>)
    requires s != [] && Weighted(s)
    ensures TotalWeight(s) >= REPUTATION_WEIGHT_FLOOR
  {
    hide Bounds, Share;
    if |s| == 1 {
      assert s[..0] == [] && s[0] in s;
    } else {
      assert forall v | v in s[..|s| - 1] :: v in s;
      assert s[|s| - 1] in s;
      SomeRange(s[..|s| - 1]);
    }
  }

  lemma SumsOfThree(a: Vote, b: Vote, c: Vote)
    ensures TotalWeight([a, b, c]) == a.weight + b.weight + c.weight
    ensures WeightedSum([a, b, c]) == Share(a) + Share(b) + Share(c)
  {
    hide Share;
    assert [a, b, c][..2] == [a, b] && [a, b][..1] == [a] && [a][..0] == [];
    assert TotalWeight([a]) == a.weight && WeightedSum([a]) == Share(a);
    assert TotalWeight([a, b]) == a.weight + b.weight && WeightedSum([a, b]) == Share(a) + Share(b);
  }

  /** One weight more by `d` draws the mean towards that vote's trust, and never past it. */
  lemma Drawn(mean: real, total: real, sum: real, mean': real, d: real, t: real)
    requires IsMean(mean, total, sum) && IsMean(mean', total + d, sum + d * t) && total > 0.0 && d > 0.0
    ensures mean < t ==> mean < mean' < t
    ensures mean > t ==> t < mean' < mean
    ensures mean == t ==> mean' == t
  {
    var w := total + d;
    assert (mean' - mean) * w == d * (t - mean) by {
      assert (mean' - mean) * w == mean' * w - (mean * total + mean * d);
    }
    assert (mean' - t) * w == (mean - t) * total by {
      assert (mean' - t) * w == mean' * w - (t * total + t * d);
    }
    SameSign(mean' - mean, w, t - mean, d);
    SameSign(mean' - t, w, mean - t, total);
  }

  lemma SameSign(x: real, w: real, y: real, d: real)
    requires w > 0.0 && d > 0.0 && x * w == d * y
    ensures (x > 0.0 <==> y > 0.0) && (x < 0.0 <==> y < 0.0)
  {
  }

  /** Between one bit and the cap, an observer with more proof of work draws the consensus strictly
      closer to its own score, whatever the other two say. */
  lemma WorkDraws(reports: map<Id, Report>, bits: Id -> nat, bits': Id -> nat, now: nat, order: seq<Id>)
    requires Lists(reports, now, order) && |order| == 3
    requires bits(order[0]) < bits'(order[0]) && bits(order[0]) < 16 && 1 < bits'(order[0])
    requires bits'(order[1]) == bits(order[1]) && bits'(order[2]) == bits(order[2])
    ensures var r, r' := TrimmedMean(Votes(reports, bits, order)), TrimmedMean(Votes(reports, bits', order));
            var t := 0.01 + reports[order[0]].score * 3.99;
            && r.Some? && r'.Some?
            && (r.value < t ==> r.value < r'.value < t)
            && (r.value > t ==> t < r'.value < r.value)
            && (r.value == t ==> r'.value == t)
  {
    hide TrimmedMean, Weight, Share, Weighted, IsMean;
    assert order[0] in order && order[1] in order && order[2] in order;
    var s, s' := Votes(reports, bits, order), Votes(reports, bits', order);
    assert s == [s[0], s[1], s[2]] && s' == [s'[0], s[1], s[2]];
    VotesWeighted(reports, bits, order);
    VotesWeighted(reports, bits', order);
    MeanOfThree(s);
    MeanOfThree(s');
    SumsOfThree(s[0], s[1], s[2]);
    SumsOfThree(s'[0], s[1], s[2]);
    WeightRises(bits(order[0]), bits'(order[0]));
    var d, t := s'[0].weight - s[0].weight, s[0].trust;
    HeavierShare(s[0], s'[0]);
    assert TotalWeight(s') == TotalWeight(s) + d && WeightedSum(s') == WeightedSum(s) + d * t;
    Drawn(TrimmedMean(s).value, TotalWeight(s), WeightedSum(s), TrimmedMean(s').value, d, t);
  }

  lemma HeavierShare(a: Vote, b: Vote)
    requires a.trust == b.trust
    ensures Share(b) == Share(a) + (b.weight - a.weight) * a.trust
  {
  }
}
