/**
 Transit forwarding of a Traffic packet: greedy by distance to the stamped coordinate, then by the
 routing tag in the peers' cuckoo filters, under a hop counter. The distance is any function of two
 coordinates; a peer's filters, path-negative entry and link cost appear as what they answer for the
 packet's tag.
 */
module Transit {
  import opened Words
  import Consensus

  type Id = nat
  type Tag = nat

  const MAX_FORWARD_HOPS: nat := 32

  datatype Coord = Coord(radius: real, angle: real)

  type Distance = (Coord, Coord) -> real

  /** A neighbour: its combined trust, the tags its filters claim, the tags it lately denied, and its
      trust-adjusted link cost. */
  datatype Peer = Peer(trust: real, claims: set<Tag>, negative: set<Tag>, cost: nat)

  datatype Tables = Tables(own: Coord, peers: map<Id, Peer>, coords: map<Id, Coord>)

  datatype Packet = Packet(from: Id, tag: Tag, dest: Option<Coord>, watermark: u64)

  // ---------------------------------------------------------------- greedy

  function Clamped(trust: real): (t: real)
    ensures t > 0.0
  {
    if trust < Consensus.TRUST_MIN then Consensus.TRUST_MIN
    else if trust > Consensus.TRUST_MAX then Consensus.TRUST_MAX else trust
  }

  predicate Closer(t: Tables, dist: Distance, dst: Coord, exclude: Option<Id>, p: Id) {
    && p in t.peers && exclude != Some(p)
    && p in t.coords && dist(t.coords[p], dst) < dist(t.own, dst)
  }

  function Score(t: Tables, dist: Distance, dst: Coord, p: Id): real
    requires p in t.peers && p in t.coords
  {
    dist(t.coords[p], dst) / Clamped(t.peers[p].trust)
  }

  /** A strictly closer neighbour of least distance over trust; none only when none is closer. */
  ghost predicate GreedyChoice(t: Tables, dist: Distance, dst: Coord, exclude: Option<Id>, r: Option<Id>) {
    match r
    case None => forall p :: !Closer(t, dist, dst, exclude, p)
    case Some(b) =>
      && Closer(t, dist, dst, exclude, b)
      && forall p | Closer(t, dist, dst, exclude, p) :: Score(t, dist, dst, b) <= Score(t, dist, dst, p)
  }

  /** Nearer and more trusted scores better. */
  lemma NearerAndTrustedWins(t: Tables, dist: Distance, dst: Coord, a: Id, b: Id)
    requires a in t.peers && a in t.coords && b in t.peers && b in t.coords
    requires 0.0 <= dist(t.coords[a], dst) <= dist(t.coords[b], dst)
    requires t.peers[b].trust <= t.peers[a].trust
    ensures Score(t, dist, dst, a) <= Score(t, dist, dst, b)
  {
    Quotients(dist(t.coords[a], dst), dist(t.coords[b], dst), Clamped(t.peers[a].trust), Clamped(t.peers[b].trust));
  }

  /** At equal distance the more trusted of two neighbours scores strictly better, as long as their
      trust lies within the limits; beyond them it makes no difference. */
  lemma TrustDecides(t: Tables, dist: Distance, dst: Coord, a: Id, b: Id)
    requires a in t.peers && a in t.coords && b in t.peers && b in t.coords
    requires 0.0 < dist(t.coords[a], dst) == dist(t.coords[b], dst)
    ensures 0.01 <= t.peers[b].trust < t.peers[a].trust <= 4.0 ==> Score(t, dist, dst, a) < Score(t, dist, dst, b)
    ensures t.peers[a].trust <= 0.01 && t.peers[b].trust <= 0.01 ==> Score(t, dist, dst, a) == Score(t, dist, dst, b)
    ensures 4.0 <= t.peers[a].trust && 4.0 <= t.peers[b].trust ==> Score(t, dist, dst, a) == Score(t, dist, dst, b)
  {
    if 0.01 <= t.peers[b].trust < t.peers[a].trust <= 4.0 {
      SmallerQuotient(dist(t.coords[a], dst), t.peers[a].trust, t.peers[b].trust);
    }
  }

  lemma SmallerQuotient(x: real, p: real, q: real)
    requires 0.0 < x && 0.0 < q < p
    ensures x / p < x / q
  {
    var u, v := x / p, x / q;
    assert u * p == x && v * q == x;
    assert u * q < v * q;
    StrictCancel(u, v, q);
  }

  lemma StrictCancel(a: real, b: real, w: real)
    requires w > 0.0 && a * w < b * w
    ensures a < b
  {
  }

  lemma Quotients(x: real, y: real, p: real, q: real)
    requires 0.0 <= x <= y && 0.0 < q <= p
    ensures x / p <= y / q
  {
    var u, v := x / p, y / q;
    assert u * p == x && v * q == y;
    assert u * q <= u * p;
    Consensus.Cancel(u, v, q);
  }

  method GreedyNextHop(t: Tables, dist: Distance, dst: Coord, exclude: Option<Id>) returns (r: Option<Id>)
    ensures GreedyChoice(t, dist, dst, exclude, r)
  {
    hide Clamped;
    var ownDist := dist(t.own, dst);
    r := None;
    var bestScore := 0.0;
    var todo := t.peers.Keys;
    while todo != {}
      invariant todo <= t.peers.Keys
      invariant r.None? ==> forall p | p !in todo :: !Closer(t, dist, dst, exclude, p)
      invariant r.Some? ==> Closer(t, dist, dst, exclude, r.value) && bestScore == Score(t, dist, dst, r.value)
      invariant r.Some? ==> forall p | p !in todo && Closer(t, dist, dst, exclude, p) :: bestScore <= Score(t, dist, dst, p)
      decreases todo
    {
      var p :| p in todo;
      todo := todo - {p};
      if exclude == Some(p) || p !in t.coords {
        continue;
      }
      var d := dist(t.coords[p], dst);
      if d < ownDist {
        var score := d / Clamped(t.peers[p].trust);
        if r.None? || score < bestScore {
          bestScore := score;
          r := Some(p);
        }
      }
    }
  }

  // ---------------------------------------------------------------- by routing tag

  predicate Claims(t: Tables, tag: Tag, exclude: Option<Id>, p: Id) {
    p in t.peers && exclude != Some(p) && tag in t.peers[p].claims
  }

  predicate Denied(t: Tables, tag: Tag, p: Id)
    requires p in t.peers
  {
    tag in t.peers[p].negative
  }

  /** `b` should be used before or with `p`: undenied first, then the cheaper. */
  predicate Preferred(t: Tables, tag: Tag, b: Id, p: Id)
    requires b in t.peers && p in t.peers
  {
    if Denied(t, tag, b) == Denied(t, tag, p) then t.peers[b].cost <= t.peers[p].cost
    else Denied(t, tag, p)
  }

  /** A claiming neighbour no other is preferred to; none only when no other neighbour claims. */
  ghost predicate TagChoice(t: Tables, tag: Tag, exclude: Option<Id>, r: Option<Id>) {
    match r
    case None => forall p :: !Claims(t, tag, exclude, p)
    case Some(b) =>
      && Claims(t, tag, exclude, b)
      && forall p | Claims(t, tag, exclude, p) :: Preferred(t, tag, b, p)
  }

  /** What a choice by tag is: a neighbour whose filters claim the tag, other than the sender; one that
      lately denied the tag only if all of them did; and among its likes the cheapest. */
  lemma TagChoiceMeans(t: Tables, tag: Tag, exclude: Option<Id>, b: Id)
    requires TagChoice(t, tag, exclude, Some(b))
    ensures b in t.peers && exclude != Some(b) && tag in t.peers[b].claims
    ensures forall p | p in t.peers && exclude != Some(p) && tag in t.peers[p].claims ::
              if tag in t.peers[b].negative then tag in t.peers[p].negative && t.peers[b].cost <= t.peers[p].cost
              else tag in t.peers[p].negative || t.peers[b].cost <= t.peers[p].cost
  {
    forall p | p in t.peers && exclude != Some(p) && tag in t.peers[p].claims ensures Claims(t, tag, exclude, p) {
    }
  }

  /** `b` is the cheapest claimer outside `todo` with the given denial, if there is one. */
  ghost predicate Cheapest(t: Tables, tag: Tag, exclude: Option<Id>, todo: set<Id>, denied: bool, b: Option<(Id, nat)>) {
    match b
    case None => forall p | p !in todo && Claims(t, tag, exclude, p) :: Denied(t, tag, p) != denied
    case Some((k, c)) =>
      && k !in todo && Claims(t, tag, exclude, k) && Denied(t, tag, k) == denied && t.peers[k].cost == c
      && forall p | p !in todo && Claims(t, tag, exclude, p) && Denied(t, tag, p) == denied :: c <= t.peers[p].cost
  }

  method LookupByTagExcluding(t: Tables, tag: Tag, exclude: Option<Id>) returns (r: Option<Id>)
    ensures TagChoice(t, tag, exclude, r)
  {
    var best: Option<(Id, nat)> := None;
    var bestNeg: Option<(Id, nat)> := None;
    var todo := t.peers.Keys;
    while todo != {}
      invariant todo <= t.peers.Keys
      invariant Cheapest(t, tag, exclude, todo, false, best)
      invariant Cheapest(t, tag, exclude, todo, true, bestNeg)
      decreases todo
    {
      var p :| p in todo;
      todo := todo - {p};
      if exclude == Some(p) || tag !in t.peers[p].claims {
        continue;
      }
      var cost := t.peers[p].cost;
      if tag in t.peers[p].negative {
        if bestNeg.None? || cost < bestNeg.value.1 {
          bestNeg := Some((p, cost));
        }
      } else {
        if best.None? || cost < best.value.1 {
          best := Some((p, cost));
        }
      }
    }
    r := match best
      case Some((k, _)) => Some(k)
      case None => (match bestNeg case Some((k, _)) => Some(k) case None => None);
  }

  // ---------------------------------------------------------------- one node

  datatype Outcome = Forward(next: Id, packet: Packet) | Expired | NoRoute

  function Restamped(p: Packet, self: Id): Packet {
    p.(from := self, watermark := if p.watermark < U64_MAX then p.watermark + 1 else U64_MAX)
  }

  /** The next hop a node may take for a packet that came from `sender`. */
  ghost predicate NextHop(t: Tables, dist: Distance, p: Packet, sender: Id, next: Option<Id>) {
    if p.dest.Some? && exists b :: Closer(t, dist, p.dest.value, Some(sender), b) then
      next.Some? && GreedyChoice(t, dist, p.dest.value, Some(sender), next)
    else
      TagChoice(t, p.tag, Some(sender), next)
  }

  /** Handle a packet that is for someone else; `negative` says that a PathNegative goes back. */
  method HandleTransit(self: Id, t: Tables, dist: Distance, sender: Id, p: Packet, converging: bool)
    returns (out: Outcome, negative: bool)
    ensures out.Expired? <==> p.watermark >= MAX_FORWARD_HOPS
    ensures out.Forward? ==> out.packet == Restamped(p, self) && NextHop(t, dist, p, sender, Some(out.next))
    ensures out.NoRoute? ==> NextHop(t, dist, p, sender, None)
    ensures negative <==> out.Expired? || (out.NoRoute? && !converging)
  {
    hide Closer, Claims, Preferred;
    if p.watermark >= MAX_FORWARD_HOPS {
      return Expired, true;
    }
    var next: Option<Id> := None;
    if p.dest.Some? {
      next := GreedyNextHop(t, dist, p.dest.value, Some(sender));
    }
    if next.None? {
      next := LookupByTagExcluding(t, p.tag, Some(sender));
    }
    if next.Some? {
      out, negative := Forward(next.value, Restamped(p, self)), false;
    } else {
      out, negative := NoRoute, !converging;
    }
  }
}
