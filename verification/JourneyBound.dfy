/**
 How far the hop counter goes: a network in which it is used up, and the largest network that
 geometry alone can route.
 */
module JourneyBound {
  import opened Words
  import opened Transit
  import opened Journey

  predicate MutualAt(w: World, i: nat, n: Id, p: Id) {
    p in w(i)(n).peers ==> n in w(i)(p).peers
  }

  /** Peering is mutual, and the packet comes from a peer. */
  ghost predicate Linked(w: World, first: Hop) {
    && (forall i: nat, n: Id, p: Id :: MutualAt(w, i, n, p))
    && first.sender in w(0)(first.node).peers
  }

  /** Three nodes, all peers of one another, whose filters all claim the tag. */
  function Ring(n: Id): Tables {
    var claimer := Peer(1.0, {7}, {}, 1);
    Tables(Coord(0.0, 0.0), if n < 3 then map[(n + 1) % 3 := claimer, (n + 2) % 3 := claimer] else map[], map[])
  }

  function RingHop(i: nat): Hop
    requires i <= MAX_FORWARD_HOPS
  {
    Hop(i % 3, (i + 2) % 3, Packet((i + 2) % 3, 7, None, i))
  }

  lemma RingPeers(n: Id, p: Id)
    ensures p in Ring(n).peers <==> n < 3 && p < 3 && p != n
  {
  }

  lemma RingMutual(n: Id, p: Id)
    requires p in Ring(n).peers
    ensures n in Ring(p).peers
  {
    hide Ring;
    RingPeers(n, p);
    RingPeers(p, n);
  }

  lemma RingForwards(dist: Distance, i: nat)
    requires i < MAX_FORWARD_HOPS
    ensures NextHop(Ring(i % 3), dist, RingHop(i).packet, (i + 2) % 3, Some((i + 1) % 3))
  {
    var t := Ring(i % 3);
    assert (i % 3 + 1) % 3 == (i + 1) % 3 != (i + 2) % 3 == (i % 3 + 2) % 3;
    forall p ensures p in t.peers <==> p == (i + 1) % 3 || p == (i + 2) % 3 {
      RingPeers(i % 3, p);
    }
    assert Claims(t, 7, Some((i + 2) % 3), (i + 1) % 3);
  }

  function RingWorld(): World {
    (i: nat) => (n: Id) => Ring(n)
  }

  lemma RingLinked()
    ensures Linked(RingWorld(), RingHop(0))
  {
    hide Ring;
    RingPeers(0, 2);
    forall i: nat, n: Id, p: Id ensures MutualAt(RingWorld(), i, n, p) {
      if p in Ring(n).peers {
        RingMutual(n, p);
      }
    }
  }

  /** Filters that disagree can keep a packet going until the counter stops it. */
  lemma BoundReached(dist: Distance)
    ensures exists w: World, home: Id, j: seq<Hop> ::
      IsJourney(w, dist, home, j) && Linked(w, j[0]) && j[0].packet.watermark == 0 && |j| == MAX_FORWARD_HOPS + 1
  {
    hide NextHop, Ring, Linked;
    var w := RingWorld();
    var j := seq(MAX_FORWARD_HOPS + 1, i requires 0 <= i <= MAX_FORWARD_HOPS => RingHop(i));
    forall i: nat | i + 1 < |j| ensures StepAt(w, dist, 99, j, i) {
      RingForwards(dist, i);
    }
    RingLinked();
    assert IsJourney(w, dist, 99, j) && Linked(w, j[0]);
  }

  // ---------------------------------------------------------------- how large a network

  /** Every new packet reaches its node in every routable network of at most `n` nodes, in which
      peering is mutual. */
  ghost predicate AlwaysDelivers(n: nat) {
    forall w: World, dist: Distance, place: Id -> Coord, nodes: set<Id>, home: Id, j: seq<Hop> ::
      IsJourney(w, dist, home, j) && j != [] && Ended(w, dist, home, j) && Routable(w, dist, place, nodes, home, j[0]) ==>
        Linked(w, j[0]) && j[0].sender in nodes && j[0].packet.watermark == 0 && |nodes| <= n ==> j[|j| - 1].node == home
  }

  const FAR: nat := MAX_FORWARD_HOPS + 2

  /** Nodes in a line, each a peer of the next, from the sender 0 to FAR. */
  function LinePlace(n: Id): Coord {
    Coord(FAR as real - n as real, 0.0)
  }

  function LineNeighbours(n: Id): set<Id> {
    if n == 0 then {1} else {n - 1, n + 1}
  }

  function LineTables(n: Id): Tables {
    Tables(LinePlace(n), map p | p in LineNeighbours(n) :: Peer(1.0, {}, {}, 1), map p | p in LineNeighbours(n) :: LinePlace(p))
  }

  function LineDistance(a: Coord, b: Coord): real {
    a.radius - b.radius
  }

  function LineHop(i: nat): Hop
    requires i <= MAX_FORWARD_HOPS
  {
    Hop(i + 1, i, Packet(i, 7, Some(Coord(0.0, 0.0)), i))
  }

  lemma LineForwards(i: nat)
    requires i < MAX_FORWARD_HOPS
    ensures NextHop(LineTables(i + 1), LineDistance, LineHop(i).packet, i, Some(i + 2))
  {
    var t, dst := LineTables(i + 1), Coord(0.0, 0.0);
    assert t.peers.Keys == {i, i + 2};
    assert Closer(t, LineDistance, dst, Some(i), i + 2);
    assert GreedyChoice(t, LineDistance, dst, Some(i), Some(i + 2));
  }

  lemma LineHasCloser(n: Id, nodes: set<Id>)
    requires LineNeighbours(n) <= nodes
    ensures HasCloser(LineTables(n), LineDistance, LinePlace, nodes, n, Coord(0.0, 0.0))
  {
    assert n + 1 in LineTables(n).peers && n + 1 in LineTables(n).coords;
  }

  function LineWorld(): World {
    (k: nat) => (n: Id) => LineTables(n)
  }

  lemma LineRoutable()
    ensures Routable(LineWorld(), LineDistance, LinePlace, Interval(0, FAR + 1), FAR, LineHop(0))
  {
    hide HasCloser, Agreed, Interval, LineTables;
    var w := LineWorld();
    var nodes := Interval(0, FAR + 1);
    forall k: nat, n: Id ensures Agreed(w(k)(n), LinePlace, n) {
      LineAgreed(n);
    }
    forall k: nat, n: Id | n in nodes && n != FAR
      ensures HasCloser(w(k)(n), LineDistance, LinePlace, nodes, n, Coord(0.0, 0.0))
    {
      LineHasCloser(n, nodes);
    }
  }

  lemma LineLinked()
    ensures Linked(LineWorld(), LineHop(0))
  {
    hide LineTables;
    LineAgreed(1);
    forall k: nat, n: Id, p: Id ensures MutualAt(LineWorld(), k, n, p) {
      LineAgreed(n);
      LineAgreed(p);
    }
  }

  lemma LineAgreed(n: Id)
    ensures Agreed(LineTables(n), LinePlace, n) && LineTables(n).peers.Keys == LineNeighbours(n)
  {
  }

  /** The counter runs out one node short of the end of the line. */
  lemma LineTooLong()
    ensures !AlwaysDelivers(FAR + 1)
  {
    hide NextHop, Routable, Linked, LineTables, Interval;
    var w := LineWorld();
    var j := seq(MAX_FORWARD_HOPS + 1, i requires 0 <= i <= MAX_FORWARD_HOPS => LineHop(i));
    forall i: nat | i + 1 < |j| ensures StepAt(w, LineDistance, FAR, j, i) {
      LineForwards(i);
    }
    LineRoutable();
    LineLinked();
    assert IsJourney(w, LineDistance, FAR, j) && Ended(w, LineDistance, FAR, j);
    assert Routable(w, LineDistance, LinePlace, Interval(0, FAR + 1), FAR, j[0]);
  }

  /** Exactly how large a network the hop counter allows for, the sender included. */
  lemma DeliversIff(n: nat)
    ensures AlwaysDelivers(n) <==> n <= MAX_FORWARD_HOPS + 2
  {
    hide IsJourney, Ended, Routable, Linked;
    if n <= MAX_FORWARD_HOPS + 2 {
      forall w: World, dist: Distance, place: Id -> Coord, nodes: set<Id>, home: Id, j: seq<Hop>
        | IsJourney(w, dist, home, j) && j != [] && Ended(w, dist, home, j) && Routable(w, dist, place, nodes, home, j[0])
          && j[0].sender in nodes && j[0].packet.watermark == 0 && |nodes| <= n
        ensures j[|j| - 1].node == home
      {
        assert |nodes - {j[0].sender}| == |nodes| - 1;
        GreedyDelivers(w, dist, place, nodes, home, j);
      }
    } else {
      LineTooLong();
    }
  }
}
