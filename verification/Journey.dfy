/**
 The journey of a Traffic packet through the transit nodes of a network. Every node may change its
 tables between two hops.
 */
module Journey {
  import opened Words
  import opened Graphs
  import opened Transit

  /** A packet at a node, with the neighbour that handed it over. */
  datatype Hop = Hop(node: Id, sender: Id, packet: Packet)

  /** Everyone's tables when the packet makes its i-th hop. */
  type World = nat -> Id -> Tables

  ghost predicate StepAt(w: World, dist: Distance, home: Id, j: seq<Hop>, i: nat)
    requires i + 1 < |j|
  {
    var h, n := j[i], j[i + 1];
    && h.node != home && h.packet.watermark < MAX_FORWARD_HOPS
    && NextHop(w(i)(h.node), dist, h.packet, h.sender, Some(n.node))
    && n.sender == h.node && n.packet == Restamped(h.packet, h.node)
  }

  /** Forwarded at every node but the last, never past `home`, the node the packet is for. */
  ghost predicate IsJourney(w: World, dist: Distance, home: Id, j: seq<Hop>) {
    j != [] && forall i: nat | i + 1 < |j| :: StepAt(w, dist, home, j, i)
  }

  lemma HopTaken(t: Tables, dist: Distance, p: Packet, sender: Id, next: Id)
    requires NextHop(t, dist, p, sender, Some(next))
    ensures next in t.peers && next != sender
    ensures || p.tag in t.peers[next].claims
            || (p.dest.Some? && next in t.coords && dist(t.coords[next], p.dest.value) < dist(t.own, p.dest.value))
  {
  }

  /** What every journey keeps, whatever the tables: the tag and coordinate stay, the hop counter
      counts, and the sender field names the node before. */
  lemma {:induction false} JourneyKeeps(w: World, dist: Distance, home: Id, j: seq<Hop>, i: nat)
    requires IsJourney(w, dist, home, j) && i < |j|
    ensures j[i].packet.tag == j[0].packet.tag && j[i].packet.dest == j[0].packet.dest
    ensures j[i].packet.watermark == j[0].packet.watermark + i
    ensures i > 0 ==> j[i].packet.from == j[i].sender == j[i - 1].node
    ensures i + 1 < |j| ==> j[i + 1].node != j[i].sender
  {
    hide NextHop;
    if i + 1 < |j| {
      assert StepAt(w, dist, home, j, i);
      HopTaken(w(i)(j[i].node), dist, j[i].packet, j[i].sender, j[i + 1].node);
    }
    if i > 0 {
      JourneyKeeps(w, dist, home, j, i - 1);
      assert StepAt(w, dist, home, j, i - 1);
    }
  }

  /** A packet is forwarded at most MAX_FORWARD_HOPS times, and never straight back, however the
      tables of the network disagree. */
  lemma HopsBounded(w: World, dist: Distance, home: Id, j: seq<Hop>)
    requires IsJourney(w, dist, home, j)
    ensures |j| == 1 || |j| - 1 <= MAX_FORWARD_HOPS - j[0].packet.watermark
    ensures forall i: nat | i + 2 < |j| :: j[i + 2].node != j[i].node
  {
    hide NextHop;
    if |j| > 1 {
      JourneyKeeps(w, dist, home, j, |j| - 2);
      assert StepAt(w, dist, home, j, |j| - 2);
    }
    forall i: nat | i + 2 < |j| ensures j[i + 2].node != j[i].node {
      JourneyKeeps(w, dist, home, j, i + 1);
    }
  }

  // ---------------------------------------------------------------- agreed coordinates

  /** The nodes' tables agree on one place for every node. */
  ghost predicate Agreed(t: Tables, place: Id -> Coord, n: Id) {
    t.own == place(n) && forall p | p in t.coords :: t.coords[p] == place(p)
  }

  ghost predicate WorldAgreed(w: World, place: Id -> Coord) {
    forall i: nat, n: Id :: Agreed(w(i)(n), place, n)
  }

  /** Every node but `home` always has a neighbour strictly closer to the destination than itself. */
  ghost predicate Embedded(w: World, dist: Distance, place: Id -> Coord, nodes: set<Id>, home: Id, dst: Coord) {
    forall i: nat, n: Id | n in nodes && n != home :: HasCloser(w(i)(n), dist, place, nodes, n, dst)
  }

  ghost predicate HasCloser(t: Tables, dist: Distance, place: Id -> Coord, nodes: set<Id>, n: Id, dst: Coord) {
    && t.peers.Keys <= nodes
    && exists p :: p in t.peers && p in t.coords && dist(place(p), dst) < dist(place(n), dst)
  }

  /** The hop at `i` was taken by the greedy rule. */
  ghost predicate GreedyAt(w: World, dist: Distance, j: seq<Hop>, i: nat)
    requires i < |j|
  {
    var p := j[i].packet;
    p.dest.Some? && exists b :: Closer(w(i)(j[i].node), dist, p.dest.value, Some(j[i].sender), b)
  }

  function Away(dist: Distance, place: Id -> Coord, n: Id, dst: Coord): real {
    dist(place(n), dst)
  }

  lemma GreedyHopCloser(t: Tables, dist: Distance, place: Id -> Coord, n: Id, p: Packet, sender: Id, next: Id)
    requires NextHop(t, dist, p, sender, Some(next)) && Agreed(t, place, n)
    requires p.dest.Some? && exists b :: Closer(t, dist, p.dest.value, Some(sender), b)
    ensures Away(dist, place, next, p.dest.value) < Away(dist, place, n, p.dest.value)
  {
    assert GreedyChoice(t, dist, p.dest.value, Some(sender), Some(next));
  }

  /** Along greedy hops over agreed coordinates the distance falls strictly... */
  lemma {:induction false} DistanceFalls(w: World, dist: Distance, place: Id -> Coord, home: Id, j: seq<Hop>, a: nat, b: nat)
    requires IsJourney(w, dist, home, j) && WorldAgreed(w, place) && a < b < |j|
    requires j[0].packet.dest.Some?
    requires forall i: nat | a <= i < b :: GreedyAt(w, dist, j, i)
    ensures var dst := j[0].packet.dest.value;
            Away(dist, place, j[b].node, dst) < Away(dist, place, j[a].node, dst)
    decreases b
  {
    hide NextHop, Agreed, Away;
    var k := b - 1;
    assert StepAt(w, dist, home, j, k) && GreedyAt(w, dist, j, k);
    JourneyKeeps(w, dist, home, j, k);
    assert Agreed(w(k)(j[k].node), place, j[k].node);
    GreedyHopCloser(w(k)(j[k].node), dist, place, j[k].node, j[k].packet, j[k].sender, j[b].node);
    if a < k {
      DistanceFalls(w, dist, place, home, j, a, k);
    }
  }

  /** ...so no node is visited twice. */
  lemma GreedyNeverLoops(w: World, dist: Distance, place: Id -> Coord, home: Id, j: seq<Hop>, a: nat, b: nat)
    requires IsJourney(w, dist, home, j) && WorldAgreed(w, place) && a < b < |j|
    requires j[0].packet.dest.Some?
    requires forall i: nat | a <= i < b :: GreedyAt(w, dist, j, i)
    ensures j[a].node != j[b].node
  {
    hide NextHop, WorldAgreed;
    DistanceFalls(w, dist, place, home, j, a, b);
  }

  // ---------------------------------------------------------------- delivery

  /** What makes geometry alone enough: agreed places, an embedding without local minima, and a
      first transit node that is closer than whoever handed it the packet. */
  ghost predicate Routable(w: World, dist: Distance, place: Id -> Coord, nodes: set<Id>, home: Id, first: Hop) {
    && first.packet.dest.Some? && first.node in nodes && home in nodes
    && WorldAgreed(w, place) && Embedded(w, dist, place, nodes, home, first.packet.dest.value)
    && Away(dist, place, first.node, first.packet.dest.value) < Away(dist, place, first.sender, first.packet.dest.value)
  }

  /** A neighbour farther away than the node is never needed, so leaving out the sender does no harm. */
  lemma CloserThanSender(t: Tables, dist: Distance, place: Id -> Coord, nodes: set<Id>, n: Id, sender: Id, dst: Coord)
    requires Agreed(t, place, n) && HasCloser(t, dist, place, nodes, n, dst)
    requires Away(dist, place, n, dst) < Away(dist, place, sender, dst)
    ensures exists b :: Closer(t, dist, dst, Some(sender), b)
  {
    var p :| p in t.peers && p in t.coords && dist(place(p), dst) < dist(place(n), dst);
    assert Closer(t, dist, dst, Some(sender), p);
  }

  lemma {:induction false} EveryHopGreedy(w: World, dist: Distance, place: Id -> Coord, nodes: set<Id>, home: Id, j: seq<Hop>, i: nat)
    requires IsJourney(w, dist, home, j) && Routable(w, dist, place, nodes, home, j[0]) && i < |j|
    ensures j[i].node in nodes
    ensures j[i].node != home ==> GreedyAt(w, dist, j, i)
    ensures var dst := j[0].packet.dest.value;
            Away(dist, place, j[i].node, dst) < Away(dist, place, j[i].sender, dst)
  {
    hide NextHop, Agreed, Away, HasCloser, Closer;
    var dst := j[0].packet.dest.value;
    JourneyKeeps(w, dist, home, j, i);
    if i > 0 {
      var k := i - 1;
      EveryHopGreedy(w, dist, place, nodes, home, j, k);
      assert StepAt(w, dist, home, j, k);
      JourneyKeeps(w, dist, home, j, k);
      assert Agreed(w(k)(j[k].node), place, j[k].node);
      GreedyHopCloser(w(k)(j[k].node), dist, place, j[k].node, j[k].packet, j[k].sender, j[i].node);
      HopTaken(w(k)(j[k].node), dist, j[k].packet, j[k].sender, j[i].node);
      PeersAreNodes(w(k)(j[k].node), dist, place, nodes, j[k].node, dst, j[i].node);
    }
    if j[i].node != home {
      assert Agreed(w(i)(j[i].node), place, j[i].node);
      CloserThanSender(w(i)(j[i].node), dist, place, nodes, j[i].node, j[i].sender, dst);
    }
  }

  lemma PeersAreNodes(t: Tables, dist: Distance, place: Id -> Coord, nodes: set<Id>, n: Id, dst: Coord, p: Id)
    requires HasCloser(t, dist, place, nodes, n, dst) && p in t.peers
    ensures p in nodes
  {
  }

  function Visited(j: seq<Hop>): (s: set<Id>)
    ensures forall n :: n in s <==> exists i :: 0 <= i < |j| && j[i].node == n
  {
    set i | 0 <= i < |j| :: j[i].node
  }

  lemma {:induction false} DistinctVisited(j: seq<Hop>)
    requires forall a, b | 0 <= a < b < |j| :: j[a].node != j[b].node
    ensures |Visited(j)| == |j|
  {
    if j != [] {
      var k := |j| - 1;
      DistinctVisited(j[..k]);
      assert Visited(j) == Visited(j[..k]) + {j[k].node} by {
        forall i | 0 <= i < |j| ensures j[i].node in Visited(j[..k]) + {j[k].node} {
          assert i < k ==> j[..k][i] == j[i];
        }
      }
      assert j[k].node !in Visited(j[..k]);
    }
  }

  lemma {:induction false} LeastScore(t: Tables, dist: Distance, dst: Coord, among: set<Id>) returns (b: Id)
    requires among != {} && among <= t.peers.Keys * t.coords.Keys
    ensures b in among && forall p | p in among :: Score(t, dist, dst, b) <= Score(t, dist, dst, p)
    decreases among
  {
    hide Score;
    b :| b in among;
    if among != {b} {
      var rest := among - {b};
      assert rest != {} by {
        var x :| x in among && x != b;
        assert x in rest;
      }
      var c := LeastScore(t, dist, dst, rest);
      if Score(t, dist, dst, c) <= Score(t, dist, dst, b) {
        b := c;
      }
    }
  }

  /** Where a closer neighbour exists the node does forward. */
  lemma GreedyForwards(t: Tables, dist: Distance, p: Packet, sender: Id)
    requires p.dest.Some? && exists b :: Closer(t, dist, p.dest.value, Some(sender), b)
    ensures exists next :: NextHop(t, dist, p, sender, Some(next))
  {
    hide Score;
    var dst := p.dest.value;
    var among := set q | q in t.peers.Keys && Closer(t, dist, dst, Some(sender), q);
    var b0 :| Closer(t, dist, dst, Some(sender), b0);
    assert b0 in among;
    var b := LeastScore(t, dist, dst, among);
    assert GreedyChoice(t, dist, dst, Some(sender), Some(b));
    assert NextHop(t, dist, p, sender, Some(b));
  }

  /** No next hop is possible from the end of the journey. */
  ghost predicate Ended(w: World, dist: Distance, home: Id, j: seq<Hop>)
    requires j != []
  {
    var h := j[|j| - 1];
    || h.node == home || h.packet.watermark >= MAX_FORWARD_HOPS
    || !exists next :: NextHop(w(|j| - 1)(h.node), dist, h.packet, h.sender, Some(next))
  }

  /** In a network that geometry can route, of at most MAX_FORWARD_HOPS + 1 nodes besides the sender,
      every journey of a new packet, under any changes of trust, filters and links, ends at the node
      it is for: until then there is always another node to visit. */
  lemma GreedyDelivers(w: World, dist: Distance, place: Id -> Coord, nodes: set<Id>, home: Id, j: seq<Hop>)
    requires IsJourney(w, dist, home, j) && Ended(w, dist, home, j)
    requires j[0].packet.watermark == 0 && Routable(w, dist, place, nodes, home, j[0])
    requires |nodes - {j[0].sender}| <= MAX_FORWARD_HOPS + 1
    ensures j[|j| - 1].node == home
  {
    hide NextHop, Closer, Routable, WorldAgreed, Visited;
    var last := |j| - 1;
    EveryHopGreedy(w, dist, place, nodes, home, j, last);
    JourneyKeeps(w, dist, home, j, last);
    if j[last].node != home {
      GreedyForwards(w(last)(j[last].node), dist, j[last].packet, j[last].sender);
      MoreToVisit(w, dist, place, nodes, home, j);
    }
  }

  lemma MoreToVisit(w: World, dist: Distance, place: Id -> Coord, nodes: set<Id>, home: Id, j: seq<Hop>)
    requires IsJourney(w, dist, home, j) && Routable(w, dist, place, nodes, home, j[0]) && j[|j| - 1].node != home
    ensures |j| + 1 <= |nodes - {j[0].sender}|
  {
    hide NextHop, Closer, Embedded, Away, Visited;
    var last, dst := |j| - 1, j[0].packet.dest.value;
    var b := NextCloser(w, dist, place, nodes, home, j);
    VisitsDistinct(w, dist, place, nodes, home, j);
    DistinctVisited(j);
    var rest := nodes - {j[0].sender};
    assert Away(dist, place, b, dst) < Away(dist, place, j[0].sender, dst) by {
      FartherBefore(w, dist, place, nodes, home, j, last);
    }
    forall n | n in Visited(j) ensures n in rest && n != b {
      var i: nat :| i < |j| && j[i].node == n;
      FartherBefore(w, dist, place, nodes, home, j, i);
    }
    assert Visited(j) + {b} <= rest;
    SubsetSize(Visited(j) + {b}, rest);
  }

  /** From the end of the journey a node still closer can be seen. */
  lemma NextCloser(w: World, dist: Distance, place: Id -> Coord, nodes: set<Id>, home: Id, j: seq<Hop>) returns (b: Id)
    requires IsJourney(w, dist, home, j) && Routable(w, dist, place, nodes, home, j[0]) && j[|j| - 1].node != home
    ensures var dst := j[0].packet.dest.value;
            b in nodes && Away(dist, place, b, dst) < Away(dist, place, j[|j| - 1].node, dst)
  {
    hide NextHop;
    var last, dst := |j| - 1, j[0].packet.dest.value;
    EveryHopGreedy(w, dist, place, nodes, home, j, last);
    var n := j[last].node;
    assert HasCloser(w(last)(n), dist, place, nodes, n, dst);
    b :| b in w(last)(n).peers && b in w(last)(n).coords && dist(place(b), dst) < dist(place(n), dst);
  }

  /** Each node visited lies between the end of the journey and the sender. */
  lemma FartherBefore(w: World, dist: Distance, place: Id -> Coord, nodes: set<Id>, home: Id, j: seq<Hop>, i: nat)
    requires IsJourney(w, dist, home, j) && Routable(w, dist, place, nodes, home, j[0]) && i < |j|
    ensures var dst := j[0].packet.dest.value;
            && Away(dist, place, j[|j| - 1].node, dst) <= Away(dist, place, j[i].node, dst)
            && Away(dist, place, j[i].node, dst) < Away(dist, place, j[0].sender, dst)
  {
    hide NextHop, Closer, WorldAgreed, Embedded, Away;
    EveryHopIsGreedy(w, dist, place, nodes, home, j);
    if i > 0 {
      DistanceFalls(w, dist, place, home, j, 0, i);
    }
    if i + 1 < |j| {
      DistanceFalls(w, dist, place, home, j, i, |j| - 1);
    }
  }

  lemma EveryHopIsGreedy(w: World, dist: Distance, place: Id -> Coord, nodes: set<Id>, home: Id, j: seq<Hop>)
    requires IsJourney(w, dist, home, j) && Routable(w, dist, place, nodes, home, j[0])
    ensures forall i: nat | i < |j| :: j[i].node in nodes && (i + 1 < |j| ==> GreedyAt(w, dist, j, i))
  {
    hide NextHop, Closer, WorldAgreed, Embedded;
    forall i: nat | i < |j| ensures j[i].node in nodes && (i + 1 < |j| ==> GreedyAt(w, dist, j, i)) {
      EveryHopGreedy(w, dist, place, nodes, home, j, i);
      if i + 1 < |j| {
        assert StepAt(w, dist, home, j, i);
      }
    }
  }

  lemma VisitsDistinct(w: World, dist: Distance, place: Id -> Coord, nodes: set<Id>, home: Id, j: seq<Hop>)
    requires IsJourney(w, dist, home, j) && Routable(w, dist, place, nodes, home, j[0])
    ensures forall i: nat | i < |j| :: j[i].node in nodes
    ensures forall a, b | 0 <= a < b < |j| :: j[a].node != j[b].node
  {
    hide NextHop, Closer, WorldAgreed, Embedded;
    EveryHopIsGreedy(w, dist, place, nodes, home, j);
    forall a: nat, b: nat | a < b < |j| ensures j[a].node != j[b].node {
      GreedyNeverLoops(w, dist, place, home, j, a, b);
    }
  }
}
