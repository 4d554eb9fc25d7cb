/**
 What paths to the root cost in a whole network of nodes that choose parents and announce their own
 cost to all their peers, the parent among them.
 */
module TreeCost {
  import opened Words
  import opened TreeMath
  import opened FixTree

  /** A node: what it knows of its peers, and its place in the tree before and after its last repair. */
  datatype Node<!T(==)> = Node(peers: Peers<T>, before: Tree<T>, tree: Tree<T>)

  type Net<!T(==)> = map<T, Node<T>>

  /** What `n` last heard of its peer `p` is what `p` would say now. */
  predicate Hears<T>(net: Net<T>, now: nat, n: T, p: T) {
    && n in net && p in net && p in net[n].peers && net[n].peers[p].ann.Some?
    && var ann := net[n].peers[p].ann.value;
       now <= ann.receivedAt + 30_000 && ann.root == net[p].tree.root && ann.pathCost == net[p].tree.parentCost
  }

  ghost predicate Repaired<T(!new)>(rank: T -> nat, net: Net<T>, now: nat, n: T) {
    n in net && Chosen(n, rank, net[n].peers, now, net[n].before, net[n].tree)
  }

  // ---------------------------------------------------------------- along a chain

  /** Each node of the chain has the one before it for a parent. */
  ghost predicate IsChain<T(!new)>(rank: T -> nat, net: Net<T>, now: nat, chain: seq<T>) {
    && chain != [] && chain[0] in net
    && forall i | 0 < i < |chain| :: LinkAt(rank, net, now, chain[i - 1], chain[i])
  }

  ghost predicate LinkAt<T(!new)>(rank: T -> nat, net: Net<T>, now: nat, parent: T, child: T) {
    Repaired(rank, net, now, child) && net[child].tree.parent == Some(parent) && Hears(net, now, child, parent)
  }

  /** The costs of the links on the way, as the children measure them. */
  ghost function LinkCosts<T(!new)>(rank: T -> nat, net: Net<T>, now: nat, chain: seq<T>): nat
    requires IsChain(rank, net, now, chain)
  {
    var k := |chain| - 1;
    if k == 0 then 0
    else
      assert LinkAt(rank, net, now, chain[k - 1], chain[k]);
      LinkCosts(rank, net, now, chain[..k]) + net[chain[k]].peers[chain[k - 1]].cost
  }

  lemma SumSaturates(a: nat, b: nat)
    ensures AtMost64(AtMost64(a) + b) == AtMost64(a + b)
  {
  }

  lemma ChainInNet<T(!new)>(rank: T -> nat, net: Net<T>, now: nat, chain: seq<T>, i: nat)
    requires IsChain(rank, net, now, chain) && i < |chain|
    ensures chain[i] in net
  {
    if i > 0 {
      assert LinkAt(rank, net, now, chain[i - 1], chain[i]);
    }
  }

  /** The cost at the end of a chain is the cost at its start and all the links between, added up, or
      the largest number there is. */
  lemma {:induction false} ChainCostIsSum<T(!new)>(rank: T -> nat, net: Net<T>, now: nat, chain: seq<T>)
    requires IsChain(rank, net, now, chain) && net[chain[0]].tree.parentCost <= U64_MAX
    ensures chain[|chain| - 1] in net
    ensures net[chain[|chain| - 1]].tree.parentCost == AtMost64(net[chain[0]].tree.parentCost + LinkCosts(rank, net, now, chain))
  {
    hide Chosen, Hears;
    var k := |chain| - 1;
    if k > 0 {
      ChainInNet(rank, net, now, chain, k - 1);
      ChainCostIsSum(rank, net, now, chain[..k]);
      assert LinkAt(rank, net, now, chain[k - 1], chain[k]);
      ChildCost(rank, net, now, chain[k - 1], chain[k]);
      SumSaturates(net[chain[0]].tree.parentCost + LinkCosts(rank, net, now, chain[..k]), net[chain[k]].peers[chain[k - 1]].cost);
    }
  }

  lemma ChildCost<T(!new)>(rank: T -> nat, net: Net<T>, now: nat, p: T, n: T)
    requires LinkAt(rank, net, now, p, n)
    ensures p in net && n in net && p in net[n].peers
    ensures net[n].tree.parentCost == AtMost64(net[p].tree.parentCost + net[n].peers[p].cost)
  {
    hide Chosen;
    ParentCostIsSum(n, rank, net[n].peers, now, net[n].before, net[n].tree);
  }

  // ---------------------------------------------------------------- counting to infinity

  /** Everyone has heard what every peer would say now, and would choose again as it did. Peering is
      mutual and no link is free. */
  ghost predicate Settled<T(!new)>(rank: T -> nat, net: Net<T>, now: nat) {
    forall n | n in net :: SettledAt(rank, net, now, n)
  }

  ghost predicate SettledAt<T(!new)>(rank: T -> nat, net: Net<T>, now: nat, n: T) {
    Repaired(rank, net, now, n) && forall p | p in net[n].peers :: SettledLink(net, now, n, p)
  }

  predicate SettledLink<T>(net: Net<T>, now: nat, n: T, p: T)
  {
    Hears(net, now, n, p) && n in net[p].peers && net[n].peers[p].cost > 0
  }

  /** A node with a peer has a parent, even the best-ranked one: its peers offer it its own identity
      for a root, and that it takes. */
  lemma PeerMeansParent<T(!new)>(rank: T -> nat, net: Net<T>, now: nat, n: T, p: T)
    requires NoTies(rank) && Settled(rank, net, now) && n in net && p in net[n].peers
    ensures net[n].tree.parent.Some?
  {
    assert SettledAt(rank, net, now, n) && SettledLink(net, now, n, p) && SettledAt(rank, net, now, p) && SettledLink(net, now, p, n);
    assert Announces(net[n].peers, now, p, net[p].tree.root) && Announces(net[p].peers, now, n, net[n].tree.root);
    assert net[p].tree.root in Offers(n, net[n].peers, now) && net[n].tree.root in Offers(p, net[p].peers, now);
  }

  lemma ParentIsPeer<T(!new)>(rank: T -> nat, net: Net<T>, now: nat, n: T)
    requires Settled(rank, net, now) && n in net && net[n].tree.parent.Some?
    ensures LinkAt(rank, net, now, net[n].tree.parent.value, n)
    ensures var p := net[n].tree.parent.value; p in net && n in net[p].peers && net[n].peers[p].cost > 0
  {
    hide Chosen, Hears;
    assert SettledAt(rank, net, now, n);
    var p := net[n].tree.parent.value;
    ParentCostIsSum(n, rank, net[n].peers, now, net[n].before, net[n].tree);
    assert SettledLink(net, now, n, p);
    HearsInNet(net, now, n, p);
  }

  lemma HearsInNet<T>(net: Net<T>, now: nat, n: T, p: T)
    requires Hears(net, now, n, p)
    ensures n in net && p in net && p in net[n].peers
  {
  }

  /** The nodes that have a peer. */
  function Linked<T>(net: Net<T>): set<T> {
    set n | n in net && net[n].peers != map[]
  }

  lemma {:induction false} LeastCost<T(!new)>(net: Net<T>, among: set<T>) returns (m: T)
    requires among != {} && among <= net.Keys
    ensures m in among && forall n | n in among :: net[m].tree.parentCost <= net[n].tree.parentCost
    decreases among
  {
    var x :| x in among;
    m := x;
    if among != {x} {
      var y :| y in among && y != x;
      assert y in among - {x};
      var k := LeastCost(net, among - {x});
      m := if net[k].tree.parentCost < net[x].tree.parentCost then k else x;
      assert forall n | n in among :: n == x || n in among - {x};
    }
  }

  /** Costs only settle at the largest number there is: in a settled network the cost of a node is
      smaller exactly if the node has no peers at all. */
  lemma SettledCostFiniteIff<T(!new)>(rank: T -> nat, net: Net<T>, now: nat, n: T)
    requires NoTies(rank) && Settled(rank, net, now) && n in net
    ensures net[n].tree.parentCost < U64_MAX <==> net[n].peers == map[]
    ensures net[n].tree.parentCost <= U64_MAX
  {
    hide Chosen, Settled, Hears;
    if n in Linked(net) {
      var m := LeastCost(net, Linked(net));
      LinkedCost(rank, net, now, n);
      LinkedCost(rank, net, now, m);
      assert net[m].tree.parentCost == U64_MAX;
    } else {
      AloneCost(rank, net, now, n);
    }
  }

  lemma LinkedCost<T(!new)>(rank: T -> nat, net: Net<T>, now: nat, n: T)
    requires NoTies(rank) && Settled(rank, net, now) && n in Linked(net)
    ensures net[n].tree.parentCost <= U64_MAX
    ensures exists p :: p in Linked(net) && (net[n].tree.parentCost == U64_MAX || net[p].tree.parentCost < net[n].tree.parentCost)
  {
    hide Chosen, Settled, Hears;
    var q :| q in net[n].peers;
    PeerMeansParent(rank, net, now, n, q);
    ParentIsPeer(rank, net, now, n);
    ChildCost(rank, net, now, net[n].tree.parent.value, n);
    assert net[n].tree.parent.value in Linked(net);
  }

  lemma AloneCost<T(!new)>(rank: T -> nat, net: Net<T>, now: nat, n: T)
    requires Settled(rank, net, now) && n in net && net[n].peers == map[]
    ensures net[n].tree.parentCost == 0
  {
    assert SettledAt(rank, net, now, n);
  }

  // ---------------------------------------------------------------- no acyclic parents, no depth

  /** The node reached from `n` by `k` steps to the parent, while there is one. */
  function Ancestor<T>(net: Net<T>, n: T, k: nat): Option<T> {
    if k == 0 then Some(n)
    else
      match Ancestor(net, n, k - 1)
      case None => None
      case Some(m) => if m in net then net[m].tree.parent else None
  }

  lemma {:induction false} AncestorsLinked<T(!new)>(rank: T -> nat, net: Net<T>, now: nat, n: T, k: nat)
    requires NoTies(rank) && Settled(rank, net, now) && n in Linked(net)
    ensures Ancestor(net, n, k).Some? && Ancestor(net, n, k).value in Linked(net)
  {
    hide Settled, Chosen, Hears;
    if k > 0 {
      AncestorsLinked(rank, net, now, n, k - 1);
      LinkedParent(rank, net, now, Ancestor(net, n, k - 1).value);
    }
  }

  lemma LinkedParent<T(!new)>(rank: T -> nat, net: Net<T>, now: nat, n: T)
    requires NoTies(rank) && Settled(rank, net, now) && n in Linked(net)
    ensures net[n].tree.parent.Some? && net[n].tree.parent.value in Linked(net)
  {
    hide Settled, Chosen, Hears;
    var q :| q in net[n].peers;
    PeerMeansParent(rank, net, now, n, q);
    ParentIsPeer(rank, net, now, n);
  }

  /** Following parents comes to an end exactly from a node without peers: from every other one it goes
      round in a circle. */
  lemma AncestorsEndIff<T(!new)>(rank: T -> nat, net: Net<T>, now: nat, n: T)
    requires NoTies(rank) && Settled(rank, net, now) && n in net
    ensures (exists k: nat :: Ancestor(net, n, k).None?) <==> net[n].peers == map[]
  {
    hide Settled, Chosen, Hears;
    if n in Linked(net) {
      forall k: nat ensures Ancestor(net, n, k).Some? {
        AncestorsLinked(rank, net, now, n, k);
      }
    } else {
      var k := AloneEnds(rank, net, now, n);
    }
  }

  lemma AloneEnds<T(!new)>(rank: T -> nat, net: Net<T>, now: nat, n: T) returns (k: nat)
    requires Settled(rank, net, now) && n in net && n !in Linked(net)
    ensures Ancestor(net, n, k).None? && net[n].peers == map[]
  {
    hide Settled, Chosen, Hears;
    AloneAtRoot(rank, net, now, n);
    k := 1;
    assert Ancestor(net, n, 0) == Some(n);
  }

  lemma AloneAtRoot<T(!new)>(rank: T -> nat, net: Net<T>, now: nat, n: T)
    requires Settled(rank, net, now) && n in net && net[n].peers == map[]
    ensures net[n].tree.parent.None?
  {
    assert SettledAt(rank, net, now, n);
  }

  /** Every node is one deeper than its parent, as `own_depth` has it. */
  ghost predicate DepthsFit<T(!new)>(net: Net<T>, depth: T -> nat) {
    forall n | n in net && net[n].tree.parent.Some? :: depth(n) == depth(net[n].tree.parent.value) + 1
  }

  lemma {:induction false} DepthFalls<T(!new)>(rank: T -> nat, net: Net<T>, now: nat, depth: T -> nat, n: T, k: nat)
    requires NoTies(rank) && Settled(rank, net, now) && n in Linked(net) && DepthsFit(net, depth)
    ensures depth(n) >= k
  {
    hide Settled, Chosen, Hears;
    if k > 0 {
      LinkedParent(rank, net, now, n);
      DepthFalls(rank, net, now, depth, net[n].tree.parent.value, k - 1);
    }
  }

  /** So depths settle exactly in a network without links. */
  lemma DepthsSettleIff<T(!new)>(rank: T -> nat, net: Net<T>, now: nat)
    requires NoTies(rank) && Settled(rank, net, now)
    ensures (exists depth: T -> nat :: DepthsFit(net, depth)) <==> Linked(net) == {}
  {
    hide Settled, Chosen, Hears;
    if depth: T -> nat :| DepthsFit(net, depth) {
      forall n | n in Linked(net) ensures false {
        DepthFalls(rank, net, now, depth, n, depth(n) + 1);
      }
    }
    if Linked(net) == {} {
      forall n | n in net ensures net[n].tree.parent.None? {
        assert n !in Linked(net);
        AloneAtRoot(rank, net, now, n);
      }
      assert DepthsFit(net, (n: T) => 0);
    }
  }

  /** Two peers that have counted all the way up, 1 the better-ranked of them. */
  function Exhausted(): Net<nat> {
    var view := (link: nat) => PeerView(link, Some(Announce(1, U64_MAX, 0, 0)));
    map[1 := Node(map[2 := view(100)], Tree(Some(2), 1, 0, U64_MAX), Tree(Some(2), 1, 0, U64_MAX)),
        2 := Node(map[1 := view(100)], Tree(Some(1), 1, 0, U64_MAX), Tree(Some(1), 1, 0, U64_MAX))]
  }

  lemma ExhaustedAt(n: nat, p: nat)
    requires n in {1, 2} && p == 3 - n
    ensures SettledAt((x: nat) => x, Exhausted(), 0, n)
  {
    var net := Exhausted();
    var peers := net[n].peers;
    assert peers.Keys == {p} && Candidate(peers, 0, p) && RootOf(peers, 0, p) == 1;
    assert Offers(n, peers, 0) == {n, 1};
    assert forall q | Announces(peers, 0, q, 1) :: q == p;
    assert SettledLink(net, 0, n, p);
  }

  /** There they do settle. */
  lemma ExhaustedSettles()
    ensures Settled((x: nat) => x, Exhausted(), 0) && Linked(Exhausted()) == {1, 2}
  {
    hide SettledAt;
    ExhaustedAt(1, 2);
    ExhaustedAt(2, 1);
    assert Exhausted().Keys == {1, 2};
    assert 2 in Exhausted()[1].peers && 1 in Exhausted()[2].peers;
  }
}
