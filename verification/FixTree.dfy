/**
 Choosing the root and the parent of one spanning tree from the peers' announcements, with
 hysteresis against switching between parents of nearly equal cost.
 */
module FixTree {
  import opened Words
  import opened TreeMath

  const ANNOUNCE_EXPIRY_MS: nat := 30_000
  const PARENT_SWITCH_MARGIN_US: nat := 1_000

  datatype Announce<T> = Announce(root: T, pathCost: nat, receivedAt: nat, depth: nat)

  /** What is known of one peer: the cost of the link and its last announcement. */
  datatype PeerView<T> = PeerView(cost: nat, ann: Option<Announce<T>>)

  datatype Tree<T> = Tree(parent: Option<T>, root: T, rootSeq: nat, parentCost: nat)

  type Peers<!T(==)> = map<T, PeerView<T>>

  function SatAdd(a: nat, b: nat): nat {
    if a + b <= U64_MAX then a + b else U64_MAX
  }

  predicate Fresh<T>(now: nat, a: Announce<T>) {
    now <= a.receivedAt + ANNOUNCE_EXPIRY_MS
  }

  predicate Candidate<T>(peers: Peers<T>, now: nat, p: T) {
    p in peers && peers[p].ann.Some? && Fresh(now, peers[p].ann.value)
  }

  function RootOf<T>(peers: Peers<T>, now: nat, p: T): T
    requires Candidate(peers, now, p)
  {
    peers[p].ann.value.root
  }

  function CostVia<T>(peers: Peers<T>, now: nat, p: T): nat
    requires Candidate(peers, now, p)
  {
    SatAdd(peers[p].ann.value.pathCost, peers[p].cost)
  }

  /** Every root on offer: our own, and those of the fresh announcements. */
  function Offers<T>(self: T, peers: Peers<T>, now: nat): set<T> {
    {self} + set p | p in peers && Candidate(peers, now, p) :: RootOf(peers, now, p)
  }

  /** `p` announces `root` afresh. */
  predicate Announces<T>(peers: Peers<T>, now: nat, p: T, root: T) {
    Candidate(peers, now, p) && RootOf(peers, now, p) == root
  }

  ghost predicate Cheapest<T(!new)>(peers: Peers<T>, now: nat, p: T, root: T) {
    && Announces(peers, now, p, root)
    && forall q | Announces(peers, now, q, root) :: CostVia(peers, now, p) <= CostVia(peers, now, q)
  }

  /** The outcome of one run, whatever the iteration order. The root is the best on offer. A parent
      announces it afresh and is either the cheapest, or the incumbent within the margin of the
      cheapest; a live incumbent with that root gives way only to a saving above the margin. */
  ghost predicate Chosen<T(!new)>(self: T, rank: T -> nat, peers: Peers<T>, now: nat, before: Tree<T>, after: Tree<T>) {
    && IsLeast(rank, after.root, Offers(self, peers, now))
    && (match after.parent
        case None =>
          && after.root == self && after.parentCost == 0 && after.rootSeq == before.rootSeq + 1
          && (forall p | Candidate(peers, now, p) :: RootOf(peers, now, p) != self)
        case Some(p) =>
          && Announces(peers, now, p, after.root)
          && after.parentCost == CostVia(peers, now, p) && after.rootSeq == before.rootSeq
          && (|| Cheapest(peers, now, p, after.root)
              || (before.parent == Some(p) && forall q | Announces(peers, now, q, after.root) ::
                    CostVia(peers, now, p) <= SatAdd(CostVia(peers, now, q), PARENT_SWITCH_MARGIN_US)))
          && (before.parent.Some? && before.parent != Some(p) && Announces(peers, now, before.parent.value, after.root) ==>
                SatAdd(after.parentCost, PARENT_SWITCH_MARGIN_US) < CostVia(peers, now, before.parent.value)))
  }

  /** A parent is never more than the margin above the cheapest announcer of its root. */
  lemma ParentNearCheapest<T(!new)>(self: T, rank: T -> nat, peers: Peers<T>, now: nat, a: Tree<T>, b: Tree<T>, q: T)
    requires Chosen(self, rank, peers, now, a, b) && b.parent.Some? && Announces(peers, now, q, b.root)
    ensures b.parentCost <= SatAdd(CostVia(peers, now, q), PARENT_SWITCH_MARGIN_US)
  {
    hide Offers, IsLeast;
  }

  /** What the parent's path costs: what the parent announced and the link to it together, up to the
      largest number there is. Without a live incumbent no fresh announcer of the root is cheaper. */
  lemma ParentCostIsSum<T(!new)>(self: T, rank: T -> nat, peers: Peers<T>, now: nat, a: Tree<T>, b: Tree<T>)
    requires Chosen(self, rank, peers, now, a, b) && b.parent.Some?
    ensures var p := b.parent.value;
            && p in peers && peers[p].ann.Some? && peers[p].ann.value.root == b.root
            && now <= peers[p].ann.value.receivedAt + 30_000
            && b.parentCost == AtMost64(peers[p].ann.value.pathCost + peers[p].cost)
    ensures forall q | q in peers && peers[q].ann.Some? && peers[q].ann.value.root == b.root && now <= peers[q].ann.value.receivedAt + 30_000 ::
              b.parentCost <= peers[q].ann.value.pathCost + peers[q].cost + (if a.parent == b.parent then 1_000 else 0)
  {
    hide Offers, IsLeast;
    forall q | q in peers && peers[q].ann.Some? && peers[q].ann.value.root == b.root && now <= peers[q].ann.value.receivedAt + 30_000
      ensures Announces(peers, now, q, b.root)
    {
    }
  }

  /** An incumbent parent that still announces the chosen root is kept exactly if no other announcer
      saves more than the margin. */
  lemma IncumbentKeptIff<T(!new)>(self: T, rank: T -> nat, peers: Peers<T>, now: nat, a: Tree<T>, b: Tree<T>, p: T)
    requires Chosen(self, rank, peers, now, a, b) && b.parent.Some? && a.parent == Some(p) && Announces(peers, now, p, b.root)
    ensures b.parent == Some(p) <==>
            forall q | Announces(peers, now, q, b.root) ::
              AtMost64(peers[p].ann.value.pathCost + peers[p].cost) <= AtMost64(peers[q].ann.value.pathCost + peers[q].cost + 1_000)
  {
    hide Offers, IsLeast;
  }

  function AtMost64(n: nat): nat {
    if n < 0x1_0000_0000_0000_0000 then n else 0xFFFF_FFFF_FFFF_FFFF
  }

  /** Announcements older than 30 s are as if they had never been made. */
  lemma ExpiredIgnored<T(!new)>(self: T, rank: T -> nat, peers: Peers<T>, peers': Peers<T>, now: nat, a: Tree<T>, b: Tree<T>)
    requires peers'.Keys == peers.Keys
    requires forall p | p in peers ::
               peers'[p] == if peers[p].ann.Some? && now > peers[p].ann.value.receivedAt + 30_000 then peers[p].(ann := None) else peers[p]
    ensures Chosen(self, rank, peers, now, a, b) <==> Chosen(self, rank, peers', now, a, b)
  {
    hide Chosen, Candidate;
    forall p ensures SameOffer(peers, peers', now, p) && SameOffer(peers', peers, now, p) {
      OfferAt(peers, peers', now, p);
    }
    if Chosen(self, rank, peers, now, a, b) {
      ChosenAlike(self, rank, peers, peers', now, a, b);
    }
    if Chosen(self, rank, peers', now, a, b) {
      ChosenAlike(self, rank, peers', peers, now, a, b);
    }
  }

  predicate SameOffer<T>(peers: Peers<T>, peers': Peers<T>, now: nat, p: T) {
    if Candidate(peers, now, p) then
      Candidate(peers', now, p) && RootOf(peers', now, p) == RootOf(peers, now, p) && CostVia(peers', now, p) == CostVia(peers, now, p)
    else !Candidate(peers', now, p)
  }

  lemma OfferAt<T(!new)>(peers: Peers<T>, peers': Peers<T>, now: nat, p: T)
    requires peers'.Keys == peers.Keys
    requires p in peers ==>
               peers'[p] == if peers[p].ann.Some? && now > peers[p].ann.value.receivedAt + 30_000 then peers[p].(ann := None) else peers[p]
    ensures SameOffer(peers, peers', now, p) && SameOffer(peers', peers, now, p)
  {
  }

  lemma ChosenAlike<T(!new)>(self: T, rank: T -> nat, peers: Peers<T>, peers': Peers<T>, now: nat, a: Tree<T>, b: Tree<T>)
    requires Chosen(self, rank, peers, now, a, b) && forall p :: SameOffer(peers, peers', now, p)
    ensures Chosen(self, rank, peers', now, a, b)
  {
    hide IsLeast, Candidate;
    forall p ensures Candidate(peers, now, p) <==> Candidate(peers', now, p) {
      assert SameOffer(peers, peers', now, p);
    }
    SameOffers(self, peers, peers', now);
    forall p, r ensures Announces(peers, now, p, r) <==> Announces(peers', now, p, r) {
      assert SameOffer(peers, peers', now, p);
    }
    forall p | Candidate(peers, now, p) ensures CostVia(peers', now, p) == CostVia(peers, now, p) && RootOf(peers', now, p) == RootOf(peers, now, p) {
      assert SameOffer(peers, peers', now, p);
    }
  }

  lemma SameOffers<T(!new)>(self: T, peers: Peers<T>, peers': Peers<T>, now: nat)
    requires forall p :: SameOffer(peers, peers', now, p)
    ensures Offers(self, peers', now) == Offers(self, peers, now)
  {
    forall r | r in Offers(self, peers, now) ensures r in Offers(self, peers', now) {
      if r != self {
        var p :| p in peers && Candidate(peers, now, p) && RootOf(peers, now, p) == r;
        assert SameOffer(peers, peers', now, p);
      }
    }
    forall r | r in Offers(self, peers', now) ensures r in Offers(self, peers, now) {
      if r != self {
        var p :| p in peers' && Candidate(peers', now, p) && RootOf(peers', now, p) == r;
        assert SameOffer(peers, peers', now, p);
      }
    }
  }

  /** The iteration order does not matter for the root, nor for whether there is a parent. */
  lemma OrderIrrelevant<T(!new)>(self: T, rank: T -> nat, peers: Peers<T>, now: nat, a: Tree<T>, b: Tree<T>, b': Tree<T>)
    requires NoTies(rank) && Chosen(self, rank, peers, now, a, b) && Chosen(self, rank, peers, now, a, b')
    ensures b.root == b'.root && (b.parent.None? <==> b'.parent.None?)
  {
    hide Offers;
    LeastUnique(rank, b.root, b'.root, Offers(self, peers, now));
  }

  /** Running again on the same table keeps root, parent and cost, in any iteration order. */
  lemma RerunKeepsParent<T(!new)>(self: T, rank: T -> nat, peers: Peers<T>, now: nat, a: Tree<T>, b: Tree<T>, c: Tree<T>)
    requires NoTies(rank) && Chosen(self, rank, peers, now, a, b) && Chosen(self, rank, peers, now, b, c)
    ensures c.root == b.root && c.parent == b.parent && c.parentCost == b.parentCost
    ensures c.rootSeq == if c.root == self && c.parent.None? then b.rootSeq + 1 else b.rootSeq
  {
    hide Offers;
    LeastUnique(rank, b.root, c.root, Offers(self, peers, now));
    if b.parent.Some? && c.parent.Some? {
      ParentNearCheapest(self, rank, peers, now, a, b, c.parent.value);
    }
  }

  /** The best of the candidates seen so far: least root, then least cost. */
  datatype Best<T> = Best(root: T, cost: nat, parent: T)

  ghost predicate BestOf<T(!new)>(rank: T -> nat, peers: Peers<T>, now: nat, seen: set<T>, best: Option<Best<T>>) {
    match best
    case None => forall p | p in seen :: !Candidate(peers, now, p)
    case Some(b) =>
      && b.parent in seen && Announces(peers, now, b.parent, b.root) && b.cost == CostVia(peers, now, b.parent)
      && forall p | p in seen && Candidate(peers, now, p) ::
           && rank(b.root) <= rank(RootOf(peers, now, p))
           && (RootOf(peers, now, p) == b.root ==> b.cost <= CostVia(peers, now, p))
  }

  lemma BestExtends<T(!new)>(rank: T -> nat, peers: Peers<T>, now: nat, seen: set<T>, best: Option<Best<T>>, p: T, best': Option<Best<T>>)
    requires NoTies(rank) && BestOf(rank, peers, now, seen, best) && Candidate(peers, now, p)
    requires var root, cost := RootOf(peers, now, p), CostVia(peers, now, p);
             best' == if best.None? || rank(root) < rank(best.value.root)
                         || (rank(root) == rank(best.value.root) && cost < best.value.cost)
                      then Some(Best(root, cost, p)) else best
    ensures BestOf(rank, peers, now, seen + {p}, best')
  {
    assert best.Some? && rank(RootOf(peers, now, p)) == rank(best.value.root) ==> RootOf(peers, now, p) == best.value.root;
  }

  class TreeRouter<T(==, !new)> {
    const self: T
    var peers: Peers<T>
    var tree: Tree<T>
    var ownDepth: nat

    constructor (self: T)
      ensures this.self == self && peers == map[] && tree == Tree(None, self, 0, 0) && ownDepth == 0
    {
      this.self, peers, tree, ownDepth := self, map[], Tree(None, self, 0, 0), 0;
    }

    /** A peer's announcement replaces its previous one; strangers are ignored. */
    method HandleAnnounce(from: T, root: T, pathCost: nat, depth: nat, now: nat)
      modifies this`peers
      ensures peers == if from in old(peers)
                       then old(peers)[from := old(peers)[from].(ann := Some(Announce(root, pathCost, now, depth)))]
                       else old(peers)
    {
      if from in peers {
        peers := peers[from := peers[from].(ann := Some(Announce(root, pathCost, now, depth)))];
      }
    }

    method FixTree(rank: T -> nat, now: nat)
      requires NoTies(rank)
      modifies this`tree, this`ownDepth
      ensures Chosen(self, rank, peers, now, old(tree), tree)
      ensures tree.parent.None? ==> ownDepth == 0
      ensures tree.parent.Some? ==> ownDepth == peers[tree.parent.value].ann.value.depth + 1
    {
      var best: Option<Best<T>> := None;
      var incumbent: Option<(T, nat)> := None;
      var todo := peers.Keys;
      while todo != {}
        invariant todo <= peers.Keys && tree == old(tree)
        invariant BestOf(rank, peers, now, peers.Keys - todo, best)
        invariant incumbent ==
                    if tree.parent.Some? && tree.parent.value !in todo && Candidate(peers, now, tree.parent.value)
                    then Some((RootOf(peers, now, tree.parent.value), CostVia(peers, now, tree.parent.value)))
                    else None
        decreases todo
      {
        var p :| p in todo;
        ghost var seen := peers.Keys - todo;
        assert peers.Keys - (todo - {p}) == seen + {p};
        todo := todo - {p};
        if Candidate(peers, now, p) {
          var ann := peers[p].ann.value;
          var total := SatAdd(ann.pathCost, peers[p].cost);
          if tree.parent == Some(p) {
            incumbent := Some((ann.root, total));
          }
          var better := best.None? || rank(ann.root) < rank(best.value.root)
                        || (rank(ann.root) == rank(best.value.root) && total < best.value.cost);
          ghost var prior := best;
          if better {
            best := Some(Best(ann.root, total, p));
          }
          BestExtends(rank, peers, now, seen, prior, p, best);
        }
      }
      assert peers.Keys - {} == peers.Keys;
      Settle(rank, now, best, incumbent);
    }

    /** The decision after the scan: hysteresis first, then whether to be our own root. */
    method Settle(rank: T -> nat, now: nat, best: Option<Best<T>>, incumbent: Option<(T, nat)>)
      requires NoTies(rank) && BestOf(rank, peers, now, peers.Keys, best)
      requires incumbent == if tree.parent.Some? && Candidate(peers, now, tree.parent.value)
                            then Some((RootOf(peers, now, tree.parent.value), CostVia(peers, now, tree.parent.value)))
                            else None
      modifies this`tree, this`ownDepth
      ensures Chosen(self, rank, peers, now, old(tree), tree)
      ensures tree.parent.None? ==> ownDepth == 0
      ensures tree.parent.Some? ==> ownDepth == peers[tree.parent.value].ann.value.depth + 1
    {
      if best.None? || rank(self) < rank(best.value.root) {
        OwnRootLeast(rank, now, best);
        tree := Tree(None, self, tree.rootSeq + 1, 0);
        ownDepth := 0;
        return;
      }
      var parent, cost := best.value.parent, best.value.cost;
      if incumbent.Some? && rank(incumbent.value.0) == rank(best.value.root)
         && tree.parent != Some(parent) && SatAdd(cost, PARENT_SWITCH_MARGIN_US) >= incumbent.value.1 {
        parent, cost := tree.parent.value, incumbent.value.1;
      }
      assert incumbent.Some? && rank(incumbent.value.0) == rank(best.value.root) ==> incumbent.value.0 == best.value.root;
      BestIsLeast(rank, now, best.value);
      tree := Tree(Some(parent), best.value.root, tree.rootSeq, cost);
      ownDepth := peers[parent].ann.value.depth + 1;
    }

    lemma OwnRootLeast(rank: T -> nat, now: nat, best: Option<Best<T>>)
      requires BestOf(rank, peers, now, peers.Keys, best)
      requires best.None? || rank(self) < rank(best.value.root)
      ensures IsLeast(rank, self, Offers(self, peers, now))
      ensures forall p | Candidate(peers, now, p) :: RootOf(peers, now, p) != self
    {
    }

    lemma BestIsLeast(rank: T -> nat, now: nat, best: Best<T>)
      requires BestOf(rank, peers, now, peers.Keys, Some(best)) && rank(best.root) <= rank(self)
      ensures IsLeast(rank, best.root, Offers(self, peers, now))
      ensures Cheapest(peers, now, best.parent, best.root)
    {
    }
  }
}
