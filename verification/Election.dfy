/**
 Root election over a whole network within one epoch: every node picks the best root on offer and
 announces it to its peers. Announcements are refreshed before they expire, so a heard root stays
 until a newer announcement from the same peer replaces it.
 */
module Election {
  import opened Graphs
  import opened TreeMath
  import F = FixTree

  type Id = nat
  type Network = Graph<Id>

  // ---------------------------------------------------------------- synchronous rounds

  /** The root each node holds. */
  type Roots = map<Id, Id>

  /** In a round everybody announces, hears all peers, and picks: `roots'` follows `roots`. */
  ghost predicate Round(rank: Id -> nat, g: Network, roots: Roots, roots': Roots)
    requires g.Valid() && roots.Keys == g.adj.Keys
  {
    && roots'.Keys == g.adj.Keys
    && forall u | u in g.adj.Keys :: IsLeast(rank, roots'[u], OnOffer(g, roots, u))
  }

  ghost function OnOffer(g: Network, roots: Roots, u: Id): set<Id>
    requires g.Valid() && roots.Keys == g.adj.Keys
  {
    g.PeersAreNodes(u);
    {u} + set w | w in g.Peers(u) :: roots[w]
  }

  /** `history[r]` are the roots after `r` rounds from a fresh start. */
  ghost predicate Rounds(rank: Id -> nat, g: Network, history: seq<Roots>)
    requires g.Valid()
  {
    && history != []
    && (forall r | 0 <= r < |history| :: history[r].Keys == g.adj.Keys)
    && (forall u | u in g.adj.Keys :: history[0][u] == u)
    && (forall r | 0 <= r < |history| - 1 :: RoundAt(rank, g, history, r))
  }

  ghost predicate RoundAt(rank: Id -> nat, g: Network, history: seq<Roots>, r: nat)
    requires g.Valid() && r + 1 < |history| && history[r].Keys == g.adj.Keys
  {
    Round(rank, g, history[r], history[r + 1])
  }

  /** What one run of the tree repair picks is the best root on offer: our own identity and the
      roots the fresh announcements carry. */
  lemma FixTreePicksLeast(rank: Id -> nat, g: Network, roots: Roots, u: Id, peers: F.Peers<Id>, now: nat, a: F.Tree<Id>, b: F.Tree<Id>)
    requires g.Valid() && roots.Keys == g.adj.Keys && u in g.adj.Keys
    requires F.Chosen(u, rank, peers, now, a, b)
    requires peers.Keys == g.Peers(u)
    requires forall w | w in peers :: w in roots && F.Announces(peers, now, w, roots[w])
    ensures IsLeast(rank, b.root, OnOffer(g, roots, u))
  {
    assert F.Offers(u, peers, now) == OnOffer(g, roots, u);
  }

  lemma BallFromPeers(g: Network, u: Id, r: nat, x: Id)
    requires g.Valid() && u in g.adj.Keys
    ensures x in Ball(g, u, r + 1) <==> x == u || exists w | w in g.Peers(u) :: x in Ball(g, w, r)
  {
    g.PeersAreNodes(u);
    if w :| w in g.Peers(u) && x in Ball(g, w, r) {
      assert Within(g, w, x, r);
    }
    if x in Ball(g, u, r + 1) && x != u {
      var w :| w in g.Peers(u) && Within(g, w, x, r);
      assert x in Ball(g, w, r);
    }
  }

  lemma RoundFacts(rank: Id -> nat, g: Network, history: seq<Roots>, r: nat, u: Id)
    requires g.Valid() && Rounds(rank, g, history) && r < |history| && u in g.adj.Keys
    ensures history[r].Keys == g.adj.Keys
    ensures r == 0 ==> history[r][u] == u
    ensures r > 0 ==> history[r - 1].Keys == g.adj.Keys && IsLeast(rank, history[r][u], OnOffer(g, history[r - 1], u))
  {
    hide IsLeast, OnOffer;
    assert r > 0 ==> RoundAt(rank, g, history, r - 1);
  }

  lemma BallOfOne(g: Network, u: Id)
    requires u in g.adj.Keys
    ensures Ball(g, u, 0) == {u}
  {
  }

  /** After `r` rounds every node holds the best-ranked node at most `r` hops away. */
  lemma {:induction false} RoundsReachBall(rank: Id -> nat, g: Network, history: seq<Roots>, r: nat, u: Id)
    requires g.Valid() && Rounds(rank, g, history) && r < |history| && u in g.adj.Keys
    ensures u in history[r] && IsLeast(rank, history[r][u], Ball(g, u, r))
  {
    hide Rounds, Ball, OnOffer, Graph.Valid;
    RoundFacts(rank, g, history, r, u);
    if r == 0 {
      BallOfOne(g, u);
    } else {
      g.PeersAreNodes(u);
      var before := history[r - 1];
      forall w | w in g.Peers(u) ensures w in before && IsLeast(rank, before[w], Ball(g, w, r - 1)) {
        RoundsReachBall(rank, g, history, r - 1, w);
      }
      LeastOfPeers(rank, g, before, history[r][u], r - 1, u);
    }
  }

  lemma LeastOfPeers(rank: Id -> nat, g: Network, before: Roots, root: Id, r: nat, u: Id)
    requires g.Valid() && before.Keys == g.adj.Keys && u in g.adj.Keys
    requires IsLeast(rank, root, OnOffer(g, before, u))
    requires forall w | w in g.Peers(u) :: w in before && IsLeast(rank, before[w], Ball(g, w, r))
    ensures IsLeast(rank, root, Ball(g, u, r + 1))
  {
    hide Ball, Graph.Valid;
    BallFromPeers(g, u, r, root);
    forall x | x in Ball(g, u, r + 1) ensures rank(root) <= rank(x) {
      BallFromPeers(g, u, r, x);
      if x != u {
        var w :| w in g.Peers(u) && x in Ball(g, w, r);
        assert before[w] in OnOffer(g, before, u);
      }
    }
  }

  /** On a connected network, after as many rounds as there are nodes every node holds the
      best-ranked node of all. */
  lemma ElectionConverges(rank: Id -> nat, g: Network, history: seq<Roots>, best: Id, u: Id)
    requires g.Valid() && Rounds(rank, g, history) && |g.adj| < |history|
    requires NoTies(rank) && IsLeast(rank, best, g.adj.Keys) && u in g.adj.Keys
    requires exists path :: IsPath(g, path) && path[0] == u && path[|path| - 1] == best
    ensures u in history[|g.adj|] && history[|g.adj|][u] == best
  {
    hide Rounds, Graph.Valid;
    var path :| IsPath(g, path) && path[0] == u && path[|path| - 1] == best;
    EverythingWithinSize(g, u, path);
    RoundsReachBall(rank, g, history, |g.adj|, u);
    LeastInBoth(rank, best, history[|g.adj|][u], g.adj.Keys, Ball(g, u, |g.adj|));
  }

  lemma LeastInBoth(rank: Id -> nat, a: Id, b: Id, all: set<Id>, some: set<Id>)
    requires NoTies(rank) && IsLeast(rank, a, all) && IsLeast(rank, b, some) && some <= all && a in some
    ensures a == b
  {
    assert rank(a) == rank(b);
  }

  // ---------------------------------------------------------------- any schedule

  /** `heard[(u, w)]` is the root `u` last heard from `w`; `wire[(w, u)]` is what `w` has sent to
      `u` and `u` has not received yet, oldest first. */
  datatype Net = Net(root: Roots, heard: map<(Id, Id), Id>, wire: map<(Id, Id), seq<Id>>)

  datatype Step = Fix(u: Id) | Announce(u: Id) | Receive(u: Id, w: Id)

  function Wire(n: Net, w: Id, u: Id): seq<Id> {
    if (w, u) in n.wire then n.wire[(w, u)] else []
  }

  ghost function Heard(g: Network, n: Net, u: Id): set<Id> {
    {u} + set w | w in g.Peers(u) && (u, w) in n.heard :: n.heard[(u, w)]
  }

  /** Nodes repair their tree, announce and receive in any order and at any rate; each link keeps
      the order of its messages. */
  ghost predicate Next(rank: Id -> nat, g: Network, n: Net, n': Net, step: Step)
    requires n.root.Keys == g.adj.Keys
  {
    && step.u in g.adj.Keys
    && (match step
        case Fix(u) =>
          n'.root.Keys == g.adj.Keys && n' == n.(root := n.root[u := n'.root[u]]) && IsLeast(rank, n'.root[u], Heard(g, n, u))
        case Announce(u) =>
          n'.root == n.root && n'.heard == n.heard
          && forall w, x :: Wire(n', w, x) == Wire(n, w, x) + if w == u && x in g.Peers(u) then [n.root[u]] else []
        case Receive(u, w) =>
          w in g.Peers(u) && Wire(n, w, u) != []
          && n' == n.(heard := n.heard[(u, w) := Wire(n, w, u)[0]], wire := n.wire[(w, u) := Wire(n, w, u)[1..]]))
  }

  ghost predicate Fresh(g: Network, n: Net) {
    n.root.Keys == g.adj.Keys && n.heard == map[] && n.wire == map[] && forall u | u in g.adj.Keys :: n.root[u] == u
  }

  /** The ranks along a link only improve: what was heard, what is on the wire, what is held. */
  ghost predicate Improving(rank: Id -> nat, s: seq<Id>) {
    forall i, j | 0 <= i <= j < |s| :: rank(s[j]) <= rank(s[i])
  }

  function Pipeline(n: Net, w: Id, u: Id): seq<Id>
    requires w in n.root
  {
    (if (u, w) in n.heard then [n.heard[(u, w)]] else []) + Wire(n, w, u) + [n.root[w]]
  }

  /** Every root held, heard or under way is a node. */
  ghost predicate NodesOk(g: Network, n: Net)
    requires n.root.Keys == g.adj.Keys
  {
    && (forall u {:trigger n.root[u]} | u in g.adj.Keys :: n.root[u] in g.adj.Keys)
    && (forall k {:trigger n.heard[k]} | k in n.heard :: n.heard[k] in g.adj.Keys)
    && (forall k, x | k in n.wire && x in n.wire[k] :: x in g.adj.Keys)
  }

  ghost predicate LinksOk(rank: Id -> nat, g: Network, n: Net)
    requires n.root.Keys == g.adj.Keys
  {
    forall w, u {:trigger Pipeline(n, w, u)} | w in g.adj.Keys && u in g.Peers(w) :: Improving(rank, Pipeline(n, w, u))
  }

  /** Nobody holds a root better than the best they have heard of, so the next repair cannot make
      it worse. */
  ghost predicate NotAhead(rank: Id -> nat, g: Network, n: Net, u: Id)
    requires u in n.root
  {
    exists x | x in Heard(g, n, u) :: rank(x) <= rank(n.root[u])
  }

  ghost predicate RootsOk(rank: Id -> nat, g: Network, n: Net)
    requires n.root.Keys == g.adj.Keys
  {
    forall u {:trigger NotAhead(rank, g, n, u)} | u in g.adj.Keys :: NotAhead(rank, g, n, u)
  }

  ghost predicate Inv(rank: Id -> nat, g: Network, n: Net) {
    n.root.Keys == g.adj.Keys && NodesOk(g, n) && LinksOk(rank, g, n) && RootsOk(rank, g, n)
  }

  // ---------------------------------------------------------------- every step

  lemma ImproveLast(rank: Id -> nat, s: seq<Id>, a: Id, b: Id)
    requires Improving(rank, s + [a]) && rank(b) <= rank(a)
    ensures Improving(rank, s + [b])
  {
    var x, y := s + [a], s + [b];
    forall i, j | 0 <= i <= j < |y| ensures rank(y[j]) <= rank(y[i]) {
      assert rank(x[j]) <= rank(x[i]);
    }
  }

  lemma ImproveRepeat(rank: Id -> nat, s: seq<Id>, a: Id)
    requires Improving(rank, s + [a])
    ensures Improving(rank, s + [a] + [a])
  {
    var x, y := s + [a], s + [a] + [a];
    forall i, j | 0 <= i <= j < |y| ensures rank(y[j]) <= rank(y[i]) {
      var i', j' := if i < |x| then i else |s|, if j < |x| then j else |s|;
      assert rank(x[j']) <= rank(x[i']);
    }
  }

  /** What is ahead of the current root on a link. */
  function Ahead(n: Net, w: Id, u: Id): seq<Id> {
    (if (u, w) in n.heard then [n.heard[(u, w)]] else []) + Wire(n, w, u)
  }

  /** A repair never makes a node's root worse. */
  lemma FixNeverRises(rank: Id -> nat, g: Network, n: Net, r: Id, u: Id)
    requires u in n.root && NotAhead(rank, g, n, u) && IsLeast(rank, r, Heard(g, n, u))
    ensures rank(r) <= rank(n.root[u])
  {
    hide Heard;
  }

  lemma FixKeepsLinks(rank: Id -> nat, g: Network, n: Net, r: Id, u: Id)
    requires n.root.Keys == g.adj.Keys && LinksOk(rank, g, n) && u in g.adj.Keys && rank(r) <= rank(n.root[u])
    ensures LinksOk(rank, g, n.(root := n.root[u := r]))
  {
    var n' := n.(root := n.root[u := r]);
    forall w, x | w in g.adj.Keys && x in g.Peers(w) ensures Improving(rank, Pipeline(n', w, x)) {
      assert Improving(rank, Pipeline(n, w, x));
      assert Pipeline(n, w, x) == Ahead(n, w, x) + [n.root[w]] && Pipeline(n', w, x) == Ahead(n, w, x) + [n'.root[w]];
      ImproveLast(rank, Ahead(n, w, x), n.root[w], n'.root[w]);
    }
  }

  lemma FixKeepsNodes(g: Network, n: Net, r: Id, u: Id)
    requires n.root.Keys == g.adj.Keys && NodesOk(g, n) && u in g.adj.Keys && r in Heard(g, n, u)
    ensures NodesOk(g, n.(root := n.root[u := r]))
  {
  }

  lemma FixKeepsInv(rank: Id -> nat, g: Network, n: Net, n': Net, u: Id)
    requires Inv(rank, g, n) && Next(rank, g, n, n', Fix(u))
    ensures Inv(rank, g, n')
  {
    hide LinksOk, NotAhead, Heard, NodesOk;
    var r := n'.root[u];
    FixKeepsNodes(g, n, r, u);
    FixNeverRises(rank, g, n, r, u);
    FixKeepsLinks(rank, g, n, r, u);
    forall v | v in g.adj.Keys ensures NotAhead(rank, g, n', v) {
      FixKeepsNotAhead(rank, g, n, r, u, v);
    }
  }

  lemma FixKeepsNotAhead(rank: Id -> nat, g: Network, n: Net, r: Id, u: Id, v: Id)
    requires u in n.root && v in n.root && NotAhead(rank, g, n, v) && IsLeast(rank, r, Heard(g, n, u))
    ensures NotAhead(rank, g, n.(root := n.root[u := r]), v)
  {
    var n' := n.(root := n.root[u := r]);
    assert Heard(g, n', v) == Heard(g, n, v);
  }

  lemma AnnounceKeepsInv(rank: Id -> nat, g: Network, n: Net, n': Net, u: Id)
    requires Inv(rank, g, n) && Next(rank, g, n, n', Announce(u))
    ensures Inv(rank, g, n')
  {
    hide RootsOk, Improving;
    forall w, x | w in g.adj.Keys && x in g.Peers(w) ensures Improving(rank, Pipeline(n', w, x)) {
      LinkAt(rank, g, n, w, x);
      var ahead := Ahead(n, w, x);
      assert Pipeline(n, w, x) == ahead + [n.root[w]];
      if w == u {
        ImproveRepeat(rank, ahead, n.root[u]);
        assert Pipeline(n', u, x) == ahead + [n.root[u]] + [n.root[u]];
      } else {
        assert Wire(n', w, x) == Wire(n, w, x);
      }
    }
    AnnounceKeepsNodes(rank, g, n, n', u);
    SameHeard(rank, g, n, n');
  }

  lemma AnnounceKeepsNodes(rank: Id -> nat, g: Network, n: Net, n': Net, u: Id)
    requires n.root.Keys == g.adj.Keys && NodesOk(g, n) && Next(rank, g, n, n', Announce(u))
    ensures NodesOk(g, n')
  {
    forall k, x | k in n'.wire && x in n'.wire[k] ensures x in g.adj.Keys {
      assert Wire(n', k.0, k.1) == n'.wire[k];
      assert Wire(n', k.0, k.1) == Wire(n, k.0, k.1) + if k.0 == u && k.1 in g.Peers(u) then [n.root[u]] else [];
    }
  }

  lemma SameHeard(rank: Id -> nat, g: Network, n: Net, n': Net)
    requires n.root.Keys == g.adj.Keys && RootsOk(rank, g, n) && n'.root == n.root && n'.heard == n.heard
    ensures RootsOk(rank, g, n')
  {
    forall v | v in g.adj.Keys ensures NotAhead(rank, g, n', v) {
      assert NotAhead(rank, g, n, v);
      assert Heard(g, n', v) == Heard(g, n, v);
    }
  }

  /** Receiving drops at most the front of the link. */
  lemma ReceivePipeline(n: Net, n': Net, u: Id, w: Id)
    requires w in n.root && Wire(n, w, u) != []
    requires n' == n.(heard := n.heard[(u, w) := Wire(n, w, u)[0]], wire := n.wire[(w, u) := Wire(n, w, u)[1..]])
    ensures Pipeline(n', w, u) == Pipeline(n, w, u)[if (u, w) in n.heard then 1 else 0..]
  {
    var q := Wire(n, w, u);
    assert [q[0]] + q[1..] == q;
  }

  lemma ReceiveKeepsLinks(rank: Id -> nat, g: Network, n: Net, n': Net, u: Id, w: Id)
    requires n.root.Keys == g.adj.Keys && LinksOk(rank, g, n) && Next(rank, g, n, n', Receive(u, w)) && w in g.adj.Keys
    ensures LinksOk(rank, g, n')
  {
    ReceivePipeline(n, n', u, w);
    forall v, x | v in g.adj.Keys && x in g.Peers(v) ensures Improving(rank, Pipeline(n', v, x)) {
      assert Improving(rank, Pipeline(n, v, x));
      if !(v == w && x == u) {
        assert Pipeline(n', v, x) == Pipeline(n, v, x);
      }
    }
  }

  /** What replaces a heard root is no worse. */
  lemma ReceiveKeepsNotAhead(rank: Id -> nat, g: Network, n: Net, n': Net, u: Id, w: Id, v: Id)
    requires n.root.Keys == g.adj.Keys && Next(rank, g, n, n', Receive(u, w)) && v in g.adj.Keys && w in g.adj.Keys
    requires NotAhead(rank, g, n, v) && Improving(rank, Pipeline(n, w, u))
    ensures NotAhead(rank, g, n', v)
  {
    var x :| x in Heard(g, n, v) && rank(x) <= rank(n.root[v]);
    if x != v {
      var z :| z in g.Peers(v) && (v, z) in n.heard && n.heard[(v, z)] == x;
      var x' := n'.heard[(v, z)];
      if v == u && z == w {
        var q := Pipeline(n, w, u);
        assert q[0] == x && q[1] == x' && rank(q[1]) <= rank(q[0]);
      }
      assert x' in Heard(g, n', v);
    } else {
      assert x in Heard(g, n', v);
    }
  }

  lemma LinkAt(rank: Id -> nat, g: Network, n: Net, w: Id, u: Id)
    requires n.root.Keys == g.adj.Keys && LinksOk(rank, g, n) && w in g.adj.Keys && u in g.Peers(w)
    ensures Improving(rank, Pipeline(n, w, u))
  {
  }

  lemma ReceiveKeepsNodes(rank: Id -> nat, g: Network, n: Net, n': Net, u: Id, w: Id)
    requires n.root.Keys == g.adj.Keys && NodesOk(g, n) && Next(rank, g, n, n', Receive(u, w))
    ensures NodesOk(g, n')
  {
    var q := Wire(n, w, u);
    assert forall x | x in q[1..] :: x in q;
    assert q[0] in q;
  }

  lemma ReceiveKeepsInv(rank: Id -> nat, g: Network, n: Net, n': Net, u: Id, w: Id)
    requires g.Valid() && Inv(rank, g, n) && Next(rank, g, n, n', Receive(u, w))
    ensures Inv(rank, g, n')
  {
    hide Graph.Valid, Heard, NotAhead, LinksOk, NodesOk, Improving, Pipeline;
    g.PeersAreNodes(u);
    LinkAt(rank, g, n, w, u);
    ReceiveKeepsNodes(rank, g, n, n', u, w);
    ReceiveKeepsLinks(rank, g, n, n', u, w);
    forall v | v in g.adj.Keys ensures NotAhead(rank, g, n', v) {
      ReceiveKeepsNotAhead(rank, g, n, n', u, w, v);
    }
  }

  lemma StepKeepsInv(rank: Id -> nat, g: Network, n: Net, n': Net, step: Step)
    requires g.Valid() && Inv(rank, g, n) && Next(rank, g, n, n', step)
    ensures Inv(rank, g, n')
  {
    hide Inv, Next, Graph.Valid;
    match step
    case Fix(u) => FixKeepsInv(rank, g, n, n', u);
    case Announce(u) => AnnounceKeepsInv(rank, g, n, n', u);
    case Receive(u, w) => ReceiveKeepsInv(rank, g, n, n', u, w);
  }

  // ---------------------------------------------------------------- whole runs

  ghost predicate StepAt(rank: Id -> nat, g: Network, nets: seq<Net>, steps: seq<Step>, i: nat)
    requires i < |steps| && |nets| == |steps| + 1
  {
    nets[i].root.Keys == g.adj.Keys && Next(rank, g, nets[i], nets[i + 1], steps[i])
  }

  ghost predicate IsRun(rank: Id -> nat, g: Network, nets: seq<Net>, steps: seq<Step>) {
    && |nets| == |steps| + 1 && Fresh(g, nets[0])
    && forall i | 0 <= i < |steps| :: StepAt(rank, g, nets, steps, i)
  }

  lemma FreshInv(rank: Id -> nat, g: Network, n: Net)
    requires Fresh(g, n)
    ensures Inv(rank, g, n)
  {
    forall u, w | u in g.adj.Keys && w in g.Peers(u) ensures Improving(rank, Pipeline(n, u, w)) {
      assert Pipeline(n, u, w) == [u];
    }
    forall u | u in g.adj.Keys ensures NotAhead(rank, g, n, u) {
      assert u in Heard(g, n, u);
    }
  }

  lemma {:induction false} RunKeepsInv(rank: Id -> nat, g: Network, nets: seq<Net>, steps: seq<Step>, i: nat)
    requires g.Valid() && IsRun(rank, g, nets, steps) && i < |nets|
    ensures Inv(rank, g, nets[i])
  {
    hide Inv, Next, Fresh, Graph.Valid;
    if i == 0 {
      FreshInv(rank, g, nets[0]);
    } else {
      RunKeepsInv(rank, g, nets, steps, i - 1);
      assert StepAt(rank, g, nets, steps, i - 1);
      StepKeepsInv(rank, g, nets[i - 1], nets[i], steps[i - 1]);
    }
  }

  lemma InvAt(rank: Id -> nat, g: Network, n: Net, u: Id)
    requires Inv(rank, g, n) && u in g.adj.Keys
    ensures n.root.Keys == g.adj.Keys && n.root[u] in g.adj.Keys
  {
    hide LinksOk, RootsOk;
  }

  lemma StepNeverRises(rank: Id -> nat, g: Network, n: Net, n': Net, step: Step, u: Id)
    requires Inv(rank, g, n) && Next(rank, g, n, n', step) && u in g.adj.Keys && n'.root.Keys == g.adj.Keys
    ensures rank(n'.root[u]) <= rank(n.root[u])
  {
    hide NotAhead, Heard, LinksOk, NodesOk;
    if step == Fix(u) {
      FixNeverRises(rank, g, n, n'.root[u], u);
    }
  }

  /** In every run, whatever the schedule: a root ever held is a real node, and a node's root only
      gets better. */
  lemma {:induction false} RootOnlyImproves(rank: Id -> nat, g: Network, nets: seq<Net>, steps: seq<Step>, i: nat, j: nat, u: Id)
    requires g.Valid() && IsRun(rank, g, nets, steps) && i <= j < |nets| && u in g.adj.Keys
    ensures u in nets[i].root && u in nets[j].root
    ensures nets[j].root[u] in g.adj.Keys
    ensures rank(nets[j].root[u]) <= rank(nets[i].root[u])
    decreases j - i
  {
    hide Inv, Next, Graph.Valid, Fresh;
    RunKeepsInv(rank, g, nets, steps, j);
    InvAt(rank, g, nets[j], u);
    if i < j {
      RootOnlyImproves(rank, g, nets, steps, i, j - 1, u);
      RunKeepsInv(rank, g, nets, steps, j - 1);
      InvAt(rank, g, nets[j - 1], u);
      assert StepAt(rank, g, nets, steps, j - 1);
      StepNeverRises(rank, g, nets[j - 1], nets[j], steps[j - 1], u);
    }
  }

  /** A fixpoint: every node has heard what its peers hold, and repairing changes nothing. */
  ghost predicate Settled(rank: Id -> nat, g: Network, n: Net)
    requires n.root.Keys == g.adj.Keys
  {
    && (forall u, w | u in g.adj.Keys && w in g.Peers(u) :: (u, w) in n.heard && w in n.root && n.heard[(u, w)] == n.root[w])
    && (forall u | u in g.adj.Keys :: IsLeast(rank, n.root[u], Heard(g, n, u)))
  }

  /** In a fixpoint a node's root is no worse than itself, nor than a peer's root. */
  lemma SettledNoWorse(rank: Id -> nat, g: Network, n: Net, u: Id, w: Id)
    requires n.root.Keys == g.adj.Keys && Settled(rank, g, n) && u in g.adj.Keys
    ensures rank(n.root[u]) <= rank(u)
    ensures w in g.Peers(u) ==> w in g.adj.Keys && rank(n.root[u]) <= rank(n.root[w])
  {
    hide Heard;
    HeardHas(g, n, u, w);
    assert IsLeast(rank, n.root[u], Heard(g, n, u));
  }

  lemma HeardHas(g: Network, n: Net, u: Id, w: Id)
    ensures u in Heard(g, n, u)
    ensures w in g.Peers(u) && (u, w) in n.heard ==> n.heard[(u, w)] in Heard(g, n, u)
  {
  }

  lemma {:induction false} BestAlongPath(rank: Id -> nat, g: Network, n: Net, path: seq<Id>)
    requires g.Valid() && n.root.Keys == g.adj.Keys && Settled(rank, g, n)
    requires IsPath(g, path) && path[0] in g.adj.Keys
    ensures path[|path| - 1] in g.adj.Keys
    ensures rank(n.root[path[|path| - 1]]) <= rank(path[0])
    decreases |path|
  {
    hide Settled, Graph.Valid;
    var k := |path| - 1;
    if k > 0 {
      BestAlongPath(rank, g, n, path[..k]);
      g.PeersAreNodes(path[k - 1]);
      SettledNoWorse(rank, g, n, path[k], path[k - 1]);
    } else {
      SettledNoWorse(rank, g, n, path[0], path[0]);
    }
  }

  /** Any fixpoint that a run arrives at agrees on the best node there is. */
  lemma FixpointAgrees(rank: Id -> nat, g: Network, nets: seq<Net>, steps: seq<Step>, best: Id, path: seq<Id>)
    requires g.Valid() && IsRun(rank, g, nets, steps)
    requires nets[|steps|].root.Keys == g.adj.Keys && Settled(rank, g, nets[|steps|])
    requires NoTies(rank) && IsLeast(rank, best, g.adj.Keys) && IsPath(g, path) && path[0] == best
    ensures path[|path| - 1] in g.adj.Keys
    ensures nets[|steps|].root[path[|path| - 1]] == best
  {
    hide Inv, StepAt, Fresh, Settled, Graph.Valid;
    var n := nets[|steps|];
    RunKeepsInv(rank, g, nets, steps, |steps|);
    BestAlongPath(rank, g, n, path);
    InvAt(rank, g, n, path[|path| - 1]);
    assert rank(best) == rank(n.root[path[|path| - 1]]);
  }
}
