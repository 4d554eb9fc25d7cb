/** A static network of peers: an undirected graph, its paths and its neighbourhoods. */
module Graphs {

  datatype Graph<!T(==)> = Graph(adj: map<T, set<T>>) {

    function Peers(u: T): set<T> {
      if u in adj then adj[u] else {}
    }

    /** Nobody is their own peer, and peering is mutual. */
    ghost predicate Valid() {
      && (forall u | u in adj :: u !in Peers(u))
      && (forall u, w | u in adj && w in Peers(u) :: u in Peers(w))
    }

    lemma PeersAreNodes(u: T)
      requires Valid()
      ensures Peers(u) <= adj.Keys
      ensures forall w | w in Peers(u) :: u in Peers(w)
    {
      forall w | w in Peers(u) ensures w in adj.Keys {
        assert u in Peers(w);
      }
    }
  }

  /** Each node of the path is a peer of the one before it. */
  ghost predicate IsPath<T>(g: Graph<T>, path: seq<T>) {
    path != [] && forall i | 0 <= i < |path| - 1 :: path[i + 1] in g.Peers(path[i])
  }

  lemma {:induction false} SubsetSize<T>(a: set<T>, b: set<T>)
    requires a <= b
    ensures |a| <= |b|
  {
    if a != {} {
      var x :| x in a;
      SubsetSize(a - {x}, b - {x});
    }
  }

  /** `x` is at most `r` hops away from `u`. */
  ghost predicate Within<T>(g: Graph<T>, u: T, x: T, r: nat) {
    x == u || (r > 0 && exists w | w in g.Peers(u) :: Within(g, w, x, r - 1))
  }

  /** That is: there is a path of at most `r` hops. */
  lemma {:induction false} WithinHasPath<T>(g: Graph<T>, u: T, x: T, r: nat) returns (path: seq<T>)
    requires Within(g, u, x, r)
    ensures IsPath(g, path) && path[0] == u && path[|path| - 1] == x && |path| <= r + 1
  {
    if x == u {
      path := [u];
    } else {
      var w :| w in g.Peers(u) && Within(g, w, x, r - 1);
      var rest := WithinHasPath(g, w, x, r - 1);
      path := [u] + rest;
    }
  }

  lemma {:induction false} PathIsWithin<T>(g: Graph<T>, u: T, r: nat, path: seq<T>)
    requires IsPath(g, path) && path[0] == u && |path| <= r + 1
    ensures Within(g, u, path[|path| - 1], r)
  {
    if |path| > 1 {
      PathIsWithin(g, path[1], r - 1, path[1..]);
      assert path[1] in g.Peers(u);
    }
  }

  lemma {:induction false} WithinNode<T>(g: Graph<T>, u: T, x: T, r: nat)
    requires g.Valid() && u in g.adj.Keys && Within(g, u, x, r)
    ensures x in g.adj.Keys
  {
    if x != u {
      var w :| w in g.Peers(u) && Within(g, w, x, r - 1);
      g.PeersAreNodes(u);
      WithinNode(g, w, x, r - 1);
    }
  }

  /** The nodes at most `r` hops away from `u`. */
  ghost function Ball<T>(g: Graph<T>, u: T, r: nat): set<T> {
    set x | x in g.adj.Keys && Within(g, u, x, r)
  }

  // ---------------------------------------------------------------- how far is far enough

  /** One hop further: the ball around `u` and the peers of its members. */
  lemma BallGrowsByPeers<T>(g: Graph<T>, u: T, r: nat, x: T, y: T)
    requires g.Valid() && u in g.adj.Keys && x in Ball(g, u, r) && y in g.Peers(x)
    ensures y in Ball(g, u, r + 1)
  {
    var path := WithinHasPath(g, u, x, r);
    PathIsWithin(g, u, r + 1, path + [y]);
    g.PeersAreNodes(x);
  }

  lemma BallMonotone<T>(g: Graph<T>, u: T, r: nat)
    requires u in g.adj.Keys
    ensures Ball(g, u, r) <= Ball(g, u, r + 1) && u in Ball(g, u, r)
  {
    forall x | x in Ball(g, u, r) ensures x in Ball(g, u, r + 1) {
      var path := WithinHasPath(g, u, x, r);
      PathIsWithin(g, u, r + 1, path);
    }
  }

  /** A ball that one more hop does not enlarge holds everything connected to its centre. */
  lemma {:induction false} StableBallIsAll<T>(g: Graph<T>, u: T, r: nat, path: seq<T>)
    requires g.Valid() && u in g.adj.Keys && Ball(g, u, r + 1) == Ball(g, u, r)
    requires IsPath(g, path) && path[0] == u
    ensures path[|path| - 1] in Ball(g, u, r)
    decreases |path|
  {
    BallMonotone(g, u, r);
    if |path| > 1 {
      var k := |path| - 1;
      StableBallIsAll(g, u, r, path[..k]);
      BallGrowsByPeers(g, u, r, path[k - 1], path[k]);
    }
  }

  /** Until then every hop adds a node, so there is such a ball within as many hops as nodes. */
  lemma {:induction false} BallStabilises<T>(g: Graph<T>, u: T, r: nat) returns (s: nat)
    requires g.Valid() && u in g.adj.Keys
    ensures s <= r && (Ball(g, u, s + 1) == Ball(g, u, s) || |Ball(g, u, r)| > r)
  {
    BallMonotone(g, u, r);
    if r == 0 {
      s := 0;
      assert {u} <= Ball(g, u, 0);
      SubsetSize({u}, Ball(g, u, 0));
    } else {
      s := BallStabilises(g, u, r - 1);
      BallMonotone(g, u, r - 1);
      if Ball(g, u, s + 1) != Ball(g, u, s) {
        if Ball(g, u, r) == Ball(g, u, r - 1) {
          s := r - 1;
        } else {
          var extra :| extra in Ball(g, u, r) && extra !in Ball(g, u, r - 1);
          SubsetSize(Ball(g, u, r - 1) + {extra}, Ball(g, u, r));
        }
      }
    }
  }

  lemma {:induction false} BallMonotoneFar<T>(g: Graph<T>, u: T, s: nat, r: nat)
    requires u in g.adj.Keys && s <= r
    ensures Ball(g, u, s) <= Ball(g, u, r)
    decreases r - s
  {
    if s < r {
      BallMonotoneFar(g, u, s, r - 1);
      BallMonotone(g, u, r - 1);
    }
  }

  /** As many hops as there are nodes reach everything connected. */
  lemma EverythingWithinSize<T>(g: Graph<T>, u: T, path: seq<T>)
    requires g.Valid() && u in g.adj.Keys && IsPath(g, path) && path[0] == u
    ensures path[|path| - 1] in Ball(g, u, |g.adj|)
  {
    var n := |g.adj|;
    var s := BallStabilises(g, u, n);
    assert |g.adj.Keys| == n;
    SubsetSize(Ball(g, u, n), g.adj.Keys);
    StableBallIsAll(g, u, s, path);
    BallMonotoneFar(g, u, s, n);
  }
}
