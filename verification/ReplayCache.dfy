/**
 The onion replay cache: a queue of digests in order of arrival, a set mirroring it, and eviction of
 the oldest digest once the queue is full.
 */
module ReplayCache {
  import opened Words

  const ONION_REPLAY_CACHE_SIZE: nat := 4096

  type Digest = Bytes32

  /** The last ONION_REPLAY_CACHE_SIZE of a list. */
  function Recent(s: seq<Digest>): (r: seq<Digest>)
    ensures |r| <= ONION_REPLAY_CACHE_SIZE
    ensures forall d :: d in r <==> exists i :: 0 <= i < |s| && |s| - ONION_REPLAY_CACHE_SIZE <= i && s[i] == d
  {
    if |s| <= ONION_REPLAY_CACHE_SIZE then s else s[|s| - ONION_REPLAY_CACHE_SIZE..]
  }

  /** Of the digests that arrive, those let through: the ones not among the last let through. */
  function Accepted(arrivals: seq<Digest>): seq<Digest> {
    if arrivals == [] then []
    else
      var before := Accepted(arrivals[..|arrivals| - 1]);
      var d := arrivals[|arrivals| - 1];
      if d in Recent(before) then before else before + [d]
  }

  /** The set holds just what the queue holds, and the queue holds nothing twice. */
  ghost predicate Mirrors(members: set<Digest>, queue: seq<Digest>) {
    && (forall d :: d in members <==> d in queue)
    && forall i, j | 0 <= i < j < |queue| :: queue[i] != queue[j]
  }

  lemma MirrorNext(members: set<Digest>, queue: seq<Digest>, d: Digest)
    requires Mirrors(members, queue) && d !in members
    ensures Mirrors(members + {d}, queue + [d])
    ensures queue != [] ==> Mirrors(members + {d} - {queue[0]}, queue[1..] + [d])
  {
    assert forall x | x in queue + [d] :: x in queue || x == d;
    if queue != [] {
      assert forall x | x in queue :: x == queue[0] || x in queue[1..];
      assert forall x | x in queue[1..] + [d] :: x in queue[1..] || x == d;
    }
  }

  class OnionSeen {
    var queue: seq<Digest>
    var members: set<Digest>
    /** Every digest that ever arrived. */
    ghost var arrivals: seq<Digest>

    ghost predicate Valid() reads this {
      queue == Recent(Accepted(arrivals)) && Mirrors(members, queue)
    }

    constructor ()
      ensures Valid() && arrivals == []
    {
      queue, members, arrivals := [], {}, [];
    }

    /** Record a digest; true if it was seen. The set keeps mirroring the queue. */
    method DigestSeen(digest: Digest) returns (seen: bool)
      requires Valid()
      modifies this
      ensures Valid() && arrivals == old(arrivals) + [digest]
      ensures seen <==> digest in Recent(Accepted(old(arrivals)))
      ensures Accepted(arrivals) == Accepted(old(arrivals)) + (if seen then [] else [digest])
    {
      hide Recent, Mirrors;
      MirrorHas(members, queue, digest);
      ghost var before := Accepted(arrivals);
      AcceptedNext(arrivals, digest);
      arrivals := arrivals + [digest];
      if digest in members {
        return true;
      }
      RecentNext(before, digest);
      MirrorNext(members, queue, digest);
      members := members + {digest};
      if |queue| >= ONION_REPLAY_CACHE_SIZE {
        var evicted := queue[0];
        queue := queue[1..];
        members := members - {evicted};
      }
      queue := queue + [digest];
      return false;
    }
  }

  lemma MirrorHas(members: set<Digest>, queue: seq<Digest>, d: Digest)
    requires Mirrors(members, queue)
    ensures d in members <==> d in queue
  {
  }

  lemma AcceptedNext(arrivals: seq<Digest>, d: Digest)
    ensures var before := Accepted(arrivals);
            Accepted(arrivals + [d]) == before + (if d in Recent(before) then [] else [d])
  {
    var all := arrivals + [d];
    assert all[..|all| - 1] == arrivals;
    assert Accepted(arrivals) + [] == Accepted(arrivals);
  }

  lemma RecentNext(s: seq<Digest>, d: Digest)
    ensures var q := Recent(s);
            Recent(s + [d]) == (if |q| >= ONION_REPLAY_CACHE_SIZE then q[1..] else q) + [d]
  {
  }

  /** Any two places where one digest was let through are more than the cache's size apart... */
  lemma {:induction false} RepeatsFarApart(arrivals: seq<Digest>, i: nat, j: nat)
    requires i < j < |Accepted(arrivals)| && Accepted(arrivals)[i] == Accepted(arrivals)[j]
    ensures j - i > ONION_REPLAY_CACHE_SIZE
    decreases |arrivals|
  {
    var init, d := arrivals[..|arrivals| - 1], arrivals[|arrivals| - 1];
    var before := Accepted(init);
    if j < |before| {
      RepeatsFarApart(init, i, j);
    }
  }

  /** ...and a digest is let through again exactly when that many others were since its last time. */
  lemma SeenIffRecent(arrivals: seq<Digest>, d: Digest, last: nat)
    requires last < |Accepted(arrivals)| && Accepted(arrivals)[last] == d
    requires forall i | last < i < |Accepted(arrivals)| :: Accepted(arrivals)[i] != d
    ensures Accepted(arrivals + [d]) == Accepted(arrivals) <==> |Accepted(arrivals)| - last <= ONION_REPLAY_CACHE_SIZE
  {
    hide Recent;
    AcceptedNext(arrivals, d);
  }
}
