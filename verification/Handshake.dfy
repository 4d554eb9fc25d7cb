/**
 The session handshake between two peers. Each may initiate on its own, retransmit its Init and
 answer the other's, so two exchanges can cross; the tie-break between their secrets looks only at
 the two identities. Identities are compared as 32-byte big-endian numbers.
 */
module Handshake {
  import opened Words
  import S = Session

  type Id = nat
  type Key = Bytes32

  const HANDSHAKE_RETX_BASE_MS: nat := 1000
  const HANDSHAKE_RETX_MAX_MS: nat := 30_000
  const U32_MAX: nat := 0xFFFF_FFFF

  /** Key encapsulation: `encap(ek, r)` is a ciphertext and a secret drawn with randomness `r`. */
  datatype Kem = Kem(ek: Key -> Key, encap: (Key, nat) -> (Bytes, Key), decap: (Key, Bytes) -> Key)

  /** Decapsulation with the matching key gives the encapsulated secret back. */
  ghost predicate KemLawful(k: Kem) {
    forall dk, r :: k.decap(dk, k.encap(k.ek(dk), r).0) == k.encap(k.ek(dk), r).1
  }

  datatype Init = Init(from: Id, x: Key, kemPub: Key)
  datatype Ack = Ack(from: Id, x: Key, ct: Bytes)

  datatype Sess = Sess(state: S.State, established: bool, lastInitSent: nat, retx: nat)

  function NewSess(c: S.Crypto, priv: Key, remote: Key, now: nat): Sess {
    Sess(S.State(priv, c.pub(priv), remote, 0, S.Window(0, S.Empty()), None, None, None), false, now, 0)
  }

  /** Answering an Init: an existing session keeps its own key, adopts the new secret only if it
      has none or the initiator's identity is the smaller one, and does not reset its window. */
  function OnInit(c: S.Crypto, k: Kem, us: Id, sess: Option<Sess>, init: Init, priv: Key, rnd: nat, now: nat): (Sess, Ack) {
    var (ct, secret) := k.encap(init.kemPub, rnd);
    match sess
    case Some(e) =>
      var adopt := e.state.pq.None? || init.from < us;
      var st := e.state.(remote := init.x);
      (e.(established := true, state := if adopt then st.(pq := Some(secret), fallback := None) else st),
       Ack(us, c.pub(e.state.priv), ct))
    case None =>
      var e := NewSess(c, priv, init.x, now);
      (e.(established := true, state := e.state.(pq := Some(secret))), Ack(us, c.pub(priv), ct))
  }

  /** Taking an Ack for an existing session: the secret is adopted only if there is none yet or our
      identity is the smaller one. */
  function OnAck(k: Kem, us: Id, dk: Key, prevDk: Option<Key>, sess: Sess, ack: Ack): Sess {
    var adopt := sess.state.pq.None? || us < ack.from;
    var st := sess.state.(remote := ack.x);
    var fallback := if prevDk.Some? then Some(k.decap(prevDk.value, ack.ct)) else None;
    sess.(established := true,
          state := if adopt then st.(pq := Some(k.decap(dk, ack.ct)), fallback := fallback) else st)
  }

  /** A further handshake changes a session as a step of its run does: the window stays. */
  lemma HandshakeIsOp(c: S.Crypto, k: Kem, us: Id, e: Sess, init: Init, ack: Ack, dk: Key, prevDk: Option<Key>, priv: Key, rnd: nat, now: nat)
    ensures exists adopted :: OnInit(c, k, us, Some(e), init, priv, rnd, now).0.state == S.Apply(c, e.state, S.Rehandshake(init.x, adopted))
    ensures exists adopted :: OnAck(k, us, dk, prevDk, e, ack).state == S.Apply(c, e.state, S.Rehandshake(ack.x, adopted))
  {
    var (ct, secret) := k.encap(init.kemPub, rnd);
    var st := OnInit(c, k, us, Some(e), init, priv, rnd, now).0.state;
    assert st == S.Apply(c, e.state, S.Rehandshake(init.x, if e.state.pq.None? || init.from < us then Some((secret, None)) else None));
    var fallback := if prevDk.Some? then Some(k.decap(prevDk.value, ack.ct)) else None;
    assert OnAck(k, us, dk, prevDk, e, ack).state
        == S.Apply(c, e.state, S.Rehandshake(ack.x, if e.state.pq.None? || us < ack.from then Some((k.decap(dk, ack.ct), fallback)) else None));
  }

  /** An Ack may answer an Init that carried our retired encapsulation key. Where both sides adopt it,
      our own secret is then wrong and the fallback is right: the peer's first packet decrypts by the
      fallback and leaves both sides with one secret and each other's key. */
  lemma RetiredKeyAckDelivers(c: S.Crypto, k: Kem, us: Id, them: Id, ours: Sess, theirs: Option<Sess>, dk: Key, retired: Key,
                              priv: Key, rnd: nat, now: nat, m: Bytes)
    requires S.Lawful(c) && KemLawful(k) && S.CacheSound(c, ours.state)
    requires theirs.Some? ==> S.CacheSound(c, theirs.value.state)
    requires us < them || (ours.state.pq.None? && (theirs.None? || theirs.value.state.pq.None?))
    requires var (e, ack) := OnInit(c, k, them, theirs, Init(us, ours.state.pub, k.ek(retired)), priv, rnd, now);
             && ours.state.window.Refuses(e.state.localSeq) == None
             && c.open(c.derive(c.dh(ours.state.priv, e.state.pub), Some(k.decap(dk, ack.ct))),
                       e.state.localSeq, e.state.pub, S.Encrypt(c, e.state, m).0[40..]).None?
    ensures var (e, ack) := OnInit(c, k, them, theirs, Init(us, ours.state.pub, k.ek(retired)), priv, rnd, now);
            var after := OnAck(k, us, dk, Some(retired), ours, ack);
            var (r, s) := S.Decrypt(c, after.state, S.Encrypt(c, e.state, m).0);
            && after.established && r == Ok(m)
            && s.pq == e.state.pq && s.fallback.None? && s.remote == e.state.pub && e.state.remote == s.pub
  {
    hide S.Decrypt, S.Encrypt, S.Window.Refuses, S.DhShared;
    var (e, ack) := OnInit(c, k, them, theirs, Init(us, ours.state.pub, k.ek(retired)), priv, rnd, now);
    var after := OnAck(k, us, dk, Some(retired), ours, ack).state;
    assert S.CacheSound(c, e.state) && S.CacheSound(c, after);
    assert after.fallback == e.state.pq;
    S.FallbackPromotes(c, e.state, after, m);
    S.DecryptKeeps(c, after, S.Encrypt(c, e.state, m).0);
  }

  // ---------------------------------------------------------------- the session manager

  /** How long an unanswered Init waits before its next retransmit. */
  function RetxInterval(retx: nat): (ms: nat) {
    var shift := if retx < 5 then retx else 5;
    var doubled := HANDSHAKE_RETX_BASE_MS * Pow2(shift);
    if doubled < HANDSHAKE_RETX_MAX_MS then doubled else HANDSHAKE_RETX_MAX_MS
  }

  predicate RetxDue(e: Sess, now: nat) {
    !e.established && (if now >= e.lastInitSent then now - e.lastInitSent else 0) >= RetxInterval(e.retx)
  }

  function Resent(e: Sess, now: nat): Sess {
    e.(lastInitSent := now, retx := if e.retx < U32_MAX then e.retx + 1 else U32_MAX)
  }

  datatype HandshakeError = Malformed | RateLimited | BadSignature | PinMismatch | Unsolicited

  /** Whoever answers an Init or takes an Ack has an established session, which resends nothing; an
      unanswered Init is due again after 1, 2, 4, 8, 16 and then every 30 s. */
  lemma AnsweredNeverResends(c: S.Crypto, k: Kem, us: Id, e: Sess, prior: Option<Sess>, init: Init, ack: Ack, dk: Key, prevDk: Option<Key>,
                             priv: Key, rnd: nat, at: nat, now: nat)
    ensures !RetxDue(OnInit(c, k, us, prior, init, priv, rnd, at).0, now)
    ensures !RetxDue(OnAck(k, us, dk, prevDk, e, ack), now)
    ensures !e.established ==>
              (RetxDue(e, now) <==>
                 now >= e.lastInitSent + (match e.retx
                                          case 0 => 1_000 case 1 => 2_000 case 2 => 4_000 case 3 => 8_000 case 4 => 16_000
                                          case _ => 30_000))
    ensures e.retx < U32_MAX ==> Resent(e, now) == e.(lastInitSent := now, retx := e.retx + 1)
  {
    assert Pow2(2) == 4 && Pow2(3) == 8 && Pow2(4) == 16 && Pow2(5) == 32;
  }

  class SessionManager {
    const c: S.Crypto
    const k: Kem
    const us: Id
    var dk: Key
    var prevDk: Option<Key>
    var sessions: map<Id, Sess>

    constructor (c: S.Crypto, k: Kem, us: Id, dk: Key)
      ensures this.c == c && this.k == k && this.us == us && this.dk == dk
      ensures prevDk.None? && sessions == map[]
    {
      this.c, this.k, this.us, this.dk := c, k, us, dk;
      prevDk, sessions := None, map[];
    }

    function Get(peer: Id): Option<Sess>
      reads this
    {
      if peer in sessions then Some(sessions[peer]) else None
    }

    /** `decoded` is what the bytes decode to; `limited`, `signed` and `pinned` are the answers of the
        rate limiter and of the two signature checks, asked in that order. */
    method HandleInit(decoded: Option<Init>, limited: bool, signed: bool, pinned: bool, priv: Key, rnd: nat, now: nat)
      returns (r: Result<Ack, HandshakeError>)
      modifies this`sessions
      ensures r == (match decoded
                    case None => Err(Malformed)
                    case Some(init) =>
                      if limited then Err(RateLimited) else if !signed then Err(BadSignature)
                      else if !pinned then Err(PinMismatch)
                      else Ok(OnInit(c, k, us, old(Get(init.from)), init, priv, rnd, now).1))
      ensures r.Err? ==> sessions == old(sessions)
      ensures r.Ok? ==>
                var init := decoded.value;
                sessions == old(sessions)[init.from := OnInit(c, k, us, old(Get(init.from)), init, priv, rnd, now).0]
    {
      if decoded.None? {
        return Err(Malformed);
      }
      var init := decoded.value;
      if limited {
        return Err(RateLimited);
      }
      if !signed {
        return Err(BadSignature);
      }
      if !pinned {
        return Err(PinMismatch);
      }
      var (ct, secret) := k.encap(init.kemPub, rnd);
      if init.from in sessions {
        var e := sessions[init.from];
        var adopt := e.state.pq.None? || init.from < us;
        e := e.(state := e.state.(remote := init.x), established := true);
        if adopt {
          e := e.(state := e.state.(pq := Some(secret), fallback := None));
        }
        sessions := sessions[init.from := e];
        return Ok(Ack(us, c.pub(e.state.priv), ct));
      }
      var info := NewSess(c, priv, init.x, now);
      info := info.(established := true, state := info.state.(pq := Some(secret)));
      sessions := sessions[init.from := info];
      return Ok(Ack(us, c.pub(priv), ct));
    }

    method HandleAck(decoded: Option<Ack>, signed: bool, pinned: bool) returns (r: Result<(), HandshakeError>)
      modifies this`sessions
      ensures r == (match decoded
                    case None => Err(Malformed)
                    case Some(ack) =>
                      if !signed then Err(BadSignature) else if !pinned then Err(PinMismatch)
                      else if ack.from !in old(sessions) then Err(Unsolicited) else Ok(()))
      ensures r.Err? ==> sessions == old(sessions)
      ensures r.Ok? ==>
                var ack := decoded.value;
                sessions == old(sessions)[ack.from := OnAck(k, us, dk, prevDk, old(sessions)[ack.from], ack)]
    {
      if decoded.None? {
        return Err(Malformed);
      }
      var ack := decoded.value;
      if !signed {
        return Err(BadSignature);
      }
      if !pinned {
        return Err(PinMismatch);
      }
      var secret := k.decap(dk, ack.ct);
      var fallback := if prevDk.Some? then Some(k.decap(prevDk.value, ack.ct)) else None;
      if ack.from !in sessions {
        return Err(Unsolicited);
      }
      var e := sessions[ack.from];
      var adopt := e.state.pq.None? || us < ack.from;
      e := e.(state := e.state.(remote := ack.x), established := true);
      if adopt {
        e := e.(state := e.state.(pq := Some(secret), fallback := fallback));
      }
      sessions := sessions[ack.from := e];
      return Ok(());
    }

    /** Starts a session only if there is none; a pending or established one is left alone. */
    method GetOrInitiate(peer: Id, priv: Key, now: nat) returns (r: Option<Init>)
      modifies this`sessions
      ensures peer in old(sessions) ==> r.None? && sessions == old(sessions)
      ensures peer !in old(sessions) ==>
                && r == Some(Init(us, c.pub(priv), k.ek(dk)))
                && sessions == old(sessions)[peer := NewSess(c, priv, Zeros(32), now)]
    {
      if peer in sessions {
        return None;
      }
      sessions := sessions[peer := NewSess(c, priv, Zeros(32), now)];
      return Some(Init(us, c.pub(priv), k.ek(dk)));
    }

    /** Forgets the session with a peer, established or not, and no other. */
    method Remove(peer: Id)
      modifies this`sessions
      ensures sessions.Keys == old(sessions).Keys - {peer}
      ensures forall p | p in sessions :: sessions[p] == old(sessions)[p]
    {
      sessions := sessions - {peer};
    }

    /** Resends the Init of every pending session that is due, once each, with its own key. */
    method PendingHandshakeInits(now: nat) returns (out: map<Id, Init>)
      modifies this`sessions
      ensures sessions.Keys == old(sessions).Keys
      ensures out.Keys == set p | p in old(sessions) && RetxDue(old(sessions)[p], now)
      ensures forall p | p in old(sessions) ::
                sessions[p] == if p in out then Resent(old(sessions)[p], now) else old(sessions)[p]
      ensures forall p | p in out :: out[p] == Init(us, old(sessions)[p].state.pub, k.ek(dk)) && !old(sessions)[p].established
    {
      out := map[];
      var todo := sessions.Keys;
      while todo != {}
        invariant todo <= old(sessions).Keys == sessions.Keys
        invariant out.Keys == set p | p in old(sessions) && p !in todo && RetxDue(old(sessions)[p], now)
        invariant forall p | p in old(sessions) ::
                    sessions[p] == if p in out then Resent(old(sessions)[p], now) else old(sessions)[p]
        invariant forall p | p in out :: out[p] == Init(us, old(sessions)[p].state.pub, k.ek(dk))
        decreases todo
      {
        var p :| p in todo;
        todo := todo - {p};
        var e := sessions[p];
        if RetxDue(e, now) {
          sessions := sessions[p := Resent(e, now)];
          out := out[p := Init(us, e.state.pub, k.ek(dk))];
        }
      }
    }
  }
}
