/**
 Two peers that shake hands over an unreliable network. Each may initiate on its own, retransmit its
 Init, answer the other's and lose its session, so that exchanges cross and outlive sessions.
 */
module HandshakeNet {
  import opened Words
  import opened Handshake
  import S = Session
  import R = Ratchet

  datatype Side = Small | Large {
    function Other(): Side {
      if this == Small then Large else Small
    }
  }

  /** A peer; its current session begins after `answeredFrom` answers given and `tookFrom` Acks taken. */
  datatype Peer = Peer(id: Id, dk: Key, sess: Option<Sess>, answeredFrom: nat, tookFrom: nat)

  /** An Ack as it was sent, with the key and the secret it was made with. */
  datatype Answer = Answer(ack: Ack, ek: Key, secret: Key)

  /** Every Init and every Ack ever sent. Any of them may arrive late, out of order, repeatedly or
      never. `takenBy` lists which Acks a peer took, by their place in the order of sending. */
  datatype Net = Net(small: Peer, large: Peer,
                     initsToSmall: set<Init>, initsToLarge: set<Init>,
                     acksToSmall: seq<Answer>, acksToLarge: seq<Answer>,
                     takenBySmall: seq<nat>, takenByLarge: seq<nat>)
  {
    function At(s: Side): Peer {
      if s == Small then small else large
    }
    function InitsTo(s: Side): set<Init> {
      if s == Small then initsToSmall else initsToLarge
    }
    function AcksTo(s: Side): seq<Answer> {
      if s == Small then acksToSmall else acksToLarge
    }
    function TakenBy(s: Side): seq<nat> {
      if s == Small then takenBySmall else takenByLarge
    }
    function WithPeer(s: Side, p: Peer): Net {
      if s == Small then this.(small := p) else this.(large := p)
    }
    function SendInit(to: Side, m: Init): Net {
      if to == Small then this.(initsToSmall := initsToSmall + {m}) else this.(initsToLarge := initsToLarge + {m})
    }
    function SendAck(to: Side, a: Answer): Net {
      if to == Small then this.(acksToSmall := acksToSmall + [a]) else this.(acksToLarge := acksToLarge + [a])
    }
    function Took(s: Side, i: nat): Net {
      if s == Small then this.(takenBySmall := takenBySmall + [i]) else this.(takenByLarge := takenByLarge + [i])
    }
  }

  /** `DeliverAck(at, i)` delivers the i-th Ack sent to `at`. `Forget(at, dk)` removes the session of
      `at`, after idling, a disconnect or a restart; a restart also brings a new decapsulation key. */
  datatype Step =
    | Initiate(at: Side, priv: Key, now: nat)
    | Retransmit(at: Side)
    | DeliverInit(at: Side, init: Init, priv: Key, rnd: nat, now: nat)
    | DeliverAck(at: Side, i: nat)
    | Forget(at: Side, dk: Key)

  function InitOf(k: Kem, p: Peer): Init
    requires p.sess.Some?
  {
    Init(p.id, p.sess.value.state.pub, k.ek(p.dk))
  }

  /** One step of the system; a step that cannot happen changes nothing. */
  function Next(c: S.Crypto, k: Kem, n: Net, step: Step): Net {
    match step
    case Initiate(at, priv, now) =>
      var p := n.At(at);
      if p.sess.Some? then n
      else
        var p' := p.(sess := Some(NewSess(c, priv, Zeros(32), now)));
        n.WithPeer(at, p').SendInit(at.Other(), InitOf(k, p'))
    case Retransmit(at) =>
      var p := n.At(at);
      if p.sess.None? || p.sess.value.established then n
      else n.SendInit(at.Other(), InitOf(k, p))
    case DeliverInit(at, init, priv, rnd, now) =>
      if init !in n.InitsTo(at) then n
      else
        var p := n.At(at);
        var (e, ack) := OnInit(c, k, p.id, p.sess, init, priv, rnd, now);
        n.WithPeer(at, p.(sess := Some(e)))
         .SendAck(at.Other(), Answer(ack, init.kemPub, k.encap(init.kemPub, rnd).1))
    case DeliverAck(at, i) =>
      var p := n.At(at);
      if i >= |n.AcksTo(at)| || p.sess.None? then n
      else n.WithPeer(at, p.(sess := Some(OnAck(k, p.id, p.dk, None, p.sess.value, n.AcksTo(at)[i].ack)))).Took(at, i)
    case Forget(at, dk) =>
      var p := n.At(at);
      n.WithPeer(at, Peer(p.id, dk, None, |n.AcksTo(at.Other())|, |n.TakenBy(at)|))
  }

  function Run(c: S.Crypto, k: Kem, n: Net, steps: seq<Step>): Net {
    if steps == [] then n else Next(c, k, Run(c, k, n, steps[..|steps| - 1]), steps[|steps| - 1])
  }

  function Fresh(ids: (Id, Id), dks: (Key, Key)): Net {
    Net(Peer(ids.0, dks.0, None, 0, 0), Peer(ids.1, dks.1, None, 0, 0), {}, {}, [], [], [], [])
  }

  // ---------------------------------------------------------------- where a secret comes from

  /** The i-th Ack sent to `to`. */
  datatype Source = Source(to: Side, i: nat)

  /** In its current session the small peer goes by the last Ack it took, and before it took any by
      its own first answer. */
  function SmallSource(n: Net): Option<Source> {
    if n.small.tookFrom < |n.takenBySmall| then Some(Source(Small, n.takenBySmall[|n.takenBySmall| - 1]))
    else if n.small.answeredFrom < |n.acksToLarge| then Some(Source(Large, n.small.answeredFrom))
    else None
  }

  /** The large peer goes by its own last answer, and before it gave any by the first Ack it took. */
  function LargeSource(n: Net): Option<Source> {
    if n.large.answeredFrom < |n.acksToSmall| then Some(Source(Small, |n.acksToSmall| - 1))
    else if n.large.tookFrom < |n.takenByLarge| then Some(Source(Large, n.takenByLarge[n.large.tookFrom]))
    else None
  }

  function SourceOf(n: Net, at: Side): Option<Source> {
    if at == Small then SmallSource(n) else LargeSource(n)
  }

  predicate Sent(n: Net, src: Source) {
    src.i < |n.AcksTo(src.to)|
  }

  /** What a peer has from an Ack: if sent to it, what it decapsulates; if its own, the secret itself. */
  function SecretOf(k: Kem, n: Net, at: Side, src: Source): Key
    requires Sent(n, src)
  {
    var a := n.AcksTo(src.to)[src.i];
    if src.to == at then k.decap(n.At(at).dk, a.ack.ct) else a.secret
  }

  /** The Ack was made for the key its receiver has now. */
  predicate ForPresentKey(k: Kem, n: Net, src: Source)
    requires Sent(n, src)
  {
    n.AcksTo(src.to)[src.i].ek == k.ek(n.At(src.to).dk)
  }

  function Pq(p: Peer): Option<Key> {
    if p.sess.Some? then p.sess.value.state.pq else None
  }

  // ---------------------------------------------------------------- the invariant

  /** A session that no packet has passed yet, established exactly if it has a secret. */
  ghost predicate PeerOk(c: S.Crypto, p: Peer) {
    p.sess.Some? ==>
      var e := p.sess.value;
      && e.state == S.State(e.state.priv, c.pub(e.state.priv), e.state.remote, 0, S.Window(0, S.Empty()), e.state.pq, None, None)
      && (e.established <==> e.state.pq.Some?)
  }

  ghost predicate AnswerOk(k: Kem, n: Net, to: Side, a: Answer) {
    a.ack.from == n.At(to.Other()).id && exists r :: k.encap(a.ek, r) == (a.ack.ct, a.secret)
  }

  /** Every message carries its sender's identity, and every Ack the secret it was made with. */
  ghost predicate MessagesOk(k: Kem, n: Net, to: Side) {
    && (forall m | m in n.InitsTo(to) :: m.from == n.At(to.Other()).id)
    && (forall i | 0 <= i < |n.AcksTo(to)| :: AnswerOk(k, n, to, n.AcksTo(to)[i]))
  }

  ghost predicate Below(taken: seq<nat>, count: nat) {
    forall j | 0 <= j < |taken| :: taken[j] < count
  }

  ghost predicate LogsOk(n: Net) {
    && Below(n.takenBySmall, |n.acksToSmall|) && Below(n.takenByLarge, |n.acksToLarge|)
    && n.small.tookFrom <= |n.takenBySmall| && n.large.tookFrom <= |n.takenByLarge|
    && n.small.answeredFrom <= |n.acksToLarge| && n.large.answeredFrom <= |n.acksToSmall|
  }

  /** A peer holds the secret of its source, and none without one. */
  ghost predicate SecretOk(k: Kem, n: Net, at: Side) {
    match SourceOf(n, at)
    case None => Pq(n.At(at)) == None
    case Some(src) => Sent(n, src) && Pq(n.At(at)) == Some(SecretOf(k, n, at, src))
  }

  ghost predicate Inv(c: S.Crypto, k: Kem, n: Net) {
    && n.small.id < n.large.id
    && PeerOk(c, n.small) && PeerOk(c, n.large)
    && MessagesOk(k, n, Small) && MessagesOk(k, n, Large)
    && LogsOk(n)
    && SecretOk(k, n, Small) && SecretOk(k, n, Large)
  }

  lemma StepKeepsLogs(c: S.Crypto, k: Kem, n: Net, step: Step)
    requires LogsOk(n)
    ensures LogsOk(Next(c, k, n, step))
  {
    hide OnInit, OnAck, NewSess, Zeros, InitOf;
  }

  lemma StepKeepsPeers(c: S.Crypto, k: Kem, n: Net, step: Step)
    requires PeerOk(c, n.small) && PeerOk(c, n.large)
    ensures PeerOk(c, Next(c, k, n, step).small) && PeerOk(c, Next(c, k, n, step).large)
    ensures Next(c, k, n, step).small.id == n.small.id && Next(c, k, n, step).large.id == n.large.id
  {
    hide S.Empty, Zeros, InitOf;
  }

  lemma StepKeepsMessages(c: S.Crypto, k: Kem, n: Net, step: Step, to: Side)
    requires MessagesOk(k, n, to)
    ensures MessagesOk(k, Next(c, k, n, step), to)
  {
    hide OnAck, NewSess, Zeros, S.Empty;
    var n' := Next(c, k, n, step);
    forall i | 0 <= i < |n'.AcksTo(to)| ensures AnswerOk(k, n', to, n'.AcksTo(to)[i]) {
      if i < |n.AcksTo(to)| {
        assert AnswerOk(k, n, to, n.AcksTo(to)[i]);
      } else {
        assert k.encap(step.init.kemPub, step.rnd) == (n'.AcksTo(to)[i].ack.ct, n'.AcksTo(to)[i].secret);
      }
    }
  }

  lemma SentInitFrom(k: Kem, n: Net, to: Side, m: Init)
    requires MessagesOk(k, n, to) && m in n.InitsTo(to)
    ensures m.from == n.At(to.Other()).id
  {
  }

  lemma SentAckFrom(k: Kem, n: Net, to: Side, i: nat)
    requires MessagesOk(k, n, to) && i < |n.AcksTo(to)|
    ensures n.AcksTo(to)[i].ack.from == n.At(to.Other()).id
  {
    assert AnswerOk(k, n, to, n.AcksTo(to)[i]);
  }

  lemma InitKeepsSecret(c: S.Crypto, k: Kem, n: Net, step: Step, at: Side)
    requires Inv(c, k, n) && step.DeliverInit?
    ensures SecretOk(k, Next(c, k, n, step), at)
  {
    hide MessagesOk, PeerOk, S.Empty, Below;
    if step.init in n.InitsTo(step.at) {
      SentInitFrom(k, n, step.at, step.init);
    }
  }

  lemma AckKeepsSecret(c: S.Crypto, k: Kem, n: Net, step: Step, at: Side)
    requires Inv(c, k, n) && step.DeliverAck?
    ensures SecretOk(k, Next(c, k, n, step), at)
  {
    hide MessagesOk, PeerOk, S.Empty, Below;
    if step.i < |n.AcksTo(step.at)| {
      SentAckFrom(k, n, step.at, step.i);
    }
  }

  lemma SendKeepsSecret(c: S.Crypto, k: Kem, n: Net, step: Step, at: Side)
    requires Inv(c, k, n) && (step.Initiate? || step.Retransmit?)
    ensures SecretOk(k, Next(c, k, n, step), at)
  {
    hide MessagesOk, PeerOk, S.Empty, Below, Zeros, InitOf;
  }

  lemma ForgetKeepsSecret(c: S.Crypto, k: Kem, n: Net, step: Step, at: Side)
    requires Inv(c, k, n) && step.Forget?
    ensures SecretOk(k, Next(c, k, n, step), at)
  {
    hide MessagesOk, PeerOk, S.Empty, Below;
  }

  lemma StepKeepsSecret(c: S.Crypto, k: Kem, n: Net, step: Step, at: Side)
    requires Inv(c, k, n)
    ensures SecretOk(k, Next(c, k, n, step), at)
  {
    hide Inv, Next, SecretOk;
    match step
    case DeliverInit(_, _, _, _, _) => InitKeepsSecret(c, k, n, step, at);
    case DeliverAck(_, _) => AckKeepsSecret(c, k, n, step, at);
    case Forget(_, _) => ForgetKeepsSecret(c, k, n, step, at);
    case _ => SendKeepsSecret(c, k, n, step, at);
  }

  /** Every step, the loss of a session included, keeps who holds which secret. */
  lemma StepKeepsInv(c: S.Crypto, k: Kem, n: Net, step: Step)
    requires Inv(c, k, n)
    ensures Inv(c, k, Next(c, k, n, step))
  {
    hide MessagesOk, SecretOk, PeerOk, LogsOk, Next;
    StepKeepsMessages(c, k, n, step, Small);
    StepKeepsMessages(c, k, n, step, Large);
    StepKeepsLogs(c, k, n, step);
    StepKeepsPeers(c, k, n, step);
    StepKeepsSecret(c, k, n, step, Small);
    StepKeepsSecret(c, k, n, step, Large);
  }

  lemma FreshOk(c: S.Crypto, k: Kem, ids: (Id, Id), dks: (Key, Key))
    requires ids.0 < ids.1
    ensures Inv(c, k, Fresh(ids, dks))
  {
  }

  lemma {:induction false} RunKeepsInv(c: S.Crypto, k: Kem, n: Net, steps: seq<Step>)
    requires Inv(c, k, n)
    ensures Inv(c, k, Run(c, k, n, steps))
  {
    hide Inv, Next;
    if steps != [] {
      var j := |steps| - 1;
      RunKeepsInv(c, k, n, steps[..j]);
      StepKeepsInv(c, k, Run(c, k, n, steps[..j]), steps[j]);
    }
  }

  // ---------------------------------------------------------------- convergence

  /** Each side has the other's current key. */
  predicate HoldKeys(n: Net) {
    && n.small.sess.Some? && n.large.sess.Some?
    && var s, l := n.small.sess.value.state, n.large.sess.value.state;
       s.remote == l.pub && l.remote == s.pub
  }

  /** Both sides established, with the same secret and each other's current key. */
  ghost predicate Converged(n: Net) {
    && HoldKeys(n)
    && n.small.sess.value.established && n.large.sess.value.established
    && Pq(n.small).Some? && Pq(n.small) == Pq(n.large)
  }

  /** Both sides go by the same Ack, made for the key its receiver has now. */
  predicate SameSource(k: Kem, n: Net) {
    && SmallSource(n).Some? && SmallSource(n) == LargeSource(n)
    && var src := SmallSource(n).value; Sent(n, src) && ForPresentKey(k, n, src)
  }

  /** What the two sides have from Acks is the same only for one and the same Ack that its receiver
      can open: secrets are random, and a wrong key opens to something unrelated. */
  ghost predicate SecretsDiffer(k: Kem, n: Net) {
    forall a, b | Sent(n, a) && Sent(n, b) && SecretOf(k, n, Small, a) == SecretOf(k, n, Large, b) ::
      a == b && ForPresentKey(k, n, a)
  }

  lemma OpensForPresentKey(k: Kem, n: Net, src: Source)
    requires KemLawful(k) && MessagesOk(k, n, src.to) && Sent(n, src) && ForPresentKey(k, n, src)
    ensures SecretOf(k, n, Small, src) == SecretOf(k, n, Large, src)
  {
    var a, dk := n.AcksTo(src.to)[src.i], n.At(src.to).dk;
    assert AnswerOk(k, n, src.to, a);
    var r :| k.encap(a.ek, r) == (a.ack.ct, a.secret);
    assert k.decap(dk, k.encap(k.ek(dk), r).0) == k.encap(k.ek(dk), r).1;
  }

  /** Exactly when two peers have converged: at any time, however they initiate, retransmit, lose
      their sessions and start again, and whatever the network does to Inits and Acks. */
  lemma ConvergedIff(c: S.Crypto, k: Kem, ids: (Id, Id), dks: (Key, Key), steps: seq<Step>)
    requires KemLawful(k) && ids.0 < ids.1
    ensures var n := Run(c, k, Fresh(ids, dks), steps);
            && (HoldKeys(n) && SameSource(k, n) ==> Converged(n))
            && (SecretsDiffer(k, n) ==> (Converged(n) <==> HoldKeys(n) && SameSource(k, n)))
  {
    hide Run, Inv;
    FreshOk(c, k, ids, dks);
    RunKeepsInv(c, k, Fresh(ids, dks), steps);
    ConvergedInState(c, k, Run(c, k, Fresh(ids, dks), steps));
  }

  lemma ConvergedInState(c: S.Crypto, k: Kem, n: Net)
    requires KemLawful(k) && Inv(c, k, n)
    ensures HoldKeys(n) && SameSource(k, n) ==> Converged(n)
    ensures SecretsDiffer(k, n) ==> (Converged(n) <==> HoldKeys(n) && SameSource(k, n))
  {
    hide KemLawful, MessagesOk, LogsOk, SmallSource, LargeSource, SecretOf, ForPresentKey;
    if SameSource(k, n) {
      OpensForPresentKey(k, n, SmallSource(n).value);
    }
  }

  // ---------------------------------------------------------------- sessions that are kept

  predicate Keeps(steps: seq<Step>) {
    forall s | s in steps :: !s.Forget?
  }

  /** Without a loss every message carries its sender's one key, and is made for the receiver's. */
  ghost predicate KeysOk(k: Kem, n: Net, to: Side) {
    var p, q := n.At(to), n.At(to.Other());
    && p.answeredFrom == p.tookFrom == 0
    && (p.sess.Some? && p.sess.value.established ==> q.sess.Some? && p.sess.value.state.remote == q.sess.value.state.pub)
    && (forall m | m in n.InitsTo(to) :: q.sess.Some? && m == InitOf(k, q))
    && (forall i | 0 <= i < |n.AcksTo(to)| :: AckKeysOk(k, n, to, n.AcksTo(to)[i]))
  }

  ghost predicate AckKeysOk(k: Kem, n: Net, to: Side, a: Answer) {
    var p, q := n.At(to), n.At(to.Other());
    p.sess.Some? && q.sess.Some? && a.ack.x == q.sess.value.state.pub && a.ek == k.ek(p.dk)
  }

  /** A peer keeps its keys. */
  ghost predicate SameKeys(p: Peer, p': Peer) {
    && p'.id == p.id && p'.dk == p.dk
    && (p.sess.Some? ==> p'.sess.Some? && p'.sess.value.state.pub == p.sess.value.state.pub)
  }

  lemma StepKeepsPub(c: S.Crypto, k: Kem, n: Net, step: Step)
    requires PeerOk(c, n.small) && PeerOk(c, n.large) && !step.Forget?
    ensures SameKeys(n.small, Next(c, k, n, step).small) && SameKeys(n.large, Next(c, k, n, step).large)
  {
    hide S.Empty, Zeros, InitOf;
  }

  lemma InitKeys(k: Kem, n: Net, to: Side, m: Init)
    requires KeysOk(k, n, to) && m in n.InitsTo(to)
    ensures n.At(to.Other()).sess.Some? && m == InitOf(k, n.At(to.Other()))
  {
  }

  lemma AckKeys(k: Kem, n: Net, to: Side, i: nat)
    requires KeysOk(k, n, to) && i < |n.AcksTo(to)|
    ensures AckKeysOk(k, n, to, n.AcksTo(to)[i])
  {
  }

  lemma KeysKept(k: Kem, n: Net, n': Net, to: Side)
    requires KeysOk(k, n, to) && SameKeys(n.At(to), n'.At(to)) && SameKeys(n.At(to.Other()), n'.At(to.Other()))
    requires n'.At(to).answeredFrom == n'.At(to).tookFrom == 0
    requires forall m | m in n'.InitsTo(to) && m !in n.InitsTo(to) :: n'.At(to.Other()).sess.Some? && m == InitOf(k, n'.At(to.Other()))
    requires |n.AcksTo(to)| <= |n'.AcksTo(to)| && n'.AcksTo(to)[..|n.AcksTo(to)|] == n.AcksTo(to)
    requires forall i | |n.AcksTo(to)| <= i < |n'.AcksTo(to)| :: AckKeysOk(k, n', to, n'.AcksTo(to)[i])
    requires var p, q := n'.At(to), n'.At(to.Other());
             p.sess.Some? && p.sess.value.established ==> q.sess.Some? && p.sess.value.state.remote == q.sess.value.state.pub
    ensures KeysOk(k, n', to)
  {
    forall i | 0 <= i < |n'.AcksTo(to)| ensures AckKeysOk(k, n', to, n'.AcksTo(to)[i]) {
      if i < |n.AcksTo(to)| {
        assert n'.AcksTo(to)[i] == n.AcksTo(to)[i];
        assert AckKeysOk(k, n, to, n.AcksTo(to)[i]);
      }
    }
    forall m | m in n'.InitsTo(to) ensures n'.At(to.Other()).sess.Some? && m == InitOf(k, n'.At(to.Other())) {
      if m in n.InitsTo(to) {
        InitKeys(k, n, to, m);
      }
    }
  }

  lemma InitKeepsKeys(c: S.Crypto, k: Kem, n: Net, step: Step, to: Side)
    requires PeerOk(c, n.small) && PeerOk(c, n.large) && KeysOk(k, n, Small) && KeysOk(k, n, Large)
    requires step.DeliverInit?
    ensures KeysOk(k, Next(c, k, n, step), to)
  {
    hide KeysOk, SameKeys, PeerOk, S.Empty, Zeros;
    StepKeepsPub(c, k, n, step);
    KeysShape(k, n, to);
    if step.init in n.InitsTo(step.at) {
      InitKeys(k, n, step.at, step.init);
      if n.At(step.at).sess.Some? {
        PubIsOwn(c, n.At(step.at));
      }
    }
    KeysKept(k, n, Next(c, k, n, step), to);
  }

  lemma PubIsOwn(c: S.Crypto, p: Peer)
    requires PeerOk(c, p) && p.sess.Some?
    ensures p.sess.value.state.pub == c.pub(p.sess.value.state.priv)
  {
  }

  lemma AckKeepsKeys(c: S.Crypto, k: Kem, n: Net, step: Step, to: Side)
    requires PeerOk(c, n.small) && PeerOk(c, n.large) && KeysOk(k, n, Small) && KeysOk(k, n, Large)
    requires step.DeliverAck?
    ensures KeysOk(k, Next(c, k, n, step), to)
  {
    hide KeysOk, SameKeys, PeerOk, S.Empty;
    StepKeepsPub(c, k, n, step);
    KeysShape(k, n, to);
    if step.i < |n.AcksTo(step.at)| {
      AckKeys(k, n, step.at, step.i);
    }
    KeysKept(k, n, Next(c, k, n, step), to);
  }

  lemma SendKeepsKeys(c: S.Crypto, k: Kem, n: Net, step: Step, to: Side)
    requires PeerOk(c, n.small) && PeerOk(c, n.large) && KeysOk(k, n, Small) && KeysOk(k, n, Large)
    requires step.Initiate? || step.Retransmit?
    ensures KeysOk(k, Next(c, k, n, step), to)
  {
    hide KeysOk, SameKeys, PeerOk, AckKeysOk, S.Empty, Zeros;
    StepKeepsPub(c, k, n, step);
    KeysShape(k, n, to);
    KeysKept(k, n, Next(c, k, n, step), to);
  }

  lemma StepKeepsKeys(c: S.Crypto, k: Kem, n: Net, step: Step, to: Side)
    requires PeerOk(c, n.small) && PeerOk(c, n.large) && KeysOk(k, n, Small) && KeysOk(k, n, Large)
    requires !step.Forget?
    ensures KeysOk(k, Next(c, k, n, step), to)
  {
    hide KeysOk, PeerOk, Next;
    match step
    case DeliverInit(_, _, _, _, _) => InitKeepsKeys(c, k, n, step, to);
    case DeliverAck(_, _) => AckKeepsKeys(c, k, n, step, to);
    case _ => SendKeepsKeys(c, k, n, step, to);
  }

  lemma KeysShape(k: Kem, n: Net, to: Side)
    requires KeysOk(k, n, to)
    ensures var p, q := n.At(to), n.At(to.Other());
            && p.answeredFrom == p.tookFrom == 0
            && (p.sess.Some? && p.sess.value.established ==> q.sess.Some? && p.sess.value.state.remote == q.sess.value.state.pub)
  {
  }

  lemma {:induction false} RunKeepsKeys(c: S.Crypto, k: Kem, ids: (Id, Id), dks: (Key, Key), steps: seq<Step>)
    requires ids.0 < ids.1 && Keeps(steps)
    ensures var n := Run(c, k, Fresh(ids, dks), steps);
            Inv(c, k, n) && KeysOk(k, n, Small) && KeysOk(k, n, Large)
  {
    hide Next, KeysOk, MessagesOk, SecretOk, LogsOk, PeerOk;
    if steps == [] {
      FreshOk(c, k, ids, dks);
      FreshKeys(k, ids, dks);
    } else {
      var j := |steps| - 1;
      assert steps[j] in steps && forall s | s in steps[..j] :: s in steps;
      RunKeepsKeys(c, k, ids, dks, steps[..j]);
      var n := Run(c, k, Fresh(ids, dks), steps[..j]);
      StepKeepsInv(c, k, n, steps[j]);
      StepKeepsKeys(c, k, n, steps[j], Small);
      StepKeepsKeys(c, k, n, steps[j], Large);
    }
  }

  lemma FreshKeys(k: Kem, ids: (Id, Id), dks: (Key, Key))
    ensures KeysOk(k, Fresh(ids, dks), Small) && KeysOk(k, Fresh(ids, dks), Large)
  {
  }

  /** If the large peer answered an Init, the last Ack the small peer took is the last one sent to
      it; otherwise the first Ack the large peer took is the first one sent to it. */
  predicate RightAckTaken(n: Net) {
    if n.acksToSmall != [] then
      n.takenBySmall != [] && n.takenBySmall[|n.takenBySmall| - 1] == |n.acksToSmall| - 1
    else
      n.takenByLarge != [] && n.takenByLarge[0] == 0
  }

  lemma KeptSource(c: S.Crypto, k: Kem, n: Net)
    requires Inv(c, k, n) && KeysOk(k, n, Small) && KeysOk(k, n, Large)
    ensures RightAckTaken(n) <==> SameSource(k, n)
    ensures SmallSource(n).Some? && LargeSource(n).Some? ==> HoldKeys(n)
  {
    hide MessagesOk, S.Empty;
    if LogsOk(n) && LargeSource(n).Some? && Sent(n, LargeSource(n).value) {
      AckKeys(k, n, LargeSource(n).value.to, LargeSource(n).value.i);
    }
  }

  /** As long as sessions are kept: converged exactly when the right Ack was taken, with Inits and
      Acks lost, repeated and reordered at will. */
  lemma KeptConvergedIff(c: S.Crypto, k: Kem, ids: (Id, Id), dks: (Key, Key), steps: seq<Step>)
    requires KemLawful(k) && ids.0 < ids.1 && Keeps(steps)
    ensures var n := Run(c, k, Fresh(ids, dks), steps);
            && (RightAckTaken(n) ==> Converged(n))
            && (SecretsDiffer(k, n) ==> (Converged(n) <==> RightAckTaken(n)))
  {
    hide Run, Inv, KeysOk, RightAckTaken, SecretsDiffer, Converged;
    var n := Run(c, k, Fresh(ids, dks), steps);
    RunKeepsKeys(c, k, ids, dks, steps);
    KeptSource(c, k, n);
    ConvergedInState(c, k, n);
  }

  /** Every Ack sent was taken, once and in the order of sending. */
  predicate AllTakenInOrder(n: Net) {
    && n.takenBySmall == seq(|n.acksToSmall|, i => i)
    && n.takenByLarge == seq(|n.acksToLarge|, i => i)
  }

  /** In particular: over an orderly channel for Acks, once all of them have arrived and some Init
      was answered, both sides agree, however many Inits crossed, were repeated or got lost. */
  lemma CrossingInitsConverge(c: S.Crypto, k: Kem, ids: (Id, Id), dks: (Key, Key), steps: seq<Step>)
    requires KemLawful(k) && ids.0 < ids.1 && Keeps(steps)
    ensures var n := Run(c, k, Fresh(ids, dks), steps);
            AllTakenInOrder(n) && (n.acksToSmall != [] || n.acksToLarge != []) ==> Converged(n)
  {
    hide Run, Converged;
    KeptConvergedIff(c, k, ids, dks, steps);
  }

  /** Converged peers derive the same packet key, and each decrypts what the other encrypts. */
  lemma ConvergedPeersTalk(c: S.Crypto, k: Kem, ids: (Id, Id), dks: (Key, Key), steps: seq<Step>, m: Bytes)
    requires S.Lawful(c) && ids.0 < ids.1 && Converged(Run(c, k, Fresh(ids, dks), steps))
    ensures var n := Run(c, k, Fresh(ids, dks), steps);
            var s, l := n.small.sess.value.state, n.large.sess.value.state;
            && c.derive(c.dh(s.priv, s.remote), s.pq) == c.derive(c.dh(l.priv, l.remote), l.pq)
            && S.Decrypt(c, l, S.Encrypt(c, s, m).0).0 == Ok(m)
            && S.Decrypt(c, s, S.Encrypt(c, l, m).0).0 == Ok(m)
  {
    hide Run, S.Decrypt, S.Encrypt, MessagesOk, SecretOk, LogsOk;
    var n := Run(c, k, Fresh(ids, dks), steps);
    FreshOk(c, k, ids, dks);
    RunKeepsInv(c, k, Fresh(ids, dks), steps);
    OneWay(c, n.small.sess.value.state, n.large.sess.value.state, m);
    OneWay(c, n.large.sess.value.state, n.small.sess.value.state, m);
  }

  /** From then on everything they say to each other is heard, in any order of turns and with any
      number of key rotations. */
  lemma ConvergedPeersConverse(c: S.Crypto, k: Kem, ids: (Id, Id), dks: (Key, Key), steps: seq<Step>, turns: seq<R.Turn>)
    requires S.Lawful(c) && ids.0 < ids.1 && Converged(Run(c, k, Fresh(ids, dks), steps)) && |turns| <= U64_MAX
    ensures var n := Run(c, k, Fresh(ids, dks), steps);
            var heard := R.Talk(c, n.small.sess.value.state, n.large.sess.value.state, turns).2;
            forall i | 0 <= i < |turns| :: heard[i] == Ok(turns[i].plain)
  {
    hide Run, MessagesOk, SecretOk, LogsOk, R.Talk;
    var n := Run(c, k, Fresh(ids, dks), steps);
    FreshOk(c, k, ids, dks);
    RunKeepsInv(c, k, Fresh(ids, dks), steps);
    R.ConversationDelivers(c, n.small.sess.value.state, n.large.sess.value.state, turns);
  }

  lemma OneWay(c: S.Crypto, a: S.State, b: S.State, m: Bytes)
    requires S.Lawful(c) && S.CacheSound(c, a) && S.CacheSound(c, b)
    requires a.remote == b.pub && a.pq == b.pq && b.window == S.Window(0, S.Empty()) && a.localSeq == 0
    ensures S.Decrypt(c, b, S.Encrypt(c, a, m).0).0 == Ok(m)
  {
    var ops, e := [S.Send(m)], S.Sent(S.Encrypt(c, a, m).0, m, 0, a.remote, a.pq);
    assert ops[..0] == [];
    assert S.Emitted(c, a, ops) == [e];
    S.RatchetDelivers(c, a, ops, b, [], e);
    S.EmptyRun(c, b);
  }

  // ---------------------------------------------------------------- a session is lost

  /** Steps that only set up the session of `at` anew: it retransmits its Init, the other side
      answers that Init, and it takes the answers in the order they were given. */
  ghost predicate Rebuilds(c: S.Crypto, k: Kem, n: Net, at: Side, base: nat, steps: seq<Step>)
    decreases |steps|
  {
    steps == [] ||
    var j := |steps| - 1;
    var before := Run(c, k, n, steps[..j]);
    && Rebuilds(c, k, n, at, base, steps[..j])
    && match steps[j]
       case Retransmit(a) => a == at
       case DeliverInit(a, init, _, _, _) => a == at.Other() && before.At(at).sess.Some? && init == InitOf(k, before.At(at))
       case DeliverAck(a, i) => a == at && before.At(at).tookFrom <= |before.TakenBy(at)| && i == base + |before.TakenBy(at)| - before.At(at).tookFrom
       case _ => false
  }

  /** What holds while the session of `at` is set up anew, after both sides had converged in `n0`. */
  ghost predicate Rebuilding(k: Kem, n0: Net, n: Net, at: Side) {
    var p, q, base := n.At(at), n.At(at.Other()), |n0.AcksTo(at)|;
    && p.sess.Some? && q.sess.Some? && n0.At(at.Other()).sess.Some?
    && p.tookFrom == |n0.TakenBy(at)| <= |n.TakenBy(at)|
    && p.answeredFrom == |n.AcksTo(at.Other())|
    && n.AcksTo(at.Other()) == n0.AcksTo(at.Other()) && n.TakenBy(at.Other()) == n0.TakenBy(at.Other())
    && base <= |n.AcksTo(at)|
    && q.tookFrom == n0.At(at.Other()).tookFrom && q.answeredFrom == n0.At(at.Other()).answeredFrom
    && (forall i | p.tookFrom <= i < |n.TakenBy(at)| :: n.TakenBy(at)[i] == base + i - p.tookFrom)
    && (forall i | base <= i < |n.AcksTo(at)| :: AckKeysOk(k, n, at, n.AcksTo(at)[i]))
    && (|n.AcksTo(at)| > base ==> q.sess.value.state.remote == p.sess.value.state.pub)
    && (|n.TakenBy(at)| > p.tookFrom ==> p.sess.value.state.remote == q.sess.value.state.pub)
  }

  lemma RebuildStarts(c: S.Crypto, k: Kem, n0: Net, at: Side, dk: Key, priv: Key, now: nat)
    requires Inv(c, k, n0) && Converged(n0)
    ensures Rebuilding(k, n0, Next(c, k, Next(c, k, n0, Forget(at, dk)), Initiate(at, priv, now)), at)
  {
    hide MessagesOk, SecretOk, Zeros, S.Empty;
  }

  lemma RebuildStep(c: S.Crypto, k: Kem, n0: Net, n: Net, at: Side, step: Step)
    requires Inv(c, k, n) && Rebuilding(k, n0, n, at)
    requires match step
             case Retransmit(a) => a == at
             case DeliverInit(a, init, _, _, _) => a == at.Other() && init == InitOf(k, n.At(at))
             case DeliverAck(a, i) => a == at && i == |n0.AcksTo(at)| + |n.TakenBy(at)| - n.At(at).tookFrom
             case _ => false
    ensures Rebuilding(k, n0, Next(c, k, n, step), at)
  {
    hide MessagesOk, SecretOk, LogsOk, S.Empty;
    if step.DeliverAck? && step.i < |n.AcksTo(at)| {
      assert AckKeysOk(k, n, at, n.AcksTo(at)[step.i]);
    }
  }

  lemma {:induction false} RebuildRun(c: S.Crypto, k: Kem, n0: Net, n1: Net, at: Side, steps: seq<Step>)
    requires Inv(c, k, n1) && Rebuilding(k, n0, n1, at) && Rebuilds(c, k, n1, at, |n0.AcksTo(at)|, steps)
    ensures Inv(c, k, Run(c, k, n1, steps)) && Rebuilding(k, n0, Run(c, k, n1, steps), at)
    decreases |steps|
  {
    hide Inv, Next, Rebuilding;
    if steps != [] {
      var j := |steps| - 1;
      RebuildRun(c, k, n0, n1, at, steps[..j]);
      var n := Run(c, k, n1, steps[..j]);
      StepKeepsInv(c, k, n, steps[j]);
      RebuildShape(k, n0, n, at);
      RebuildStep(c, k, n0, n, at, steps[j]);
    }
  }

  lemma RebuildShape(k: Kem, n0: Net, n: Net, at: Side)
    requires Rebuilding(k, n0, n, at)
    ensures n.At(at).sess.Some? && n.At(at).tookFrom == |n0.TakenBy(at)| <= |n.TakenBy(at)|
  {
  }

  /** All answers to the new Init were taken, and there was one. */
  predicate Rebuilt(n0: Net, n: Net, at: Side) {
    && n.At(at).tookFrom < |n.TakenBy(at)|
    && |n.AcksTo(at)| - |n0.AcksTo(at)| == |n.TakenBy(at)| - n.At(at).tookFrom
  }

  lemma RebuiltSmall(c: S.Crypto, k: Kem, n0: Net, n: Net)
    requires Inv(c, k, n0) && Inv(c, k, n) && Rebuilding(k, n0, n, Small) && Rebuilt(n0, n, Small)
    ensures HoldKeys(n) && SameSource(k, n)
  {
    hide MessagesOk, PeerOk, SecretOk, Below;
    var last := |n.acksToSmall| - 1;
    assert AckKeysOk(k, n, Small, n.AcksTo(Small)[last]);
    assert n.TakenBy(Small)[|n.takenBySmall| - 1] == last;
  }

  lemma RebuiltLarge(c: S.Crypto, k: Kem, n0: Net, n: Net)
    requires Inv(c, k, n0) && Converged(n0) && Inv(c, k, n) && Rebuilding(k, n0, n, Large) && Rebuilt(n0, n, Large)
    ensures SmallSource(n) != LargeSource(n)
  {
    hide MessagesOk, PeerOk;
    assert n.TakenBy(Large)[n.large.tookFrom] == |n0.acksToLarge|;
    assert SmallSource(n0).Some?;
  }

  /** From convergence, one side loses its session and sets it up anew with its own Init, repeated as
      it may be, all answers arriving in order: they converge again exactly when it was the small
      peer. The large peer takes the new secret, the small peer keeps the old one. */
  lemma LossRepairedIff(c: S.Crypto, k: Kem, ids: (Id, Id), dks: (Key, Key), past: seq<Step>,
                        at: Side, dk: Key, priv: Key, now: nat, steps: seq<Step>)
    requires KemLawful(k) && ids.0 < ids.1 && Converged(Run(c, k, Fresh(ids, dks), past))
    requires var n0 := Run(c, k, Fresh(ids, dks), past);
             var n1 := Next(c, k, Next(c, k, n0, Forget(at, dk)), Initiate(at, priv, now));
             && Rebuilds(c, k, n1, at, |n0.AcksTo(at)|, steps) && Rebuilt(n0, Run(c, k, n1, steps), at)
             && SecretsDiffer(k, Run(c, k, n1, steps))
    ensures var n0 := Run(c, k, Fresh(ids, dks), past);
            var n1 := Next(c, k, Next(c, k, n0, Forget(at, dk)), Initiate(at, priv, now));
            Converged(Run(c, k, n1, steps)) <==> at == Small
  {
    hide Run, Next, Inv, Rebuilding, Rebuilds, Rebuilt, Converged, SecretsDiffer, SmallSource, LargeSource, HoldKeys;
    var n0 := Run(c, k, Fresh(ids, dks), past);
    var n1 := Next(c, k, Next(c, k, n0, Forget(at, dk)), Initiate(at, priv, now));
    var n := Run(c, k, n1, steps);
    FreshOk(c, k, ids, dks);
    RunKeepsInv(c, k, Fresh(ids, dks), past);
    StepKeepsInv(c, k, n0, Forget(at, dk));
    StepKeepsInv(c, k, Next(c, k, n0, Forget(at, dk)), Initiate(at, priv, now));
    RebuildStarts(c, k, n0, at, dk, priv, now);
    RebuildRun(c, k, n0, n1, at, steps);
    ConvergedInState(c, k, n);
    if at == Small {
      RebuiltSmall(c, k, n0, n);
    } else {
      RebuiltLarge(c, k, n0, n);
    }
  }

  // ---------------------------------------------------------------- runs that settle apart

  lemma RunExtends(c: S.Crypto, k: Kem, n: Net, steps: seq<Step>, step: Step)
    ensures Run(c, k, n, steps + [step]) == Next(c, k, Run(c, k, n, steps), step)
  {
    assert (steps + [step])[..|steps|] == steps;
  }

  /** Both peers established with different secrets: neither sends an Init any more. */
  ghost predicate SettledApart(n: Net) {
    && n.small.sess.Some? && n.small.sess.value.established
    && n.large.sess.Some? && n.large.sess.value.established
    && Pq(n.small) != Pq(n.large)
  }

  /** One Init answered twice, with different secrets. */
  function TwoAnswers(c: S.Crypto, k: Kem, ids: (Id, Id), dks: (Key, Key), privs: (Key, Key), rnds: (nat, nat)): seq<Step> {
    var init := Init(ids.0, c.pub(privs.0), k.ek(dks.0));
    [Initiate(Small, privs.0, 0)] + [DeliverInit(Large, init, privs.1, rnds.0, 0)] + [DeliverInit(Large, init, privs.1, rnds.1, 0)]
  }

  lemma TwoAnswersState(c: S.Crypto, k: Kem, ids: (Id, Id), dks: (Key, Key), privs: (Key, Key), rnds: (nat, nat))
    requires ids.0 < ids.1
    ensures var n := Run(c, k, Fresh(ids, dks), TwoAnswers(c, k, ids, dks, privs, rnds));
            && |n.acksToSmall| == 2
            && n.acksToSmall[0].ack == Ack(ids.1, c.pub(privs.1), k.encap(k.ek(dks.0), rnds.0).0)
            && n.acksToSmall[1].ack == Ack(ids.1, c.pub(privs.1), k.encap(k.ek(dks.0), rnds.1).0)
            && n.small.id == ids.0 && n.small.dk == dks.0 && n.small.sess.Some?
            && n.large.sess.Some? && n.large.sess.value.established
            && Pq(n.large) == Some(k.encap(k.ek(dks.0), rnds.1).1)
  {
    var n0, steps := Fresh(ids, dks), TwoAnswers(c, k, ids, dks, privs, rnds);
    assert steps[..1] == [] + [steps[0]] && steps[..2] == steps[..1] + [steps[1]] && steps == steps[..2] + [steps[2]];
    RunExtends(c, k, n0, [], steps[0]);
    RunExtends(c, k, n0, steps[..1], steps[1]);
    RunExtends(c, k, n0, steps[..2], steps[2]);
  }

  /** The later of two Acks overtakes the earlier one: the peers settle on different secrets. */
  lemma ReorderedAcksDiverge(c: S.Crypto, k: Kem, ids: (Id, Id), dks: (Key, Key), privs: (Key, Key), rnds: (nat, nat))
    requires KemLawful(k) && ids.0 < ids.1
    requires k.encap(k.ek(dks.0), rnds.0).1 != k.encap(k.ek(dks.0), rnds.1).1
    ensures SettledApart(Run(c, k, Fresh(ids, dks),
                             TwoAnswers(c, k, ids, dks, privs, rnds) + [DeliverAck(Small, 1)] + [DeliverAck(Small, 0)]))
  {
    hide TwoAnswers, Fresh, Run;
    var n0, steps := Fresh(ids, dks), TwoAnswers(c, k, ids, dks, privs, rnds);
    TwoAnswersState(c, k, ids, dks, privs, rnds);
    RunExtends(c, k, n0, steps, DeliverAck(Small, 1));
    RunExtends(c, k, n0, steps + [DeliverAck(Small, 1)], DeliverAck(Small, 0));
  }

  /** The second of two Acks is lost: they do so as well. */
  lemma LostAckDiverges(c: S.Crypto, k: Kem, ids: (Id, Id), dks: (Key, Key), privs: (Key, Key), rnds: (nat, nat))
    requires KemLawful(k) && ids.0 < ids.1
    requires k.encap(k.ek(dks.0), rnds.0).1 != k.encap(k.ek(dks.0), rnds.1).1
    ensures SettledApart(Run(c, k, Fresh(ids, dks), TwoAnswers(c, k, ids, dks, privs, rnds) + [DeliverAck(Small, 0)]))
  {
    hide TwoAnswers, Fresh, Run;
    var n0, steps := Fresh(ids, dks), TwoAnswers(c, k, ids, dks, privs, rnds);
    TwoAnswersState(c, k, ids, dks, privs, rnds);
    RunExtends(c, k, n0, steps, DeliverAck(Small, 0));
  }

  /** One Init of the large peer, answered and taken. */
  function OneExchange(c: S.Crypto, k: Kem, ids: (Id, Id), dks: (Key, Key), privs: (Key, Key), rnd: nat): seq<Step> {
    [Initiate(Large, privs.1, 0)] + [DeliverInit(Small, Init(ids.1, c.pub(privs.1), k.ek(dks.1)), privs.0, rnd, 0)] + [DeliverAck(Large, 0)]
  }

  lemma OneExchangeState(c: S.Crypto, k: Kem, ids: (Id, Id), dks: (Key, Key), privs: (Key, Key), rnd: nat)
    requires KemLawful(k) && ids.0 < ids.1
    ensures var n := Run(c, k, Fresh(ids, dks), OneExchange(c, k, ids, dks, privs, rnd));
            && Converged(n) && Pq(n.small) == Some(k.encap(k.ek(dks.1), rnd).1)
            && n.small.id == ids.0 && n.large.id == ids.1 && |n.acksToLarge| == 1
            && n.acksToSmall == [] && n.takenBySmall == [] && n.takenByLarge == [0]
  {
    var n0, steps := Fresh(ids, dks), OneExchange(c, k, ids, dks, privs, rnd);
    assert steps[..1] == [] + [steps[0]] && steps[..2] == steps[..1] + [steps[1]] && steps == steps[..2] + [steps[2]];
    RunExtends(c, k, n0, [], steps[0]);
    RunExtends(c, k, n0, steps[..1], steps[1]);
    RunExtends(c, k, n0, steps[..2], steps[2]);
    assert k.decap(dks.1, k.encap(k.ek(dks.1), rnd).0) == k.encap(k.ek(dks.1), rnd).1;
  }

  /** The large peer loses its session, with or without its decapsulation key, and initiates again;
      the Acks all arrive in order, and yet the peers settle on different secrets. */
  lemma LargeLossDiverges(c: S.Crypto, k: Kem, ids: (Id, Id), dks: (Key, Key), privs: (Key, Key), rnd: nat, dk: Key, priv: Key, rnd': nat)
    requires KemLawful(k) && ids.0 < ids.1 && k.encap(k.ek(dks.1), rnd).1 != k.encap(k.ek(dk), rnd').1
    ensures var n := Run(c, k, Fresh(ids, dks),
                         OneExchange(c, k, ids, dks, privs, rnd) + [Forget(Large, dk)] + [Initiate(Large, priv, 0)]
                         + [DeliverInit(Small, Init(ids.1, c.pub(priv), k.ek(dk)), privs.0, rnd', 0)] + [DeliverAck(Large, 1)]);
            SettledApart(n) && AllTakenInOrder(n)
  {
    hide OneExchange, Fresh, Run;
    var n0, s0 := Fresh(ids, dks), OneExchange(c, k, ids, dks, privs, rnd);
    OneExchangeState(c, k, ids, dks, privs, rnd);
    var s1 := s0 + [Forget(Large, dk)];
    var s2 := s1 + [Initiate(Large, priv, 0)];
    var s3 := s2 + [DeliverInit(Small, Init(ids.1, c.pub(priv), k.ek(dk)), privs.0, rnd', 0)];
    RunExtends(c, k, n0, s0, s1[|s0|]);
    RunExtends(c, k, n0, s1, s2[|s1|]);
    RunExtends(c, k, n0, s2, s3[|s2|]);
    RunExtends(c, k, n0, s3, DeliverAck(Large, 1));
    assert k.decap(dk, k.encap(k.ek(dk), rnd').0) == k.encap(k.ek(dk), rnd').1;
    var n := Run(c, k, n0, s3 + [DeliverAck(Large, 1)]);
    assert n.takenByLarge == [0, 1] && |n.acksToLarge| == 2;
  }
}
