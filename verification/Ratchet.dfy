/**
 What the packets of a session say about one another: how they are numbered, which key they are
 sent under, and that each side follows the other's key from packet to packet.
 */
module Ratchet {
  import opened Words
  import opened Session

  // ---------------------------------------------------------------- numbers

  /** Receiving never touches the counter of the packets we send. */
  lemma ReceiveKeepsNumber(c: Crypto, s: State, p: Bytes)
    ensures Decrypt(c, s, p).1.localSeq == s.localSeq
  {
    hide Window.Refuses, Window.Accept, Claims;
  }

  lemma NextNumber(s: nat, k: nat)
    ensures ((s + k) % U64_MODULUS + 1) % U64_MODULUS == (s + k + 1) % U64_MODULUS
  {
  }

  /** After a run the counter has moved by the number of packets sent. */
  lemma {:induction false} RunCounts(c: Crypto, s: State, ops: seq<Op>)
    ensures Run(c, s, ops).localSeq == (s.localSeq + |Emitted(c, s, ops)|) % U64_MODULUS
  {
    hide Decrypt, DhShared, Packet;
    if ops != [] {
      var before, op := ops[..|ops| - 1], ops[|ops| - 1];
      RunCounts(c, s, before);
      if op.Receive? {
        ReceiveKeepsNumber(c, Run(c, s, before), op.packet);
      }
      NextNumber(s.localSeq, |Emitted(c, s, before)|);
    }
  }

  /** The packets of a run are numbered one by one, and each carries its number. */
  lemma {:induction false} PacketsNumbered(c: Crypto, s: State, ops: seq<Op>, i: nat)
    requires i < |Emitted(c, s, ops)|
    ensures var e := Emitted(c, s, ops)[i];
            && e.n == (s.localSeq + i) % U64_MODULUS
            && |e.packet| >= 40 && FromLe(e.packet[32..40]) == e.n
  {
    hide Run, DhShared, Packet;
    var before, op := ops[..|ops| - 1], ops[|ops| - 1];
    if i < |Emitted(c, s, before)| {
      PacketsNumbered(c, s, before, i);
    } else {
      RunCounts(c, s, before);
      var s1 := Run(c, s, before);
      ClaimsOfPacket(s1.pub, s1.localSeq, c.seal(c.derive(DhShared(c, s1, s1.remote).0, s1.pq), s1.localSeq, s1.pub, op.plain));
    }
  }

  lemma ResiduesDiffer(a: nat, b: nat)
    requires a < b < a + U64_MODULUS
    ensures a % U64_MODULUS != b % U64_MODULUS
  {
  }

  /** No two packets fewer than 2^64 sends apart have the same number, whatever happens between. */
  lemma NumbersDiffer(c: Crypto, s: State, ops: seq<Op>, i: nat, j: nat)
    requires i < j < |Emitted(c, s, ops)| && j - i < U64_MODULUS
    ensures Emitted(c, s, ops)[i].n != Emitted(c, s, ops)[j].n
  {
    hide Emitted;
    PacketsNumbered(c, s, ops, i);
    PacketsNumbered(c, s, ops, j);
    ResiduesDiffer(s.localSeq + i, s.localSeq + j);
  }

  // ---------------------------------------------------------------- keys

  /** The last key rotated to. */
  function LatestKey(priv: Key, ops: seq<Op>): Key {
    if ops == [] then priv
    else
      var op := ops[|ops| - 1];
      if op.Rekey? then op.priv else LatestKey(priv, ops[..|ops| - 1])
  }

  lemma {:induction false} RunKeepsLatestKey(c: Crypto, s: State, ops: seq<Op>)
    requires Lawful(c) && CacheSound(c, s)
    ensures Run(c, s, ops).priv == LatestKey(s.priv, ops)
  {
    hide Decrypt, CacheSound, Lawful;
    if ops != [] {
      var before, op := ops[..|ops| - 1], ops[|ops| - 1];
      RunKeepsLatestKey(c, s, before);
      if op.Receive? {
        RunKeepsCache(c, s, before);
        DecryptKeeps(c, Run(c, s, before), op.packet);
      }
    }
  }

  /** Every packet is sent, and authenticated, under the latest key rotated to. */
  lemma SentUnderLatestKey(c: Crypto, s: State, ops: seq<Op>, m: Bytes)
    requires Lawful(c) && CacheSound(c, s)
    ensures Encrypt(c, Run(c, s, ops), m).0[..32] == c.pub(LatestKey(s.priv, ops))
  {
    hide Run, LatestKey, Lawful, DhShared;
    RunKeepsLatestKey(c, s, ops);
    RunKeepsCache(c, s, ops);
  }

  /** An accepted packet makes its sender's key ours to answer to; a refused one leaves the key. */
  lemma FollowsSender(c: Crypto, s: State, p: Bytes)
    ensures var (r, s') := Decrypt(c, s, p);
            if r.Ok? then |p| >= 32 && s'.remote == p[..32] else s'.remote == s.remote
  {
    hide Window.Refuses, Window.Accept;
  }

  // ---------------------------------------------------------------- delivery in order

  /** A packet that opens, with a number the window lets through, is taken: the keys stay, the window
      moves and the sender's key is followed. */
  lemma TakeNext(c: Crypto, r: State, e: Sent)
    requires Lawful(c) && CacheSound(c, r) && OpensTo(c, r.priv, e) && e.pq == r.pq && r.window.Refuses(e.n) == None
    ensures var (result, r') := Decrypt(c, r, e.packet);
            && result == Ok(e.plain)
            && CacheSound(c, r') && r'.priv == r.priv && r'.pub == r.pub && r'.pq == r.pq && r'.localSeq == r.localSeq
            && r'.window == r.window.Accept(e.n) && r'.remote == e.packet[..32]
  {
    hide Window.Refuses, Window.Accept;
    DhSharedIsFresh(c, r, Claims(e.packet).0);
  }

  /** All packets are handed over in the order they were sent. */
  function Deliveries(es: seq<Sent>): (ops: seq<Op>)
    ensures |ops| == |es| && forall i | 0 <= i < |es| :: ops[i] == Receive(es[i].packet)
  {
    seq(|es|, i requires 0 <= i < |es| => Receive(es[i].packet))
  }

  /** The packets are for the key and the secret that the receiver has. */
  ghost predicate AddressedTo(es: seq<Sent>, r: State) {
    forall e | e in es :: e.remote == r.pub && e.pq == r.pq
  }

  ghost predicate TakenUpTo(r0: State, r: State, start: nat, i: nat) {
    && r.priv == r0.priv && r.pub == r0.pub && r.pq == r0.pq
    && (if i == 0 then r.window == Window(0, Empty()) else r.window.high == start + i - 1)
  }

  lemma {:induction false} TakenInOrder(c: Crypto, sender: State, sops: seq<Op>, receiver: State, i: nat)
    requires Lawful(c) && CacheSound(c, sender) && CacheSound(c, receiver) && receiver.window == Window(0, Empty())
    requires AddressedTo(Emitted(c, sender, sops), receiver)
    requires i <= |Emitted(c, sender, sops)| && sender.localSeq + i <= U64_MODULUS
    ensures var r := Run(c, receiver, Deliveries(Emitted(c, sender, sops))[..i]);
            TakenUpTo(receiver, r, sender.localSeq, i) && CacheSound(c, r)
  {
    hide Emitted, OpensTo, Decrypt, CacheSound, Lawful, Deliveries;
    var es := Emitted(c, sender, sops);
    var ops := Deliveries(es);
    if i > 0 {
      var k := i - 1;
      TakenInOrder(c, sender, sops, receiver, k);
      assert ops[..i][..k] == ops[..k] && ops[..i][k] == ops[k];
      var r := Run(c, receiver, ops[..k]);
      NextTaken(c, sender, sops, receiver, r, k);
    }
  }

  lemma NextTaken(c: Crypto, sender: State, sops: seq<Op>, receiver: State, r: State, k: nat)
    requires Lawful(c) && CacheSound(c, sender) && AddressedTo(Emitted(c, sender, sops), receiver)
    requires k < |Emitted(c, sender, sops)| && sender.localSeq + k < U64_MODULUS
    requires TakenUpTo(receiver, r, sender.localSeq, k) && CacheSound(c, r)
    ensures var e := Emitted(c, sender, sops)[k];
            var (result, r') := Decrypt(c, r, e.packet);
            && result == Ok(e.plain)
            && TakenUpTo(receiver, r', sender.localSeq, k + 1) && CacheSound(c, r')
  {
    hide Emitted, OpensTo, Decrypt, Lawful;
    var e := Emitted(c, sender, sops)[k];
    assert e in Emitted(c, sender, sops);
    EmittedOpen(c, sender, sops, e, r.priv);
    PacketsNumbered(c, sender, sops, k);
    TakeNext(c, r, e);
  }

  /** All that a session sends, handed over in order to a fresh receiver that has the key and the
      secret it is for, decrypts in full: exactly as long as the counter does not wrap around. */
  lemma InOrderDeliversIff(c: Crypto, sender: State, sops: seq<Op>, receiver: State)
    requires Lawful(c) && CacheSound(c, sender) && CacheSound(c, receiver) && receiver.window == Window(0, Empty())
    requires AddressedTo(Emitted(c, sender, sops), receiver)
    ensures var es := Emitted(c, sender, sops);
            (forall i | 0 <= i < |es| ::
               Decrypt(c, Run(c, receiver, Deliveries(es)[..i]), es[i].packet).0 == Ok(es[i].plain))
            <==> sender.localSeq + |es| <= U64_MODULUS
  {
    hide Emitted, Decrypt, Run, CacheSound, Lawful, Deliveries, AddressedTo;
    var es := Emitted(c, sender, sops);
    if sender.localSeq + |es| <= U64_MODULUS {
      forall i | 0 <= i < |es|
        ensures Decrypt(c, Run(c, receiver, Deliveries(es)[..i]), es[i].packet).0 == Ok(es[i].plain)
      {
        TakenInOrder(c, sender, sops, receiver, i);
        NextTaken(c, sender, sops, receiver, Run(c, receiver, Deliveries(es)[..i]), i);
      }
    } else {
      var i := U64_MODULUS - sender.localSeq;
      TakenInOrder(c, sender, sops, receiver, i);
      WrappedRefused(c, sender, sops, Run(c, receiver, Deliveries(es)[..i]), i);
    }
  }

  /** The first number after the wrap is far behind. */
  lemma WrappedRefused(c: Crypto, sender: State, sops: seq<Op>, r: State, i: nat)
    requires i < |Emitted(c, sender, sops)| && sender.localSeq + i == U64_MODULUS
    requires r.window.high == U64_MAX
    ensures Decrypt(c, r, Emitted(c, sender, sops)[i].packet).0.Err?
  {
    hide Emitted;
    PacketsNumbered(c, sender, sops, i);
  }

  // ---------------------------------------------------------------- both ways

  /** What a session encrypts opens for the holder of the key it answers to. */
  lemma ReplyOpens(c: Crypto, a: State, b: State, m: Bytes)
    requires Lawful(c) && CacheSound(c, a) && CacheSound(c, b) && b.remote == a.pub && b.pq == a.pq
    ensures var (q, _) := Encrypt(c, b, m);
            var (r, a') := Decrypt(c, a, q);
            if a.window.Refuses(b.localSeq) == None then
              r == Ok(m) && a'.remote == b.pub && a'.window == a.window.Accept(b.localSeq)
              && CacheSound(c, a') && a'.priv == a.priv && a'.pub == a.pub && a'.pq == a.pq && a'.localSeq == a.localSeq
            else r.Err?
  {
    hide Window.Refuses, Window.Accept, Packet;
    EncryptOpens(c, b, a.priv, m);
    var e := Sent(Encrypt(c, b, m).0, m, b.localSeq, b.remote, b.pq);
    ClaimsOfPacket(b.pub, b.localSeq, c.seal(c.derive(DhShared(c, b, b.remote).0, b.pq), b.localSeq, b.pub, m));
    if a.window.Refuses(b.localSeq) == None {
      TakeNext(c, a, e);
    }
  }

  /** The two-way ratchet. One side has sent a packet under the key it still has; the other has the
      key and the secret that packet was for. If the packet's number is new and inside the window it
      decrypts, and then the answer decrypts as well exactly if its own number is new and inside the
      window. Nothing is assumed about the key the answering side held for its peer before. */
  lemma AnswerDelivers(c: Crypto, a0: State, aops: seq<Op>, b0: State, bops: seq<Op>, e: Sent, m: Bytes)
    requires Lawful(c) && CacheSound(c, a0) && CacheSound(c, b0)
    requires a0.window == Window(0, Empty()) && b0.window == Window(0, Empty())
    requires e in Emitted(c, a0, aops) && Run(c, a0, aops).pub <= e.packet && Run(c, a0, aops).pq == e.pq
    requires Run(c, b0, bops).pub == e.remote && Run(c, b0, bops).pq == e.pq
    requires e.n as int !in Accepted(c, b0, bops) && Run(c, b0, bops).window.high < e.n + WINDOW
    ensures var a, b := Run(c, a0, aops), Run(c, b0, bops);
            var (r1, b1) := Decrypt(c, b, e.packet);
            var (q, _) := Encrypt(c, b1, m);
            var (r2, _) := Decrypt(c, a, q);
            && r1 == Ok(e.plain)
            && (r2 == Ok(m) <==> (b.localSeq as int !in Accepted(c, a0, aops) && a.window.high < b.localSeq + WINDOW))
            && (r2.Ok? ==> r2 == Ok(m))
  {
    hide Run, Accepted, Emitted, Decrypt, Encrypt, Window.Refuses, Window.Accept, CacheSound, Lawful, OpensTo;
    var a, b := Run(c, a0, aops), Run(c, b0, bops);
    WindowRefinesSet(c, a0, aops);
    WindowRefinesSet(c, b0, bops);
    b.window.RefusesExactly(Accepted(c, b0, bops), e.n);
    OwnKey(c, b);
    EmittedOpen(c, a0, aops, e, b.priv);
    TakeNext(c, b, e);
    ReplyOpens(c, a, Decrypt(c, b, e.packet).1, m);
    a.window.RefusesExactly(Accepted(c, a0, aops), b.localSeq);
  }

  lemma OwnKey(c: Crypto, s: State)
    requires CacheSound(c, s)
    ensures s.pub == c.pub(s.priv)
  {
  }

  /** One turn: a side may rotate its key, and then says something that the other side hears. */
  datatype Turn = Turn(first: bool, rekey: Option<Key>, plain: Bytes)

  function Speak(c: Crypto, s: State, t: Turn): (Bytes, State) {
    Encrypt(c, if t.rekey.Some? then Rotate(c, s, t.rekey.value) else s, t.plain)
  }

  /** The two sides after a conversation, and what was heard. */
  function Talk(c: Crypto, a: State, b: State, turns: seq<Turn>): (r: (State, State, seq<Result<Bytes, PacketError>>))
    ensures |r.2| == |turns|
  {
    if turns == [] then (a, b, [])
    else
      var (x, y, heard) := Talk(c, a, b, turns[..|turns| - 1]);
      var t := turns[|turns| - 1];
      if t.first then
        var (p, x1) := Speak(c, x, t);
        var (r, y1) := Decrypt(c, y, p);
        (x1, y1, heard + [r])
      else
        var (p, y1) := Speak(c, y, t);
        var (r, x1) := Decrypt(c, x, p);
        (x1, y1, heard + [r])
  }

  /** What `x` sends next is new to `y`. */
  predicate Unheard(x: State, y: State) {
    y.window == Window(0, Empty()) || y.window.high < x.localSeq
  }

  /** Each side has the other's present key, both have one secret, and neither has heard more than the
      other said. */
  ghost predicate InStep(c: Crypto, a: State, b: State) {
    && CacheSound(c, a) && CacheSound(c, b)
    && a.remote == b.pub && b.remote == a.pub && a.pq == b.pq
    && Unheard(a, b) && Unheard(b, a)
  }

  lemma TurnKeepsStep(c: Crypto, x: State, y: State, t: Turn)
    requires Lawful(c) && InStep(c, x, y) && x.localSeq < U64_MAX
    ensures var (p, x1) := Speak(c, x, t);
            var (r, y1) := Decrypt(c, y, p);
            && r == Ok(t.plain) && InStep(c, x1, y1)
            && x1.localSeq == x.localSeq + 1 && y1.localSeq == y.localSeq
            && p[..32] == x1.pub && (t.rekey.Some? ==> p[..32] == c.pub(t.rekey.value))
  {
    hide Decrypt;
    var x0 := if t.rekey.Some? then Rotate(c, x, t.rekey.value) else x;
    assert CacheSound(c, x0);
    EncryptOpens(c, x0, y.priv, t.plain);
    ReplyOpens(c, y, x0, t.plain);
  }

  /** Two sides in step stay in step through every conversation, whoever speaks and however often
      either of them rotates its key: everything said is heard as it was said. */
  lemma {:induction false} ConversationDelivers(c: Crypto, a: State, b: State, turns: seq<Turn>)
    requires Lawful(c) && InStep(c, a, b) && a.localSeq + |turns| <= U64_MAX && b.localSeq + |turns| <= U64_MAX
    ensures var (x, y, heard) := Talk(c, a, b, turns);
            && InStep(c, x, y) && x.localSeq <= a.localSeq + |turns| && y.localSeq <= b.localSeq + |turns|
            && forall i | 0 <= i < |turns| :: heard[i] == Ok(turns[i].plain)
  {
    hide Decrypt, Speak, InStep, Lawful;
    if turns != [] {
      var k := |turns| - 1;
      ConversationDelivers(c, a, b, turns[..k]);
      var (x, y, _) := Talk(c, a, b, turns[..k]);
      if turns[k].first {
        TurnKeepsStep(c, x, y, turns[k]);
      } else {
        InStepSwaps(c, x, y);
        TurnKeepsStep(c, y, x, turns[k]);
        InStepSwaps(c, Speak(c, y, turns[k]).1, Decrypt(c, x, Speak(c, y, turns[k]).0).1);
      }
    }
  }

  lemma InStepSwaps(c: Crypto, a: State, b: State)
    requires InStep(c, a, b)
    ensures InStep(c, b, a)
  {
  }
}
