/**
 One session's packet layer: the memoised Diffie-Hellman secret, the one-way ratchet of the local
 key, the AEAD packet format `[sender pub: 32][seq: 8 LE][ciphertext]` and the 64-slot anti-replay
 window. Key agreement, key derivation and AEAD are arbitrary functions that satisfy `Lawful`.
 */
module Session {
  import opened Words

  type Key = Bytes32

  const WINDOW: nat := 64
  const TAG: nat := 16

  datatype Crypto = Crypto(
    pub: Key -> Key,
    dh: (Key, Key) -> Key,
    derive: (Key, Option<Key>) -> Key,
    seal: (Key, u64, Bytes, Bytes) -> Bytes,
    open: (Key, u64, Bytes, Bytes) -> Option<Bytes>)

  /** Both ends of an exchange agree; a shared secret depends on the local key only through its
      public half; and the AEAD opens what was sealed under the same key, nonce and header. */
  ghost predicate Lawful(c: Crypto) {
    && (forall a, b :: c.dh(a, c.pub(b)) == c.dh(b, c.pub(a)))
    && (forall a, b, q :: c.pub(a) == c.pub(b) ==> c.dh(a, q) == c.dh(b, q))
    && (forall k, n, a, m :: c.open(k, n, a, c.seal(k, n, a, m)) == Some(m))
    && (forall k, n, a, m :: |c.seal(k, n, a, m)| == |m| + TAG)
  }

  // ---------------------------------------------------------------- the replay window

  /** A 64-bit word, bit 0 first. */
  type Word = w: seq<bool> | |w| == WINDOW witness seq(WINDOW, _ => false)

  function Empty(): Word {
    seq(WINDOW, _ => false)
  }

  function ShiftLeft(w: Word, k: nat): Word {
    seq(WINDOW, i requires 0 <= i < WINDOW => i >= k && w[i - k])
  }

  datatype PacketError = TooShort | TooOld | AlreadySeen | AeadFailed

  /** The highest sequence number accepted and the mask of the 64 numbers up to it. */
  datatype Window = Window(high: u64, mask: Word) {

    function Refuses(n: u64): Option<PacketError> {
      var behind: int := high - n;
      if behind >= WINDOW then Some(TooOld)
      else if n <= high && mask[behind] then Some(AlreadySeen)
      else None
    }

    function Accept(n: u64): Window
      requires Refuses(n) == None
    {
      if n > high then
        Window(n, if n - high >= WINDOW then Empty()[0 := true] else ShiftLeft(mask, n - high)[0 := true])
      else
        Window(high, mask[high - n := true])
    }

    /** Bit `i` of the mask is set exactly when `high - i` was accepted. */
    ghost predicate Tracks(accepted: set<int>) {
      && (forall i | 0 <= i < WINDOW :: mask[i] <==> (i <= high && (high - i) in accepted))
      && (forall a | a in accepted :: a <= high)
    }

    /** The mask answers exactly as the set of accepted numbers would. */
    lemma RefusesExactly(accepted: set<int>, n: u64)
      requires Tracks(accepted)
      ensures Refuses(n) == None <==> n !in accepted && high < n + WINDOW
      ensures Refuses(n) == Some(TooOld) <==> n + 64 <= high
      ensures Refuses(n) == Some(AlreadySeen) <==> n in accepted && high < n + 64
    {
      if n <= high < n + WINDOW {
        assert mask[high - n] <==> (high - (high - n)) in accepted;
      }
    }

    lemma AcceptTracks(accepted: set<int>, n: u64)
      requires Tracks(accepted) && Refuses(n) == None
      ensures Accept(n).Tracks(accepted + {n})
    {
      var w := Accept(n);
      forall i | 0 <= i < WINDOW
        ensures w.mask[i] <==> (i <= w.high && (w.high - i) in accepted + {n})
      {
        if n > high && i > 0 && i >= n - high && n - high < WINDOW {
          assert mask[i - (n - high)] <==> (i - (n - high) <= high && (high - (i - (n - high))) in accepted);
        }
      }
    }
  }

  // ---------------------------------------------------------------- the session

  datatype CachedDh = CachedDh(localFp: Key, remoteFp: Key, shared: Key)

  datatype State = State(
    priv: Key, pub: Key, remote: Key,
    localSeq: u64, window: Window,
    pq: Option<Key>, fallback: Option<Key>, cache: Option<CachedDh>)

  /** The local public key belongs to the local private key, and a memoised secret is what a fresh
      Diffie-Hellman over the keys it is labelled with would give. */
  ghost predicate CacheSound(c: Crypto, s: State) {
    && s.pub == c.pub(s.priv)
    && (s.cache.Some? ==>
          var e := s.cache.value;
          forall x :: c.pub(x) == e.localFp ==> c.dh(x, e.remoteFp) == e.shared)
  }

  /** The memoised secret when its labels match, a fresh one otherwise. */
  function DhShared(c: Crypto, s: State, remote: Key): (r: (Key, State)) {
    if s.cache.Some? && s.cache.value.localFp == s.pub && s.cache.value.remoteFp == remote
    then (s.cache.value.shared, s)
    else var shared := c.dh(s.priv, remote); (shared, s.(cache := Some(CachedDh(s.pub, remote, shared))))
  }

  function Packet(pub: Key, n: u64, ct: Bytes): (p: Bytes)
    ensures |p| == 40 + |ct|
  {
    pub + LeBytes(8, n) + ct
  }

  function Encrypt(c: Crypto, s: State, plain: Bytes): (Bytes, State) {
    var (shared, s1) := DhShared(c, s, s.remote);
    (Packet(s.pub, s.localSeq, c.seal(c.derive(shared, s.pq), s.localSeq, s.pub, plain)),
     s1.(localSeq := (s.localSeq + 1) % U64_MODULUS))
  }

  function Rotate(c: Crypto, s: State, priv: Key): State {
    s.(priv := priv, pub := c.pub(priv))
  }

  /** The sender's key and the sequence number a packet claims. */
  function Claims(p: Bytes): (r: (Key, u64))
    requires |p| >= 40
  {
    assert Pow256(8) == U64_MODULUS;
    (p[..32], FromLe(p[32..40]))
  }

  function Decrypt(c: Crypto, s: State, p: Bytes): (Result<Bytes, PacketError>, State) {
    if |p| < 32 + 8 + TAG then (Err(TooShort), s)
    else
      var (sender, n) := Claims(p);
      var (shared, s1) := DhShared(c, s, sender);
      match s1.window.Refuses(n)
      case Some(e) => (Err(e), s1)
      case None =>
        var s2 := s1.(window := s1.window.Accept(n), remote := sender, fallback := None);
        match c.open(c.derive(shared, s.pq), n, sender, p[40..])
        case Some(m) => (Ok(m), s2)
        case None =>
          if s.fallback.None? then (Err(AeadFailed), s1)
          else
            match c.open(c.derive(shared, s.fallback), n, sender, p[40..])
            case Some(m) => (Ok(m), s2.(pq := s.fallback))
            case None => (Err(AeadFailed), s1)
  }

  lemma ClaimsOfPacket(pub: Key, n: u64, ct: Bytes)
    ensures Claims(Packet(pub, n, ct)) == (pub, n)
    ensures Packet(pub, n, ct)[40..] == ct
  {
    assert Pow256(8) == U64_MODULUS;
    LeRoundTrip(8, n);
    var p := Packet(pub, n, ct);
    assert p[..32] == pub && p[32..40] == LeBytes(8, n) && p[40..] == ct;
  }

  /** Whatever keys have rotated on either side, the secret returned is a fresh one's equal. */
  lemma DhSharedIsFresh(c: Crypto, s: State, remote: Key)
    requires Lawful(c) && CacheSound(c, s)
    ensures DhShared(c, s, remote).0 == c.dh(s.priv, remote)
    ensures CacheSound(c, DhShared(c, s, remote).1)
    ensures DhShared(c, s, remote).1 == s.(cache := Some(CachedDh(s.pub, remote, c.dh(s.priv, remote))))
  {
  }

  /** Every operation keeps the cache sound, and a refused packet changes nothing but the cache. */
  lemma DecryptKeeps(c: Crypto, s: State, p: Bytes)
    requires Lawful(c) && CacheSound(c, s)
    ensures var (r, s') := Decrypt(c, s, p);
            && CacheSound(c, s')
            && s'.priv == s.priv && s'.pub == s.pub && s'.localSeq == s.localSeq
            && (r.Err? ==> s' == s.(cache := s'.cache))
            && (r.Ok? ==> s'.fallback == None)
            && (s.fallback.None? ==> s'.pq == s.pq && s'.fallback.None?)
  {
    if |p| >= 40 {
      DhSharedIsFresh(c, s, Claims(p).0);
    }
  }

  /** The window moves exactly when a packet is accepted, and by that packet's number. */
  lemma DecryptMovesWindow(c: Crypto, s: State, p: Bytes)
    ensures var (r, s') := Decrypt(c, s, p);
            if r.Ok? then
              && |p| >= 40
              && s.window.Refuses(Claims(p).1) == None
              && s'.window == s.window.Accept(Claims(p).1)
            else s'.window == s.window
  {
    hide Window.Refuses, Window.Accept, Claims;
  }

  // ---------------------------------------------------------------- runs of a session

  /** Everything that happens to a session: any bytes arrive, we send, our key rotates, or another
      handshake with the peer sets its key and, if adopted, a new secret with its fallback. */
  datatype Op =
    | Receive(packet: Bytes)
    | Send(plain: Bytes)
    | Rekey(priv: Key)
    | Rehandshake(remote: Key, adopted: Option<(Key, Option<Key>)>)

  function Apply(c: Crypto, s: State, op: Op): State {
    match op
    case Receive(p) => Decrypt(c, s, p).1
    case Send(m) => Encrypt(c, s, m).1
    case Rekey(priv) => Rotate(c, s, priv)
    case Rehandshake(remote, None) => s.(remote := remote)
    case Rehandshake(remote, Some((pq, fallback))) => s.(remote := remote, pq := Some(pq), fallback := fallback)
  }

  function Run(c: Crypto, s: State, ops: seq<Op>): State {
    if ops == [] then s else Apply(c, Run(c, s, ops[..|ops| - 1]), ops[|ops| - 1])
  }

  predicate AcceptsAt(c: Crypto, s: State, ops: seq<Op>, i: nat)
    requires i < |ops|
  {
    && ops[i].Receive? && |ops[i].packet| >= 40
    && Decrypt(c, Run(c, s, ops[..i]), ops[i].packet).0.Ok?
  }

  /** The sequence numbers accepted in the run. */
  ghost function Accepted(c: Crypto, s: State, ops: seq<Op>): set<int> {
    set i | 0 <= i < |ops| && AcceptsAt(c, s, ops, i) :: Claims(ops[i].packet).1 as int
  }

  lemma AcceptedGrows(c: Crypto, s: State, ops: seq<Op>)
    requires ops != []
    ensures var k := |ops| - 1;
            Accepted(c, s, ops)
            == Accepted(c, s, ops[..k])
               + (if AcceptsAt(c, s, ops, k) then {Claims(ops[k].packet).1 as int} else {})
  {
    hide Decrypt, Run, Claims;
    var k := |ops| - 1;
    forall i | 0 <= i < k
      ensures AcceptsAt(c, s, ops, i) == AcceptsAt(c, s, ops[..k], i)
    {
      assert ops[..k][..i] == ops[..i];
    }
  }

  lemma EmptyRun(c: Crypto, s: State)
    ensures Accepted(c, s, []) == {}
  {
  }

  /** Whatever happens, the memoised secret stays sound. */
  lemma ApplyKeepsCache(c: Crypto, s: State, op: Op)
    requires Lawful(c) && CacheSound(c, s)
    ensures CacheSound(c, Apply(c, s, op))
  {
    hide Decrypt;
    match op
    case Receive(p) => DecryptKeeps(c, s, p);
    case Send(_) => DhSharedIsFresh(c, s, s.remote);
    case _ =>
  }

  /** Only an accepted packet moves the window; sends, key rotations and further handshakes do not. */
  lemma ApplyMovesWindow(c: Crypto, s: State, op: Op)
    ensures var s' := Apply(c, s, op);
            if op.Receive? && |op.packet| >= 40 && Decrypt(c, s, op.packet).0.Ok? then
              s.window.Refuses(Claims(op.packet).1) == None && s'.window == s.window.Accept(Claims(op.packet).1)
            else s'.window == s.window
  {
    hide Decrypt, Window.Refuses, Window.Accept, Claims;
    if op.Receive? {
      DecryptMovesWindow(c, s, op.packet);
    }
  }

  /** Over every run from a fresh session the mask refines the set of accepted numbers. */
  lemma {:induction false} WindowRefinesSet(c: Crypto, s: State, ops: seq<Op>)
    requires Lawful(c) && CacheSound(c, s) && s.window == Window(0, Empty())
    ensures CacheSound(c, Run(c, s, ops))
    ensures Run(c, s, ops).window.Tracks(Accepted(c, s, ops))
  {
    hide Apply, Decrypt, Claims, Accepted, Window.Refuses, Window.Accept, CacheSound;
    if ops == [] {
      EmptyRun(c, s);
    } else {
      var k := |ops| - 1;
      var before := Run(c, s, ops[..k]);
      WindowRefinesSet(c, s, ops[..k]);
      AcceptedGrows(c, s, ops);
      ApplyKeepsCache(c, before, ops[k]);
      ApplyMovesWindow(c, before, ops[k]);
      if AcceptsAt(c, s, ops, k) {
        before.window.AcceptTracks(Accepted(c, s, ops[..k]), Claims(ops[k].packet).1);
      }
    }
  }

  /** Whether a packet opens under the session's own secret, or under the one kept for a key
      rotation. */
  predicate Authentic(c: Crypto, s: State, p: Bytes) {
    && |p| >= 32 + 8 + TAG
    && var (sender, n) := Claims(p);
       var shared := c.dh(s.priv, sender);
       || c.open(c.derive(shared, s.pq), n, sender, p[40..]).Some?
       || (s.fallback.Some? && c.open(c.derive(shared, s.fallback), n, sender, p[40..]).Some?)
  }

  /** After any run, an authentic packet is accepted exactly when its number was never accepted
      and is less than 64 behind the highest; a packet that is not authentic never is. */
  lemma AcceptedIffNew(c: Crypto, s: State, ops: seq<Op>, p: Bytes)
    requires Lawful(c) && CacheSound(c, s) && s.window == Window(0, Empty())
    ensures var r := Run(c, s, ops);
            Decrypt(c, r, p).0.Ok?
            <==> Authentic(c, r, p)
                 && Claims(p).1 as int !in Accepted(c, s, ops)
                 && r.window.high < Claims(p).1 + WINDOW
  {
    hide Run, Accepted;
    WindowRefinesSet(c, s, ops);
    var r := Run(c, s, ops);
    if |p| >= 40 {
      DhSharedIsFresh(c, r, Claims(p).0);
      r.window.RefusesExactly(Accepted(c, s, ops), Claims(p).1);
    }
  }

  /** Why a packet is refused after any run: too short, too far behind, its number taken already, or
      not authentic, in that order. */
  lemma RefusedWhy(c: Crypto, s: State, ops: seq<Op>, p: Bytes)
    requires Lawful(c) && CacheSound(c, s) && s.window == Window(0, Empty())
    ensures var r, taken := Run(c, s, ops), Accepted(c, s, ops);
            var result := Decrypt(c, r, p).0;
            && (result == Err(TooShort) <==> |p| < 56)
            && (result == Err(TooOld) <==> |p| >= 56 && Claims(p).1 + 64 <= r.window.high)
            && (result == Err(AlreadySeen) <==> |p| >= 56 && r.window.high < Claims(p).1 + 64 && Claims(p).1 as int in taken)
            && (result == Err(AeadFailed) <==>
                  |p| >= 56 && r.window.high < Claims(p).1 + 64 && Claims(p).1 as int !in taken && !Authentic(c, r, p))
  {
    hide Run, Accepted, Claims;
    WindowRefinesSet(c, s, ops);
    var r := Run(c, s, ops);
    if |p| >= 56 {
      DhSharedIsFresh(c, r, Claims(p).0);
      r.window.RefusesExactly(Accepted(c, s, ops), Claims(p).1);
    }
  }

  /** No sequence number is accepted twice in a run, however the keys and secrets change in it. */
  lemma NeverAcceptedTwice(c: Crypto, s: State, ops: seq<Op>, i: nat, j: nat)
    requires Lawful(c) && CacheSound(c, s) && s.window == Window(0, Empty())
    requires i < j < |ops| && AcceptsAt(c, s, ops, i) && AcceptsAt(c, s, ops, j)
    ensures Claims(ops[i].packet).1 != Claims(ops[j].packet).1
  {
    hide Run, Decrypt, Claims;
    AcceptedIffNew(c, s, ops[..j], ops[j].packet);
    assert ops[..j][..i] == ops[..i] && ops[..j][i] == ops[i];
    assert AcceptsAt(c, s, ops[..j], i);
    assert Claims(ops[i].packet).1 as int in Accepted(c, s, ops[..j]);
  }

  // ---------------------------------------------------------------- the one-way ratchet

  /** A packet sent, with the peer key and the secret the sender held then. */
  datatype Sent = Sent(packet: Bytes, plain: Bytes, n: u64, remote: Key, pq: Option<Key>)

  /** What a session sends in the course of a run. */
  function Emitted(c: Crypto, s: State, ops: seq<Op>): seq<Sent> {
    if ops == [] then []
    else
      var before, op := ops[..|ops| - 1], ops[|ops| - 1];
      Emitted(c, s, before)
      + if op.Send? then
          var s1 := Run(c, s, before);
          [Sent(Encrypt(c, s1, op.plain).0, op.plain, s1.localSeq, s1.remote, s1.pq)]
        else []
  }

  /** A packet that opens to `e.plain` under the secret it was sent with. */
  ghost predicate OpensTo(c: Crypto, priv: Key, e: Sent) {
    && |e.packet| >= 32 + 8 + TAG
    && Claims(e.packet).1 == e.n
    && c.open(c.derive(c.dh(priv, Claims(e.packet).0), e.pq), e.n, Claims(e.packet).0, e.packet[40..]) == Some(e.plain)
  }

  lemma EncryptOpens(c: Crypto, s: State, priv: Key, m: Bytes)
    requires Lawful(c) && CacheSound(c, s) && s.remote == c.pub(priv)
    ensures OpensTo(c, priv, Sent(Encrypt(c, s, m).0, m, s.localSeq, s.remote, s.pq))
    ensures CacheSound(c, Encrypt(c, s, m).1)
  {
    DhSharedIsFresh(c, s, s.remote);
    var ct := c.seal(c.derive(c.dh(s.priv, s.remote), s.pq), s.localSeq, s.pub, m);
    ClaimsOfPacket(s.pub, s.localSeq, ct);
    assert c.dh(s.priv, c.pub(priv)) == c.dh(priv, c.pub(s.priv));
  }

  lemma {:induction false} RunKeepsCache(c: Crypto, s: State, ops: seq<Op>)
    requires Lawful(c) && CacheSound(c, s)
    ensures CacheSound(c, Run(c, s, ops))
  {
    hide Apply, CacheSound;
    if ops != [] {
      RunKeepsCache(c, s, ops[..|ops| - 1]);
      ApplyKeepsCache(c, Run(c, s, ops[..|ops| - 1]), ops[|ops| - 1]);
    }
  }

  /** Whatever a session goes through, each packet it sends opens for the holder of the key it was
      sent to. */
  lemma {:induction false} EmittedOpen(c: Crypto, s: State, ops: seq<Op>, e: Sent, priv: Key)
    requires Lawful(c) && CacheSound(c, s) && e in Emitted(c, s, ops) && e.remote == c.pub(priv)
    ensures OpensTo(c, priv, e)
  {
    hide Run, Encrypt, OpensTo, CacheSound;
    var before, op := ops[..|ops| - 1], ops[|ops| - 1];
    if e in Emitted(c, s, before) {
      EmittedOpen(c, s, before, e, priv);
    } else {
      RunKeepsCache(c, s, before);
      EncryptOpens(c, Run(c, s, before), priv, op.plain);
    }
  }

  /** However both ends send, receive, rotate keys and shake hands again, and in whatever order
      packets arrive: as long as the receiver has the key and the secret a packet was sent to, the
      packet decrypts to its own plaintext exactly when its number is new and inside the window. */
  lemma RatchetDelivers(c: Crypto, sender: State, sops: seq<Op>, receiver: State, rops: seq<Op>, e: Sent)
    requires Lawful(c) && CacheSound(c, sender) && CacheSound(c, receiver)
    requires receiver.window == Window(0, Empty()) && e in Emitted(c, sender, sops)
    requires Run(c, receiver, rops).pub == e.remote && Run(c, receiver, rops).pq == e.pq
    ensures var r := Run(c, receiver, rops);
            var (result, _) := Decrypt(c, r, e.packet);
            && (result == Ok(e.plain) <==> (e.n as int !in Accepted(c, receiver, rops) && r.window.high < e.n + WINDOW))
            && (result.Ok? ==> result == Ok(e.plain))
  {
    hide Run, Accepted, Emitted;
    var r := Run(c, receiver, rops);
    RunKeepsCache(c, receiver, rops);
    EmittedOpen(c, sender, sops, e, r.priv);
    AcceptedIffNew(c, receiver, rops, e.packet);
    DhSharedIsFresh(c, r, Claims(e.packet).0);
  }

  /** Right after a key rotation the peer's first packet may be under the retired secret: it still
      decrypts, and the session settles on that secret. */
  lemma FallbackPromotes(c: Crypto, sender: State, receiver: State, m: Bytes)
    requires Lawful(c) && CacheSound(c, sender) && CacheSound(c, receiver)
    requires sender.remote == receiver.pub && receiver.fallback.Some? && sender.pq == receiver.fallback
    requires receiver.window.Refuses(sender.localSeq) == None
    requires var (p, _) := Encrypt(c, sender, m);
             c.open(c.derive(c.dh(receiver.priv, sender.pub), receiver.pq), sender.localSeq, sender.pub, p[40..]).None?
    ensures var (p, _) := Encrypt(c, sender, m);
            var (result, r) := Decrypt(c, receiver, p);
            result == Ok(m) && r.pq == sender.pq && r.fallback.None? && r.remote == sender.pub
  {
    EncryptOpens(c, sender, receiver.priv, m);
    DhSharedIsFresh(c, receiver, sender.pub);
    ClaimsOfPacket(sender.pub, sender.localSeq,
                   c.seal(c.derive(DhShared(c, sender, sender.remote).0, sender.pq), sender.localSeq, sender.pub, m));
  }

  // ---------------------------------------------------------------- the object

  class SessionInfo {
    const c: Crypto
    var priv: Key
    var pub: Key
    var remote: Key
    var localSeq: u64
    var window: Window
    var pq: Option<Key>
    var fallback: Option<Key>
    var cache: Option<CachedDh>

    function View(): State
      reads this
    {
      State(priv, pub, remote, localSeq, window, pq, fallback, cache)
    }

    constructor (c: Crypto, priv: Key, remote: Key)
      ensures this.c == c
      ensures View() == State(priv, c.pub(priv), remote, 0, Window(0, Empty()), None, None, None)
    {
      this.c, this.priv, this.pub, this.remote := c, priv, c.pub(priv), remote;
      localSeq, window := 0, Window(0, Empty());
      pq, fallback, cache := None, None, None;
    }

    method Shared(remotePub: Key) returns (shared: Key)
      modifies this`cache
      ensures (shared, View()) == DhShared(c, old(View()), remotePub)
    {
      if cache.Some? && cache.value.localFp == pub && cache.value.remoteFp == remotePub {
        return cache.value.shared;
      }
      shared := c.dh(priv, remotePub);
      cache := Some(CachedDh(pub, remotePub, shared));
    }

    method Seal(plain: Bytes) returns (p: Bytes)
      modifies this`cache, this`localSeq
      ensures (p, View()) == Encrypt(c, old(View()), plain)
    {
      var shared := Shared(remote);
      p := Packet(pub, localSeq, c.seal(c.derive(shared, pq), localSeq, pub, plain));
      localSeq := (localSeq + 1) % U64_MODULUS;
    }

    method RotateLocalKey(newPriv: Key)
      modifies this`priv, this`pub
      ensures View() == Rotate(c, old(View()), newPriv)
    {
      pub := c.pub(newPriv);
      priv := newPriv;
    }

    method Open(p: Bytes) returns (r: Result<Bytes, PacketError>)
      modifies this`cache, this`window, this`remote, this`pq, this`fallback
      ensures (r, View()) == Decrypt(c, old(View()), p)
    {
      if |p| < 32 + 8 + TAG {
        return Err(TooShort);
      }
      var (sender, n) := Claims(p);
      var shared := Shared(sender);
      var refusal := window.Refuses(n);
      if refusal.Some? {
        return Err(refusal.value);
      }
      var plain := c.open(c.derive(shared, pq), n, sender, p[40..]);
      if plain.None? {
        if fallback.None? {
          return Err(AeadFailed);
        }
        plain := c.open(c.derive(shared, fallback), n, sender, p[40..]);
        if plain.None? {
          return Err(AeadFailed);
        }
        pq := fallback;
      }
      fallback := None;
      window := window.Accept(n);
      remote := sender;
      return Ok(plain.value);
    }
  }
}
