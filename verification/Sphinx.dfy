/**
 Fixed-size Sphinx-style onion cells. The builder works from the exit back to the first hop with
 a filler computed beforehand; each hop checks the MAC, extends the header by zeros, unmasks it
 and shifts. Every random draw is a parameter, every primitive an arbitrary function of `Suite`.
 */
module Sphinx {
  import opened Words
  import opened Lioness

  const TYPE_ONION_SPHINX: u8 := 0x10
  const MAX_HOPS: nat := 5
  const EPK_LEN: nat := 32
  const TAG_LEN: nat := 16
  const MAC_LEN: nat := 16
  const HOP_PAYLOAD: nat := 1 + TAG_LEN + EPK_LEN
  const PER_HOP: nat := HOP_PAYLOAD + MAC_LEN
  const BETA_LEN: nat := PER_HOP * MAX_HOPS
  const CELL_SIZE: nat := 1280
  const PAYLOAD_LEN: nat := CELL_SIZE - 1 - TAG_LEN - EPK_LEN - MAC_LEN - BETA_LEN
  const MAX_TRAFFIC_LEN: nat := PAYLOAD_LEN - 2
  const OFF_TAG: nat := 1
  const OFF_EPK: nat := OFF_TAG + TAG_LEN
  const OFF_GAMMA: nat := OFF_EPK + EPK_LEN
  const OFF_BETA: nat := OFF_GAMMA + MAC_LEN
  const OFF_PAYLOAD: nat := OFF_BETA + BETA_LEN
  const FLAG_FORWARD: u8 := 0x00
  const FLAG_EXIT: u8 := 0x01

  datatype Hop = Hop(routingTag: Bytes16, onionPub: Bytes32)

  datatype Peeled = Forward(nextTag: Bytes16, cell: Bytes) | Deliver(traffic: Bytes)

  datatype SphinxError =
    | BadHopCount | TrafficTooLong
    | BadCellSize | BadType | MacMismatch | BadInnerLength | UnknownFlags

  /** What Diffie-Hellman promises: both ends of an exchange get the same secret. */
  ghost predicate DhAgrees(c: Suite) {
    forall a, b :: c.dh(a, c.pub(b)) == c.dh(b, c.pub(a))
  }

  function RhoStream(c: Suite, s: Bytes32): nat -> u8 {
    c.stream(c.kdf("norn-sphinx:rho:v1", s))
  }

  function MuKey(c: Suite, s: Bytes32): Bytes32 {
    c.kdf("norn-sphinx:mu:v1", s)
  }

  function LengthPrefix(n: nat): (r: Bytes)
    requires n <= MAX_TRAFFIC_LEN
    ensures |r| == 2
  {
    [n % 256, n / 256]
  }

  // ---------------------------------------------------------------- the builder's layers

  /** The inputs and the random draws of one cell. */
  datatype Job = Job(
    hops: seq<Hop>, traffic: Bytes,
    ephs: seq<Bytes32>, betaFill: Bytes, exitFill: Bytes, pad: Bytes)
  {
    predicate Valid() {
      && 1 <= |hops| <= MAX_HOPS
      && |traffic| <= MAX_TRAFFIC_LEN
      && |ephs| == |hops|
      && |betaFill| == BETA_LEN
      && |exitFill| == HOP_PAYLOAD - 1
      && |pad| == MAX_TRAFFIC_LEN - |traffic|
    }

    function Epk(c: Suite, i: nat): Bytes32
      requires i < |ephs|
    {
      c.pub(ephs[i])
    }

    function Secret(c: Suite, i: nat): Bytes32
      requires Valid() && i < |hops|
    {
      c.dh(ephs[i], hops[i].onionPub)
    }

    /** The filler after the first `k` secrets: each one appends a zero block and masks the whole
        with the tail of its extended keystream. */
    function Filler(c: Suite, k: nat): (f: Bytes)
      requires Valid() && k < |hops|
      ensures |f| == k * PER_HOP
    {
      if k == 0 then []
      else Mask(RhoStream(c, Secret(c, k - 1)), BETA_LEN - (k - 1) * PER_HOP, Filler(c, k - 1) + Zeros(PER_HOP))
    }

    function HopPayload(c: Suite, i: nat): (p: Bytes)
      requires Valid() && i < |hops|
      ensures |p| == HOP_PAYLOAD
    {
      if i == |hops| - 1 then [FLAG_EXIT] + exitFill
      else [FLAG_FORWARD] + hops[i + 1].routingTag + Epk(c, i + 1)
    }

    /** The routing header handed to hop `i`; past the last hop, the random fill. */
    function Beta(c: Suite, i: nat): (b: Bytes)
      requires Valid() && i <= |hops|
      ensures |b| == BETA_LEN
      decreases |hops| - i, 0
    {
      if i == |hops| then betaFill
      else
        var masked := Mask(RhoStream(c, Secret(c, i)), 0, Shifted(c, i));
        if i == |hops| - 1 then masked[..BETA_LEN - |Filler(c, i)|] + Filler(c, i)
        else masked
    }

    /** hop payload ‖ gamma of the next hop ‖ beta of the next hop without its last block. */
    function Shifted(c: Suite, i: nat): (b: Bytes)
      requires Valid() && i < |hops|
      ensures |b| == BETA_LEN
      decreases |hops| - i - 1, 2
    {
      HopPayload(c, i) + Gamma(c, i + 1) + Beta(c, i + 1)[..BETA_LEN - PER_HOP]
    }

    function Gamma(c: Suite, i: nat): (g: Bytes16)
      requires Valid() && i <= |hops|
      decreases |hops| - i, 1
    {
      if i == |hops| then Zeros(MAC_LEN) else c.mac16(MuKey(c, Secret(c, i)), Beta(c, i))
    }

    /** The payload handed to hop `i`; past the last hop, the plain `[len][traffic][pad]`. */
    function Payload(c: Suite, i: nat): (p: Bytes)
      requires Valid() && i <= |hops|
      ensures |p| == PAYLOAD_LEN
      decreases |hops| - i
    {
      if i == |hops| then LengthPrefix(|traffic|) + traffic + pad
      else c.EncryptBlock(Secret(c, i), Payload(c, i + 1))
    }

    /** The whole cell as it reaches hop `i`. */
    function Cell(c: Suite, i: nat): (cell: Bytes)
      requires Valid() && i < |hops|
      ensures |cell| == CELL_SIZE
    {
      Layout(hops[i].routingTag, Epk(c, i), Gamma(c, i), Beta(c, i), Payload(c, i))
    }
  }

  function Layout(tag: Bytes16, epk: Bytes32, gamma: Bytes16, beta: Bytes, payload: Bytes): (cell: Bytes)
    requires |beta| == BETA_LEN && |payload| == PAYLOAD_LEN
    ensures |cell| == CELL_SIZE
    ensures cell[0] == TYPE_ONION_SPHINX
    ensures cell[OFF_TAG..OFF_EPK] == tag
    ensures cell[OFF_EPK..OFF_GAMMA] == epk
    ensures cell[OFF_GAMMA..OFF_BETA] == gamma
    ensures cell[OFF_BETA..OFF_PAYLOAD] == beta
    ensures cell[OFF_PAYLOAD..] == payload
  {
    [TYPE_ONION_SPHINX] + tag + epk + gamma + beta + payload
  }

  // ---------------------------------------------------------------- what a hop does

  predicate Authenticates(c: Suite, priv: Bytes32, cell: Bytes)
    requires |cell| == CELL_SIZE
  {
    c.mac16(MuKey(c, c.dh(priv, cell[OFF_EPK..OFF_GAMMA])), cell[OFF_BETA..OFF_PAYLOAD]) == cell[OFF_GAMMA..OFF_BETA]
  }

  /** The secret of the first key that authenticates the cell. */
  function SecretFor(c: Suite, privs: seq<Bytes32>, cell: Bytes): Option<Bytes32>
    requires |cell| == CELL_SIZE
  {
    if privs == [] then None
    else if Authenticates(c, privs[0], cell) then Some(c.dh(privs[0], cell[OFF_EPK..OFF_GAMMA]))
    else SecretFor(c, privs[1..], cell)
  }

  /** The header extended by zeros and unmasked. */
  function Unmasked(c: Suite, s: Bytes32, beta: Bytes): (b: Bytes)
    requires |beta| == BETA_LEN
    ensures |b| == BETA_LEN + PER_HOP
  {
    Mask(RhoStream(c, s), 0, beta + Zeros(PER_HOP))
  }

  /** One layer off, with the hop's secret known. */
  function Peel(c: Suite, s: Bytes32, cell: Bytes): Result<Peeled, SphinxError>
    requires |cell| == CELL_SIZE
  {
    var b := Unmasked(c, s, cell[OFF_BETA..OFF_PAYLOAD]);
    var pl := c.DecryptBlock(s, cell[OFF_PAYLOAD..]);
    if b[0] == FLAG_EXIT then
      var n := U16Le(pl[0], pl[1]);
      if 2 + n > |pl| then Err(BadInnerLength) else Ok(Deliver(pl[2..2 + n]))
    else if b[0] == FLAG_FORWARD then
      Ok(Forward(b[1..1 + TAG_LEN],
                 Layout(b[1..1 + TAG_LEN], b[1 + TAG_LEN..HOP_PAYLOAD], b[HOP_PAYLOAD..PER_HOP], b[PER_HOP..], pl)))
    else Err(UnknownFlags)
  }

  function Process(c: Suite, cell: Bytes, privs: seq<Bytes32>): Result<Peeled, SphinxError> {
    if |cell| != CELL_SIZE then Err(BadCellSize)
    else if cell[0] != TYPE_ONION_SPHINX then Err(BadType)
    else
      match SecretFor(c, privs, cell)
      case None => Err(MacMismatch)
      case Some(s) => Peel(c, s, cell)
  }

  // ---------------------------------------------------------------- the header

  /** The filler's last block is what a hop's zero extension unmasks to. */
  lemma FillerLastBlock(c: Suite, job: Job, k: nat)
    requires job.Valid() && 1 <= k < |job.hops|
    ensures job.Filler(c, k)[(k - 1) * PER_HOP..]
         == Mask(RhoStream(c, job.Secret(c, k - 1)), BETA_LEN, Zeros(PER_HOP))
    ensures job.Filler(c, k)[..(k - 1) * PER_HOP]
         == Mask(RhoStream(c, job.Secret(c, k - 1)), BETA_LEN - (k - 1) * PER_HOP, job.Filler(c, k - 1))
  {
    MaskConcat(RhoStream(c, job.Secret(c, k - 1)), BETA_LEN - (k - 1) * PER_HOP, job.Filler(c, k - 1), Zeros(PER_HOP));
  }

  /** Shifting `next` right behind `head` and masking brings the bytes that were masked `f` back
      to `f`, in the last `|f|` places. */
  lemma ShiftedTail(rho: nat -> u8, head: Bytes, next: Bytes, f: Bytes)
    requires |head| == PER_HOP && |next| == BETA_LEN && |f| <= BETA_LEN - PER_HOP
    requires next[BETA_LEN - |f| - PER_HOP..BETA_LEN - PER_HOP] == Mask(rho, BETA_LEN - |f|, f)
    ensures Mask(rho, 0, head + next[..BETA_LEN - PER_HOP])[BETA_LEN - |f|..] == f
  {
    var lo := BETA_LEN - |f|;
    var shifted := head + next[..BETA_LEN - PER_HOP];
    MaskSlice(rho, 0, shifted, lo, BETA_LEN);
    assert shifted[lo..BETA_LEN] == next[lo - PER_HOP..BETA_LEN - PER_HOP];
    MaskCancels(rho, lo, f);
  }

  /** The invariant of the construction: the header handed to hop `k` ends in the first `k`
      filler blocks. */
  lemma {:induction false} BetaEndsInFiller(c: Suite, job: Job, k: nat)
    requires job.Valid() && k < |job.hops|
    ensures job.Beta(c, k)[BETA_LEN - k * PER_HOP..] == job.Filler(c, k)
    decreases |job.hops| - k
  {
    hide Mask, RhoStream, Job.HopPayload, Job.Gamma, Job.Secret, Zeros;
    if k < |job.hops| - 1 {
      BetaEndsInFiller(c, job, k + 1);
      FillerLastBlock(c, job, k + 1);
      var next, f := job.Beta(c, k + 1), job.Filler(c, k);
      assert next[BETA_LEN - |f| - PER_HOP..BETA_LEN - PER_HOP] == next[BETA_LEN - (k + 1) * PER_HOP..][..k * PER_HOP];
      ShiftedTail(RhoStream(c, job.Secret(c, k)), job.HopPayload(c, k) + job.Gamma(c, k + 1), next, f);
    }
  }

  /** A relay's unmasked, extended header is its routing payload, the next hop's MAC and, byte
      for byte, the header the builder made for the next hop. */
  lemma UnmaskedAtRelay(c: Suite, job: Job, i: nat)
    requires job.Valid() && i < |job.hops| - 1
    ensures Unmasked(c, job.Secret(c, i), job.Beta(c, i))
         == job.HopPayload(c, i) + job.Gamma(c, i + 1) + job.Beta(c, i + 1)
  {
    hide Mask, RhoStream, Job.HopPayload, Job.Gamma, Job.Secret, Zeros, Job.Filler;
    var rho := RhoStream(c, job.Secret(c, i));
    var next := job.Beta(c, i + 1);
    MaskConcat(rho, 0, job.Beta(c, i), Zeros(PER_HOP));
    MaskCancels(rho, 0, job.Shifted(c, i));
    BetaEndsInFiller(c, job, i + 1);
    FillerLastBlock(c, job, i + 1);
    assert next[BETA_LEN - PER_HOP..] == next[BETA_LEN - (i + 1) * PER_HOP..][i * PER_HOP..];
    assert next == next[..BETA_LEN - PER_HOP] + next[BETA_LEN - PER_HOP..];
  }

  /** The filler overwrite never reaches the exit's own slot, so the exit reads its own flag. */
  lemma UnmaskedAtExit(c: Suite, job: Job)
    requires job.Valid()
    ensures Unmasked(c, job.Secret(c, |job.hops| - 1), job.Beta(c, |job.hops| - 1))[..PER_HOP]
         == job.HopPayload(c, |job.hops| - 1) + job.Gamma(c, |job.hops|)
  {
    hide Mask, RhoStream, Job.HopPayload, Job.Gamma, Job.Secret, Zeros;
    var i := |job.hops| - 1;
    var rho := RhoStream(c, job.Secret(c, i));
    var beta := job.Beta(c, i);
    var shifted := job.Shifted(c, i);
    MaskSlice(rho, 0, beta + Zeros(PER_HOP), 0, PER_HOP);
    MaskSlice(rho, 0, shifted, 0, PER_HOP);
    assert (beta + Zeros(PER_HOP))[0..PER_HOP] == Mask(rho, 0, shifted)[0..PER_HOP];
    MaskCancels(rho, 0, shifted[0..PER_HOP]);
  }

  // ---------------------------------------------------------------- the whole way

  /** The hop's key ring holds the key the sender used, and no earlier key happens to
      authenticate the cell. */
  ghost predicate RightKeyFirst(c: Suite, job: Job, i: nat, privs: seq<Bytes32>)
    requires job.Valid() && i < |job.hops|
  {
    exists j :: 0 <= j < |privs| && c.pub(privs[j]) == job.hops[i].onionPub
                && forall j' :: 0 <= j' < j ==> !Authenticates(c, privs[j'], job.Cell(c, i))
  }

  lemma {:induction false} FirstAuthentic(c: Suite, privs: seq<Bytes32>, cell: Bytes, j: nat)
    requires |cell| == CELL_SIZE && j < |privs|
    requires Authenticates(c, privs[j], cell)
    requires forall j' :: 0 <= j' < j ==> !Authenticates(c, privs[j'], cell)
    ensures SecretFor(c, privs, cell) == Some(c.dh(privs[j], cell[OFF_EPK..OFF_GAMMA]))
  {
    if j > 0 {
      FirstAuthentic(c, privs[1..], cell, j - 1);
    }
  }

  /** The MAC check accepts at every hop, and yields the sender's secret. */
  lemma HopFindsSecret(c: Suite, job: Job, i: nat, privs: seq<Bytes32>)
    requires DhAgrees(c) && job.Valid() && i < |job.hops| && RightKeyFirst(c, job, i, privs)
    ensures SecretFor(c, privs, job.Cell(c, i)) == Some(job.Secret(c, i))
  {
    var cell := job.Cell(c, i);
    var j :| 0 <= j < |privs| && c.pub(privs[j]) == job.hops[i].onionPub
             && forall j' :: 0 <= j' < j ==> !Authenticates(c, privs[j'], cell);
    assert c.dh(privs[j], job.Epk(c, i)) == job.Secret(c, i);
    FirstAuthentic(c, privs, cell, j);
  }

  /** Peeling a cell whose unmasked header has the relay's flag. */
  lemma PeelForwards(c: Suite, s: Bytes32, cell: Bytes, tag: Bytes16, epk: Bytes32, gamma: Bytes16, beta: Bytes)
    requires |cell| == CELL_SIZE && |beta| == BETA_LEN
    requires Unmasked(c, s, cell[OFF_BETA..OFF_PAYLOAD])
          == [FLAG_FORWARD] + tag + epk + gamma + beta
    ensures Peel(c, s, cell)
         == Ok(Forward(tag, Layout(tag, epk, gamma, beta, c.DecryptBlock(s, cell[OFF_PAYLOAD..]))))
  {
    hide Unmasked, Layout, Suite.DecryptBlock;
    var b: Bytes := [FLAG_FORWARD] + tag + epk + gamma + beta;
    assert b[0] == FLAG_FORWARD && b[1..1 + TAG_LEN] == tag && b[1 + TAG_LEN..HOP_PAYLOAD] == epk;
    assert b[HOP_PAYLOAD..PER_HOP] == gamma && b[PER_HOP..] == beta;
  }

  /** A relay turns the cell of hop `i` into the cell of hop `i + 1`, byte for byte. */
  lemma RelayForwards(c: Suite, job: Job, i: nat, privs: seq<Bytes32>)
    requires DhAgrees(c) && job.Valid() && i < |job.hops| - 1 && RightKeyFirst(c, job, i, privs)
    ensures Process(c, job.Cell(c, i), privs) == Ok(Forward(job.hops[i + 1].routingTag, job.Cell(c, i + 1)))
  {
    hide DhAgrees, RightKeyFirst, SecretFor, Peel, Layout, Unmasked, Job.Beta, Job.Gamma, Suite.EncryptBlock, Suite.DecryptBlock;
    HopFindsSecret(c, job, i, privs);
    UnmaskedAtRelay(c, job, i);
    c.DecryptUndoesEncrypt(job.Secret(c, i), job.Payload(c, i + 1));
    var tag, epk := job.hops[i + 1].routingTag, job.Epk(c, i + 1);
    var gamma, beta := job.Gamma(c, i + 1), job.Beta(c, i + 1);
    assert job.HopPayload(c, i) + gamma + beta == [FLAG_FORWARD] + tag + epk + gamma + beta;
    PeelForwards(c, job.Secret(c, i), job.Cell(c, i), tag, epk, gamma, beta);
  }

  /** Peeling a cell whose unmasked header has the exit's flag and whose payload decrypts to a
      length prefix, that many bytes and padding. */
  lemma PeelDelivers(c: Suite, s: Bytes32, cell: Bytes, traffic: Bytes, pad: Bytes)
    requires |cell| == CELL_SIZE && |traffic| <= MAX_TRAFFIC_LEN
    requires Unmasked(c, s, cell[OFF_BETA..OFF_PAYLOAD])[0] == FLAG_EXIT
    requires c.DecryptBlock(s, cell[OFF_PAYLOAD..]) == LengthPrefix(|traffic|) + traffic + pad
    ensures Peel(c, s, cell) == Ok(Deliver(traffic))
  {
    hide Unmasked, Layout, Suite.DecryptBlock;
    var pl := LengthPrefix(|traffic|) + traffic + pad;
    assert U16Le(LengthPrefix(|traffic|)[0], LengthPrefix(|traffic|)[1]) == |traffic|;
    assert pl[0] == LengthPrefix(|traffic|)[0] && pl[1] == LengthPrefix(|traffic|)[1];
    assert pl[2..2 + |traffic|] == traffic;
  }

  /** The exit delivers exactly the traffic. */
  lemma ExitDelivers(c: Suite, job: Job, privs: seq<Bytes32>)
    requires DhAgrees(c) && job.Valid() && RightKeyFirst(c, job, |job.hops| - 1, privs)
    ensures Process(c, job.Cell(c, |job.hops| - 1), privs) == Ok(Deliver(job.traffic))
  {
    hide DhAgrees, RightKeyFirst, SecretFor, Peel, Layout, Unmasked, LengthPrefix,
         Job.Beta, Job.Gamma, Job.Secret, Suite.EncryptBlock, Suite.DecryptBlock;
    var i := |job.hops| - 1;
    var s := job.Secret(c, i);
    HopFindsSecret(c, job, i, privs);
    UnmaskedAtExit(c, job);
    var b := Unmasked(c, s, job.Beta(c, i));
    assert b[0] == b[..PER_HOP][0] == FLAG_EXIT;
    c.DecryptUndoesEncrypt(s, job.Payload(c, i + 1));
    PeelDelivers(c, s, job.Cell(c, i), job.traffic, job.pad);
  }

  /** Hands a cell from node to node, each with its own key ring, until one delivers. */
  datatype Outcome = Delivered(seen: seq<Bytes>, traffic: Bytes) | Stuck

  function Carry(c: Suite, cell: Bytes, rings: seq<seq<Bytes32>>): Outcome
    decreases |rings|
  {
    if rings == [] then Stuck
    else
      match Process(c, cell, rings[0])
      case Err(_) => Stuck
      case Ok(Deliver(t)) => if |rings| == 1 then Delivered([cell], t) else Stuck
      case Ok(Forward(_, next)) =>
        match Carry(c, next, rings[1..])
        case Stuck => Stuck
        case Delivered(seen, t) => Delivered([cell] + seen, t)
  }

  /** The cells that hop `i` and the hops behind it get. */
  function CellsFrom(c: Suite, job: Job, i: nat): (cells: seq<Bytes>)
    requires job.Valid() && i <= |job.hops|
    ensures |cells| == |job.hops| - i
    decreases |job.hops| - i
  {
    if i == |job.hops| then [] else [job.Cell(c, i)] + CellsFrom(c, job, i + 1)
  }

  lemma {:induction false} CellAt(c: Suite, job: Job, i: nat, k: nat)
    requires job.Valid() && i <= k < |job.hops|
    ensures CellsFrom(c, job, i)[k - i] == job.Cell(c, k)
    decreases k - i
  {
    hide Job.Cell;
    if i < k {
      CellAt(c, job, i + 1, k);
    }
  }

  lemma CellShape(c: Suite, job: Job, i: nat)
    requires job.Valid() && i < |job.hops|
    ensures var cell := job.Cell(c, i);
            cell[0] == TYPE_ONION_SPHINX && cell[OFF_TAG..OFF_EPK] == job.hops[i].routingTag
  {
    hide Layout, Job.Beta, Job.Gamma, Job.Payload;
  }

  lemma {:induction false} CarryFrom(c: Suite, job: Job, i: nat, rings: seq<seq<Bytes32>>)
    requires DhAgrees(c) && job.Valid() && i < |job.hops| == |rings|
    requires forall k | 0 <= k < |rings| :: RightKeyFirst(c, job, k, rings[k])
    ensures Carry(c, job.Cell(c, i), rings[i..]) == Delivered(CellsFrom(c, job, i), job.traffic)
    decreases |rings| - i
  {
    hide Process, RightKeyFirst, Job.Cell, DhAgrees;
    if i == |rings| - 1 {
      ExitDelivers(c, job, rings[i]);
      assert CellsFrom(c, job, i + 1) == [];
    } else {
      RelayForwards(c, job, i, rings[i]);
      CarryFrom(c, job, i + 1, rings);
      assert rings[i..][1..] == rings[i + 1..];
    }
  }

  /** End to end: for every path of at most five hops and every traffic that fits, each node on
      the path sees a cell of the one fixed size that carries its own routing tag, and the last
      one delivers exactly the traffic. */
  lemma SphinxDelivers(c: Suite, job: Job, rings: seq<seq<Bytes32>>)
    requires DhAgrees(c) && job.Valid() && |rings| == |job.hops|
    requires forall k | 0 <= k < |rings| :: RightKeyFirst(c, job, k, rings[k])
    ensures var out := Carry(c, job.Cell(c, 0), rings);
            && out.Delivered?
            && out.traffic == job.traffic
            && |out.seen| == |rings|
            && forall k | 0 <= k < |rings| ::
                 && |out.seen[k]| == CELL_SIZE
                 && out.seen[k][0] == TYPE_ONION_SPHINX
                 && out.seen[k][OFF_TAG..OFF_EPK] == job.hops[k].routingTag
  {
    hide Process, RightKeyFirst, DhAgrees, Carry, CellsFrom, Job.Cell;
    CarryFrom(c, job, 0, rings);
    assert rings[0..] == rings;
    var cells := CellsFrom(c, job, 0);
    forall k | 0 <= k < |rings|
      ensures |cells[k]| == CELL_SIZE && cells[k][0] == TYPE_ONION_SPHINX && cells[k][OFF_TAG..OFF_EPK] == job.hops[k].routingTag
    {
      CellAt(c, job, 0, k);
      CellShape(c, job, k);
    }
  }

  // ---------------------------------------------------------------- the two entry points

  method ComputeSecrets(c: Suite, ghost job: Job, hops: seq<Hop>, ephs: seq<Bytes32>)
    returns (epks: seq<Bytes32>, secrets: seq<Bytes32>)
    requires job.Valid() && hops == job.hops && ephs == job.ephs
    ensures |epks| == |secrets| == |hops|
    ensures forall k | 0 <= k < |hops| :: epks[k] == job.Epk(c, k) && secrets[k] == job.Secret(c, k)
  {
    epks, secrets := [], [];
    for i := 0 to |hops|
      invariant |epks| == |secrets| == i
      invariant forall k | 0 <= k < i :: epks[k] == job.Epk(c, k) && secrets[k] == job.Secret(c, k)
    {
      epks := epks + [c.pub(ephs[i])];
      secrets := secrets + [c.dh(ephs[i], hops[i].onionPub)];
    }
  }

  method ComputeFiller(c: Suite, ghost job: Job, secrets: seq<Bytes32>) returns (filler: Bytes)
    requires job.Valid() && |secrets| == |job.hops|
    requires forall k | 0 <= k < |secrets| :: secrets[k] == job.Secret(c, k)
    ensures filler == job.Filler(c, |secrets| - 1)
  {
    filler := [];
    for i := 0 to |secrets| - 1
      invariant filler == job.Filler(c, i)
    {
      filler := filler + Zeros(PER_HOP);
      filler := Mask(RhoStream(c, secrets[i]), BETA_LEN + PER_HOP - |filler|, filler);
    }
  }

  /** The header loop, from the exit back to the first hop. */
  method ComputeHeader(c: Suite, ghost job: Job, hops: seq<Hop>, epks: seq<Bytes32>, secrets: seq<Bytes32>,
                       filler: Bytes, betaFill: Bytes, exitFill: Bytes)
    returns (beta: Bytes, gamma: Bytes16)
    requires job.Valid() && hops == job.hops && betaFill == job.betaFill && exitFill == job.exitFill
    requires |epks| == |secrets| == |hops|
    requires forall k | 0 <= k < |hops| :: epks[k] == job.Epk(c, k) && secrets[k] == job.Secret(c, k)
    requires filler == job.Filler(c, |hops| - 1)
    ensures beta == job.Beta(c, 0) && gamma == job.Gamma(c, 0)
  {
    hide Mask, RhoStream, Job.Filler, Job.Secret;
    var nu := |hops|;
    beta, gamma := betaFill, Zeros(MAC_LEN);
    for i := nu downto 0
      invariant beta == job.Beta(c, i) && gamma == job.Gamma(c, i)
    {
      var hopPayload: Bytes := if i == nu - 1 then [FLAG_EXIT] + exitFill
                               else [FLAG_FORWARD] + hops[i + 1].routingTag + epks[i + 1];
      assert hopPayload == job.HopPayload(c, i);
      var newBeta := Mask(RhoStream(c, secrets[i]), 0, hopPayload + gamma + beta[..BETA_LEN - PER_HOP]);
      if i == nu - 1 && |filler| > 0 {
        newBeta := newBeta[..BETA_LEN - |filler|] + filler;
      }
      assert newBeta == job.Beta(c, i);
      beta := newBeta;
      gamma := c.mac16(MuKey(c, secrets[i]), beta);
    }
  }

  method ComputePayload(c: Suite, ghost job: Job, secrets: seq<Bytes32>, traffic: Bytes, pad: Bytes) returns (p: Bytes)
    requires job.Valid() && traffic == job.traffic && pad == job.pad && |secrets| == |job.hops|
    requires forall k | 0 <= k < |secrets| :: secrets[k] == job.Secret(c, k)
    ensures p == job.Payload(c, 0)
  {
    hide Suite.EncryptBlock, Job.Secret, LengthPrefix;
    var plain := LengthPrefix(|traffic|) + traffic + pad;
    var payload := new u8[PAYLOAD_LEN](i requires 0 <= i < PAYLOAD_LEN => plain[i]);
    assert payload[..] == plain;
    for i := |secrets| downto 0
      invariant payload[..] == job.Payload(c, i)
    {
      LionessEncrypt(c, secrets[i], payload);
    }
    p := payload[..];
  }

  /** Builds a cell. The draws `ephs`, `betaFill`, `exitFill` and `pad` stand for the random
      generator. */
  method BuildSphinx(c: Suite, hops: seq<Hop>, traffic: Bytes, ephs: seq<Bytes32>, betaFill: Bytes, exitFill: Bytes, pad: Bytes)
    returns (r: Result<Bytes, SphinxError>)
    requires |ephs| == |hops| && |betaFill| == BETA_LEN && |exitFill| == HOP_PAYLOAD - 1
    requires |traffic| <= MAX_TRAFFIC_LEN ==> |pad| == MAX_TRAFFIC_LEN - |traffic|
    ensures r == Err(BadHopCount) <==> !(1 <= |hops| <= MAX_HOPS)
    ensures r == Err(TrafficTooLong) <==> 1 <= |hops| <= MAX_HOPS && |traffic| > MAX_TRAFFIC_LEN
    ensures var job := Job(hops, traffic, ephs, betaFill, exitFill, pad);
            job.Valid() ==> r == Ok(job.Cell(c, 0))
  {
    hide Job.Beta, Job.Gamma, Job.Payload, Job.Filler, Job.Secret, Layout;
    if |hops| == 0 || |hops| > MAX_HOPS {
      return Err(BadHopCount);
    }
    if |traffic| > MAX_TRAFFIC_LEN {
      return Err(TrafficTooLong);
    }
    ghost var job := Job(hops, traffic, ephs, betaFill, exitFill, pad);
    var epks, secrets := ComputeSecrets(c, job, hops, ephs);
    var filler := ComputeFiller(c, job, secrets);
    var beta, gamma := ComputeHeader(c, job, hops, epks, secrets, filler, betaFill, exitFill);
    var payload := ComputePayload(c, job, secrets, traffic, pad);
    return Ok(Layout(hops[0].routingTag, epks[0], gamma, beta, payload));
  }

  method FindSecret(c: Suite, cell: Bytes, privs: seq<Bytes32>) returns (found: Option<Bytes32>)
    requires |cell| == CELL_SIZE
    ensures found == SecretFor(c, privs, cell)
  {
    hide Authenticates;
    found := None;
    for i := 0 to |privs|
      invariant SecretFor(c, privs, cell) == SecretFor(c, privs[i..], cell)
    {
      if Authenticates(c, privs[i], cell) {
        return Some(c.dh(privs[i], cell[OFF_EPK..OFF_GAMMA]));
      }
      assert privs[i..][1..] == privs[i + 1..];
    }
  }

  /** Processes one cell with a key ring, trying its keys in order. */
  method ProcessSphinx(c: Suite, cell: Bytes, privs: seq<Bytes32>) returns (r: Result<Peeled, SphinxError>)
    ensures r == Process(c, cell, privs)
  {
    hide SecretFor, Unmasked, Layout, Suite.DecryptBlock;
    if |cell| != CELL_SIZE {
      return Err(BadCellSize);
    }
    if cell[0] != TYPE_ONION_SPHINX {
      return Err(BadType);
    }
    var found := FindSecret(c, cell, privs);
    if found.None? {
      return Err(MacMismatch);
    }
    var s := found.value;
    var b := Unmasked(c, s, cell[OFF_BETA..OFF_PAYLOAD]);
    var payload := new u8[PAYLOAD_LEN](i requires 0 <= i < PAYLOAD_LEN => cell[OFF_PAYLOAD + i]);
    assert payload[..] == cell[OFF_PAYLOAD..];
    LionessDecrypt(c, s, payload);
    var pl := payload[..];
    if b[0] == FLAG_EXIT {
      var n := U16Le(pl[0], pl[1]);
      return if 2 + n > |pl| then Err(BadInnerLength) else Ok(Deliver(pl[2..2 + n]));
    } else if b[0] == FLAG_FORWARD {
      var nextTag := b[1..1 + TAG_LEN];
      return Ok(Forward(nextTag,
                        Layout(nextTag, b[1 + TAG_LEN..HOP_PAYLOAD], b[HOP_PAYLOAD..PER_HOP], b[PER_HOP..], pl)));
    } else {
      return Err(UnknownFlags);
    }
  }
}
