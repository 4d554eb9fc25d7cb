/**
 When a hop refuses a cell. Everything is stated on the bytes of the cell: the MAC a key computes
 from them, the flag under the keystream and the length under the payload's cipher.
 */
module SphinxRefusal {
  import opened Words
  import opened Lioness
  import opened Sphinx

  /** The MAC that `priv` computes from the cell's ephemeral key and header. */
  function Computed(c: Suite, cell: Bytes, priv: Bytes32): Bytes16
    requires |cell| == CELL_SIZE
  {
    c.mac16(c.kdf("norn-sphinx:mu:v1", c.dh(priv, cell[OFF_EPK..OFF_EPK + 32])), cell[OFF_BETA..OFF_BETA + BETA_LEN])
  }

  /** All 16 bytes agree with those the cell carries. */
  predicate Matches(c: Suite, cell: Bytes, priv: Bytes32)
    requires |cell| == CELL_SIZE
  {
    forall i | 0 <= i < 16 :: Computed(c, cell, priv)[i] == cell[OFF_GAMMA + i]
  }

  lemma MatchesExactly(c: Suite, cell: Bytes, priv: Bytes32)
    requires |cell| == CELL_SIZE
    ensures Matches(c, cell, priv) <==> Authenticates(c, priv, cell)
  {
    var mac, gamma := Computed(c, cell, priv), cell[OFF_GAMMA..OFF_BETA];
    assert forall i | 0 <= i < 16 :: gamma[i] == cell[OFF_GAMMA + i];
  }

  lemma {:induction false} SearchIff(c: Suite, privs: seq<Bytes32>, cell: Bytes)
    requires |cell| == CELL_SIZE
    ensures SecretFor(c, privs, cell).None? <==> forall p | p in privs :: !Matches(c, cell, p)
  {
    hide Matches, Authenticates;
    if privs != [] {
      assert privs == [privs[0]] + privs[1..];
      MatchesExactly(c, cell, privs[0]);
      SearchIff(c, privs[1..], cell);
    }
  }

  predicate WellFormed(cell: Bytes) {
    |cell| == CELL_SIZE && cell[0] == TYPE_ONION_SPHINX
  }

  /** A cell is refused as not for us exactly if it is well formed and, for every key of the ring, at
      least one byte of the MAC differs. */
  lemma RefusedIff(c: Suite, cell: Bytes, privs: seq<Bytes32>)
    ensures Process(c, cell, privs) == Err(MacMismatch)
       <==> WellFormed(cell) && forall p | p in privs :: !Matches(c, cell, p)
  {
    hide Matches, SecretFor, Unmasked, Layout, Suite.DecryptBlock;
    if |cell| == CELL_SIZE {
      SearchIff(c, privs, cell);
    }
  }

  /** Where a cell has hop i's type byte and ephemeral key, hop i refuses it exactly if its MAC is
      not the one of its header under the secret the sender shares with the hop. */
  lemma RefusedAtHopIff(c: Suite, job: Job, i: nat, priv: Bytes32, cell: Bytes)
    requires DhAgrees(c) && job.Valid() && i < |job.hops| && c.pub(priv) == job.hops[i].onionPub
    requires WellFormed(cell) && cell[OFF_EPK..OFF_GAMMA] == c.pub(job.ephs[i])
    ensures Process(c, cell, [priv]) == Err(MacMismatch)
       <==> c.mac16(c.kdf("norn-sphinx:mu:v1", c.dh(job.ephs[i], job.hops[i].onionPub)), cell[OFF_BETA..OFF_PAYLOAD])
            != cell[OFF_GAMMA..OFF_BETA]
  {
    hide Process, SecretFor;
    RefusedIff(c, cell, [priv]);
    assert priv in [priv];
    MatchesExactly(c, cell, priv);
    assert c.dh(priv, c.pub(job.ephs[i])) == c.dh(job.ephs[i], c.pub(priv));
  }

  /** What the builder's cell carries at the places that decide. */
  lemma SentHeader(c: Suite, job: Job, i: nat)
    requires job.Valid() && i < |job.hops|
    ensures var sent := job.Cell(c, i);
            && WellFormed(sent) && sent[OFF_EPK..OFF_GAMMA] == c.pub(job.ephs[i])
            && sent[OFF_GAMMA..OFF_BETA]
               == c.mac16(c.kdf("norn-sphinx:mu:v1", c.dh(job.ephs[i], job.hops[i].onionPub)), sent[OFF_BETA..OFF_PAYLOAD])
  {
    hide Job.Beta, Job.Payload, Layout;
  }

  lemma SplitCell(cell: Bytes)
    requires |cell| == CELL_SIZE
    ensures cell == cell[..OFF_GAMMA] + cell[OFF_GAMMA..OFF_BETA] + cell[OFF_BETA..]
    ensures cell[0] == cell[..OFF_GAMMA][0] && cell[OFF_EPK..OFF_GAMMA] == cell[..OFF_GAMMA][OFF_EPK..]
    ensures cell[OFF_BETA..OFF_PAYLOAD] == cell[OFF_BETA..][..BETA_LEN]
  {
  }

  /** Any change of the MAC alone is noticed: the hop the cell was built for refuses it. */
  lemma ChangedMacRefused(c: Suite, job: Job, i: nat, priv: Bytes32, cell: Bytes)
    requires DhAgrees(c) && job.Valid() && i < |job.hops| && c.pub(priv) == job.hops[i].onionPub
    requires |cell| == CELL_SIZE && cell != job.Cell(c, i)
    requires cell[..OFF_GAMMA] == job.Cell(c, i)[..OFF_GAMMA] && cell[OFF_BETA..] == job.Cell(c, i)[OFF_BETA..]
    ensures Process(c, cell, [priv]) == Err(MacMismatch)
  {
    hide Process, Job.Cell, DhAgrees;
    SplitCell(cell);
    SplitCell(job.Cell(c, i));
    SentHeader(c, job, i);
    RefusedAtHopIff(c, job, i, priv, cell);
  }

  /** Whatever else changes with it, a change of the header is noticed exactly if the MAC the cell
      carries is not the MAC of the new header; with the sender's MAC, unless the two headers
      collide. */
  lemma ChangedHeaderRefusedIff(c: Suite, job: Job, i: nat, priv: Bytes32, cell: Bytes)
    requires DhAgrees(c) && job.Valid() && i < |job.hops| && c.pub(priv) == job.hops[i].onionPub
    requires |cell| == CELL_SIZE && cell[0] == TYPE_ONION_SPHINX
    requires cell[OFF_EPK..OFF_BETA] == job.Cell(c, i)[OFF_EPK..OFF_BETA]
    ensures var mac := (b: Bytes) => c.mac16(c.kdf("norn-sphinx:mu:v1", c.dh(job.ephs[i], job.hops[i].onionPub)), b);
            Process(c, cell, [priv]) == Err(MacMismatch)
            <==> mac(cell[OFF_BETA..OFF_PAYLOAD]) != mac(job.Cell(c, i)[OFF_BETA..OFF_PAYLOAD])
  {
    hide Process, Job.Cell, DhAgrees;
    var sent := job.Cell(c, i);
    SentHeader(c, job, i);
    assert cell[OFF_EPK..OFF_GAMMA] == cell[OFF_EPK..OFF_BETA][..EPK_LEN] == sent[OFF_EPK..OFF_GAMMA];
    assert cell[OFF_GAMMA..OFF_BETA] == cell[OFF_EPK..OFF_BETA][EPK_LEN..] == sent[OFF_GAMMA..OFF_BETA];
    RefusedAtHopIff(c, job, i, priv, cell);
  }

  // ---------------------------------------------------------------- the other refusals

  /** `privs[j]` is the first key of the ring that matches. */
  ghost predicate FirstMatch(c: Suite, cell: Bytes, privs: seq<Bytes32>, j: nat)
    requires |cell| == CELL_SIZE
  {
    j < |privs| && Matches(c, cell, privs[j]) && forall k | 0 <= k < j :: !Matches(c, cell, privs[k])
  }

  lemma FoundAtFirstMatch(c: Suite, cell: Bytes, privs: seq<Bytes32>, j: nat)
    requires |cell| == CELL_SIZE && FirstMatch(c, cell, privs, j)
    ensures SecretFor(c, privs, cell) == Some(c.dh(privs[j], cell[OFF_EPK..OFF_GAMMA]))
  {
    hide Matches, Authenticates, SecretFor;
    forall k | 0 <= k <= j ensures Matches(c, cell, privs[k]) <==> Authenticates(c, privs[k], cell) {
      MatchesExactly(c, cell, privs[k]);
    }
    FirstAuthentic(c, privs, cell, j);
  }

  /** The first byte of the header under the keystream of a secret. */
  function FlagByte(c: Suite, s: Bytes32, cell: Bytes): u8
    requires |cell| == CELL_SIZE
  {
    XorByte(cell[OFF_BETA], c.stream(c.kdf("norn-sphinx:rho:v1", s))(0))
  }

  /** What happens to a cell that a key matches is decided by the flag alone, and at the exit by the
      length: forwarded on 0, delivered on 1 if the length fits, refused otherwise. What is delivered
      are the bytes behind the length, as many as it says. */
  lemma MatchedOutcome(c: Suite, cell: Bytes, privs: seq<Bytes32>, j: nat)
    requires WellFormed(cell) && FirstMatch(c, cell, privs, j)
    ensures var s := c.dh(privs[j], cell[OFF_EPK..OFF_GAMMA]);
            var flag, plain := FlagByte(c, s, cell), c.DecryptBlock(s, cell[OFF_PAYLOAD..]);
            var n := plain[0] as int + 256 * (plain[1] as int);
            var r := Process(c, cell, privs);
            && (r == Err(UnknownFlags) <==> flag > 1)
            && (r == Err(BadInnerLength) <==> flag == 1 && n > MAX_TRAFFIC_LEN)
            && (r.Ok? && r.value.Deliver? <==> flag == 1 && n <= MAX_TRAFFIC_LEN)
            && (r.Ok? && r.value.Forward? <==> flag == 0)
            && (r.Ok? && r.value.Deliver? ==> r.value.traffic == plain[2..2 + n])
            && (r.Ok? && r.value.Forward? ==> WellFormed(r.value.cell) && r.value.cell[OFF_PAYLOAD..] == plain)
  {
    hide Matches, SecretFor, Layout, Suite.DecryptBlock;
    FoundAtFirstMatch(c, cell, privs, j);
    var s := c.dh(privs[j], cell[OFF_EPK..OFF_GAMMA]);
    var beta := cell[OFF_BETA..OFF_PAYLOAD];
    MaskAt(RhoStream(c, s), 0, beta + Zeros(PER_HOP), 0);
    assert Unmasked(c, s, beta)[0] == FlagByte(c, s, cell);
  }

  // ---------------------------------------------------------------- what the exit sees

  lemma Prefix(s: Bytes, a: nat, b: nat, n: nat)
    requires a + n <= b <= |s|
    ensures s[a..b][..n] == s[a..a + n]
  {
  }

  lemma ExitShifted(c: Suite, job: Job, n: nat)
    requires job.Valid() && PER_HOP <= n <= BETA_LEN
    ensures job.Shifted(c, |job.hops| - 1)[..n] == [1] + job.exitFill + Zeros(16) + job.betaFill[..n - PER_HOP]
  {
    var head: Bytes := [1] + job.exitFill + Zeros(16);
    assert job.Shifted(c, |job.hops| - 1) == head + job.betaFill[..BETA_LEN - PER_HOP];
    assert |head| == PER_HOP && job.betaFill[..BETA_LEN - PER_HOP][..n - PER_HOP] == job.betaFill[..n - PER_HOP];
  }

  lemma ExitBeta(c: Suite, job: Job)
    requires job.Valid()
    ensures var i := |job.hops| - 1;
            var n := BETA_LEN - i * PER_HOP;
            PER_HOP <= n <= BETA_LEN && job.Beta(c, i)[..n] == Mask(RhoStream(c, job.Secret(c, i)), 0, job.Shifted(c, i))[0..n]
  {
    hide Mask, RhoStream, Job.Secret, Job.Shifted;
  }

  lemma CellBeta(c: Suite, job: Job, i: nat, n: nat)
    requires job.Valid() && i < |job.hops| && n <= BETA_LEN
    ensures job.Cell(c, i)[OFF_BETA..OFF_BETA + n] == job.Beta(c, i)[..n]
  {
    hide Layout, Job.Beta, Job.Gamma, Job.Payload;
    Prefix(job.Cell(c, i), OFF_BETA, OFF_PAYLOAD, n);
  }

  /** All that is under the exit's keystream, up to the filler: its flag, the random fill of its slot, no
      MAC, and the random fill of the header... */
  lemma ExitSees(c: Suite, job: Job, i: nat, n: nat)
    requires job.Valid() && i == |job.hops| - 1 && n + i * PER_HOP == BETA_LEN && n >= PER_HOP
    ensures Mask(c.stream(c.kdf("norn-sphinx:rho:v1", c.dh(job.ephs[i], job.hops[i].onionPub))), 0, job.Cell(c, i)[OFF_BETA..OFF_BETA + n])
            == [1] + job.exitFill + Zeros(16) + job.betaFill[..n - PER_HOP]
  {
    hide Mask, Zeros, Job.Cell, Job.Beta, Job.Shifted;
    var rho := RhoStream(c, job.Secret(c, i));
    var shifted := job.Shifted(c, i);
    ExitBeta(c, job);
    CellBeta(c, job, i, n);
    MaskSlice(rho, 0, shifted, 0, n);
    MaskCancels(rho, 0, shifted[0..n]);
    ExitShifted(c, job, n);
  }

  /** ...and under the payload's cipher the length, the traffic and the random padding. */
  lemma ExitReads(c: Suite, job: Job)
    requires job.Valid()
    ensures var i := |job.hops| - 1;
            c.DecryptBlock(c.dh(job.ephs[i], job.hops[i].onionPub), job.Cell(c, i)[OFF_PAYLOAD..])
            == [|job.traffic| % 256, |job.traffic| / 256] + job.traffic + job.pad
  {
    hide Layout, Suite.DecryptBlock, Suite.EncryptBlock, Job.Beta, Job.Gamma;
    var i := |job.hops| - 1;
    c.DecryptUndoesEncrypt(job.Secret(c, i), job.Payload(c, i + 1));
    assert job.Cell(c, i)[OFF_PAYLOAD..] == job.Payload(c, i);
  }
}
