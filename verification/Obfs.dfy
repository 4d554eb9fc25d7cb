/**
 Traffic obfuscation: a hash in counter mode makes a keystream, a writer XORs it into what it accepts
 and a reader XORs it out of what arrives. The transport between them takes and hands out any number
 of bytes at a time, stalls, or fails.
 */
module Obfs {
  import opened Words

  const BLOCK: nat := 64

  type Block = b: Bytes | |b| == 64 witness Zeros(64)

  /** The hash of the connection key and a block counter. */
  type Blocks = u64 -> Block

  /** The block and offset a stream position is taken from. */
  function Cell(i: nat): (u64, nat) {
    ((i / BLOCK) % U64_MODULUS, i % BLOCK)
  }

  function KeyByte(blocks: Blocks, i: nat): u8 {
    blocks(Cell(i).0)[Cell(i).1]
  }

  function Stream(blocks: Blocks): nat -> u8 {
    (i: nat) => KeyByte(blocks, i)
  }

  lemma CellRepeats(i: nat, k: nat)
    ensures Cell(i) == Cell(k) <==> i % (BLOCK * U64_MODULUS) == k % (BLOCK * U64_MODULUS)
  {
    Split(i);
    Split(k);
  }

  /** A stream that is nothing but one mark. */
  function Marked(cell: (u64, nat)): Blocks {
    (c: u64) => seq(64, o => if (c, o) == cell then 1 else 0)
  }

  /** Two places of the keystream have the same byte under every key exactly when they are a multiple
      of 2^70 bytes apart. */
  lemma StreamRepeats(i: nat, k: nat)
    ensures (forall blocks: Blocks :: Stream(blocks)(i) == Stream(blocks)(k))
       <==> i % (BLOCK * U64_MODULUS) == k % (BLOCK * U64_MODULUS)
  {
    hide Cell;
    CellRepeats(i, k);
    if Cell(i) != Cell(k) {
      MarkedAt(Cell(i), i);
      MarkedAt(Cell(i), k);
      assert Stream(Marked(Cell(i)))(i) != Stream(Marked(Cell(i)))(k);
    }
  }

  lemma MarkedAt(cell: (u64, nat), i: nat)
    ensures Stream(Marked(cell))(i) == if Cell(i) == cell then 1 else 0
  {
  }

  lemma Split(i: nat)
    ensures i % (BLOCK * U64_MODULUS) == BLOCK * Cell(i).0 + Cell(i).1
  {
    var q := i / BLOCK;
    assert i == BLOCK * q + i % BLOCK;
    assert q == U64_MODULUS * (q / U64_MODULUS) + q % U64_MODULUS;
  }

  lemma CellOf(q: nat, r: nat)
    requires r < BLOCK
    ensures Cell(BLOCK * q + r) == (q % U64_MODULUS, r)
  {
    assert (BLOCK * q + r) / BLOCK == q;
  }

  class KeyStream {
    const blocks: Blocks
    var counter: u64
    var block: Block
    var pos: nat
    /** Blocks made and bytes used so far. */
    ghost var refills: nat
    ghost var used: nat

    ghost predicate Valid() reads this {
      && pos <= BLOCK && used + BLOCK == BLOCK * refills + pos
      && counter == refills % U64_MODULUS
      && (pos < BLOCK ==> refills > 0 && block == blocks((refills - 1) % U64_MODULUS))
    }

    constructor (blocks: Blocks)
      ensures Valid() && used == 0 && this.blocks == blocks
    {
      this.blocks := blocks;
      counter, block, pos, refills, used := 0, Zeros(64), BLOCK, 0, 0;
    }

    method Refill()
      requires Valid() && pos == BLOCK
      modifies this
      ensures Valid() && pos == 0 && used == old(used)
    {
      block := blocks(counter);
      counter := (counter + 1) % U64_MODULUS;
      pos := 0;
      refills := refills + 1;
    }

    /** XOR the stream into the data between `from` and `to`, advancing by as many bytes. */
    method Apply(data: array<u8>, from: nat, to: nat)
      requires Valid() && from <= to <= data.Length
      modifies this, data
      ensures Valid() && used == old(used) + to - from
      ensures data[..from] == old(data[..from]) && data[to..] == old(data[to..])
      ensures data[from..to] == Mask(Stream(blocks), old(used), old(data[from..to]))
    {
      hide Mask, XorByte, KeyByte;
      for i := from to to
        invariant Valid() && used == old(used) + i - from
        invariant forall k | 0 <= k < data.Length && !(from <= k < i) :: data[k] == old(data[k])
        invariant forall k | from <= k < i :: data[k] == XorByte(old(data[k]), KeyByte(blocks, old(used) + k - from))
      {
        var key := NextByte();
        data[i] := XorByte(data[i], key);
      }
      MaskedBytes(blocks, old(used), old(data[from..to]), data[from..to]);
    }

    method NextByte() returns (b: u8)
      requires Valid()
      modifies this
      ensures Valid() && used == old(used) + 1 && b == KeyByte(blocks, old(used))
    {
      if pos >= BLOCK {
        Refill();
      }
      CellOf(refills - 1, pos);
      b := block[pos];
      pos := pos + 1;
      used := used + 1;
    }
  }

  lemma MaskedBytes(blocks: Blocks, off: nat, data: Bytes, masked: Bytes)
    requires |masked| == |data|
    requires forall k | 0 <= k < |data| :: masked[k] == XorByte(data[k], KeyByte(blocks, off + k))
    ensures masked == Mask(Stream(blocks), off, data)
  {
    hide XorByte;
    forall k: nat | k < |data| ensures masked[k] == Mask(Stream(blocks), off, data)[k] {
      MaskAt(Stream(blocks), off, data, k);
    }
  }

  // ---------------------------------------------------------------- the transport

  datatype Poll<+T> = Pending | Failed | Ready(value: T)

  /** How the transport answers a write: it stalls, breaks, or takes up to so many bytes. */
  datatype Reply = Stall | Break | Take(n: nat)

  /** A byte stream in one direction: what it took and how much of that it handed out. Its answers to
      writes may be anything. */
  class Pipe {
    const script: nat -> Reply
    var asked: nat
    var sent: Bytes
    var got: nat

    ghost predicate Valid() reads this {
      got <= |sent|
    }

    constructor (script: nat -> Reply)
      ensures Valid() && this.script == script && asked == 0 && sent == [] && got == 0
    {
      this.script, asked, sent, got := script, 0, [], 0;
    }

    method Stalled() returns (stalled: bool, broken: bool)
    {
      stalled, broken := *, *;
    }

    method PollWrite(buf: Bytes) returns (p: Poll<nat>)
      requires Valid()
      modifies this`sent, this`asked
      ensures Valid() && asked == old(asked) + 1
      ensures p == (match script(old(asked))
                    case Stall => Pending
                    case Break => Failed
                    case Take(n) => Ready(if n <= |buf| then n else |buf|))
      ensures sent == old(sent) + (if p.Ready? then buf[..p.value] else [])
    {
      var reply := script(asked);
      asked := asked + 1;
      match reply
      case Stall => p := Pending;
      case Break => p := Failed;
      case Take(n) =>
        p := Ready(if n <= |buf| then n else |buf|);
        sent := sent + buf[..p.value];
    }

    /** Fill some of the buffer behind its first `filled` bytes. */
    method PollRead(buf: array<u8>, filled: nat) returns (p: Poll<nat>)
      requires Valid() && filled <= buf.Length
      modifies this`got, buf
      ensures Valid()
      ensures p.Ready? ==> old(got) + p.value == got && filled + p.value <= buf.Length
      ensures buf[..filled] == old(buf[..filled])
      ensures p.Ready? ==> buf[filled..filled + p.value] == sent[old(got)..got]
      ensures !p.Ready? ==> got == old(got)
    {
      var stalled, broken := Stalled();
      if stalled {
        return if broken then Failed else Pending;
      }
      var n :| 0 <= n && got + n <= |sent| && filled + n <= buf.Length by {
        assert got + 0 <= |sent| && filled + 0 <= buf.Length;
      }
      for i := 0 to n
        invariant got == old(got)
        invariant forall k | 0 <= k < filled :: buf[k] == old(buf[k])
        invariant forall k | filled <= k < filled + i :: buf[k] == sent[got + k - filled]
      {
        buf[filled + i] := sent[got + i];
      }
      got := got + n;
      p := Ready(n);
    }
  }

  // ---------------------------------------------------------------- writer

  class CipherWriter {
    const inner: Pipe
    const ks: KeyStream
    var pending: Bytes
    var sent: nat
    /** Every byte taken over from the caller. */
    ghost var accepted: Bytes

    /** What the transport took and what is still pending are the accepted bytes, XORed. */
    ghost predicate Valid() reads this, inner, ks {
      && inner.Valid() && ks.Valid() && ks.used == |accepted| && sent <= |pending|
      && inner.sent + pending[sent..] == Mask(Stream(ks.blocks), 0, accepted)
    }

    constructor (inner: Pipe, blocks: Blocks)
      requires inner.Valid() && inner.sent == []
      ensures Valid() && fresh(ks) && ks.blocks == blocks && this.inner == inner
      ensures accepted == [] && pending == []
    {
      this.inner := inner;
      ks := new KeyStream(blocks);
      pending, sent, accepted := [], 0, [];
    }

    /** Hand over what is pending; done only when all of it is. A transport that takes nothing fails. */
    method Drain() returns (p: Poll<()>)
      requires Valid()
      modifies this, inner`sent, inner`asked
      ensures Valid() && accepted == old(accepted) && inner.got == old(inner.got)
      ensures old(inner.sent) <= inner.sent
      ensures |inner.sent| - |old(inner.sent)| == old(|pending| - sent) - (|pending| - sent)
      ensures p.Ready? ==> pending == [] && inner.sent == Mask(Stream(ks.blocks), 0, accepted)
      ensures !p.Ready? ==> sent < |pending|
      ensures old(sent == |pending|) ==> p.Ready? && inner.asked == old(inner.asked)
      ensures old(sent < |pending| && inner.script(inner.asked).Break?) ==> p.Failed?
      ensures !p.Ready? ==> inner.asked > old(inner.asked) &&
                            var last := inner.script(inner.asked - 1);
                            if p.Pending? then last == Stall else last.Break? || last == Take(0)
    {
      hide Mask, KeyStream.Valid, Stream;
      while sent < |pending|
        invariant Valid() && accepted == old(accepted) && inner.got == old(inner.got)
        invariant old(inner.sent) <= inner.sent
        invariant |inner.sent| - |old(inner.sent)| == old(|pending| - sent) - (|pending| - sent)
        invariant pending == old(pending) && inner.asked >= old(inner.asked)
        invariant (sent == old(sent) && inner.asked == old(inner.asked)) || !old(inner.script(inner.asked).Break? || sent == |pending|)
        decreases |pending| - sent
      {
        var q := inner.PollWrite(pending[sent..]);
        match q {
          case Ready(n) =>
            if n == 0 {
              return Failed;
            }
            assert pending[sent..][..n] + pending[sent + n..] == pending[sent..];
            sent := sent + n;
          case Failed => return Failed;
          case Pending => return Pending;
        }
      }
      assert pending[sent..] == [];
      pending, sent := [], 0;
      return Ready(());
    }

    /** Take over a buffer, XORed with the next stretch of the stream. */
    method Obfuscate(buf: Bytes)
      requires Valid() && pending == []
      modifies this, ks
      ensures Valid() && accepted == old(accepted) + buf && pending == Mask(Stream(ks.blocks), |old(accepted)|, buf)
    {
      hide Mask, KeyByte, KeyStream.Valid;
      var data := new u8[|buf|](i requires 0 <= i < |buf| => buf[i]);
      assert data[0..|buf|] == data[..] == buf;
      MaskConcat(Stream(ks.blocks), 0, accepted, buf);
      ks.Apply(data, 0, |buf|);
      pending, sent := data[..], 0;
      assert pending == data[0..|buf|] == pending[0..];
      accepted := accepted + buf;
    }

    /** A failure has taken the buffer over exactly when the transport took everything that was
        pending before it. */
    method PollWrite(buf: Bytes) returns (p: Poll<nat>)
      requires Valid()
      modifies this, ks, inner`sent, inner`asked
      ensures Valid() && inner.got == old(inner.got) && old(inner.sent) <= inner.sent
      ensures p.Ready? ==> p.value == |buf| && accepted == old(accepted) + buf
      ensures p.Pending? ==> accepted == old(accepted) && inner.asked > 0 && inner.script(inner.asked - 1) == Stall
      ensures p.Failed? ==>
                accepted == if buf != [] && |inner.sent| >= |old(inner.sent)| + old(|pending| - sent)
                            then old(accepted) + buf else old(accepted)
      ensures buf != [] && old(pending == [] && inner.script(inner.asked).Break?) ==> p.Failed?
    {
      var first := Drain();
      if !first.Ready? {
        return if first.Pending? then Pending else Failed;
      }
      if buf == [] {
        assert accepted + buf == accepted;
        return Ready(0);
      }
      Obfuscate(buf);
      var rest := Drain();
      if rest.Failed? {
        return Failed;
      }
      return Ready(|buf|);
    }
  }

  // ---------------------------------------------------------------- reader

  class CipherReader {
    const inner: Pipe
    const ks: KeyStream
    /** Every byte handed to the caller. */
    ghost var delivered: Bytes

    ghost predicate Valid() reads this, inner, ks {
      && inner.Valid() && ks.Valid() && ks.used == inner.got
      && delivered == Mask(Stream(ks.blocks), 0, inner.sent[..inner.got])
    }

    constructor (inner: Pipe, blocks: Blocks)
      requires inner.Valid() && inner.got == 0
      ensures Valid() && fresh(ks) && ks.blocks == blocks && this.inner == inner && delivered == []
    {
      this.inner := inner;
      ks := new KeyStream(blocks);
      delivered := [];
    }

    /** Read behind the first `filled` bytes of the buffer. */
    method PollRead(buf: array<u8>, filled: nat) returns (p: Poll<nat>)
      requires Valid() && filled <= buf.Length
      modifies this, ks, inner`got, buf
      ensures Valid() && buf[..filled] == old(buf[..filled])
      ensures p.Ready? ==> filled + p.value <= buf.Length && inner.got == old(inner.got) + p.value
      ensures p.Ready? ==> delivered == old(delivered) + buf[filled..filled + p.value]
      ensures !p.Ready? ==> delivered == old(delivered)
    {
      hide Mask, KeyByte, KeyStream.Valid;
      p := inner.PollRead(buf, filled);
      if p.Ready? {
        var n := p.value;
        ghost var chunk := inner.sent[old(inner.got)..inner.got];
        assert buf[..filled] == old(buf[..filled]) && buf[filled..filled + n] == chunk;
        ks.Apply(buf, filled, filled + n);
        MaskConcat(Stream(ks.blocks), 0, inner.sent[..old(inner.got)], chunk);
        assert inner.sent[..inner.got] == inner.sent[..old(inner.got)] + chunk;
        delivered := delivered + buf[filled..filled + n];
      }
    }
  }

  // ---------------------------------------------------------------- both ends

  /** The stream for one direction, from the shared key and the nonce its sender chose. */
  type Keyed = (Bytes, Bytes) -> Blocks

  /** A writer and the reader at the other end of its transport. */
  class Link {
    const writer: CipherWriter
    const reader: CipherReader

    ghost predicate Valid() reads this, writer, reader, writer.inner, writer.ks, reader.inner, reader.ks {
      && writer.Valid() && reader.Valid() && writer.inner == reader.inner
      && writer.ks != reader.ks && writer.ks.blocks == reader.ks.blocks
    }

    /** Both ends know the shared key; the nonce crossed in the clear. */
    constructor (keyed: Keyed, psk: Bytes, nonce: Bytes, script: nat -> Reply)
      ensures Valid() && writer.accepted == [] && reader.delivered == []
      ensures writer.pending == [] && writer.inner.script == script && writer.inner.asked == 0
      ensures writer.ks.blocks == keyed(psk, nonce)
      ensures fresh(writer) && fresh(reader) && fresh(writer.inner) && fresh(writer.ks) && fresh(reader.ks)
    {
      var pipe := new Pipe(script);
      writer := new CipherWriter(pipe, keyed(psk, nonce));
      reader := new CipherReader(pipe, keyed(psk, nonce));
    }

    method Write(buf: Bytes) returns (p: Poll<nat>)
      requires Valid()
      modifies writer, writer.ks, writer.inner`sent, writer.inner`asked
      ensures Valid() && reader.delivered == old(reader.delivered)
      ensures p.Ready? ==> p.value == |buf| && writer.accepted == old(writer.accepted) + buf
      ensures p.Pending? ==> writer.accepted == old(writer.accepted)
      ensures p.Failed? ==>
                writer.accepted == if buf != [] && |writer.inner.sent| >= |old(writer.inner.sent)| + old(|writer.pending| - writer.sent)
                                   then old(writer.accepted) + buf else old(writer.accepted)
      ensures buf != [] && old(writer.pending == [] && writer.inner.script(writer.inner.asked).Break?) ==> p.Failed?
    {
      hide Mask, KeyStream.Valid;
      p := writer.PollWrite(buf);
      assert writer.inner.sent[..writer.inner.got] == old(writer.inner.sent[..writer.inner.got]);
    }

    method Flush() returns (p: Poll<()>)
      requires Valid()
      modifies writer, writer.inner`sent, writer.inner`asked
      ensures Valid() && reader.delivered == old(reader.delivered) && writer.accepted == old(writer.accepted)
      ensures p.Ready? ==> writer.pending == []
    {
      hide Mask, KeyStream.Valid;
      p := writer.Drain();
      assert writer.inner.sent[..writer.inner.got] == old(writer.inner.sent[..writer.inner.got]);
    }

    method Read(buf: array<u8>, filled: nat) returns (p: Poll<nat>)
      requires Valid() && filled <= buf.Length
      modifies reader, reader.ks, reader.inner`got, buf
      ensures Valid() && writer.accepted == old(writer.accepted)
      ensures p.Ready? ==> filled + p.value <= buf.Length && reader.delivered == old(reader.delivered) + buf[filled..filled + p.value]
      ensures !p.Ready? ==> reader.delivered == old(reader.delivered)
    {
      hide Mask, KeyStream.Valid;
      p := reader.PollRead(buf, filled);
    }

    /** After any calls, in any chunks and with any stalls or failures: what the reader delivered is a
        prefix of what the writer accepted, and all of it once nothing is pending or in transit. */
    lemma Transparent()
      requires Valid()
      ensures reader.delivered <= writer.accepted
      ensures writer.pending == [] && writer.inner.got == |writer.inner.sent| ==> reader.delivered == writer.accepted
    {
      PrefixOpens(Stream(writer.ks.blocks), writer.accepted, writer.inner.sent + writer.pending[writer.sent..], writer.inner.got);
      assert (writer.inner.sent + writer.pending[writer.sent..])[..writer.inner.got] == writer.inner.sent[..writer.inner.got];
    }
  }

  /** On a transport that breaks, the first write fails, yet its bytes are accepted; a caller that
      then succeeds in writing them again has them accepted twice. */
  method FailedWriteIsKept(keyed: Keyed, psk: Bytes, nonce: Bytes, buf: Bytes, later: nat -> Reply)
    returns (link: Link, first: Poll<nat>, second: Poll<nat>)
    requires buf != []
    ensures fresh(link) && link.Valid() && first.Failed?
    ensures second.Ready? ==> link.writer.accepted == buf + buf
    ensures second.Pending? ==> link.writer.accepted == buf
  {
    link := new Link(keyed, psk, nonce, (i: nat) => if i == 0 then Break else later(i));
    first := link.Write(buf);
    assert link.writer.accepted == buf;
    second := link.Write(buf);
  }

  lemma PrefixOpens(stream: nat -> u8, plain: Bytes, wire: Bytes, n: nat)
    requires wire == Mask(stream, 0, plain) && n <= |wire|
    ensures Mask(stream, 0, wire[..n]) == plain[..n]
  {
    MaskSlice(stream, 0, plain, 0, n);
    MaskCancels(stream, 0, plain[..n]);
    assert plain[0..n] == plain[..n] && wire[0..n] == wire[..n];
  }
}
