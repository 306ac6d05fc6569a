/**
 * The ring-buffer reader does what the drivers' reader promises: a forward simulation, operation
 * by operation, in which both show the same bytes.
 */
module ReaderLink {
  import opened Dialect
  import opened Capacity
  import opened RingReader
  import Driver

  /**
   * `whole` is the drivers' reader over the input, `ring` a reader whose source delivers the input
   * from `start` on: the same bytes are visible, the same are still to come, and the chunk ends at
   * the same byte.
   */
  ghost predicate Linked(whole: Driver.ChunkReader, ring: RingBufChunkReader, start: nat)
    reads whole, whole.mem, ring, ring.buf.Self(), ring.buf.Frame()
  {
    && whole.Valid() && ring.Valid() && whole !in ring.buf.Frame() && whole !in ring.buf.Self() && whole.mem !in ring.buf.Frame()
    && whole.base == start + ring.base && whole.filled == start + ring.pos && whole.mem.Length == start + |ring.stream|
    && whole.chunkEnd == start + ring.chunkEnd
    && whole.mem[whole.base..whole.filled] == ring.buf.Contents() && whole.mem[whole.filled..] == ring.stream[ring.pos..]
    && (ring.fileRemaining.Some? ==> ring.pos + ring.fileRemaining.value == |ring.stream|)
  }

  /** What a parser sees of the two is the same. */
  lemma SeesTheSame(whole: Driver.ChunkReader, ring: RingBufChunkReader, start: nat)
    requires Linked(whole, ring, start)
    ensures whole.RemainingInChunk() == ring.chunkRemaining
    ensures whole.filled - whole.base == ring.buf.Readable() && whole.mem[whole.base..whole.filled] == ring.buf.Contents()
    ensures whole.filled == whole.mem.Length <==> ring.AtEnd()
  {
    hide RingBuf.Contents, RingBuf.Valid, RingBuf.Readable;
  }

  /** Two fresh readers over the same input are linked. */
  method Open(data: seq<byte>, start: nat, chunkEnd: nat, buf: RingBuf, known: bool, readCap: nat) returns (whole: Driver.ChunkReader, ring: RingBufChunkReader)
    requires start <= |data| && start <= chunkEnd && buf.Valid() && buf.Contents() == [] && readCap >= 1
    ensures Linked(whole, ring, start) && ring.buf == buf
    ensures whole.mem[..] == data && whole.base == start && whole.chunkEnd == chunkEnd
  {
    hide RingBuf.Contents, RingBuf.Valid, RingBuf.Readable;
    ring := new RingBufChunkReader(buf, data[start..], if known then Some(|data| - start) else None, chunkEnd - start, readCap);
    whole := new Driver.ChunkReader(data, start, chunkEnd);
    assert whole.mem[start..] == whole.mem[..][start..] == data[start..];
    assert whole.mem[start..start] == [];
  }

  /**
   * Unless its buffer may not grow, a fill of the ring buffer is one that the drivers' reader may
   * make: bytes only arrive, in order, and a short answer means that nothing more will come.
   */
  method Fill(whole: Driver.ChunkReader, ring: RingBufChunkReader, start: nat, n: nat) returns (ok: bool)
    requires Linked(whole, ring, start)
    modifies whole`filled, ring`pos, ring`fileRemaining, ring.buf.Frame()
    ensures Linked(whole, ring, start) && fresh(ring.buf.Frame() - old(ring.buf.Frame()))
    ensures whole.Valid() && old(whole.filled) <= whole.filled && whole.mem[..] == old(whole.mem[..])
    ensures ok ==> whole.base + n <= whole.filled || whole.filled == whole.mem.Length
    ensures !ok ==> ring.buf.Readable() == ring.buf.Capacity() < n && forall c :: !Suffices(c, n, ring.buf.Limit())
  {
    hide RingBuf.Contents, RingBuf.Valid, RingBuf.Readable, RingBuf.Capacity, Suffices;
    ghost var p, from := ring.pos, whole.filled;
    ok := ring.Fill(n);
    whole.filled := start + ring.pos;
    Arrived(whole.mem[..], ring.stream, whole.base, from, whole.filled, p, ring.pos);
  }

  lemma Arrived(m: seq<byte>, stream: seq<byte>, base: nat, from: nat, upTo: nat, p: nat, q: nat)
    requires base <= from <= upTo <= |m| && p <= q <= |stream| && m[from..] == stream[p..] && upTo - from == q - p
    ensures m[base..upTo] == m[base..from] + stream[p..q] && m[upTo..] == stream[q..]
  {
    assert m[from..upTo] == m[from..][..upTo - from] == stream[p..][..q - p] == stream[p..q];
    assert m[upTo..] == m[from..][upTo - from..] == stream[p..][q - p..];
  }

  lemma Dropped(m: seq<byte>, base: nat, filled: nat, n: nat)
    requires base + n <= filled <= |m|
    ensures m[base..filled][n..] == m[base + n..filled]
  {
  }

  method Consume(whole: Driver.ChunkReader, ring: RingBufChunkReader, ghost start: nat, n: nat)
    requires Linked(whole, ring, start) && n <= ring.buf.Readable()
    modifies whole`base, ring`base, ring`chunkRemaining, ring.buf.Frame()
    ensures Linked(whole, ring, start) && ring.buf.Frame() == old(ring.buf.Frame())
    ensures whole.base == old(whole.base) + n && whole.mem[..] == old(whole.mem[..])
  {
    hide RingBuf.Contents, RingBuf.Valid, RingBuf.Readable;
    Dropped(whole.mem[..], whole.base, whole.filled, n);
    ring.Consume(n);
    whole.Consume(n);
  }

  /** A byte that a stepper moves in the visible buffer. */
  method Put(whole: Driver.ChunkReader, ring: RingBufChunkReader, ghost start: nat, i: nat, b: byte)
    requires Linked(whole, ring, start) && i < ring.buf.Readable()
    modifies whole.mem, ring.buf.Frame()
    ensures Linked(whole, ring, start) && ring.buf.Frame() == old(ring.buf.Frame())
    ensures whole.base + i < whole.filled && whole.mem[..] == old(whole.mem[..])[whole.base + i := b]
  {
    hide RingBuf.Contents, RingBuf.Valid, RingBuf.Readable;
    ring.buf.Put(i, b);
    whole.mem[whole.base + i] := b;
  }
}
