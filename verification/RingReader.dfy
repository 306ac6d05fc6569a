/** One byte queue behind two buffers, and the chunk reader that fills it from a source. */
module RingReader {
  import opened Dialect
  import opened Capacity
  import LinearBuf
  import MirroredBuf

  /** The buffer of the target: mirrored where memory can be mapped twice, linear elsewhere. */
  datatype RingBuf = Mirrored(m: MirroredBuf.MirroredBuf) | Linear(l: LinearBuf.LinearBuf) {
    ghost function Self(): set<object> {
      match this
      case Mirrored(m) => {m}
      case Linear(l) => {l}
    }

    ghost function Frame(): set<object>
      reads Self()
    {
      match this
      case Mirrored(m) => {m, m.mem}
      case Linear(l) => {l, l.buf}
    }

    predicate Valid()
      reads Self()
    {
      match this
      case Mirrored(m) => m.Valid()
      case Linear(l) => l.Valid()
    }

    function Contents(): seq<byte>
      requires Valid()
      reads Self(), Frame()
    {
      match this
      case Mirrored(m) => m.Contents()
      case Linear(l) => l.Contents()
    }

    function Unused(): seq<byte>
      requires Valid()
      reads Self(), Frame()
    {
      match this
      case Mirrored(m) => m.Unused()
      case Linear(l) => l.Unused()
    }

    function Capacity(): nat
      reads Self(), Frame()
    {
      match this
      case Mirrored(m) => m.mem.Length
      case Linear(l) => l.buf.Length
    }

    function Limit(): Option<nat> {
      match this
      case Mirrored(m) => m.limit
      case Linear(l) => l.limit
    }

    function Readable(): (n: nat)
      requires Valid()
      reads Self(), Frame()
      ensures n == |Contents()| <= Capacity() && Capacity() >= 1
    {
      match this
      case Mirrored(m) => m.Readable()
      case Linear(l) => l.Readable()
    }

    function Writable(): nat
      requires Valid()
      reads Self(), Frame()
    {
      Capacity() - Readable()
    }

    lemma CapacityIsPow2()
      requires Valid()
      ensures IsPow2(Capacity())
    {
    }

    method Offer(src: seq<byte>)
      requires Valid() && |src| <= Writable()
      modifies Frame()
      ensures Valid() && Frame() == old(Frame()) && Capacity() == old(Capacity()) && Contents() == old(Contents())
      ensures |Unused()| == Writable() && Unused()[..|src|] == src
    {
      match this
      case Mirrored(m) => m.Offer(src);
      case Linear(l) => l.Offer(src);
    }

    method Produce(n: nat)
      requires Valid() && n <= |Unused()|
      modifies Frame()
      ensures Valid() && Frame() == old(Frame()) && Capacity() == old(Capacity()) && Contents() == old(Contents() + Unused()[..n])
    {
      match this
      case Mirrored(m) => m.Produce(n);
      case Linear(l) => l.Produce(n);
    }

    method Consume(n: nat)
      requires Valid() && n <= Readable()
      modifies Frame()
      ensures Valid() && Frame() == old(Frame()) && Capacity() == old(Capacity()) && Contents() == old(Contents()[n..])
    {
      match this
      case Mirrored(m) => m.Consume(n);
      case Linear(l) => l.Consume(n);
    }

    method Reset()
      requires Valid()
      modifies Frame()
      ensures Valid() && Frame() == old(Frame()) && Capacity() == old(Capacity()) && Contents() == []
    {
      match this
      case Mirrored(m) => m.Reset();
      case Linear(l) => l.Reset();
    }

    method Put(i: nat, b: byte)
      requires Valid() && i < Readable()
      modifies Frame()
      ensures Valid() && Frame() == old(Frame()) && Capacity() == old(Capacity()) && Contents() == old(Contents()[i := b])
    {
      match this
      case Mirrored(m) => m.Put(i, b);
      case Linear(l) => l.Put(i, b);
    }

    method Grow() returns (ok: bool)
      requires Valid()
      modifies Frame()
      ensures Valid() && fresh(Frame() - old(Frame())) && Contents() == old(Contents())
      ensures ok <==> 2 * old(Capacity()) <= MAX_CAPACITY && (Limit().Some? ==> 2 * old(Capacity()) <= Limit().value)
      ensures Capacity() == if ok then 2 * old(Capacity()) else old(Capacity())
    {
      match this
      case Mirrored(m) => ok := m.Grow();
      case Linear(l) => ok := l.Grow();
    }
  }

  /** The buffer of a target, with the capacity it grants. */
  method NewBuf(mirrored: bool, capacity: nat, limit: Option<nat>, granularity: nat) returns (r: Option<RingBuf>)
    requires IsPow2(granularity)
    ensures r.Some? <==> CheckedCapacity(capacity, limit, granularity).Some?
    ensures r.Some? ==>
      && r.value.Valid() && r.value.Mirrored? == mirrored && fresh(r.value.Frame()) && r.value.Contents() == []
      && r.value.Capacity() == CheckedCapacity(capacity, limit, granularity).value && r.value.Limit() == limit
  {
    GrantedCapacity(capacity, limit, granularity, 1);
    var c := CheckedCapacity(capacity, limit, granularity);
    if c.None? {
      return None;
    }
    if mirrored {
      var m := new MirroredBuf.MirroredBuf(c.value, limit);
      r := Some(Mirrored(m));
    } else {
      var l := new LinearBuf.LinearBuf(c.value, limit);
      r := Some(Linear(l));
    }
  }

  datatype Op = Append(src: seq<byte>) | Drop(n: nat) | Overwrite(i: nat, b: byte) | Widen | Clear

  /** A queue of bounded length, before and after an operation that fits it. */
  datatype Queue = Queue(bytes: seq<byte>, capacity: nat)

  predicate Fits(q: Queue, op: Op) {
    match op
    case Append(src) => |q.bytes| + |src| <= q.capacity
    case Drop(n) => n <= |q.bytes|
    case Overwrite(i, _) => i < |q.bytes|
    case Widen => true
    case Clear => true
  }

  function After(q: Queue, op: Op, limit: Option<nat>): Queue
    requires Fits(q, op)
  {
    match op
    case Append(src) => q.(bytes := q.bytes + src)
    case Drop(n) => q.(bytes := q.bytes[n..])
    case Overwrite(i, b) => q.(bytes := q.bytes[i := b])
    case Widen => q.(capacity := if 2 * q.capacity <= MAX_CAPACITY && (limit.Some? ==> 2 * q.capacity <= limit.value) then 2 * q.capacity else q.capacity)
    case Clear => q.(bytes := [])
  }

  /** Operations that each fit the queue the ones before them leave. */
  predicate AllFit(q: Queue, ops: seq<Op>, limit: Option<nat>)
    decreases |ops|
  {
    ops != [] ==> Fits(q, ops[0]) && AllFit(After(q, ops[0], limit), ops[1..], limit)
  }

  function Replay(q: Queue, ops: seq<Op>, limit: Option<nat>): Queue
    requires AllFit(q, ops, limit)
    decreases |ops|
  {
    if ops == [] then q else Replay(After(q, ops[0], limit), ops[1..], limit)
  }

  /** Whatever is done to it, and whichever it is, a buffer holds what the queue holds. */
  method MatchesModel(rb: RingBuf, ops: seq<Op>)
    requires rb.Valid() && AllFit(Queue(rb.Contents(), rb.Capacity()), ops, rb.Limit())
    modifies rb.Frame()
    ensures rb.Valid() && fresh(rb.Frame() - old(rb.Frame()))
    ensures Queue(rb.Contents(), rb.Capacity()) == Replay(old(Queue(rb.Contents(), rb.Capacity())), ops, rb.Limit())
  {
    var i := 0;
    ghost var start := Queue(rb.Contents(), rb.Capacity());
    assert ops[0..] == ops;
    while i < |ops|
      invariant 0 <= i <= |ops| && rb.Valid() && fresh(rb.Frame() - old(rb.Frame()))
      invariant AllFit(Queue(rb.Contents(), rb.Capacity()), ops[i..], rb.Limit())
      invariant Replay(Queue(rb.Contents(), rb.Capacity()), ops[i..], rb.Limit()) == Replay(start, ops, rb.Limit())
    {
      assert ops[i..][0] == ops[i] && ops[i..][1..] == ops[i + 1..];
      match ops[i] {
        case Append(src) =>
          rb.Offer(src);
          rb.Produce(|src|);
        case Drop(n) => rb.Consume(n);
        case Overwrite(k, b) => rb.Put(k, b);
        case Widen => var ok := rb.Grow();
        case Clear => rb.Reset();
      }
      i := i + 1;
    }
  }

  /**
   * A chunk reader over a buffer and a byte source: `stream` is what the source delivers, `pos`
   * of its bytes are read and `base` of those consumed.
   */
  class RingBufChunkReader {
    const buf: RingBuf
    const stream: seq<byte>
    var pos: nat
    ghost var base: nat
    ghost const chunkEnd: nat
    /** Bytes the source still has, where that is known. */
    var fileRemaining: Option<nat>
    var chunkRemaining: nat
    /** No more is asked for in one read. */
    const readCap: nat

    ghost predicate Valid()
      reads this, buf.Self(), buf.Frame()
    {
      && this !in buf.Frame() && this !in buf.Self() && buf.Valid()
      && base <= pos <= |stream| && buf.Readable() == pos - base
      && chunkRemaining == chunkEnd - Least(base, chunkEnd) && readCap >= 1
    }

    /** Nothing more will come. */
    predicate AtEnd()
      reads this
    {
      pos == |stream| || fileRemaining == Some(0)
    }

    constructor (buf: RingBuf, stream: seq<byte>, fileRemaining: Option<nat>, chunkRemaining: nat, readCap: nat)
      requires buf.Valid() && buf.Contents() == [] && readCap >= 1
      ensures Valid() && this.buf == buf && this.stream == stream && pos == base == 0
      ensures this.fileRemaining == fileRemaining && this.chunkRemaining == chunkEnd == chunkRemaining && this.readCap == readCap
    {
      this.buf, this.stream, pos, base, chunkEnd := buf, stream, 0, 0, chunkRemaining;
      this.fileRemaining, this.chunkRemaining, this.readCap := fileRemaining, chunkRemaining, readCap;
    }

    /** One read: the source delivers as many of the bytes asked for as it likes, but some unless it is at its end. */
    method ReadIntoBuf() returns (n: nat)
      requires Valid() && buf.Writable() >= 1
      modifies `pos, `fileRemaining, buf.Frame()
      ensures Valid() && buf.Frame() == old(buf.Frame()) && buf.Capacity() == old(buf.Capacity())
      ensures pos == old(pos) + n && buf.Contents() == old(buf.Contents()) + stream[old(pos)..pos]
      ensures fileRemaining == if old(fileRemaining).Some? then Some(old(fileRemaining.value) - n) else None
      ensures old(fileRemaining).Some? ==> n <= old(fileRemaining.value)
      ensures n == 0 <==> old(AtEnd())
    {
      hide RingBuf.Contents, RingBuf.Unused, RingBuf.Frame, RingBuf.Valid, RingBuf.Capacity, RingBuf.Readable;
      var toRead := Least(buf.Writable(), readCap);
      if fileRemaining.Some? {
        toRead := Least(toRead, fileRemaining.value);
      }
      if toRead == 0 {
        return 0;
      }
      n :| n <= toRead && n <= |stream| - pos && (n == 0 <==> pos == |stream|);
      buf.Offer(stream[pos..pos + n]);
      buf.Produce(n);
      pos := pos + n;
      if fileRemaining.Some? {
        fileRemaining := Some(fileRemaining.value - n);
      }
    }

    /** Make room for at least one more byte. */
    method MakeRoom() returns (ok: bool)
      requires Valid()
      modifies buf.Frame()
      ensures Valid() && fresh(buf.Frame() - old(buf.Frame())) && buf.Contents() == old(buf.Contents())
      ensures if ok then buf.Writable() >= 1 else buf.Readable() == buf.Capacity() && !(2 * buf.Capacity() <= MAX_CAPACITY && (buf.Limit().Some? ==> 2 * buf.Capacity() <= buf.Limit().value))
    {
      hide RingBuf.Contents, RingBuf.Unused, RingBuf.Frame, RingBuf.Valid, RingBuf.Capacity, RingBuf.Readable;
      ok := true;
      if buf.Writable() == 0 {
        ok := buf.Grow();
      }
    }

    /**
     * Have at least `n` bytes available. What arrives is appended in the source's order, and a
     * short answer means that nothing more will come; it fails only when no capacity within the
     * limits suffices.
     */
    method Fill(n: nat) returns (ok: bool)
      requires Valid()
      modifies `pos, `fileRemaining, buf.Frame()
      ensures Valid() && fresh(buf.Frame() - old(buf.Frame()))
      ensures old(pos) <= pos && buf.Contents() == old(buf.Contents()) + stream[old(pos)..pos]
      ensures ok ==> base + n <= pos || AtEnd()
      ensures !ok ==> buf.Readable() == buf.Capacity() < n && forall c :: !Suffices(c, n, buf.Limit())
      ensures fileRemaining.Some? <==> old(fileRemaining).Some?
      ensures fileRemaining.Some? ==> pos + fileRemaining.value == old(pos + fileRemaining.value)
    {
      hide RingBuf.Contents, RingBuf.Unused, RingBuf.Valid, RingBuf.Capacity, RingBuf.Readable;
      while buf.Readable() < n && fileRemaining != Some(0)
        invariant Valid() && fresh(buf.Frame() - old(buf.Frame()))
        invariant old(pos) <= pos && buf.Contents() == old(buf.Contents()) + stream[old(pos)..pos]
        invariant fileRemaining.Some? <==> old(fileRemaining).Some?
        invariant fileRemaining.Some? ==> pos + fileRemaining.value == old(pos + fileRemaining.value)
        decreases |stream| - pos
      {
        var room := MakeRoom();
        if !room {
          buf.CapacityIsPow2();
          NoneSuffices(buf.Capacity(), n, buf.Limit());
          return false;
        }
        ghost var from := pos;
        var read := ReadIntoBuf();
        assert stream[old(pos)..pos] == stream[old(pos)..from] + stream[from..pos];
        if read == 0 {
          break;
        }
      }
      ok := true;
    }

    method Consume(n: nat)
      requires Valid() && n <= buf.Readable()
      modifies `base, `chunkRemaining, buf.Frame()
      ensures Valid() && buf.Frame() == old(buf.Frame()) && base == old(base) + n && buf.Contents() == old(buf.Contents()[n..])
    {
      hide RingBuf.Contents, RingBuf.Unused, RingBuf.Frame, RingBuf.Valid, RingBuf.Capacity;
      chunkRemaining := chunkRemaining - Least(n, chunkRemaining);
      base := base + n;
      buf.Consume(n);
    }
  }

  function Least(a: nat, b: nat): nat {
    if a < b then a else b
  }
}
