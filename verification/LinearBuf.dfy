/** The heap buffer that keeps its readable bytes contiguous by moving them. */
module LinearBuf {
  import opened Dialect
  import opened Capacity

  class LinearBuf {
    var buf: array<byte>
    var head: nat
    var tail: nat
    const limit: Option<nat>

    predicate Valid()
      reads this
    {
      head <= tail <= buf.Length && IsPow2(buf.Length) && buf.Length <= MAX_CAPACITY && (limit.Some? ==> buf.Length <= limit.value)
    }

    /** The queue. */
    function Contents(): seq<byte>
      requires Valid()
      reads this, buf
    {
      buf[head..tail]
    }

    /** The bytes that `Produce` appends from. */
    function Unused(): seq<byte>
      requires Valid()
      reads this, buf
    {
      buf[tail..]
    }

    constructor (capacity: nat, limit: Option<nat>)
      requires IsPow2(capacity) && capacity <= MAX_CAPACITY && (limit.Some? ==> capacity <= limit.value)
      ensures Valid() && fresh(buf) && buf.Length == capacity && this.limit == limit && Contents() == []
    {
      var b := new byte[capacity](_ => 0);
      buf, head, tail := b, 0, 0;
      this.limit := limit;
    }

    function Readable(): nat
      requires Valid()
      reads this
    {
      tail - head
    }

    function Writable(): nat
      requires Valid()
      reads this
    {
      buf.Length - Readable()
    }

    /** Hand out all free space as one slice, the readable bytes moved to the front, and have `src` written at its front. */
    method Offer(src: seq<byte>)
      requires Valid() && |src| <= Writable()
      modifies this, buf
      ensures Valid() && buf == old(buf) && Contents() == old(Contents())
      ensures |Unused()| == Writable() == old(Writable()) && Unused()[..|src|] == src
    {
      if head != 0 {
        forall k | 0 <= k < tail - head {
          buf[k] := buf[head + k];
        }
        tail := tail - head;
        head := 0;
      }
      var at := tail;
      forall k | 0 <= k < |src| {
        buf[at + k] := src[k];
      }
      assert Contents() == old(Contents());
    }

    method Produce(n: nat)
      requires Valid() && n <= |Unused()|
      modifies `tail
      ensures Valid() && Contents() == old(Contents() + Unused()[..n])
    {
      tail := tail + n;
    }

    method Consume(n: nat)
      requires Valid() && n <= Readable()
      modifies `head, `tail
      ensures Valid() && Contents() == old(Contents()[n..])
    {
      head := head + n;
      if head == tail {
        Reset();
      }
    }

    method Reset()
      requires Valid()
      modifies `head, `tail
      ensures Valid() && Contents() == []
    {
      head, tail := 0, 0;
    }

    /** Overwrite a readable byte. */
    method Put(i: nat, b: byte)
      requires Valid() && i < Readable()
      modifies buf
      ensures Valid() && Contents() == old(Contents()[i := b])
    {
      buf[head + i] := b;
    }

    /** Twice the capacity, the queue as it was. */
    method Grow() returns (ok: bool)
      requires Valid()
      modifies this
      ensures Valid() && Contents() == old(Contents())
      ensures ok <==> 2 * old(buf.Length) <= MAX_CAPACITY && (limit.Some? ==> 2 * old(buf.Length) <= limit.value)
      ensures if ok then fresh(buf) && buf.Length == 2 * old(buf.Length) else buf == old(buf)
    {
      var c := GrownCapacity(buf.Length, limit);
      if c.None? {
        return false;
      }
      Doubled(buf.Length);
      var b := buf;
      var bigger := new byte[c.value](i requires 0 <= i < c.value reads b => if i < b.Length then b[i] else 0);
      buf := bigger;
      ok := true;
    }
  }
}
