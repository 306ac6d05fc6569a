/** The ring buffer whose memory is mapped twice in a row, with counters that wrap around. */
module MirroredBuf {
  import opened Dialect
  import opened Capacity

  /** Bytes `[at, at + len)` of the double mapping: address `a` is byte `a % capacity` of the memory. */
  function View(mem: seq<byte>, at: nat, len: nat): (v: seq<byte>)
    requires |mem| >= 1
    ensures |v| == len && forall k :: 0 <= k < len ==> v[k] == mem[(at + k) % |mem|]
  {
    seq(len, k requires 0 <= k < len => mem[(at + k) % |mem|])
  }

  /** Views at the same place modulo the capacity are equal. */
  lemma SameView(mem: seq<byte>, a: nat, b: nat, len: nat)
    requires |mem| >= 1 && a % |mem| == b % |mem|
    ensures View(mem, a, len) == View(mem, b, len)
  {
    forall k | 0 <= k < len ensures View(mem, a, len)[k] == View(mem, b, len)[k] {
      Shifted(a, b, k, |mem|);
    }
  }

  lemma Shifted(a: int, b: int, k: int, c: nat)
    requires c >= 1 && a % c == b % c
    ensures (a + k) % c == (b + k) % c
  {
    var r := (a + k) % c;
    var q := (a + k) / c;
    assert a + k == q * c + r;
    assert a == (a / c) * c + a % c && b == (b / c) * c + b % c;
    assert b + k == (q - a / c + b / c) * c + r by {
      assert (q - a / c + b / c) * c == q * c - (a / c) * c + (b / c) * c;
    }
    RemainderIs(b + k, c, q - a / c + b / c, r);
  }

  /** Two different addresses less than the capacity apart are different bytes. */
  lemma Apart(a: int, i: nat, k: nat, c: nat)
    requires i < k < i + c
    ensures (a + i) % c != (a + k) % c
  {
    var d := (a + k) / c - (a + i) / c;
    assert d * c == k - i - (a + k) % c + (a + i) % c;
    AtLeastOne(d, c);
  }

  /** A view in two parts. */
  lemma Ring(mem: seq<byte>, at: nat, next: nat, r: nat, len: nat)
    requires |mem| >= 1 && r <= len && next % |mem| == (at + r) % |mem|
    ensures View(mem, at, len) == View(mem, at, r) + View(mem, next, len - r)
  {
    SameView(mem, next, at + r, len - r);
    ViewDrop(mem, at, len, r);
    assert View(mem, at, len)[..r] == View(mem, at, r);
  }

  lemma ViewDrop(mem: seq<byte>, at: nat, len: nat, n: nat)
    requires |mem| >= 1 && n <= len
    ensures View(mem, at, len)[n..] == View(mem, at + n, len - n)
  {
    forall k | 0 <= k < len - n ensures View(mem, at, len)[n..][k] == View(mem, at + n, len - n)[k] {
      assert at + (n + k) == at + n + k;
    }
  }

  /** Writing one byte of the ring. */
  lemma ViewWrite(mem: seq<byte>, at: nat, x: nat, p: nat, b: byte)
    requires x < |mem| && p == (at + x) % |mem|
    ensures View(mem[p := b], at, |mem|) == View(mem, at, |mem|)[x := b]
  {
    var c := |mem|;
    var after, before := View(mem[p := b], at, c), View(mem, at, c);
    forall k | 0 <= k < c ensures after[k] == before[x := b][k] {
      if k < x {
        Apart(at, k, x, c);
      } else if x < k {
        Apart(at, x, k, c);
      }
    }
  }

  lemma Near(x: int)
    requires 0 <= x + Index.WORD && x < 2 * Index.WORD
    ensures Wrapped(x) == if x < 0 then x + Index.WORD else if x < Index.WORD then x else x - Index.WORD
  {
    var q := if x < 0 then -1 else if x < Index.WORD then 0 else 1;
    RemainderIs(x, Index.WORD, q, x - q * Index.WORD);
  }

  lemma Counted(p: nat, c: nat, n: nat)
    requires p < Index.WORD && c < Index.WORD && Wrapped(p - c) + n < Index.WORD
    ensures Wrapped(Wrapped(p + n) - c) == Wrapped(p - c) + n
    ensures Wrapped(c + Wrapped(p - c)) == p
  {
    Near(p - c);
    Near(p + n);
    Near(Wrapped(p + n) - c);
    Near(c + Wrapped(p - c));
    hide Wrapped;
  }

  lemma CountedDown(p: nat, c: nat, n: nat)
    requires p < Index.WORD && c < Index.WORD && n <= Wrapped(p - c)
    ensures Wrapped(p - Wrapped(c + n)) == Wrapped(p - c) - n
  {
    Near(p - c);
    Near(c + n);
    Near(p - Wrapped(c + n));
    hide Wrapped;
  }

  /** The producer is the consumer moved on by what is readable. */
  lemma ProducerAt(p: nat, c: nat, cap: nat)
    requires p < Index.WORD && c < Index.WORD && Wrapped(p - c) <= cap && IsPow2(cap) && cap <= MAX_CAPACITY
    ensures p % cap == (c + Wrapped(p - c)) % cap
  {
    Counted(p, c, 0);
    WrapKeepsIndex(c + Wrapped(p - c), cap);
  }

  lemma Dropped(mem: seq<byte>, at: nat, len: nat, n: nat)
    requires IsPow2(|mem|) && |mem| <= MAX_CAPACITY && n <= len
    ensures View(mem, Wrapped(at + n), len - n) == View(mem, at, len)[n..]
  {
    ViewDrop(mem, at, len, n);
    WrapKeepsIndex(at + n, |mem|);
    SameView(mem, Wrapped(at + n), at + n, len - n);
  }

  class MirroredBuf {
    var mem: array<byte>
    const limit: Option<nat>
    var producer: nat
    var consumer: nat

    predicate Valid()
      reads this
    {
      && IsPow2(mem.Length) && mem.Length <= MAX_CAPACITY && (limit.Some? ==> mem.Length <= limit.value)
      && producer < Index.WORD && consumer < Index.WORD && Wrapped(producer - consumer) <= mem.Length
    }

    constructor (capacity: nat, limit: Option<nat>)
      requires IsPow2(capacity) && capacity <= MAX_CAPACITY && (limit.Some? ==> capacity <= limit.value)
      ensures Valid() && fresh(mem) && mem.Length == capacity && this.limit == limit && producer == consumer == 0 && Contents() == []
    {
      var m := new byte[capacity];
      mem, producer, consumer := m, 0, 0;
      this.limit := limit;
    }

    function Readable(): nat
      requires Valid()
      reads this
    {
      Wrapped(producer - consumer)
    }

    function Writable(): nat
      requires Valid()
      reads this
    {
      mem.Length - Readable()
    }

    /** The queue: `Readable` bytes from the consumer on, around the ring. */
    function Contents(): seq<byte>
      requires Valid()
      reads this, mem
    {
      View(mem[..], consumer, Readable())
    }

    function Unused(): seq<byte>
      requires Valid()
      reads this, mem
    {
      View(mem[..], producer, Writable())
    }

    /** The slice of the double mapping that shows the queue stays within the two mappings. */
    method Data() returns (offset: nat, view: seq<byte>)
      requires Valid()
      ensures view == Contents() && offset < mem.Length && offset + |view| <= 2 * mem.Length
    {
      MaskIsRemainder(consumer, mem.Length);
      offset := BitAnd(consumer, mem.Length - 1);
      SameIndex(consumer, mem.Length);
      SameView(mem[..], offset, consumer, Readable());
      view := View(mem[..], offset, Readable());
    }

    /** The queue and the free space make up the ring. */
    lemma Whole()
      requires Valid()
      ensures View(mem[..], consumer, mem.Length) == Contents() + Unused()
    {
      hide IsPow2, Wrapped, View;
      ProducerAt(producer, consumer, mem.Length);
      Ring(mem[..], consumer, producer, Readable(), mem.Length);
    }

    /** Hand out the free space as one slice, and have `src` written at its front. */
    method Offer(src: seq<byte>)
      requires Valid() && |src| <= Writable()
      modifies mem
      ensures Valid() && Contents() == old(Contents())
      ensures |Unused()| == Writable() && Unused()[..|src|] == src
    {
      hide IsPow2, BitAnd, Wrapped, View;
      ghost var r, c := Readable(), mem.Length;
      ghost var was := View(mem[..], consumer, c);
      Whole();
      ProducerAt(producer, consumer, c);
      MaskIsRemainder(producer, c);
      var offset := BitAnd(producer, mem.Length - 1);
      SameIndex(producer, c);
      var i := 0;
      while i < |src|
        invariant 0 <= i <= |src|
        invariant View(mem[..], consumer, c) == was[..r] + src[..i] + was[r + i..]
      {
        Shifted(offset, producer, i, c);
        Shifted(producer, consumer + r, i, c);
        var p := (offset + i) % mem.Length;
        ViewWrite(mem[..], consumer, r + i, p, src[i]);
        ghost var before := mem[..];
        mem[p] := src[i];
        assert mem[..] == before[p := src[i]];
        Written(was, src, r, i);
        i := i + 1;
      }
      Whole();
      Offered(was, src, r, Contents(), Unused());
    }

    method Produce(n: nat)
      requires Valid() && n <= |Unused()|
      modifies `producer
      ensures Valid() && Contents() == old(Contents() + Unused()[..n])
      ensures Unused() == old(Unused()[n..])
    {
      hide IsPow2, BitAnd, Wrapped, View;
      ghost var was := View(mem[..], consumer, mem.Length);
      Whole();
      Counted(producer, consumer, n);
      producer := Wrapped(producer + n);
      Whole();
      Moved(was, old(Contents()), old(Unused()), Contents(), Unused(), n);
    }

    method Consume(n: nat)
      requires Valid() && n <= Readable()
      modifies `consumer
      ensures Valid() && Contents() == old(Contents()[n..])
    {
      hide IsPow2, Wrapped, View;
      CountedDown(producer, consumer, n);
      Dropped(mem[..], consumer, Readable(), n);
      consumer := Wrapped(consumer + n);
    }

    method Reset()
      requires Valid()
      modifies `producer, `consumer
      ensures Valid() && Contents() == []
    {
      producer, consumer := 0, 0;
    }

    /** Overwrite a readable byte. */
    method Put(i: nat, b: byte)
      requires Valid() && i < Readable()
      modifies mem
      ensures Valid() && Contents() == old(Contents()[i := b])
    {
      hide IsPow2, BitAnd, Wrapped, View;
      Whole();
      MaskIsRemainder(consumer, mem.Length);
      SameIndex(consumer, mem.Length);
      var offset := BitAnd(consumer, mem.Length - 1);
      Shifted(offset, consumer, i, mem.Length);
      var p := (offset + i) % mem.Length;
      ViewWrite(mem[..], consumer, i, p, b);
      ghost var before := mem[..];
      mem[p] := b;
      assert mem[..] == before[p := b];
      Whole();
      assert |Contents()| == |old(Contents())|;
      assert Contents() == View(mem[..], consumer, mem.Length)[..Readable()];
    }

    /** Twice the capacity, the queue as it was, at the front of new memory. */
    method Grow() returns (ok: bool)
      requires Valid()
      modifies this
      ensures Valid() && Contents() == old(Contents())
      ensures ok <==> 2 * old(mem.Length) <= MAX_CAPACITY && (limit.Some? ==> 2 * old(mem.Length) <= limit.value)
      ensures if ok then fresh(mem) && mem.Length == 2 * old(mem.Length) else mem == old(mem)
    {
      hide IsPow2, BitAnd, Wrapped, View;
      var c := GrownCapacity(mem.Length, limit);
      if c.None? {
        return false;
      }
      Doubled(mem.Length);
      var bigger := new MirroredBuf(c.value, limit);
      var offset, view := Data();
      bigger.Offer(view);
      bigger.Produce(|view|);
      assert bigger.Contents() == [] + view;
      mem, producer, consumer := bigger.mem, bigger.producer, bigger.consumer;
      ok := true;
    }
  }

  lemma Written(was: seq<byte>, src: seq<byte>, r: nat, i: nat)
    requires i < |src| && r + |src| <= |was|
    ensures (was[..r] + src[..i] + was[r + i..])[r + i := src[i]] == was[..r] + src[..i + 1] + was[r + i + 1..]
  {
    assert src[..i + 1] == src[..i] + [src[i]];
  }

  lemma Offered(was: seq<byte>, src: seq<byte>, r: nat, contents: seq<byte>, unused: seq<byte>)
    requires r + |src| <= |was| && |contents| == r
    requires contents + unused == was[..r] + src[..|src|] + was[r + |src|..]
    ensures contents == was[..r] && unused[..|src|] == src
  {
    var all := contents + unused;
    assert contents == all[..r] && unused == all[r..];
    assert all[..r] == was[..r];
    assert all[r..][..|src|] == src;
  }

  lemma Moved(was: seq<byte>, a: seq<byte>, u: seq<byte>, b: seq<byte>, w: seq<byte>, n: nat)
    requires was == a + u == b + w && |b| == |a| + n && n <= |u|
    ensures b == a + u[..n] && w == u[n..]
  {
    assert b == was[..|b|] && w == was[|b|..];
  }

  lemma SameIndex(x: nat, c: nat)
    requires c >= 1
    ensures (x % c) % c == x % c
  {
  }
}
