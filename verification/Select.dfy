/** Which pending records can be emitted, and where the last of them ends. */
module Select {
  import opened Dialect
  import opened Records
  import opened Segments
  import opened FieldCount
  import opened RecordWalk
  import opened Stride
  import opened Refinement
  import opened Index
  import opened Flush
  import opened Batch

  /** A record's terminator run as far as the resolved bytes show it. */
  datatype TermRun = Unresolved | Capped(start: nat) | Ended(start: nat, end: nat)

  /** The run `[x, re]` seen from the first `end` bytes, walked no further than `cap`. */
  function Seen(x: int, re: int, end: nat, cap: nat): TermRun {
    if x < 0 || re < 0 || x >= end then Unresolved
    else if re + 1 < cap then Ended(x, re)
    else if cap < end then Capped(x)
    else Unresolved
  }

  /** Walk from a record's last end to its terminator and across the run. */
  method FindRun(c: Config, mem: array<byte>, base: nat, from: nat, end: nat, cap: nat, ghost x: int, ghost re: int) returns (t: TermRun)
    requires base + end <= mem.Length && cap <= end && from <= end
    requires RunShape(c, mem[base..base + end], from, x, re)
    ensures t == Seen(x, re, end, cap)
  {
    ghost var w := mem[base..base + end];
    var p := from;
    while p < end && !c.IsTerm(mem[base + p])
      invariant from <= p <= end && p <= x
    {
      assert w[p] == mem[base + p];
      p := p + 1;
    }
    if p >= end {
      return Unresolved;
    }
    assert w[p] == mem[base + p];
    var runStart := p;
    while p + 1 < cap && c.IsTerm(mem[base + p + 1])
      invariant runStart <= p <= re && p < end
    {
      assert w[p + 1] == mem[base + p + 1];
      p := p + 1;
    }
    if p + 1 < cap {
      assert w[p + 1] == mem[base + p + 1];
      t := Ended(runStart, p); // ended inside the window
    } else if cap < end {
      t := Capped(runStart); // hit the boundary cap
    } else {
      // The run's end is not resolved yet: leave the record for later.
      t := Unresolved;
    }
  }

  /** The `k`-th pending record's run, as seen. */
  ghost function SeenAt(c: Config, s: seq<byte>, a: nat, n: nat, k: nat, d: int, end: nat, cap: nat): TermRun
    requires a <= |s| && n >= 1
  {
    var e := NthExtent(c, s, a, n, k);
    Seen(e.x - d, e.re - d, end, cap)
  }

  /** The records that can be seen are in order. */
  lemma {:induction false} NthSucc(c: Config, s: seq<byte>, a: nat, n: nat, k: nat)
    requires a <= |s| && n >= 1
    ensures var e := NthExtent(c, s, a, n, k); Nth(c, s, a, n, k + 1) == if e.x < |s| then e.re + 1 else Nth(c, s, a, n, k)
    decreases k
  {
    hide *;
    var e := ExtentOf(c, s, a, n);
    NthIs(c, s, a, n, 0);
    NthIs(c, s, a, n, k);
    NthIs(c, s, a, n, k + 1);
    NthExtentOf(c, s, a, n, k);
    ExtentIs(c, s, a, n);
    if e.x < |s| {
      LastInRange(c, s, e.x);
      NthIs(c, s, e.re + 1, n, 0);
      if k > 0 {
        NthExtentOf(c, s, e.re + 1, n, k - 1);
        NthSucc(c, s, e.re + 1, n, k - 1);
      }
    }
  }

  lemma {:induction false} ExtentsAscend(c: Config, s: seq<byte>, a: nat, n: nat, k: nat, k2: nat)
    requires a <= |s| && n >= 1 && k < k2 && NthExtent(c, s, a, n, k).x < |s|
    ensures NthExtent(c, s, a, n, k).re < NthExtent(c, s, a, n, k2).x
    decreases k2
  {
    NthMonotone(c, s, a, n, k + 1, k2);
    NthSucc(c, s, a, n, k);
  }

  lemma {:induction false} NthMonotone(c: Config, s: seq<byte>, a: nat, n: nat, k: nat, k2: nat)
    requires a <= |s| && n >= 1 && k <= k2
    ensures Nth(c, s, a, n, k) <= Nth(c, s, a, n, k2)
    decreases k2
  {
    hide Nth, ExtentOf;
    if k < k2 {
      NthMonotone(c, s, a, n, k, k2 - 1);
      NthSucc(c, s, a, n, k2 - 1);
    }
  }

  /** An earlier record resolves whenever a later one does, and ends before it. */
  lemma EarlierSeen(c: Config, s: seq<byte>, a: nat, n: nat, k: nat, k2: nat, d: int, end: nat, cap: nat)
    requires a <= |s| && n >= 1 && k < k2 && d <= a && NthExtent(c, s, a, n, k).x < |s|
    requires !SeenAt(c, s, a, n, k2, d, end, cap).Unresolved?
    ensures !SeenAt(c, s, a, n, k, d, end, cap).Unresolved?
    ensures NthExtent(c, s, a, n, k).re < NthExtent(c, s, a, n, k2).x
    ensures SeenAt(c, s, a, n, k2, d, end, cap).Ended? ==> SeenAt(c, s, a, n, k, d, end, cap).Ended?
  {
    ExtentsAscend(c, s, a, n, k, k2);
    hide Nth, ExtentOf;
  }

  /** The pending records, as a value: what the selection may rely on. */
  ghost predicate Ready(j: Job, o: nat, s: seq<byte>, a: nat, h: nat, base: nat, d: int, l: Lists, m: seq<byte>, n: nat) {
    Outstanding(j, o, s, a, a, h, base, d, l.bs, l.es, l.rs, m, n) && d <= a
  }

  lemma ReadyIs(j: Job, o: nat, s: seq<byte>, a: nat, h: nat, base: nat, d: int, l: Lists, m: seq<byte>, n: nat)
    requires Ready(j, o, s, a, h, base, d, l, m, n)
    ensures Outstanding(j, o, s, a, a, h, base, d, l.bs, l.es, l.rs, m, n)
    ensures 1 <= n <= 63 && d <= a <= h <= |s| && o + h <= |j.data| && base == o + d && |m| == |j.data| && base + (h - d) <= |m|
  {
    hide *;
    ReadyBound(j, o, s, a, h, base, d, l, m, n);
    OutstandingIs(j, o, s, a, a, h, base, d, l.bs, l.es, l.rs, m, n);
  }

  lemma ReadyBound(j: Job, o: nat, s: seq<byte>, a: nat, h: nat, base: nat, d: int, l: Lists, m: seq<byte>, n: nat)
    requires Ready(j, o, s, a, h, base, d, l, m, n)
    ensures d <= a && Outstanding(j, o, s, a, a, h, base, d, l.bs, l.es, l.rs, m, n)
  {
    hide Outstanding;
  }

  /** The run of the `k`-th pending record. */
  method TermOf(c: Config, mem: array<byte>, base: nat, es: seq<nat>, i: nat, n: nat, end: nat, cap: nat,
                ghost j: Job, ghost o: nat, ghost s: seq<byte>, ghost a: nat, ghost h: nat, ghost d: int, ghost l: Lists, ghost k: nat)
    returns (t: TermRun)
    requires Ready(j, o, s, a, h, base, d, l, mem[..], n) && c == j.cfg && es == l.es
    requires i + n <= |es| && i == k * n && end + d == h && cap <= end
    ensures a <= |s| && n >= 1 && t == SeenAt(c, s, a, n, k, d, end, cap)
    ensures NthExtent(c, s, a, n, k).x < |s|
  {
    hide *;
    ReadyIs(j, o, s, a, h, base, d, l, mem[..], n);
    ghost var z := NthRun(j, o, s, a, h, base, d, l.bs, es, l.rs, mem[..], n, k, i);
    NthShapeIs(j, s, a, h, base, d, es, mem[..], n, k, i, z);
    ghost var e := NthExtent(c, s, a, n, k);
    WindowIs(mem[..], base, d, h, end);
    assert mem[base..base + end] == mem[..][base..base + end];
    t := FindRun(c, mem, base, es[i + n - 1], end, cap, e.x - d, e.re - d);
    SeenAtIs(c, s, a, n, k, d, end, cap);
  }

  lemma WindowIs(m: seq<byte>, base: nat, d: int, h: nat, end: nat)
    requires d <= h && end + d == h && base + end <= |m|
    ensures Window(m, base, d, h) == m[base..base + end]
  {
  }

  lemma SeenAtIs(c: Config, s: seq<byte>, a: nat, n: nat, k: nat, d: int, end: nat, cap: nat)
    requires a <= |s| && n >= 1
    ensures SeenAt(c, s, a, n, k, d, end, cap) == Seen(NthExtent(c, s, a, n, k).x - d, NthExtent(c, s, a, n, k).re - d, end, cap)
  {
    hide NthExtent;
  }

  lemma NthShapeIs(j: Job, s: seq<byte>, a: nat, h: nat, base: nat, d: int, es: seq<nat>, m: seq<byte>, n: nat, k: nat, i: nat, z: nat)
    requires NthShape(j, s, a, h, base, d, es, m, n, k, i, z)
    ensures a <= |s| && n >= 1 && d <= h && base + (h - d) <= |m| && i + n <= |es| && a <= z
    ensures var e := NthExtent(j.cfg, s, a, n, k);
            && e.x < |s| && Segment(j.cfg, s, z, e.x, e.re)
            && es[i + n - 1] + d == EndOf(j.cfg, s, e.x) && es[i + n - 1] + d < h
            && RunShape(j.cfg, Window(m, base, d, h), es[i + n - 1], e.x - d, e.re - d)
            && (e.re < h && e.x < h ==> RecordStarts(j.cfg, s, e.re + 1) && Aligned(n, 0, Classes(j.cfg, s, e.re + 1, h)))
  {
    hide RunShape, Segment, EndOf, NthExtent;
  }

  /** The chosen batch: how many records, whether to stop after them, and the last one's run. */
  ghost predicate Chosen(c: Config, s: seq<byte>, o: nat, a: nat, h: nat, n: nat, d: int, es: seq<nat>, bnd: nat, count: nat, stop: bool, last: TermRun) {
    && a <= |s| && n >= 1
    && count * n <= |es|
    && (count > 0 ==>
          && Complete(c, s, o, a, h, n, count, bnd, stop)
          && !last.Unresolved? && last.start + d == NthExtent(c, s, a, n, count - 1).x
          && (last.Ended? ==> last.end + d == NthExtent(c, s, a, n, count - 1).re)
          && (!stop ==> last.Ended?)
          && (stop ==> bnd < o + h))
  }

  /** Facts about the records up to the last that resolves. */
  ghost predicate Resolves(c: Config, s: seq<byte>, a: nat, n: nat, d: int, end: nat, cap: nat, avail: nat) {
    && a <= |s| && n >= 1 && avail >= 1
    && (forall k :: 0 <= k < avail ==> NthExtent(c, s, a, n, k).x < |s| && !SeenAt(c, s, a, n, k, d, end, cap).Unresolved?)
    && (forall k :: 0 <= k < avail - 1 ==> NthExtent(c, s, a, n, k).re < NthExtent(c, s, a, n, avail - 1).x)
  }

  lemma ResolvesFrom(c: Config, s: seq<byte>, a: nat, n: nat, d: int, end: nat, cap: nat, avail: nat)
    requires a <= |s| && n >= 1 && avail >= 1 && d <= a
    requires forall k :: 0 <= k < avail ==> NthExtent(c, s, a, n, k).x < |s|
    requires !SeenAt(c, s, a, n, avail - 1, d, end, cap).Unresolved?
    ensures Resolves(c, s, a, n, d, end, cap, avail)
  {
    hide NthExtent, SeenAt;
    forall k | 0 <= k < avail - 1
      ensures !SeenAt(c, s, a, n, k, d, end, cap).Unresolved? && NthExtent(c, s, a, n, k).re < NthExtent(c, s, a, n, avail - 1).x
    {
      EarlierSeen(c, s, a, n, k, avail - 1, d, end, cap);
    }
  }

  /** How the boundary decides for one record. */
  lemma SeenMeans(c: Config, s: seq<byte>, o: nat, a: nat, h: nat, n: nat, k: nat, d: int, end: nat, cap: nat, rem: nat, bnd: nat)
    requires a <= |s| && n >= 1 && d <= a && end + d == h && cap == Min(end, rem + 1) && 0 <= o + d
    requires rem == if bnd < o + d then 0 else bnd - (o + d)
    ensures var e := NthExtent(c, s, a, n, k);
            var t := SeenAt(c, s, a, n, k, d, end, cap);
            && (t.Capped? ==> t.start + d == e.x && e.x < h && bnd <= o + e.re && bnd < o + h)
            && (t.Ended? ==>
                  && t.start + d == e.x && t.end + d == e.re && e.x < h && e.re < h
                  && (if rem > 0 && t.end < rem then o + e.re < bnd else bnd <= o + e.re && bnd < o + h))
  {
    hide Nth, ExtentOf;
    ExtentPast(c, s, a, n, k);
  }

  lemma ExtentPast(c: Config, s: seq<byte>, a: nat, n: nat, k: nat)
    requires a <= |s| && n >= 1
    ensures a <= NthExtent(c, s, a, n, k).x <= NthExtent(c, s, a, n, k).re
  {
  }

  /** The first `count` records make up the batch. */
  lemma Choose(c: Config, s: seq<byte>, o: nat, a: nat, h: nat, n: nat, d: int, end: nat, cap: nat, rem: nat, bnd: nat,
               es: seq<nat>, avail: nat, count: nat, stop: bool, last: TermRun)
    requires Resolves(c, s, a, n, d, end, cap, avail) && 1 <= count <= avail && count * n <= |es|
    requires d <= a && end + d == h && cap == Min(end, rem + 1) && 0 <= o + d && rem == if bnd < o + d then 0 else bnd - (o + d)
    requires last == SeenAt(c, s, a, n, count - 1, d, end, cap)
    requires forall k :: 0 <= k < count - 1 ==> var t := SeenAt(c, s, a, n, k, d, end, cap); t.Ended? && t.end < rem
    requires if stop then !(last.Ended? && last.end < rem) else last.Ended? && last.end < rem
    ensures Chosen(c, s, o, a, h, n, d, es, bnd, count, stop, last)
  {
    hide Nth, ExtentOf, NthExtent, SeenAt, Complete;
    forall k | 0 <= k < count
      ensures NthExtent(c, s, a, n, k).x < h && NthExtent(c, s, a, n, k).x < |s|
      ensures k < count - 1 ==> NthExtent(c, s, a, n, k).re < h && o + NthExtent(c, s, a, n, k).re < bnd
    {
      SeenMeans(c, s, o, a, h, n, k, d, end, cap, rem, bnd);
    }
    SeenMeans(c, s, o, a, h, n, count - 1, d, end, cap, rem, bnd);
    CompleteFromEach(c, s, o, a, h, n, count, bnd, stop);
  }

  /** Which of the pending records to emit now; none, if the first one's end is not resolved yet. */
  method SelectBatch(c: Config, mem: array<byte>, base: nat, es: seq<nat>, n: nat, end: nat, rem: nat,
                     ghost j: Job, ghost o: nat, ghost s: seq<byte>, ghost a: nat, ghost h: nat, ghost d: int, ghost l: Lists, ghost bnd: nat)
    returns (count: nat, stop: bool, last: TermRun)
    requires Ready(j, o, s, a, h, base, d, l, mem[..], n) && c == j.cfg && es == l.es
    requires end + d == h && rem == if bnd < base then 0 else bnd - base
    ensures Chosen(c, s, o, a, h, n, d, es, bnd, count, stop, last)
  {
    hide *;
    ReadyIs(j, o, s, a, h, base, d, l, mem[..], n);
    // Past the boundary the end does not matter, so the walk stops there.
    var cap := Min(end, rem + 1);
    MinIs(end, rem + 1);
    var avail: nat := |es| / n;
    AvailFits(|es|, n);
    last := Unresolved;
    NoneChosen(c, s, o, a, h, n, d, es, bnd);
    // Several records may have to be left.
    while true
      invariant avail * n <= |es|
      decreases avail
    {
      if avail == 0 {
        return 0, false, last;
      }
      OneLess(avail, n);
      last := TermOf(c, mem, base, es, (avail - 1) * n, n, end, cap, j, o, s, a, h, d, l, avail - 1);
      if !last.Unresolved? {
        break;
      }
      avail := avail - 1;
    }
    forall k | 0 <= k < avail ensures NthExtent(c, s, a, n, k).x < |s| {
      AllPending(j, o, s, a, h, base, d, l, mem[..], n, k, avail);
    }
    ResolvesFrom(c, s, a, n, d, end, cap, avail);
    ResolvedSeen(c, s, a, n, d, end, cap, avail);
    if rem == 0 {
      // The boundary lies behind the buffer: one record, and stop.
      count, stop := 1, true;
    } else if last.Ended? && last.end < rem {
      count, stop := avail, false;
      AllBefore(c, s, a, n, d, end, cap, rem, avail);
    } else {
      var k := 0;
      var t := TermOf(c, mem, base, es, 0, n, end, cap, j, o, s, a, h, d, l, 0);
      while t.Ended? && t.end < rem
        invariant 0 <= k < avail && t == SeenAt(c, s, a, n, k, d, end, cap)
        invariant forall q :: 0 <= q < k ==> var u := SeenAt(c, s, a, n, q, d, end, cap); u.Ended? && u.end < rem
        decreases avail - k
      {
        k := k + 1;
        OneLess(avail - k, n);
        assert k < avail;
        Fits(k + 1, avail, n);
        t := TermOf(c, mem, base, es, k * n, n, end, cap, j, o, s, a, h, d, l, k);
      }
      count, stop := k + 1, true;
    }
    // Otherwise the whole batch goes.
    Fits(count, avail, n);
    if count != avail {
      OneLess(count, n);
      last := TermOf(c, mem, base, es, (count - 1) * n, n, end, cap, j, o, s, a, h, d, l, count - 1);
    }
    Choose(c, s, o, a, h, n, d, end, cap, rem, bnd, es, avail, count, stop, last);
  }

  lemma MinIs(a: nat, b: nat)
    ensures Min(a, b) == if a < b then a else b
  {
  }

  lemma AvailFits(total: nat, n: nat)
    requires n >= 1
    ensures total / n * n <= total
  {
  }

  lemma Fits(k: nat, avail: nat, n: nat)
    requires k <= avail
    ensures k * n <= avail * n
    ensures k >= 1 ==> (k - 1) * n + n == k * n
  {
  }

  lemma NoneChosen(c: Config, s: seq<byte>, o: nat, a: nat, h: nat, n: nat, d: int, es: seq<nat>, bnd: nat)
    requires a <= |s| && n >= 1
    ensures forall stop, last :: Chosen(c, s, o, a, h, n, d, es, bnd, 0, stop, last)
  {
  }

  lemma AllPending(j: Job, o: nat, s: seq<byte>, a: nat, h: nat, base: nat, d: int, l: Lists, m: seq<byte>, n: nat, k: nat, avail: nat)
    requires Ready(j, o, s, a, h, base, d, l, m, n) && k < avail && avail * n <= |l.es|
    ensures a <= |s| && n >= 1 && NthExtent(j.cfg, s, a, n, k).x < |s|
  {
    hide *;
    ReadyIs(j, o, s, a, h, base, d, l, m, n);
    Fits(k + 1, avail, n);
    var z := NthRun(j, o, s, a, h, base, d, l.bs, l.es, l.rs, m, n, k, k * n);
    NthShapeIs(j, s, a, h, base, d, l.es, m, n, k, k * n, z);
  }

  lemma ResolvedSeen(c: Config, s: seq<byte>, a: nat, n: nat, d: int, end: nat, cap: nat, avail: nat)
    requires Resolves(c, s, a, n, d, end, cap, avail)
    ensures forall k :: 0 <= k < avail ==> NthExtent(c, s, a, n, k).x < |s| && !SeenAt(c, s, a, n, k, d, end, cap).Unresolved?
  {
    hide NthExtent, SeenAt;
  }

  /** If the last record ends before the boundary, all do. */
  lemma AllBefore(c: Config, s: seq<byte>, a: nat, n: nat, d: int, end: nat, cap: nat, rem: nat, avail: nat)
    requires Resolves(c, s, a, n, d, end, cap, avail) && d <= a
    requires var t := SeenAt(c, s, a, n, avail - 1, d, end, cap); t.Ended? && t.end < rem
    ensures forall k :: 0 <= k < avail ==> var t := SeenAt(c, s, a, n, k, d, end, cap); t.Ended? && t.end < rem
  {
    hide Nth, ExtentOf, NthExtent;
    forall k | 0 <= k < avail ensures var t := SeenAt(c, s, a, n, k, d, end, cap); t.Ended? && t.end < rem {
      if k < avail - 1 {
        EarlierSeen(c, s, a, n, k, avail - 1, d, end, cap);
        ExtentPast(c, s, a, n, avail - 1);
      }
    }
  }
}
