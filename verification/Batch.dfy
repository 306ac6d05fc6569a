/** A batch of complete records, emitted at once: what it leaves of the reference scan. */
module Batch {
  import opened Dialect
  import opened Records
  import opened Stream
  import opened Segments
  import opened FieldWalk
  import opened FieldCount
  import opened RecordWalk
  import opened Stride
  import opened Refinement
  import opened Index
  import opened Flush
  import opened Handed
  import opened Endings

  /** Where the record at `a` ends: its terminator run and the run's last byte. */
  datatype Extent = Extent(x: nat, re: nat)

  function ExtentOf(c: Config, s: seq<byte>, a: nat, n: nat): (e: Extent)
    requires a <= |s| && n >= 1
    ensures a <= e.x <= |s| && e.x <= e.re && (e.x < |s| ==> e.re < |s|)
  {
    var x := RunOf(c, s, a, n);
    Extent(x, if x < |s| then Last(c, s, x) else x)
  }

  /** The `k`-th record after `a`. */
  function Nth(c: Config, s: seq<byte>, a: nat, n: nat, k: nat): (b: nat)
    requires a <= |s| && n >= 1
    ensures a <= b <= |s|
    decreases k
  {
    var e := ExtentOf(c, s, a, n);
    if k == 0 || e.x == |s| then a else Nth(c, s, e.re + 1, n, k - 1)
  }

  function NthExtent(c: Config, s: seq<byte>, a: nat, n: nat, k: nat): Extent
    requires a <= |s| && n >= 1
  {
    ExtentOf(c, s, Nth(c, s, a, n, k), n)
  }

  /**
   * `count` records from `a` are complete in the vectors up to `h`. All but the last end before
   * the boundary `bnd`; the last one does so too, or is the one to stop on.
   */
  ghost predicate Complete(c: Config, s: seq<byte>, o: nat, a: nat, h: nat, n: nat, count: nat, bnd: nat, stop: bool)
    decreases count
  {
    && a <= |s| && n >= 1 && count >= 1
    && var e := ExtentOf(c, s, a, n);
    && e.x < h
    && (if count == 1 && stop then bnd <= o + e.re else e.re < h && o + e.re < bnd)
    && (count > 1 ==> Complete(c, s, o, e.re + 1, h, n, count - 1, bnd, stop))
  }

  lemma CompleteIs(c: Config, s: seq<byte>, o: nat, a: nat, h: nat, n: nat, count: nat, bnd: nat, stop: bool)
    requires Complete(c, s, o, a, h, n, count, bnd, stop)
    ensures a <= |s| && n >= 1 && count >= 1
    ensures var e := ExtentOf(c, s, a, n);
            && e.x < h
            && (if count == 1 && stop then bnd <= o + e.re else e.re < h && o + e.re < bnd)
            && (count > 1 ==> Complete(c, s, o, e.re + 1, h, n, count - 1, bnd, stop))
  {
    hide ExtentOf;
  }

  lemma ExtentIs(c: Config, s: seq<byte>, a: nat, n: nat)
    requires a <= |s| && n >= 1
    ensures var e := ExtentOf(c, s, a, n); e.x == RunOf(c, s, a, n) && (e.x < |s| ==> e.re == Last(c, s, e.x))
  {
  }

  lemma NthIs(c: Config, s: seq<byte>, a: nat, n: nat, k: nat)
    requires a <= |s| && n >= 1
    ensures Nth(c, s, a, n, 0) == a
    ensures k >= 1 && ExtentOf(c, s, a, n).x < |s| ==> Nth(c, s, a, n, k) == Nth(c, s, ExtentOf(c, s, a, n).re + 1, n, k - 1)
    ensures ExtentOf(c, s, a, n).x == |s| ==> Nth(c, s, a, n, k) == a
  {
    hide ExtentOf;
  }

  /** What emitting `records` leaves of the scan, when the last of them extends over `e`. */
  ghost predicate Leaves(j: Job, o: nat, whole: Outcome, records: seq<Record>, e: Extent, bnd: nat, stop: bool) {
    && (Index.AllAccepted(j.accept, records) ==>
          if stop then whole == Ok(records, Some(Max(bnd, o + e.x)))
          else o + e.re + 1 <= |j.data| && whole == Prepend(records, Scan(j, o + e.re + 1, bnd, Fresh(o + e.re + 1), Some(o + e.x))))
    && (forall emitted: seq<Record>, r: Record :: emitted + [r] <= records && Index.AllAccepted(j.accept, emitted) && !j.accept(r) ==> whole == Err(emitted, Rejected(r)))
  }

  /** One record: the base case. */
  lemma OneLeaves(j: Job, o: nat, whole: Outcome, r: Record, e: Extent, bnd: nat, stop: bool, recordIn: nat)
    requires o + e.x <= o + e.re < |j.data| && j.cfg.fieldCount.Some? && |r| == j.cfg.fieldCount.value
    requires whole == FieldWalk.Closed(j, o, e.x, e.re, r, recordIn, bnd)
    requires if stop then bnd <= o + e.re else o + e.re < bnd
    ensures Leaves(j, o, whole, [r], e, bnd, stop)
  {
    hide Scan;
    assert [r][0] == r;
    forall emitted: seq<Record>, q: Record | emitted + [q] <= [r] && Index.AllAccepted(j.accept, emitted) && !j.accept(q)
      ensures whole == Err(emitted, Rejected(q))
    {
      assert (emitted + [q])[|emitted|] == q && |emitted| == 0;
    }
  }

  /** A record in front of a batch. */
  lemma MoreLeaves(j: Job, o: nat, whole: Outcome, r: Record, e: Extent, rest: Outcome, records: seq<Record>, last: Extent, bnd: nat, stop: bool, recordIn: nat)
    requires o + e.x <= o + e.re < |j.data| && j.cfg.fieldCount.Some? && |r| == j.cfg.fieldCount.value
    requires whole == FieldWalk.Closed(j, o, e.x, e.re, r, recordIn, bnd) && o + e.re < bnd
    requires rest == Scan(j, o + e.re + 1, bnd, Fresh(o + e.re + 1), Some(o + e.x))
    requires Leaves(j, o, rest, records, last, bnd, stop)
    ensures Leaves(j, o, whole, [r] + records, last, bnd, stop)
  {
    hide Scan;
    var all := [r] + records;
    if Index.AllAccepted(j.accept, all) {
      assert all[0] == r;
      forall i | 0 <= i < |records| ensures j.accept(records[i]) {
        assert all[i + 1] == records[i];
      }
      if !stop {
        PrependTwice([r], records, Scan(j, o + last.re + 1, bnd, Fresh(o + last.re + 1), Some(o + last.x)));
      }
    }
    forall emitted: seq<Record>, q: Record | emitted + [q] <= all && Index.AllAccepted(j.accept, emitted) && !j.accept(q)
      ensures whole == Err(emitted, Rejected(q))
    {
      assert (emitted + [q])[0] == r;
      if emitted != [] {
        assert emitted[0] == r && (emitted + [q])[1..] == emitted[1..] + [q] && all[1..] == records;
        assert emitted[1..] + [q] <= records;
        assert Index.AllAccepted(j.accept, emitted[1..]);
        assert emitted == [r] + emitted[1..];
      }
    }
  }

  /** Pending fields from `a` on, and removals from `a0` on, over a buffer that holds the input from `a0` on. */
  ghost predicate Outstanding(j: Job, o: nat, s: seq<byte>, a0: nat, a: nat, h: nat, base: nat, d: int, bs: seq<nat>, es: seq<nat>, rs: seq<nat>, m: seq<byte>, n: nat) {
    && Supported(j.cfg) && j.cfg.fieldCount == Some(n) && Shows(j, o, s) && o + h <= |j.data|
    && TracksFields(j.cfg, s, a, h, d, bs, es) && TracksRemovals(j.cfg, s, a0, h, d, rs) && a0 <= a && d <= h
    && Holding(j, o, m, a0, base, d) && Aligned(n, 0, Classes(j.cfg, s, a, h))
  }

  lemma OutstandingIs(j: Job, o: nat, s: seq<byte>, a0: nat, a: nat, h: nat, base: nat, d: int, bs: seq<nat>, es: seq<nat>, rs: seq<nat>, m: seq<byte>, n: nat)
    requires Outstanding(j, o, s, a0, a, h, base, d, bs, es, rs, m, n)
    ensures 1 <= n <= 63 && j.cfg.fieldCount == Some(n) && a0 <= a <= h <= |s| && o + h <= |j.data| && d <= h
    ensures Supported(j.cfg) && Shows(j, o, s) && j.cfg.Valid()
    ensures TracksFields(j.cfg, s, a, h, d, bs, es) && TracksRemovals(j.cfg, s, a0, h, d, rs) && RecordStarts(j.cfg, s, a)
    ensures Holding(j, o, m, a0, base, d) && Aligned(n, 0, Classes(j.cfg, s, a, h))
    ensures base == o + d && base <= |m| == |j.data| && Sorted(rs) && |es| == |Positions(Ends, j.cfg, s, a, h)|
  {
    RemovalsAreSorted(j.cfg, s, a0, h, d, rs);
  }

  /** What a batch assembled from the buffer leaves of the scan from `a` on. */
  ghost predicate Yields(j: Job, o: nat, s: seq<byte>, a: nat, base: nat, bs: seq<nat>, es: seq<nat>, rs: seq<nat>, m: seq<byte>,
                         n: nat, count: nat, bnd: nat, stop: bool, last: Option<nat>) {
    && a <= |s| && n >= 1 && count >= 1 && o + a <= |j.data|
    && base <= |m| && Sorted(rs) && Laid(bs, es, count * n, |m| - base)
    && Leaves(j, o, Scan(j, o + a, bnd, Fresh(o + a), last), Assembled(m, base, bs, es, rs, n, count), NthExtent(j.cfg, s, a, n, count - 1), bnd, stop)
    && AllClose(j, o, s, a, n, count)
  }

  /** The `count` records from `a` on are closed by the last one's terminator run. */
  ghost predicate AllClose(j: Job, o: nat, s: seq<byte>, a: nat, n: nat, count: nat)
    requires a <= |s| && n >= 1 && count >= 1
  {
    var x := NthExtent(j.cfg, s, a, n, count - 1).x;
    CloseWithin(j, o, a, x + 1, count)
  }

  lemma AllCloseIs(j: Job, o: nat, s: seq<byte>, a: nat, n: nat, count: nat)
    requires a <= |s| && n >= 1 && count >= 1 && AllClose(j, o, s, a, n, count)
    ensures CloseWithin(j, o, a, NthExtent(j.cfg, s, a, n, count - 1).x + 1, count)
  {
    hide NthExtent, CloseWithin;
  }

  lemma IsAllClose(j: Job, o: nat, s: seq<byte>, a: nat, n: nat, count: nat)
    requires a <= |s| && n >= 1 && count >= 1
    requires CloseWithin(j, o, a, NthExtent(j.cfg, s, a, n, count - 1).x + 1, count)
    ensures AllClose(j, o, s, a, n, count)
  {
    hide NthExtent, CloseWithin;
  }

  lemma OneCloses(j: Job, o: nat, s: seq<byte>, a: nat, n: nat, x: nat)
    requires a <= |s| && n >= 1 && NthExtent(j.cfg, s, a, n, 0).x == x && a <= x && o + x < |j.data| && Closes(j, o, o + x)
    ensures AllClose(j, o, s, a, n, 1)
  {
    hide NthExtent, Closes;
    OneClosed(j, o, a, x, x + 1);
  }

  lemma MoreClose(j: Job, o: nat, s: seq<byte>, a: nat, n: nat, count: nat, x: nat, re: nat)
    requires a <= x <= re < |s| && n >= 1 && count > 1 && o + x < |j.data| && Closes(j, o, o + x)
    requires NthExtent(j.cfg, s, a, n, count - 1) == NthExtent(j.cfg, s, re + 1, n, count - 2) && AllClose(j, o, s, re + 1, n, count - 1)
    ensures AllClose(j, o, s, a, n, count)
  {
    hide *;
    AllCloseIs(j, o, s, re + 1, n, count - 1);
    var hi := NthExtent(j.cfg, s, a, n, count - 1).x + 1;
    CloseWithinIs(j, o, re + 1, hi, count - 1);
    OneMoreClosed(j, o, o + a, o + x, o + hi);
    ClosingsSplit(j, o, o + x + 1, o + re + 1, o + hi);
    IsCloseWithin(j, o, a, hi, count);
    IsAllClose(j, o, s, a, n, count);
  }

  /** A batch, assembled from the buffer, is what the scan yields from its first record on. */
  lemma {:induction false} BatchScan(j: Job, o: nat, s: seq<byte>, a0: nat, a: nat, h: nat, base: nat, d: int,
                                     bs: seq<nat>, es: seq<nat>, rs: seq<nat>, m: seq<byte>, n: nat, count: nat, bnd: nat, stop: bool, last: Option<nat>)
    requires Outstanding(j, o, s, a0, a, h, base, d, bs, es, rs, m, n)
    requires count * n <= |es| && Complete(j.cfg, s, o, a, h, n, count, bnd, stop)
    ensures Yields(j, o, s, a, base, bs, es, rs, m, n, count, bnd, stop, last)
    decreases count
  {
    hide *;
    OutstandingIs(j, o, s, a0, a, h, base, d, bs, es, rs, m, n);
    CompleteIs(j.cfg, s, o, a, h, n, count, bnd, stop);
    OneLess(count, n);
    var x, re := NextRecord(j, o, s, a, h, bnd, last);
    ExtentIs(j.cfg, s, a, n);
    LaidInBuffer(j, o, s, a, h, base, d, bs, es, count * n);
    RecordIs(j, o, s, a0, a, h, base, d, bs, es, rs, m, n);
    AssembledUnfolds(m, base, bs, es, rs, n, count);
    StridedLists(j.cfg, s, a, h, n, re);
    var r := FieldsOf(j.cfg, s, a, n);
    var whole := Scan(j, o + a, bnd, Fresh(o + a), last);
    NthExtentIs(j.cfg, s, a, n, count);
    RecordStartIs(j.cfg, s, a);
    var z := StridedSegment(j.cfg, s, a, h, n, x, re);
    StridedTerm(j.cfg, s, a, h, n, x);
    SegmentOrder(j.cfg, s, z, x, re);
    SegmentCloses(j, o, s, z, x, re);
    if count == 1 {
      OneCloses(j, o, s, a, n, x);
      NothingAssembled(m, base, bs[n..], es[n..], rs, n);
      assert Assembled(m, base, bs, es, rs, n, count) == [r];
      OneLeaves(j, o, whole, r, Extent(x, re), bnd, stop, o + a);
    } else {
      DropFields(j, o, s, a, h, d, bs, es, n, x, re);
      StillOutstanding(j, o, s, a0, a, re + 1, h, base, d, bs, es, rs, m, n);
      BatchScan(j, o, s, a0, re + 1, h, base, d, bs[n..], es[n..], rs, m, n, count - 1, bnd, stop, Some(o + x));
      YieldsIs(j, o, s, re + 1, base, bs[n..], es[n..], rs, m, n, count - 1, bnd, stop, Some(o + x));
      MoreLeaves(j, o, whole, r, Extent(x, re), Scan(j, o + re + 1, bnd, Fresh(o + re + 1), Some(o + x)),
                 Assembled(m, base, bs[n..], es[n..], rs, n, count - 1), NthExtent(j.cfg, s, re + 1, n, count - 2), bnd, stop, o + a);
      MoreClose(j, o, s, a, n, count, x, re);
    }
    Yielded(j, o, s, a, base, bs, es, rs, m, n, count, bnd, stop, last);
  }

  lemma StillOutstanding(j: Job, o: nat, s: seq<byte>, a0: nat, a: nat, b: nat, h: nat, base: nat, d: int, bs: seq<nat>, es: seq<nat>, rs: seq<nat>, m: seq<byte>, n: nat)
    requires Outstanding(j, o, s, a0, a, h, base, d, bs, es, rs, m, n) && a <= b && n <= |bs| && n <= |es|
    requires TracksFields(j.cfg, s, b, h, d, bs[n..], es[n..]) && b <= h && n >= 1 && Aligned(n, 0, Classes(j.cfg, s, b, h))
    ensures Outstanding(j, o, s, a0, b, h, base, d, bs[n..], es[n..], rs, m, n)
  {
    hide Supported, Shows, TracksFields, TracksRemovals, Holding, Aligned;
  }

  lemma YieldsIs(j: Job, o: nat, s: seq<byte>, a: nat, base: nat, bs: seq<nat>, es: seq<nat>, rs: seq<nat>, m: seq<byte>,
                 n: nat, count: nat, bnd: nat, stop: bool, last: Option<nat>)
    requires Yields(j, o, s, a, base, bs, es, rs, m, n, count, bnd, stop, last)
    ensures a <= |s| && n >= 1 && count >= 1 && o + a <= |j.data|
    ensures base <= |m| && Sorted(rs) && Laid(bs, es, count * n, |m| - base)
    ensures Leaves(j, o, Scan(j, o + a, bnd, Fresh(o + a), last), Assembled(m, base, bs, es, rs, n, count), NthExtent(j.cfg, s, a, n, count - 1), bnd, stop)
    ensures AllClose(j, o, s, a, n, count)
  {
  }

  lemma Yielded(j: Job, o: nat, s: seq<byte>, a: nat, base: nat, bs: seq<nat>, es: seq<nat>, rs: seq<nat>, m: seq<byte>,
                n: nat, count: nat, bnd: nat, stop: bool, last: Option<nat>)
    requires a <= |s| && n >= 1 && count >= 1 && o + a <= |j.data|
    requires base <= |m| && Sorted(rs) && Laid(bs, es, count * n, |m| - base)
    requires Leaves(j, o, Scan(j, o + a, bnd, Fresh(o + a), last), Assembled(m, base, bs, es, rs, n, count), NthExtent(j.cfg, s, a, n, count - 1), bnd, stop)
    requires AllClose(j, o, s, a, n, count)
    ensures Yields(j, o, s, a, base, bs, es, rs, m, n, count, bnd, stop, last)
  {
  }

  lemma NothingAssembled(m: seq<byte>, base: nat, bs: seq<nat>, es: seq<nat>, rs: seq<nat>, n: nat)
    requires Sorted(rs) && base <= |m| && Laid(bs, es, 0, |m| - base)
    ensures Assembled(m, base, bs, es, rs, n, 0) == []
  {
  }

  lemma NthExtentIs(c: Config, s: seq<byte>, a: nat, n: nat, count: nat)
    requires a <= |s| && n >= 1 && count >= 1
    ensures count == 1 ==> NthExtent(c, s, a, n, count - 1) == ExtentOf(c, s, a, n)
    ensures count > 1 && ExtentOf(c, s, a, n).x < |s| ==> NthExtent(c, s, a, n, count - 1) == NthExtent(c, s, ExtentOf(c, s, a, n).re + 1, n, count - 2)
  {
    hide ExtentOf;
  }

  /** The lists from the `k`-th pending record on. */
  ghost predicate NthReady(j: Job, o: nat, s: seq<byte>, a0: nat, a: nat, h: nat, base: nat, d: int,
                           bs: seq<nat>, es: seq<nat>, rs: seq<nat>, m: seq<byte>, n: nat, k: nat, i: nat) {
    && a <= |s| && n >= 1 && i <= |es| && i <= |bs|
    && var b := Nth(j.cfg, s, a, n, k);
    && a <= b <= h && Outstanding(j, o, s, a0, b, h, base, d, bs[i..], es[i..], rs, m, n)
    && var e := ExtentOf(j.cfg, s, a, n);
    && (k >= 1 ==> e.x < h && e.re < h && e.re + 1 <= b)
  }

  lemma {:induction false} NthPending(j: Job, o: nat, s: seq<byte>, a0: nat, a: nat, h: nat, base: nat, d: int,
                                      bs: seq<nat>, es: seq<nat>, rs: seq<nat>, m: seq<byte>, n: nat, k: nat, i: nat)
    requires Outstanding(j, o, s, a0, a, h, base, d, bs, es, rs, m, n) && i + n <= |es| && i == k * n
    ensures NthReady(j, o, s, a0, a, h, base, d, bs, es, rs, m, n, k, i)
    decreases k
  {
    hide *;
    OutstandingIs(j, o, s, a0, a, h, base, d, bs, es, rs, m, n);
    LaidInBuffer(j, o, s, a, h, base, d, bs, es, i);
    LaidIn(bs, es, i, |m| - base);
    NthIs(j.cfg, s, a, n, k);
    ExtentIs(j.cfg, s, a, n);
    if k == 0 {
      assert bs[0..] == bs && es[0..] == es;
      IsNthReady(j, o, s, a0, a, h, base, d, bs, es, rs, m, n, k, i, a);
    } else {
      OneLess(k, n);
      var x, re := NextRecord(j, o, s, a, h, 0, None);
      StridedLists(j.cfg, s, a, h, n, re);
      MoreThanOne(j.cfg, s, a, h, n, re);
      DropFields(j, o, s, a, h, d, bs, es, n, x, re);
      StillOutstanding(j, o, s, a0, a, re + 1, h, base, d, bs, es, rs, m, n);
      NthPending(j, o, s, a0, re + 1, h, base, d, bs[n..], es[n..], rs, m, n, k - 1, i - n);
      NthReadyIs(j, o, s, a0, re + 1, h, base, d, bs[n..], es[n..], rs, m, n, k - 1, i - n);
      SliceOfSlice2(bs, n, i - n, i);
      SliceOfSlice2(es, n, i - n, i);
      IsNthReady(j, o, s, a0, a, h, base, d, bs, es, rs, m, n, k, i, Nth(j.cfg, s, re + 1, n, k - 1));
    }
  }

  lemma NthReadyIs(j: Job, o: nat, s: seq<byte>, a0: nat, a: nat, h: nat, base: nat, d: int,
                   bs: seq<nat>, es: seq<nat>, rs: seq<nat>, m: seq<byte>, n: nat, k: nat, i: nat)
    requires NthReady(j, o, s, a0, a, h, base, d, bs, es, rs, m, n, k, i)
    ensures a <= |s| && n >= 1 && i <= |es| && i <= |bs|
    ensures a <= Nth(j.cfg, s, a, n, k) <= h
    ensures Outstanding(j, o, s, a0, Nth(j.cfg, s, a, n, k), h, base, d, bs[i..], es[i..], rs, m, n)
    ensures k >= 1 ==> var e := ExtentOf(j.cfg, s, a, n); e.x < h && e.re < h && e.re + 1 <= Nth(j.cfg, s, a, n, k)
  {
    hide Outstanding, ExtentOf, Nth;
  }

  lemma IsNthReady(j: Job, o: nat, s: seq<byte>, a0: nat, a: nat, h: nat, base: nat, d: int,
                   bs: seq<nat>, es: seq<nat>, rs: seq<nat>, m: seq<byte>, n: nat, k: nat, i: nat, b: nat)
    requires a <= |s| && n >= 1 && i <= |es| && i <= |bs| && b == Nth(j.cfg, s, a, n, k) && a <= b <= h
    requires Outstanding(j, o, s, a0, b, h, base, d, bs[i..], es[i..], rs, m, n)
    requires k >= 1 ==> var e := ExtentOf(j.cfg, s, a, n); e.x < h && e.re < h && e.re + 1 <= b
    ensures NthReady(j, o, s, a0, a, h, base, d, bs, es, rs, m, n, k, i)
  {
    hide Outstanding, ExtentOf;
  }

  lemma SliceOfSlice2(xs: seq<nat>, p: nat, q: nat, r: nat)
    requires p + q == r <= |xs|
    ensures xs[p..][q..] == xs[r..]
  {
  }

  /** More ends than the record has fields: its run ended inside the vectors. */
  lemma MoreThanOne(c: Config, s: seq<byte>, a: nat, h: nat, n: nat, re: nat)
    requires a <= h && Strided(c, s, a, h, n) && a <= |s| && n >= 1 && RunOf(c, s, a, n) < |s| && re == Last(c, s, RunOf(c, s, a, n))
    ensures |Positions(Ends, c, s, a, h)| > n ==> re < h
  {
  }

  /** The resolved part `w` of the buffer between a record's last end and the record after it. */
  ghost predicate RunShape(c: Config, w: seq<byte>, from: nat, x: int, re: int) {
    && from <= x <= re
    && (forall q :: from <= q < x && q < |w| ==> !c.IsTerm(w[q]))
    && (forall q :: x <= q <= re && q < |w| ==> c.IsTerm(w[q]))
    && (re + 1 < |w| ==> !c.IsTerm(w[re + 1]))
  }

  /** The resolved part of the buffer. */
  function Window(m: seq<byte>, base: nat, d: int, h: nat): seq<byte>
    requires d <= h && base + (h - d) <= |m|
  {
    m[base..base + (h - d)]
  }

  /** The last end of the `k`-th pending record, and its terminator run. */
  ghost predicate NthShape(j: Job, s: seq<byte>, a: nat, h: nat, base: nat, d: int, es: seq<nat>, m: seq<byte>, n: nat, k: nat, i: nat, z: nat) {
    && a <= |s| && n >= 1 && a <= z && d <= h && base + (h - d) <= |m|
    && var e := NthExtent(j.cfg, s, a, n, k);
    && e.x < |s| && Segment(j.cfg, s, z, e.x, e.re)
    && i + n <= |es| && es[i + n - 1] + d == EndOf(j.cfg, s, e.x) && es[i + n - 1] + d < h
    && RunShape(j.cfg, Window(m, base, d, h), es[i + n - 1], e.x - d, e.re - d)
    && (e.re < h && e.x < h ==> RecordStarts(j.cfg, s, e.re + 1) && Aligned(n, 0, Classes(j.cfg, s, e.re + 1, h)))
  }

  lemma NthRun(j: Job, o: nat, s: seq<byte>, a: nat, h: nat, base: nat, d: int,
               bs: seq<nat>, es: seq<nat>, rs: seq<nat>, m: seq<byte>, n: nat, k: nat, i: nat) returns (z: nat)
    requires Outstanding(j, o, s, a, a, h, base, d, bs, es, rs, m, n) && i + n <= |es| && i == k * n
    ensures NthShape(j, s, a, h, base, d, es, m, n, k, i, z)
  {
    hide *;
    NthPending(j, o, s, a, a, h, base, d, bs, es, rs, m, n, k, i);
    NthReadyIs(j, o, s, a, a, h, base, d, bs, es, rs, m, n, k, i);
    OutstandingIs(j, o, s, a, a, h, base, d, bs, es, rs, m, n);
    var b, es1 := Nth(j.cfg, s, a, n, k), es[i..];
    OutstandingIs(j, o, s, a, b, h, base, d, bs[i..], es1, rs, m, n);
    var x, re := NextRecord(j, o, s, b, h, 0, None);
    ExtentIs(j.cfg, s, b, n);
    NthExtentOf(j.cfg, s, a, n, k);
    TracksFieldsIs(j.cfg, s, b, h, d, bs[i..], es1);
    z := StridedSegment(j.cfg, s, b, h, n, x, re);
    Unshift(es1, d, Positions(Ends, j.cfg, s, b, h));
    StridedEnd(j.cfg, s, b, h, n, x);
    assert es1[n - 1] == es[i + n - 1];
    if x < h { StridedTerm(j.cfg, s, b, h, n, x); }
    RunShown(j, o, s, a, h, base, d, m, z, x, re, es[i + n - 1]);
    IsNthShape(j, s, a, h, base, d, es, m, n, k, i, z, Extent(x, re));
  }

  lemma IsNthShape(j: Job, s: seq<byte>, a: nat, h: nat, base: nat, d: int, es: seq<nat>, m: seq<byte>, n: nat, k: nat, i: nat, z: nat, e: Extent)
    requires a <= |s| && n >= 1 && a <= z && d <= h && base + (h - d) <= |m| && e == NthExtent(j.cfg, s, a, n, k)
    requires e.x < |s| && Segment(j.cfg, s, z, e.x, e.re)
    requires i + n <= |es| && es[i + n - 1] + d == EndOf(j.cfg, s, e.x) && es[i + n - 1] + d < h
    requires RunShape(j.cfg, Window(m, base, d, h), es[i + n - 1], e.x - d, e.re - d)
    requires e.re < h && e.x < h ==> RecordStarts(j.cfg, s, e.re + 1) && Aligned(n, 0, Classes(j.cfg, s, e.re + 1, h))
    ensures NthShape(j, s, a, h, base, d, es, m, n, k, i, z)
  {
    hide RunShape, Segment, EndOf, NthExtent;
  }

  lemma NthExtentOf(c: Config, s: seq<byte>, a: nat, n: nat, k: nat)
    requires a <= |s| && n >= 1
    ensures NthExtent(c, s, a, n, k) == ExtentOf(c, s, Nth(c, s, a, n, k), n)
  {
  }

  lemma StridedEnd(c: Config, s: seq<byte>, a: nat, h: nat, n: nat, x: nat)
    requires a <= h && Strided(c, s, a, h, n) && a <= |s| && n >= 1 && x == RunOf(c, s, a, n)
    ensures n <= |Positions(Ends, c, s, a, h)| && Positions(Ends, c, s, a, h)[n - 1] == EndOf(c, s, x)
  {
    hide BeginsFrom, Positions, FieldsOf, RunOf, DelimRun, Last, Starts, EndOf, Classes, Term, Delimits;
  }

  lemma StridedTerm(c: Config, s: seq<byte>, a: nat, h: nat, n: nat, x: nat)
    requires a <= h && Strided(c, s, a, h, n) && a <= |s| && n >= 1 && x == RunOf(c, s, a, n) && x < h
    ensures Term(c, s, x)
  {
    hide BeginsFrom, Positions, FieldsOf, RunOf, DelimRun, Last, Starts, EndOf, Classes, Term, Delimits;
  }

  /** The resolved part of the buffer shows the stream. */
  lemma WindowShows(j: Job, o: nat, s: seq<byte>, a: nat, h: nat, base: nat, d: int, m: seq<byte>, e: nat)
    requires Shows(j, o, s) && Holding(j, o, m, a, base, d) && o + h <= |j.data| && h <= |s| && d <= h && a <= e + d
    ensures base + (h - d) <= |m|
    ensures forall q :: e <= q < |Window(m, base, d, h)| ==> Window(m, base, d, h)[q] == s[q + d]
  {
    HoldingIs(j, o, m, a, base, d);
    if e + d <= h {
      SameAsShown(j, o, s, m, a, base, d, e, h - d);
      var w := Window(m, base, d, h);
      var x, y := m[base + e..base + (h - d)], s[e + d..(h - d) + d];
      forall q | e <= q < |w| ensures w[q] == s[q + d] {
        assert w[q] == x[q - e];
        assert y[q - e] == s[q + d];
      }
    }
  }

  /** The run's bytes in the buffer. */
  lemma RunShown(j: Job, o: nat, s: seq<byte>, a: nat, h: nat, base: nat, d: int, m: seq<byte>, z: nat, x: nat, re: nat, e: nat)
    requires Supported(j.cfg) && Shows(j, o, s) && Holding(j, o, m, a, base, d) && o + h <= |j.data| && h <= |s| && d <= h
    requires Segment(j.cfg, s, z, x, re) && a <= z && e + d == EndOf(j.cfg, s, x) && (x < h ==> Term(j.cfg, s, x))
    ensures base + (h - d) <= |m| && RunShape(j.cfg, Window(m, base, d, h), e, x - d, re - d)
  {
    hide *;
    SupportedIsValid(j.cfg);
    EndInSegment(j.cfg, s, z, x, re);
    SegmentOrder(j.cfg, s, z, x, re);
    WindowShows(j, o, s, a, h, base, d, m, e);
    var w := Window(m, base, d, h);
    WindowLength(m, base, d, h);
    forall q | e <= q < |w| ensures
      && (q < x - d ==> !j.cfg.IsTerm(w[q]))
      && (x - d <= q <= re - d ==> j.cfg.IsTerm(w[q]))
      && (q == re - d + 1 ==> !j.cfg.IsTerm(w[q]))
    {
      RunByte(j.cfg, s, z, x, re, q + d);
    }
    IsRunShape(j.cfg, w, e, x - d, re - d);
  }

  lemma WindowLength(m: seq<byte>, base: nat, d: int, h: nat)
    requires d <= h && base + (h - d) <= |m|
    ensures |Window(m, base, d, h)| == h - d
  {
  }

  lemma IsRunShape(c: Config, w: seq<byte>, from: nat, x: int, re: int)
    requires from <= x <= re
    requires forall q :: from <= q < |w| ==>
      && (q < x ==> !c.IsTerm(w[q]))
      && (x <= q <= re ==> c.IsTerm(w[q]))
      && (q == re + 1 ==> !c.IsTerm(w[q]))
    ensures RunShape(c, w, from, x, re)
  {
  }

  /** The bytes from a record's last end on: a closing quote perhaps, the run, and then content. */
  lemma RunByte(c: Config, s: seq<byte>, z: nat, x: nat, re: nat, q: nat)
    requires c.Valid() && Segment(c, s, z, x, re) && (x <= q ==> Term(c, s, x)) && EndOf(c, s, x) <= q < |s|
    ensures q < x ==> !c.IsTerm(s[q])
    ensures x <= q <= re ==> c.IsTerm(s[q])
    ensures q == re + 1 ==> !c.IsTerm(s[q])
  {
    hide Odd, Delim, Opener, Begin, Closer, End, Removed, RunEnd, BoundB, BoundE;
    EndInSegment(c, s, z, x, re);
    DelimIsNotTerm(c, s, x);
    if q < x {
      assert Quote(c, s, x - 1);
    } else if q <= re {
      assert Term(c, s, q);
    } else if q == re + 1 {
      SegmentStarts(c, s, z, x, re);
      StartsClean(c, s, re + 1);
      InsideStep(c, s, re + 1);
      assert !Term(c, s, re + 1);
    }
  }

  /** Per-record facts make a batch. */
  lemma {:induction false} CompleteFromEach(c: Config, s: seq<byte>, o: nat, a: nat, h: nat, n: nat, count: nat, bnd: nat, stop: bool)
    requires a <= |s| && n >= 1 && count >= 1
    requires forall k :: 0 <= k < count ==> NthExtent(c, s, a, n, k).x < h && NthExtent(c, s, a, n, k).x < |s|
    requires forall k :: 0 <= k < count - 1 ==> NthExtent(c, s, a, n, k).re < h && o + NthExtent(c, s, a, n, k).re < bnd
    requires var e := NthExtent(c, s, a, n, count - 1); if stop then bnd <= o + e.re else e.re < h && o + e.re < bnd
    ensures Complete(c, s, o, a, h, n, count, bnd, stop)
    decreases count
  {
    hide ExtentOf, Nth;
    NthIs(c, s, a, n, 0);
    assert NthExtent(c, s, a, n, 0) == ExtentOf(c, s, a, n);
    if count > 1 {
      var b := ExtentOf(c, s, a, n).re + 1;
      forall k | 0 <= k < count - 1 ensures NthExtent(c, s, b, n, k) == NthExtent(c, s, a, n, k + 1) {
        NthIs(c, s, a, n, k + 1);
      }
      CompleteFromEach(c, s, o, b, h, n, count - 1, bnd, stop);
    }
  }
}
