/** The index stepper's books as values: what each of its steps keeps of the reference scan. */
module Ledger {
  import opened Dialect
  import opened Records
  import opened Handed
  import opened Masks
  import opened Stream
  import opened Segments
  import opened FieldWalk
  import opened FieldCount
  import opened RecordWalk
  import opened Stride
  import opened Refinement
  import opened VectorScanner
  import opened InPlace
  import opened Index
  import opened Padding
  import opened LiveIndex
  import opened Flush
  import opened Endings
  import opened Batch
  import opened Select
  import opened Stepper
  import opened BadRecord

  /** How far the stream is resolved once `fed` vectors went in: one vector lags, `m` lanes were padding. */
  function ResolvedTo(fed: nat, m: nat): nat {
    if 64 * fed <= 64 + m then 0 else 64 * fed - 64 - m
  }

  /** One run's input: it starts at `o`, and not on a blank line; the vectors show it as `s` behind `m` lanes of padding. */
  ghost predicate Feeds(j: Job, o: nat, m: nat, s: seq<byte>) {
    && Supported(j.cfg) && o <= |j.data| && m < 64 && s == Shown(j, o, m)
    && (o < |j.data| ==> !j.cfg.IsTerm(j.data[o]))
  }

  lemma FeedsIs(j: Job, o: nat, m: nat, s: seq<byte>)
    requires Feeds(j, o, m, s)
    ensures Supported(j.cfg) && o <= |j.data| && m < 64 && j.cfg.Valid() && j.cfg.fieldCount.Some? && 1 <= j.cfg.fieldCount.value <= 63
    ensures Shows(j, o, s) && Vectors(j, o, m) == Pads(j.cfg, m) + s && |j.data| - o <= |s|
    ensures RecordStarts(j.cfg, s, 0)
  {
    ShownIs(j, o, m);
    NoBlankFirst(j, o, s);
    StartOfStream(j, o, s);
  }

  lemma NoBlankFirst(j: Job, o: nat, s: seq<byte>)
    requires Shows(j, o, s) && (o < |j.data| ==> !j.cfg.IsTerm(j.data[o]))
    ensures !Term(j.cfg, s, 0)
  {
  }

  /** The classes seen are the stream's, and where they belong. */
  ghost predicate Counted(j: Job, s: seq<byte>, h: nat, seen: seq<bool>, n: nat) {
    seen == Classes(j.cfg, s, 0, h) && n >= 1 && Aligned(n, 0, seen)
  }

  /** Terminators complete records, so at a record start the phase is zero. */
  lemma PhaseAtRecord(j: Job, s: seq<byte>, a: nat, h: nat, h2: nat, n: nat)
    requires j.cfg.Valid() && n >= 1 && RecordStarts(j.cfg, s, a) && a <= h <= h2
    requires Aligned(n, 0, Classes(j.cfg, s, 0, h))
    ensures Aligned(n, 0, Classes(j.cfg, s, 0, h2)) <==> Aligned(n, 0, Classes(j.cfg, s, a, h2))
    ensures Aligned(n, 0, Classes(j.cfg, s, a, h))
  {
    hide *;
    var c := j.cfg;
    ClassesSplit(c, s, 0, a, h);
    ClassesSplit(c, s, 0, a, h2);
    AlignedConcat(n, Classes(c, s, 0, a), Classes(c, s, a, h));
    AlignedConcat(n, Classes(c, s, 0, a), Classes(c, s, a, h2));
    if a == 0 {
      NoneYet(c, s);
    } else {
      LastClass(c, s, a);
      ClassesSplit(c, s, 0, a - 1, a);
      WholeRecords(n, Classes(c, s, 0, a));
    }
    ZeroPhase(n);
  }

  /** Everything before a record start is whole records. */
  lemma WholeBefore(j: Job, s: seq<byte>, a: nat, h: nat, seen: seq<bool>, n: nat)
    requires j.cfg.Valid() && RecordStarts(j.cfg, s, a) && a <= h && Counted(j, s, h, seen, n)
    ensures n >= 1 && Aligned(n, 0, Classes(j.cfg, s, 0, a)) && |Classes(j.cfg, s, 0, a)| % n == 0
  {
    hide *;
    var c := j.cfg;
    CountedIs(j, s, h, seen, n);
    ClassesSplit(c, s, 0, a, h);
    AlignedConcat(n, Classes(c, s, 0, a), Classes(c, s, a, h));
    if a == 0 {
      NoneYet(c, s);
    } else {
      LastClass(c, s, a);
      ClassesSplit(c, s, 0, a - 1, a);
      WholeRecords(n, Classes(c, s, 0, a));
    }
    ZeroPhase(n);
  }

  lemma ZeroPhase(n: nat)
    requires n >= 1
    ensures 0 % n == 0
  {
  }

  lemma NoneYet(c: Config, s: seq<byte>)
    ensures Classes(c, s, 0, 0) == []
  {
  }

  lemma LastClass(c: Config, s: seq<byte>, a: nat)
    requires c.Valid() && RecordStarts(c, s, a) && a > 0
    ensures Classes(c, s, a - 1, a) == [true]
  {
    DelimIsNotTerm(c, s, a - 1);
    OneClass(c, s, a - 1);
  }

  lemma WholeRecords(n: nat, p: seq<bool>)
    requires n >= 1 && Aligned(n, 0, p) && p != [] && p[|p| - 1]
    ensures |p| % n == 0
  {
    AfterHit(n, 0, |p| - 1);
  }

  /** The books: pending lists from the record at `a`, and the consume limit in front of it. */
  ghost predicate Booked(j: Job, o: nat, s: seq<byte>, a: nat, h: nat, base: nat, l: Lists, bufStart: nat, m: seq<byte>, n: nat) {
    && o <= base && Ready(j, o, s, a, h, base, base - o, l, m, n)
    && o + a == base + bufStart
  }

  lemma BookedIs(j: Job, o: nat, s: seq<byte>, a: nat, h: nat, base: nat, l: Lists, bufStart: nat, m: seq<byte>, n: nat)
    requires Booked(j, o, s, a, h, base, l, bufStart, m, n)
    ensures o <= base && o + a == base + bufStart && 1 <= n <= 63 && j.cfg.fieldCount == Some(n)
    ensures Ready(j, o, s, a, h, base, base - o, l, m, n) && Outstanding(j, o, s, a, a, h, base, base - o, l.bs, l.es, l.rs, m, n)
    ensures a <= h <= |s| && o + h <= |j.data| == |m| && Sorted(l.rs) && RecordStarts(j.cfg, s, a)
    ensures Unread(m, j.data, o + a)
  {
    hide Ready, Outstanding, Holding, Supported, Shows, Unread, Sorted, RecordStarts;
    ReadyIs(j, o, s, a, h, base, base - o, l, m, n);
    OutstandingIs(j, o, s, a, a, h, base, base - o, l.bs, l.es, l.rs, m, n);
    HoldingIs(j, o, m, a, base, base - o);
  }

  /** What remains of the scan at the books' record. */
  ghost function Remains(j: Job, o: nat, a: nat, bnd: nat, last: Option<nat>): Outcome
    requires o + a <= |j.data|
  {
    Scan(j, o + a, bnd, Fresh(o + a), last)
  }

  /** The chosen batch, assembled, against the scan. */
  lemma BatchLeaves(j: Job, o: nat, s: seq<byte>, a: nat, h: nat, base: nat, l: Lists, bufStart: nat, m: seq<byte>, n: nat,
                    bnd: nat, count: nat, stop: bool, run: TermRun, last: Option<nat>)
    requires Booked(j, o, s, a, h, base, l, bufStart, m, n) && o + a <= |j.data|
    requires count >= 1 && Chosen(j.cfg, s, o, a, h, n, base - o, l.es, bnd, count, stop, run)
    ensures Yields(j, o, s, a, base, l.bs, l.es, l.rs, m, n, count, bnd, stop, last)
  {
    hide *;
    BookedIs(j, o, s, a, h, base, l, bufStart, m, n);
    ChosenIs(j.cfg, s, o, a, h, n, base - o, l.es, bnd, count, stop, run);
    BatchScan(j, o, s, a, a, h, base, base - o, l.bs, l.es, l.rs, m, n, count, bnd, stop, last);
  }

  lemma RemainsIs(j: Job, o: nat, a: nat, bnd: nat, last: Option<nat>)
    requires o + a <= |j.data|
    ensures Remains(j, o, a, bnd, last) == Scan(j, o + a, bnd, Fresh(o + a), last)
  {
    hide Scan;
  }

  lemma ChosenIs(c: Config, s: seq<byte>, o: nat, a: nat, h: nat, n: nat, d: int, es: seq<nat>, bnd: nat, count: nat, stop: bool, last: TermRun)
    requires Chosen(c, s, o, a, h, n, d, es, bnd, count, stop, last)
    ensures a <= |s| && n >= 1 && count * n <= |es|
    ensures count > 0 ==>
          && Complete(c, s, o, a, h, n, count, bnd, stop)
          && !last.Unresolved? && last.start + d == NthExtent(c, s, a, n, count - 1).x
          && (last.Ended? ==> last.end + d == NthExtent(c, s, a, n, count - 1).re)
          && (!stop ==> last.Ended?)
          && (stop ==> bnd < o + h)
          && NthExtent(c, s, a, n, count - 1).x < h
  {
    hide Complete, NthExtent;
    if count > 0 {
      LastComplete(c, s, o, a, h, n, count, bnd, stop);
    }
  }

  /** Everything was accepted, and the batch ends the chunk. */
  lemma StopLeaves(j: Job, o: nat, whole: Outcome, records: seq<Record>, e: Extent, bnd: nat)
    requires Leaves(j, o, whole, records, e, bnd, true) && Index.AllAccepted(j.accept, records)
    ensures whole == Ok(records, Some(Max(bnd, o + e.x)))
  {
  }

  lemma GoLeaves(j: Job, o: nat, whole: Outcome, records: seq<Record>, e: Extent, bnd: nat)
    requires Leaves(j, o, whole, records, e, bnd, false) && Index.AllAccepted(j.accept, records)
    ensures o + e.re + 1 <= |j.data| && whole == Prepend(records, Remains(j, o, e.re + 1, bnd, Some(o + e.x)))
  {
    hide Scan;
  }

  lemma RejectLeaves(j: Job, o: nat, whole: Outcome, records: seq<Record>, e: Extent, bnd: nat, stop: bool, emitted: seq<Record>, r: Record)
    requires Leaves(j, o, whole, records, e, bnd, stop)
    requires Index.AllAccepted(j.accept, emitted) && !j.accept(r) && emitted + [r] <= records
    ensures whole == Err(emitted, Rejected(r))
  {
    hide Scan;
  }

  /** Where the next chunk takes over: at the run's first byte, or at the boundary inside a run that stops the chunk. */
  function Handoff(runStart: nat, rem: nat, stop: bool): nat {
    if stop then Max(rem, runStart) else runStart
  }

  /** The handed-off offset is the scan's record end. */
  lemma HandoffIsEnd(base: nat, o: nat, x: nat, start: nat, rem: nat, bnd: nat)
    requires rem == (if bnd < base then 0 else bnd - base) && base + start == o + x
    ensures base + Handoff(start, rem, true) == Max(bnd, o + x)
    ensures base + Handoff(start, rem, false) == o + x
  {
  }

  lemma MaxBelow(x: nat, y: nat, lim: int)
    requires x < lim && y < lim
    ensures x <= Max(x, y) < lim
  {
  }

  /** The books after a batch that does not end the chunk. */
  lemma BooksAdvance(j: Job, o: nat, s: seq<byte>, a: nat, h: nat, base: nat, l: Lists, bufStart: nat, m: seq<byte>, m': seq<byte>, n: nat,
                     bnd: nat, count: nat, run: TermRun, i: nat, p: nat)
    requires Booked(j, o, s, a, h, base, l, bufStart, m, n)
    requires count >= 1 && Chosen(j.cfg, s, o, a, h, n, base - o, l.es, bnd, count, false, run)
    requires i == count * n && 1 <= i <= |l.es| && i <= |l.bs| && p <= |l.rs| && Past(l.rs, p, l.es[i - 1])
    requires Behind(m', m, base + l.es[i - 1])
    ensures a <= |s| && n >= 1 && run.Ended?
    ensures var e := NthExtent(j.cfg, s, a, n, count - 1);
            && e.re < h && base + run.end == o + e.re && base + run.start == o + e.x
            && Booked(j, o, s, e.re + 1, h, base, Lists(l.bs[i..], l.es[i..], l.rs[p..]), run.end + 1, m', n)
            && Fenced(j, o, e.re + 1, m')
  {
    hide *;
    var d := base - o;
    BookedIs(j, o, s, a, h, base, l, bufStart, m, n);
    ChosenIs(j.cfg, s, o, a, h, n, d, l.es, bnd, count, false, run);
    OneLess(count, n);
    var k, q := count - 1, i - n;
    var z := NthRun(j, o, s, a, h, base, d, l.bs, l.es, l.rs, m, n, k, q);
    NthShapeIs(j, s, a, h, base, d, l.es, m, n, k, q, z);
    NthPending(j, o, s, a, a, h, base, d, l.bs, l.es, l.rs, m, n, k, q);
    NthReadyIs(j, o, s, a, a, h, base, d, l.bs, l.es, l.rs, m, n, k, q);
    var e := NthExtent(j.cfg, s, a, n, k);
    LastBefore(j.cfg, s, o, a, h, n, count, bnd);
    var b := Nth(j.cfg, s, a, n, k);
    OutstandingIs(j, o, s, a, b, h, base, d, l.bs[q..], l.es[q..], l.rs, m, n);
    var x, re := NextRecord(j, o, s, b, h, 0, None);
    NthExtentOf(j.cfg, s, a, n, k);
    ExtentIs(j.cfg, s, b, n);
    DropFields(j, o, s, b, h, d, l.bs[q..], l.es[q..], n, x, re);
    SliceOfSlice2(l.bs, q, n, i);
    SliceOfSlice2(l.es, q, n, i);
    OutstandingIs(j, o, s, a, a, h, base, d, l.bs, l.es, l.rs, m, n);
    SegmentOrder(j.cfg, s, z, x, re);
    EndInSegment(j.cfg, s, z, x, re);
    DropRemovals(j.cfg, s, a, h, d, l.rs, z, x, re, l.es[i - 1], p);
    HoldingIs(j, o, m, a, base, d);
    BehindIs(m', m, base + l.es[i - 1]);
    StillUnread(j, m, m', o + a, o + re, base + l.es[i - 1]);
    IsFenced(j, o, re, m');
    StillUnread(j, m, m', o + a, o + re + 1, base + l.es[i - 1]);
    IsBooked(j, o, s, re + 1, h, base, Lists(l.bs[i..], l.es[i..], l.rs[p..]), run.end + 1, m', n);
  }

  lemma {:induction false} LastComplete(c: Config, s: seq<byte>, o: nat, a: nat, h: nat, n: nat, count: nat, bnd: nat, stop: bool)
    requires Complete(c, s, o, a, h, n, count, bnd, stop)
    ensures a <= |s| && n >= 1 && count >= 1 && NthExtent(c, s, a, n, count - 1).x < h
    decreases count
  {
    hide *;
    CompleteIs(c, s, o, a, h, n, count, bnd, stop);
    NthExtentIs(c, s, a, n, count);
    ExtentIs(c, s, a, n);
    if count > 1 {
      CompleteIs(c, s, o, ExtentOf(c, s, a, n).re + 1, h, n, count - 1, bnd, stop);
      LastComplete(c, s, o, ExtentOf(c, s, a, n).re + 1, h, n, count - 1, bnd, stop);
    } else {
      NthIs(c, s, a, n, 0);
    }
  }

  lemma LastBefore(c: Config, s: seq<byte>, o: nat, a: nat, h: nat, n: nat, count: nat, bnd: nat)
    requires Complete(c, s, o, a, h, n, count, bnd, false)
    ensures a <= |s| && n >= 1 && count >= 1 && NthExtent(c, s, a, n, count - 1).re < h && NthExtent(c, s, a, n, count - 1).x < h
    decreases count
  {
    hide *;
    CompleteIs(c, s, o, a, h, n, count, bnd, false);
    NthExtentIs(c, s, a, n, count);
    ExtentIs(c, s, a, n);
    ExtentPast(c, s, a, n, 0);
    if count > 1 {
      CompleteIs(c, s, o, ExtentOf(c, s, a, n).re + 1, h, n, count - 1, bnd, false);
      LastBefore(c, s, o, ExtentOf(c, s, a, n).re + 1, h, n, count - 1, bnd);
    }
  }

  lemma BehindIs(m: seq<byte>, orig: seq<byte>, v: nat)
    requires Behind(m, orig, v)
    ensures v <= |m| == |orig| && m[v..] == orig[v..]
  {
  }

  lemma StillUnread(j: Job, m: seq<byte>, m': seq<byte>, p: nat, q: nat, v: nat)
    requires Unread(m, j.data, p) && p <= q && v <= q <= |m| && |m'| == |m| && m'[v..] == m[v..]
    ensures Unread(m', j.data, q)
  {
    SuffixOf(m', m, v, q);
    SuffixOf(m, j.data, p, q);
  }

  lemma IsBooked(j: Job, o: nat, s: seq<byte>, a: nat, h: nat, base: nat, l: Lists, bufStart: nat, m: seq<byte>, n: nat)
    requires o <= base <= o + a && o + a == base + bufStart && j.cfg.fieldCount == Some(n)
    requires Supported(j.cfg) && Shows(j, o, s) && o + h <= |j.data| && base - o <= h && n >= 1 && a <= h
    requires TracksFields(j.cfg, s, a, h, base - o, l.bs, l.es) && TracksRemovals(j.cfg, s, a, h, base - o, l.rs)
    requires Unread(m, j.data, o + a) && base <= |m| && Aligned(n, 0, Classes(j.cfg, s, a, h))
    ensures Booked(j, o, s, a, h, base, l, bufStart, m, n)
  {
    hide Supported, Shows, TracksFields, TracksRemovals, Unread, Aligned, Classes;
  }

  /** The byte in front of the oldest record is still the input's. */
  ghost predicate Fenced(j: Job, o: nat, a: nat, m: seq<byte>) {
    a > 0 ==> o + a <= |j.data| == |m| && m[o + a - 1] == j.data[o + a - 1]
  }

  lemma FencedAtStart(j: Job, o: nat, m: seq<byte>)
    ensures Fenced(j, o, 0, m)
  {
  }

  lemma IsFenced(j: Job, o: nat, re: nat, m: seq<byte>)
    requires Unread(m, j.data, o + re) && o + re < |j.data|
    ensures Fenced(j, o, re + 1, m)
  {
    assert m[o + re..][0] == j.data[o + re..][0];
  }

  /** The books without the claim that everything resolved lies in the input; the last vectors hold a tail. */
  ghost predicate Listed(j: Job, o: nat, s: seq<byte>, a: nat, h: nat, base: nat, l: Lists, bufStart: nat, m: seq<byte>) {
    && o <= base <= o + a && o + a == base + bufStart
    && TracksFields(j.cfg, s, a, h, base - o, l.bs, l.es) && TracksRemovals(j.cfg, s, a, h, base - o, l.rs)
    && Unread(m, j.data, o + a) && Fenced(j, o, a, m)
  }

  lemma ListedIs(j: Job, o: nat, s: seq<byte>, a: nat, h: nat, base: nat, l: Lists, bufStart: nat, m: seq<byte>)
    requires Listed(j, o, s, a, h, base, l, bufStart, m)
    ensures o <= base <= o + a && o + a == base + bufStart && a <= h <= |s| && |m| == |j.data| && o + a <= |j.data|
    ensures TracksFields(j.cfg, s, a, h, base - o, l.bs, l.es) && TracksRemovals(j.cfg, s, a, h, base - o, l.rs)
    ensures Unread(m, j.data, o + a) && Fenced(j, o, a, m) && RecordStarts(j.cfg, s, a)
  {
    hide Fenced;
  }

  lemma IsListed(j: Job, o: nat, s: seq<byte>, a: nat, h: nat, base: nat, l: Lists, bufStart: nat, m: seq<byte>)
    requires o <= base <= o + a && o + a == base + bufStart
    requires TracksFields(j.cfg, s, a, h, base - o, l.bs, l.es) && TracksRemovals(j.cfg, s, a, h, base - o, l.rs)
    requires Unread(m, j.data, o + a) && Fenced(j, o, a, m)
    ensures Listed(j, o, s, a, h, base, l, bufStart, m)
  {
    hide TracksFields, TracksRemovals, Unread, Fenced;
  }

  lemma BookedIsListed(j: Job, o: nat, s: seq<byte>, a: nat, h: nat, base: nat, l: Lists, bufStart: nat, m: seq<byte>, n: nat)
    requires Booked(j, o, s, a, h, base, l, bufStart, m, n) && Fenced(j, o, a, m)
    ensures Listed(j, o, s, a, h, base, l, bufStart, m) && Aligned(n, 0, Classes(j.cfg, s, a, h)) && o + h <= |j.data|
  {
    hide *;
    BookedIs(j, o, s, a, h, base, l, bufStart, m, n);
    ReadyIs(j, o, s, a, h, base, base - o, l, m, n);
    OutstandingIs(j, o, s, a, a, h, base, base - o, l.bs, l.es, l.rs, m, n);
    IsListed(j, o, s, a, h, base, l, bufStart, m);
  }

  lemma ListedIsBooked(j: Job, o: nat, s: seq<byte>, a: nat, h: nat, base: nat, l: Lists, bufStart: nat, m: seq<byte>, n: nat)
    requires Listed(j, o, s, a, h, base, l, bufStart, m) && Supported(j.cfg) && Shows(j, o, s)
    requires a <= h && n >= 1 && j.cfg.fieldCount == Some(n) && Aligned(n, 0, Classes(j.cfg, s, a, h)) && o + h <= |j.data|
    ensures Booked(j, o, s, a, h, base, l, bufStart, m, n)
  {
    hide *;
    ListedIs(j, o, s, a, h, base, l, bufStart, m);
    IsBooked(j, o, s, a, h, base, l, bufStart, m, n);
  }

  /** One kind's offsets of one vector extend the pending ones. */
  lemma ExtendsPositions(k: Kind, c: Config, s: seq<byte>, a: nat, h: nat, h2: nat, d: int, xs: seq<nat>, xs': seq<nat>, mask: Mask, at: int)
    requires a <= h && Shift(xs, d) == Positions(k, c, s, a, h) && xs' == xs + Offsets(mask, at - d, 64)
    requires h2 == at + 64 && h == (if at < 0 then 0 else at) && 0 <= h2
    requires forall i :: 0 <= i < 64 ==> mask[i] == (at + i >= 0 && Holds(k, c, s, at + i))
    ensures Shift(xs', d) == Positions(k, c, s, a, h2)
  {
    hide *;
    OffsetsShift(mask, at - d, d, 64);
    OffsetsArePositions(k, c, s, mask, at, 64);
    ShiftConcat(xs, Offsets(mask, at - d, 64), d);
    PositionsSplit(k, c, s, a, h, h2);
  }

  lemma ExtendsBegins(c: Config, s: seq<byte>, a: nat, h: nat, h2: nat, d: int, xs: seq<nat>, xs': seq<nat>, mask: Mask, at: int)
    requires a <= h && Shift(xs, d) == BeginsFrom(c, s, a, h) && xs' == xs + Offsets(mask, at - d, 64)
    requires h2 == at + 64 && h == (if at < 0 then 0 else at) && 0 <= h2
    requires forall i :: 0 <= i < 64 ==> mask[i] == (at + i >= 0 && Holds(Begins, c, s, at + i))
    ensures Shift(xs', d) == BeginsFrom(c, s, a, h2)
  {
    hide *;
    OffsetsShift(mask, at - d, d, 64);
    OffsetsArePositions(Begins, c, s, mask, at, 64);
    ShiftConcat(xs, Offsets(mask, at - d, 64), d);
    PositionsSplit(Begins, c, s, a, h, h2);
    BeginsFromIs(c, s, a, h);
    BeginsFromIs(c, s, a, h2);
    assert BeginsFrom(c, s, a, h) + Positions(Begins, c, s, h, h2) == BeginsFrom(c, s, a, h2);
  }

  /** A vector's masks in stream positions. */
  ghost predicate Located(c: Config, s: seq<byte>, at: int, out: VectorOutput) {
    && (forall i :: 0 <= i < 64 ==> out.b[i] == (at + i >= 0 && Holds(Begins, c, s, at + i)))
    && (forall i :: 0 <= i < 64 ==> out.e[i] == (at + i >= 0 && Holds(Ends, c, s, at + i)))
    && (forall i :: 0 <= i < 64 ==> out.r[i] == (at + i >= 0 && Holds(Removals, c, s, at + i)))
    && (forall i :: 0 <= i < 64 ==> out.dStruct[i] == (at + i >= 0 && BoundB(c, s, at + i)))
    && (forall i :: 0 <= i < 64 ==> out.term[i] == (at + i >= 0 && RunEnd(c, s, at + i)))
  }

  lemma OutputLocated(j: Job, o: nat, m: nat, s: seq<byte>, tb: nat, out: VectorOutput)
    requires Feeds(j, o, m, s) && Exact(j.cfg, Vectors(j, o, m), tb, out)
    ensures Located(j.cfg, s, tb - m, out)
  {
    hide *;
    FeedsIs(j, o, m, s);
    forall i | 0 <= i < 64 ensures
      && out.b[i] == (tb - m + i >= 0 && Holds(Begins, j.cfg, s, tb - m + i))
      && out.e[i] == (tb - m + i >= 0 && Holds(Ends, j.cfg, s, tb - m + i))
      && out.r[i] == (tb - m + i >= 0 && Holds(Removals, j.cfg, s, tb - m + i))
      && out.dStruct[i] == (tb - m + i >= 0 && BoundB(j.cfg, s, tb - m + i))
      && out.term[i] == (tb - m + i >= 0 && RunEnd(j.cfg, s, tb - m + i))
    {
      OutputShifts(j.cfg, Pads(j.cfg, m), s, tb, out, i);
    }
    IsLocated(j.cfg, s, tb - m, out);
  }

  lemma IsLocated(c: Config, s: seq<byte>, at: int, out: VectorOutput)
    requires forall i :: 0 <= i < 64 ==>
      && out.b[i] == (at + i >= 0 && Holds(Begins, c, s, at + i))
      && out.e[i] == (at + i >= 0 && Holds(Ends, c, s, at + i))
      && out.r[i] == (at + i >= 0 && Holds(Removals, c, s, at + i))
      && out.dStruct[i] == (at + i >= 0 && BoundB(c, s, at + i))
      && out.term[i] == (at + i >= 0 && RunEnd(c, s, at + i))
    ensures Located(c, s, at, out)
  {
    hide Holds, BoundB, RunEnd;
  }

  /** No lane before the stream is set, so every offset falls in the buffer. */
  lemma OffsetsInBuffer(c: Config, s: seq<byte>, at: int, d: int, out: VectorOutput)
    requires Located(c, s, at, out) && (at < d ==> d == 0)
    ensures InBuffer(out.b, at - d) && InBuffer(out.e, at - d) && InBuffer(out.r, at - d)
  {
    hide Holds, BoundB, RunEnd;
  }

  /** The new lists, after one more vector. */
  lemma VectorListed(j: Job, o: nat, s: seq<byte>, a: nat, h: nat, h2: nat, at: int, base: nat, l: Lists, l': Lists, bufStart: nat, m: seq<byte>, out: VectorOutput)
    requires Listed(j, o, s, a, h, base, l, bufStart, m) && Located(j.cfg, s, at, out)
    requires h2 == at + 64 && h == (if at < 0 then 0 else at) && 0 <= h2 <= |s|
    requires l'.bs == l.bs + Offsets(out.b, at - (base - o), 64)
    requires l'.es == l.es + Offsets(out.e, at - (base - o), 64)
    requires l'.rs == l.rs + Offsets(out.r, at - (base - o), 64)
    ensures Listed(j, o, s, a, h2, base, l', bufStart, m)
    ensures Pick(out.term, out.dStruct) == Classes(j.cfg, s, h, h2)
  {
    hide *;
    var d := base - o;
    ListedIs(j, o, s, a, h, base, l, bufStart, m);
    TracksFieldsIs(j.cfg, s, a, h, d, l.bs, l.es);
    RemovalsAreSorted(j.cfg, s, a, h, d, l.rs);
    LocatedIs(j.cfg, s, at, out);
    ExtendsBegins(j.cfg, s, a, h, h2, d, l.bs, l'.bs, out.b, at);
    ExtendsPositions(Ends, j.cfg, s, a, h, h2, d, l.es, l'.es, out.e, at);
    ExtendsPositions(Removals, j.cfg, s, a, h, h2, d, l.rs, l'.rs, out.r, at);
    FieldsTracked(j.cfg, s, a, h2, d, l'.bs, l'.es);
    RemovalsTracked(j.cfg, s, a, h2, d, l'.rs);
    IsListed(j, o, s, a, h2, base, l', bufStart, m);
    PickIsClasses(j.cfg, s, out.dStruct, out.term, at, 64);
    assert out.term[..64] == out.term && out.dStruct[..64] == out.dStruct;
  }

  lemma LocatedIs(c: Config, s: seq<byte>, at: int, out: VectorOutput)
    requires Located(c, s, at, out)
    ensures forall i :: 0 <= i < 64 ==> out.b[i] == (at + i >= 0 && Holds(Begins, c, s, at + i))
    ensures forall i :: 0 <= i < 64 ==> out.e[i] == (at + i >= 0 && Holds(Ends, c, s, at + i))
    ensures forall i :: 0 <= i < 64 ==> out.r[i] == (at + i >= 0 && Holds(Removals, c, s, at + i))
    ensures forall i :: 0 <= i < 64 ==> out.dStruct[i] == (at + i >= 0 && BoundB(c, s, at + i))
    ensures forall i :: 0 <= i < 64 ==> out.term[i] == (at + i >= 0 && RunEnd(c, s, at + i))
  {
    hide Holds, BoundB, RunEnd;
  }

  /** A vector the verifier rejects: the scan cannot accept what follows. */
  lemma RejectedVector(j: Job, o: nat, s: seq<byte>, a: nat, h: nat, h2: nat, n: nat, last: Option<nat>)
    requires Supported(j.cfg) && Shows(j, o, s) && j.cfg.fieldCount == Some(n) && n >= 1
    requires RecordStarts(j.cfg, s, a) && a <= h <= h2 <= |s| && Aligned(n, 0, Classes(j.cfg, s, 0, h))
    requires !Aligned(n, 0, Classes(j.cfg, s, 0, h) + Classes(j.cfg, s, h, h2))
    ensures o + a < |j.data| && Remains(j, o, a, |j.data|, last).Err? && Misaligned(j.cfg, s, a, n, h2)
  {
    hide *;
    SupportedIsValid(j.cfg);
    ClassesSplit(j.cfg, s, 0, h, h2);
    PhaseAtRecord(j, s, a, h, h2, n);
    IsMisaligned(j.cfg, s, a, n, h2);
    MisalignedTail(j, o, s, a, h2);
    MisalignedRestart(j, o, s, a, h2, last);
    RemainsIs(j, o, a, |j.data|, last);
  }

  lemma IsMisaligned(c: Config, s: seq<byte>, a: nat, n: nat, h: nat)
    requires n >= 1 && a <= h <= |s| && !Aligned(n, 0, Classes(c, s, a, h))
    ensures Misaligned(c, s, a, n, h)
  {
    hide Aligned, Classes;
  }

  /** A vector the verifier accepts. */
  lemma AcceptedVector(j: Job, s: seq<byte>, a: nat, h: nat, h2: nat, n: nat)
    requires j.cfg.Valid() && n >= 1 && RecordStarts(j.cfg, s, a) && a <= h <= h2
    requires Aligned(n, 0, Classes(j.cfg, s, 0, h) + Classes(j.cfg, s, h, h2)) && Aligned(n, 0, Classes(j.cfg, s, 0, h))
    ensures Counted(j, s, h2, Classes(j.cfg, s, 0, h) + Classes(j.cfg, s, h, h2), n)
    ensures Aligned(n, 0, Classes(j.cfg, s, a, h2))
  {
    hide *;
    ClassesSplit(j.cfg, s, 0, h, h2);
    PhaseAtRecord(j, s, a, h, h2, n);
    IsCounted(j, s, h2, n);
  }

  lemma IsCounted(j: Job, s: seq<byte>, h: nat, n: nat)
    requires n >= 1 && Aligned(n, 0, Classes(j.cfg, s, 0, h))
    ensures Counted(j, s, h, Classes(j.cfg, s, 0, h), n)
  {
    hide Aligned, Classes;
  }

  lemma CountedIs(j: Job, s: seq<byte>, h: nat, seen: seq<bool>, n: nat)
    requires Counted(j, s, h, seen, n)
    ensures seen == Classes(j.cfg, s, 0, h) && n >= 1 && Aligned(n, 0, seen)
  {
    hide Aligned, Classes;
  }

  /** The whole of the stepper's books after `fed` vectors. */
  ghost predicate Books(j: Job, o: nat, m: nat, s: seq<byte>, a: nat, fed: nat, seen: seq<bool>, base: nat, l: Lists, bufStart: nat, mem: seq<byte>, n: nat) {
    && Feeds(j, o, m, s) && j.cfg.fieldCount == Some(n) && 64 * fed <= m + |s|
    && Counted(j, s, ResolvedTo(fed, m), seen, n)
    && Listed(j, o, s, a, ResolvedTo(fed, m), base, l, bufStart, mem)
  }

  lemma BooksIs(j: Job, o: nat, m: nat, s: seq<byte>, a: nat, fed: nat, seen: seq<bool>, base: nat, l: Lists, bufStart: nat, mem: seq<byte>, n: nat)
    requires Books(j, o, m, s, a, fed, seen, base, l, bufStart, mem, n)
    ensures Feeds(j, o, m, s) && j.cfg.fieldCount == Some(n) && 1 <= n <= 63 && 64 * fed <= m + |s| && m < 64
    ensures Counted(j, s, ResolvedTo(fed, m), seen, n) && Listed(j, o, s, a, ResolvedTo(fed, m), base, l, bufStart, mem)
    ensures o <= base <= o + a <= |j.data| == |mem| && o + a == base + bufStart && a <= ResolvedTo(fed, m)
  {
    hide Feeds, Counted, Listed, ResolvedTo, Supported, Shows;
    FeedsIs(j, o, m, s);
    ListedIs(j, o, s, a, ResolvedTo(fed, m), base, l, bufStart, mem);
  }

  lemma IsBooks(j: Job, o: nat, m: nat, s: seq<byte>, a: nat, fed: nat, seen: seq<bool>, base: nat, l: Lists, bufStart: nat, mem: seq<byte>, n: nat)
    requires Feeds(j, o, m, s) && j.cfg.fieldCount == Some(n) && 64 * fed <= m + |s|
    requires Counted(j, s, ResolvedTo(fed, m), seen, n) && Listed(j, o, s, a, ResolvedTo(fed, m), base, l, bufStart, mem)
    ensures Books(j, o, m, s, a, fed, seen, base, l, bufStart, mem, n)
  {
    hide Feeds, Counted, Listed, ResolvedTo;
  }

  /** The first vector is only held back. */
  lemma FirstVector(j: Job, o: nat, m: nat, s: seq<byte>, a: nat, seen: seq<bool>, base: nat, l: Lists, bufStart: nat, mem: seq<byte>, n: nat)
    requires Books(j, o, m, s, a, 0, seen, base, l, bufStart, mem, n) && 64 <= m + |s|
    ensures Books(j, o, m, s, a, 1, seen, base, l, bufStart, mem, n)
  {
    hide *;
    BooksIs(j, o, m, s, a, 0, seen, base, l, bufStart, mem, n);
    ResolvedToIs(0, m);
    ResolvedToIs(1, m);
    IsBooks(j, o, m, s, a, 1, seen, base, l, bufStart, mem, n);
  }

  lemma ResolvedToIs(fed: nat, m: nat)
    ensures ResolvedTo(fed, m) == if 64 * fed <= 64 + m then 0 else 64 * fed - 64 - m
  {
  }

  /** Where the pending vector lies: the lanes before the stream's start are padding. */
  lemma PendingVector(j: Job, o: nat, m: nat, s: seq<byte>, a: nat, fed: nat, seen: seq<bool>, base: nat, l: Lists, bufStart: nat, mem: seq<byte>, n: nat, out: VectorOutput)
    requires Books(j, o, m, s, a, fed, seen, base, l, bufStart, mem, n) && fed >= 1
    requires Exact(j.cfg, Vectors(j, o, m), 64 * fed - 64, out)
    ensures var at := 64 * fed - 64 - m;
            && Located(j.cfg, s, at, out) && -64 < at - (base - o)
            && InBuffer(out.b, at - (base - o)) && InBuffer(out.e, at - (base - o)) && InBuffer(out.r, at - (base - o))
  {
    hide *;
    BooksIs(j, o, m, s, a, fed, seen, base, l, bufStart, mem, n);
    OutputLocated(j, o, m, s, 64 * fed - 64, out);
    ResolvedToIs(fed, m);
    OffsetsInBuffer(j.cfg, s, 64 * fed - 64 - m, base - o, out);
  }

  /** One more vector, accepted: the lists and the classes go on. */
  lemma VectorBooked(j: Job, o: nat, m: nat, s: seq<byte>, a: nat, fed: nat, seen: seq<bool>, base: nat, l: Lists, l': Lists, bufStart: nat, mem: seq<byte>, n: nat, out: VectorOutput)
    requires Books(j, o, m, s, a, fed, seen, base, l, bufStart, mem, n) && fed >= 1 && 64 * fed + 64 <= m + |s|
    requires Located(j.cfg, s, 64 * fed - 64 - m, out) && n >= 1 && Aligned(n, 0, seen + Pick(out.term, out.dStruct))
    requires var at := 64 * fed - 64 - m - (base - o);
             && l'.bs == l.bs + Offsets(out.b, at, 64) && l'.es == l.es + Offsets(out.e, at, 64) && l'.rs == l.rs + Offsets(out.r, at, 64)
    ensures Books(j, o, m, s, a, fed + 1, seen + Pick(out.term, out.dStruct), base, l', bufStart, mem, n)
  {
    hide *;
    BooksIs(j, o, m, s, a, fed, seen, base, l, bufStart, mem, n);
    FeedsIs(j, o, m, s);
    var h, h2 := ResolvedTo(fed, m), ResolvedTo(fed + 1, m);
    ResolvedToIs(fed, m);
    ResolvedToIs(fed + 1, m);
    CountedIs(j, s, h, seen, n);
    ListedIs(j, o, s, a, h, base, l, bufStart, mem);
    VectorListed(j, o, s, a, h, h2, 64 * fed - 64 - m, base, l, l', bufStart, mem, out);
    AcceptedVector(j, s, a, h, h2, n);
    IsBooks(j, o, m, s, a, fed + 1, seen + Pick(out.term, out.dStruct), base, l', bufStart, mem, n);
  }

  /** One more vector, rejected. */
  lemma VectorRejected(j: Job, o: nat, m: nat, s: seq<byte>, a: nat, fed: nat, seen: seq<bool>, base: nat, l: Lists, bufStart: nat, mem: seq<byte>, n: nat, out: VectorOutput, last: Option<nat>)
    requires Books(j, o, m, s, a, fed, seen, base, l, bufStart, mem, n) && fed >= 1 && 64 * fed + 64 <= m + |s|
    requires Located(j.cfg, s, 64 * fed - 64 - m, out) && n >= 1 && !Aligned(n, 0, seen + Pick(out.term, out.dStruct))
    ensures 64 * fed >= m && Misaligned(j.cfg, s, a, n, 64 * fed - m)
    ensures o + a < |j.data| && Remains(j, o, a, |j.data|, last).Err?
  {
    hide *;
    BooksIs(j, o, m, s, a, fed, seen, base, l, bufStart, mem, n);
    FeedsIs(j, o, m, s);
    var h, h2 := ResolvedTo(fed, m), ResolvedTo(fed + 1, m);
    ResolvedToIs(fed, m);
    ResolvedToIs(fed + 1, m);
    CountedIs(j, s, h, seen, n);
    ListedIs(j, o, s, a, h, base, l, bufStart, mem);
    LocatedIs(j.cfg, s, 64 * fed - 64 - m, out);
    PickIsClasses(j.cfg, s, out.dStruct, out.term, 64 * fed - 64 - m, 64);
    assert out.term[..64] == out.term && out.dStruct[..64] == out.dStruct;
    RejectedVector(j, o, s, a, h, h2, n, last);
  }

  /** While everything fed is input, the books allow emission. */
  lemma BooksAreBooked(j: Job, o: nat, m: nat, s: seq<byte>, a: nat, fed: nat, seen: seq<bool>, base: nat, l: Lists, bufStart: nat, mem: seq<byte>, n: nat)
    requires Books(j, o, m, s, a, fed, seen, base, l, bufStart, mem, n) && o + ResolvedTo(fed, m) <= |j.data|
    ensures Booked(j, o, s, a, ResolvedTo(fed, m), base, l, bufStart, mem, n)
  {
    hide *;
    BooksIs(j, o, m, s, a, fed, seen, base, l, bufStart, mem, n);
    FeedsIs(j, o, m, s);
    var h := ResolvedTo(fed, m);
    CountedIs(j, s, h, seen, n);
    ListedIs(j, o, s, a, h, base, l, bufStart, mem);
    PhaseAtRecord(j, s, a, h, h, n);
    ListedIsBooked(j, o, s, a, h, base, l, bufStart, mem, n);
  }

  /** Emission leaves the books in order. */
  lemma BookedAreBooks(j: Job, o: nat, m: nat, s: seq<byte>, a: nat, a': nat, fed: nat, seen: seq<bool>, base: nat, l: Lists, l': Lists, bufStart: nat, bufStart': nat,
                       mem: seq<byte>, mem': seq<byte>, n: nat)
    requires Books(j, o, m, s, a, fed, seen, base, l, bufStart, mem, n)
    requires Booked(j, o, s, a', ResolvedTo(fed, m), base, l', bufStart', mem', n) && Fenced(j, o, a', mem')
    ensures Books(j, o, m, s, a', fed, seen, base, l', bufStart', mem', n)
  {
    hide *;
    BooksIs(j, o, m, s, a, fed, seen, base, l, bufStart, mem, n);
    BookedIsListed(j, o, s, a', ResolvedTo(fed, m), base, l', bufStart', mem', n);
    IsBooks(j, o, m, s, a', fed, seen, base, l', bufStart', mem', n);
  }

  /** Consuming the emitted prefix shifts every offset; all are at or past the consume limit. */
  lemma BooksConsumed(j: Job, o: nat, m: nat, s: seq<byte>, a: nat, fed: nat, seen: seq<bool>, base: nat, l: Lists, l': Lists, bufStart: nat, mem: seq<byte>, n: nat, k: nat)
    requires Books(j, o, m, s, a, fed, seen, base, l, bufStart, mem, n) && k <= bufStart
    requires LoweredBy(l.bs, l'.bs, k) && LoweredBy(l.es, l'.es, k) && LoweredBy(l.rs, l'.rs, k)
    ensures Books(j, o, m, s, a, fed, seen, base + k, l', bufStart - k, mem, n)
  {
    hide *;
    BooksIs(j, o, m, s, a, fed, seen, base, l, bufStart, mem, n);
    FeedsIs(j, o, m, s);
    var h, d := ResolvedTo(fed, m), base - o;
    ListedIs(j, o, s, a, h, base, l, bufStart, mem);
    TracksFieldsIs(j.cfg, s, a, h, d, l.bs, l.es);
    RemovalsAreSorted(j.cfg, s, a, h, d, l.rs);
    BeginsWithin(j.cfg, s, a, h);
    DroppedShift(l.bs, l'.bs, k, d, BeginsFrom(j.cfg, s, a, h), a);
    DroppedShift(l.es, l'.es, k, d, Positions(Ends, j.cfg, s, a, h), a);
    DroppedShift(l.rs, l'.rs, k, d, Positions(Removals, j.cfg, s, a, h), a);
    FieldsTracked(j.cfg, s, a, h, d + k, l'.bs, l'.es);
    RemovalsTracked(j.cfg, s, a, h, d + k, l'.rs);
    IsListed(j, o, s, a, h, base + k, l', bufStart - k, mem);
    IsBooks(j, o, m, s, a, fed, seen, base + k, l', bufStart - k, mem, n);
  }

  /** Saturating subtraction of `k` from every offset. */
  predicate LoweredBy(xs: seq<nat>, ys: seq<nat>, k: nat) {
    |ys| == |xs| && forall i :: 0 <= i < |xs| ==> ys[i] == if xs[i] < k then 0 else xs[i] - k
  }

  lemma DroppedShift(xs: seq<nat>, ys: seq<nat>, k: nat, d: int, p: seq<nat>, a: nat)
    requires LoweredBy(xs, ys, k) && Shift(xs, d) == p && d + k <= a
    requires forall i :: 0 <= i < |p| ==> a <= p[i]
    ensures Shift(ys, d + k) == p
  {
    forall i | 0 <= i < |p| ensures Shift(ys, d + k)[i] == p[i] {
      assert Shift(xs, d)[i] == p[i];
    }
  }

  /** The scan from the record at `a` to the end of the input does not succeed. */
  ghost predicate Doomed(j: Job, o: nat, a: nat) {
    o + a <= |j.data| && Records.Rest(j, o + a).Err?
  }

  /** A pass that fails by the boundary fails to the end of the input. */
  lemma DoomedNow(j: Job, o: nat, a: nat, bnd: nat, last: Option<nat>)
    requires o + a <= |j.data| && bnd <= |j.data| && Remains(j, o, a, bnd, last).Err?
    requires last.Some? ==> last.value < o + a
    ensures Doomed(j, o, a)
  {
    hide Scan;
    Split(j, o + a, bnd, |j.data|, Fresh(o + a), last);
    LastIrrelevant(j, o + a, |j.data|, Fresh(o + a), last, None);
  }

  /** If what follows a batch is doomed, so is what it was part of. */
  lemma DoomedBack(j: Job, o: nat, a: nat, b: nat, bnd: nat, l1: Option<nat>, l2: Option<nat>, records: seq<Record>)
    requires a <= b && o + b <= |j.data| && bnd <= |j.data|
    requires (l1.Some? ==> l1.value < o + a) && (l2.Some? ==> l2.value < o + b)
    requires Remains(j, o, a, bnd, l1) == Prepend(records, Remains(j, o, b, bnd, l2))
    requires Doomed(j, o, b)
    ensures Doomed(j, o, a)
  {
    hide Scan;
    var n := |j.data|;
    Split(j, o + a, bnd, n, Fresh(o + a), l1);
    Split(j, o + b, bnd, n, Fresh(o + b), l2);
    LastIrrelevant(j, o + a, n, Fresh(o + a), l1, None);
    LastIrrelevant(j, o + b, n, Fresh(o + b), l2, None);
  }

  /** The books of a run that has not seen a byte: the first field begins at the run's start. */
  lemma FreshBooks(j: Job, o: nat, m: nat, s: seq<byte>, mem: seq<byte>, n: nat)
    requires Feeds(j, o, m, s) && j.cfg.fieldCount == Some(n) && Unread(mem, j.data, o)
    ensures Books(j, o, m, s, 0, 0, [], o, Lists([0], [], []), 0, mem, n)
  {
    hide *;
    FeedsIs(j, o, m, s);
    ResolvedToIs(0, m);
    NoneYet(j.cfg, s);
    NothingAligned(n);
    IsCounted(j, s, 0, n);
    NoRoom(Begins, j.cfg, s, 0);
    NoRoom(Ends, j.cfg, s, 0);
    NoRoom(Removals, j.cfg, s, 0);
    BeginsFromIs(j.cfg, s, 0, 0);
    assert Shift([0], 0) == [0];
    FieldsTracked(j.cfg, s, 0, 0, 0, [0], []);
    RemovalsTracked(j.cfg, s, 0, 0, 0, []);
    FencedAtStart(j, o, mem);
    IsListed(j, o, s, 0, 0, o, Lists([0], [], []), 0, mem);
    IsBooks(j, o, m, s, 0, 0, [], o, Lists([0], [], []), 0, mem, n);
  }

  lemma NothingAligned(n: nat)
    requires n >= 1
    ensures Aligned(n, 0, [])
  {
  }

  /** Before the first vector nothing is pending but the first field's begin. */
  lemma NothingFed(j: Job, o: nat, m: nat, s: seq<byte>, a: nat, seen: seq<bool>, base: nat, l: Lists, bufStart: nat, mem: seq<byte>, n: nat)
    requires Books(j, o, m, s, a, 0, seen, base, l, bufStart, mem, n)
    ensures a == 0 && base == o && bufStart == 0 && seen == [] && l == Lists([0], [], []) && Unread(mem, j.data, o)
  {
    hide *;
    BooksIs(j, o, m, s, a, 0, seen, base, l, bufStart, mem, n);
    ResolvedToIs(0, m);
    NoneYet(j.cfg, s);
    CountedIs(j, s, 0, seen, n);
    ListedIs(j, o, s, 0, 0, base, l, bufStart, mem);
    TracksFieldsIs(j.cfg, s, 0, 0, 0, l.bs, l.es);
    RemovalsAreSorted(j.cfg, s, 0, 0, 0, l.rs);
    NoRoom(Begins, j.cfg, s, 0);
    NoRoom(Ends, j.cfg, s, 0);
    NoRoom(Removals, j.cfg, s, 0);
    BeginsFromIs(j.cfg, s, 0, 0);
    Unshift(l.bs, 0, [0]);
  }

  /** A vector loaded from the buffer is the stream's. */
  lemma BodyVector(j: Job, o: nat, m: nat, fed: nat, mem: seq<byte>, a: nat, at: nat)
    requires o <= |j.data| && Unread(mem, j.data, o + a) && o + a <= at && at + m == o + 64 * fed && at + 64 <= |j.data| && o <= at
    ensures 64 * fed + 64 <= |Vectors(j, o, m)| && mem[at..at + 64] == Vectors(j, o, m)[64 * fed..64 * fed + 64]
  {
    var t := Vectors(j, o, m);
    var head := Pads(j.cfg, m) + j.data[o..];
    assert |head| <= |t| && t[..|head|] == head;
    var x, y := mem[at..at + 64], t[64 * fed..64 * fed + 64];
    forall i | 0 <= i < 64 ensures x[i] == y[i] {
      assert t[64 * fed + i] == t[..|head|][64 * fed + i];
      assert mem[at + i] == mem[o + a..][at + i - o - a] == j.data[o + a..][at + i - o - a];
    }
  }

  /** The head-padded first vector is the stream's. */
  lemma HeadVector(j: Job, o: nat, m: nat, mem: seq<byte>, v: seq<byte>)
    requires o <= |j.data| && Unread(mem, j.data, o) && 0 < m < 64 && o + (64 - m) <= |j.data|
    requires v == Pads(j.cfg, m) + mem[o..o + (64 - m)]
    ensures 64 <= |Vectors(j, o, m)| && v == Vectors(j, o, m)[0..64]
  {
    var t := Vectors(j, o, m);
    var head := Pads(j.cfg, m) + j.data[o..];
    assert |head| <= |t| && t[..|head|] == head;
    assert mem[o..o + (64 - m)] == mem[o..][..64 - m] == j.data[o..][..64 - m];
    assert t[0..64] == head[0..64];
  }

  /** The tail, with the terminator the input lacks and padding after it, is the stream's last vector. */
  lemma TailVector(j: Job, o: nat, m: nat, fed: nat, mem: seq<byte>, a: nat, at: nat, virtual: bool, v: seq<byte>)
    requires o <= |j.data| && Unread(mem, j.data, o + a) && o <= at && o + a <= at <= |j.data| < at + 64 && at + m == o + 64 * fed
    requires virtual == Unterminated(j, o) && (at < |j.data| || virtual)
    requires |v| == 64 && v[..|j.data| - at] == mem[at..]
    requires virtual ==> v[|j.data| - at] == TermByte(j.cfg)
    requires forall i :: |j.data| - at + (if virtual then 1 else 0) <= i < 64 ==> v[i] == Pad(j.cfg)
    ensures |Vectors(j, o, m)| == 64 * fed + 64 && v == Vectors(j, o, m)[64 * fed..]
  {
    var t := Vectors(j, o, m);
    var mid := if virtual then [TermByte(j.cfg)] else [];
    var body := Pads(j.cfg, m) + j.data[o..] + mid;
    var len := |j.data| - at;
    assert |body| == 64 * fed + len + |mid| && 1 <= len + |mid| <= 64;
    FillerIs(fed, len + |mid|);
    assert t == body + Pads(j.cfg, 64 - len - |mid|);
    forall i | 0 <= i < 64 ensures v[i] == t[64 * fed..][i] {
      if i < len {
        assert v[i] == v[..len][i] == mem[at..][i];
        assert mem[at + i] == mem[o + a..][at + i - o - a] == j.data[o + a..][at + i - o - a];
      } else if i < len + |mid| {
        assert t[64 * fed + i] == mid[0];
      }
    }
  }

  lemma FillerIs(fed: nat, k: nat)
    requires 1 <= k <= 64
    ensures Filler(64 * fed + k) == 64 - k
  {
  }

  /** Without a tail the vectors fed so far are all there are. */
  lemma NoTail(j: Job, o: nat, m: nat, fed: nat)
    requires o <= |j.data| && |j.data| + m == o + 64 * fed && !Unterminated(j, o)
    ensures |Vectors(j, o, m)| == 64 * fed
  {
    assert |Pads(j.cfg, m) + j.data[o..] + []| == 64 * fed;
  }

  /** The last vector, drained: everything is listed. */
  lemma FinalBooked(j: Job, o: nat, m: nat, s: seq<byte>, a: nat, fed: nat, seen: seq<bool>, base: nat, l: Lists, l': Lists, bufStart: nat, mem: seq<byte>, n: nat, out: VectorOutput)
    requires Books(j, o, m, s, a, fed, seen, base, l, bufStart, mem, n) && fed >= 1 && 64 * fed == m + |s|
    requires Located(j.cfg, s, 64 * fed - 64 - m, out) && n >= 1 && Aligned(n, 0, seen + Pick(out.term, out.dStruct))
    requires var at := 64 * fed - 64 - m - (base - o);
             && l'.bs == l.bs + Offsets(out.b, at, 64) && l'.es == l.es + Offsets(out.e, at, 64) && l'.rs == l.rs + Offsets(out.r, at, 64)
    ensures Listed(j, o, s, a, |s|, base, l', bufStart, mem)
    ensures a <= |s| && Aligned(n, 0, Classes(j.cfg, s, a, |s|))
  {
    hide *;
    BooksIs(j, o, m, s, a, fed, seen, base, l, bufStart, mem, n);
    FeedsIs(j, o, m, s);
    var h := ResolvedTo(fed, m);
    ResolvedToIs(fed, m);
    CountedIs(j, s, h, seen, n);
    ListedIs(j, o, s, a, h, base, l, bufStart, mem);
    VectorListed(j, o, s, a, h, |s|, 64 * fed - 64 - m, base, l, l', bufStart, mem, out);
    AcceptedVector(j, s, a, h, |s|, n);
  }

  /** The last vector, rejected. */
  lemma FinalRejected(j: Job, o: nat, m: nat, s: seq<byte>, a: nat, fed: nat, seen: seq<bool>, base: nat, l: Lists, bufStart: nat, mem: seq<byte>, n: nat, out: VectorOutput, last: Option<nat>)
    requires Books(j, o, m, s, a, fed, seen, base, l, bufStart, mem, n) && fed >= 1 && 64 * fed == m + |s|
    requires Located(j.cfg, s, 64 * fed - 64 - m, out) && n >= 1 && !Aligned(n, 0, seen + Pick(out.term, out.dStruct))
    ensures Misaligned(j.cfg, s, a, n, |s|)
    ensures o + a < |j.data| && Remains(j, o, a, |j.data|, last).Err?
  {
    hide *;
    BooksIs(j, o, m, s, a, fed, seen, base, l, bufStart, mem, n);
    FeedsIs(j, o, m, s);
    var h := ResolvedTo(fed, m);
    ResolvedToIs(fed, m);
    CountedIs(j, s, h, seen, n);
    ListedIs(j, o, s, a, h, base, l, bufStart, mem);
    LocatedIs(j.cfg, s, 64 * fed - 64 - m, out);
    PickIsClasses(j.cfg, s, out.dStruct, out.term, 64 * fed - 64 - m, 64);
    assert out.term[..64] == out.term && out.dStruct[..64] == out.dStruct;
    RejectedVector(j, o, s, a, h, |s|, n, last);
  }

  /** In quotes at the end of the vectors is in quotes at the end of the input. */
  lemma {:induction false} OddAtEnd(j: Job, o: nat, s: seq<byte>, k: nat)
    requires Supported(j.cfg) && Shows(j, o, s) && |j.data| - o <= k <= |s|
    ensures Odd(j.cfg, s, k) == Odd(j.cfg, s, |j.data| - o)
    decreases k
  {
    if |j.data| - o < k {
      OddAtEnd(j, o, s, k - 1);
      OddStep(j.cfg, s, k - 1);
    }
  }

  lemma StreamParity(j: Job, o: nat, m: nat, s: seq<byte>)
    requires Feeds(j, o, m, s)
    ensures |j.data| - o <= |s| && Odd(j.cfg, Vectors(j, o, m), m + |s|) == Odd(j.cfg, s, |j.data| - o)
    ensures |Vectors(j, o, m)| == m + |s|
  {
    hide *;
    FeedsIs(j, o, m, s);
    PadParity(j.cfg, Pads(j.cfg, m), s, |s|);
    OddAtEnd(j, o, s, |s|);
  }

  /** An open quote at the end dooms the record in flight. */
  lemma OpenQuoteDooms(j: Job, o: nat, m: nat, s: seq<byte>, a: nat)
    requires Feeds(j, o, m, s) && RecordStarts(j.cfg, s, a) && o + a < |j.data| && |j.data| - o <= |s| && Odd(j.cfg, s, |j.data| - o)
    ensures Doomed(j, o, a)
  {
    hide *;
    FeedsIs(j, o, m, s);
    OddRestart(j, o, s, a, None);
    IsDoomed(j, o, a);
  }

  /** The start of the stream's last field: no boundary follows it. */
  lemma {:induction false} LastField(c: Config, s: seq<byte>, a: nat) returns (p: nat)
    requires c.Valid() && Starts(c, s, a)
    ensures a <= p <= |s| && Starts(c, s, p) && forall i :: p <= i < |s| ==> !Delim(c, s, i) && !Term(c, s, i)
    decreases |s| - a
  {
    hide *;
    StartsInRange(c, s, a);
    var x := Stop(c, s, a);
    StopBounds(c, s, a);
    if x == |s| {
      return a;
    }
    StopIsSegment(c, s, a);
    LastInRange(c, s, x);
    SegmentOrder(c, s, a, x, Last(c, s, x));
    SegmentStarts(c, s, a, x, Last(c, s, x));
    p := LastField(c, s, Last(c, s, x) + 1);
  }

  /** Its begin is the last of all. */
  lemma LastBegin(c: Config, s: seq<byte>, a: nat, p: nat)
    requires c.Valid() && a <= p < |s| && Starts(c, s, p) && !(p + 1 == |s| && Quote(c, s, p))
    requires forall i :: p <= i < |s| ==> !Delim(c, s, i) && !Term(c, s, i)
    ensures var b := BeginsFrom(c, s, a, |s|); b != [] && b[|b| - 1] == BeginOf(c, s, p)
  {
    hide *;
    BeginsFromIs(c, s, a, |s|);
    PositionsSplit(Begins, c, s, a, p, |s|);
    BeginsPast(c, s, p);
    if p == 0 {
      NoRoom(Begins, c, s, 0);
      NoPositions(Begins, c, s, 0, |s|);
    } else {
      BeginIsNear(c, s, p);
      OnePosition(Begins, c, s, p, BeginOf(c, s, p), |s|);
    }
  }

  lemma BeginIsNear(c: Config, s: seq<byte>, p: nat)
    requires 0 < p < |s| && !(p + 1 == |s| && Quote(c, s, p))
    ensures p <= BeginOf(c, s, p) < |s|
  {
    hide Quote;
  }

  lemma BeginsPast(c: Config, s: seq<byte>, p: nat)
    requires c.Valid() && p < |s| && Starts(c, s, p) && forall i :: p <= i < |s| ==> !Delim(c, s, i) && !Term(c, s, i)
    ensures forall i :: p <= i < |s| ==> (Holds(Begins, c, s, i) <==> p > 0 && i == BeginOf(c, s, p))
  {
    forall i | p <= i < |s| ensures Holds(Begins, c, s, i) <==> p > 0 && i == BeginOf(c, s, p) {
      OneBeginPast(c, s, p, i);
    }
  }

  lemma OneBeginPast(c: Config, s: seq<byte>, p: nat, i: nat)
    requires c.Valid() && p <= i < |s| && Starts(c, s, p) && forall i :: p <= i < |s| ==> !Delim(c, s, i) && !Term(c, s, i)
    ensures Begin(c, s, i) <==> p > 0 && i == BeginOf(c, s, p)
  {
    if p > 0 {
      if Quote(c, s, p - 1) { QuoteIsNoBound(c, s, p - 1); }
      assert BoundB(c, s, p - 1);
    }
    if i > p { assert !Delim(c, s, i - 1) && !Term(c, s, i - 1); }
    if i > p + 1 { assert !Delim(c, s, i - 2) && !Term(c, s, i - 2); }
    hide Delim, Term, Inside;
  }

  /** An open quote belongs to the last field, which starts in the input. */
  lemma OpenField(j: Job, o: nat, s: seq<byte>, a: nat) returns (p: nat)
    requires Supported(j.cfg) && Shows(j, o, s) && RecordStarts(j.cfg, s, a) && |j.data| - o <= |s| && Odd(j.cfg, s, |j.data| - o) && o + a < |j.data|
    ensures a <= p && o + p < |j.data| && OpensLast(j.cfg, j.data[o..], p)
    ensures p < |s| && (p > 0 ==> !Quote(j.cfg, s, p - 1))
    ensures var b := BeginsFrom(j.cfg, s, a, |s|); b != [] && b[|b| - 1] == BeginOf(j.cfg, s, p)
  {
    hide *;
    SupportedIsValid(j.cfg);
    RecordStartIs(j.cfg, s, a);
    p := LastField(j.cfg, s, a);
    StartsClean(j.cfg, s, p);
    OddBeforeEnd(j, o, s, p);
    if p > 0 {
      FrontOf(j.cfg, s, p);
    }
    LastIsOpen(j, o, s, p);
    LastBegin(j.cfg, s, a, p);
  }

  lemma StopBounds(c: Config, s: seq<byte>, a: nat)
    requires a <= |s|
    ensures a <= Stop(c, s, a) <= |s| && forall i :: a <= i < Stop(c, s, a) ==> !Delim(c, s, i) && !Term(c, s, i)
  {
  }

  /** A stream that is in quotes where the input ends opened them in the input. */
  lemma OddBeforeEnd(j: Job, o: nat, s: seq<byte>, p: nat)
    requires Supported(j.cfg) && Shows(j, o, s) && Odd(j.cfg, s, |j.data| - o) && p <= |s| && !Odd(j.cfg, s, p)
    ensures o + p < |j.data| && p < |s| && !(p + 1 == |s| && Quote(j.cfg, s, p))
  {
    ShowsLength(j, o, s);
    if |j.data| - o <= p {
      OddAtEnd(j, o, s, p);
    }
    hide Odd;
  }

  lemma LastIsOpen(j: Job, o: nat, s: seq<byte>, p: nat)
    requires Shows(j, o, s) && o + p < |j.data| && Odd(j.cfg, s, |j.data| - o) && (p > 0 ==> BoundB(j.cfg, s, p - 1))
    requires forall i :: p <= i < |s| ==> !Delim(j.cfg, s, i) && !Term(j.cfg, s, i)
    ensures OpensLast(j.cfg, j.data[o..], p)
  {
    hide *;
    var c, n := j.cfg, |j.data| - o;
    ShownPrefix(j, o, s, n);
    StreamStart(c, s, n, n);
    forall i | p <= i < n ensures !Delim(c, s[..n], i) && !Term(c, s[..n], i) {
      PrefixBytes(c, s, n, i);
    }
    if p > 0 {
      PrefixBytes(c, s, n, p - 1);
      PrefixBytes(c, s, n, p);
      SameBound(c, s, s[..n], p - 1);
    }
    assert j.data[o..][..n] == j.data[o..];
    IsOpensLast(c, s[..n], p);
  }

  lemma SameBound(c: Config, s: seq<byte>, t: seq<byte>, i: nat)
    requires Delim(c, s, i) == Delim(c, t, i) && Term(c, s, i) == Term(c, t, i) && Term(c, s, i + 1) == Term(c, t, i + 1)
    ensures BoundB(c, s, i) == BoundB(c, t, i)
  {
    hide Delim, Term;
  }

  lemma IsOpensLast(c: Config, w: seq<byte>, p: nat)
    requires p < |w| && Odd(c, w, |w|) && (p > 0 ==> BoundB(c, w, p - 1))
    requires forall i :: p <= i < |w| ==> !Delim(c, w, i) && !Term(c, w, i)
    ensures OpensLast(c, w, p)
  {
    hide Odd, BoundB, Delim, Term;
  }

  lemma FrontOf(c: Config, s: seq<byte>, p: nat)
    requires c.Valid() && Starts(c, s, p) && p > 0
    ensures !Quote(c, s, p - 1) && BoundB(c, s, p - 1)
  {
    if Quote(c, s, p - 1) { QuoteIsNoBound(c, s, p - 1); }
  }

  /** From the last begin in the lists to the field that was left open: its opening quote, if that is its first byte, is in front. */
  lemma OpenerAt(j: Job, o: nat, s: seq<byte>, a: nat, base: nat, l: Lists, bufStart: nat, m: seq<byte>) returns (p: nat)
    requires Supported(j.cfg) && Shows(j, o, s) && |j.data| - o <= |s| && Odd(j.cfg, s, |j.data| - o) && o + a < |j.data|
    requires Listed(j, o, s, a, |s|, base, l, bufStart, m)
    ensures OpensLast(j.cfg, j.data[o..], p) && l.bs != []
    ensures var b := l.bs[|l.bs| - 1];
            && base + b <= |j.data| == |m|
            && base + (if 0 < b && j.cfg.IsQuote(m[base + b - 1]) then b - 1 else b) == o + p
  {
    hide *;
    ListedIs(j, o, s, a, |s|, base, l, bufStart, m);
    p := OpenField(j, o, s, a);
    TracksFieldsIs(j.cfg, s, a, |s|, base - o, l.bs, l.es);
    Unshift(l.bs, base - o, BeginsFrom(j.cfg, s, a, |s|));
    var b := l.bs[|l.bs| - 1];
    assert b + (base - o) == BeginOf(j.cfg, s, p);
    BeginOfIs(j.cfg, s, p);
    QuoteShown(j, o, s, a, m, p);
    if p > 0 {
      QuoteShown(j, o, s, a, m, p - 1);
    }
  }

  lemma BeginOfIs(c: Config, s: seq<byte>, p: nat)
    ensures BeginOf(c, s, p) == if p > 0 && Quote(c, s, p) then p + 1 else p
  {
    hide Quote;
  }

  /** From the byte in front of the oldest record on, the buffer's quotes are the stream's. */
  lemma QuoteShown(j: Job, o: nat, s: seq<byte>, a: nat, m: seq<byte>, i: nat)
    requires Shows(j, o, s) && Unread(m, j.data, o + a) && Fenced(j, o, a, m) && a <= i + 1 && o + i < |j.data|
    ensures |m| == |j.data| && j.cfg.IsQuote(m[o + i]) == Quote(j.cfg, s, i)
  {
    if a <= i {
      assert m[o + i] == m[o + a..][i - a] == j.data[o + a..][i - a];
    }
  }

  lemma IsDoomed(j: Job, o: nat, a: nat)
    requires o + a <= |j.data| && Scan(j, o + a, |j.data|, Fresh(o + a), None).Err?
    ensures Doomed(j, o, a)
  {
    hide Scan;
  }

  lemma RejectionDooms(j: Job, o: nat, a: nat, last: Option<nat>)
    requires o + a <= |j.data| && Remains(j, o, a, |j.data|, last).Err?
    ensures Doomed(j, o, a)
  {
    hide Scan;
    LastIrrelevant(j, o + a, |j.data|, Fresh(o + a), last, None);
  }

  /** Begins behind the input are of no use: every end in the lists has its begin within it. */
  ghost predicate Drained(j: Job, o: nat, s: seq<byte>, a: nat, base: nat, l: Lists, all: seq<nat>, bufStart: nat, mem: seq<byte>, n: nat) {
    && Feeds0(j, o, s) && j.cfg.fieldCount == Some(n)
    && Listed(j, o, s, a, |s|, base, Lists(all, l.es, l.rs), bufStart, mem)
    && l.bs <= all && |l.es| <= |l.bs|
    && n >= 1 && a <= |s| && Aligned(n, 0, Classes(j.cfg, s, a, |s|))
    && |j.data| - o <= |s| && !Odd(j.cfg, s, |j.data| - o)
  }

  ghost predicate Feeds0(j: Job, o: nat, s: seq<byte>) {
    Supported(j.cfg) && Shows(j, o, s)
  }

  lemma DrainedIs(j: Job, o: nat, s: seq<byte>, a: nat, base: nat, l: Lists, all: seq<nat>, bufStart: nat, mem: seq<byte>, n: nat)
    requires Drained(j, o, s, a, base, l, all, bufStart, mem, n)
    ensures Supported(j.cfg) && Shows(j, o, s) && j.cfg.Valid() && j.cfg.fieldCount == Some(n) && 1 <= n <= 63
    ensures Listed(j, o, s, a, |s|, base, Lists(all, l.es, l.rs), bufStart, mem)
    ensures l.bs <= all && |l.es| <= |l.bs| && a <= |s| && Aligned(n, 0, Classes(j.cfg, s, a, |s|))
    ensures |j.data| - o <= |s| && !Odd(j.cfg, s, |j.data| - o)
    ensures o <= base <= o + a <= |j.data| == |mem| && o + a == base + bufStart
  {
    hide Listed, Aligned, Odd;
    ListedIs(j, o, s, a, |s|, base, Lists(all, l.es, l.rs), bufStart, mem);
  }

  lemma IsDrained(j: Job, o: nat, s: seq<byte>, a: nat, base: nat, l: Lists, all: seq<nat>, bufStart: nat, mem: seq<byte>, n: nat)
    requires Supported(j.cfg) && Shows(j, o, s) && j.cfg.fieldCount == Some(n)
    requires Listed(j, o, s, a, |s|, base, Lists(all, l.es, l.rs), bufStart, mem)
    requires l.bs <= all && |l.es| <= |l.bs| && n >= 1 && a <= |s| && Aligned(n, 0, Classes(j.cfg, s, a, |s|))
    requires |j.data| - o <= |s| && !Odd(j.cfg, s, |j.data| - o)
    ensures Drained(j, o, s, a, base, l, all, bufStart, mem, n)
  {
    hide Listed, Aligned, Odd, Supported, Shows;
  }

  /** With fewer than `n` ends left, the scan has nothing left either. */
  lemma NothingToFinish(j: Job, o: nat, s: seq<byte>, a: nat, base: nat, l: Lists, all: seq<nat>, bufStart: nat, mem: seq<byte>, n: nat, bnd: nat, last: Option<nat>)
    requires Drained(j, o, s, a, base, l, all, bufStart, mem, n) && |l.es| < n
    ensures o + a == |j.data| && Remains(j, o, a, bnd, last) == Ok([], last)
  {
    hide *;
    DrainedIs(j, o, s, a, base, l, all, bufStart, mem, n);
    ListedIs(j, o, s, a, |s|, base, Lists(all, l.es, l.rs), bufStart, mem);
    TracksFieldsIs(j.cfg, s, a, |s|, base - o, all, l.es);
    Unshift(l.es, base - o, Positions(Ends, j.cfg, s, a, |s|));
    NothingLeft(j, o, s, a);
    RemainsAtEnd(j, o, a, bnd, last);
  }

  lemma RemainsAtEnd(j: Job, o: nat, a: nat, bnd: nat, last: Option<nat>)
    requires o + a == |j.data|
    ensures Remains(j, o, a, bnd, last) == Ok([], last)
  {
  }

  /** One record at the end of the input. */
  ghost predicate Final(j: Job, o: nat, a: nat, base: nat, l: Lists, mem: seq<byte>, n: nat, x: nat, re: nat, r: Record, bnd: nat, last: Option<nat>) {
    && o + a < |j.data| && n <= |l.bs| && n <= |l.es| && n >= 1
    && (o + x == |j.data| || o + x <= o + re < |j.data|) && x <= re && (o + x == |j.data| ==> re == x)
    && base <= |mem| && Sorted(l.rs) && Laid(l.bs, l.es, n, |mem| - base)
    && r == RecordBytes(mem, base, l.bs, l.es, l.rs, n) && |r| == n && j.cfg.fieldCount == Some(n)
    && Remains(j, o, a, bnd, last) == FieldWalk.Closed(j, o, x, re, r, o + a, bnd)
    && o <= base && x + o >= base && base + l.es[n - 1] <= o + x
    && RunShape(j.cfg, mem[base..], l.es[n - 1], x + o - base, re + o - base)
  }

  lemma NextFinal(j: Job, o: nat, s: seq<byte>, a: nat, base: nat, l: Lists, all: seq<nat>, bufStart: nat, mem: seq<byte>, n: nat, bnd: nat, last: Option<nat>)
    returns (x: nat, re: nat, r: Record, z: nat)
    requires Drained(j, o, s, a, base, l, all, bufStart, mem, n) && |l.es| >= n
    ensures Final(j, o, a, base, l, mem, n, x, re, r, bnd, last)
    ensures Segment(j.cfg, s, z, x, re) && a <= z <= x <= re < |s| && RecordStarts(j.cfg, s, re + 1)
    ensures o + x < |j.data| ==> Closes(j, o, o + x)
    ensures l.es[n - 1] + (base - o) == EndOf(j.cfg, s, x)
    ensures n <= |all| && TracksFields(j.cfg, s, re + 1, |s|, base - o, all[n..], l.es[n..])
    ensures Aligned(n, 0, Classes(j.cfg, s, re + 1, |s|))
  {
    hide *;
    DrainedIs(j, o, s, a, base, l, all, bufStart, mem, n);
    var h, d := |s|, base - o;
    ListedIs(j, o, s, a, h, base, Lists(all, l.es, l.rs), bufStart, mem);
    TracksFieldsIs(j.cfg, s, a, h, d, all, l.es);
    Unshift(l.es, d, Positions(Ends, j.cfg, s, a, h));
    x, re := NextRecord(j, o, s, a, h, bnd, last);
    LastInRange(j.cfg, s, x);
    StridedLists(j.cfg, s, a, h, n, re);
    z := StridedSegment(j.cfg, s, a, h, n, x, re);
    StridedTerm(j.cfg, s, a, h, n, x);
    TermInRange(j, o, s, z, x, re);
    SegmentCloses(j, o, s, z, x, re);
    EndInSegment(j.cfg, s, z, x, re);
    SegmentOrder(j.cfg, s, z, x, re);
    DropFields(j, o, s, a, h, d, all, l.es, n, x, re);
    IsHolding(j, o, mem, a, base, d);
    RecordIs(j, o, s, a, a, h, base, d, all, l.es, l.rs, mem, n);
    RecordPrefix(mem, base, l.bs, all, l.es, l.rs, n);
    r := RecordBytes(mem, base, l.bs, l.es, l.rs, n);
    RemainsIs(j, o, a, bnd, last);
    FinalRun(j, o, s, a, base, d, mem, z, x, re, l.es[n - 1]);
    IsFinal(j, o, a, base, l, mem, n, x, re, r, bnd, last);
  }

  lemma IsHolding(j: Job, o: nat, m: seq<byte>, a: nat, base: nat, d: int)
    requires Unread(m, j.data, o + a) && base == o + d && base <= |m|
    ensures Holding(j, o, m, a, base, d)
  {
    hide Unread;
  }

  lemma IsFinal(j: Job, o: nat, a: nat, base: nat, l: Lists, mem: seq<byte>, n: nat, x: nat, re: nat, r: Record, bnd: nat, last: Option<nat>)
    requires o + a < |j.data| && n <= |l.bs| && n <= |l.es| && n >= 1
    requires (o + x == |j.data| || o + x <= o + re < |j.data|) && x <= re && (o + x == |j.data| ==> re == x)
    requires base <= |mem| && Sorted(l.rs) && Laid(l.bs, l.es, n, |mem| - base)
    requires r == RecordBytes(mem, base, l.bs, l.es, l.rs, n) && |r| == n && j.cfg.fieldCount == Some(n)
    requires Remains(j, o, a, bnd, last) == FieldWalk.Closed(j, o, x, re, r, o + a, bnd)
    requires o <= base && x + o >= base && base + l.es[n - 1] <= o + x
    requires RunShape(j.cfg, mem[base..], l.es[n - 1], x + o - base, re + o - base)
    ensures Final(j, o, a, base, l, mem, n, x, re, r, bnd, last)
  {
    hide Sorted, Laid, RecordBytes, Remains, FieldWalk.Closed, RunShape;
  }

  /** Only the first `n` begins matter to a record. */
  lemma RecordPrefix(m: seq<byte>, base: nat, bs: seq<nat>, all: seq<nat>, es: seq<nat>, rs: seq<nat>, n: nat)
    requires Sorted(rs) && base <= |m| && Laid(all, es, n, |m| - base) && bs <= all && n <= |bs|
    ensures Laid(bs, es, n, |m| - base) && RecordBytes(m, base, bs, es, rs, n) == RecordBytes(m, base, all, es, rs, n)
  {
    hide FieldBytes;
    assert forall i :: 0 <= i < n ==> bs[i] == all[i];
  }

  /** The bytes from the record's last end to the end of the buffer. */
  lemma FinalRun(j: Job, o: nat, s: seq<byte>, a: nat, base: nat, d: int, mem: seq<byte>, z: nat, x: nat, re: nat, e: nat)
    requires Supported(j.cfg) && Shows(j, o, s) && Holding(j, o, mem, a, base, d) && o <= base
    requires Segment(j.cfg, s, z, x, re) && a <= z && e + d == EndOf(j.cfg, s, x) && Term(j.cfg, s, x)
    ensures base <= |mem| && RunShape(j.cfg, mem[base..], e, x - d, re - d) && 0 <= x - d && e <= x - d
  {
    hide *;
    SupportedIsValid(j.cfg);
    HoldingIs(j, o, mem, a, base, d);
    EndInSegment(j.cfg, s, z, x, re);
    SegmentOrder(j.cfg, s, z, x, re);
    var w := mem[base..];
    forall q | e <= q < |w| ensures
      && (q < x - d ==> !j.cfg.IsTerm(w[q]))
      && (x - d <= q <= re - d ==> j.cfg.IsTerm(w[q]))
      && (q == re - d + 1 ==> !j.cfg.IsTerm(w[q]))
    {
      SameAsShown(j, o, s, mem, a, base, d, q, q + 1);
      assert mem[base + q..base + (q + 1)][0] == s[q + d..(q + 1) + d][0];
      assert w[q] == mem[base + q] == s[q + d];
      RunByte(j.cfg, s, z, x, re, q + d);
    }
    IsRunShape(j.cfg, w, e, x - d, re - d);
  }

  /** What a call has made of the scan so far: it stood at record `a0` and stands at record `a1`, and what it emitted closed in between. */
  ghost predicate Keeps(j: Job, o: nat, a0: nat, last0: Option<nat>, a1: nat, last1: Option<nat>, bnd: nat, emitted: seq<Record>) {
    && a0 <= a1 && o + a1 <= |j.data|
    && Remains(j, o, a0, bnd, last0) == Prepend(emitted, Remains(j, o, a1, bnd, last1))
    && CloseWithin(j, o, a0, a1, |emitted|)
    && (Doomed(j, o, a1) ==> Doomed(j, o, a0))
  }

  lemma PrependOk(a: seq<Record>, b: seq<Record>, end: Option<nat>)
    ensures Prepend(a, Ok(b, end)) == Ok(a + b, end)
  {
  }

  lemma KeepsIs(j: Job, o: nat, a0: nat, last0: Option<nat>, a1: nat, last1: Option<nat>, bnd: nat, emitted: seq<Record>)
    requires Keeps(j, o, a0, last0, a1, last1, bnd, emitted)
    ensures a0 <= a1 && o + a1 <= |j.data|
    ensures Remains(j, o, a0, bnd, last0) == Prepend(emitted, Remains(j, o, a1, bnd, last1))
    ensures CloseWithin(j, o, a0, a1, |emitted|)
    ensures Doomed(j, o, a1) ==> Doomed(j, o, a0)
  {
    hide Remains, Doomed;
  }

  lemma IsKeeps(j: Job, o: nat, a0: nat, last0: Option<nat>, a1: nat, last1: Option<nat>, bnd: nat, emitted: seq<Record>)
    requires a0 <= a1 && o + a1 <= |j.data|
    requires Remains(j, o, a0, bnd, last0) == Prepend(emitted, Remains(j, o, a1, bnd, last1))
    requires CloseWithin(j, o, a0, a1, |emitted|)
    requires Doomed(j, o, a1) ==> Doomed(j, o, a0)
    ensures Keeps(j, o, a0, last0, a1, last1, bnd, emitted)
  {
    hide Remains, Doomed;
  }

  lemma KeepsNothing(j: Job, o: nat, a: nat, last: Option<nat>, bnd: nat)
    requires o + a <= |j.data|
    ensures Keeps(j, o, a, last, a, last, bnd, [])
  {
    hide Remains, Doomed;
    PrependNothing(Remains(j, o, a, bnd, last));
  }

  lemma KeepsMore(j: Job, o: nat, a0: nat, last0: Option<nat>, a1: nat, last1: Option<nat>, a2: nat, last2: Option<nat>, bnd: nat, emitted: seq<Record>, more: seq<Record>)
    requires Keeps(j, o, a0, last0, a1, last1, bnd, emitted) && Keeps(j, o, a1, last1, a2, last2, bnd, more)
    ensures Keeps(j, o, a0, last0, a2, last2, bnd, emitted + more)
  {
    hide Remains, Doomed, Closings;
    ClosingsSplit(j, o, o + a0, o + a1, o + a2);
    PrependTwice(emitted, more, Remains(j, o, a2, bnd, last2));
  }

  /** A failure the scan shares by the end of the input, behind some of the scan's records. */
  ghost predicate Founders(j: Job, o: nat, a: nat, last: Option<nat>, bnd: nat, emitted: seq<Record>, f: Failure) {
    Doomed(j, o, a) && Placed(j, o, f) && !f.IllFormed? && BreaksOff(Remains(j, o, a, bnd, last), emitted, f)
  }

  lemma FoundersIs(j: Job, o: nat, a: nat, last: Option<nat>, bnd: nat, emitted: seq<Record>, f: Failure)
    requires Founders(j, o, a, last, bnd, emitted, f)
    ensures o + a <= |j.data| && Doomed(j, o, a) && Placed(j, o, f) && !f.IllFormed? && BreaksOff(Remains(j, o, a, bnd, last), emitted, f)
  {
    hide Remains, Placed, BreaksOff;
  }

  lemma IsFoundering(j: Job, o: nat, a: nat, last: Option<nat>, bnd: nat, emitted: seq<Record>, f: Failure)
    requires o + a <= |j.data| && Doomed(j, o, a) && Placed(j, o, f) && !f.IllFormed? && BreaksOff(Remains(j, o, a, bnd, last), emitted, f)
    ensures Founders(j, o, a, last, bnd, emitted, f)
  {
    hide Remains, Doomed, Placed, BreaksOff;
  }

  /** A failure that no record caused may come before any. */
  lemma FoundersEmpty(j: Job, o: nat, a: nat, last: Option<nat>, bnd: nat, f: Failure)
    requires o + a <= |j.data| && Doomed(j, o, a) && Placed(j, o, f) && !f.Rejected? && !f.IllFormed?
    ensures Founders(j, o, a, last, bnd, [], f)
  {
    hide Remains, Doomed, Placed;
  }

  lemma FoundersLater(j: Job, o: nat, a0: nat, last0: Option<nat>, a1: nat, last1: Option<nat>, bnd: nat, emitted: seq<Record>, more: seq<Record>, f: Failure)
    requires Keeps(j, o, a0, last0, a1, last1, bnd, emitted) && Founders(j, o, a1, last1, bnd, more, f)
    ensures Founders(j, o, a0, last0, bnd, emitted + more, f)
  {
    hide Remains, Doomed, Placed, Closings;
    var rest := Remains(j, o, a1, bnd, last1);
    assert emitted + rest.records == emitted + more + rest.records[|more|..] by {
      assert rest.records == more + rest.records[|more|..];
    }
  }

  lemma FoundersOnRefusal(j: Job, o: nat, a: nat, last: Option<nat>, bnd: nat, f: Failure)
    requires o + a <= |j.data| && Doomed(j, o, a) && f.Rejected? && Remains(j, o, a, bnd, last) == Err([], f)
    ensures Founders(j, o, a, last, bnd, [], f)
  {
    IsPlaced(j, o, f);
    hide Remains, Doomed, Placed;
  }

  /** A refused record closed within the resolved vectors. */
  lemma Refuses(j: Job, o: nat, a: nat, h: nat, last: Option<nat>, bnd: nat, emitted: seq<Record>, f: Failure, v: nat)
    requires o + a <= |j.data| && Remains(j, o, a, bnd, last) == Err(emitted, f) && f.Rejected? && bnd <= |j.data|
    requires CloseWithin(j, o, a, h, |emitted| + 1) && o + h <= v <= |j.data| && (last.Some? ==> last.value < o + a)
    ensures EndsWith(j, o, a, last, bnd, emitted, Failed(f), v)
  {
    hide *;
    DoomedNow(j, o, a, bnd, last);
    IsPlaced(j, o, f);
    CloseWithinIs(j, o, a, h, |emitted| + 1);
    ClosingsSplit(j, o, o + a, o + h, v);
    BreaksOffThere(emitted, f);
    IsFoundering(j, o, a, last, bnd, emitted, f);
    IsFailed(j, o, a, last, bnd, emitted, f, v);
  }

  lemma BreaksOffThere(emitted: seq<Record>, f: Failure)
    ensures BreaksOff(Err(emitted, f), emitted, f) && |HandedOut(Err(emitted, f))| <= |emitted| + 1
  {
  }

  /** What ended a call; what it handed out closed before `v`. */
  ghost predicate EndsWith(j: Job, o: nat, a0: nat, last0: Option<nat>, bnd: nat, emitted: seq<Record>, res: StepResult, v: nat) {
    && o + a0 <= v <= |j.data|
    && match res
       case Done(e) => Remains(j, o, a0, bnd, last0) == Ok(emitted, Some(e))
       case Failed(f) => Founders(j, o, a0, last0, bnd, emitted, f) && |HandedOut(Err(emitted, f))| <= Closings(j, o, o + a0, v)
       case Suspended(_, _, _) => false
  }

  lemma IsDone(j: Job, o: nat, a0: nat, last0: Option<nat>, bnd: nat, emitted: seq<Record>, e: nat, v: nat)
    requires o + a0 <= v <= |j.data| && Remains(j, o, a0, bnd, last0) == Ok(emitted, Some(e))
    ensures EndsWith(j, o, a0, last0, bnd, emitted, Done(e), v)
  {
    hide Remains;
  }

  lemma IsFailed(j: Job, o: nat, a0: nat, last0: Option<nat>, bnd: nat, emitted: seq<Record>, f: Failure, v: nat)
    requires o + a0 <= v <= |j.data| && Founders(j, o, a0, last0, bnd, emitted, f)
    requires |HandedOut(Err(emitted, f))| <= Closings(j, o, o + a0, v)
    ensures EndsWith(j, o, a0, last0, bnd, emitted, Failed(f), v)
  {
    hide Founders, Closings;
  }

  /** A rejected vector: everything emitted so far closed before the record it is in. */
  lemma KeptThenFailed(j: Job, o: nat, a0: nat, last0: Option<nat>, a1: nat, last1: Option<nat>, bnd: nat, emitted: seq<Record>, f: Failure, v: nat)
    requires Keeps(j, o, a0, last0, a1, last1, bnd, emitted) && o + a1 <= v <= |j.data|
    requires Doomed(j, o, a1) && Placed(j, o, f) && !f.Rejected? && !f.IllFormed?
    ensures EndsWith(j, o, a0, last0, bnd, emitted, Failed(f), v)
  {
    hide *;
    KeepsIs(j, o, a0, last0, a1, last1, bnd, emitted);
    CloseWithinIs(j, o, a0, a1, |emitted|);
    FoundersEmpty(j, o, a1, last1, bnd, f);
    FoundersLater(j, o, a0, last0, a1, last1, bnd, emitted, [], f);
    assert emitted + [] == emitted;
    OnlyRecords(emitted, f);
    ClosingsSplit(j, o, o + a0, o + a1, v);
    IsFailed(j, o, a0, last0, bnd, emitted, f, v);
  }

  lemma EndsWithIs(j: Job, o: nat, a0: nat, last0: Option<nat>, bnd: nat, emitted: seq<Record>, res: StepResult, v: nat)
    requires EndsWith(j, o, a0, last0, bnd, emitted, res, v)
    ensures o + a0 <= v <= |j.data| && !res.Suspended?
    ensures res.Done? ==> Remains(j, o, a0, bnd, last0) == Ok(emitted, Some(res.end))
    ensures res.Failed? ==> Founders(j, o, a0, last0, bnd, emitted, res.failure) && |HandedOut(Err(emitted, res.failure))| <= Closings(j, o, o + a0, v)
  {
    hide Remains, Founders, Closings;
  }

  lemma EndsLater(j: Job, o: nat, a0: nat, last0: Option<nat>, a1: nat, last1: Option<nat>, bnd: nat, emitted: seq<Record>, more: seq<Record>, res: StepResult, v: nat, w: nat)
    requires Keeps(j, o, a0, last0, a1, last1, bnd, emitted) && EndsWith(j, o, a1, last1, bnd, more, res, v) && v <= w <= |j.data|
    ensures EndsWith(j, o, a0, last0, bnd, emitted + more, res, w)
  {
    hide *;
    KeepsIs(j, o, a0, last0, a1, last1, bnd, emitted);
    CloseWithinIs(j, o, a0, a1, |emitted|);
    EndsWithIs(j, o, a1, last1, bnd, more, res, v);
    if res.Done? {
      PrependOk(emitted, more, Some(res.end));
      IsDone(j, o, a0, last0, bnd, emitted + more, res.end, w);
    } else {
      FoundersLater(j, o, a0, last0, a1, last1, bnd, emitted, more, res.failure);
      ClosingsSplit(j, o, o + a0, o + a1, v);
      ClosingsSplit(j, o, o + a0, v, w);
      MoreHandedOut(emitted, more, res.failure);
      IsFailed(j, o, a0, last0, bnd, emitted + more, res.failure, w);
    }
  }

  lemma MoreHandedOut(a: seq<Record>, b: seq<Record>, f: Failure)
    ensures |HandedOut(Err(a + b, f))| == |a| + |HandedOut(Err(b, f))|
  {
  }

  /** The final record, against the scan. */
  lemma FinalRejects(j: Job, o: nat, a: nat, base: nat, l: Lists, mem: seq<byte>, n: nat, x: nat, re: nat, r: Record, bnd: nat, last: Option<nat>)
    requires Final(j, o, a, base, l, mem, n, x, re, r, bnd, last) && !j.accept(r) && bnd <= |j.data|
    requires last.Some? ==> last.value < o + a
    ensures Doomed(j, o, a) && Remains(j, o, a, bnd, last) == Err([], Rejected(r))
  {
    FinalIs(j, o, a, base, l, mem, n, x, re, r, bnd, last);
    hide Final, Doomed, Scan, Remains;
    DoomedNow(j, o, a, bnd, last);
  }

  lemma FinalIs(j: Job, o: nat, a: nat, base: nat, l: Lists, mem: seq<byte>, n: nat, x: nat, re: nat, r: Record, bnd: nat, last: Option<nat>)
    requires Final(j, o, a, base, l, mem, n, x, re, r, bnd, last)
    ensures o + a < |j.data| && n <= |l.bs| && n <= |l.es| && n >= 1
    ensures (o + x == |j.data| || o + x <= o + re < |j.data|) && x <= re && (o + x == |j.data| ==> re == x)
    ensures base <= |mem| && Sorted(l.rs) && Laid(l.bs, l.es, n, |mem| - base)
    ensures r == RecordBytes(mem, base, l.bs, l.es, l.rs, n) && |r| == n && j.cfg.fieldCount == Some(n)
    ensures Remains(j, o, a, bnd, last) == FieldWalk.Closed(j, o, x, re, r, o + a, bnd)
    ensures o <= base && x + o >= base && base + l.es[n - 1] <= o + x
    ensures RunShape(j.cfg, mem[base..], l.es[n - 1], x + o - base, re + o - base)
  {
    hide Sorted, Laid, RecordBytes, Remains, FieldWalk.Closed, RunShape;
  }

  lemma FinalStops(j: Job, o: nat, a: nat, base: nat, l: Lists, mem: seq<byte>, n: nat, x: nat, re: nat, r: Record, bnd: nat, last: Option<nat>)
    requires Final(j, o, a, base, l, mem, n, x, re, r, bnd, last) && j.accept(r) && bnd <= |j.data|
    ensures bnd <= o + re ==> Remains(j, o, a, bnd, last) == Ok([r], Some(Max(bnd, o + x)))
    ensures o + re < bnd ==> o + re < |j.data| && Remains(j, o, a, bnd, last) == Prepend([r], Remains(j, o, re + 1, bnd, Some(o + x)))
  {
    FinalIs(j, o, a, base, l, mem, n, x, re, r, bnd, last);
    hide Final, Scan, RunShape, Laid, RecordBytes, Sorted;
  }

  /** What is left after a final record that does not end the chunk. */
  lemma DrainedNext(j: Job, o: nat, s: seq<byte>, a: nat, base: nat, l: Lists, l': Lists, all: seq<nat>, bufStart: nat, mem: seq<byte>, mem': seq<byte>, n: nat,
                    z: nat, x: nat, re: nat, p: nat)
    requires Drained(j, o, s, a, base, l, all, bufStart, mem, n) && |l.es| >= n && n <= |all|
    requires Segment(j.cfg, s, z, x, re) && a <= z && re < |s| && RecordStarts(j.cfg, s, re + 1) && o + re < |j.data|
    requires l.es[n - 1] + (base - o) == EndOf(j.cfg, s, x)
    requires TracksFields(j.cfg, s, re + 1, |s|, base - o, all[n..], l.es[n..]) && Aligned(n, 0, Classes(j.cfg, s, re + 1, |s|))
    requires p <= |l.rs| && Past(l.rs, p, l.es[n - 1]) && n <= |l.bs|
    requires l' == Lists(l.bs[n..], l.es[n..], l.rs[p..]) && Behind(mem', mem, base + l.es[n - 1])
    ensures base <= o + re + 1 && Drained(j, o, s, re + 1, base, l', all[n..], o + re + 1 - base, mem', n)
  {
    hide *;
    DrainedIs(j, o, s, a, base, l, all, bufStart, mem, n);
    ListedIs(j, o, s, a, |s|, base, Lists(all, l.es, l.rs), bufStart, mem);
    SegmentOrder(j.cfg, s, z, x, re);
    EndInSegment(j.cfg, s, z, x, re);
    DropRemovals(j.cfg, s, a, |s|, base - o, l.rs, z, x, re, l.es[n - 1], p);
    BehindIs(mem', mem, base + l.es[n - 1]);
    StillUnread(j, mem, mem', o + a, o + re, base + l.es[n - 1]);
    IsFenced(j, o, re, mem');
    StillUnread(j, mem, mem', o + a, o + re + 1, base + l.es[n - 1]);
    IsListed(j, o, s, re + 1, |s|, base, Lists(all[n..], l.es[n..], l.rs[p..]), o + re + 1 - base, mem');
    PrefixDrop(l.bs, all, n);
    IsDrained(j, o, s, re + 1, base, l', all[n..], o + re + 1 - base, mem', n);
  }

  lemma PrefixDrop(xs: seq<nat>, ys: seq<nat>, n: nat)
    requires xs <= ys && n <= |xs|
    ensures xs[n..] <= ys[n..]
  {
    assert ys[n..][..|xs| - n] == ys[n..|xs|] == xs[n..];
  }

  /** The entries up to a limit. */
  function Retain(xs: seq<nat>, limit: nat): (r: seq<nat>)
    ensures |r| <= |xs|
  {
    if xs == [] then []
    else Retain(xs[..|xs| - 1], limit) + (if xs[|xs| - 1] <= limit then [xs[|xs| - 1]] else [])
  }

  lemma {:induction false} RetainAll(xs: seq<nat>, limit: nat)
    requires forall i :: 0 <= i < |xs| ==> xs[i] <= limit
    ensures Retain(xs, limit) == xs
  {
    if xs != [] {
      RetainAll(xs[..|xs| - 1], limit);
    }
  }

  /** Of ascending entries a prefix is retained. */
  lemma {:induction false} RetainPrefix(xs: seq<nat>, limit: nat, k: nat)
    requires Sorted(xs) && k <= |xs| && forall i :: 0 <= i < k ==> xs[i] <= limit
    ensures Retain(xs, limit) <= xs && k <= |Retain(xs, limit)|
  {
    if xs != [] {
      var front := xs[..|xs| - 1];
      if xs[|xs| - 1] <= limit {
        forall i | 0 <= i < |front| ensures front[i] <= limit {
          assert xs[i] < xs[|xs| - 1];
        }
        RetainAll(front, limit);
      } else {
        RetainPrefix(front, limit, k);
      }
    }
  }

  lemma BeginsSorted(c: Config, s: seq<byte>, a: nat, h: nat)
    requires a <= h
    ensures Sorted(BeginsFrom(c, s, a, h))
  {
    hide *;
    BeginsFromIs(c, s, a, h);
    if a > 0 {
      PositionsAscend(Begins, c, s, a, h);
    } else if h == 0 {
      NoRoom(Begins, c, s, 0);
      SortedCons(0, []);
    } else {
      PositionsSplit(Begins, c, s, 0, 1, h);
      NothingBegins(c, s);
      NoPositions(Begins, c, s, 0, 1);
      PositionsAscend(Begins, c, s, 1, h);
      assert Positions(Begins, c, s, 0, h) == Positions(Begins, c, s, 1, h);
      SortedCons(0, Positions(Begins, c, s, 1, h));
    }
  }

  lemma SortedCons(x: nat, xs: seq<nat>)
    requires Sorted(xs) && forall i :: 0 <= i < |xs| ==> x < xs[i]
    ensures Sorted([x] + xs)
  {
  }

  lemma NothingBegins(c: Config, s: seq<byte>)
    ensures forall i :: 0 <= i < 1 ==> !Holds(Begins, c, s, i)
  {
  }

  /** Trimming the pad region drops nothing that is needed. */
  lemma Trimmed(j: Job, o: nat, s: seq<byte>, a: nat, base: nat, l: Lists, bufStart: nat, mem: seq<byte>, n: nat, end: nat)
    requires Supported(j.cfg) && Shows(j, o, s) && j.cfg.fieldCount == Some(n) && n >= 1
    requires Listed(j, o, s, a, |s|, base, l, bufStart, mem) && a <= |s| && Aligned(n, 0, Classes(j.cfg, s, a, |s|))
    requires base + end == |j.data| && |j.data| - o <= |s| && !Odd(j.cfg, s, |j.data| - o)
    ensures Retain(l.es, end) == l.es
    ensures end > 0 ==> Retain(l.rs, end - 1) == l.rs
    ensures Drained(j, o, s, a, base, Lists(Retain(l.bs, end), l.es, l.rs), l.bs, bufStart, mem, n)
  {
    hide *;
    var d := base - o;
    SupportedIsValid(j.cfg);
    ListedIs(j, o, s, a, |s|, base, l, bufStart, mem);
    EndsInInput(j, o, s, a, |s|, d, l.bs, l.es);
    RetainAll(l.es, end);
    RemovalsInInput(j, o, s, a, d, l.rs);
    if end > 0 { RetainAll(l.rs, end - 1); }
    TracksFieldsIs(j.cfg, s, a, |s|, d, l.bs, l.es);
    BeginsAndEnds(j.cfg, s, a, |s|);
    BeginsSorted(j.cfg, s, a, |s|);
    Unshift(l.bs, d, BeginsFrom(j.cfg, s, a, |s|));
    Unshift(l.es, d, Positions(Ends, j.cfg, s, a, |s|));
    SortedUnshift(l.bs, d, BeginsFrom(j.cfg, s, a, |s|));
    BeginsBelow(l.bs, l.es, d, BeginsFrom(j.cfg, s, a, |s|), Positions(Ends, j.cfg, s, a, |s|), end);
    RetainPrefix(l.bs, end, |l.es|);
    IsDrained(j, o, s, a, base, Lists(Retain(l.bs, end), l.es, l.rs), l.bs, bufStart, mem, n);
  }

  lemma BeginsBelow(bs: seq<nat>, es: seq<nat>, d: int, p: seq<nat>, q: seq<nat>, end: nat)
    requires |bs| == |p| && (forall i :: 0 <= i < |bs| ==> bs[i] + d == p[i])
    requires |es| == |q| && (forall i :: 0 <= i < |es| ==> es[i] + d == q[i])
    requires Alternates(p, q) && forall i :: 0 <= i < |es| ==> es[i] <= end
    ensures |es| <= |bs| && forall i :: 0 <= i < |es| ==> bs[i] <= end
  {
    forall i | 0 <= i < |es| ensures bs[i] <= end {
      assert bs[i] + d == p[i] <= q[i] == es[i] + d;
    }
  }

  lemma RemovalsInInput(j: Job, o: nat, s: seq<byte>, a: nat, d: int, rs: seq<nat>)
    requires Supported(j.cfg) && Shows(j, o, s) && TracksRemovals(j.cfg, s, a, |s|, d, rs)
    ensures forall i :: 0 <= i < |rs| ==> o + rs[i] + d < |j.data|
  {
    hide *;
    RemovalsAreSorted(j.cfg, s, a, |s|, d, rs);
    PositionsHold(Removals, j.cfg, s, a, |s|);
    Unshift(rs, d, Positions(Removals, j.cfg, s, a, |s|));
    forall i | 0 <= i < |rs| ensures o + rs[i] + d < |j.data| {
      RemovedInInput(j, o, s, Positions(Removals, j.cfg, s, a, |s|)[i]);
    }
  }

  lemma RemovedInInput(j: Job, o: nat, s: seq<byte>, i: nat)
    requires Supported(j.cfg) && Shows(j, o, s) && i < |s| && Holds(Removals, j.cfg, s, i)
    ensures o + i < |j.data|
  {
    assert Quote(j.cfg, s, i);
    SupportedIsValid(j.cfg);
    QuoteIsNoBound(j.cfg, s, i);
    BoundIsInInput(j, o, s, i);
  }
}
