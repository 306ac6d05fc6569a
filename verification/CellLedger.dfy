/** The quote-free stepper's books as values. */
module CellLedger {
  import opened Dialect
  import opened Records
  import opened Endings
  import opened Masks
  import opened Bitmask
  import opened Stream
  import opened Segments
  import opened FieldWalk
  import opened FieldCount
  import opened Stride
  import opened Refinement
  import opened InPlace
  import opened Index
  import opened Padding
  import opened LiveIndex
  import opened Flush
  import opened Ledger
  import opened BadRecord
  import opened CellWalk

  /** How far the stream is resolved once `k` vectors are published; `m` lanes were padding. */
  function Upto(k: nat, m: nat): nat {
    if 64 * k <= m then 0 else 64 * k - m
  }

  /** The boundaries pending from the record at `a` to `h`, as buffer offsets; the buffer is untouched from there on. */
  ghost predicate CellList(j: Job, o: nat, s: seq<byte>, a: nat, h: nat, base: nat, bs: seq<nat>, start: nat, mem: seq<byte>, n: nat) {
    && Supported(j.cfg) && j.cfg.quote.None? && j.cfg.fieldCount == Some(n) && Shows(j, o, s)
    && o <= base <= o + a && o + a == base + start && RecordStarts(j.cfg, s, a) && a <= h <= |s|
    && Shift(bs, base - o) == Positions(Bounds, j.cfg, s, a, h)
    && Unread(mem, j.data, o + a) && n >= 1 && Aligned(n, 0, Classes(j.cfg, s, a, h))
  }

  lemma CellListParts(j: Job, o: nat, s: seq<byte>, a: nat, h: nat, base: nat, bs: seq<nat>, start: nat, mem: seq<byte>, n: nat)
    ensures CellList(j, o, s, a, h, base, bs, start, mem, n) <==>
    && Supported(j.cfg) && j.cfg.quote.None? && j.cfg.fieldCount == Some(n) && Shows(j, o, s)
    && o <= base <= o + a && o + a == base + start && RecordStarts(j.cfg, s, a) && a <= h <= |s|
    && Shift(bs, base - o) == Positions(Bounds, j.cfg, s, a, h)
    && Unread(mem, j.data, o + a) && n >= 1 && Aligned(n, 0, Classes(j.cfg, s, a, h))
  {
    hide Supported, Shows, RecordStarts, Positions, Unread, Aligned, Classes;
  }

  /** The whole of the books once `k` vectors are published. */
  ghost predicate CellBooks(j: Job, o: nat, m: nat, s: seq<byte>, a: nat, k: nat, seen: seq<bool>, base: nat, bs: seq<nat>, start: nat, mem: seq<byte>, n: nat) {
    && Feeds(j, o, m, s) && 64 * k <= m + |s|
    && Counted(j, s, Upto(k, m), seen, n) && CellList(j, o, s, a, Upto(k, m), base, bs, start, mem, n)
  }

  lemma CellBooksParts(j: Job, o: nat, m: nat, s: seq<byte>, a: nat, k: nat, seen: seq<bool>, base: nat, bs: seq<nat>, start: nat, mem: seq<byte>, n: nat)
    ensures CellBooks(j, o, m, s, a, k, seen, base, bs, start, mem, n) <==>
    && Feeds(j, o, m, s) && 64 * k <= m + |s|
    && Counted(j, s, Upto(k, m), seen, n) && CellList(j, o, s, a, Upto(k, m), base, bs, start, mem, n)
  {
    hide Feeds, Counted, CellList, Upto;
  }

  /** What the books imply. */
  lemma CellBooksAre(j: Job, o: nat, m: nat, s: seq<byte>, a: nat, k: nat, seen: seq<bool>, base: nat, bs: seq<nat>, start: nat, mem: seq<byte>, n: nat)
    requires CellBooks(j, o, m, s, a, k, seen, base, bs, start, mem, n)
    ensures Feeds(j, o, m, s) && j.cfg.quote.None? && j.cfg.fieldCount == Some(n) && 1 <= n <= 63 && 64 * k <= m + |s| && m < 64
    ensures Counted(j, s, Upto(k, m), seen, n) && CellList(j, o, s, a, Upto(k, m), base, bs, start, mem, n)
    ensures o <= base <= o + a <= |j.data| == |mem| && o + a == base + start && a <= Upto(k, m) <= |s|
    ensures Upto(k, m) == if 64 * k <= m then 0 else 64 * k - m
    ensures Supported(j.cfg) && j.cfg.Valid() && Shows(j, o, s) && RecordStarts(j.cfg, s, a) && Unread(mem, j.data, o + a)
    ensures Vectors(j, o, m) == Pads(j.cfg, m) + s && |j.data| - o <= |s|
    ensures Aligned(n, 0, Classes(j.cfg, s, 0, a)) && |Classes(j.cfg, s, 0, a)| % n == 0
  {
    hide *;
    CellBooksParts(j, o, m, s, a, k, seen, base, bs, start, mem, n);
    CellListParts(j, o, s, a, Upto(k, m), base, bs, start, mem, n);
    FeedsIs(j, o, m, s);
    UptoIs(k, m);
    UnreadIs(mem, j.data, o + a);
    WholeBefore(j, s, a, Upto(k, m), seen, n);
  }

  lemma UptoIs(k: nat, m: nat)
    ensures Upto(k, m) == if 64 * k <= m then 0 else 64 * k - m
  {
  }

  /** A new run: nothing is published. */
  lemma FreshCells(j: Job, o: nat, m: nat, s: seq<byte>, mem: seq<byte>, n: nat)
    requires Feeds(j, o, m, s) && j.cfg.quote.None? && j.cfg.fieldCount == Some(n) && Unread(mem, j.data, o)
    ensures CellBooks(j, o, m, s, 0, 0, [], o, [], 0, mem, n)
  {
    hide *;
    FeedsIs(j, o, m, s);
    UptoIs(0, m);
    NoneYet(j.cfg, s);
    NothingAligned(n);
    IsCounted(j, s, 0, n);
    NoBoundsYet(j.cfg, s);
    CellListParts(j, o, s, 0, 0, o, [], 0, mem, n);
    CellBooksParts(j, o, m, s, 0, 0, [], o, [], 0, mem, n);
  }

  lemma NoBoundsYet(c: Config, s: seq<byte>)
    ensures Shift([], 0) == Positions(Bounds, c, s, 0, 0)
  {
  }

  /** With nothing published nothing is pending. */
  lemma NothingPublished(j: Job, o: nat, m: nat, s: seq<byte>, a: nat, seen: seq<bool>, base: nat, bs: seq<nat>, start: nat, mem: seq<byte>, n: nat)
    requires CellBooks(j, o, m, s, a, 0, seen, base, bs, start, mem, n)
    ensures a == 0 && base == o && start == 0 && seen == [] && bs == [] && Unread(mem, j.data, o)
  {
    hide *;
    CellBooksAre(j, o, m, s, a, 0, seen, base, bs, start, mem, n);
    CellListParts(j, o, s, a, 0, base, bs, start, mem, n);
    CountedIs(j, s, 0, seen, n);
    NoneYet(j.cfg, s);
    NoBoundsYet(j.cfg, s);
    ShiftSame(bs, 0);
  }

  /** A vector's matches, and the buffer offset of its first lane, wrapped. */
  datatype Held = Held(delim: Mask, term: Mask, base: nat)

  /** They are those of the stream at `at`; lanes before the stream are padding. */
  ghost predicate HeldAt(c: Config, s: seq<byte>, at: int, p: Held) {
    && (forall i :: 0 <= i < 64 ==> p.delim[i] == (at + i >= 0 && Delim(c, s, at + i)))
    && (forall i :: 0 <= i < 64 ==> p.term[i] == (at + i >= 0 && Term(c, s, at + i)))
  }

  lemma HeldAtIs(c: Config, s: seq<byte>, at: int, p: Held)
    requires HeldAt(c, s, at, p)
    ensures forall i :: 0 <= i < 64 ==> p.delim[i] == (at + i >= 0 && Delim(c, s, at + i))
    ensures forall i :: 0 <= i < 64 ==> p.term[i] == (at + i >= 0 && Term(c, s, at + i))
  {
    hide Delim, Term;
  }

  /** The matches of the stream's vector `f`. */
  lemma VectorHeld(j: Job, o: nat, m: nat, s: seq<byte>, f: nat, v: seq<byte>, base: nat)
    requires Feeds(j, o, m, s) && j.cfg.quote.None? && Vectors(j, o, m) == Pads(j.cfg, m) + s
    requires 64 * f + 64 <= |Vectors(j, o, m)| && v == Vectors(j, o, m)[64 * f..64 * f + 64]
    ensures |v| == 64 && HeldAt(j.cfg, s, 64 * f - m, Held(MatchStructural(j.cfg, v).delim, MatchStructural(j.cfg, v).term, base))
  {
    hide Feeds, Vectors, MatchStructural;
    var c, at, pads := j.cfg, 64 * f - m, Pads(j.cfg, m);
    forall i | 0 <= i < 64
      ensures (v[i] == c.delimiter) == (at + i >= 0 && Delim(c, s, at + i))
      ensures c.IsTerm(v[i]) == (at + i >= 0 && Term(c, s, at + i))
    {
      PlainByte(c, s, at + i);
      if at + i >= 0 {
        assert v[i] == (pads + s)[64 * f + i] == s[at + i];
      } else {
        assert v[i] == (pads + s)[64 * f + i] == pads[64 * f + i];
      }
    }
  }

  /** A vector resolved against the next one's first bit: its boundaries, and the ends of its runs. */
  ghost predicate RunsAt(c: Config, s: seq<byte>, at: int, d: Mask, t: Mask) {
    && (forall i :: 0 <= i < 64 ==> d[i] == (at + i >= 0 && Holds(Bounds, c, s, at + i)))
    && (forall i :: 0 <= i < 64 ==> d[i] == (at + i >= 0 && BoundB(c, s, at + i)))
    && (forall i :: 0 <= i < 64 ==> t[i] == (at + i >= 0 && RunEnd(c, s, at + i)))
  }

  lemma RunsAtIs(c: Config, s: seq<byte>, at: int, d: Mask, t: Mask)
    requires RunsAt(c, s, at, d, t)
    ensures forall i :: 0 <= i < 64 ==> d[i] == (at + i >= 0 && Holds(Bounds, c, s, at + i))
    ensures forall i :: 0 <= i < 64 ==> d[i] == (at + i >= 0 && BoundB(c, s, at + i))
    ensures forall i :: 0 <= i < 64 ==> t[i] == (at + i >= 0 && RunEnd(c, s, at + i))
  {
    hide BoundB, RunEnd, Holds;
  }

  lemma RunsResolved(c: Config, s: seq<byte>, at: int, p: Held, next: bool)
    requires HeldAt(c, s, at, p) && next == Term(c, s, at + 64) && -64 < at
    ensures var t := TerminatorRunEnds(p.term, next); RunsAt(c, s, at, Or(p.delim, t), t)
  {
    HeldAtIs(c, s, at, p);
    hide Delim, Term;
    var t := TerminatorRunEnds(p.term, next);
    forall i | 0 <= i < 64 ensures t[i] == (at + i >= 0 && RunEnd(c, s, at + i)) {
      if i < 63 {
        assert p.term[i + 1] == (at + (i + 1) >= 0 && Term(c, s, at + (i + 1)));
      }
    }
  }

  /** No lane was cleared: no run spans two terminators. */
  lemma StaysCalm(c: Config, s: seq<byte>, a: nat, h: nat, at: int, p: Held, d: Mask, t: Mask)
    requires HeldAt(c, s, at, p) && RunsAt(c, s, at, d, t) && t == p.term && Calm(c, s, a, h) && h == (if at < 0 then 0 else at)
    ensures at + 64 >= 0 ==> Calm(c, s, a, at + 64)
  {
    HeldAtIs(c, s, at, p);
    RunsAtIs(c, s, at, d, t);
    hide Term, RunEnd;
    forall i | a <= i < at + 64 && Term(c, s, i) ensures RunEnd(c, s, i) {
      if i >= h {
        var lane := i - at;
        assert p.term[lane] == (at + lane >= 0 && Term(c, s, at + lane));
        assert at + lane == i;
      }
    }
  }

  /** The offsets of a resolved vector lie in the buffer. */
  lemma RunsInBuffer(j: Job, o: nat, m: nat, s: seq<byte>, a: nat, k: nat, seen: seq<bool>, base: nat, bs: seq<nat>, start: nat, mem: seq<byte>, n: nat, d: Mask, t: Mask)
    requires CellBooks(j, o, m, s, a, k, seen, base, bs, start, mem, n) && RunsAt(j.cfg, s, 64 * k - m, d, t)
    ensures InBuffer(d, 64 * k - m - (base - o)) && -64 < 64 * k - m - (base - o)
  {
    hide *;
    CellBooksAre(j, o, m, s, a, k, seen, base, bs, start, mem, n);
    RunsAtIs(j.cfg, s, 64 * k - m, d, t);
    LanesInBuffer(j.cfg, s, 64 * k - m, base - o, d);
  }

  lemma LanesInBuffer(c: Config, s: seq<byte>, at: int, d: int, mask: Mask)
    requires (forall i :: 0 <= i < 64 ==> mask[i] == (at + i >= 0 && BoundB(c, s, at + i))) && (at < d ==> d == 0)
    ensures InBuffer(mask, at - d)
  {
    hide BoundB;
  }

  /** One more vector, accepted: its boundaries are published. */
  lemma Published(j: Job, o: nat, m: nat, s: seq<byte>, a: nat, k: nat, seen: seq<bool>, base: nat, bs: seq<nat>, bs': seq<nat>, start: nat, mem: seq<byte>, n: nat, d: Mask, t: Mask)
    requires CellBooks(j, o, m, s, a, k, seen, base, bs, start, mem, n) && 64 * k + 64 <= m + |s|
    requires RunsAt(j.cfg, s, 64 * k - m, d, t) && n >= 1 && Aligned(n, 0, seen + Pick(t, d))
    requires bs' == bs + Offsets(d, 64 * k - m - (base - o), 64)
    ensures CellBooks(j, o, m, s, a, k + 1, seen + Pick(t, d), base, bs', start, mem, n)
  {
    hide *;
    CellBooksAre(j, o, m, s, a, k, seen, base, bs, start, mem, n);
    var h, h2, at := Upto(k, m), Upto(k + 1, m), 64 * k - m;
    UptoIs(k + 1, m);
    CellListParts(j, o, s, a, h, base, bs, start, mem, n);
    RunsAtIs(j.cfg, s, at, d, t);
    CountedIs(j, s, h, seen, n);
    ExtendsPositions(Bounds, j.cfg, s, a, h, h2, base - o, bs, bs', d, at);
    PickIsClasses(j.cfg, s, d, t, at, 64);
    assert t[..64] == t && d[..64] == d;
    AcceptedVector(j, s, a, h, h2, n);
    CellListParts(j, o, s, a, h2, base, bs', start, mem, n);
    CellBooksParts(j, o, m, s, a, k + 1, seen + Pick(t, d), base, bs', start, mem, n);
  }

  /** One more vector, rejected. */
  lemma Unpublished(j: Job, o: nat, m: nat, s: seq<byte>, a: nat, k: nat, seen: seq<bool>, base: nat, bs: seq<nat>, start: nat, mem: seq<byte>, n: nat, d: Mask, t: Mask)
    requires CellBooks(j, o, m, s, a, k, seen, base, bs, start, mem, n) && 64 * k + 64 <= m + |s|
    requires RunsAt(j.cfg, s, 64 * k - m, d, t) && n >= 1 && !Aligned(n, 0, seen + Pick(t, d))
    ensures 64 * k + 64 >= m && Misaligned(j.cfg, s, a, n, 64 * k + 64 - m) && o + a < |j.data| && Doomed(j, o, a)
  {
    hide *;
    CellBooksAre(j, o, m, s, a, k, seen, base, bs, start, mem, n);
    var h, h2, at := Upto(k, m), Upto(k + 1, m), 64 * k - m;
    UptoIs(k + 1, m);
    CellListParts(j, o, s, a, h, base, bs, start, mem, n);
    RunsAtIs(j.cfg, s, at, d, t);
    CountedIs(j, s, h, seen, n);
    PickIsClasses(j.cfg, s, d, t, at, 64);
    assert t[..64] == t && d[..64] == d;
    RejectedVector(j, o, s, a, h, h2, n, None);
    RejectionDooms(j, o, a, None);
  }

  /** The buffer holds the stream's bytes from the oldest record on. */
  lemma CellIsBytes(j: Job, o: nat, s: seq<byte>, a: nat, mem: seq<byte>, base: nat, lo: nat, hi: nat)
    requires Shows(j, o, s) && Unread(mem, j.data, o + a) && o <= base && a <= lo + (base - o) && lo <= hi && base + hi <= |j.data|
    ensures |mem| == |j.data| && hi + (base - o) <= |s| && mem[base + lo..base + hi] == s[lo + (base - o)..hi + (base - o)]
  {
    var x, y := mem[base + lo..base + hi], s[lo + (base - o)..hi + (base - o)];
    forall i | 0 <= i < |x| ensures x[i] == y[i] {
      assert mem[o + a..][base + lo + i - o - a] == j.data[o + a..][base + lo + i - o - a];
    }
  }

  /** One record emitted, against the scan. */
  lemma RecordLeaves(j: Job, o: nat, s: seq<byte>, a: nat, h: nat, n: nat, b: nat, x: nat, re: nat, fields: Record, bs: seq<nat>, d: int, bnd: nat, last: Option<nat>)
    requires Supported(j.cfg) && Shows(j, o, s) && j.cfg.fieldCount == Some(n) && RecordStarts(j.cfg, s, a) && bnd <= |j.data|
    requires RecordDone(j.cfg, s, a, h, n, b, x, re, fields, bs, d) && (last.Some? ==> last.value < o + a)
    ensures b <= x <= re < |s| && o + a < |j.data| && o + x <= |j.data| && a <= x
    ensures o + re < |j.data| ==> CloseWithin(j, o, a, re + 1, 1)
    ensures var r := fields + [s[b..x]];
            && (!j.accept(r) ==> Doomed(j, o, a) && Remains(j, o, a, bnd, last) == Err([], Rejected(r)))
            && (j.accept(r) && bnd <= o + re ==> Remains(j, o, a, bnd, last) == Ok([r], Some(Max(bnd, o + x))))
            && (j.accept(r) && o + re < bnd ==> Keeps(j, o, a, last, re + 1, Some(o + x), bnd, [r]))
  {
    hide *;
    RecordDoneIs(j.cfg, s, a, h, n, b, x, re, fields, bs, d);
    RecordScanned(j, o, s, a, h, n, b, x, re, fields, bs, d, bnd, last);
    var r := fields + [s[b..x]];
    RemainsIs(j, o, a, bnd, last);
    RecordCloses(j, o, s, a, n);
    if o + re < |j.data| {
      OneClosed(j, o, a, x, re + 1);
    }
    if !j.accept(r) {
      ClosedRejects(j, o, x, re, r, o + a, bnd);
      DoomedNow(j, o, a, bnd, last);
    } else if bnd <= o + re {
      ClosedStops(j, o, x, re, r, o + a, bnd);
    } else {
      ClosedGoes(j, o, x, re, r, o + a, bnd);
      RemainsIs(j, o, re + 1, bnd, Some(o + x));
      if Doomed(j, o, re + 1) {
        DoomedBack(j, o, a, re + 1, bnd, last, Some(o + x), [r]);
      }
      IsKeeps(j, o, a, last, re + 1, Some(o + x), bnd, [r]);
    }
  }

  lemma ClosedRejects(j: Job, o: nat, x: nat, re: nat, r: Record, recordIn: nat, bnd: nat)
    requires (o + x == |j.data| || o + x <= o + re < |j.data|) && !j.accept(r) && j.cfg.fieldCount == Some(|r|)
    ensures FieldWalk.Closed(j, o, x, re, r, recordIn, bnd) == Err([], Rejected(r))
  {
    hide Scan;
  }

  lemma ClosedStops(j: Job, o: nat, x: nat, re: nat, r: Record, recordIn: nat, bnd: nat)
    requires (o + x == |j.data| || o + x <= o + re < |j.data|) && j.accept(r) && j.cfg.fieldCount == Some(|r|) && bnd <= o + re && bnd <= |j.data|
    ensures FieldWalk.Closed(j, o, x, re, r, recordIn, bnd) == Ok([r], Some(Max(bnd, o + x)))
  {
    hide Scan;
  }

  lemma ClosedGoes(j: Job, o: nat, x: nat, re: nat, r: Record, recordIn: nat, bnd: nat)
    requires o + x == |j.data| || o + x <= o + re < |j.data|
    requires j.accept(r) && j.cfg.fieldCount == Some(|r|) && o + re < bnd <= |j.data| && x <= re
    ensures o + re + 1 <= |j.data|
    ensures FieldWalk.Closed(j, o, x, re, r, recordIn, bnd) == Prepend([r], Scan(j, o + re + 1, bnd, Fresh(o + re + 1), Some(o + x)))
  {
    hide Scan;
  }

  /** The list behind an emitted record. */
  lemma CellsAfter(j: Job, o: nat, s: seq<byte>, a: nat, h: nat, base: nat, all: seq<nat>, start: nat, mem: seq<byte>, n: nat, b: nat, x: nat, re: nat, fields: Record, bs: seq<nat>)
    requires CellList(j, o, s, a, h, base, all, start, mem, n) && 1 <= n <= |all| && bs == all[n - 1..]
    requires RecordDone(j.cfg, s, a, h, n, b, x, re, fields, bs, base - o) && o + re + 1 <= |j.data|
    ensures re + 1 >= base - o && CellList(j, o, s, re + 1, h, base, all[n..], re + 1 - (base - o), mem, n)
  {
    hide *;
    CellListParts(j, o, s, a, h, base, all, start, mem, n);
    RecordDoneIs(j.cfg, s, a, h, n, b, x, re, fields, bs, base - o);
    assert all[n - 1..][1..] == all[n..];
    UnreadIs(mem, j.data, o + a);
    SuffixOf(mem, j.data, o + a, o + re + 1);
    IsUnread(mem, j.data, o + re + 1);
    CellListParts(j, o, s, re + 1, h, base, all[n..], re + 1 - (base - o), mem, n);
  }

  lemma IsUnread(m: seq<byte>, data: seq<byte>, p: nat)
    requires |m| == |data| && p <= |m| && m[p..] == data[p..]
    ensures Unread(m, data, p)
  {
  }

  /**
   * `count` records are complete in `bs`. All but the last end before the boundary, `rem` bytes
   * into the buffer; the last one does so too, or is the one to stop on.
   */
  ghost predicate Before(bs: seq<nat>, n: nat, count: nat, rem: nat, stop: bool)
    decreases count
  {
    && n >= 1 && count >= 1 && n <= |bs|
    && (if count == 1 && stop then rem <= bs[n - 1] else bs[n - 1] < rem)
    && (count > 1 ==> Before(bs[n..], n, count - 1, rem, stop))
  }

  /** The record to stop on is the first whose last boundary is not before `rem`; `i` is `count * n`. */
  lemma {:induction false} ChosenBefore(bs: seq<nat>, n: nat, count: nat, i: nat, rem: nat, stop: bool)
    requires n >= 1 && count >= 1 && i == count * n && i <= |bs| && Sorted(bs)
    requires if stop then rem <= bs[i - 1] && (count > 1 ==> i > n && bs[i - n - 1] < rem) else bs[i - 1] < rem
    ensures Before(bs, n, count, rem, stop)
    decreases count
  {
    OneLess(count, n);
    if count > 1 {
      SortedTail(bs, n);
      OneLess(count - 1, n);
      ChosenBefore(bs[n..], n, count - 1, i - n, rem, stop);
    }
  }

  lemma SortedTail(bs: seq<nat>, n: nat)
    requires Sorted(bs) && n <= |bs|
    ensures Sorted(bs[n..]) && forall i, k :: 0 <= i < k < |bs| ==> bs[i] < bs[k]
  {
  }

  /** Pending boundaries ascend. */
  lemma CellsAscend(j: Job, o: nat, s: seq<byte>, a: nat, h: nat, base: nat, bs: seq<nat>, start: nat, mem: seq<byte>, n: nat)
    requires CellList(j, o, s, a, h, base, bs, start, mem, n)
    ensures Sorted(bs)
  {
    hide *;
    CellListParts(j, o, s, a, h, base, bs, start, mem, n);
    ShiftSame(bs, base - o);
    PositionsAscend(Bounds, j.cfg, s, a, h);
    IsSorted(bs, base - o, Positions(Bounds, j.cfg, s, a, h));
  }

  lemma IsSorted(bs: seq<nat>, d: int, p: seq<nat>)
    requires |p| == |bs| && (forall i :: 0 <= i < |bs| ==> p[i] == bs[i] + d) && Sorted(p)
    ensures Sorted(bs)
  {
  }

  /** Consumed bytes lower every offset. */
  lemma CellsConsumed(j: Job, o: nat, m: nat, s: seq<byte>, a: nat, k: nat, seen: seq<bool>, base: nat, bs: seq<nat>, bs': seq<nat>, start: nat, mem: seq<byte>, n: nat, c: nat)
    requires CellBooks(j, o, m, s, a, k, seen, base, bs, start, mem, n) && c <= start && LoweredBy(bs, bs', c)
    ensures CellBooks(j, o, m, s, a, k, seen, base + c, bs', start - c, mem, n)
  {
    hide *;
    CellBooksAre(j, o, m, s, a, k, seen, base, bs, start, mem, n);
    var h := Upto(k, m);
    CellListParts(j, o, s, a, h, base, bs, start, mem, n);
    FromOn(j.cfg, s, a, h);
    DroppedShift(bs, bs', c, base - o, Positions(Bounds, j.cfg, s, a, h), a);
    CellListParts(j, o, s, a, h, base + c, bs', start - c, mem, n);
    CellBooksParts(j, o, m, s, a, k, seen, base + c, bs', start - c, mem, n);
  }

  lemma FromOn(c: Config, s: seq<byte>, a: nat, h: nat)
    requires a <= h
    ensures forall i :: 0 <= i < |Positions(Bounds, c, s, a, h)| ==> a <= Positions(Bounds, c, s, a, h)[i]
  {
  }
}
