/** Emitting pending records: which of them are complete, where each ends, and what they hold. */
module Flush {
  import opened Dialect
  import opened Records
  import opened Stream
  import opened Segments
  import opened FieldWalk
  import opened RecordWalk
  import opened Stride
  import opened Refinement
  import opened InPlace
  import opened Index
  import opened LiveIndex

  /** Pending begins, ends and removals, as buffer offsets. */
  datatype Lists = Lists(bs: seq<nat>, es: seq<nat>, rs: seq<nat>)

  /** The begins and ends are the stream's from the record at `a` to `h`; buffer offset 0 is position `d`. */
  ghost predicate TracksFields(c: Config, s: seq<byte>, a: nat, h: nat, d: int, bs: seq<nat>, es: seq<nat>) {
    && a <= h <= |s| && RecordStarts(c, s, a)
    && Shift(bs, d) == BeginsFrom(c, s, a, h)
    && Shift(es, d) == Positions(Ends, c, s, a, h)
  }

  /** So are the removals. */
  ghost predicate TracksRemovals(c: Config, s: seq<byte>, a: nat, h: nat, d: int, rs: seq<nat>) {
    a <= h <= |s| && Shift(rs, d) == Positions(Removals, c, s, a, h)
  }

  ghost predicate Tracks(c: Config, s: seq<byte>, a: nat, h: nat, d: int, l: Lists) {
    TracksFields(c, s, a, h, d, l.bs, l.es) && TracksRemovals(c, s, a, h, d, l.rs)
  }

  /** Positions ascend. */
  lemma {:induction false} PositionsAscend(k: Kind, c: Config, s: seq<byte>, lo: nat, hi: nat)
    requires lo <= hi
    ensures Sorted(Positions(k, c, s, lo, hi))
    decreases hi - lo
  {
    hide Holds;
    if lo < hi {
      PositionsAscend(k, c, s, lo, hi - 1);
    }
  }

  /** Each end follows its begin and precedes the later begins. */
  ghost predicate Alternates(bs: seq<nat>, es: seq<nat>) {
    && |es| <= |bs|
    && (forall i :: 0 <= i < |es| ==> bs[i] <= es[i])
    && (forall i, k :: 0 <= i < k < |es| ==> es[i] <= bs[k])
  }

  /** Begins and ends alternate. */
  lemma {:induction false} BeginsAndEnds(c: Config, s: seq<byte>, a: nat, h: nat)
    requires c.Valid() && Starts(c, s, a) && a <= h <= |s|
    ensures Alternates(BeginsFrom(c, s, a, h), Positions(Ends, c, s, a, h))
    decreases h - a
  {
    hide *;
    var bs, es := BeginsFrom(c, s, a, h), Positions(Ends, c, s, a, h);
    if es == [] {
      NoneAlternate(bs);
    } else {
      var x, re := Peel(c, s, a, h);
      SegmentOrder(c, s, a, x, re);
      EndInSegment(c, s, a, x, re);
      if re < h {
        BeginsAndEnds(c, s, re + 1, h);
        BeginsFromIs(c, s, re + 1, h);
        Alternate(BeginOf(c, s, a), EndOf(c, s, x), BeginsFrom(c, s, re + 1, h), Positions(Ends, c, s, re + 1, h), re + 1);
      } else {
        OneAlternates(BeginOf(c, s, a), EndOf(c, s, x));
      }
    }
  }

  lemma NoneAlternate(bs: seq<nat>)
    ensures Alternates(bs, [])
  {
  }

  lemma OneAlternates(b: nat, e: nat)
    requires b <= e
    ensures Alternates([b], [e])
  {
  }

  lemma Alternate(b: nat, e: nat, bs: seq<nat>, es: seq<nat>, next: nat)
    requires b <= e < next && Alternates(bs, es)
    requires forall i :: 0 <= i < |bs| ==> next <= bs[i]
    ensures Alternates([b] + bs, [e] + es)
  {
  }

  /** The pending fields are fit for assembly. */
  lemma FieldsAreLaid(c: Config, s: seq<byte>, a: nat, h: nat, d: int, bs: seq<nat>, es: seq<nat>)
    requires c.Valid() && TracksFields(c, s, a, h, d, bs, es) && d <= h
    ensures Laid(bs, es, |es|, h - d)
    ensures forall i :: 0 <= i < |es| ==> es[i] + d < h
    ensures forall i :: 0 <= i < |bs| ==> a <= bs[i] + d
  {
    hide *;
    TracksFieldsIs(c, s, a, h, d, bs, es);
    BeginsAndEnds(c, s, a, h);
    BeginsWithin(c, s, a, h);
    Unshift(bs, d, BeginsFrom(c, s, a, h));
    Unshift(es, d, Positions(Ends, c, s, a, h));
    LaidUnshift(bs, es, d, BeginsFrom(c, s, a, h), Positions(Ends, c, s, a, h), h);
  }

  lemma RemovalsAreSorted(c: Config, s: seq<byte>, a: nat, h: nat, d: int, rs: seq<nat>)
    requires TracksRemovals(c, s, a, h, d, rs)
    ensures a <= h <= |s| && Shift(rs, d) == Positions(Removals, c, s, a, h) && Sorted(rs)
  {
    PositionsAscend(Removals, c, s, a, h);
    hide Positions;
    Unshift(rs, d, Positions(Removals, c, s, a, h));
    SortedUnshift(rs, d, Positions(Removals, c, s, a, h));
  }

  lemma BeginsWithin(c: Config, s: seq<byte>, a: nat, h: nat)
    requires a <= h
    ensures forall i :: 0 <= i < |BeginsFrom(c, s, a, h)| ==> a <= BeginsFrom(c, s, a, h)[i]
  {
    hide Begin;
  }

  lemma TracksFieldsIs(c: Config, s: seq<byte>, a: nat, h: nat, d: int, bs: seq<nat>, es: seq<nat>)
    requires TracksFields(c, s, a, h, d, bs, es)
    ensures a <= h <= |s| && RecordStarts(c, s, a) && Starts(c, s, a)
    ensures Shift(bs, d) == BeginsFrom(c, s, a, h)
    ensures Shift(es, d) == Positions(Ends, c, s, a, h)
  {
  }

  lemma Unshift(xs: seq<nat>, d: int, p: seq<nat>)
    requires Shift(xs, d) == p
    ensures |xs| == |p| && forall i :: 0 <= i < |xs| ==> xs[i] + d == p[i]
  {
  }

  lemma SortedUnshift(xs: seq<nat>, d: int, p: seq<nat>)
    requires |xs| == |p| && (forall i :: 0 <= i < |xs| ==> xs[i] + d == p[i]) && Sorted(p)
    ensures Sorted(xs)
  {
    forall i, k | 0 <= i < k < |xs| ensures xs[i] < xs[k] {
      assert p[i] < p[k];
      assert xs[i] + d == p[i] && xs[k] + d == p[k];
    }
  }

  lemma LaidUnshift(bs: seq<nat>, es: seq<nat>, d: int, p: seq<nat>, q: seq<nat>, h: nat)
    requires d <= h
    requires |bs| == |p| && (forall i :: 0 <= i < |bs| ==> bs[i] + d == p[i])
    requires |es| == |q| && (forall i :: 0 <= i < |es| ==> es[i] + d == q[i])
    requires Alternates(p, q)
    requires forall i :: 0 <= i < |q| ==> q[i] < h
    ensures Laid(bs, es, |es|, h - d)
  {
    forall i | 0 <= i < |es| ensures bs[i] <= es[i] <= h - d {
      assert bs[i] + d == p[i] && es[i] + d == q[i] && p[i] <= q[i];
    }
    forall i, k | 0 <= i < k < |es| ensures es[i] <= bs[k] {
      assert es[i] + d == q[i] && bs[k] + d == p[k] && q[i] <= p[k];
    }
  }

  lemma {:induction false} UnremovedSplit(c: Config, s: seq<byte>, lo: nat, mid: nat, hi: nat)
    requires lo <= mid <= hi <= |s|
    ensures Unremoved(c, s, lo, hi) == Unremoved(c, s, lo, mid) + Unremoved(c, s, mid, hi)
    decreases hi - mid
  {
    hide Removed;
    if mid < hi {
      UnremovedSplit(c, s, lo, mid, hi - 1);
    }
  }

  lemma {:induction false} NothingIsRemoved(c: Config, s: seq<byte>, lo: nat, hi: nat)
    requires lo <= hi <= |s| && Positions(Removals, c, s, lo, hi) == []
    ensures Unremoved(c, s, lo, hi) == s[lo..hi]
    decreases hi - lo
  {
    hide Removed;
    if lo < hi {
      assert Positions(Removals, c, s, lo, hi - 1) == [];
      NothingIsRemoved(c, s, lo, hi - 1);
      assert s[lo..hi] == s[lo..hi - 1] + [s[hi - 1]];
    }
  }

  lemma {:induction false} FirstPosition(k: Kind, c: Config, s: seq<byte>, lo: nat, hi: nat) returns (at: nat)
    requires lo <= hi && Positions(k, c, s, lo, hi) != []
    ensures lo <= at < hi && Holds(k, c, s, at)
    ensures Positions(k, c, s, lo, at) == []
    ensures Positions(k, c, s, lo, hi) == [at] + Positions(k, c, s, at + 1, hi)
    decreases hi - lo
  {
    hide *;
    PositionsLast(k, c, s, lo, hi);
    if Positions(k, c, s, lo, hi - 1) == [] {
      at := hi - 1;
      NoRoom(k, c, s, hi);
    } else {
      at := FirstPosition(k, c, s, lo, hi - 1);
      PositionsLast(k, c, s, at + 1, hi);
    }
  }

  lemma PositionsLast(k: Kind, c: Config, s: seq<byte>, lo: nat, hi: nat)
    requires lo <= hi
    ensures lo == hi ==> Positions(k, c, s, lo, hi) == []
    ensures lo < hi ==> Positions(k, c, s, lo, hi) == Positions(k, c, s, lo, hi - 1) + (if Holds(k, c, s, hi - 1) then [hi - 1] else [])
  {
    hide Holds;
  }

  lemma NoRoom(k: Kind, c: Config, s: seq<byte>, at: nat)
    ensures Positions(k, c, s, at, at) == []
  {
  }

  /** Splicing the removals out of the buffer leaves what the masks leave of the stream. */
  lemma {:induction false} SpliceIsUnremoved(c: Config, s: seq<byte>, m: seq<byte>, base: nat, d: int, b: nat, rs: seq<nat>, e: nat)
    requires b <= e && base + e <= |m| && Ascending(rs, b, e) && 0 <= b + d && e + d <= |s|
    requires m[base + b..base + e] == s[b + d..e + d]
    requires Shift(rs, d) == Positions(Removals, c, s, b + d, e + d)
    ensures Splice(m, base, b, rs, e) == Unremoved(c, s, b + d, e + d)
    decreases |rs|
  {
    hide *;
    Unshift(rs, d, Positions(Removals, c, s, b + d, e + d));
    if rs == [] {
      NothingIsRemoved(c, s, b + d, e + d);
      SpliceWhole(m, base, b, e);
    } else {
      AscendingFirst(rs, b, e);
      var r := rs[0];
      var at := FirstPosition(Removals, c, s, b + d, e + d);
      assert at == r + d;
      SpliceStep(m, base, b, rs, e);
      TailRange(m, s, base, d, b, r, e);
      ShiftTail(rs, d, at, Positions(Removals, c, s, at + 1, e + d));
      SpliceIsUnremoved(c, s, m, base, d, r + 1, rs[1..], e);
      NothingIsRemoved(c, s, b + d, at);
      UnremovedSplit(c, s, b + d, at, e + d);
      UnremovedSplit(c, s, at, at + 1, e + d);
      OneRemoved(c, s, at);
      assert Unremoved(c, s, at, at + 1) + Unremoved(c, s, at + 1, e + d) == Unremoved(c, s, at + 1, e + d);
    }
  }

  lemma OneRemoved(c: Config, s: seq<byte>, at: nat)
    requires at < |s| && Holds(Removals, c, s, at)
    ensures Unremoved(c, s, at, at + 1) == []
  {
    assert Unremoved(c, s, at, at) == [];
  }

  lemma TailRange(m: seq<byte>, s: seq<byte>, base: nat, d: int, b: nat, r: nat, e: nat)
    requires b <= r < e && base + e <= |m| && 0 <= b + d && e + d <= |s|
    requires m[base + b..base + e] == s[b + d..e + d]
    ensures m[base + (r + 1)..base + e] == s[(r + 1) + d..e + d]
    ensures m[base + b..base + r] == s[b + d..r + d]
  {
    var x, y := m[base + b..base + e], s[b + d..e + d];
    assert m[base + (r + 1)..base + e] == x[r + 1 - b..];
    assert s[(r + 1) + d..e + d] == y[r + 1 - b..];
    assert m[base + b..base + r] == x[..r - b];
    assert s[b + d..r + d] == y[..r - b];
  }

  lemma ShiftTail(xs: seq<nat>, d: int, at: nat, p: seq<nat>)
    requires xs != [] && Shift(xs, d) == [at] + p
    ensures Shift(xs[1..], d) == p
  {
    forall i | 0 <= i < |p| ensures Shift(xs[1..], d)[i] == p[i] {
      assert Shift(xs, d)[i + 1] == ([at] + p)[i + 1];
    }
  }

  /** The removals of one field, among all pending ones. */
  lemma WithinIsPositions(c: Config, s: seq<byte>, a: nat, h: nat, d: int, rs: seq<nat>, b: nat, e: nat)
    requires TracksRemovals(c, s, a, h, d, rs)
    requires b <= e && a <= b + d && e + d <= h
    ensures Sorted(rs) && Shift(Within(rs, b, e), d) == Positions(Removals, c, s, b + d, e + d)
  {
    hide *;
    RemovalsAreSorted(c, s, a, h, d, rs);
    Unshift(rs, d, Positions(Removals, c, s, a, h));
    PositionsSplit(Removals, c, s, a, b + d, h);
    PositionsSplit(Removals, c, s, b + d, e + d, h);
    var p1, p2, p3 := Positions(Removals, c, s, a, b + d), Positions(Removals, c, s, b + d, e + d), Positions(Removals, c, s, e + d, h);
    CutAt(rs, d, p1, p2, p3, b, e);
    WithinIsSlice(rs, |p1|, |p1| + |p2|, b, e);
  }

  lemma CutAt(rs: seq<nat>, d: int, p1: seq<nat>, p2: seq<nat>, p3: seq<nat>, b: nat, e: nat)
    requires b <= e && Shift(rs, d) == p1 + (p2 + p3) && |rs| == |p1| + |p2| + |p3|
    requires (forall i :: 0 <= i < |p1| ==> p1[i] < b + d) && (forall i :: 0 <= i < |p2| ==> b + d <= p2[i] < e + d)
    requires forall i :: 0 <= i < |p3| ==> e + d <= p3[i]
    ensures Cut(rs, |p1|, b) && Cut(rs, |p1| + |p2|, e)
    ensures Shift(rs[|p1|..|p1| + |p2|], d) == p2
    ensures Shift(rs[|p1| + |p2|..], d) == p3
  {
    var p := p1 + (p2 + p3);
    forall i | 0 <= i < |rs|
      ensures rs[i] + d == if i < |p1| then p1[i] else if i < |p1| + |p2| then p2[i - |p1|] else p3[i - |p1| - |p2|]
    {
      assert Shift(rs, d)[i] == p[i];
    }
  }

  /** The buffer holds the input from the record at `a` on. */
  ghost predicate Holding(j: Job, o: nat, m: seq<byte>, a: nat, base: nat, d: int) {
    Unread(m, j.data, o + a) && base == o + d && base <= |m|
  }

  lemma EndInInput(j: Job, o: nat, s: seq<byte>, i: nat)
    requires Supported(j.cfg) && Shows(j, o, s) && i < |s| && End(j.cfg, s, i)
    ensures o + i <= |j.data|
  {
    if BoundE(j.cfg, s, i) {
      BoundIsInInput(j, o, s, i);
    } else {
      assert Quote(j.cfg, s, i);
    }
  }

  lemma {:induction false} PositionsHold(k: Kind, c: Config, s: seq<byte>, lo: nat, hi: nat)
    requires lo <= hi
    ensures forall i :: 0 <= i < |Positions(k, c, s, lo, hi)| ==> Holds(k, c, s, Positions(k, c, s, lo, hi)[i])
    decreases hi - lo
  {
    hide Holds;
    if lo < hi {
      PositionsHold(k, c, s, lo, hi - 1);
    }
  }

  /** The pending fields lie in the input. */
  lemma EndsInInput(j: Job, o: nat, s: seq<byte>, a: nat, h: nat, d: int, bs: seq<nat>, es: seq<nat>)
    requires Supported(j.cfg) && Shows(j, o, s) && TracksFields(j.cfg, s, a, h, d, bs, es)
    ensures forall i :: 0 <= i < |es| ==> o + es[i] + d <= |j.data|
  {
    hide *;
    TracksFieldsIs(j.cfg, s, a, h, d, bs, es);
    PositionsHold(Ends, j.cfg, s, a, h);
    Unshift(es, d, Positions(Ends, j.cfg, s, a, h));
    forall i | 0 <= i < |es| ensures o + es[i] + d <= |j.data| {
      var e := Positions(Ends, j.cfg, s, a, h)[i];
      HoldsEnd(j.cfg, s, e);
      EndInInput(j, o, s, e);
    }
  }

  lemma HoldsEnd(c: Config, s: seq<byte>, i: int)
    ensures Holds(Ends, c, s, i) == End(c, s, i)
  {
  }

  /** The fields are laid out within the buffer. */
  lemma LaidInBuffer(j: Job, o: nat, s: seq<byte>, a: nat, h: nat, base: nat, d: int, bs: seq<nat>, es: seq<nat>, count: nat)
    requires Supported(j.cfg) && Shows(j, o, s) && TracksFields(j.cfg, s, a, h, d, bs, es) && d <= h && count <= |es|
    requires base == o + d && base <= |j.data|
    ensures Laid(bs, es, count, |j.data| - base)
  {
    hide *;
    SupportedIsValid(j.cfg);
    FieldsAreLaid(j.cfg, s, a, h, d, bs, es);
    EndsInInput(j, o, s, a, h, d, bs, es);
    Relaid(bs, es, |es|, h - d, count, |j.data| - base);
  }

  lemma HoldingIs(j: Job, o: nat, m: seq<byte>, a: nat, base: nat, d: int)
    requires Holding(j, o, m, a, base, d)
    ensures Unread(m, j.data, o + a) && base == o + d && base <= |m| == |j.data|
  {
  }

  lemma Relaid(bs: seq<nat>, es: seq<nat>, total: nat, limit: nat, count: nat, room: nat)
    requires Laid(bs, es, total, limit) && count <= total && forall i :: 0 <= i < |es| ==> es[i] <= room
    ensures Laid(bs, es, count, room)
  {
  }

  /** A pending field, spliced out of the buffer, is the field the masks delimit. */
  lemma FieldIs(j: Job, o: nat, s: seq<byte>, a: nat, h: nat, base: nat, d: int, rs: seq<nat>, m: seq<byte>, b: nat, e: nat)
    requires Shows(j, o, s) && TracksRemovals(j.cfg, s, a, h, d, rs)
    requires Holding(j, o, m, a, base, d) && b <= e && a <= b + d && e + d <= h && o + e + d <= |j.data|
    ensures Sorted(rs) && base + e <= |m| && FieldBytes(m, base, b, e, rs) == Unremoved(j.cfg, s, b + d, e + d)
  {
    hide *;
    HoldingIs(j, o, m, a, base, d);
    WithinIsPositions(j.cfg, s, a, h, d, rs, b, e);
    FieldBytesIs(m, base, b, e, rs);
    SameAsShown(j, o, s, m, a, base, d, b, e);
    SpliceIsUnremoved(j.cfg, s, m, base, d, b, Within(rs, b, e), e);
  }

  lemma SameAsShown(j: Job, o: nat, s: seq<byte>, m: seq<byte>, a: nat, base: nat, d: int, b: nat, e: nat)
    requires Shows(j, o, s) && Unread(m, j.data, o + a) && base == o + d && b <= e && a <= b + d && o + e + d <= |j.data|
    ensures base + e <= |m| && e + d <= |s| && m[base + b..base + e] == s[b + d..e + d]
  {
    Stepper.SameBytes(m, j.data, o + a, |m|);
    var x, y := m[base + b..base + e], s[b + d..e + d];
    forall i | 0 <= i < |x| ensures x[i] == y[i] {
      assert m[o + a..|m|][b + d - a + i] == m[base + b + i];
      assert j.data[o + a..|m|][b + d - a + i] == j.data[base + b + i];
      assert j.data[o + (b + d + i)] == s[b + d + i];
    }
  }

  /** The first record from `a`, assembled, is the record the scan closes; removals are known from `a0` on. */
  lemma RecordIs(j: Job, o: nat, s: seq<byte>, a0: nat, a: nat, h: nat, base: nat, d: int, bs: seq<nat>, es: seq<nat>, rs: seq<nat>, m: seq<byte>, n: nat)
    requires Supported(j.cfg) && Shows(j, o, s) && TracksFields(j.cfg, s, a, h, d, bs, es) && TracksRemovals(j.cfg, s, a0, h, d, rs)
    requires a0 <= a && d <= h && Holding(j, o, m, a0, base, d) && Strided(j.cfg, s, a, h, n)
    ensures n <= |es| && base <= |m| && Laid(bs, es, n, |m| - base) && Sorted(rs)
    ensures RecordBytes(m, base, bs, es, rs, n) == FieldsOf(j.cfg, s, a, n)
  {
    hide *;
    SupportedIsValid(j.cfg);
    HoldingIs(j, o, m, a0, base, d);
    TracksFieldsIs(j.cfg, s, a, h, d, bs, es);
    RemovalsAreSorted(j.cfg, s, a0, h, d, rs);
    FieldsAreLaid(j.cfg, s, a, h, d, bs, es);
    EndsInInput(j, o, s, a, h, d, bs, es);
    StridedFields(j.cfg, s, a, h, n);
    Unshift(bs, d, BeginsFrom(j.cfg, s, a, h));
    Unshift(es, d, Positions(Ends, j.cfg, s, a, h));
    LaidInBuffer(j, o, s, a, h, base, d, bs, es, n);
    RecordBytesIs(m, base, bs, es, rs, n);
    LaidIs(bs, es, n, |m| - base);
    forall i | 0 <= i < n ensures RecordBytes(m, base, bs, es, rs, n)[i] == FieldsOf(j.cfg, s, a, n)[i] {
      FieldIs(j, o, s, a0, h, base, d, rs, m, bs[i], es[i]);
    }
  }

  lemma LaidIs(bs: seq<nat>, es: seq<nat>, n: nat, limit: nat)
    requires Laid(bs, es, n, limit)
    ensures n <= |bs| && n <= |es| && forall i :: 0 <= i < n ==> bs[i] <= es[i] <= limit
  {
  }

  lemma RecordBytesIs(m: seq<byte>, base: nat, bs: seq<nat>, es: seq<nat>, rs: seq<nat>, n: nat)
    requires Sorted(rs) && base <= |m| && Laid(bs, es, n, |m| - base)
    ensures |RecordBytes(m, base, bs, es, rs, n)| == n
    ensures forall i :: 0 <= i < n ==> RecordBytes(m, base, bs, es, rs, n)[i] == FieldBytes(m, base, bs[i], es[i], rs)
  {
    hide FieldBytes;
  }

  lemma StridedFields(c: Config, s: seq<byte>, a: nat, h: nat, n: nat)
    requires a <= h && Strided(c, s, a, h, n)
    ensures a <= |s| && 1 <= n <= |BeginsFrom(c, s, a, h)| && n <= |Positions(Ends, c, s, a, h)| && |FieldsOf(c, s, a, n)| == n
    ensures forall i :: 0 <= i < n ==>
      var b, e := BeginsFrom(c, s, a, h)[i], Positions(Ends, c, s, a, h)[i];
      b <= e <= |s| && Unremoved(c, s, b, e) == FieldsOf(c, s, a, n)[i]
  {
    hide BeginsFrom, Positions, FieldsOf, RunOf, DelimRun, Last, Starts, EndOf, Classes, Term, Unremoved;
    forall i | 0 <= i < n
      ensures var b, e := BeginsFrom(c, s, a, h)[i], Positions(Ends, c, s, a, h)[i];
              b <= e <= |s| && Unremoved(c, s, b, e) == FieldsOf(c, s, a, n)[i]
    {
      assert Delimits(c, s, BeginsFrom(c, s, a, h)[i], Positions(Ends, c, s, a, h)[i], FieldsOf(c, s, a, n)[i]);
    }
  }

  /** Nothing is removed between a record's last end and the next record. */
  lemma NoRemovalInRun(c: Config, s: seq<byte>, z: nat, x: nat, re: nat)
    requires c.Valid() && Segment(c, s, z, x, re)
    ensures EndOf(c, s, x) <= x && Positions(Removals, c, s, EndOf(c, s, x), re + 1) == []
  {
    hide *;
    EndInSegment(c, s, z, x, re);
    SegmentOrder(c, s, z, x, re);
    forall i | EndOf(c, s, x) <= i < re + 1 ensures !Holds(Removals, c, s, i) {
      NotRemovedInRun(c, s, z, x, re, i);
    }
    NoPositions(Removals, c, s, EndOf(c, s, x), re + 1);
  }

  lemma NotRemovedInRun(c: Config, s: seq<byte>, z: nat, x: nat, re: nat, i: nat)
    requires c.Valid() && Segment(c, s, z, x, re) && EndOf(c, s, x) <= i <= re
    ensures !Holds(Removals, c, s, i)
  {
    EndInSegment(c, s, z, x, re);
    OneEnd(c, s, z, x, re, EndOf(c, s, x));
    if i >= x {
      RunIsNoQuote(c, s, z, x, re, i);
    }
    hide Segment, Begin, End, Inside, EndOf;
  }

  lemma RunIsNoQuote(c: Config, s: seq<byte>, z: nat, x: nat, re: nat, i: nat)
    requires c.Valid() && Segment(c, s, z, x, re) && x <= i <= re
    ensures !Quote(c, s, i)
  {
    SegmentInRange(c, s, z, x, re);
    if Delim(c, s, x) { assert i == x; } else { assert Term(c, s, i); }
  }

  /** The removal cursor stands past everything up to the last end of `n` fields. */
  predicate Past(rs: seq<nat>, p: nat, e: nat) {
    p <= |rs| && (forall k :: 0 <= k < p ==> rs[k] <= e) && (forall k :: p <= k < |rs| ==> e < rs[k])
  }

  /** Dropping a record's begins and ends leaves those of the record after it. */
  lemma DropFields(j: Job, o: nat, s: seq<byte>, a: nat, h: nat, d: int, bs: seq<nat>, es: seq<nat>, n: nat, x: nat, re: nat)
    requires Supported(j.cfg) && Shows(j, o, s) && TracksFields(j.cfg, s, a, h, d, bs, es) && n >= 1
    requires Strided(j.cfg, s, a, h, n) && a <= |s| && x == RunOf(j.cfg, s, a, n) && x < |s| && re == Last(j.cfg, s, x) && re < h
    requires RecordStarts(j.cfg, s, re + 1)
    ensures n <= |bs| && n <= |es| && TracksFields(j.cfg, s, re + 1, h, d, bs[n..], es[n..])
    ensures es[n - 1] + d == EndOf(j.cfg, s, x)
  {
    hide *;
    TracksFieldsIs(j.cfg, s, a, h, d, bs, es);
    StridedDrop(j.cfg, s, a, h, n, x, re);
    Unshift(es, d, Positions(Ends, j.cfg, s, a, h));
    Unshift(bs, d, BeginsFrom(j.cfg, s, a, h));
    ShiftDrop(bs, d, n);
    ShiftDrop(es, d, n);
    FieldsTracked(j.cfg, s, re + 1, h, d, bs[n..], es[n..]);
  }

  lemma FieldsTracked(c: Config, s: seq<byte>, a: nat, h: nat, d: int, bs: seq<nat>, es: seq<nat>)
    requires a <= h <= |s| && RecordStarts(c, s, a)
    requires Shift(bs, d) == BeginsFrom(c, s, a, h) && Shift(es, d) == Positions(Ends, c, s, a, h)
    ensures TracksFields(c, s, a, h, d, bs, es)
  {
  }

  /** Dropping the removals up to a record's last end leaves those of the record after it. */
  lemma DropRemovals(c: Config, s: seq<byte>, a0: nat, h: nat, d: int, rs: seq<nat>, z: nat, x: nat, re: nat, e: nat, p: nat)
    requires c.Valid() && TracksRemovals(c, s, a0, h, d, rs) && Segment(c, s, z, x, re) && a0 <= z && re < h
    requires e + d == EndOf(c, s, x) && p <= |rs| && Past(rs, p, e)
    ensures TracksRemovals(c, s, re + 1, h, d, rs[p..])
  {
    hide *;
    RemovalsAreSorted(c, s, a0, h, d, rs);
    EndInSegment(c, s, z, x, re);
    SegmentOrder(c, s, z, x, re);
    RemovalsBehind(c, s, a0, h, z, x, re);
    ShiftDrop(rs, d, p);
    PastIs(rs, d, p, Positions(Removals, c, s, a0, e + d), Positions(Removals, c, s, re + 1, h), e + d, re + 1);
    RemovalsTracked(c, s, re + 1, h, d, rs[p..]);
  }

  /** Removals lie before a record's last end or behind its run. */
  lemma RemovalsBehind(c: Config, s: seq<byte>, a0: nat, h: nat, z: nat, x: nat, re: nat)
    requires c.Valid() && Segment(c, s, z, x, re) && a0 <= z && re < h <= |s|
    ensures var e := EndOf(c, s, x);
            && a0 <= e <= re + 1 <= h
            && Positions(Removals, c, s, a0, h) == Positions(Removals, c, s, a0, e) + Positions(Removals, c, s, re + 1, h)
  {
    hide *;
    var e := EndOf(c, s, x);
    NoRemovalInRun(c, s, z, x, re);
    EndInSegment(c, s, z, x, re);
    SegmentOrder(c, s, z, x, re);
    PositionsSplit(Removals, c, s, a0, e, h);
    PositionsSplit(Removals, c, s, e, re + 1, h);
    assert [] + Positions(Removals, c, s, re + 1, h) == Positions(Removals, c, s, re + 1, h);
  }

  lemma RemovalsTracked(c: Config, s: seq<byte>, a: nat, h: nat, d: int, rs: seq<nat>)
    requires a <= h <= |s| && Shift(rs, d) == Positions(Removals, c, s, a, h)
    ensures TracksRemovals(c, s, a, h, d, rs)
  {
  }

  lemma PastIs(rs: seq<nat>, d: int, p: nat, before: seq<nat>, after: seq<nat>, e: nat, next: nat)
    requires Shift(rs, d) == before + after && e < next
    requires (forall i :: 0 <= i < |before| ==> before[i] < e) && (forall i :: 0 <= i < |after| ==> next <= after[i])
    requires 0 <= e - d && Past(rs, p, e - d)
    ensures p == |before| && Shift(rs, d)[p..] == after
  {
    var all := before + after;
    assert |rs| == |all| && forall i :: 0 <= i < |rs| ==> rs[i] + d == all[i];
    if p < |rs| {
      assert rs[p] + d == all[p];
    }
    if p > 0 {
      assert rs[p - 1] + d == all[p - 1];
    }
  }

  lemma ShiftDrop(xs: seq<int>, d: int, k: nat)
    requires k <= |xs|
    ensures Shift(xs[k..], d) == Shift(xs, d)[k..]
  {
  }

  lemma StridedDrop(c: Config, s: seq<byte>, a: nat, h: nat, n: nat, x: nat, re: nat)
    requires a <= h && Strided(c, s, a, h, n) && a <= |s| && n >= 1 && x == RunOf(c, s, a, n) && x < |s| && re == Last(c, s, x) && re < h
    ensures n <= |BeginsFrom(c, s, a, h)| && n <= |Positions(Ends, c, s, a, h)|
    ensures Positions(Ends, c, s, a, h)[n..] == Positions(Ends, c, s, re + 1, h)
    ensures BeginsFrom(c, s, a, h)[n..] == BeginsFrom(c, s, re + 1, h)
    ensures Positions(Ends, c, s, a, h)[n - 1] == EndOf(c, s, x)
  {
    hide BeginsFrom, Positions, FieldsOf, RunOf, DelimRun, Last, Starts, EndOf, Classes, Term, Delimits;
  }

  lemma StridedSegment(c: Config, s: seq<byte>, a: nat, h: nat, n: nat, x: nat, re: nat) returns (z: nat)
    requires c.Valid() && Starts(c, s, a) && a <= h && Strided(c, s, a, h, n)
    requires a <= |s| && n >= 1 && x == RunOf(c, s, a, n) && x < |s| && re == Last(c, s, x)
    ensures Segment(c, s, z, x, re) && a <= z
  {
    hide *;
    z := After(c, s, a, n - 1);
    StridedRuns(c, s, a, h, n);
    AfterStarts(c, s, a, n - 1);
    RunOfIs(c, s, a, n);
    StopIsSegment(c, s, z);
  }

  lemma RunOfIs(c: Config, s: seq<byte>, a: nat, n: nat)
    requires a <= |s| && n >= 1
    ensures a <= After(c, s, a, n - 1) <= |s| && RunOf(c, s, a, n) == Stop(c, s, After(c, s, a, n - 1))
  {
  }

  lemma StridedRuns(c: Config, s: seq<byte>, a: nat, h: nat, n: nat)
    requires a <= h && Strided(c, s, a, h, n)
    ensures n >= 1 && a <= |s| && DelimRun(c, s, a, n - 1)
  {
  }

  lemma {:induction false} AfterStarts(c: Config, s: seq<byte>, a: nat, k: nat)
    requires c.Valid() && a <= |s| && Starts(c, s, a) && DelimRun(c, s, a, k)
    ensures Starts(c, s, After(c, s, a, k))
    decreases k
  {
    hide *;
    if k == 0 {
      NoFields(c, s, a);
    } else {
      FirstDelim(c, s, a, k);
      StartsInRange(c, s, Stop(c, s, a) + 1);
      AfterStarts(c, s, Stop(c, s, a) + 1, k - 1);
    }
  }
}
