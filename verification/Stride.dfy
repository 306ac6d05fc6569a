/**
 * Striding the begins and ends by the arity. Among the positions found from a record's first
 * byte on, the first `n` begins and ends delimit its fields, provided that the boundary
 * classes are where the verifier wants them.
 */
module Stride {
  import opened Dialect
  import opened Records
  import opened Stream
  import opened Segments
  import opened FieldCount
  import opened RecordWalk

  /** The classes of the boundaries in `[lo, hi)`: whether each is a terminator. */
  function Classes(c: Config, s: seq<byte>, lo: nat, hi: nat): seq<bool>
    requires lo <= hi
    decreases hi - lo
  {
    if lo == hi then []
    else Classes(c, s, lo, hi - 1) + (if BoundB(c, s, hi - 1) then [RunEnd(c, s, hi - 1)] else [])
  }

  lemma {:induction false} ClassesSplit(c: Config, s: seq<byte>, lo: nat, mid: nat, hi: nat)
    requires lo <= mid <= hi
    ensures Classes(c, s, lo, hi) == Classes(c, s, lo, mid) + Classes(c, s, mid, hi)
    decreases hi - mid
  {
    hide BoundB, RunEnd;
    if mid < hi {
      ClassesSplit(c, s, lo, mid, hi - 1);
    }
  }

  lemma {:induction false} NoClasses(c: Config, s: seq<byte>, lo: nat, hi: nat)
    requires lo <= hi && forall i :: lo <= i < hi ==> !BoundB(c, s, i)
    ensures Classes(c, s, lo, hi) == []
    decreases hi - lo
  {
    hide BoundB, RunEnd;
    if lo < hi {
      NoClasses(c, s, lo, hi - 1);
    }
  }

  lemma SegmentClasses(c: Config, s: seq<byte>, a: nat, x: nat, re: nat)
    requires c.Valid() && Segment(c, s, a, x, re)
    ensures Classes(c, s, a, re + 1) == [Term(c, s, x)]
  {
    SegmentBounds(c, s, a, x, re);
    SegmentClass(c, s, a, x, re);
    hide BoundB, Segment, RunEnd, Term;
    NoClasses(c, s, a, re);
  }

  lemma SegmentClass(c: Config, s: seq<byte>, a: nat, x: nat, re: nat)
    requires c.Valid() && Segment(c, s, a, x, re)
    ensures RunEnd(c, s, re) <==> Term(c, s, x)
  {
    DelimIsNotTerm(c, s, x);
  }

  /** Begins from `a` on; the scanner omits the one at the start of the stream. */
  function BeginsFrom(c: Config, s: seq<byte>, a: nat, h: nat): seq<nat>
    requires a <= h
  {
    (if a == 0 then [0] else []) + Positions(Begins, c, s, a, h)
  }

  /** An end found from `a` on belongs to the segment at `a`. */
  lemma Peel(c: Config, s: seq<byte>, a: nat, h: nat) returns (x: nat, re: nat)
    requires c.Valid() && Starts(c, s, a) && a <= h && Positions(Ends, c, s, a, h) != []
    ensures a <= |s| && x == Stop(c, s, a) < |s| && re == Last(c, s, x) && Segment(c, s, a, x, re) && Starts(c, s, re + 1)
    ensures EndOf(c, s, x) < h
    ensures re < h ==>
      && Positions(Ends, c, s, a, h) == [EndOf(c, s, x)] + Positions(Ends, c, s, re + 1, h)
      && BeginsFrom(c, s, a, h) == [BeginOf(c, s, a)] + BeginsFrom(c, s, re + 1, h)
      && Classes(c, s, a, h) == [Term(c, s, x)] + Classes(c, s, re + 1, h)
    ensures h <= re ==>
      && Positions(Ends, c, s, a, h) == [EndOf(c, s, x)]
      && BeginsFrom(c, s, a, h) == [BeginOf(c, s, a)]
      && Classes(c, s, a, h) == []
  {
    hide *;
    SomeStop(c, s, a, h);
    x := Stop(c, s, a);
    StopIsSegment(c, s, a);
    LastInRange(c, s, x);
    re := Last(c, s, x);
    SegmentStarts(c, s, a, x, re);
    SegmentPositions(c, s, a, x, re);
    SegmentClasses(c, s, a, x, re);
    EndInSegment(c, s, a, x, re);
    SegmentOrder(c, s, a, x, re);
    BeginsFromIs(c, s, a, h);
    var e, b := EndOf(c, s, x), BeginOf(c, s, a);
    if re < h {
      PositionsSplit(Ends, c, s, a, re + 1, h);
      PositionsSplit(Begins, c, s, a, re + 1, h);
      ClassesSplit(c, s, a, re + 1, h);
      BeginsFromIs(c, s, re + 1, h);
    } else {
      PositionsSplit(Ends, c, s, a, h, re + 1);
      PositionsSplit(Begins, c, s, a, h, re + 1);
      CutShort(c, s, a, x, re, h);
    }
  }

  lemma BeginsFromIs(c: Config, s: seq<byte>, a: nat, h: nat)
    requires a <= h
    ensures BeginsFrom(c, s, a, h) == (if a == 0 then [0] else []) + Positions(Begins, c, s, a, h)
    ensures a > 0 ==> BeginsFrom(c, s, a, h) == Positions(Begins, c, s, a, h)
    ensures BeginOf(c, s, 0) == 0
  {
  }

  lemma SegmentStarts(c: Config, s: seq<byte>, a: nat, x: nat, re: nat)
    requires c.Valid() && Segment(c, s, a, x, re)
    ensures Starts(c, s, re + 1) && re + 1 <= |s|
  {
    SegmentBounds(c, s, a, x, re);
  }

  lemma SegmentOrder(c: Config, s: seq<byte>, a: nat, x: nat, re: nat)
    requires Segment(c, s, a, x, re)
    ensures a <= x <= re < |s|
  {
  }

  /** Vectors that stop inside a segment. */
  lemma CutShort(c: Config, s: seq<byte>, a: nat, x: nat, re: nat, h: nat)
    requires c.Valid() && Segment(c, s, a, x, re) && a <= h <= re
    requires Positions(Ends, c, s, a, h) != []
    ensures EndOf(c, s, x) < h && Positions(Ends, c, s, a, h) == [EndOf(c, s, x)]
    ensures BeginsFrom(c, s, a, h) == [BeginOf(c, s, a)]
    ensures Classes(c, s, a, h) == []
  {
    hide *;
    var e, b := EndOf(c, s, x), BeginOf(c, s, a);
    SegmentPositions(c, s, a, x, re);
    PositionsSplit(Ends, c, s, a, h, re + 1);
    var first := Positions(Ends, c, s, a, h)[0];
    assert Positions(Ends, c, s, a, re + 1)[0] == first;
    EndInSegment(c, s, a, x, re);
    BeginsFromIs(c, s, a, h);
    PositionsSplit(Begins, c, s, a, h, re + 1);
    if a > 0 {
      SplitOfOne(Positions(Begins, c, s, a, h), Positions(Begins, c, s, h, re + 1), b, h);
    }
    NoBoundBefore(c, s, a, x, re);
    NoClasses(c, s, a, h);
  }

  lemma SplitOfOne(p: seq<nat>, q: seq<nat>, v: nat, h: nat)
    requires p + q == [v] && v < h && forall i :: 0 <= i < |q| ==> h <= q[i]
    ensures p == [v]
  {
    assert (p + q)[0] == v;
  }

  lemma NoBoundBefore(c: Config, s: seq<byte>, a: nat, x: nat, re: nat)
    requires c.Valid() && Segment(c, s, a, x, re)
    ensures forall i :: a <= i < re ==> !BoundB(c, s, i)
  {
    SegmentBounds(c, s, a, x, re);
  }

  /** An end implies a boundary. */
  lemma SomeStop(c: Config, s: seq<byte>, a: nat, h: nat)
    requires Starts(c, s, a) && a <= h && Positions(Ends, c, s, a, h) != []
    ensures a <= |s| && Stop(c, s, a) < |s|
  {
    if Stop(c, s, a) == |s| {
      forall i | a <= i < h ensures !Holds(Ends, c, s, i) {
        NoBoundPast(c, s, a, i);
        NoBoundPast(c, s, a, i + 1);
      }
      NoPositions(Ends, c, s, a, h);
      assert false;
    }
  }

  lemma NoBoundPast(c: Config, s: seq<byte>, a: nat, i: nat)
    requires a <= |s| && Stop(c, s, a) == |s| && a <= i
    ensures !BoundE(c, s, i)
  {
  }

  lemma AlignedCons(n: nat, phase: nat, first: bool, rest: seq<bool>)
    requires n >= 1
    ensures Aligned(n, phase, [first] + rest) <==> (first <==> Completes(n, phase, 0)) && Aligned(n, phase + 1, rest)
  {
    var p := [first] + rest;
    forall j | 0 <= j < |rest| ensures Completes(n, phase + 1, j) == Completes(n, phase, j + 1) && p[j + 1] == rest[j] {
    }
    hide Completes;
    if Aligned(n, phase, p) {
      assert p[0] == first;
      forall j | 0 <= j < |rest| ensures rest[j] <==> Completes(n, phase + 1, j) {
        assert p[j + 1] <==> Completes(n, phase, j + 1);
      }
    }
    if (first <==> Completes(n, phase, 0)) && Aligned(n, phase + 1, rest) {
      forall j | 0 <= j < |p| ensures p[j] <==> Completes(n, phase, j) {
        if j > 0 { assert rest[j - 1] <==> Completes(n, phase + 1, j - 1); }
      }
    }
  }

  lemma CompletesEarly(n: nat, phase: nat)
    requires phase < n
    ensures Completes(n, phase, 0) <==> phase == n - 1
  {
    Small(phase, n);
  }

  /** The field that a begin and an end delimit, with the removals taken out. */
  predicate Delimits(c: Config, s: seq<byte>, b: nat, e: nat, field: Field) {
    b <= e <= |s| && Unremoved(c, s, b, e) == field
  }

  /** What striding from `a` finds, when `k` fields complete the record. */
  ghost predicate Strided(c: Config, s: seq<byte>, a: nat, h: nat, k: nat)
    requires a <= h
  {
    && a <= |s| && k >= 1 && DelimRun(c, s, a, k - 1)
    && var x := RunOf(c, s, a, k);
    && x < |s|
    && var re := Last(c, s, x);
    && var bs, es := BeginsFrom(c, s, a, h), Positions(Ends, c, s, a, h);
    && (x < h ==> Term(c, s, x))
    && |FieldsOf(c, s, a, k)| == k <= |bs| && k <= |es|
    && (forall i :: 0 <= i < k ==> Delimits(c, s, bs[i], es[i], FieldsOf(c, s, a, k)[i]))
    && es[k - 1] == EndOf(c, s, x) && x <= es[k - 1] + 1 && es[k - 1] <= x
    && Starts(c, s, re + 1)
    && (re < h ==>
          && es[k..] == Positions(Ends, c, s, re + 1, h)
          && bs[k..] == BeginsFrom(c, s, re + 1, h)
          && |Classes(c, s, a, h)| >= k
          && Classes(c, s, a, h)[k..] == Classes(c, s, re + 1, h))
    && (h <= re ==> |es| == k)
  }

  /** The first `k` ends complete the record when the boundary classes are aligned. */
  lemma {:induction false} StrideFinds(c: Config, s: seq<byte>, a: nat, h: nat, k: nat, n: nat)
    requires c.Valid() && Starts(c, s, a) && a <= h && 1 <= k <= n
    requires |Positions(Ends, c, s, a, h)| >= k
    requires Aligned(n, n - k, Classes(c, s, a, h))
    ensures Strided(c, s, a, h, k)
    decreases k
  {
    hide *;
    var x, re := Peel(c, s, a, h);
    SegmentContent(c, s, a, x, re);
    SegmentOrder(c, s, a, x, re);
    EndInSegment(c, s, a, x, re);
    CompletesEarly(n, n - k);
    if re < h {
      AlignedCons(n, n - k, Term(c, s, x), Classes(c, s, re + 1, h));
    }
    if k == 1 {
      LastBig(c, s, x);
      StrideOne(c, s, a, h, x, re);
    } else {
      assert re < h;
      NotTermIsDelim(c, s, a, x, re);
      StrideFinds(c, s, x + 1, h, k - 1, n);
      StrideMore(c, s, a, h, x, k);
    }
  }

  lemma NotTermIsDelim(c: Config, s: seq<byte>, a: nat, x: nat, re: nat)
    requires Segment(c, s, a, x, re) && !Term(c, s, x)
    ensures Delim(c, s, x) && re == x
  {
  }

  lemma LastBig(c: Config, s: seq<byte>, x: nat)
    requires x < |s|
    ensures Last(c, s, x) > x ==> Term(c, s, x)
  {
  }

  lemma StrideOne(c: Config, s: seq<byte>, a: nat, h: nat, x: nat, re: nat)
    requires c.Valid() && Segment(c, s, a, x, re) && x == Stop(c, s, a) && re == Last(c, s, x) && a <= h && Starts(c, s, re + 1)
    requires EndOf(c, s, x) <= x && BeginOf(c, s, a) <= EndOf(c, s, x)
    requires Unremoved(c, s, BeginOf(c, s, a), EndOf(c, s, x)) == Content(c, s, a, x)
    requires x < h ==> Term(c, s, x)
    requires re < h ==>
      && Positions(Ends, c, s, a, h) == [EndOf(c, s, x)] + Positions(Ends, c, s, re + 1, h)
      && BeginsFrom(c, s, a, h) == [BeginOf(c, s, a)] + BeginsFrom(c, s, re + 1, h)
      && Classes(c, s, a, h) == [Term(c, s, x)] + Classes(c, s, re + 1, h)
    requires h <= re ==>
      && Positions(Ends, c, s, a, h) == [EndOf(c, s, x)]
      && BeginsFrom(c, s, a, h) == [BeginOf(c, s, a)]
    ensures Strided(c, s, a, h, 1)
  {
    hide Positions, BeginsFrom, Classes, Content, Unremoved, Segment, Starts, Delim, Term, Stop, Last, BeginOf;
    OneField(c, s, a);
  }

  lemma OneField(c: Config, s: seq<byte>, a: nat)
    requires a <= |s| && Stop(c, s, a) < |s|
    ensures FieldsOf(c, s, a, 1) == [Content(c, s, a, Stop(c, s, a))]
    ensures After(c, s, a, 0) == a && RunOf(c, s, a, 1) == Stop(c, s, a)
  {
    assert FieldsOf(c, s, Last(c, s, Stop(c, s, a)) + 1, 0) == [];
  }

  lemma StrideMore(c: Config, s: seq<byte>, a: nat, h: nat, x: nat, k: nat)
    requires c.Valid() && a <= x < |s| && x == Stop(c, s, a) && x == Last(c, s, x) && Delim(c, s, x) && x < h && k >= 2
    requires BeginOf(c, s, a) <= EndOf(c, s, x) <= x
    requires Unremoved(c, s, BeginOf(c, s, a), EndOf(c, s, x)) == Content(c, s, a, x)
    requires Positions(Ends, c, s, a, h) == [EndOf(c, s, x)] + Positions(Ends, c, s, x + 1, h)
    requires BeginsFrom(c, s, a, h) == [BeginOf(c, s, a)] + BeginsFrom(c, s, x + 1, h)
    requires Classes(c, s, a, h) == [Term(c, s, x)] + Classes(c, s, x + 1, h)
    requires Strided(c, s, x + 1, h, k - 1)
    ensures Strided(c, s, a, h, k)
  {
    hide Positions, BeginsFrom, Classes, Content, Unremoved, Starts, Delim, Term, Stop, BeginOf, EndOf, Last, Delimits, FieldsOf, RunOf, DelimRun, After;
    MoreFields(c, s, a, x, k);
    var bs, es := BeginsFrom(c, s, a, h), Positions(Ends, c, s, a, h);
    var bs', es' := BeginsFrom(c, s, x + 1, h), Positions(Ends, c, s, x + 1, h);
    forall i | 0 <= i < k ensures Delimits(c, s, bs[i], es[i], FieldsOf(c, s, a, k)[i]) {
      if i > 0 {
        assert Delimits(c, s, bs'[i - 1], es'[i - 1], FieldsOf(c, s, x + 1, k - 1)[i - 1]);
      } else {
        FirstDelimits(c, s, BeginOf(c, s, a), EndOf(c, s, x), Content(c, s, a, x));
      }
    }
    DropCons(es, EndOf(c, s, x), es', k);
    DropCons(bs, BeginOf(c, s, a), bs', k);
    if |Classes(c, s, x + 1, h)| >= k - 1 {
      DropCons(Classes(c, s, a, h), Term(c, s, x), Classes(c, s, x + 1, h), k);
    }
  }

  lemma DropCons<T>(all: seq<T>, first: T, rest: seq<T>, k: nat)
    requires all == [first] + rest && 1 <= k <= |all|
    ensures all[k..] == rest[k - 1..]
  {
  }

  lemma FirstDelimits(c: Config, s: seq<byte>, b: nat, e: nat, field: Field)
    requires b <= e <= |s| && Unremoved(c, s, b, e) == field
    ensures Delimits(c, s, b, e, field)
  {
  }

  lemma MoreFields(c: Config, s: seq<byte>, a: nat, x: nat, k: nat)
    requires c.Valid() && a <= x < |s| && x == Stop(c, s, a) && x == Last(c, s, x) && Delim(c, s, x) && k >= 2
    ensures FieldsOf(c, s, a, k) == [Content(c, s, a, x)] + FieldsOf(c, s, x + 1, k - 1)
    ensures RunOf(c, s, a, k) == RunOf(c, s, x + 1, k - 1)
    ensures DelimRun(c, s, a, k - 1) == DelimRun(c, s, x + 1, k - 2)
  {
    hide Content, Stop, Delim, Last;
  }
}
