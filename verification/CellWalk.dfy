/**
 * Without a quote character the masks collapse to one stream of boundaries: a field starts
 * behind one boundary and ends at the next, a record's last field at its terminator run.
 */
module CellWalk {
  import opened Dialect
  import opened Records
  import opened Bitmask
  import opened Stream
  import opened Segments
  import opened FieldWalk
  import opened FieldCount
  import opened RecordWalk
  import opened Stride
  import opened Refinement
  import opened LiveIndex

  /** Without quotes the byte alone decides. */
  lemma PlainByte(c: Config, s: seq<byte>, i: int)
    requires c.quote.None?
    ensures !Inside(c, s, i) && !Quote(c, s, i)
    ensures Delim(c, s, i) <==> 0 <= i < |s| && s[i] == c.delimiter
    ensures Term(c, s, i) <==> 0 <= i < |s| && c.IsTerm(s[i])
  {
    if 0 <= i < |s| {
      EmptyParity(QuoteBits(c, s[..i + 1]));
    }
    hide Odd;
  }

  lemma {:induction false} PlainContent(c: Config, s: seq<byte>, lo: nat, hi: nat)
    requires c.quote.None? && lo <= hi <= |s|
    ensures Content(c, s, lo, hi) == s[lo..hi]
    decreases hi - lo
  {
    if lo < hi {
      PlainContent(c, s, lo, hi - 1);
      PlainByte(c, s, hi - 1);
      assert s[lo..hi] == s[lo..hi - 1] + [s[hi - 1]];
    }
  }

  /** One more delimited field, from the far end. */
  lemma {:induction false} DelimMore(c: Config, s: seq<byte>, a: nat, k: nat)
    requires a <= |s| && DelimRun(c, s, a, k) && Stop(c, s, After(c, s, a, k)) < |s|
    ensures var x := Stop(c, s, After(c, s, a, k));
            After(c, s, a, k + 1) == Last(c, s, x) + 1 && (Delim(c, s, x) ==> DelimRun(c, s, a, k + 1))
    decreases k
  {
    hide Delim;
    if k == 0 {
      assert After(c, s, Last(c, s, Stop(c, s, a)) + 1, 0) == Last(c, s, Stop(c, s, a)) + 1;
    } else {
      DelimMore(c, s, Last(c, s, Stop(c, s, a)) + 1, k - 1);
    }
  }

  /** The field that begins at `b`, when a boundary follows before `h`. */
  lemma FirstCell(c: Config, s: seq<byte>, b: nat, h: nat) returns (x: nat, re: nat)
    requires c.Valid() && Starts(c, s, b) && b <= h <= |s| && Classes(c, s, b, h) != []
    ensures b <= |s| && x == Stop(c, s, b) < |s| && re == Last(c, s, x) && x <= re < h
    ensures Positions(Bounds, c, s, b, h) == [re] + Positions(Bounds, c, s, re + 1, h)
    ensures Classes(c, s, b, h) == [Term(c, s, x)] + Classes(c, s, re + 1, h)
    ensures Starts(c, s, re + 1) && Segment(c, s, b, x, re) && (Delim(c, s, x) ==> re == x) && (Delim(c, s, x) || Term(c, s, x))
  {
    hide *;
    x, re := FirstClass(c, s, b, h);
    SegmentPositions(c, s, b, x, re);
    PositionsSplit(Bounds, c, s, b, re + 1, h);
    if Delim(c, s, x) {
      DelimIsShort(c, s, x);
    }
  }

  lemma {:induction false} BoundsAreClasses(c: Config, s: seq<byte>, lo: nat, hi: nat)
    requires lo <= hi
    ensures |Positions(Bounds, c, s, lo, hi)| == |Classes(c, s, lo, hi)|
    decreases hi - lo
  {
    hide BoundB, RunEnd;
    if lo < hi {
      BoundsAreClasses(c, s, lo, hi - 1);
    }
  }

  /** `k` delimited fields of the record at `a` are read; the next begins at `b`, and the boundaries of `bs` follow. */
  ghost predicate InRecord(c: Config, s: seq<byte>, a: nat, h: nat, n: nat, k: nat, b: nat, fields: Record, bs: seq<nat>, d: int) {
    && c.Valid() && c.quote.None? && a <= b <= h <= |s| && k < n && Starts(c, s, b)
    && DelimRun(c, s, a, k) && b == After(c, s, a, k) && fields == FieldsOf(c, s, a, k)
    && Shift(bs, d) == Positions(Bounds, c, s, b, h)
    && Aligned(n, 0, Classes(c, s, a, h)) && n <= |Classes(c, s, a, h)| && Classes(c, s, a, h)[k..] == Classes(c, s, b, h)
  }

  lemma InRecordParts(c: Config, s: seq<byte>, a: nat, h: nat, n: nat, k: nat, b: nat, fields: Record, bs: seq<nat>, d: int)
    ensures InRecord(c, s, a, h, n, k, b, fields, bs, d) <==>
    && c.Valid() && c.quote.None? && a <= b <= h <= |s| && k < n && Starts(c, s, b)
    && DelimRun(c, s, a, k) && b == After(c, s, a, k) && fields == FieldsOf(c, s, a, k)
    && Shift(bs, d) == Positions(Bounds, c, s, b, h)
    && Aligned(n, 0, Classes(c, s, a, h)) && n <= |Classes(c, s, a, h)| && Classes(c, s, a, h)[k..] == Classes(c, s, b, h)
  {
    hide Starts, DelimRun, After, FieldsOf, Positions, Aligned, Classes, c.Valid;
  }

  /** A record's fields are about to be read. */
  lemma EnterRecord(c: Config, s: seq<byte>, a: nat, h: nat, n: nat, bs: seq<nat>, d: int)
    requires c.Valid() && c.quote.None? && RecordStarts(c, s, a) && a <= h <= |s| && 1 <= n <= |bs|
    requires Shift(bs, d) == Positions(Bounds, c, s, a, h) && Aligned(n, 0, Classes(c, s, a, h))
    ensures InRecord(c, s, a, h, n, 0, a, [], bs, d)
  {
    hide *;
    RecordStartIs(c, s, a);
    BoundsAreClasses(c, s, a, h);
    ShiftSame(bs, d);
    NoFields(c, s, a);
    NoDelims(c, s, a);
    var p := Classes(c, s, a, h);
    assert p[0..] == p;
    InRecordParts(c, s, a, h, n, 0, a, [], bs, d);
  }

  lemma NoDelims(c: Config, s: seq<byte>, a: nat)
    requires a <= |s|
    ensures DelimRun(c, s, a, 0)
  {
  }

  lemma ShiftSame(bs: seq<nat>, d: int)
    ensures |Shift(bs, d)| == |bs| && forall i :: 0 <= i < |bs| ==> Shift(bs, d)[i] == bs[i] + d
  {
  }

  lemma ShiftTail(bs: seq<nat>, d: int, first: nat, rest: seq<nat>)
    requires Shift(bs, d) == [first] + rest
    ensures |bs| >= 1 && bs[0] + d == first && Shift(bs[1..], d) == rest
  {
    assert Shift(bs, d)[0] == first;
    assert Shift(bs, d)[1..] == rest;
  }

  /** The class of the `k`-th boundary of an aligned record. */
  lemma ClassAt(n: nat, p: seq<bool>, k: nat, q: seq<bool>, first: bool, rest: seq<bool>)
    requires 1 <= n <= |p| && k < n && Aligned(n, 0, p) && p[k..] == q && q == [first] + rest
    ensures first <==> k == n - 1
    ensures p[k + 1..] == rest
  {
    assert p[k] == q[0] == first;
    assert p[k + 1..] == q[1..] == rest;
    Small(k, n);
    assert p[k] <==> Completes(n, 0, k);
  }

  lemma NotEmpty(n: nat, p: seq<bool>, k: nat, q: seq<bool>)
    requires k < n <= |p| && p[k..] == q
    ensures q != []
  {
    assert |p[k..]| == |p| - k;
  }

  /** The next boundary delimits a field. */
  lemma NextCell(c: Config, s: seq<byte>, a: nat, h: nat, n: nat, k: nat, b: nat, fields: Record, bs: seq<nat>, d: int)
    requires InRecord(c, s, a, h, n, k, b, fields, bs, d) && k + 1 < n
    ensures |bs| >= 1 && b <= bs[0] + d < h <= |s|
    ensures InRecord(c, s, a, h, n, k + 1, bs[0] + d + 1, fields + [s[b..bs[0] + d]], bs[1..], d)
  {
    hide *;
    InRecordParts(c, s, a, h, n, k, b, fields, bs, d);
    var p := Classes(c, s, a, h);
    NotEmpty(n, p, k, Classes(c, s, b, h));
    var x, re := FirstCell(c, s, b, h);
    ShiftTail(bs, d, re, Positions(Bounds, c, s, re + 1, h));
    ClassAt(n, p, k, Classes(c, s, b, h), Term(c, s, x), Classes(c, s, re + 1, h));
    DelimMore(c, s, a, k);
    FieldsOfMore(c, s, a, k);
    PlainContent(c, s, b, x);
    InRecordParts(c, s, a, h, n, k + 1, re + 1, fields + [s[b..x]], bs[1..], d);
  }

  /** The record's last boundary: the last byte of its terminator run. */
  ghost predicate RecordDone(c: Config, s: seq<byte>, a: nat, h: nat, n: nat, b: nat, x: nat, re: nat, fields: Record, bs: seq<nat>, d: int) {
    && a <= b <= x <= re < h <= |s| && n >= 1 && |bs| >= 1 && bs[0] + d == re
    && RecordAt(c, s, a, n) && x == RunOf(c, s, a, n) && re == Last(c, s, x)
    && fields + [s[b..x]] == FieldsOf(c, s, a, n)
    && RecordStarts(c, s, re + 1) && Shift(bs[1..], d) == Positions(Bounds, c, s, re + 1, h)
    && Aligned(n, 0, Classes(c, s, re + 1, h))
    && (forall i :: b <= i < x ==> !c.IsTerm(s[i])) && (forall i :: x <= i <= re ==> c.IsTerm(s[i]) && Term(c, s, i))
  }

  lemma RecordDoneIs(c: Config, s: seq<byte>, a: nat, h: nat, n: nat, b: nat, x: nat, re: nat, fields: Record, bs: seq<nat>, d: int)
    ensures RecordDone(c, s, a, h, n, b, x, re, fields, bs, d) <==>
    && a <= b <= x <= re < h <= |s| && n >= 1 && |bs| >= 1 && bs[0] + d == re
    && RecordAt(c, s, a, n) && x == RunOf(c, s, a, n) && re == Last(c, s, x)
    && fields + [s[b..x]] == FieldsOf(c, s, a, n)
    && RecordStarts(c, s, re + 1) && Shift(bs[1..], d) == Positions(Bounds, c, s, re + 1, h)
    && Aligned(n, 0, Classes(c, s, re + 1, h))
    && (forall i :: b <= i < x ==> !c.IsTerm(s[i])) && (forall i :: x <= i <= re ==> c.IsTerm(s[i]) && Term(c, s, i))
  {
    hide RecordAt, RunOf, Last, FieldsOf, RecordStarts, Positions, Aligned, Classes, Term, c.IsTerm;
  }

  lemma LastCell(c: Config, s: seq<byte>, a: nat, h: nat, n: nat, b: nat, fields: Record, bs: seq<nat>, d: int) returns (x: nat, re: nat)
    requires n >= 1 && InRecord(c, s, a, h, n, n - 1, b, fields, bs, d)
    ensures RecordDone(c, s, a, h, n, b, x, re, fields, bs, d)
  {
    hide *;
    InRecordParts(c, s, a, h, n, n - 1, b, fields, bs, d);
    var p := Classes(c, s, a, h);
    NotEmpty(n, p, n - 1, Classes(c, s, b, h));
    x, re := FirstCell(c, s, b, h);
    ShiftTail(bs, d, re, Positions(Bounds, c, s, re + 1, h));
    ClassAt(n, p, n - 1, Classes(c, s, b, h), Term(c, s, x), Classes(c, s, re + 1, h));
    FieldsOfMore(c, s, a, n - 1);
    PlainContent(c, s, b, x);
    IsRecord(c, s, a, n, b, x);
    AfterRun(c, s, b, x, re);
    AlignedRest(n, p, Classes(c, s, re + 1, h));
    CellBytes(c, s, b, x, re);
    RecordDoneIs(c, s, a, h, n, b, x, re, fields, bs, d);
  }

  lemma IsRecord(c: Config, s: seq<byte>, a: nat, n: nat, b: nat, x: nat)
    requires a <= |s| && n >= 1 && DelimRun(c, s, a, n - 1) && b == After(c, s, a, n - 1) && x == Stop(c, s, b) < |s| && Term(c, s, x)
    ensures RecordAt(c, s, a, n) && x == RunOf(c, s, a, n)
  {
  }

  lemma CellBytes(c: Config, s: seq<byte>, b: nat, x: nat, re: nat)
    requires c.Valid() && c.quote.None? && Segment(c, s, b, x, re) && Term(c, s, x)
    ensures b <= x <= re < |s| && (forall i :: b <= i < x ==> !c.IsTerm(s[i])) && (forall i :: x <= i <= re ==> c.IsTerm(s[i]) && Term(c, s, i))
  {
    DelimIsNotTerm(c, s, x);
    forall i | b <= i < x ensures !c.IsTerm(s[i]) {
      PlainByte(c, s, i);
    }
    forall i | x <= i <= re ensures c.IsTerm(s[i]) && Term(c, s, i) {
      PlainByte(c, s, i);
    }
  }

  /** The scan over that record. */
  lemma RecordScanned(j: Job, o: nat, s: seq<byte>, a: nat, h: nat, n: nat, b: nat, x: nat, re: nat, fields: Record, bs: seq<nat>, d: int, bnd: nat, last: Option<nat>)
    requires Supported(j.cfg) && Shows(j, o, s) && j.cfg.fieldCount == Some(n) && RecordStarts(j.cfg, s, a)
    requires RecordDone(j.cfg, s, a, h, n, b, x, re, fields, bs, d)
    ensures o + a < |j.data| && (o + x == |j.data| || o + x <= o + re < |j.data|) && x <= re && |fields + [s[b..x]]| == n
    ensures Scan(j, o + a, bnd, Fresh(o + a), last) == FieldWalk.Closed(j, o, x, re, fields + [s[b..x]], o + a, bnd)
  {
    hide *;
    RecordDoneIs(j.cfg, s, a, h, n, b, x, re, fields, bs, d);
    RecordStartIs(j.cfg, s, a);
    if o + a >= |j.data| {
      PastInput(j, o, s, a);
      NoRecordAt(j.cfg, s, a, n);
      assert false;
    }
    ShownLength(j, o, s, a + 1);
    RecordStartByte(j, o, s, a);
    RecordScan(j, o, s, a, bnd, last);
  }

  lemma NoRecordAt(c: Config, s: seq<byte>, a: nat, n: nat)
    requires a <= |s| && Stop(c, s, a) == |s|
    ensures !RecordAt(c, s, a, n)
  {
  }

  /** When fewer than `n` boundaries are left of an aligned stream, the input is used up. */
  lemma NoCellsLeft(j: Job, o: nat, s: seq<byte>, a: nat, n: nat)
    requires Supported(j.cfg) && j.cfg.quote.None? && Shows(j, o, s) && RecordStarts(j.cfg, s, a) && a <= |s| && j.cfg.fieldCount == Some(n)
    requires n >= 1 && Aligned(n, 0, Classes(j.cfg, s, a, |s|)) && |Positions(Bounds, j.cfg, s, a, |s|)| < n
    ensures o + a >= |j.data|
  {
    hide *;
    if o + a < |j.data| {
      PlainIsEven(j, o, s);
      var t := LastBound(j, o, s);
      BoundsAreClasses(j.cfg, s, a, |s|);
      ClassesSplit(j.cfg, s, a, t, |s|);
      ClassesSplit(j.cfg, s, t, t + 1, |s|);
      OneClass(j.cfg, s, t);
      var k := |Classes(j.cfg, s, a, t)|;
      assert Classes(j.cfg, s, a, |s|)[k];
      AlignedAt(n, Classes(j.cfg, s, a, |s|), k);
      assert false;
    }
  }

  lemma PlainIsEven(j: Job, o: nat, s: seq<byte>)
    requires j.cfg.quote.None? && Shows(j, o, s)
    ensures o <= |j.data| && |j.data| - o <= |s| && !Odd(j.cfg, s, |j.data| - o)
  {
    EmptyParity(QuoteBits(j.cfg, s[..|j.data| - o]));
  }

  /** No two terminators in a row among the boundaries of `[a, h)`. */
  ghost predicate Calm(c: Config, s: seq<byte>, a: nat, h: nat) {
    forall i :: a <= i < h && Term(c, s, i) ==> RunEnd(c, s, i)
  }

  /** Without runs a boundary is a run by itself. */
  lemma CalmRun(c: Config, s: seq<byte>, a: nat, h: nat, x: nat)
    requires Calm(c, s, a, h) && a <= x < h && x < |s| && Term(c, s, x)
    ensures Last(c, s, x) == x
  {
  }

  lemma CalmLater(c: Config, s: seq<byte>, a: nat, b: nat, h: nat)
    requires Calm(c, s, a, h) && a <= b
    ensures Calm(c, s, b, h)
  {
    hide Term, RunEnd;
  }
}
