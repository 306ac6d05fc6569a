/**
 * The masks, the verifier and the stride together against the transition table: both accept
 * the same inputs, and then yield the same records.
 */
module Refinement {
  import opened Dialect
  import opened Dfa
  import opened Records
  import opened Stream
  import opened Segments
  import opened FieldWalk
  import opened FieldCount
  import opened RecordWalk
  import opened Stride

  /** A record may begin at `a`. */
  ghost predicate RecordStarts(c: Config, s: seq<byte>, a: nat) {
    Starts(c, s, a) && (a > 0 ==> Term(c, s, a - 1))
  }

  /** At a record start there is content, or the input is over. */
  lemma RecordStartByte(j: Job, o: nat, s: seq<byte>, a: nat)
    requires Supported(j.cfg) && Shows(j, o, s) && RecordStarts(j.cfg, s, a) && a < |s|
    ensures !Term(j.cfg, s, a)
    ensures o + a < |j.data| ==> !j.cfg.IsTerm(j.data[o + a])
  {
    StartsClean(j.cfg, s, a);
    InsideStep(j.cfg, s, a);
    if o + a < |j.data| {
      ShownByte(j, o, s, a);
    }
  }

  lemma AfterRun(c: Config, s: seq<byte>, a: nat, x: nat, re: nat)
    requires c.Valid() && Segment(c, s, a, x, re) && Term(c, s, x)
    ensures RecordStarts(c, s, re + 1)
  {
    SegmentBounds(c, s, a, x, re);
    DelimIsNotTerm(c, s, x);
  }

  /** Past the input there is no boundary but the terminator it lacks. */
  lemma PastInput(j: Job, o: nat, s: seq<byte>, a: nat)
    requires Supported(j.cfg) && Shows(j, o, s) && RecordStarts(j.cfg, s, a) && o + a >= |j.data|
    ensures Stop(j.cfg, s, a) == |s|
  {
    var x := Stop(j.cfg, s, a);
    if x < |s| {
      BoundIsInInput(j, o, s, x);
      if a > 0 { TermBeforeEnd(j, o, s, a - 1); }
      assert false;
    }
  }

  lemma {:induction false} WideFails(j: Job, o: nat, s: seq<byte>, a: nat, f: Flight, last: Option<nat>)
    requires Supported(j.cfg) && Shows(j, o, s) && Starts(j.cfg, s, a) && o + a <= |j.data|
    requires f.state.FieldStart? && f.cur == [] && |f.fields| >= j.cfg.fieldCount.value
    ensures Scan(j, o + a, |j.data|, f, last).Err?
    decreases |j.data| - o - a
  {
    hide *;
    SupportedIsValid(j.cfg);
    StartsInRange(j.cfg, s, a);
    var x := Stop(j.cfg, s, a);
    if x == |s| {
      if o + a < |j.data| {
        OpenEnd(j, o, s, a, |j.data|, f, last);
      } else {
        FinishWide(j, f, last);
      }
    } else {
      StopIsSegment(j.cfg, s, a);
      LastInRange(j.cfg, s, x);
      SegmentStarts(j.cfg, s, a, x, Last(j.cfg, s, x));
      if Delim(j.cfg, s, x) {
        DelimIsShort(j.cfg, s, x);
        DelimScan(j, o, s, a, x, |j.data|, f, last);
        var g := Flight(FieldStart, f.fields + [Content(j.cfg, s, a, x)], [], f.recordIn, o + x + 1);
        WideFails(j, o, s, x + 1, g, last);
      } else {
        TermScan(j, o, s, a, x, Last(j.cfg, s, x), |j.data|, f, last);
        ClosedWide(j, o, x, Last(j.cfg, s, x), f.fields + [Content(j.cfg, s, a, x)], f.recordIn);
      }
    }
  }

  lemma StartsInRange(c: Config, s: seq<byte>, a: nat)
    requires Starts(c, s, a)
    ensures a <= |s|
  {
  }

  lemma DelimIsShort(c: Config, s: seq<byte>, x: nat)
    requires c.Valid() && x < |s| && Delim(c, s, x)
    ensures Last(c, s, x) == x
  {
    DelimIsNotTerm(c, s, x);
  }

  lemma FinishWide(j: Job, f: Flight, last: Option<nat>)
    requires Supported(j.cfg) && f.state.FieldStart? && |f.fields| >= j.cfg.fieldCount.value
    ensures Scan(j, |j.data|, |j.data|, f, last).Err?
  {
  }

  lemma ClosedWide(j: Job, o: nat, x: nat, re: nat, r: Record, recordIn: nat)
    requires o + x == |j.data| || o + x <= o + re < |j.data|
    requires j.cfg.fieldCount.Some? && |r| != j.cfg.fieldCount.value
    ensures Closed(j, o, x, re, r, recordIn, |j.data|).Err?
  {
  }

  lemma ClosedFails(j: Job, o: nat, x: nat, re: nat, r: Record, recordIn: nat)
    requires o + x <= o + re < |j.data|
    requires Scan(j, o + re + 1, |j.data|, Fresh(o + re + 1), Some(o + x)).Err?
    ensures Closed(j, o, x, re, r, recordIn, |j.data|).Err?
  {
    hide Scan;
  }

  /** Boundaries that the verifier rejects make the reference scan fail. */
  lemma {:induction false} MisalignedFails(j: Job, o: nat, s: seq<byte>, a: nat, h: nat, f: Flight, last: Option<nat>)
    requires Supported(j.cfg) && Shows(j, o, s) && Starts(j.cfg, s, a) && o + a <= |j.data| && a <= h <= |s|
    requires f.state.FieldStart? && f.cur == [] && |f.fields| < j.cfg.fieldCount.value
    requires !Aligned(j.cfg.fieldCount.value, |f.fields|, Classes(j.cfg, s, a, h))
    ensures Scan(j, o + a, |j.data|, f, last).Err?
    decreases |j.data| - o - a, 0
  {
    hide *;
    SupportedIsValid(j.cfg);
    var n, k := j.cfg.fieldCount.value, |f.fields|;
    EmptyAligned(n, k, Classes(j.cfg, s, a, h));
    var x, re := FirstClass(j.cfg, s, a, h);
    AlignedCons(n, k, Term(j.cfg, s, x), Classes(j.cfg, s, re + 1, h));
    CompletesEarly(n, k);
    if Delim(j.cfg, s, x) {
      DelimIsShort(j.cfg, s, x);
      DelimIsNotTerm(j.cfg, s, x);
      DelimScan(j, o, s, a, x, |j.data|, f, last);
      var g := Flight(FieldStart, f.fields + [Content(j.cfg, s, a, x)], [], f.recordIn, o + x + 1);
      if k == n - 1 {
        WideFails(j, o, s, x + 1, g, last);
      } else {
        MisalignedFails(j, o, s, x + 1, h, g, last);
      }
    } else {
      var r := f.fields + [Content(j.cfg, s, a, x)];
      TermScan(j, o, s, a, x, re, |j.data|, f, last);
      if k != n - 1 {
        ClosedWide(j, o, x, re, r, f.recordIn);
      } else {
        AlignedWraps(n, Classes(j.cfg, s, re + 1, h));
        AfterRun(j.cfg, s, a, x, re);
        MisalignedTail(j, o, s, re + 1, h);
        MisalignedRestart(j, o, s, re + 1, h, Some(o + x));
        ClosedFails(j, o, x, re, r, f.recordIn);
      }
    }
  }

  /** As above from a record start. */
  lemma {:induction false} MisalignedRestart(j: Job, o: nat, s: seq<byte>, a: nat, h: nat, last: Option<nat>)
    requires Supported(j.cfg) && Shows(j, o, s) && RecordStarts(j.cfg, s, a) && o + a < |j.data| && a <= h <= |s|
    requires !Aligned(j.cfg.fieldCount.value, 0, Classes(j.cfg, s, a, h))
    ensures Scan(j, o + a, |j.data|, Fresh(o + a), last).Err?
    decreases |j.data| - o - a, 1
  {
    hide *;
    SupportedIsValid(j.cfg);
    RecordStartIs(j.cfg, s, a);
    ShownLength(j, o, s, a + 1);
    RecordStartByte(j, o, s, a);
    FreshIsFieldStart(j, o + a, |j.data|, last);
    MisalignedFails(j, o, s, a, h, Flight(FieldStart, [], [], o + a, o + a), last);
  }

  lemma RecordStartIs(c: Config, s: seq<byte>, a: nat)
    requires RecordStarts(c, s, a)
    ensures Starts(c, s, a) && a <= |s|
  {
  }

  lemma EmptyAligned(n: nat, phase: nat, p: seq<bool>)
    requires n >= 1 && !Aligned(n, phase, p)
    ensures p != []
  {
  }

  lemma AlignedWraps(n: nat, p: seq<bool>)
    requires n >= 1
    ensures Aligned(n, n, p) <==> Aligned(n, 0, p)
  {
    forall x: nat ensures Completes(n, n, x) == Completes(n, 0, x) {
      ModShift(n, x, n);
      MultipleMod(n, 1, 0);
    }
    hide Completes;
  }

  lemma FirstClass(c: Config, s: seq<byte>, a: nat, h: nat) returns (x: nat, re: nat)
    requires c.Valid() && Starts(c, s, a) && a <= h <= |s| && Classes(c, s, a, h) != []
    ensures a <= |s| && x == Stop(c, s, a) < |s| && re == Last(c, s, x) && x <= re < h && Segment(c, s, a, x, re)
    ensures Starts(c, s, re + 1) && (Delim(c, s, x) || Term(c, s, x))
    ensures Classes(c, s, a, h) == [Term(c, s, x)] + Classes(c, s, re + 1, h)
  {
    hide *;
    StartsInRange(c, s, a);
    x := Stop(c, s, a);
    if x == |s| {
      forall i | a <= i < h ensures !BoundB(c, s, i) { NoBoundPastB(c, s, a, i); }
      NoClasses(c, s, a, h);
      assert false;
    }
    StopIsSegment(c, s, a);
    LastInRange(c, s, x);
    re := Last(c, s, x);
    if h <= re {
      NoBoundBefore(c, s, a, x, re);
      NoClasses(c, s, a, h);
      assert false;
    }
    SegmentStarts(c, s, a, x, re);
    SegmentClasses(c, s, a, x, re);
    ClassesSplit(c, s, a, re + 1, h);
  }

  lemma NoBoundPastB(c: Config, s: seq<byte>, a: nat, i: nat)
    requires a <= |s| && Stop(c, s, a) == |s| && a <= i
    ensures !BoundB(c, s, i)
  {
  }

  lemma MisalignedTail(j: Job, o: nat, s: seq<byte>, a: nat, h: nat)
    requires Supported(j.cfg) && Shows(j, o, s) && RecordStarts(j.cfg, s, a) && a <= h <= |s|
    requires !Aligned(j.cfg.fieldCount.value, 0, Classes(j.cfg, s, a, h))
    ensures o + a < |j.data|
  {
    hide *;
    SupportedIsValid(j.cfg);
    RecordStartIs(j.cfg, s, a);
    EmptyAligned(j.cfg.fieldCount.value, 0, Classes(j.cfg, s, a, h));
    var x, re := FirstClass(j.cfg, s, a, h);
    if o + a >= |j.data| {
      PastInput(j, o, s, a);
    }
  }

  /** A stream that ends inside quotes makes the reference scan fail. */
  lemma {:induction false} OddFails(j: Job, o: nat, s: seq<byte>, a: nat, f: Flight, last: Option<nat>)
    requires Supported(j.cfg) && Shows(j, o, s) && Starts(j.cfg, s, a) && o + a <= |j.data|
    requires f.state.FieldStart? && f.cur == []
    requires Odd(j.cfg, s, |j.data| - o)
    ensures Scan(j, o + a, |j.data|, f, last).Err?
    decreases |j.data| - o - a, 0
  {
    hide *;
    SupportedIsValid(j.cfg);
    StartsInRange(j.cfg, s, a);
    StartsClean(j.cfg, s, a);
    var x := Stop(j.cfg, s, a);
    if x == |s| {
      OpenEnd(j, o, s, a, |j.data|, f, last);
    } else {
      StopIsSegment(j.cfg, s, a);
      LastInRange(j.cfg, s, x);
      var re := Last(j.cfg, s, x);
      SegmentStarts(j.cfg, s, a, x, re);
      if Delim(j.cfg, s, x) {
        DelimIsShort(j.cfg, s, x);
        DelimScan(j, o, s, a, x, |j.data|, f, last);
        OddFails(j, o, s, x + 1, Flight(FieldStart, f.fields + [Content(j.cfg, s, a, x)], [], f.recordIn, o + x + 1), last);
      } else {
        TermScan(j, o, s, a, x, re, |j.data|, f, last);
        NoVirtualInside(j, o, s, a, x, re);
        StartsClean(j.cfg, s, re + 1);
        AfterRun(j.cfg, s, a, x, re);
        OddRestart(j, o, s, re + 1, Some(o + x));
        ClosedFails(j, o, x, re, f.fields + [Content(j.cfg, s, a, x)], f.recordIn);
      }
    }
  }

  lemma NoVirtualInside(j: Job, o: nat, s: seq<byte>, a: nat, x: nat, re: nat)
    requires Supported(j.cfg) && Shows(j, o, s) && Segment(j.cfg, s, a, x, re) && Term(j.cfg, s, x)
    requires Odd(j.cfg, s, |j.data| - o)
    ensures o + x <= o + re < |j.data| && (o + re + 1 != |j.data|)
  {
    hide *;
    SupportedIsValid(j.cfg);
    TermInRange(j, o, s, a, x, re);
    SegmentStarts(j.cfg, s, a, x, re);
    StartsClean(j.cfg, s, re + 1);
    SegmentInRange(j.cfg, s, a, x, re);
    OutsideAtX(j.cfg, s, x);
  }

  lemma {:induction false} OddRestart(j: Job, o: nat, s: seq<byte>, a: nat, last: Option<nat>)
    requires Supported(j.cfg) && Shows(j, o, s) && RecordStarts(j.cfg, s, a) && o + a < |j.data|
    requires Odd(j.cfg, s, |j.data| - o)
    ensures Scan(j, o + a, |j.data|, Fresh(o + a), last).Err?
    decreases |j.data| - o - a, 1
  {
    hide *;
    SupportedIsValid(j.cfg);
    RecordStartIs(j.cfg, s, a);
    ShownLength(j, o, s, a + 1);
    RecordStartByte(j, o, s, a);
    FreshIsFieldStart(j, o + a, |j.data|, last);
    OddFails(j, o, s, a, Flight(FieldStart, [], [], o + a, o + a), last);
  }

  /** Every boundary has its end. */
  lemma {:induction false} EndsCoverBounds(c: Config, s: seq<byte>, a: nat, h: nat)
    requires c.Valid() && Starts(c, s, a) && a <= h <= |s|
    ensures |Classes(c, s, a, h)| <= |Positions(Ends, c, s, a, h)|
    decreases h - a
  {
    hide *;
    if Classes(c, s, a, h) != [] {
      var x, re := FirstClass(c, s, a, h);
      SegmentPositions(c, s, a, x, re);
      PositionsSplit(Ends, c, s, a, re + 1, h);
      EndsCoverBounds(c, s, re + 1, h);
    }
  }

  /** The last boundary of the stream is the terminator that ends the input. */
  lemma LastBound(j: Job, o: nat, s: seq<byte>) returns (t: nat)
    requires Supported(j.cfg) && Shows(j, o, s) && o < |j.data| && !Odd(j.cfg, s, |j.data| - o)
    ensures t < |s| && BoundB(j.cfg, s, t) && RunEnd(j.cfg, s, t) && |j.data| - o <= t + 1
  {
    var n := |j.data| - o;
    ShownByte(j, o, s, n - 1);
    if Unterminated(j, o) {
      t := n;
      InsideStep(j.cfg, s, n);
    } else {
      t := n - 1;
      InsideStep(j.cfg, s, n - 1);
    }
    assert Term(j.cfg, s, t);
    assert t + 1 < |s| ==> !j.cfg.IsTerm(s[t + 1]);
  }

  /** When fewer than `n` ends are left at the end of an aligned stream, the input is used up. */
  lemma NothingLeft(j: Job, o: nat, s: seq<byte>, a: nat)
    requires Supported(j.cfg) && Shows(j, o, s) && RecordStarts(j.cfg, s, a) && !Odd(j.cfg, s, |j.data| - o)
    requires Aligned(j.cfg.fieldCount.value, 0, Classes(j.cfg, s, a, |s|))
    requires a <= |s| && |Positions(Ends, j.cfg, s, a, |s|)| < j.cfg.fieldCount.value
    ensures o + a >= |j.data|
  {
    hide *;
    SupportedIsValid(j.cfg);
    RecordStartIs(j.cfg, s, a);
    if o + a < |j.data| {
      var t := LastBound(j, o, s);
      EndsCoverBounds(j.cfg, s, a, |s|);
      ClassesSplit(j.cfg, s, a, t, |s|);
      ClassesSplit(j.cfg, s, t, t + 1, |s|);
      OneClass(j.cfg, s, t);
      var m := |Classes(j.cfg, s, a, t)|;
      assert Classes(j.cfg, s, a, |s|)[m];
      AlignedAt(j.cfg.fieldCount.value, Classes(j.cfg, s, a, |s|), m);
      assert false;
    }
  }

  lemma OneClass(c: Config, s: seq<byte>, t: nat)
    requires BoundB(c, s, t)
    ensures Classes(c, s, t, t + 1) == [RunEnd(c, s, t)]
  {
    assert Classes(c, s, t, t) == [];
  }

  /** The first terminator class completes a whole record. */
  lemma AlignedAt(n: nat, p: seq<bool>, m: nat)
    requires n >= 1 && Aligned(n, 0, p) && m < |p| && p[m]
    ensures m >= n - 1
  {
    assert Completes(n, 0, m);
    if m < n - 1 { Small(m, n); }
  }

  /** The record that striding finds at a record start, and where the next one starts. */
  lemma NextRecord(j: Job, o: nat, s: seq<byte>, a: nat, h: nat, bnd: nat, last: Option<nat>) returns (x: nat, re: nat)
    requires Supported(j.cfg) && Shows(j, o, s) && RecordStarts(j.cfg, s, a) && a <= h <= |s|
    requires |Positions(Ends, j.cfg, s, a, h)| >= j.cfg.fieldCount.value
    requires Aligned(j.cfg.fieldCount.value, 0, Classes(j.cfg, s, a, h))
    ensures Strided(j.cfg, s, a, h, j.cfg.fieldCount.value)
    ensures a <= |s| && a <= x && x == RunOf(j.cfg, s, a, j.cfg.fieldCount.value) < |s| && re == Last(j.cfg, s, x)
    ensures x < h ==>
      && o + a < |j.data| && (o + x == |j.data| || o + x <= o + re < |j.data|)
      && RecordStarts(j.cfg, s, re + 1)
      && Scan(j, o + a, bnd, Fresh(o + a), last) == Closed(j, o, x, re, FieldsOf(j.cfg, s, a, j.cfg.fieldCount.value), o + a, bnd)
    ensures re < h ==> Aligned(j.cfg.fieldCount.value, 0, Classes(j.cfg, s, re + 1, h))
  {
    hide *;
    SupportedIsValid(j.cfg);
    RecordStartIs(j.cfg, s, a);
    var n := j.cfg.fieldCount.value;
    StrideFinds(j.cfg, s, a, h, n, n);
    x, re := StridedRun(j.cfg, s, a, h, n);
    if x < h {
      StridedIsRecord(j.cfg, s, a, h, n);
      var y, re1 := Peel(j.cfg, s, a, h);
      if o + a >= |j.data| {
        PastInput(j, o, s, a);
      }
      ShownLength(j, o, s, a + 1);
      RecordStartByte(j, o, s, a);
      RecordScan(j, o, s, a, bnd, last);
      StridedNext(j.cfg, s, a, h, n, x, re);
    }
    if re < h {
      AlignedRest(n, Classes(j.cfg, s, a, h), Classes(j.cfg, s, re + 1, h));
    }
  }

  lemma AlignedRest(n: nat, p: seq<bool>, rest: seq<bool>)
    requires n >= 1 && Aligned(n, 0, p) && |p| >= n && p[n..] == rest
    ensures Aligned(n, 0, rest)
  {
    hide *;
    assert p == p[..n] + p[n..];
    AlignedConcat(n, p[..n], p[n..]);
    MultipleMod(n, 1, 0);
  }

  lemma StridedRun(c: Config, s: seq<byte>, a: nat, h: nat, k: nat) returns (x: nat, re: nat)
    requires a <= h && Strided(c, s, a, h, k)
    ensures a <= |s| && k >= 1 && a <= x && x == RunOf(c, s, a, k) < |s| && re == Last(c, s, x)
    ensures re < h ==> |Classes(c, s, a, h)| >= k && Classes(c, s, a, h)[k..] == Classes(c, s, re + 1, h)
  {
    x := RunOf(c, s, a, k);
    re := Last(c, s, x);
  }

  lemma StridedIsRecord(c: Config, s: seq<byte>, a: nat, h: nat, k: nat)
    requires a <= h && Strided(c, s, a, h, k) && RunOf(c, s, a, k) < h
    ensures RecordAt(c, s, a, k)
  {
  }

  lemma StridedNext(c: Config, s: seq<byte>, a: nat, h: nat, k: nat, x: nat, re: nat)
    requires c.Valid() && a <= h && Strided(c, s, a, h, k) && x == RunOf(c, s, a, k) < h && re == Last(c, s, x)
    ensures RecordStarts(c, s, re + 1)
  {
    LastOfRun(c, s, x);
  }

  /** The records that striding `n` begins and ends at a time yields. */
  function Stridden(c: Config, s: seq<byte>, bs: seq<nat>, es: seq<nat>, n: nat): seq<Record>
    requires n >= 1
    decreases |es|
  {
    if |es| < n || |bs| < n then []
    else [Fields(c, s, bs, es, n)] + Stridden(c, s, bs[n..], es[n..], n)
  }

  function Fields(c: Config, s: seq<byte>, bs: seq<nat>, es: seq<nat>, n: nat): Record
    requires n <= |bs| && n <= |es|
  {
    seq(n, i requires 0 <= i < n => if bs[i] <= es[i] <= |s| then Unremoved(c, s, bs[i], es[i]) else [])
  }

  lemma FieldsAre(c: Config, s: seq<byte>, a: nat, h: nat, n: nat)
    requires a <= h && Strided(c, s, a, h, n)
    ensures |BeginsFrom(c, s, a, h)| >= n && |Positions(Ends, c, s, a, h)| >= n
    ensures Fields(c, s, BeginsFrom(c, s, a, h), Positions(Ends, c, s, a, h), n) == FieldsOf(c, s, a, n)
  {
    hide BeginsFrom, Positions, FieldsOf, RunOf, DelimRun, After, Stop, Last, Starts, EndOf, Classes, Term, Unremoved;
    var bs, es := BeginsFrom(c, s, a, h), Positions(Ends, c, s, a, h);
    forall i | 0 <= i < n ensures Fields(c, s, bs, es, n)[i] == FieldsOf(c, s, a, n)[i] {
      assert Delimits(c, s, bs[i], es[i], FieldsOf(c, s, a, n)[i]);
    }
  }

  predicate AllAccepted(j: Job, rs: seq<Record>) {
    forall i :: 0 <= i < |rs| ==> j.accept(rs[i])
  }

  lemma StriddenUnfolds(c: Config, s: seq<byte>, bs: seq<nat>, es: seq<nat>, n: nat)
    requires n >= 1
    ensures |es| < n || |bs| < n ==> Stridden(c, s, bs, es, n) == []
    ensures n <= |es| && n <= |bs| ==> Stridden(c, s, bs, es, n) == [Fields(c, s, bs, es, n)] + Stridden(c, s, bs[n..], es[n..], n)
  {
  }

  lemma AtInputEnd(j: Job)
    ensures Rest(j, |j.data|) == Ok([], None) && AllAccepted(j, [])
  {
  }

  lemma StridedLists(c: Config, s: seq<byte>, a: nat, h: nat, k: nat, re: nat)
    requires a <= h && Strided(c, s, a, h, k) && re == Last(c, s, RunOf(c, s, a, k))
    ensures |FieldsOf(c, s, a, k)| == k <= |BeginsFrom(c, s, a, h)| && k <= |Positions(Ends, c, s, a, h)|
    ensures re < h ==> Positions(Ends, c, s, a, h)[k..] == Positions(Ends, c, s, re + 1, h) && BeginsFrom(c, s, a, h)[k..] == BeginsFrom(c, s, re + 1, h)
  {
  }

  /** The rest after one record of the right arity. */
  lemma RestAfter(j: Job, o: nat, x: nat, re: nat, r: Record, e: nat)
    requires o + x == |j.data| || o + x <= o + re < |j.data|
    requires e <= |j.data| && j.cfg.fieldCount.Some? && |r| == j.cfg.fieldCount.value
    requires Rest(j, e) == Closed(j, o, x, re, r, e, |j.data|)
    ensures !j.accept(r) ==> Rest(j, e).Err?
    ensures j.accept(r) && o + x == |j.data| ==> Rest(j, e) == Ok([r], Some(|j.data|))
    ensures j.accept(r) && o + x < |j.data| ==> SameYield(Rest(j, e), Prepend([r], Rest(j, o + re + 1)))
  {
    hide Scan;
    if o + x < |j.data| {
      LastIrrelevant(j, o + re + 1, |j.data|, Fresh(o + re + 1), Some(o + x), None);
    }
  }

  lemma AcceptedCons(j: Job, r: Record, more: seq<Record>)
    ensures AllAccepted(j, [r] + more) <==> j.accept(r) && AllAccepted(j, more)
  {
    var rs := [r] + more;
    if AllAccepted(j, rs) {
      assert rs[0] == r;
      forall i | 0 <= i < |more| ensures j.accept(more[i]) {
        assert rs[i + 1] == more[i];
      }
    }
  }

  lemma NoMoreRecords(j: Job, o: nat, s: seq<byte>, a: nat)
    requires Supported(j.cfg) && Shows(j, o, s) && RecordStarts(j.cfg, s, a) && a <= |s| && o + a >= |j.data|
    ensures Positions(Ends, j.cfg, s, a, |s|) == []
  {
    hide *;
    RecordStartIs(j.cfg, s, a);
    PastInput(j, o, s, a);
    if Positions(Ends, j.cfg, s, a, |s|) != [] {
      SomeStop(j.cfg, s, a, |s|);
    }
  }

  lemma RestIs(j: Job, e: nat)
    requires e <= |j.data|
    ensures Rest(j, e) == Scan(j, e, |j.data|, Fresh(e), None)
  {
  }

  lemma YieldCons(r: Record, o: Outcome, whole: Outcome)
    requires SameYield(whole, Prepend([r], o))
    ensures whole.Ok? <==> o.Ok?
    ensures whole.Ok? ==> whole.records == [r] + o.records
  {
  }

  /** From a record start of an aligned stream, striding the masks yields what the table yields. */
  lemma {:induction false} StriddenIsRest(j: Job, o: nat, s: seq<byte>, a: nat)
    requires Supported(j.cfg) && Shows(j, o, s) && RecordStarts(j.cfg, s, a) && a <= |s| && o + a <= |j.data|
    requires Aligned(j.cfg.fieldCount.value, 0, Classes(j.cfg, s, a, |s|)) && !Odd(j.cfg, s, |j.data| - o)
    ensures var rs := Stridden(j.cfg, s, BeginsFrom(j.cfg, s, a, |s|), Positions(Ends, j.cfg, s, a, |s|), j.cfg.fieldCount.value);
            && (Rest(j, o + a).Ok? <==> AllAccepted(j, rs))
            && (Rest(j, o + a).Ok? ==> Rest(j, o + a).records == rs)
    decreases |s| - a
  {
    hide *;
    SupportedIsValid(j.cfg);
    var n := j.cfg.fieldCount.value;
    var h := |s|;
    var bs, es := BeginsFrom(j.cfg, s, a, h), Positions(Ends, j.cfg, s, a, h);
    StriddenUnfolds(j.cfg, s, bs, es, n);
    AtInputEnd(j);
    if |es| < n {
      NothingLeft(j, o, s, a);
    } else {
      RestIs(j, o + a);
      var x, re := NextRecord(j, o, s, a, h, |j.data|, None);
      FieldsAre(j.cfg, s, a, h, n);
      LastInRange(j.cfg, s, x);
      StridedLists(j.cfg, s, a, h, n, re);
      var r := FieldsOf(j.cfg, s, a, n);
      RestAfter(j, o, x, re, r, o + a);
      var bs', es' := BeginsFrom(j.cfg, s, re + 1, h), Positions(Ends, j.cfg, s, re + 1, h);
      AcceptedCons(j, r, Stridden(j.cfg, s, bs', es', n));
      if o + x == |j.data| {
        NoMoreRecords(j, o, s, re + 1);
        StriddenUnfolds(j.cfg, s, bs', es', n);
      } else {
        StriddenIsRest(j, o, s, re + 1);
        if j.accept(r) {
          YieldCons(r, Rest(j, o + re + 1), Rest(j, o + a));
        }
      }
    }
  }

  /**
   * The bit-parallel pipeline refines the table. Over any input that does not begin with a
   * blank line, the verifier and the quote parity accept exactly when the reference scan does,
   * up to the accumulator's say, and striding the masks then yields the reference's records.
   */
  lemma MasksRefineTable(j: Job, o: nat, s: seq<byte>)
    requires Supported(j.cfg) && Shows(j, o, s) && (s != [] ==> !Term(j.cfg, s, 0))
    ensures var c := j.cfg;
            var rs := Stridden(c, s, BeginsFrom(c, s, 0, |s|), Positions(Ends, c, s, 0, |s|), c.fieldCount.value);
            && o <= |j.data|
            && (Rest(j, o).Ok? <==>
                  Aligned(c.fieldCount.value, 0, Classes(c, s, 0, |s|)) && !Odd(c, s, |j.data| - o) && AllAccepted(j, rs))
            && (Rest(j, o).Ok? ==> Rest(j, o).records == rs)
  {
    hide *;
    SupportedIsValid(j.cfg);
    StartOfStream(j, o, s);
    RestIs(j, o);
    if !Aligned(j.cfg.fieldCount.value, 0, Classes(j.cfg, s, 0, |s|)) {
      MisalignedTail(j, o, s, 0, |s|);
      MisalignedRestart(j, o, s, 0, |s|, None);
    } else if Odd(j.cfg, s, |j.data| - o) {
      RecordStartIs(j.cfg, s, 0);
      StartsClean(j.cfg, s, 0);
      OddRestart(j, o, s, 0, None);
    } else {
      StriddenIsRest(j, o, s, 0);
    }
  }

  lemma StartOfStream(j: Job, o: nat, s: seq<byte>)
    requires Supported(j.cfg) && Shows(j, o, s) && (s != [] ==> !Term(j.cfg, s, 0))
    ensures RecordStarts(j.cfg, s, 0) && o <= |j.data| && |j.data| - o <= |s|
  {
  }
}
