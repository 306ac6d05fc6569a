/** The table's state along a stream, and the terminators at which it closes records. */
module Endings {
  import opened Dialect
  import opened Dfa
  import opened Records
  import opened Handed
  import opened Stream
  import opened Segments
  import opened FieldWalk
  import opened RecordWalk
  import opened Refinement
  import opened Flush

  /** What the masks say about the table's state before byte `i`. */
  predicate Agrees(c: Config, s: seq<byte>, i: nat, t: State)
    requires i <= |s|
  {
    && (if Odd(c, s, i) then t.InQuotedField? else OutOfQuotes(t))
    && (t.RecordStart? <==> i == 0 || Term(c, s, i - 1))
  }

  /** The table's state follows quote parity, and is a record start exactly behind terminators. */
  lemma {:induction false} StateFollows(j: Job, o: nat, s: seq<byte>, i: nat)
    requires Supported(j.cfg) && Shows(j, o, s) && o + i <= |j.data|
    ensures i <= |s| && Agrees(j.cfg, s, i, StateAt(j.cfg, j.data, o, o + i))
    decreases i
  {
    hide *;
    ShownLength(j, o, s, i);
    if i == 0 {
      AgreesFirst(j.cfg, s);
      StateFirst(j.cfg, j.data, o);
    } else {
      StateFollows(j, o, s, i - 1);
      ShownByte(j, o, s, i - 1);
      InsideStep(j.cfg, s, i - 1);
      AgreesStep(j.cfg, s, i - 1, StateAt(j.cfg, j.data, o, o + i - 1));
      StateNext(j.cfg, j.data, o, o + i);
    }
  }

  lemma StateFirst(c: Config, data: seq<byte>, o: nat)
    requires o <= |data|
    ensures StateAt(c, data, o, o) == RecordStart
  {
  }

  lemma StateNext(c: Config, data: seq<byte>, o: nat, p: nat)
    requires o < p <= |data|
    ensures StateAt(c, data, o, p) == Settle(Cell(c, StateAt(c, data, o, p - 1), data[p - 1]).next)
  {
  }

  lemma AgreesFirst(c: Config, s: seq<byte>)
    ensures Agrees(c, s, 0, RecordStart)
  {
    assert s[..0] == [];
  }

  lemma AgreesStep(c: Config, s: seq<byte>, i: nat, t: State)
    requires Supported(c) && i < |s| && Agrees(c, s, i, t)
    requires Inside(c, s, i) == Odd(c, s, i + 1) == (Odd(c, s, i) != Quote(c, s, i))
    ensures Agrees(c, s, i + 1, Settle(Cell(c, t, s[i]).next))
  {
    hide Odd;
  }

  /** A run's first terminator closes a record, unless the stream starts with it. */
  predicate Closes(j: Job, o: nat, p: nat)
    requires o <= p < |j.data|
  {
    Cell(j.cfg, StateAt(j.cfg, j.data, o, p), j.data[p]).next.RecordEnd?
  }

  lemma RunCloses(j: Job, o: nat, s: seq<byte>, x: nat)
    requires Supported(j.cfg) && Shows(j, o, s) && 0 < x && o + x < |j.data| && RunStart(j.cfg, s, x)
    ensures Closes(j, o, o + x)
  {
    hide *;
    StateFollows(j, o, s, x);
    ShownByte(j, o, s, x);
    InsideStep(j.cfg, s, x);
    TermCloses(j.cfg, s, x, StateAt(j.cfg, j.data, o, o + x));
    IsClosing(j, o, o + x);
  }

  lemma IsClosing(j: Job, o: nat, p: nat)
    requires o <= p < |j.data| && Cell(j.cfg, StateAt(j.cfg, j.data, o, p), j.data[p]).next.RecordEnd?
    ensures Closes(j, o, p)
  {
  }

  lemma TermCloses(c: Config, s: seq<byte>, x: nat, t: State)
    requires Supported(c) && 0 < x < |s| && RunStart(c, s, x) && Agrees(c, s, x, t)
    requires Inside(c, s, x) == Odd(c, s, x + 1) == (Odd(c, s, x) != Quote(c, s, x))
    ensures Cell(c, t, s[x]).next.RecordEnd?
  {
    hide Odd;
  }

  /** The record at `a` is closed at its terminator run. */
  lemma RecordCloses(j: Job, o: nat, s: seq<byte>, a: nat, n: nat)
    requires Supported(j.cfg) && Shows(j, o, s) && RecordStarts(j.cfg, s, a) && RecordAt(j.cfg, s, a, n)
    ensures n >= 1 && a <= |s|
    ensures var x := RunOf(j.cfg, s, a, n); a <= x && (o + x < |j.data| ==> Closes(j, o, o + x))
  {
    hide *;
    SupportedIsValid(j.cfg);
    RecordAtIs(j.cfg, s, a, n);
    RecordStartIs(j.cfg, s, a);
    AfterStarts(j.cfg, s, a, n - 1);
    RunOfIs(j.cfg, s, a, n);
    var z := After(j.cfg, s, a, n - 1);
    StopIsSegment(j.cfg, s, z);
    var x := RunOf(j.cfg, s, a, n);
    SegmentCloses(j, o, s, z, x, Last(j.cfg, s, x));
  }

  lemma SegmentCloses(j: Job, o: nat, s: seq<byte>, z: nat, x: nat, re: nat)
    requires Supported(j.cfg) && Shows(j, o, s) && Segment(j.cfg, s, z, x, re) && Term(j.cfg, s, x)
    ensures o + x < |j.data| ==> Closes(j, o, o + x)
  {
    hide *;
    SupportedIsValid(j.cfg);
    if o + x < |j.data| {
      RunFromSegment(j.cfg, s, z, x, re);
      RunCloses(j, o, s, x);
    }
  }

  lemma RunFromSegment(c: Config, s: seq<byte>, z: nat, x: nat, re: nat)
    requires c.Valid() && Segment(c, s, z, x, re) && Term(c, s, x)
    ensures 0 < x && RunStart(c, s, x)
  {
    StartsClean(c, s, z);
    hide Delim, Term;
    if z < x { assert !Term(c, s, x - 1); }
  }

  /** One more record closed. */
  lemma OneMoreClosed(j: Job, o: nat, lo: nat, x: nat, hi: nat)
    requires o <= lo <= x < hi <= |j.data| && Closes(j, o, x)
    ensures Closings(j, o, lo, hi) >= 1 + Closings(j, o, x + 1, hi)
  {
    hide Cell, StateAt;
    ClosingsSplit(j, o, lo, x, hi);
  }

  /** At least `count` records close between the stream's offsets `a` and `b`. */
  ghost predicate CloseWithin(j: Job, o: nat, a: nat, b: nat, count: nat) {
    a <= b && o + b <= |j.data| && count <= Closings(j, o, o + a, o + b)
  }

  lemma CloseWithinIs(j: Job, o: nat, a: nat, b: nat, count: nat)
    requires CloseWithin(j, o, a, b, count)
    ensures a <= b && o + b <= |j.data| && count <= Closings(j, o, o + a, o + b)
  {
    hide Closings;
  }

  lemma IsCloseWithin(j: Job, o: nat, a: nat, b: nat, count: nat)
    requires a <= b && o + b <= |j.data| && count <= Closings(j, o, o + a, o + b)
    ensures CloseWithin(j, o, a, b, count)
  {
    hide Closings;
  }

  lemma CloseByThen(j: Job, o: nat, a: nat, b: nat, b': nat, count: nat, fewer: nat)
    requires CloseWithin(j, o, a, b, count) && b <= b' && o + b' <= |j.data| && fewer <= count
    ensures CloseWithin(j, o, a, b', fewer)
  {
    ClosingsSplit(j, o, o + a, o + b, o + b');
    hide Closings;
  }

  lemma OneClosed(j: Job, o: nat, a: nat, x: nat, b: nat)
    requires a <= x < b && o + b <= |j.data| && Closes(j, o, o + x)
    ensures CloseWithin(j, o, a, b, 1)
  {
    hide *;
    OneMoreClosed(j, o, o + a, o + x, o + b);
    IsCloseWithin(j, o, a, b, 1);
  }
}
