/**
 * The stream cut at its boundaries. Each stretch from one boundary to the next holds one
 * field: the masks mark exactly one begin and one end in it, and what they leave of the
 * bytes between is what the transition table keeps.
 */
module Segments {
  import opened Dialect
  import opened Dfa
  import opened Stream

  /** The dialects the bit-parallel parser accepts. */
  predicate Supported(c: Config) {
    && c.Valid() && c.quoteHandling.Toggle? && c.comment.None?
    && (c.escape.None? || c.escape == c.quote)
    && c.fieldCount.Some? && 1 <= c.fieldCount.value <= 63
  }

  datatype Kind = Begins | Ends | Removals | Bounds

  predicate Holds(k: Kind, c: Config, s: seq<byte>, i: int) {
    match k
    case Begins => Begin(c, s, i)
    case Ends => End(c, s, i)
    case Removals => Removed(c, s, i)
    case Bounds => BoundB(c, s, i)
  }

  /** The positions of one kind in `[lo, hi)`, ascending. */
  function Positions(k: Kind, c: Config, s: seq<byte>, lo: nat, hi: nat): (p: seq<nat>)
    requires lo <= hi
    ensures forall i :: 0 <= i < |p| ==> lo <= p[i] < hi
    decreases hi - lo
  {
    if lo == hi then []
    else Positions(k, c, s, lo, hi - 1) + (if Holds(k, c, s, hi - 1) then [hi - 1] else [])
  }

  lemma {:induction false} PositionsSplit(k: Kind, c: Config, s: seq<byte>, lo: nat, mid: nat, hi: nat)
    requires lo <= mid <= hi
    ensures Positions(k, c, s, lo, hi) == Positions(k, c, s, lo, mid) + Positions(k, c, s, mid, hi)
    decreases hi - mid
  {
    hide Holds;
    if mid < hi {
      PositionsSplit(k, c, s, lo, mid, hi - 1);
    }
  }

  lemma {:induction false} NoPositions(k: Kind, c: Config, s: seq<byte>, lo: nat, hi: nat)
    requires lo <= hi && forall i :: lo <= i < hi ==> !Holds(k, c, s, i)
    ensures Positions(k, c, s, lo, hi) == []
    decreases hi - lo
  {
    hide Holds;
    if lo < hi {
      NoPositions(k, c, s, lo, hi - 1);
    }
  }

  lemma OnePosition(k: Kind, c: Config, s: seq<byte>, lo: nat, at: nat, hi: nat)
    requires lo <= at < hi && forall i :: lo <= i < hi ==> (Holds(k, c, s, i) <==> i == at)
    ensures Positions(k, c, s, lo, hi) == [at]
  {
    hide Holds;
    PositionsSplit(k, c, s, lo, at, hi);
    PositionsSplit(k, c, s, at, at + 1, hi);
    NoPositions(k, c, s, lo, at);
    NoPositions(k, c, s, at + 1, hi);
    assert Positions(k, c, s, at, at) == [];
  }

  /** A field may begin at `a`. */
  ghost predicate Starts(c: Config, s: seq<byte>, a: nat) {
    && a <= |s|
    && (a == 0 ==> !Term(c, s, 0))
    && (a > 0 ==> BoundB(c, s, a - 1))
  }

  /** The field that begins at `a` ends at `x`, and the boundary there extends to `re`. */
  ghost predicate Segment(c: Config, s: seq<byte>, a: nat, x: nat, re: nat) {
    && Starts(c, s, a) && a <= x <= re < |s|
    && (forall i :: a <= i < x ==> !Delim(c, s, i) && !Term(c, s, i))
    && (if Delim(c, s, x) then re == x
        else (forall i :: x <= i <= re ==> Term(c, s, i)) && !Term(c, s, re + 1))
  }

  lemma DelimIsNotTerm(c: Config, s: seq<byte>, i: int)
    requires c.Valid()
    ensures !(Delim(c, s, i) && Term(c, s, i))
    ensures Quote(c, s, i) ==> !Delim(c, s, i) && !Term(c, s, i)
  {
  }

  /** Nothing before `a` continues into it. */
  lemma StartsClean(c: Config, s: seq<byte>, a: nat)
    requires c.Valid() && Starts(c, s, a)
    ensures !Odd(c, s, a)
    ensures !(Term(c, s, a - 1) && Term(c, s, a))
  {
    if a == 0 {
      assert s[..0] == [];
    } else {
      DelimIsNotTerm(c, s, a - 1);
    }
  }

  /** The boundaries inside one segment. */
  lemma SegmentBounds(c: Config, s: seq<byte>, a: nat, x: nat, re: nat)
    requires c.Valid() && Segment(c, s, a, x, re)
    ensures forall i :: a <= i <= re ==> (BoundB(c, s, i) <==> i == re)
    ensures forall i :: a <= i <= re ==> (BoundE(c, s, i) <==> i == x)
    ensures Starts(c, s, re + 1)
  {
    hide Delim, Term;
    StartsClean(c, s, a);
    forall i | a <= i <= re
      ensures BoundB(c, s, i) <==> i == re
      ensures BoundE(c, s, i) <==> i == x
    {
      DelimIsNotTerm(c, s, i);
      DelimIsNotTerm(c, s, x);
      if i == re { assert Delim(c, s, i) || Term(c, s, i); }
      if i < re && i >= x { assert Term(c, s, i) && Term(c, s, i + 1); }
      if x < i { assert Term(c, s, i - 1); }
      if i == x && a < x { assert !Term(c, s, x - 1); }
    }
  }

  /** Where the masks put the begin and the end of a segment's field. */
  function BeginOf(c: Config, s: seq<byte>, a: nat): nat {
    if a > 0 && Quote(c, s, a) then a + 1 else a
  }

  function EndOf(c: Config, s: seq<byte>, x: nat): nat {
    if x > 0 && Closing(c, s, x - 1) then x - 1 else x
  }

  lemma QuoteIsNoBound(c: Config, s: seq<byte>, i: int)
    requires c.Valid() && Quote(c, s, i)
    ensures !BoundB(c, s, i) && !BoundE(c, s, i) && !Delim(c, s, i) && !Term(c, s, i)
  {
  }

  lemma InsideStep(c: Config, s: seq<byte>, i: int)
    requires 0 <= i < |s|
    ensures Inside(c, s, i) == Odd(c, s, i + 1) == (Odd(c, s, i) != Quote(c, s, i))
    ensures Closing(c, s, i) == (Quote(c, s, i) && Odd(c, s, i))
  {
    OddStep(c, s, i);
  }

  /** The end of a segment's field lies in the segment, behind its begin. */
  lemma EndInSegment(c: Config, s: seq<byte>, a: nat, x: nat, re: nat)
    requires c.Valid() && Segment(c, s, a, x, re)
    ensures a <= BeginOf(c, s, a) <= EndOf(c, s, x) <= x
    ensures BeginOf(c, s, a) > a ==> Inside(c, s, a)
    ensures EndOf(c, s, x) < x ==> Closer(c, s, x - 1) && Closing(c, s, x - 1)
    ensures x > a ==> (Closer(c, s, x - 1) <==> Closing(c, s, x - 1))
    ensures EndOf(c, s, x) == x ==> !Closer(c, s, x - 1)
  {
    SegmentBounds(c, s, a, x, re);
    StartsClean(c, s, a);
    hide Inside, Term, Delim, BoundB, BoundE, Odd;
    if a < |s| { InsideStep(c, s, a); }
    if x > 0 && Closing(c, s, x - 1) {
      QuoteIsNoBound(c, s, x - 1);
      InsideStep(c, s, x - 1);
      assert x - 1 >= a;
    }
    if Quote(c, s, a) {
      QuoteIsNoBound(c, s, a);
      assert x != a;
      OutsideAtX(c, s, x);
      if x == a + 1 { InsideStep(c, s, x); }
    }
  }

  lemma OutsideAtX(c: Config, s: seq<byte>, x: nat)
    requires c.Valid() && BoundE(c, s, x)
    ensures x < |s| && !Quote(c, s, x) && !Inside(c, s, x) && !Odd(c, s, x)
  {
    InsideStep(c, s, x);
  }

  /** One end, one boundary, and past the first segment one begin. */
  lemma SegmentPositions(c: Config, s: seq<byte>, a: nat, x: nat, re: nat)
    requires c.Valid() && Segment(c, s, a, x, re)
    ensures Positions(Ends, c, s, a, re + 1) == [EndOf(c, s, x)]
    ensures Positions(Bounds, c, s, a, re + 1) == [re]
    ensures Positions(Begins, c, s, a, re + 1) == if a == 0 then [] else [BeginOf(c, s, a)]
  {
    SegmentBounds(c, s, a, x, re);
    EndInSegment(c, s, a, x, re);
    hide BoundB, BoundE, Quote, Inside, Segment;
    forall i | a <= i <= re ensures Holds(Bounds, c, s, i) <==> i == re {
    }
    OnePosition(Bounds, c, s, a, re, re + 1);
    forall i | a <= i <= re ensures Holds(Ends, c, s, i) <==> i == EndOf(c, s, x) {
      OneEnd(c, s, a, x, re, i);
    }
    OnePosition(Ends, c, s, a, EndOf(c, s, x), re + 1);
    forall i | a <= i <= re ensures Holds(Begins, c, s, i) <==> a > 0 && i == BeginOf(c, s, a) {
      OneBegin(c, s, a, x, re, i);
    }
    if a == 0 {
      NoPositions(Begins, c, s, a, re + 1);
    } else {
      OnePosition(Begins, c, s, a, BeginOf(c, s, a), re + 1);
    }
  }

  lemma OneEnd(c: Config, s: seq<byte>, a: nat, x: nat, re: nat, i: nat)
    requires c.Valid() && Segment(c, s, a, x, re) && a <= i <= re
    ensures End(c, s, i) <==> i == EndOf(c, s, x)
  {
    SegmentBounds(c, s, a, x, re);
    EndInSegment(c, s, a, x, re);
    hide BoundB, BoundE, Quote, Inside, Segment;
    if Closer(c, s, i) {
      QuoteIsNoBound(c, s, i);
      assert i != re;
      assert BoundE(c, s, i + 1);
    }
  }

  lemma OneBegin(c: Config, s: seq<byte>, a: nat, x: nat, re: nat, i: nat)
    requires c.Valid() && Segment(c, s, a, x, re) && a <= i <= re
    ensures Begin(c, s, i) <==> a > 0 && i == BeginOf(c, s, a)
  {
    SegmentBounds(c, s, a, x, re);
    if a > 0 { assert BoundB(c, s, a - 1); }
    assert a == 0 ==> !BoundB(c, s, a - 1);
    assert re < |s|;
    hide BoundB, BoundE, Inside, Segment, Starts;
    if a < i - 1 {
      assert !BoundB(c, s, i - 2);
    }
    if i >= 1 && i - 1 >= a { assert !BoundB(c, s, i - 1); }
    if i == a && a > 0 {
      if Opener(c, s, a - 1) { QuoteIsNoBound(c, s, a - 1); }
    }
  }

  /** The bytes of `[lo, hi)` that the masks leave. */
  function Unremoved(c: Config, s: seq<byte>, lo: nat, hi: nat): seq<byte>
    requires lo <= hi <= |s|
    decreases hi - lo
  {
    if lo == hi then []
    else Unremoved(c, s, lo, hi - 1) + (if Removed(c, s, hi - 1) then [] else [s[hi - 1]])
  }

  /** A quote that is no content: every quote but the first of a doubled pair. */
  predicate Dropped(c: Config, s: seq<byte>, i: int) {
    Quote(c, s, i) && (Inside(c, s, i) || !(c.Doubled() && Quote(c, s, i + 1)))
  }

  /** The bytes of `[lo, hi)` that are content. */
  function Content(c: Config, s: seq<byte>, lo: nat, hi: nat): seq<byte>
    requires lo <= hi <= |s|
    decreases hi - lo
  {
    if lo == hi then []
    else Content(c, s, lo, hi - 1) + (if Dropped(c, s, hi - 1) then [] else [s[hi - 1]])
  }

  lemma {:induction false} ContentSplit(c: Config, s: seq<byte>, lo: nat, mid: nat, hi: nat)
    requires lo <= mid <= hi <= |s|
    ensures Content(c, s, lo, hi) == Content(c, s, lo, mid) + Content(c, s, mid, hi)
    decreases hi - mid
  {
    hide Dropped;
    if mid < hi {
      ContentSplit(c, s, lo, mid, hi - 1);
    }
  }

  lemma {:induction false} SameContent(c: Config, s: seq<byte>, lo: nat, hi: nat)
    requires lo <= hi <= |s| && forall i :: lo <= i < hi ==> (Removed(c, s, i) <==> Dropped(c, s, i))
    ensures Unremoved(c, s, lo, hi) == Content(c, s, lo, hi)
    decreases hi - lo
  {
    hide Removed, Dropped;
    if lo < hi {
      SameContent(c, s, lo, hi - 1);
    }
  }

  lemma RemovedIsDropped(c: Config, s: seq<byte>, a: nat, x: nat, re: nat, i: nat)
    requires c.Valid() && Segment(c, s, a, x, re)
    requires BeginOf(c, s, a) <= i < EndOf(c, s, x)
    ensures Removed(c, s, i) <==> Dropped(c, s, i)
  {
    SegmentBounds(c, s, a, x, re);
    EndInSegment(c, s, a, x, re);
    assert a == 0 ==> !BoundB(c, s, a - 1);
    if Quote(c, s, i) {
      QuoteIsNoBound(c, s, i);
      hide BoundB, BoundE, Inside, Segment, Quote;
      if i > a { assert !BoundB(c, s, i - 1); }
      assert !Opener(c, s, i);
      assert Closer(c, s, i) ==> i + 1 == x;
    }
  }

  lemma SegmentInRange(c: Config, s: seq<byte>, a: nat, x: nat, re: nat)
    requires c.Valid() && Segment(c, s, a, x, re)
    ensures a <= x <= re < |s| && BoundE(c, s, x) && !Quote(c, s, x)
  {
    SegmentBounds(c, s, a, x, re);
    OutsideAtX(c, s, x);
  }

  /** What the masks leave of a segment is its content. */
  lemma SegmentContent(c: Config, s: seq<byte>, a: nat, x: nat, re: nat)
    requires c.Valid() && Segment(c, s, a, x, re)
    ensures BeginOf(c, s, a) <= EndOf(c, s, x)
    ensures Unremoved(c, s, BeginOf(c, s, a), EndOf(c, s, x)) == Content(c, s, a, x)
  {
    EndInSegment(c, s, a, x, re);
    SegmentInRange(c, s, a, x, re);
    var b, e := BeginOf(c, s, a), EndOf(c, s, x);
    forall i | b <= i < e ensures Removed(c, s, i) <==> Dropped(c, s, i) {
      RemovedIsDropped(c, s, a, x, re, i);
    }
    SameContent(c, s, b, e);
    hide Segment, Removed;
    if b == a + 1 {
      assert Dropped(c, s, a);
    }
    if e == x - 1 {
      assert Dropped(c, s, e);
    }
    hide Dropped, BeginOf, EndOf;
    ContentSplit(c, s, a, b, x);
    ContentSplit(c, s, b, e, x);
    if b == a + 1 {
      assert Content(c, s, a, b) == Content(c, s, a, a);
    }
    if e == x - 1 {
      assert Content(c, s, e, x) == Content(c, s, e, e);
    }
  }

  /** The table's state inside a segment, read off the quotes. */
  function InnerState(c: Config, s: seq<byte>, a: nat, i: nat): State
    requires a <= i <= |s|
  {
    if i == a then FieldStart
    else if Odd(c, s, i) then InQuotedField
    else if Quote(c, s, i - 1) then AfterClosingQuote
    else InField
  }

  /** What the table has kept before byte `i`: it keeps the first quote of a pair only on seeing the second. */
  function KeptBefore(c: Config, s: seq<byte>, a: nat, i: nat): seq<byte>
    requires a <= i <= |s|
  {
    if i > a && Closing(c, s, i - 1) then Content(c, s, a, i - 1) else Content(c, s, a, i)
  }

  /** One content byte through the table. */
  lemma InnerByte(c: Config, s: seq<byte>, a: nat, i: nat)
    requires Supported(c) && a <= i < |s| && !Odd(c, s, a)
    requires !Delim(c, s, i) && !Term(c, s, i)
    ensures var t := Cell(c, InnerState(c, s, a, i), s[i]);
            && t.next == InnerState(c, s, a, i + 1)
            && KeptBefore(c, s, a, i + 1) == KeptBefore(c, s, a, i) + (if t.output then [s[i]] else [])
  {
    InsideStep(c, s, i);
    if i > a { InsideStep(c, s, i - 1); }
    hide Inside, Odd;
    assert Content(c, s, a, i + 1) == Content(c, s, a, i) + (if Dropped(c, s, i) then [] else [s[i]]);
    if i > a {
      assert Content(c, s, a, i) == Content(c, s, a, i - 1) + (if Dropped(c, s, i - 1) then [] else [s[i - 1]]);
    }
  }

  lemma KeptAtEnd(c: Config, s: seq<byte>, a: nat, x: nat)
    requires c.Valid() && a <= x && BoundE(c, s, x)
    ensures KeptBefore(c, s, a, x) == Content(c, s, a, x)
  {
    OutsideAtX(c, s, x);
    if x > a && Closing(c, s, x - 1) {
      assert Dropped(c, s, x - 1);
    }
  }
}
