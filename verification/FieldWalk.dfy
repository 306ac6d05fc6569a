/** The reference scan, a segment at a time: from one field's first byte to the next one's. */
module FieldWalk {
  import opened Dialect
  import opened Dfa
  import opened Records
  import opened Stream
  import opened Segments

  /**
   * `s` is what the vectors show of the input from `o` on: the bytes themselves, a terminator
   * after them if the input lacks one, and padding that means nothing.
   */
  ghost predicate Shows(j: Job, o: nat, s: seq<byte>) {
    && o <= |j.data| && |j.data| - o <= |s|
    && (forall i :: 0 <= i < |j.data| - o ==> s[i] == j.data[o + i])
    && (forall i :: |j.data| - o <= i < |s| ==>
          && s[i] != j.cfg.delimiter && !j.cfg.IsQuote(s[i])
          && (j.cfg.IsTerm(s[i]) <==> i == |j.data| - o && Unterminated(j, o)))
    && (Unterminated(j, o) ==> |j.data| - o < |s|)
  }

  /** The input from `o` on lacks a final terminator. */
  predicate Unterminated(j: Job, o: nat) {
    o < |j.data| && !j.cfg.IsTerm(j.data[|j.data| - 1])
  }

  lemma BoundIsInInput(j: Job, o: nat, s: seq<byte>, i: nat)
    requires Supported(j.cfg) && Shows(j, o, s) && i < |s|
    requires Delim(j.cfg, s, i) || Term(j.cfg, s, i) || Quote(j.cfg, s, i)
    ensures o + i < |j.data| || (o + i == |j.data| && Unterminated(j, o) && Term(j.cfg, s, i))
  {
  }

  lemma NoContent(c: Config, s: seq<byte>, a: nat)
    requires a <= |s|
    ensures InnerState(c, s, a, a) == FieldStart && KeptBefore(c, s, a, a) == []
  {
  }

  /** A field's content bytes, stepped through by the table. */
  lemma {:induction false} ContentScan(j: Job, o: nat, s: seq<byte>, a: nat, i: nat, bnd: nat, f: Flight, last: Option<nat>)
    requires Supported(j.cfg) && Shows(j, o, s) && Starts(j.cfg, s, a) && a <= i && o + i <= |j.data|
    requires forall k :: a <= k < i ==> !Delim(j.cfg, s, k) && !Term(j.cfg, s, k)
    requires f.state.FieldStart? && f.cur == []
    ensures Scan(j, o + a, bnd, f, last) ==
            Scan(j, o + i, bnd, f.(state := InnerState(j.cfg, s, a, i), cur := KeptBefore(j.cfg, s, a, i)), last)
    decreases i - a
  {
    hide *;
    ShownLength(j, o, s, i);
    NoContent(j.cfg, s, a);
    if a < i {
      ContentScan(j, o, s, a, i - 1, bnd, f, last);
      var g := f.(state := InnerState(j.cfg, s, a, i - 1), cur := KeptBefore(j.cfg, s, a, i - 1));
      ContentStep(j, o, s, a, i - 1, g);
      GoScan(j, g, o + i - 1, bnd, last);
    }
  }

  lemma ShownLength(j: Job, o: nat, s: seq<byte>, i: nat)
    requires Shows(j, o, s) && o + i <= |j.data|
    ensures i <= |s|
  {
  }

  lemma GoScan(j: Job, f: Flight, pos: nat, bnd: nat, last: Option<nat>)
    requires pos < |j.data| && Step(j, f, pos).Go?
    ensures Scan(j, pos, bnd, f, last) == Scan(j, pos + 1, bnd, Step(j, f, pos).flight, last)
  {
    hide Step;
  }

  lemma ContentStep(j: Job, o: nat, s: seq<byte>, a: nat, i: nat, g: Flight)
    requires Supported(j.cfg) && Shows(j, o, s) && Starts(j.cfg, s, a) && a <= i && o + i < |j.data|
    requires !Delim(j.cfg, s, i) && !Term(j.cfg, s, i)
    requires g.state == InnerState(j.cfg, s, a, i) && g.cur == KeptBefore(j.cfg, s, a, i)
    ensures Step(j, g, o + i) == Go(g.(state := InnerState(j.cfg, s, a, i + 1), cur := KeptBefore(j.cfg, s, a, i + 1)))
  {
    StartsClean(j.cfg, s, a);
    InnerByte(j.cfg, s, a, i);
    InteriorStates(j.cfg, s, a, i);
    InteriorStates(j.cfg, s, a, i + 1);
    ShownByte(j, o, s, i);
    hide *;
    InteriorStep(j, g, o + i);
  }

  lemma InteriorStep(j: Job, f: Flight, pos: nat)
    requires pos < |j.data| && !f.state.RecordStart?
    requires var s := Cell(j.cfg, f.state, j.data[pos]).next; OutOfQuotes(s) || InQuotes(s)
    ensures var t := Cell(j.cfg, f.state, j.data[pos]);
            Step(j, f, pos) == Go(f.(state := t.next, cur := f.cur + (if t.output then [j.data[pos]] else [])))
  {
    hide Cell;
    assert f.cur + [] == f.cur;
  }

  lemma ShownByte(j: Job, o: nat, s: seq<byte>, i: nat)
    requires Shows(j, o, s) && o + i < |j.data|
    ensures i < |s| && j.data[o + i] == s[i]
  {
  }

  lemma InteriorStates(c: Config, s: seq<byte>, a: nat, i: nat)
    requires a <= i <= |s|
    ensures var t := InnerState(c, s, a, i); OutOfQuotes(t) || InQuotes(t)
    ensures a < i ==> !InnerState(c, s, a, i).FieldStart? && !InnerState(c, s, a, i).RecordStart?
    ensures !InnerState(c, s, a, i).RecordStart?
    ensures !Odd(c, s, i) && !Odd(c, s, a) ==> OutOfQuotes(InnerState(c, s, a, i))
    ensures Odd(c, s, i) && a < i ==> InnerState(c, s, a, i).InQuotedField?
  {
  }

  /** A record that has not begun looks like a field that has not, once a byte of it is there. */
  lemma FreshIsFieldStart(j: Job, pos: nat, bnd: nat, last: Option<nat>)
    requires j.cfg.comment.None? && pos < |j.data| && !j.cfg.IsTerm(j.data[pos])
    ensures Scan(j, pos, bnd, Fresh(pos), last) == Scan(j, pos, bnd, Flight(FieldStart, [], [], pos, pos), last)
  {
  }

  /** A field that ends at a delimiter joins the record in flight. */
  lemma DelimScan(j: Job, o: nat, s: seq<byte>, a: nat, x: nat, bnd: nat, f: Flight, last: Option<nat>)
    requires Supported(j.cfg) && Shows(j, o, s) && Segment(j.cfg, s, a, x, x) && Delim(j.cfg, s, x)
    requires f.state.FieldStart? && f.cur == []
    ensures o + x < |j.data|
    ensures Scan(j, o + a, bnd, f, last) ==
            Scan(j, o + x + 1, bnd, Flight(FieldStart, f.fields + [Content(j.cfg, s, a, x)], [], f.recordIn, o + x + 1), last)
  {
    BoundIsInInput(j, o, s, x);
    DelimIsNotTerm(j.cfg, s, x);
    ShownByte(j, o, s, x);
    assert s[x] == j.cfg.delimiter;
    var g := AtStop(j, o, s, a, x, x, bnd, f, last);
    hide Shows, Segment, Delim, Term, Content;
    assert Step(j, g, o + x) == Go(Flight(FieldStart, g.fields + [g.cur], [], g.recordIn, o + x + 1));
  }

  /** Terminators after a closed record, up to the end of their run. */
  lemma {:induction false} RunScan(j: Job, p: nat, q: nat, bnd: nat, last: Option<nat>)
    requires p <= q < |j.data| && forall i :: p <= i <= q ==> j.cfg.IsTerm(j.data[i])
    ensures Scan(j, p, bnd, Fresh(p), last) ==
            if bnd <= q then Ok([], Some(Max(bnd, p))) else Scan(j, q + 1, bnd, Fresh(q + 1), last)
    decreases q - p
  {
    AnchorIrrelevant(j, p + 1, bnd, Fresh(p), Fresh(p + 1), last);
    if p < q && p < bnd {
      RunScan(j, p + 1, q, bnd, last);
    }
  }

  /** What a record that ends at `x`, its run at `re`, leaves of the scan. */
  function Closed(j: Job, o: nat, x: nat, re: nat, r: Record, recordIn: nat, bnd: nat): Outcome
    requires o + x == |j.data| || o + x <= o + re < |j.data|
  {
    var v := Verdict(j, r, recordIn);
    if v.Some? then Err([], v.value)
    else if o + x == |j.data| then Ok([r], Some(|j.data|))
    else if bnd <= o + re then Ok([r], Some(Max(bnd, o + x)))
    else Prepend([r], Scan(j, o + re + 1, bnd, Fresh(o + re + 1), Some(o + x)))
  }

  lemma TermInRange(j: Job, o: nat, s: seq<byte>, a: nat, x: nat, re: nat)
    requires Supported(j.cfg) && Shows(j, o, s) && Segment(j.cfg, s, a, x, re) && Term(j.cfg, s, x)
    ensures o + x == |j.data| || o + x <= o + re < |j.data|
    ensures o + x == |j.data| ==> re == x && Unterminated(j, o)
    ensures o + x < |j.data| ==> forall i :: o + x <= i <= o + re ==> j.cfg.IsTerm(j.data[i])
  {
    DelimIsNotTerm(j.cfg, s, x);
    BoundIsInInput(j, o, s, x);
    BoundIsInInput(j, o, s, re);
    if o + x < |j.data| && o + re == |j.data| {
      TermBeforeEnd(j, o, s, re - 1);
      assert false;
    }
    if o + x < |j.data| {
      forall i | o + x <= i <= o + re ensures j.cfg.IsTerm(j.data[i]) {
        assert Term(j.cfg, s, i - o);
      }
    }
  }

  lemma TermBeforeEnd(j: Job, o: nat, s: seq<byte>, i: nat)
    requires Shows(j, o, s) && o + i + 1 == |j.data| && Term(j.cfg, s, i)
    ensures !Unterminated(j, o)
  {
  }

  /** A field's bytes bring the scan to its end, out of quotes and with its content in hand. */
  lemma AtStop(j: Job, o: nat, s: seq<byte>, a: nat, x: nat, re: nat, bnd: nat, f: Flight, last: Option<nat>) returns (g: Flight)
    requires Supported(j.cfg) && Shows(j, o, s) && Segment(j.cfg, s, a, x, re)
    requires f.state.FieldStart? && f.cur == []
    ensures o + x <= |j.data|
    ensures Scan(j, o + a, bnd, f, last) == Scan(j, o + x, bnd, g, last)
    ensures g.fields == f.fields && g.recordIn == f.recordIn && g.cur == Content(j.cfg, s, a, x)
    ensures OutOfQuotes(g.state) && !g.state.RecordStart?
  {
    BoundIsInInput(j, o, s, x);
    SegmentInRange(j.cfg, s, a, x, re);
    StartsClean(j.cfg, s, a);
    OutsideAtX(j.cfg, s, x);
    KeptAtEnd(j.cfg, s, a, x);
    InteriorStates(j.cfg, s, a, x);
    g := f.(state := InnerState(j.cfg, s, a, x), cur := KeptBefore(j.cfg, s, a, x));
    assert forall k :: a <= k < x ==> !Delim(j.cfg, s, k) && !Term(j.cfg, s, k);
    assert Starts(j.cfg, s, a);
    hide *;
    ContentScan(j, o, s, a, x, bnd, f, last);
  }

  /** A field that ends at a terminator closes the record. */
  lemma TermScan(j: Job, o: nat, s: seq<byte>, a: nat, x: nat, re: nat, bnd: nat, f: Flight, last: Option<nat>)
    requires Supported(j.cfg) && Shows(j, o, s) && Segment(j.cfg, s, a, x, re) && Term(j.cfg, s, x)
    requires f.state.FieldStart? && f.cur == []
    ensures o + x == |j.data| || o + x <= o + re < |j.data|
    ensures Scan(j, o + a, bnd, f, last) == Closed(j, o, x, re, f.fields + [Content(j.cfg, s, a, x)], f.recordIn, bnd)
  {
    hide *;
    TermInRange(j, o, s, a, x, re);
    var g := AtStop(j, o, s, a, x, re, bnd, f, last);
    if o + x == |j.data| {
      ClosedAtEnd(j, o, x, re, bnd, g.fields + [g.cur], g.recordIn);
      AtTheEnd(j, g, bnd, last);
    } else {
      TermRunScan(j, g, o, x, re, bnd, last);
    }
  }

  lemma ClosedAtEnd(j: Job, o: nat, x: nat, re: nat, bnd: nat, r: Record, recordIn: nat)
    requires o + x == |j.data|
    ensures var v := Verdict(j, r, recordIn); Closed(j, o, x, re, r, recordIn, bnd) == if v.Some? then Err([], v.value) else Ok([r], Some(|j.data|))
  {
  }

  /** A record closed by a run of terminators. */
  lemma TermRunScan(j: Job, g: Flight, o: nat, x: nat, re: nat, bnd: nat, last: Option<nat>)
    requires Supported(j.cfg) && o + x <= o + re < |j.data| && forall i :: o + x <= i <= o + re ==> j.cfg.IsTerm(j.data[i])
    requires OutOfQuotes(g.state) && !g.state.RecordStart?
    ensures Scan(j, o + x, bnd, g, last) == Closed(j, o, x, re, g.fields + [g.cur], g.recordIn, bnd)
  {
    var p, q := o + x, o + re;
    TerminatorByte(j, g, p);
    if p < bnd && p < q {
      RunScan(j, p + 1, q, bnd, Some(p));
    }
  }

  lemma AtTheEnd(j: Job, g: Flight, bnd: nat, last: Option<nat>)
    requires OutOfQuotes(g.state) && !g.state.RecordStart?
    ensures var v := Verdict(j, g.fields + [g.cur], g.recordIn);
            Scan(j, |j.data|, bnd, g, last) == if v.Some? then Err([], v.value) else Ok([g.fields + [g.cur]], Some(|j.data|))
  {
  }

  lemma TerminatorByte(j: Job, g: Flight, pos: nat)
    requires Supported(j.cfg) && pos < |j.data| && j.cfg.IsTerm(j.data[pos])
    requires OutOfQuotes(g.state) && !g.state.RecordStart?
    ensures var v := Verdict(j, g.fields + [g.cur], g.recordIn);
            Step(j, g, pos) == if v.Some? then Fail(v.value) else Close(g.fields + [g.cur])
  {
  }

  /** With no boundary left, the input ends inside the field, and inside quotes. */
  lemma OpenEnd(j: Job, o: nat, s: seq<byte>, a: nat, bnd: nat, f: Flight, last: Option<nat>)
    requires Supported(j.cfg) && Shows(j, o, s) && Starts(j.cfg, s, a) && o + a < |j.data|
    requires forall i :: a <= i < |s| ==> !Delim(j.cfg, s, i) && !Term(j.cfg, s, i)
    requires f.state.FieldStart? && f.cur == []
    ensures Odd(j.cfg, s, |j.data| - o)
    ensures Scan(j, o + a, bnd, f, last) == Err([], UnclosedQuote(f.fieldIn))
  {
    var n := |j.data| - o;
    ShownByte(j, o, s, n - 1);
    assert Odd(j.cfg, s, n) by {
      if j.cfg.IsTerm(s[n - 1]) {
        assert !Term(j.cfg, s, n - 1);
      } else {
        assert !Term(j.cfg, s, n);
        InsideStep(j.cfg, s, n);
      }
    }
    ContentScan(j, o, s, a, n, bnd, f, last);
    InteriorStates(j.cfg, s, a, n);
    hide InnerState, KeptBefore, Shows, Starts, Delim, Term;
  }
}
