/** The search for a chunk's first boundary, against the state a sequential pass is in there. */
module Handoff {
  import opened Dialect
  import opened Dfa
  import opened Records
  import opened Chunk

  /** No cell of the strict table refuses a byte: RFC 4180 quoting, from the record boundary `from` on. */
  ghost predicate WellQuoted(c: Config, data: seq<byte>, from: nat)
    requires from <= |data|
  {
    forall k :: from <= k < |data| ==> !Cell(c.With(Strict), StateAt(c.With(Strict), data, from, k), data[k]).next.Error?
  }

  /** A terminator that ends a comment line, or no comments at all: a comment is over where a record may be. */
  predicate CommentsEnd(c: Config) {
    c.comment.None? || c.terminator.CrLf? || c.terminator == SingleByte(LF)
  }

  lemma NoComments(c: Config)
    requires c.comment.None?
    ensures CommentsEnd(c)
  {
  }

  /** No comment holds a quote. */
  ghost predicate PlainComments(c: Config, data: seq<byte>, from: nat)
    requires from <= |data|
  {
    forall k :: from <= k < |data| && StateAt(c, data, from, k).InComment? ==> !c.IsQuote(data[k])
  }

  /** The assumption that abstracts a state of the table. */
  function Abstract(s: State): Assumption {
    if s.InQuotedField? then AssumeIn
    else if s.InEscapedQuote? then AssumeEscaped
    else AssumeOut
  }

  /** A cell the strict table accepts is the same under every quote handling, and is not tagged. */
  lemma StrictCell(c: Config, s: State, b: byte)
    requires !Cell(c.With(Strict), s, b).next.Error?
    ensures Cell(c, s, b) == Cell(c.With(Strict), s, b) && !Cell(c, s, b).strictError
  {
  }

  predicate Inner(s: State) {
    !s.FieldEnd? && !s.RecordEnd? && !s.Error?
  }

  /** No transition up to `hi` carries the strict tag. */
  ghost predicate Untagged(c: Config, data: seq<byte>, from: nat, hi: nat)
    requires from <= hi <= |data|
  {
    forall k :: from <= k < hi ==> !Cell(c, StateAt(c, data, from, k), data[k]).strictError
  }

  /** The lenient table tags the cells that the strict one refuses, and enters no other state there. */
  lemma TaggedIff(c: Config, s: State, b: byte)
    requires !c.quoteHandling.Strict? && Inner(s)
    ensures Cell(c, s, b).strictError <==> Cell(c.With(Strict), s, b).next.Error?
    ensures Inner(Settle(Cell(c, s, b).next))
  {
  }

  lemma {:induction false} UntaggedStates(c: Config, data: seq<byte>, from: nat, hi: nat)
    requires !c.quoteHandling.Strict? && from <= hi <= |data|
    ensures Inner(StateAt(c, data, from, hi))
    ensures Untagged(c, data, from, hi) ==>
      && StateAt(c, data, from, hi) == StateAt(c.With(Strict), data, from, hi)
      && forall k :: from <= k < hi ==> !Cell(c.With(Strict), StateAt(c.With(Strict), data, from, k), data[k]).next.Error?
    decreases hi
  {
    hide Cell, Inner, Settle;
    if from < hi {
      UntaggedStates(c, data, from, hi - 1);
      TaggedIff(c, StateAt(c, data, from, hi - 1), data[hi - 1]);
      if Untagged(c, data, from, hi) {
        assert Untagged(c, data, from, hi - 1);
        StrictCell(c, StateAt(c, data, from, hi - 1), data[hi - 1]);
      }
    } else {
      StartIsInner();
    }
  }

  lemma StartIsInner()
    ensures Inner(RecordStart)
  {
  }

  /** One table serves both: the input is well quoted exactly if the lenient walk meets no tag. */
  lemma UntaggedIffWellQuoted(c: Config, data: seq<byte>, from: nat)
    requires !c.quoteHandling.Strict? && from <= |data|
    ensures Untagged(c, data, from, |data|) <==> WellQuoted(c, data, from)
  {
    hide Cell;
    UntaggedStates(c, data, from, |data|);
    if WellQuoted(c, data, from) {
      forall k | from <= k < |data| ensures !Cell(c, StateAt(c, data, from, k), data[k]).strictError {
        SameStates(c, data, from, k);
        StrictCell(c, StateAt(c, data, from, k), data[k]);
      }
    }
  }

  /** On well-quoted input every quote handling walks the strict table's states. */
  lemma {:induction false} SameStates(c: Config, data: seq<byte>, from: nat, hi: nat)
    requires from <= hi <= |data| && WellQuoted(c, data, from)
    ensures StateAt(c, data, from, hi) == StateAt(c.With(Strict), data, from, hi)
    decreases hi
  {
    hide Cell;
    if from < hi {
      SameStates(c, data, from, hi - 1);
      StrictCell(c, StateAt(c, data, from, hi - 1), data[hi - 1]);
    }
  }

  /** The state at any offset is abstracted by an assumption the scheduler tries. */
  lemma {:induction false} AssumptionTried(c: Config, data: seq<byte>, from: nat, hi: nat)
    requires from <= hi <= |data| && c.Valid()
    ensures Abstract(StateAt(c, data, from, hi)) in Assumptions(c)
    decreases hi
  {
    if from < hi {
      AssumptionTried(c, data, from, hi - 1);
      var s := StateAt(c, data, from, hi - 1);
      assert Assumptions(c)[0] == AssumeOut;
      if c.quote.Some? {
        assert Assumptions(c)[1] == AssumeIn;
        if c.escape.Some? && !c.Doubled() {
          assert Assumptions(c)[2] == AssumeEscaped;
        }
      }
    }
  }

  /** The search state tracks the true state: equal, or both outside quotes. */
  predicate Tracks(s: State, t: State) {
    s == t || (OutOfQuotes(s) && OutOfQuotes(t))
  }

  ghost predicate FirstEnd(c: Config, data: seq<byte>, from: nat, lo: nat, e: nat)
    requires from <= lo
  {
    lo <= e < |data| && EndsHere(c, data, from, e) && NoEnd(c, data, from, lo, e)
  }

  lemma ToggleCellTracks(c: Config, s: State, t: State, b: byte)
    requires c.Valid() && c.comment.None? && c.quoteHandling.Toggle?
    requires Tracks(s, t) && (OutOfQuotes(t) || InQuotes(t)) && !t.RecordStart?
    ensures var next := Cell(c, t, b).next;
            && !next.Error?
            && (next.RecordEnd? <==> c.IsTerm(b) && OutOfQuotes(s))
            && (next.RecordEnd? || (&& Tracks(Settle(Cell(c, s, b).next), Settle(next))
                                    && (OutOfQuotes(Settle(next)) || InQuotes(Settle(next)))
                                    && !Settle(next).RecordStart?))
  {
  }

  /**
   * Under toggling, the lenient search from any tracking state stops on exactly the
   * terminators a sequential pass ends records on, whatever the quoting.
   */
  lemma {:induction false} LenientFind(c: Config, data: seq<byte>, from: nat, pos: nat, bnd: nat, t: State)
    requires c.Valid() && c.comment.None? && c.quoteHandling.Toggle?
    requires from <= pos <= |data|
    requires Tracks(StateAt(c, data, from, pos), t)
    requires (OutOfQuotes(t) || InQuotes(t)) && !t.RecordStart?
    ensures var r := Find(c, data, pos, bnd, t, false);
            && !r.Refused?
            && (r.At? ==> r.pos < bnd && FirstEnd(c, data, from, pos, r.pos))
            && (r.Nowhere? ==> NoEnd(c, data, from, pos, if bnd < |data| then bnd else |data|))
    decreases |data| - pos
  {
    hide Cell, Tracks, OutOfQuotes, InQuotes;
    if pos < |data| && pos < bnd {
      ToggleCellTracks(c, StateAt(c, data, from, pos), t, data[pos]);
      var next := Cell(c, t, data[pos]).next;
      if !next.RecordEnd? {
        LenientFind(c, data, from, pos + 1, bnd, Settle(next));
      }
    }
  }

  /** The strict probe's search state: equal to the true one, or the field start that stands for it. */
  predicate StandsFor(t: State, s: State) {
    t == s || (t.FieldStart? && OutOfQuotes(s))
  }

  lemma StrictCellStandsFor(c: Config, s: State, t: State, b: byte)
    requires c.Valid() && c.comment.None? && StandsFor(t, s)
    requires !Cell(c.With(Strict), s, b).next.Error?
    requires (OutOfQuotes(t) || InQuotes(t)) && !t.RecordStart?
    ensures var x := Cell(c.With(Toggle), t, b);
            && !x.next.Error? && !x.strictError
            && (x.next.RecordEnd? <==> c.IsTerm(b) && OutOfQuotes(s))
            && (x.next.RecordEnd? || (&& StandsFor(Settle(x.next), Settle(Cell(c, s, b).next))
                                      && (OutOfQuotes(Settle(x.next)) || InQuotes(Settle(x.next)))
                                      && !Settle(x.next).RecordStart?))
  {
    StrictCell(c, s, b);
  }

  /** On well-quoted input the strict probe never refuses the true assumption, and stops on the true first end. */
  lemma {:induction false} StrictFind(c: Config, data: seq<byte>, from: nat, pos: nat, bnd: nat, t: State)
    requires c.Valid() && c.comment.None?
    requires from <= pos <= |data| && WellQuoted(c, data, from)
    requires StandsFor(t, StateAt(c, data, from, pos))
    requires (OutOfQuotes(t) || InQuotes(t)) && !t.RecordStart?
    ensures var r := Find(c.With(Toggle), data, pos, bnd, t, true);
            && !r.Refused?
            && (r.At? ==> r.pos < bnd && FirstEnd(c, data, from, pos, r.pos))
            && (r.Nowhere? ==> NoEnd(c, data, from, pos, if bnd < |data| then bnd else |data|))
    decreases |data| - pos
  {
    hide Cell, StandsFor, OutOfQuotes, InQuotes;
    if pos < |data| && pos < bnd {
      SameStates(c, data, from, pos);
      StrictCellStandsFor(c, StateAt(c, data, from, pos), t, data[pos]);
      var next := Cell(c.With(Toggle), t, data[pos]).next;
      if !next.RecordEnd? {
        StrictFind(c, data, from, pos + 1, bnd, Settle(next));
      }
    }
  }

  lemma InitialStandsFor(c: Config, s: State)
    requires c.Valid() && (OutOfQuotes(s) || InQuotes(s))
    requires Abstract(s) in Assumptions(c)
    ensures var t := InitialState(c, Abstract(s));
            StandsFor(t, s) && Tracks(s, t) && (OutOfQuotes(t) || InQuotes(t)) && !t.RecordStart?
  {
  }

  /** A well-quoted walk never errs. */
  lemma {:induction false} WellQuotedInterior(c: Config, data: seq<byte>, from: nat, hi: nat)
    requires c.comment.None? && from <= hi <= |data| && WellQuoted(c, data, from)
    ensures var s := StateAt(c, data, from, hi); OutOfQuotes(s) || InQuotes(s)
    decreases hi
  {
    hide Cell;
    if from < hi {
      SameStates(c, data, from, hi - 1);
      SameStates(c, data, from, hi);
      Interior(c, data, from, hi);
    }
  }

  /**
   * The strict search under the assumption that abstracts the true state at a chunk's start
   * finds the record end a sequential pass would hand over there.
   */
  lemma TrueAssumptionFinds(c: Config, data: seq<byte>, from: nat, start: nat, bnd: nat, e: nat)
    requires c.Valid() && c.comment.None?
    requires from <= start <= |data| && WellQuoted(c, data, from)
    requires FirstEnd(c, data, from, start, e) && e < bnd
    ensures var a := Abstract(StateAt(c, data, from, start));
            && a in Assumptions(c)
            && Find(c.With(Toggle), data, start, bnd, InitialState(c, a), true) == At(e)
  {
    WellQuotedInterior(c, data, from, start);
    AssumptionTried(c, data, from, start);
    InitialStandsFor(c, StateAt(c, data, from, start));
    StrictFind(c, data, from, start, bnd, InitialState(c, Abstract(StateAt(c, data, from, start))));
  }

  /** With comments: the search reads them as fields. */
  predicate ReadsAs(t: State, s: State) {
    StandsFor(t, s) || (s.InComment? && (t.FieldStart? || t.InField?))
  }

  lemma CellReadsAs(c: Config, s: State, t: State, b: byte)
    requires c.Valid() && CommentsEnd(c) && ReadsAs(t, s) && (s.InComment? ==> c.comment.Some? && !c.IsQuote(b))
    requires !Cell(c.With(Strict), s, b).next.Error?
    requires (OutOfQuotes(t) || InQuotes(t)) && !t.RecordStart?
    ensures var x := Cell(c.With(Toggle), t, b);
            && !x.next.Error? && !x.strictError && (c.IsTerm(b) && OutOfQuotes(s) ==> x.next.RecordEnd?)
            && (x.next.RecordEnd? || (&& ReadsAs(Settle(x.next), Settle(Cell(c, s, b).next))
                                      && (OutOfQuotes(Settle(x.next)) || InQuotes(Settle(x.next)))
                                      && !Settle(x.next).RecordStart?))
  {
    StrictCell(c, s, b);
  }

  lemma QuotedWell(c: Config, data: seq<byte>, from: nat, k: nat)
    requires from <= k < |data| && WellQuoted(c, data, from) && PlainComments(c, data, from)
    ensures !Cell(c.With(Strict), StateAt(c, data, from, k), data[k]).next.Error?
    ensures StateAt(c, data, from, k).InComment? ==> c.comment.Some? && !c.IsQuote(data[k])
  {
    SameStates(c, data, from, k);
    Interior(c, data, from, k);
    hide Cell, StateAt;
  }

  lemma EndIs(c: Config, data: seq<byte>, from: nat, e: nat)
    requires from <= e < |data| && EndsHere(c, data, from, e)
    ensures c.IsTerm(data[e]) && OutOfQuotes(StateAt(c, data, from, e))
  {
  }

  lemma WalksOn(c: Config, data: seq<byte>, from: nat, k: nat)
    requires from <= k < |data|
    ensures StateAt(c, data, from, k + 1) == Settle(Cell(c, StateAt(c, data, from, k), data[k]).next)
  {
  }

  lemma FindStep(c: Config, data: seq<byte>, pos: nat, bnd: nat, t: State)
    requires pos < |data| && pos < bnd
    ensures var x := Cell(c, t, data[pos]);
            !x.next.Error? && !x.strictError ==>
              Find(c, data, pos, bnd, t, true) == if x.next.RecordEnd? then At(pos) else Find(c, data, pos + 1, bnd, Settle(x.next), true)
  {
    hide Cell;
  }

  /** On well-quoted input with plain comments the strict search stops by the next record end. */
  lemma {:induction false} StrictStops(c: Config, data: seq<byte>, from: nat, pos: nat, bnd: nat, t: State, e: nat)
    requires c.Valid() && CommentsEnd(c) && from <= pos <= e < |data| && e < bnd
    requires WellQuoted(c, data, from) && PlainComments(c, data, from) && EndsHere(c, data, from, e)
    requires ReadsAs(t, StateAt(c, data, from, pos)) && (OutOfQuotes(t) || InQuotes(t)) && !t.RecordStart?
    ensures var r := Find(c.With(Toggle), data, pos, bnd, t, true); r.At? && r.pos <= e
    decreases e - pos
  {
    hide *;
    QuotedWell(c, data, from, pos);
    EndIs(c, data, from, e);
    WalksOn(c, data, from, pos);
    CellReadsAs(c, StateAt(c, data, from, pos), t, data[pos]);
    FindStep(c.With(Toggle), data, pos, bnd, t);
    var next := Cell(c.With(Toggle), t, data[pos]).next;
    if !next.RecordEnd? {
      StrictStops(c, data, from, pos + 1, bnd, Settle(next), e);
    }
  }

  lemma InitialReadsAs(c: Config, s: State)
    requires c.Valid() && (OutOfQuotes(s) || InQuotes(s) || s.InComment?) && Abstract(s) in Assumptions(c)
    ensures var t := InitialState(c, Abstract(s)); ReadsAs(t, s) && (OutOfQuotes(t) || InQuotes(t)) && !t.RecordStart?
  {
  }

  /** A well-quoted walk never errs, with comments either. */
  lemma {:induction false} WellQuotedWalk(c: Config, data: seq<byte>, from: nat, hi: nat)
    requires from <= hi <= |data| && WellQuoted(c, data, from)
    ensures var s := StateAt(c, data, from, hi); OutOfQuotes(s) || InQuotes(s) || s.InComment?
    decreases hi
  {
    hide Cell;
    if from < hi {
      SameStates(c, data, from, hi - 1);
      SameStates(c, data, from, hi);
      Interior(c, data, from, hi);
    }
  }

  /**
   * Comments included: the strict search under the assumption that abstracts the true state at a
   * chunk's start finds a boundary at or before any record end in the chunk.
   */
  lemma TrueAssumptionStops(c: Config, data: seq<byte>, from: nat, start: nat, bnd: nat, e: nat)
    requires c.Valid() && CommentsEnd(c) && from <= start <= e < |data| && e < bnd
    requires WellQuoted(c, data, from) && PlainComments(c, data, from) && EndsHere(c, data, from, e)
    ensures var a := Abstract(StateAt(c, data, from, start));
            && a in Assumptions(c)
            && var r := Find(c.With(Toggle), data, start, bnd, InitialState(c, a), true); r.At? && r.pos <= e
  {
    WellQuotedWalk(c, data, from, start);
    AssumptionTried(c, data, from, start);
    InitialReadsAs(c, StateAt(c, data, from, start));
    StrictStops(c, data, from, start, bnd, InitialState(c, Abstract(StateAt(c, data, from, start))), e);
  }

  /**
   * Handoff agreement: under toggling, whatever the quoting, the record end a pass hands over
   * is what the lenient search finds in the later chunk `[from, next)` that holds it, however
   * many chunks the record spans; in those before, and if the pass ran to the end of the input,
   * the search finds nothing.
   */
  lemma HandoffAgreement(j: Job, start: nat, bnd: nat, from: nat, next: nat)
    requires j.cfg.Valid() && j.cfg.comment.None? && j.cfg.quoteHandling.Toggle?
    requires start <= |j.data| && bnd <= |j.data|
    ensures var o := Body(j, start, bnd);
            o.Ok? && o.end.Some? && start < bnd <= from <= o.end.value <= |j.data| ==>
              var a := Abstract(StateAt(j.cfg, j.data, start, from));
              && a in Assumptions(j.cfg)
              && Locate(j, from, next, a, FindLenient) ==
                   if o.end.value < next && o.end.value < |j.data| then At(o.end.value) else Nowhere
  {
    var c, data := j.cfg, j.data;
    assert c.With(Toggle) == c;
    if start < bnd <= from <= |data| {
      BodyIsScan(j, start, bnd);
      StopsAtFirstEnd(j, start, start, bnd, Fresh(start), None);
      AssumptionTried(c, data, start, from);
      ToggleInterior(c, data, start, from);
      InitialStandsFor(c, StateAt(c, data, start, from));
      LenientFind(c, data, start, from, next, InitialState(c, Abstract(StateAt(c, data, start, from))));
    }
  }

  lemma {:induction false} ToggleInterior(c: Config, data: seq<byte>, from: nat, hi: nat)
    requires c.comment.None? && c.quoteHandling.Toggle? && from <= hi <= |data|
    ensures var s := StateAt(c, data, from, hi); OutOfQuotes(s) || InQuotes(s)
    decreases hi
  {
    if from < hi {
      ToggleInterior(c, data, from, hi - 1);
    }
  }
}
