/** The searches for a chunk's first boundary, said without the table they run. */
module Search {
  import opened Dialect
  import opened Dfa
  import opened Chunk
  import opened Handoff

  /** Inside or outside quotes, or behind an escape byte: every quote toggles, whatever the dialect's handling. */
  function Turn(c: Config, a: Assumption, b: byte): Assumption {
    match a
    case AssumeOut => if c.IsQuote(b) then AssumeIn else AssumeOut
    case AssumeIn =>
      if c.escape == Some(b) && !c.Doubled() then AssumeEscaped
      else if c.IsQuote(b) then AssumeOut
      else AssumeIn
    case AssumeEscaped => AssumeIn
  }

  /** The first terminator outside quotes, if `pos` is as `a` has it. */
  function FirstOutside(c: Config, data: seq<byte>, pos: nat, bnd: nat, a: Assumption): Found
    requires pos <= |data|
    decreases |data| - pos
  {
    if pos == |data| || bnd <= pos then Nowhere
    else if a.AssumeOut? && c.IsTerm(data[pos]) then At(pos)
    else FirstOutside(c, data, pos + 1, bnd, Turn(c, a, data[pos]))
  }

  /** The table's states that an assumption covers. */
  predicate Covers(a: Assumption, s: State) {
    match a
    case AssumeOut => OutOfQuotes(s) && !s.RecordStart?
    case AssumeIn => s.InQuotedField?
    case AssumeEscaped => s.InEscapedQuote?
  }

  lemma TurnCovers(c: Config, a: Assumption, s: State, b: byte)
    requires c.Valid() && c.quoteHandling.Toggle? && Covers(a, s)
    ensures var next := Cell(c, s, b).next;
            && !next.Error? && (next.RecordEnd? <==> a.AssumeOut? && c.IsTerm(b))
            && (!next.RecordEnd? ==> Covers(Turn(c, a, b), Settle(next)))
  {
  }

  lemma {:induction false} FindIsFirstOutside(c: Config, data: seq<byte>, pos: nat, bnd: nat, a: Assumption, s: State)
    requires c.Valid() && c.quoteHandling.Toggle? && pos <= |data| && Covers(a, s)
    ensures Find(c, data, pos, bnd, s, false) == FirstOutside(c, data, pos, bnd, a)
    decreases |data| - pos
  {
    hide Cell, Covers, Turn;
    if pos < |data| && pos < bnd {
      TurnCovers(c, a, s, data[pos]);
      var next := Cell(c, s, data[pos]).next;
      if !next.RecordEnd? {
        FindIsFirstOutside(c, data, pos + 1, bnd, Turn(c, a, data[pos]), Settle(next));
      }
    }
  }

  lemma {:induction false} SameOutside(c: Config, data: seq<byte>, pos: nat, bnd: nat, a: Assumption)
    requires pos <= |data|
    ensures FirstOutside(c.With(Toggle), data, pos, bnd, a) == FirstOutside(c, data, pos, bnd, a)
    decreases |data| - pos
  {
    if pos < |data| {
      SameOutside(c, data, pos + 1, bnd, Turn(c, a, data[pos]));
    }
  }

  /** Under every quote handling the lenient search finds the first terminator that its assumption leaves outside quotes. */
  lemma LenientIsFirstOutside(j: Records.Job, start: nat, bnd: nat, a: Assumption)
    requires j.cfg.Valid() && start <= |j.data| && a in Assumptions(j.cfg)
    ensures Locate(j, start, bnd, a, FindLenient) == FirstOutside(j.cfg, j.data, start, bnd, a)
  {
    FindIsFirstOutside(j.cfg.With(Toggle), j.data, start, bnd, a, InitialState(j.cfg, a));
    SameOutside(j.cfg, j.data, start, bnd, a);
  }

  /** The probe on the toggling table refuses and finds what the strict dialect's own table does. */
  lemma {:induction false} ProbeIsStrict(c: Config, data: seq<byte>, pos: nat, bnd: nat, s: State)
    requires pos <= |data| && Inner(s)
    ensures Find(c.With(Toggle), data, pos, bnd, s, true) == Find(c.With(Strict), data, pos, bnd, s, false)
    decreases |data| - pos
  {
    hide Cell, Inner, Settle;
    if pos < |data| && pos < bnd {
      var t := c.With(Toggle);
      assert t.With(Strict) == c.With(Strict);
      TaggedIff(t, s, data[pos]);
      if !Cell(c.With(Strict), s, data[pos]).next.Error? {
        StrictCell(t, s, data[pos]);
        ProbeIsStrict(c, data, pos + 1, bnd, Settle(Cell(t, s, data[pos]).next));
      }
    }
  }

  /** Under every quote handling the strict search is the strict dialect's search for a record end. */
  lemma StrictIsStrictDialect(j: Records.Job, start: nat, bnd: nat, a: Assumption)
    requires start <= |j.data|
    ensures Locate(j, start, bnd, a, FindStrict) == Find(j.cfg.With(Strict), j.data, start, bnd, InitialState(j.cfg, a), false)
  {
    ProbeIsStrict(j.cfg, j.data, start, bnd, InitialState(j.cfg, a));
  }
}
