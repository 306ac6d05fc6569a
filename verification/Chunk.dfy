/** One chunk parsed under one assumption about the quote state it opens in. */
module Chunk {
  import opened Dialect
  import opened Dfa
  import opened Records

  datatype Assumption = AssumeOut | AssumeIn | AssumeEscaped

  datatype FindMode = FindStrict | FindLenient | FindNone | SkipHeaders

  /** The assumptions worth trying, in priority order. */
  function Assumptions(c: Config): seq<Assumption> {
    if c.quote.None? then [AssumeOut]
    else if c.escape.None? || c.Doubled() then [AssumeOut, AssumeIn]
    else [AssumeOut, AssumeIn, AssumeEscaped]
  }

  function InitialState(c: Config, a: Assumption): State {
    match a
    case AssumeOut => FieldStart
    case AssumeIn => InQuotedField
    case AssumeEscaped => if c.Doubled() then AfterClosingQuote else InEscapedQuote
  }

  datatype Found = At(pos: nat) | Nowhere | Refused(at: nat)

  /** The first record end in `[pos, bnd)`, starting in state `s`; `probe` also refuses cells tagged strict. */
  function Find(c: Config, data: seq<byte>, pos: nat, bnd: nat, s: State, probe: bool): Found
    requires pos <= |data|
    decreases |data| - pos
  {
    if pos == |data| || bnd <= pos then Nowhere
    else
      var t := Cell(c, s, data[pos]);
      if t.next.Error? || (probe && t.strictError) then Refused(pos)
      else if t.next.RecordEnd? then At(pos)
      else Find(c, data, pos + 1, bnd, Settle(t.next), probe)
  }

  lemma {:induction false} FindInRange(c: Config, data: seq<byte>, pos: nat, bnd: nat, s: State, probe: bool)
    requires pos <= |data|
    ensures var r := Find(c, data, pos, bnd, s, probe);
            && (r.At? ==> pos <= r.pos < |data| && r.pos < bnd)
            && (r.At? && c.Valid() ==> c.IsTerm(data[r.pos]))
    decreases |data| - pos
  {
    if pos < |data| && pos < bnd {
      FindInRange(c, data, pos + 1, bnd, Settle(Cell(c, s, data[pos]).next), probe);
    }
  }

  /** Skip bare terminators; the flag says the run reached the chunk boundary. */
  function SkipBlank(c: Config, data: seq<byte>, pos: nat, bnd: nat): (r: (nat, bool))
    requires pos <= |data|
    ensures pos <= r.0 <= |data|
    decreases |data| - pos
  {
    if pos == |data| || !c.IsTerm(data[pos]) then (pos, false)
    else if bnd <= pos then (pos, true)
    else SkipBlank(c, data, pos + 1, bnd)
  }

  /** Parse from a known record boundary: skip blank lines, then run the records. */
  function Body(j: Job, start: nat, bnd: nat): Outcome
    requires start <= |j.data|
  {
    var (p, outlasts) := SkipBlank(j.cfg, j.data, start, bnd);
    if outlasts then Ok([], Some(p)) else Scan(j, p, bnd, Fresh(p), None)
  }

  /** Skipping blank lines first changes nothing: the record-start state skips them too. */
  lemma {:induction false} BodyIsScan(j: Job, start: nat, bnd: nat)
    requires start <= |j.data|
    ensures Body(j, start, bnd) == Scan(j, start, bnd, Fresh(start), None)
    decreases |j.data| - start
  {
    if start < |j.data| && j.cfg.IsTerm(j.data[start]) && start < bnd {
      BodyIsScan(j, start + 1, bnd);
      AnchorIrrelevant(j, start + 1, bnd, Fresh(start), Fresh(start + 1), None);
    }
  }

  datatype PassResult = NoRecord | Failed(failure: Failure) | Started(start: nat, outcome: Outcome)

  function FromFound(j: Job, r: Found, bnd: nat): PassResult
    requires r.At? ==> r.pos <= |j.data|
  {
    match r
    case At(p) => Started(p, Body(j, p, bnd))
    case Nowhere => NoRecord
    case Refused(at) => Failed(InvalidQuote(at))
  }

  /** Where the search for the chunk's first record boundary ends. */
  function Locate(j: Job, start: nat, bnd: nat, a: Assumption, mode: FindMode): (r: Found)
    requires start <= |j.data|
    ensures r.At? ==> r.pos <= |j.data|
  {
    var toggled := j.cfg.With(Toggle);
    match mode
    case FindNone => At(start)
    case SkipHeaders =>
      FindInRange(j.cfg, j.data, start, bnd, RecordStart, false);
      Find(j.cfg, j.data, start, bnd, RecordStart, false)
    case FindStrict =>
      FindInRange(toggled, j.data, start, bnd, InitialState(j.cfg, a), true);
      Find(toggled, j.data, start, bnd, InitialState(j.cfg, a), true)
    case FindLenient =>
      FindInRange(toggled, j.data, start, bnd, InitialState(j.cfg, a), false);
      Find(toggled, j.data, start, bnd, InitialState(j.cfg, a), false)
  }

  function Parse(j: Job, start: nat, bnd: nat, a: Assumption, mode: FindMode): PassResult
    requires start <= |j.data|
  {
    FromFound(j, Locate(j, start, bnd, a, mode), bnd)
  }
}
