/** The bit-parallel chunk parser end to end, against the table. */
module SimdParser {
  import opened Dialect
  import opened Dfa
  import opened Records
  import opened Handed
  import opened Chunk
  import opened Segments
  import opened RecordWalk
  import opened Index
  import opened LiveIndex
  import opened Ledger
  import opened BadRecord
  import opened Stepper
  import opened FindStart
  import opened SimdStepper
  import opened SimdDriver
  import opened Utf8
  import opened FieldText
  import opened Answer
  import opened Driver
  import opened ChunkParser

  /** The search past the header record, blank lines first. */
  lemma {:induction false} HeadersAgree(c: Config, data: seq<byte>, start: nat, bnd: nat)
    requires c.comment.None? && start <= |data|
    ensures var p := SkipBlank(c, data, start, bnd).0;
            Find(c, data, start, bnd, RecordStart, false) == Find(c, data, p, bnd, FieldStart, false)
    decreases |data| - start
  {
    if start < |data| && c.IsTerm(data[start]) && start < bnd {
      HeadersAgree(c, data, start + 1, bnd);
    }
  }

  /** Where the bit-parallel search for the chunk's first record boundary ends. */
  function VectorLocate(c: Config, data: seq<byte>, start: nat, bnd: nat, a: Assumption, mode: FindMode): Found
    requires start <= |data|
  {
    match mode
    case FindNone => At(start)
    case SkipHeaders =>
      var p := SkipBlank(c, data, start, bnd).0;
      FirstHit(c, data, p, false, false, p, bnd)
    case FindStrict => FirstHit(c, data, start, InitialCarry(c, a), true, start, bnd)
    case FindLenient => FirstHit(c, data, start, InitialCarry(c, a), false, start, bnd)
  }

  /**
   * It is where the table's search ends; a strict one without an escape may go on where the table
   * refuses, and does so exactly when some pair of adjacent quotes has no hit before it.
   */
  lemma LocatesAgree(j: Job, start: nat, bnd: nat, a: Assumption, mode: FindMode)
    requires Supported(j.cfg) && start <= |j.data| && a in Assumptions(j.cfg)
    ensures var v, t := VectorLocate(j.cfg, j.data, start, bnd, a, mode), Locate(j, start, bnd, a, mode);
            && (mode != FindStrict || j.cfg.quote.None? || j.cfg.Doubled() ==> v == t)
            && (t.At? ==> v == t)
            && (mode == FindStrict && j.cfg.quote.Some? && j.cfg.escape.None? ==>
                  (v == t <==> PairsBehindHits(j.cfg, j.data, start, InitialCarry(j.cfg, a), start, bnd)))
  {
    hide Find, FirstHit, SkipBlank, TermAt, BadAt, InQuotesAt, StateBefore, PairsBehindHits;
    var c, data := j.cfg, j.data;
    assert c.With(Toggle) == c;
    match mode
    case FindNone =>
    case SkipHeaders =>
      HeadersAgree(c, data, start, bnd);
      SearchesAgree(c, data, SkipBlank(c, data, start, bnd).0, AssumeOut, bnd, false);
    case FindLenient => SearchesAgree(c, data, start, a, bnd, false);
    case FindStrict =>
      if c.quote.None? || c.Doubled() {
        SearchesAgree(c, data, start, a, bnd, true);
      } else {
        StartState(c, data, start, a);
        StrictWithoutEscape(c, data, start, InitialCarry(c, a), start, bnd);
        StrictIsStricter(c, data, start, InitialCarry(c, a), start, bnd);
      }
  }

  const UNESCAPED: Config := Config(44, SingleByte(LF), Some(34), None, None, Toggle, Some(1))

  /** The bytes `"a""b"` and a line feed. */
  const PAIR: seq<byte> := [34, 97, 34, 34, 98, 34, LF]

  /** An input on which the strict searches differ: the table refuses the pair of quotes, the vectors read on to the line's end. */
  lemma StrictSearchesDiffer(accept: Record -> bool)
    ensures Supported(UNESCAPED) && AssumeOut in Assumptions(UNESCAPED)
    ensures Locate(Job(UNESCAPED, PAIR, accept), 0, 7, AssumeOut, FindStrict) == Refused(3)
    ensures VectorLocate(UNESCAPED, PAIR, 0, 7, AssumeOut, FindStrict) == At(6)
  {
    var c := UNESCAPED;
    assert c.With(Toggle) == c;
    assert Find(c, PAIR, 3, 7, AfterClosingQuote, true) == Refused(3);
    assert Find(c, PAIR, 2, 7, InQuotedField, true) == Refused(3);
    assert Find(c, PAIR, 1, 7, InQuotedField, true) == Refused(3);
    PairHits();
  }

  lemma PairHits()
    ensures FirstHit(UNESCAPED, PAIR, 0, false, true, 0, 7) == At(6)
  {
    var c := UNESCAPED;
    ParityStep(c, PAIR, 0, false, 0);
    ParityStep(c, PAIR, 0, false, 1);
    ParityStep(c, PAIR, 0, false, 2);
    ParityStep(c, PAIR, 0, false, 3);
    ParityStep(c, PAIR, 0, false, 4);
    ParityStep(c, PAIR, 0, false, 5);
    hide InQuotesAt, FirstHit;
    assert !InQuotesAt(c, PAIR, 0, false, 0) && InQuotesAt(c, PAIR, 0, false, 1) && InQuotesAt(c, PAIR, 0, false, 2);
    assert !InQuotesAt(c, PAIR, 0, false, 3) && InQuotesAt(c, PAIR, 0, false, 4) && InQuotesAt(c, PAIR, 0, false, 5) && !InQuotesAt(c, PAIR, 0, false, 6);
    assert TermAt(c, PAIR, 0, false, 6);
    forall p: nat | p < 6 ensures !Hit(c, PAIR, 0, false, true, p) {
    }
    HitAt(c, PAIR, 0, false, 0, 7, 6);
  }

  /** The first hit is where the search stops. */
  lemma {:induction false} HitAt(c: Config, data: seq<byte>, from: nat, inside: bool, p: nat, bnd: nat, x: nat)
    requires from <= p <= x < |data| && x < bnd && TermAt(c, data, from, inside, x)
    requires forall i :: p <= i < x ==> !Hit(c, data, from, inside, true, i)
    ensures FirstHit(c, data, from, inside, true, p, bnd) == At(x)
    decreases x - p
  {
    hide TermAt, BadAt;
    if p < x {
      assert !Hit(c, data, from, inside, true, p);
      HitAt(c, data, from, inside, p + 1, bnd, x);
    }
  }

  lemma StartState(c: Config, data: seq<byte>, from: nat, a: Assumption)
    requires from <= |data| && !a.AssumeEscaped?
    ensures StateBefore(c, data, from, InitialCarry(c, a), from) == InitialState(c, a)
  {
    StartRemembered(c, data, from, InitialCarry(c, a));
    hide InQuotesAt;
  }

  /** What the table's strict search finds without an escape, the vectors find too. */
  lemma {:induction false} StrictIsStricter(c: Config, data: seq<byte>, from: nat, inside: bool, p: nat, bnd: nat)
    requires Supported(c) && from <= p <= |data|
    requires p > from ==> !TermAt(c, data, from, inside, p - 1)
    ensures var t := Find(c, data, p, bnd, StateBefore(c, data, from, inside, p), true);
            t.At? ==> FirstHit(c, data, from, inside, true, p, bnd) == t
    decreases |data| - p
  {
    hide StateBefore, Cell, Settle, BadAt;
    if p < |data| && p < bnd {
      SearchByte(c, data, from, inside, p);
      if !TermAt(c, data, from, inside, p) {
        StrictIsStricter(c, data, from, inside, p + 1, bnd);
      }
    }
  }

  /** The parser for one dialect that the vectors support. */
  class SimdChunkParser {
    const cfg: Config
    /** Whether the processor extracts bits in one instruction. */
    const fastPext: bool

    constructor (c: Config, fastPext: bool)
      requires Supported(c)
      ensures cfg == c
    {
      cfg, this.fastPext := c, fastPext;
    }

    /** What the constructor demands of a dialect the configuration's own validation accepts. */
    static predicate Supports(c: Config)
      ensures Supports(c) && c.Valid() <==> Supported(c)
    {
      && c.fieldCount.Some? && 1 <= c.fieldCount.value <= 63
      && c.comment.None? && c.quoteHandling.Toggle?
      && !(c.quote.Some? && c.escape.Some? && c.escape != c.quote)
    }

    method Scan(reader: ChunkReader, a: Assumption, mode: FindMode, ghost data: seq<byte>) returns (r: Found)
      requires Supported(cfg) && reader.Valid() && reader.mem[..] == data
      modifies reader`base, reader`filled
      ensures reader.Valid() && old(reader.base) <= reader.base
      ensures r == old(VectorLocate(cfg, data, reader.base, reader.chunkEnd, a, mode))
      ensures r.At? ==> reader.base == r.pos
    {
      hide FirstHit, SkipBlank;
      match mode
      case FindNone => r := At(reader.base);
      case SkipHeaders =>
        // A leading blank line is not the header.
        var leading, outlasts := SkipEmptyLines(cfg, reader, data);
        r := FindStart.FindRecordStart(cfg, reader, AssumeOut, false, data);
      case FindStrict => r := FindStart.FindRecordStart(cfg, reader, a, true, data);
      case FindLenient => r := FindStart.FindRecordStart(cfg, reader, a, false, data);
    }

    /** Parse records from where the reader stands, not on a blank line. */
    method ParseFrom(reader: ChunkReader, accept: Record -> bool, text: bool, ghost j: Job) returns (r: DriverResult, ghost v: nat)
      requires Supported(cfg) && j.cfg == cfg && j.accept == accept && reader.Valid() && reader.mem[..] == j.data
      requires reader.chunkEnd <= |j.data| && |j.data| + 192 <= WORD
      requires reader.base < |j.data| ==> !cfg.IsTerm(j.data[reader.base])
      modifies reader, reader.mem
      ensures Settles(j, text, old(reader.base), reader.chunkEnd, r, v)
    {
      hide *;
      ReaderIs(reader);
      var start := reader.base;
      IsFed(j, start);
      var driver := new ChunkDriver(reader, start);
      var st := Choose(cfg, accept, fastPext, j, start);
      EmptyIsChecked(text, j.data, start);
      IsWaiting(driver, st, j, text, start);
      r, v := SimdDriver.Run(driver, st, j, text, start);
    }

    /**
     * Parse a chunk under one assumption, whatever the refill schedule and wherever the buffer
     * lies. The answer fits the table's, text is validated as far as records are handed out, and
     * an arity failure is placed on the first record with another number of fields.
     */
    method Parse(data: seq<byte>, start: nat, bnd: nat, a: Assumption, mode: FindMode, accept: Record -> bool, text: bool)
      returns (r: PassResult)
      requires Supported(cfg) && start <= |data| && bnd <= |data| && |data| + 192 <= WORD && (text ==> cfg.AsciiControls())
      ensures var found := VectorLocate(cfg, data, start, bnd, a, mode);
              if found.Nowhere? then r == NoRecord
              else if found.Refused? then r == PassResult.Failed(InvalidQuote(found.at))
              else
                && r.Started? && r.start == found.pos <= |data| && Fits(Job(cfg, data, accept), text, r.start, bnd, r.outcome)
                && (r.outcome.Err? ==> Placed(Job(cfg, data, accept), SkipBlank(cfg, data, r.start, bnd).0, r.outcome.failure))
    {
      hide *;
      ghost var j := Job(cfg, data, accept);
      var reader := new ChunkReader(data, start, bnd);
      SupportedIsValid(cfg);
      ReaderIs(reader);
      var found := Scan(reader, a, mode, data);
      match found {
        case Nowhere => return NoRecord;
        case Refused(at) => return PassResult.Failed(InvalidQuote(at));
        case At(recordStart) =>
          ReaderIs(reader);
          var skipped, outlasts := SkipEmptyLines(cfg, reader, data);
          ReaderIs(reader);
          BodyFrom(j, recordStart, bnd);
          if outlasts {
            NothingOut(text, j, Ok([], Some(recordStart + skipped)));
            IsFit(j, text, recordStart, bnd, Ok([], Some(recordStart + skipped)), recordStart + skipped + 1);
            return Started(recordStart, Ok([], Some(recordStart + skipped)));
          }
          ghost var bodyStart := reader.base;
          var o;
          ghost var v;
          o, v := ParseFrom(reader, accept, text, j);
          var outcome := AsOutcome(o);
          SettledFits(j, text, recordStart, bodyStart, v, bnd, o);
          return Started(recordStart, outcome);
      }
    }
  }

  lemma IsFed(j: Job, o: nat)
    requires Supported(j.cfg) && o <= |j.data| && (o < |j.data| ==> !j.cfg.IsTerm(j.data[o]))
    ensures Feeds(j, o, 0, Shown(j, o, 0))
  {
    hide Supported, Shown;
  }

  lemma IsWaiting(d: ChunkDriver, st: AnyStepper, j: Job, text: bool, start: nat)
    requires st.Frame() !! {d, d.reader, d.reader.mem} && d.reader.Valid() && d.totalConsumed == d.reader.base == start
    requires d.validated == d.resumeAt == 0 && d.reader.chunkEnd <= |j.data| && d.reader.mem[..] == j.data && |j.data| + 192 <= WORD
    requires st.Resting(j, start, 0, j.data) && start <= |j.data| && Checked(text, j.data, start, start)
    ensures Waits(d, st, j, text, start) && Short(d, st)
  {
    hide Checked, AnyStepper.Resting;
  }

  function AsOutcome(r: DriverResult): Outcome {
    match r
    case Parsed(o) => o
    case BadUtf8(records, at) => Err(records, IllFormed(at))
  }

  lemma SettledFits(j: Job, text: bool, start: nat, p: nat, v: nat, bnd: nat, r: DriverResult)
    requires start <= p <= |j.data| && Settles(j, text, p, bnd, r, v) && (text ==> WellFormed(j.data[start..p]))
    requires Body(j, start, bnd) == Records.Scan(j, p, bnd, Fresh(p), None) && Records.Rest(j, p) == Records.Rest(j, start)
    ensures var o := AsOutcome(r); Fits(j, text, start, bnd, o) && (o.Err? ==> Placed(j, p, o.failure))
  {
    hide *;
    var o := AsOutcome(r);
    SettlesIs(j, text, p, bnd, r, v);
    RemainsIs(j, p, 0, bnd, None);
    RestIs(j, p);
    RecordsOfRest(j, p, bnd, Fresh(p), None, None);
    if o.Ok? {
      if text { VouchedWithBlanks(j.data, start, p, v, bnd, o.end); }
    } else {
      if r.BadUtf8? {
        StuckBehind(j.data, start, p, o.failure.at);
        StuckIsBad(j.data, start, o.failure.at);
        IsPlaced(j, p, o.failure);
      } else {
        FoundersIs(j, p, 0, None, bnd, o.records, o.failure);
        IsBrokenOff(Remains(j, p, 0, bnd, None), o.records, o.failure);
      }
      Shorter(o.records, Remains(j, p, 0, bnd, None).records, Records.Rest(j, p).records);
    }
    IsFit(j, text, start, bnd, o, v);
  }

  lemma Shorter(a: seq<Record>, b: seq<Record>, c: seq<Record>)
    requires a <= b && b <= c
    ensures a <= c
  {
  }

  lemma IsBrokenOff(whole: Outcome, emitted: seq<Record>, e: Failure)
    requires BreaksOff(whole, emitted, e)
    ensures emitted <= whole.records
  {
  }

  lemma RestIs(j: Job, e: nat)
    requires e <= |j.data|
    ensures Records.Rest(j, e) == Records.Scan(j, e, |j.data|, Fresh(e), None)
    ensures Doomed(j, e, 0) <==> Records.Rest(j, e).Err?
  {
    hide Records.Scan;
  }

  lemma SettlesIs(j: Job, text: bool, start: nat, bnd: nat, r: DriverResult, v: nat)
    requires Settles(j, text, start, bnd, r, v)
    ensures var o := AsOutcome(r);
            && start <= |j.data| && TextOut(text, j, HandedOut(o))
            && (o.Ok? ==> Remains(j, start, 0, bnd, None) == o && (text ==> Vouched(j.data, start, v, bnd, o.end)))
            && (o.Err? && r.Parsed? ==> Founders(j, start, 0, None, bnd, o.records, o.failure))
            && (r.BadUtf8? ==> o.failure.IllFormed? && text && Stuck(j.data, start, o.failure.at) && o.records <= Remains(j, start, 0, bnd, None).records)
  {
    hide Remains, Vouched, Founders, TextOut, WellFormed, Stuck;
    match r
    case Parsed(o) =>
    case BadUtf8(records, at) =>
      OnlyRecords(records, IllFormed(at));
  }
}
