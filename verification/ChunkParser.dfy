/** The byte-wise chunk parser end to end: boundary search, blank lines, records. */
module ChunkParser {
  import opened Dialect
  import opened Dfa
  import opened Records
  import opened Handed
  import opened Chunk
  import opened Compiled
  import opened Runs
  import opened InPlace
  import opened Stepper
  import opened Utf8
  import opened FieldText
  import opened Answer
  import opened Driver

  /** A bulk step of the boundary search changes nothing. */
  lemma {:induction false} FindOverRun(c: Config, data: seq<byte>, p: nat, q: nat, bnd: nat, s: State, probe: bool)
    requires c.Valid() && p <= q <= |data| && q <= bnd
    requires probe ==> c.quoteHandling.Toggle?
    requires forall i :: p <= i < q ==> InRun(c, s, data[i]) || (s.RecordStart? && c.IsTerm(data[i]))
    ensures Chunk.Find(c, data, p, bnd, s, probe) == Chunk.Find(c, data, q, bnd, s, probe)
    decreases q - p
  {
    if p < q {
      FindOverRun(c, data, p + 1, q, bnd, s, probe);
    }
  }

  /** The end of a run that the search skips at once. */
  method RunEnd(c: Config, t: Tables, s: State, tail: seq<byte>) returns (n: nat)
    requires c.Valid() && CompiledFrom(c, t)
    ensures n <= |tail|
    ensures forall i :: 0 <= i < n ==> InRun(c, s, tail[i]) || (s.RecordStart? && c.IsTerm(tail[i]))
  {
    hide CompiledFrom, InRun;
    assert t.Valid() by { TablesValid(c, t); }
    if s.InField? || s.InQuotedField? {
      var off := Needles.Find(if s.InField? then t.inField else t.inQuoted, tail);
      assert tail == tail[0..|tail|];
      RunFound(c, t, s, tail, 0, |tail|, off);
      n := if off.Some? then off.value else |tail|;
    } else if s.RecordStart? {
      n := 0;
      while n < |tail| && !t.recordStartStructural[tail[n] as int]
        invariant 0 <= n <= |tail|
        invariant forall i :: 0 <= i < n ==> c.IsTerm(tail[i])
      {
        BlankMask(c, t, tail[n]);
        n := n + 1;
      }
    } else {
      n := 0;
    }
  }

  /** The search over one visible buffer; `Nowhere` here means that the buffer ran out in state `next`. */
  method FindInBuffer(c: Config, t: Tables, probe: bool, buf: seq<byte>, initial: State, ghost data: seq<byte>, ghost base: nat, ghost bnd: nat)
    returns (r: Found, pos: nat, next: State)
    requires c.Valid() && CompiledFrom(c, t) && (probe ==> c.quoteHandling.Toggle?)
    requires base + |buf| <= |data| && base + |buf| <= bnd && buf == data[base..base + |buf|]
    ensures pos <= |buf|
    ensures var whole := Chunk.Find(c, data, base, bnd, initial, probe);
            if r.At? then whole == At(base + r.pos) && r.pos == pos < |buf|
            else if r.Refused? then whole == Refused(base + r.at)
            else pos == |buf| && whole == Chunk.Find(c, data, base + pos, bnd, next, probe)
  {
    hide CompiledFrom, InRun, Cell;
    pos := 0;
    next := initial;
    while pos < |buf|
      invariant 0 <= pos <= |buf|
      invariant Chunk.Find(c, data, base, bnd, initial, probe) == Chunk.Find(c, data, base + pos, bnd, next, probe)
    {
      var n := RunEnd(c, t, next, buf[pos..]);
      assert forall i :: base + pos <= i < base + pos + n ==> data[i] == buf[pos..][i - base - pos];
      FindOverRun(c, data, base + pos, base + pos + n, bnd, next, probe);
      pos := pos + n;
      if pos >= |buf| {
        break;
      }
      var byte := buf[pos];
      CompiledCell(c, t, next, byte);
      var trans := t.Transition(next, byte);
      pos := pos + 1;
      var strictRejected := probe && trans.strictError;
      if trans.next.Error? || strictRejected {
        return Refused(pos - 1), pos, next;
      }
      if trans.next.RecordEnd? {
        return At(pos - 1), pos - 1, next;
      }
      next := if trans.next.FieldEnd? then FieldStart else trans.next;
    }
    r := Nowhere;
  }

  /** Scan for the first record boundary, not past the chunk end, whatever the refill schedule. */
  method FindRecordStart(c: Config, t: Tables, probe: bool, reader: ChunkReader, initial: State, ghost data: seq<byte>) returns (r: Found)
    requires c.Valid() && CompiledFrom(c, t) && (probe ==> c.quoteHandling.Toggle?)
    requires reader.Valid() && reader.mem[..] == data
    modifies reader`base, reader`filled
    ensures reader.Valid() && old(reader.base) <= reader.base
    ensures r == old(Chunk.Find(c, data, reader.base, reader.chunkEnd, initial, probe))
    ensures r.At? ==> reader.base == r.pos
  {
    hide CompiledFrom, Chunk.Find;
    var state := initial;
    while true
      invariant reader.Valid() && old(reader.base) <= reader.base
      invariant Chunk.Find(c, data, reader.base, reader.chunkEnd, state, probe)
             == old(Chunk.Find(c, data, reader.base, reader.chunkEnd, initial, probe))
      decreases reader.mem.Length - reader.base
    {
      reader.Fill(1);
      var bufEnd := Min(reader.filled - reader.base, reader.RemainingInChunk());
      if bufEnd == 0 {
        FindExhausted(c, data, reader.base, reader.chunkEnd, state, probe);
        return Nowhere;
      }
      var buf := reader.mem[reader.base..reader.base + bufEnd];
      assert buf == data[reader.base..reader.base + bufEnd];
      var found, pos, next := FindInBuffer(c, t, probe, buf, state, data, reader.base, reader.chunkEnd);
      match found {
        case At(p) =>
          r := At(reader.base + p);
          reader.Consume(pos);
          return;
        case Refused(p) =>
          r := Refused(reader.base + p);
          reader.Consume(pos);
          return;
        case Nowhere =>
      }
      reader.Consume(pos);
      state := next;
    }
  }

  lemma FindExhausted(c: Config, data: seq<byte>, pos: nat, bnd: nat, s: State, probe: bool)
    requires pos == |data| || (bnd <= pos <= |data|)
    ensures Chunk.Find(c, data, pos, bnd, s, probe) == Nowhere
  {
  }

  lemma {:induction false} BlanksSkipped(c: Config, data: seq<byte>, p: nat, q: nat, bnd: nat)
    requires p <= q <= |data| && (p < q ==> q <= bnd)
    requires forall i :: p <= i < q ==> c.IsTerm(data[i])
    ensures SkipBlank(c, data, p, bnd) == SkipBlank(c, data, q, bnd)
    decreases q - p
  {
    if p < q {
      BlanksSkipped(c, data, p + 1, q, bnd);
    }
  }

  /** Consume the run of bare terminators at the reader's position; the flag says it reached the boundary. */
  method SkipEmptyLines(c: Config, reader: ChunkReader, ghost data: seq<byte>) returns (consumed: nat, outlasts: bool)
    requires reader.Valid() && reader.mem[..] == data
    modifies reader`base, reader`filled
    ensures reader.Valid() && reader.base == old(reader.base) + consumed
    ensures (reader.base, outlasts) == old(SkipBlank(c, data, reader.base, reader.chunkEnd))
  {
    consumed := 0;
    while true
      invariant reader.Valid() && reader.base == old(reader.base) + consumed
      invariant SkipBlank(c, data, reader.base, reader.chunkEnd) == old(SkipBlank(c, data, reader.base, reader.chunkEnd))
      decreases reader.mem.Length - reader.base
    {
      reader.Fill(1);
      var len := reader.filled - reader.base;
      if len == 0 || !c.IsTerm(reader.mem[reader.base]) {
        return consumed, false;
      }
      var rem := reader.RemainingInChunk();
      if rem == 0 {
        return consumed, true;
      }
      // The first byte belongs to the run, so each turn makes progress.
      var cap := Min(len, rem);
      var i := 0;
      while i < cap && c.IsTerm(reader.mem[reader.base + i])
        invariant 0 <= i <= cap
        invariant forall k :: reader.base <= k < reader.base + i ==> c.IsTerm(data[k])
      {
        i := i + 1;
      }
      assert data[reader.base] == reader.mem[reader.base];
      BlanksSkipped(c, data, reader.base, reader.base + i, reader.chunkEnd);
      reader.Consume(i);
      consumed := consumed + i;
    }
  }

  /** The parser for one dialect: its table, and the same dialect forced to toggling for the search. */
  class DfaChunkParser {
    const cfg: Config
    const dfa: Tables
    const findDfa: Tables

    ghost predicate Valid() {
      cfg.Valid() && CompiledFrom(cfg, dfa) && CompiledFrom(cfg.With(Toggle), findDfa)
    }

    constructor (c: Config)
      requires c.Valid()
      ensures cfg == c && Valid()
    {
      var d := Build(c);
      var f := Build(c.With(Toggle));
      cfg, dfa, findDfa := c, d, f;
    }

    method Scan(reader: ChunkReader, a: Assumption, mode: FindMode, ghost j: Job) returns (r: Found)
      requires Valid() && j.cfg == cfg && reader.Valid() && reader.mem[..] == j.data
      modifies reader`base, reader`filled
      ensures reader.Valid() && old(reader.base) <= reader.base
      ensures r == old(Locate(j, reader.base, reader.chunkEnd, a, mode))
      ensures r.At? ==> reader.base == r.pos
    {
      hide CompiledFrom, Chunk.Find;
      match mode
      case FindNone => r := At(reader.base);
      case SkipHeaders => r := FindRecordStart(cfg, dfa, false, reader, RecordStart, j.data);
      case FindStrict => r := FindRecordStart(cfg.With(Toggle), findDfa, true, reader, InitialState(cfg, a), j.data);
      case FindLenient => r := FindRecordStart(cfg.With(Toggle), findDfa, false, reader, InitialState(cfg, a), j.data);
    }

    /** Parse records from where the reader stands. */
    method ParseFrom(reader: ChunkReader, accept: Record -> bool, text: bool, ghost j: Job) returns (r: DriverResult, ghost v: nat)
      requires Valid() && j.cfg == cfg && j.accept == accept && reader.Valid() && reader.mem[..] == j.data
      modifies reader, reader.mem
      ensures old(reader.base) <= |j.data|
      ensures var start := old(reader.base);
              var whole := Records.Scan(j, start, reader.chunkEnd, Fresh(start), None);
              match r
              case Parsed(o) =>
                && o == whole && TextOut(text, j, HandedOut(o))
                && (text && o.Ok? ==> Vouched(j.data, start, v, reader.chunkEnd, o.end))
              case BadUtf8(records, at) => text && Stuck(j.data, start, at) && records <= whole.records && TextOut(text, j, records)
    {
      hide CompiledFrom, WellFormed, Records.Scan, HandedOut, TextOut, Told;
      var start := reader.base;
      var stepper := new DfaStepper(cfg, dfa, accept, start);
      var driver := new ChunkDriver(reader, start);
      FreshIsGood(j, reader.mem[..], start, reader.chunkEnd);
      assert Checked(text, j.data, start, start) by { EmptyIsChecked(text, j.data, start); }
      ToldFirst(j, start, reader.chunkEnd);
      r, v := driver.Run(j, text, start, stepper);
    }

    /**
     * Parse a chunk under one assumption, whatever the refill schedule. The answer is the
     * table's, and text is validated as far as records are handed out; only ill-formed text
     * makes it differ. Text mode demands ASCII control bytes.
     */
    method Parse(data: seq<byte>, start: nat, bnd: nat, a: Assumption, mode: FindMode, accept: Record -> bool, text: bool)
      returns (r: PassResult)
      requires Valid() && start <= |data| && (text ==> cfg.AsciiControls())
      ensures var found := Locate(Job(cfg, data, accept), start, bnd, a, mode);
              if found.Nowhere? then r == NoRecord
              else if found.Refused? then r == PassResult.Failed(InvalidQuote(found.at))
              else r.Started? && r.start == found.pos && Exact(Job(cfg, data, accept), text, r.start, bnd, r.outcome)
      ensures !text ==> r == Chunk.Parse(Job(cfg, data, accept), start, bnd, a, mode)
    {
      hide CompiledFrom, WellFormed, Stuck, Records.Scan, Chunk.Find, SkipBlank, Body, Exact, Fits, Vouched, Locate, TextOut, HandedOut;
      ghost var j := Job(cfg, data, accept);
      var reader := new ChunkReader(data, start, bnd);
      var found := Scan(reader, a, mode, j);
      match found {
        case Nowhere => return NoRecord;
        case Refused(at) => return PassResult.Failed(InvalidQuote(at));
        case At(recordStart) =>
          var skipped, outlasts := SkipEmptyLines(cfg, reader, data);
          BodyFrom(j, recordStart, bnd);
          if outlasts {
            NothingOut(text, j, Ok([], Some(recordStart + skipped)));
            BodyFits(j, text, recordStart, bnd, recordStart + skipped + 1);
            return Started(recordStart, Ok([], Some(recordStart + skipped)));
          }
          ghost var bodyStart := reader.base;
          var o;
          ghost var v;
          o, v := ParseFrom(reader, accept, text, j);
          match o {
            case Parsed(outcome) =>
              if text && outcome.Ok? {
                VouchedWithBlanks(data, recordStart, bodyStart, v, bnd, outcome.end);
              }
              BodyFits(j, text, recordStart, bnd, v);
              return Started(recordStart, outcome);
            case BadUtf8(records, at) =>
              StuckBehind(data, recordStart, bodyStart, at);
              StuckIsBad(data, recordStart, at);
              RecordsOfRest(j, bodyStart, bnd, Fresh(bodyStart), None, None);
              OnlyRecords(records, IllFormed(at));
              IsFit(j, text, recordStart, bnd, Err(records, IllFormed(at)), 0);
              IsExact(j, text, recordStart, bnd, Err(records, IllFormed(at)));
              return Started(recordStart, Err(records, IllFormed(at)));
          }
      }
    }
  }

  lemma FreshIsGood(j: Job, m: seq<byte>, start: nat, bnd: nat)
    requires m == j.data && start <= |m|
    ensures var c := Cursor(RecordStart, start, start, start, [], start, start);
            Good(j, m, c, start) && Remaining(j, m, c, start, bnd, None) == Records.Scan(j, start, bnd, Fresh(start), None)
  {
    var c := Cursor(RecordStart, start, start, start, [], start, start);
    assert View(m, c, start) == Fresh(start);
  }

  lemma EmptyIsChecked(text: bool, data: seq<byte>, start: nat)
    requires start <= |data|
    ensures Checked(text, data, start, start)
  {
  }
}
