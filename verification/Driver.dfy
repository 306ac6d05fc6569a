/** The fill/consume loop that feeds a chunk parser, whatever the refill schedule. */
module Driver {
  import opened Dialect
  import opened Dfa
  import opened Records
  import opened Handed
  import opened Compiled
  import opened InPlace
  import opened Stepper
  import opened Utf8
  import opened FieldText

  const VALIDATE_WINDOW: nat := 131072

  /**
   * A reader over a private copy of the input. `mem[base..filled]` is the visible buffer;
   * what lies past `filled` has not arrived yet.
   */
  class ChunkReader {
    const mem: array<byte>
    const chunkEnd: nat
    var base: nat
    var filled: nat

    predicate Valid()
      reads this
    {
      base <= filled <= mem.Length
    }

    constructor (data: seq<byte>, start: nat, chunkEnd: nat)
      requires start <= |data|
      ensures Valid() && base == filled == start && this.chunkEnd == chunkEnd && fresh(mem) && mem[..] == data
    {
      var m := new byte[|data|](i requires 0 <= i < |data| => data[i]);
      mem := m;
      this.chunkEnd := chunkEnd;
      base, filled := start, start;
      new;
      assert mem[..] == data;
    }

    /** Returning short is permitted only at the end of the input; how much more arrives is up to the source. */
    method Fill(n: nat)
      requires Valid()
      modifies `filled
      ensures Valid() && old(filled) <= filled
      ensures base + n <= filled || filled == mem.Length
    {
      var arrived: nat :| filled <= arrived <= mem.Length && (base + n <= arrived || arrived == mem.Length);
      filled := arrived;
    }

    method Consume(n: nat)
      requires Valid() && base + n <= filled
      modifies `base
      ensures Valid() && base == old(base) + n
    {
      base := base + n;
    }

    function RemainingInChunk(): nat
      reads this
    {
      if chunkEnd < base then 0 else chunkEnd - base
    }
  }

  /** The scan's outcome, or what was handed out before ill-formed text. */
  datatype DriverResult = Parsed(outcome: Outcome) | BadUtf8(records: seq<Record>, at: nat)

  class ChunkDriver {
    const reader: ChunkReader
    /** Buffer-relative: where the next step resumes, and the end of the validated prefix. */
    var validated: nat
    var resumeAt: nat
    var totalConsumed: nat

    constructor (reader: ChunkReader, startOffset: nat)
      ensures this.reader == reader && validated == 0 && resumeAt == 0 && totalConsumed == startOffset
    {
      this.reader := reader;
      validated, resumeAt, totalConsumed := 0, 0, startOffset;
    }

    /** Validate fresh bytes, at most a window per call; an offset is returned for ill-formed ones. */
    method ValidateFresh(text: bool, ghost data: seq<byte>, ghost start: nat) returns (bad: Option<nat>)
      requires reader.Valid() && totalConsumed == reader.base && start <= reader.base && reader.base + validated <= reader.filled
      requires Unread(reader.mem[..], data, reader.base + validated)
      requires Checked(text, data, start, reader.base + validated)
      modifies `validated
      ensures old(validated) <= validated && reader.base + validated <= reader.filled
      ensures Checked(text, data, start, reader.base + validated)
      ensures bad.Some? ==> text && Stuck(data, start, bad.value)
      ensures bad.None? && validated == old(validated) ==> reader.filled < reader.base + validated + 4
      ensures bad.None? && validated == old(validated) && reader.base + validated < reader.filled ==>
                text && Truncated(data[reader.base + validated..reader.filled])
    {
      hide WellFormed, ValidateChunk, Checked, Truncated, Stuck;
      var windowEnd := Min(reader.filled - reader.base, validated + 4 + VALIDATE_WINDOW);
      if windowEnd <= validated {
        return None;
      }
      var from, end := reader.base + validated, reader.base + windowEnd;
      var window := reader.mem[from..end];
      assert window == data[from..end] by {
        assert window == reader.mem[..][from..end];
        SameBytes(reader.mem[..], data, from, end);
      }
      var check := ValidateChunk(text, window);
      WindowChecked(text, data, start, from, end, check);
      if check.Invalid? {
        return Some(totalConsumed + validated + check.at);
      }
      validated := validated + check.upTo;
      bad := None;
    }

    /** The stepper stands where the next step resumes, and the prefix up to `validated` is checked. */
    ghost predicate Ready(j: Job, text: bool, start: nat, stepper: DfaStepper)
      reads this, reader, reader.mem, stepper
    {
      && reader.Valid() && totalConsumed == reader.base && start <= reader.base
      && resumeAt <= validated && reader.base + validated <= reader.filled
      && stepper.Serves(j) && stepper.refs == []
      && Good(j, reader.mem[..], stepper.Resting(reader.base), reader.base + resumeAt)
      && Checked(text, j.data, start, reader.base + validated)
    }

    /** What remains of the scan. */
    ghost function Rest(j: Job, text: bool, start: nat, stepper: DfaStepper): Outcome
      requires Ready(j, text, start, stepper)
      reads this, reader, reader.mem, stepper
    {
      Remaining(j, reader.mem[..], stepper.Resting(reader.base), reader.base + resumeAt, reader.chunkEnd, stepper.lastRecordEnd)
    }

    /** Refill and validate; no progress happens only at the end of the input. */
    method Refill(ghost j: Job, text: bool, ghost start: nat, ghost stepper: DfaStepper) returns (progress: bool, bad: Option<nat>)
      requires Ready(j, text, start, stepper) && resumeAt == validated
      modifies `validated, reader`filled
      ensures Ready(j, text, start, stepper)
      ensures Rest(j, text, start, stepper) == old(Rest(j, text, start, stepper))
      ensures old(validated) <= validated && (progress <==> old(validated) < validated)
      ensures bad.Some? ==> text && Stuck(j.data, start, bad.value)
      ensures bad.None? && !progress ==> reader.filled == reader.mem.Length
      ensures bad.None? && !progress && reader.base + validated < reader.filled ==> text && Stuck(j.data, start, reader.base + validated)
    {
      hide Good, Remaining, Checked, WellFormed, Stuck, CompiledFrom, Truncated;
      // at least four bytes, for a multibyte sequence
      reader.Fill(validated + 4);
      GoodIsUnread(j, reader.mem[..], stepper.Resting(reader.base), reader.base + resumeAt);
      var before := validated;
      bad := ValidateFresh(text, j.data, start);
      progress := validated > before;
      if bad.None? && !progress && reader.base + validated < reader.filled {
        TailIsBad(j.data, start, reader.base + validated);
      }
    }

    /** Account for the bytes a suspended step no longer needs. */
    method Release(ghost j: Job, text: bool, ghost start: nat, stepper: DfaStepper, consumable: nat)
      requires Ready(j, text, start, stepper) && resumeAt == validated
      requires consumable == stepper.Consumable(resumeAt)
      modifies this, reader`base, stepper
      ensures Ready(j, text, start, stepper) && resumeAt == validated
      ensures Rest(j, text, start, stepper) == old(Rest(j, text, start, stepper)) && stepper.dfaState == old(stepper.dfaState)
      ensures reader.base + validated == old(reader.base + validated)
    {
      hide Good, Remaining, Checked, WellFormed, Stuck, CompiledFrom, Vouched;
      ConsumableBound(j, reader.mem[..], stepper.Resting(reader.base), reader.base, resumeAt, stepper);
      // With nothing consumable nothing moves, and the next fill grows the buffer.
      if consumable > 0 {
        reader.Consume(consumable);
        stepper.Consume(j, reader.mem[..], reader.base - consumable, reader.base - consumable + resumeAt, consumable, reader.chunkEnd);
        totalConsumed := totalConsumed + consumable;
        validated := validated - consumable;
        resumeAt := resumeAt - consumable;
      }
    }

    /** What was handed out since `start`, and what remains of the scan. */
    ghost predicate Telling(j: Job, text: bool, start: nat, stepper: DfaStepper, done: seq<Record>)
      reads this, reader, reader.mem, stepper
    {
      Ready(j, text, start, stepper) && Told(j, start, reader.chunkEnd, done, Rest(j, text, start, stepper), stepper.dfaState, reader.base + resumeAt)
    }

    /** One turn of the loop: refill, validate, step, consume. */
    method Turn(ghost j: Job, text: bool, ghost start: nat, stepper: DfaStepper, ghost done: seq<Record>) returns (t: TurnResult, emitted: seq<Record>)
      requires Telling(j, text, start, stepper, done) && resumeAt == validated
      modifies this, reader`base, reader`filled, reader.mem, stepper
      ensures match t
              case Continue =>
                && Telling(j, text, start, stepper, done + emitted) && resumeAt == validated
                && old(Rest(j, text, start, stepper)) == Prepend(emitted, Rest(j, text, start, stepper))
                && old(reader.base + validated) < reader.base + validated
              case NoProgress =>
                && Telling(j, text, start, stepper, done) && resumeAt == validated
                && old(Rest(j, text, start, stepper)) == Rest(j, text, start, stepper)
                && reader.filled == reader.mem.Length
                && (reader.base + validated < reader.filled ==> text && Stuck(j.data, start, reader.base + validated))
              case Over(o) =>
                && old(Rest(j, text, start, stepper)) == o && o.records == emitted && TextOut(text, j, HandedOut(Prepend(done, o)))
                && (text && o.Ok? ==> Vouched(j.data, start, reader.base + validated, reader.chunkEnd, o.end))
              case Malformed(at) => text && Stuck(j.data, start, at)
    {
      hide Good, Remaining, Checked, WellFormed, Stuck, CompiledFrom, Vouched, Told, Offered, HandedOut, Scan, TextOut;
      emitted := [];
      assert done + [] == done;
      var progress, bad := Refill(j, text, start, stepper);
      if bad.Some? {
        return Malformed(bad.value), [];
      }
      if !progress {
        return NoProgress, [];
      }
      var ctx := StepCtx(reader.base, resumeAt, validated, reader.RemainingInChunk());
      GoodIsUnread(j, reader.mem[..], stepper.Resting(reader.base), reader.base + resumeAt);
      ghost var v := reader.base + validated;
      var res;
      res, emitted := stepper.Step(j, reader.mem, ctx, reader.chunkEnd, start, done);
      match res {
        case Done(e) =>
          IsVouched(text, j.data, start, v, reader.chunkEnd, Some(e));
          ShownAsText(text, j, start, v, done + emitted, Ok(done + emitted, Some(e)));
          return Over(Ok(emitted, Some(e))), emitted;
        case Failed(x) =>
          ShownAsText(text, j, start, v, HandedOut(Err(done + emitted, x)), Err(done + emitted, x));
          return Over(Err(emitted, x)), emitted;
        case Suspended(at, consumable, last) =>
          resumeAt := at;
          Release(j, text, start, stepper, consumable);
          return Continue, emitted;
      }
    }

    /** What a run returns from `start` on. */
    ghost predicate Answers(j: Job, text: bool, start: nat, r: DriverResult, v: nat) {
      start <= |j.data| &&
      var whole := Scan(j, start, reader.chunkEnd, Fresh(start), None);
      match r
      case Parsed(o) => o == whole && TextOut(text, j, HandedOut(o)) && (text && o.Ok? ==> Vouched(j.data, start, v, reader.chunkEnd, o.end))
      case BadUtf8(records, at) => text && Stuck(j.data, start, at) && records <= whole.records && TextOut(text, j, records)
    }

    /** At the end of the input: bytes that a refill could not complete are ill-formed, and otherwise the stepper finishes. */
    method Finish(ghost j: Job, text: bool, ghost start: nat, stepper: DfaStepper, records: seq<Record>) returns (r: DriverResult, ghost v: nat)
      requires Telling(j, text, start, stepper, records) && resumeAt == validated && reader.filled == reader.mem.Length
      requires reader.base + validated < reader.filled ==> text && Stuck(j.data, start, reader.base + validated)
      modifies stepper
      ensures Answers(j, text, start, r, v)
    {
      hide Good, Remaining, Checked, WellFormed, Stuck, CompiledFrom, Vouched, Told, Offered, HandedOut, Scan, TextOut;
      ToldSoFar(text, j, start, reader.chunkEnd, records, Rest(j, text, start, stepper), stepper.dfaState, reader.base + resumeAt);
      if reader.filled - reader.base > validated {
        return BadUtf8(records, totalConsumed + validated), 0;
      }
      GoodIsUnread(j, reader.mem[..], stepper.Resting(reader.base), reader.base + resumeAt);
      v := reader.base + validated;
      var ctx := StepCtx(reader.base, resumeAt, validated, reader.RemainingInChunk());
      var lastRecordEnd := stepper.lastRecordEnd;
      var end, failure, emitted := stepper.Finalize(j, reader.mem, ctx, reader.chunkEnd);
      r := Parsed(if failure.Some? then Err(records + emitted, failure.value) else Ok(records + emitted, if end.Some? then end else lastRecordEnd));
      ToldAll(j, start, reader.chunkEnd);
      ShownAsText(text, j, start, v, HandedOut(r.outcome), r.outcome);
      IsVouched(text, j.data, start, v, reader.chunkEnd, None);
    }

    /**
     * Drive the stepper until the chunk is done, it fails, or the input ends. Whatever amounts
     * arrive at each refill, the outcome is that of one scan over the whole input, unless text
     * that is not well-formed UTF-8 stops the run.
     */
    method Run(ghost j: Job, text: bool, ghost start: nat, stepper: DfaStepper) returns (r: DriverResult, ghost v: nat)
      requires Telling(j, text, start, stepper, []) && resumeAt == validated && start <= |j.data|
      modifies this, reader`base, reader`filled, reader.mem, stepper
      ensures Answers(j, text, start, r, v)
    {
      hide Good, Remaining, Checked, WellFormed, Stuck, CompiledFrom, Vouched, Told, Offered, HandedOut, Scan, TextOut;
      var records: seq<Record> := [];
      while true
        invariant Telling(j, text, start, stepper, records) && resumeAt == validated
        decreases reader.mem.Length - (reader.base + validated)
      {
        ToldSoFar(text, j, start, reader.chunkEnd, records, Rest(j, text, start, stepper), stepper.dfaState, reader.base + resumeAt);
        var t, emitted := Turn(j, text, start, stepper, records);
        match t {
          case Continue => records := records + emitted;
          case NoProgress => break;
          case Over(o) => return Parsed(Prepend(records, o)), reader.base + validated;
          case Malformed(at) => return BadUtf8(records, at), 0;
        }
      }
      r, v := Finish(j, text, start, stepper, records);
    }
  }

  /** What was handed out of checked bytes is text. */
  lemma ShownAsText(text: bool, j: Job, start: nat, v: nat, done: seq<Record>, o: Outcome)
    requires start <= v <= |j.data| && Checked(text, j.data, start, v) && done <= Offered(j, start, v, Fresh(start))
    requires HandedOut(o) == done || (o.Ok? && o.records == done)
    ensures TextOut(text, j, HandedOut(o))
  {
    hide WellFormed, Offered, IsText;
    assert o.Ok? ==> HandedOut(o) == o.records + [] == o.records;
    if text && j.cfg.AsciiControls() {
      FreshIsText(start);
      FieldsAreText(j, start, v, Fresh(start));
      PrefixIsText(done, Offered(j, start, v, Fresh(start)));
    }
  }

  /** At any time, what was handed out is text, and the scan's first records. */
  lemma ToldSoFar(text: bool, j: Job, start: nat, bnd: nat, done: seq<Record>, rest: Outcome, s: State, pos: nat)
    requires Told(j, start, bnd, done, rest, s, pos) && Checked(text, j.data, start, pos)
    ensures start <= |j.data| && done <= Scan(j, start, bnd, Fresh(start), None).records && TextOut(text, j, done)
    ensures Scan(j, start, bnd, Fresh(start), None) == Prepend(done, rest)
  {
    hide Scan, WellFormed, Offered, Checked, IsText, TextOut;
    ShownAsText(text, j, start, pos, done, Ok(done, None));
    assert done + [] == done;
  }

  /** What is validated vouches for a scan that ended before it, or at the end of the input. */
  lemma IsVouched(text: bool, data: seq<byte>, start: nat, v: nat, bnd: nat, end: Option<nat>)
    requires start <= v <= |data| && Checked(text, data, start, v) && (end.None? ==> v == |data|) && (end.Some? ==> bnd <= end.value < v)
    ensures text ==> forall e: Option<nat> :: (end.None? || e == end) ==> Vouched(data, start, v, bnd, e)
  {
    hide WellFormed;
  }

  datatype TurnResult = Continue | NoProgress | Over(outcome: Outcome) | Malformed(at: nat)

  lemma GoodIsUnread(j: Job, m: seq<byte>, c: Cursor, pos: nat)
    requires Good(j, m, c, pos)
    ensures Unread(m, j.data, pos) && |m| == |j.data|
  {
  }

  /** The driver may consume no more than it scanned. */
  lemma ConsumableBound(j: Job, m: seq<byte>, c: Cursor, base: nat, at: nat, stepper: DfaStepper)
    requires c == stepper.Resting(base) && Good(j, m, c, base + at)
    ensures stepper.Consumable(at) <= at
  {
  }

  /** In text mode, `m[start..end]` is well-formed. */
  ghost predicate Checked(text: bool, m: seq<byte>, start: nat, end: nat)
    requires start <= end <= |m|
  {
    text ==> WellFormed(m[start..end])
  }

  /** What validating one window says about everything from the start. */
  lemma WindowChecked(text: bool, m: seq<byte>, start: nat, from: nat, end: nat, check: Check)
    requires start <= from < end <= |m| && Checked(text, m, start, from)
    requires check == ValidateChunk(text, m[from..end])
    ensures check.Valid? ==>
              && from + check.upTo <= end && Checked(text, m, start, from + check.upTo)
              && (check.upTo == 0 ==> text && end - from < 4 && Truncated(m[from..end]))
    ensures check.Invalid? ==> text && Stuck(m, start, from + check.at)
  {
    hide WellFormed;
    var window := m[from..end];
    if text {
      match check
      case Valid(n) =>
        WindowExtends(m, start, from, end, n);
        if n < |window| {
          TruncatedIsShort(window[n..]);
          if n == 0 { assert window[0..] == window; }
        }
      case Invalid(at) =>
        WindowIsBad(m, start, from, end, at);
    }
  }

  lemma TailIsBad(m: seq<byte>, start: nat, from: nat)
    requires start <= from <= |m| && Checked(true, m, start, from) && Truncated(m[from..|m|])
    ensures Stuck(m, start, from)
  {
    assert m[from..|m|] == m[from..];
    hide WellFormed;
  }

  /** An ill-formed window: the first byte that begins no character is the input's. */
  lemma WindowIsBad(m: seq<byte>, start: nat, from: nat, end: nat, at: nat)
    requires start <= from <= end <= |m| && at < end - from
    requires WellFormed(m[start..from])
    requires WellFormed(m[from..end][..at]) && CharLen(m[from..end][at..]) == 0 && !Truncated(m[from..end][at..])
    ensures Stuck(m, start, from + at)
  {
    hide WellFormed, CharLen, Truncated;
    WindowExtends(m, start, from, end, at);
    var rest := m[from..end][at..];
    StuckForever(rest, m[end..]);
    assert m[from + at..] == rest + m[end..];
  }

  lemma WindowExtends(m: seq<byte>, start: nat, from: nat, end: nat, n: nat)
    requires start <= from <= end <= |m| && n <= end - from
    requires WellFormed(m[start..from]) && WellFormed(m[from..end][..n])
    ensures WellFormed(m[start..from + n])
  {
    hide WellFormed;
    Concat(m[start..from], m[from..end][..n]);
    assert m[start..from + n] == m[start..from] + m[from..end][..n];
  }
}
