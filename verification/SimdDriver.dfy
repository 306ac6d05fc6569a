/** The fill/consume loop around the bit-parallel steppers, whatever the refill schedule. */
module SimdDriver {
  import opened Dialect
  import opened Records
  import opened Handed
  import opened Endings
  import opened InPlace
  import opened Index
  import opened Ledger
  import opened Stepper
  import opened BadRecord
  import opened SimdStepper
  import opened Utf8
  import opened FieldText
  import opened Driver

  /** The stepper rests where the next step resumes, and the prefix up to `validated` is checked. */
  ghost predicate Waits(d: ChunkDriver, st: AnyStepper, j: Job, text: bool, start: nat)
    reads d, d.reader, d.reader.mem, st.Frame()
  {
    && st.Frame() !! {d, d.reader, d.reader.mem}
    && d.reader.Valid() && d.totalConsumed == d.reader.base && start <= d.reader.base
    && d.resumeAt <= d.validated && d.reader.base + d.validated <= d.reader.filled
    && d.reader.chunkEnd <= |j.data| == d.reader.mem.Length && d.reader.mem.Length + 192 <= WORD
    && st.Resting(j, d.reader.base, d.resumeAt, d.reader.mem[..])
    && Checked(text, j.data, start, d.reader.base + d.validated)
  }

  /** Less than a vector waits; nothing at all before the first step. */
  ghost predicate Short(d: ChunkDriver, st: AnyStepper)
    reads d, st.Frame()
  {
    d.validated < d.resumeAt + 64 && (st.Unstepped() ==> d.validated == 0)
  }

  /**
   * What a run may return from `start` on: the scan's outcome; a failure the scan shares by the
   * end of the input, behind some of the scan's records; or ill-formed text behind some of them, reported at the byte that begins no character.
   * Whatever was handed out as text is text.
   */
  ghost predicate Settles(j: Job, text: bool, start: nat, bnd: nat, r: DriverResult, v: nat) {
    start <= |j.data| &&
    match r
    case Parsed(o) =>
      && (if o.Ok? then Remains(j, start, 0, bnd, None) == o && (text ==> Vouched(j.data, start, v, bnd, o.end))
          else Founders(j, start, 0, None, bnd, o.records, o.failure))
      && TextOut(text, j, HandedOut(o))
    case BadUtf8(records, at) =>
      text && Stuck(j.data, start, at) && records <= Remains(j, start, 0, bnd, None).records && TextOut(text, j, records)
  }

  lemma UnreadLater(m: seq<byte>, data: seq<byte>, p: nat, q: nat)
    requires Unread(m, data, p) && p <= q <= |m|
    ensures Unread(m, data, q)
  {
    assert m[q..] == m[p..][q - p..] && data[q..] == data[p..][q - p..];
  }

  /** Refill and validate; no progress happens only at the end of the input. */
  method Refill(d: ChunkDriver, ghost st: AnyStepper, ghost j: Job, text: bool, ghost start: nat) returns (progress: bool, bad: Option<nat>)
    requires Waits(d, st, j, text, start)
    modifies d`validated, d.reader`filled
    ensures Waits(d, st, j, text, start)
    ensures old(d.validated) <= d.validated && (progress <==> old(d.validated) < d.validated)
    ensures bad.Some? ==> text && Stuck(j.data, start, bad.value)
    ensures bad.None? && !progress ==> d.reader.filled == d.reader.mem.Length
    ensures bad.None? && !progress && d.reader.base + d.validated < d.reader.filled ==> text && Stuck(j.data, start, d.reader.base + d.validated)
  {
    hide Checked, WellFormed, Stuck, Truncated, AnyStepper.Resting;
    d.reader.Fill(d.validated + 4);
    st.Front(j, d.reader.base, d.resumeAt, d.reader.mem[..]);
    UnreadLater(d.reader.mem[..], j.data, st.Origin() + st.Oldest(), d.reader.base + d.validated);
    var before := d.validated;
    bad := d.ValidateFresh(text, j.data, start);
    progress := d.validated > before;
    if bad.None? && !progress && d.reader.base + d.validated < d.reader.filled {
      TailIsBad(j.data, start, d.reader.base + d.validated);
    }
  }

  /** Account for the bytes a suspended step no longer needs. */
  method Release(d: ChunkDriver, st: AnyStepper, ghost j: Job, text: bool, ghost start: nat, consumable: nat)
    requires Waits(d, st, j, text, start) && Short(d, st) && !st.Unstepped()
    requires consumable == st.Limit() <= d.resumeAt
    modifies d, d.reader`base, st.Frame()
    ensures Waits(d, st, j, text, start) && Short(d, st)
    ensures d.reader.base + d.validated == old(d.reader.base + d.validated)
    ensures st.Oldest() == old(st.Oldest()) && st.LastRecordEnd() == old(st.LastRecordEnd())
  {
    hide Checked, WellFormed, AnyStepper.Resting;
    // With nothing consumable nothing moves, and the next fill grows the buffer.
    if consumable > 0 {
      st.Consume(j, d.reader.base, d.resumeAt, d.reader.mem[..], consumable);
      d.reader.Consume(consumable);
      d.totalConsumed := d.totalConsumed + consumable;
      d.validated := d.validated - consumable;
      d.resumeAt := d.resumeAt - consumable;
    }
  }

  /** One turn of the loop: refill, validate, step, consume. The buffer may lie anywhere in memory. */
  method Turn(d: ChunkDriver, st: AnyStepper, ghost j: Job, text: bool, ghost start: nat) returns (t: TurnResult, emitted: seq<Record>)
    requires Waits(d, st, j, text, start) && Short(d, st)
    modifies d, d.reader`base, d.reader`filled, d.reader.mem, st.Frame()
    ensures match t
            case Continue =>
              && Waits(d, st, j, text, start) && Short(d, st) && old(d.reader.base + d.validated) < d.reader.base + d.validated
              && Keeps(j, st.Origin(), old(st.Oldest()), old(st.LastRecordEnd()), st.Oldest(), st.LastRecordEnd(), d.reader.chunkEnd, emitted)
            case NoProgress =>
              && Waits(d, st, j, text, start) && Short(d, st) && d.reader.filled == d.reader.mem.Length
              && st.Oldest() == old(st.Oldest()) && st.LastRecordEnd() == old(st.LastRecordEnd())
              && (d.reader.base + d.validated < d.reader.filled ==> text && Stuck(j.data, start, d.reader.base + d.validated))
            case Over(out) =>
              var v := d.reader.base + d.validated;
              && emitted == out.records && start <= v <= |j.data| && Checked(text, j.data, start, v)
              && EndsWith(j, st.Origin(), old(st.Oldest()), old(st.LastRecordEnd()), d.reader.chunkEnd, emitted, Ending(out), v)
              && (out.Ok? ==> out.end.Some? && d.reader.chunkEnd <= out.end.value < v)
            case Malformed(at) => text && Stuck(j.data, start, at)
  {
    hide Checked, WellFormed, Stuck, Vouched, AnyStepper.Resting, Remains, Doomed, Placed, Keeps;
    emitted := [];
    var progress, bad := Refill(d, st, j, text, start);
    if bad.Some? {
      return Malformed(bad.value), [];
    }
    if !progress {
      return NoProgress, [];
    }
    var ctx := StepCtx(d.reader.base, d.resumeAt, d.validated, d.reader.RemainingInChunk());
    var address: nat := *;
    var res;
    res, emitted := st.Step(j, d.reader.mem, ctx, address, d.reader.chunkEnd);
    match res {
      case Done(e) =>
        return Over(Ok(emitted, Some(e))), emitted;
      case Failed(x) => return Over(Err(emitted, x)), emitted;
      case Suspended(at, consumable, last) =>
        d.resumeAt := at;
        Release(d, st, j, text, start, consumable);
        return Continue, emitted;
    }
  }

  /** How a step that is not suspended ends, as an outcome. */
  function Ending(o: Outcome): StepResult {
    match o
    case Ok(_, end) => if end.Some? then Done(end.value) else Done(0)
    case Err(_, e) => Failed(e)
  }

  /** At any time, what was handed out is text, and the scan's first records. */
  lemma KeptSoFar(j: Job, text: bool, o: nat, a: nat, last: Option<nat>, bnd: nat, done: seq<Record>, v: nat)
    requires Keeps(j, o, 0, None, a, last, bnd, done) && o + a <= v <= |j.data| && Checked(text, j.data, o, v)
    ensures o <= |j.data| && done <= Remains(j, o, 0, bnd, None).records && TextOut(text, j, done)
  {
    hide *;
    KeepsIs(j, o, 0, None, a, last, bnd, done);
    CloseWithinIs(j, o, 0, a, |done|);
    ClosingsSplit(j, o, o, o + a, v);
    IsKept(done, Remains(j, o, a, bnd, last));
    InTime(j, text, o, bnd, done, IllFormed(0), v);
  }

  lemma IsKept(done: seq<Record>, rest: Outcome)
    ensures done <= Prepend(done, rest).records && BreaksOff(Prepend(done, rest), done, IllFormed(0))
    ensures HandedOut(Err(done, IllFormed(0))) == done
  {
  }

  /** Handed out in time: text if the bytes up to then are. */
  lemma InTime(j: Job, text: bool, o: nat, bnd: nat, done: seq<Record>, e: Failure, v: nat)
    requires o <= v <= |j.data| && Checked(text, j.data, o, v)
    requires BreaksOff(Remains(j, o, 0, bnd, None), done, e) && |HandedOut(Err(done, e))| <= Closings(j, o, o, v)
    ensures TextOut(text, j, HandedOut(Err(done, e)))
  {
    hide *;
    RemainsIs(j, o, 0, bnd, None);
    FreshAtStart(j, o);
    ClosedInTime(j, o, o, v, bnd, Fresh(o), None, done, e);
    ShownAsText(text, j, o, v, HandedOut(Err(done, e)), Err(done, e));
  }

  lemma FreshAtStart(j: Job, o: nat)
    requires o <= |j.data|
    ensures Fresh(o).state == StateAt(j.cfg, j.data, o, o) && Idle(Fresh(o))
  {
  }

  /** A step's end, behind what was kept. */
  lemma EndSettles(j: Job, text: bool, o: nat, a: nat, last: Option<nat>, bnd: nat, done: seq<Record>, out: Outcome, v: nat)
    requires Keeps(j, o, 0, None, a, last, bnd, done) && o <= v <= |j.data| && Checked(text, j.data, o, v)
    requires EndsWith(j, o, a, last, bnd, out.records, Ending(out), v)
    requires out.Ok? ==> out.end.Some? && bnd <= out.end.value < v
    ensures Settles(j, text, o, bnd, Parsed(Prepend(done, out)), v)
  {
    hide *;
    EndsLater(j, o, 0, None, a, last, bnd, done, out.records, Ending(out), v, v);
    var all := done + out.records;
    EndsWithIs(j, o, 0, None, bnd, all, Ending(out), v);
    if out.Ok? {
      PrependOk(done, out.records, out.end);
      EndingIs(out);
      RemainsIs(j, o, 0, bnd, None);
      EndedBefore(j, o, v, bnd, Fresh(o), None);
      ShownAsText(text, j, o, v, all, Ok(all, out.end));
      IsVouched(text, j.data, o, v, bnd, out.end);
      SettledOk(j, text, o, bnd, Ok(all, out.end), v);
    } else {
      EndingIs(out);
      FoundersIs(j, o, 0, None, bnd, all, out.failure);
      InTime(j, text, o, bnd, all, out.failure, v);
      SettledErr(j, text, o, bnd, Err(all, out.failure), v);
    }
  }

  lemma EndingIs(out: Outcome)
    ensures out.Ok? && out.end.Some? ==> Ending(out) == Done(out.end.value)
    ensures out.Err? ==> Ending(out) == Failed(out.failure)
    ensures forall done: seq<Record> :: out.Err? ==> Prepend(done, out) == Err(done + out.records, out.failure)
  {
  }

  lemma SettledOk(j: Job, text: bool, start: nat, bnd: nat, o: Outcome, v: nat)
    requires start <= |j.data| && o.Ok? && Remains(j, start, 0, bnd, None) == o && (text ==> Vouched(j.data, start, v, bnd, o.end))
    requires TextOut(text, j, HandedOut(o))
    ensures Settles(j, text, start, bnd, Parsed(o), v)
  {
    hide Remains, Vouched, TextOut, HandedOut;
  }

  lemma SettledErr(j: Job, text: bool, start: nat, bnd: nat, o: Outcome, v: nat)
    requires start <= |j.data| && o.Err? && Founders(j, start, 0, None, bnd, o.records, o.failure) && TextOut(text, j, HandedOut(o))
    ensures Settles(j, text, start, bnd, Parsed(o), v)
  {
    hide Founders, TextOut, HandedOut;
  }

  lemma SettledBad(j: Job, text: bool, start: nat, bnd: nat, records: seq<Record>, at: nat, v: nat)
    requires start <= |j.data| && text && Stuck(j.data, start, at) && records <= Remains(j, start, 0, bnd, None).records && TextOut(text, j, records)
    ensures Settles(j, text, start, bnd, BadUtf8(records, at), v)
  {
    hide Remains, TextOut, WellFormed, Stuck;
  }

  /** An end, once found, is not lost. */
  lemma {:induction false} EndIsKept(j: Job, pos: nat, bnd: nat, f: Flight, last: Option<nat>)
    requires pos <= |j.data|
    ensures var w := Scan(j, pos, bnd, f, last); w.Ok? && w.end.None? ==> last.None?
    decreases |j.data| - pos
  {
    hide Records.Step;
    if pos < |j.data| {
      match Records.Step(j, f, pos)
      case Blank => if pos < bnd { EndIsKept(j, pos + 1, bnd, f, last); }
      case Go(g) => EndIsKept(j, pos + 1, bnd, g, last);
      case Close(_) => if pos < bnd { EndIsKept(j, pos + 1, bnd, Fresh(pos + 1), Some(pos)); }
      case Fail(_) =>
    }
  }

  /**
   * Drive the stepper until the chunk is done, it fails, or the input ends. Whatever amounts
   * arrive at each refill and wherever the buffer lies, the run returns what one scan of the
   * input returns, or fails where that scan fails by the end of the input.
   */
  method Run(d: ChunkDriver, st: AnyStepper, ghost j: Job, text: bool, ghost start: nat) returns (r: DriverResult, ghost v: nat)
    requires Waits(d, st, j, text, start) && Short(d, st)
    requires st.Origin() == start && st.Oldest() == 0 && st.LastRecordEnd() == None
    modifies d, d.reader`base, d.reader`filled, d.reader.mem, st.Frame()
    ensures Settles(j, text, start, d.reader.chunkEnd, r, v)
  {
    hide Checked, WellFormed, Stuck, Vouched, AnyStepper.Resting, Remains, EndsWith, Keeps, Settles, Ending, TextOut;
    var records: seq<Record> := [];
    ghost var bnd := d.reader.chunkEnd;
    st.Front(j, d.reader.base, d.resumeAt, d.reader.mem[..]);
    KeepsNothing(j, start, 0, None, bnd);
    while true
      invariant Waits(d, st, j, text, start) && Short(d, st)
      invariant Keeps(j, start, 0, None, st.Oldest(), st.LastRecordEnd(), bnd, records)
      decreases d.reader.mem.Length - (d.reader.base + d.validated)
    {
      ghost var a1, last1 := st.Oldest(), st.LastRecordEnd();
      st.Front(j, d.reader.base, d.resumeAt, d.reader.mem[..]);
      KeptSoFar(j, text, start, a1, last1, bnd, records, d.reader.base + d.validated);
      var t, emitted := Turn(d, st, j, text, start);
      match t {
        case Continue =>
          KeepsMore(j, start, 0, None, a1, last1, st.Oldest(), st.LastRecordEnd(), bnd, records, emitted);
          records := records + emitted;
        case NoProgress => break;
        case Over(out) =>
          EndSettles(j, text, start, a1, last1, bnd, records, out, d.reader.base + d.validated);
          return Parsed(Prepend(records, out)), d.reader.base + d.validated;
        case Malformed(at) =>
          SettledBad(j, text, start, bnd, records, at, 0);
          return BadUtf8(records, at), 0;
      }
    }
    // bytes that a refill could not complete are ill-formed
    if d.reader.filled - d.reader.base > d.validated {
      SettledBad(j, text, start, bnd, records, d.totalConsumed + d.validated, 0);
      return BadUtf8(records, d.totalConsumed + d.validated), 0;
    }
    v := d.reader.base + d.validated;
    r := Finish(d, st, j, text, start, records);
  }

  /** End of the input: flush what is pending. */
  method Finish(d: ChunkDriver, st: AnyStepper, ghost j: Job, text: bool, ghost start: nat, records: seq<Record>) returns (r: DriverResult)
    requires Waits(d, st, j, text, start) && Short(d, st) && d.reader.base + d.validated == d.reader.filled == d.reader.mem.Length
    requires st.Origin() == start && Keeps(j, start, 0, None, st.Oldest(), st.LastRecordEnd(), d.reader.chunkEnd, records)
    modifies st.Frame(), d.reader.mem
    ensures Settles(j, text, start, d.reader.chunkEnd, r, |j.data|)
  {
    hide Checked, WellFormed, Stuck, Vouched, AnyStepper.Resting, Remains, Founders, Keeps, Settles;
    var ctx := StepCtx(d.reader.base, d.resumeAt, d.validated, d.reader.RemainingInChunk());
    var lastRecordEnd := st.LastRecordEnd();
    ghost var a1, last1, bnd := st.Oldest(), st.LastRecordEnd(), d.reader.chunkEnd;
    st.Front(j, d.reader.base, d.resumeAt, d.reader.mem[..]);
    var end, failure, emitted := st.Finalize(j, d.reader.mem, ctx, bnd);
    if failure.None? {
      NoneKept(j, start, a1, bnd, last1, emitted, end);
      FinishSettles(j, text, start, a1, last1, bnd, records, Ok(emitted, end));
      r := Parsed(Ok(records + emitted, if end.Some? then end else lastRecordEnd));
    } else {
      FinishSettles(j, text, start, a1, last1, bnd, records, Err(emitted, failure.value));
      r := Parsed(Err(records + emitted, failure.value));
    }
  }

  lemma FinishSettles(j: Job, text: bool, o: nat, a: nat, last: Option<nat>, bnd: nat, done: seq<Record>, out: Outcome)
    requires Keeps(j, o, 0, None, a, last, bnd, done) && o <= |j.data| && Checked(text, j.data, o, |j.data|) && o + a <= |j.data|
    requires out.Ok? ==> Remains(j, o, a, bnd, last) == out
    requires out.Err? ==> Founders(j, o, a, last, bnd, out.records, out.failure)
    ensures Settles(j, text, o, bnd, Parsed(Prepend(done, out)), |j.data|)
  {
    hide *;
    var n := |j.data|;
    var all := done + out.records;
    KeepsIs(j, o, 0, None, a, last, bnd, done);
    RemainsIs(j, o, 0, bnd, None);
    if out.Ok? {
      PrependOk(done, out.records, out.end);
      AllOffered(j, o, bnd, Fresh(o), None);
      HandedOk(all, out.end);
      ShownAsText(text, j, o, n, all, Ok(all, out.end));
      AllVouched(text, j.data, o, bnd);
      SettledOk(j, text, o, bnd, Ok(all, out.end), n);
    } else {
      FoundersLater(j, o, 0, None, a, last, bnd, done, out.records, out.failure);
      FoundersIs(j, o, 0, None, bnd, all, out.failure);
      OfferedByTheEnd(j, o, bnd, Fresh(o), None, all, out.failure);
      ShownAsText(text, j, o, n, HandedOut(Err(all, out.failure)), Err(all, out.failure));
      EndingIs(out);
      SettledErr(j, text, o, bnd, Err(all, out.failure), n);
    }
  }

  lemma HandedOk(rs: seq<Record>, end: Option<nat>)
    ensures HandedOut(Ok(rs, end)) == rs
  {
  }

  lemma AllVouched(text: bool, data: seq<byte>, start: nat, bnd: nat)
    requires start <= |data| && Checked(text, data, start, |data|)
    ensures text ==> forall e: Option<nat> :: Vouched(data, start, |data|, bnd, e)
  {
    hide WellFormed;
  }

  lemma NoneKept(j: Job, o: nat, a: nat, bnd: nat, last: Option<nat>, emitted: seq<Record>, end: Option<nat>)
    requires o + a <= |j.data| && Remains(j, o, a, bnd, last) == Ok(emitted, end)
    ensures end.None? ==> last.None?
  {
    hide Scan;
    EndIsKept(j, o + a, bnd, Fresh(o + a), last);
  }
}
