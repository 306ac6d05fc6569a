/** The chunk parser's hot loop: the table driven over a buffer it compacts in place. */
module Stepper {
  import opened Dialect
  import opened Dfa
  import opened Records
  import opened Handed
  import opened Compiled
  import opened Needles
  import opened Runs
  import opened InPlace

  /** The driver's view of the buffer: it starts at absolute offset `base`; the other offsets are relative to that. */
  datatype StepCtx = StepCtx(base: nat, scanStart: nat, scanEnd: nat, remainingInChunk: nat)

  datatype StepResult =
    | Suspended(resumeAt: nat, consumable: nat, lastRecordEnd: Option<nat>)
    | Done(end: nat)
    | Failed(failure: Failure)

  class DfaStepper {
    const cfg: Config
    const tables: Tables
    const accept: Record -> bool

    var dfaState: State
    /** Cursors relative to the buffer's start. */
    var fieldStart: nat
    var writePos: nat
    var recordBufStart: nat
    /** The record in flight as addresses, during a call only. */
    var refs: seq<Span>
    /** The same demoted to buffer offsets between calls. */
    var pendingSpans: seq<Span>
    var lastRecordEnd: Option<nat>
    var recordInStart: nat
    var fieldInStart: nat

    constructor (cfg: Config, tables: Tables, accept: Record -> bool, startOffset: nat)
      ensures this.cfg == cfg && this.tables == tables && this.accept == accept
      ensures refs == [] && pendingSpans == [] && lastRecordEnd == None
      ensures Resting(startOffset) == Cursor(RecordStart, startOffset, startOffset, startOffset, [], startOffset, startOffset)
    {
      this.cfg, this.tables, this.accept := cfg, tables, accept;
      dfaState := RecordStart;
      fieldStart, writePos, recordBufStart := 0, 0, 0;
      refs, pendingSpans := [], [];
      lastRecordEnd := None;
      recordInStart, fieldInStart := startOffset, startOffset;
    }

    /** The cursors as absolute offsets within a call, for a buffer that starts at `base`. */
    ghost function Now(base: nat): Cursor
      reads this
    {
      Cursor(dfaState, base + fieldStart, base + writePos, base + recordBufStart, refs, recordInStart, fieldInStart)
    }

    /** The cursors as absolute offsets between calls. */
    ghost function Resting(base: nat): Cursor
      reads this
    {
      Cursor(dfaState, base + fieldStart, base + writePos, base + recordBufStart, Shifted(pendingSpans, base), recordInStart, fieldInStart)
    }

    lemma StateIs(base: nat)
      ensures Now(base).state == Resting(base).state == dfaState && Now(base).spans == refs && Now(base).recordStart == base + recordBufStart
    {
    }

    /** Promote the spans of the record in flight to addresses. */
    method Resume(base: nat)
      requires refs == []
      modifies this
      ensures Now(base) == old(Resting(base)) && pendingSpans == []
      ensures lastRecordEnd == old(lastRecordEnd)
    {
      if pendingSpans != [] {
        refs := Shifted(pendingSpans, base);
        pendingSpans := [];
      }
    }

    /** Demote the record in flight to buffer offsets. */
    method Suspend(base: nat)
      requires pendingSpans == [] && forall s :: s in refs ==> base <= s.0
      modifies this
      ensures Resting(base) == old(Now(base)) && refs == []
      ensures lastRecordEnd == old(lastRecordEnd)
    {
      if refs != [] {
        pendingSpans := Demoted(refs, base);
        refs := [];
      }
    }

    /** Skip a run of content, moving it down to the write position. */
    method ScanRun(mem: array<byte>, base: nat, pos: nat, scanEnd: nat) returns (next: nat)
      requires cfg.Valid() && CompiledFrom(cfg, tables)
      requires writePos <= pos <= scanEnd && base + scanEnd <= mem.Length
      requires dfaState.InField? || dfaState.InQuotedField?
      modifies `writePos, mem
      ensures pos <= next <= scanEnd
      ensures forall i :: base + pos <= i < base + next ==> InRun(cfg, dfaState, old(mem[i]))
      ensures next < scanEnd ==> !InRun(cfg, dfaState, old(mem[base + next]))
      ensures writePos == old(writePos) + (next - pos)
      ensures mem[..] == Moved(old(mem[..]), base + old(writePos), base + pos, next - pos)
    {
      hide CompiledFrom, InRun, Moved;
      assert tables.Valid() by { TablesValid(cfg, tables); }
      ghost var m := mem[..];
      var hay := mem[base + pos..base + scanEnd];
      var off := Find(if dfaState.InField? then tables.inField else tables.inQuoted, hay);
      assert hay == m[base + pos..base + scanEnd];
      RunFound(cfg, tables, dfaState, m, base + pos, base + scanEnd, off);
      next := if off.Some? then pos + off.value else scanEnd;
      var len := next - pos;
      if len != 0 && writePos != pos {
        MoveDown(mem, base + pos, base + writePos, len);
      }
      Rejoin(m, mem[..], base + writePos, base + pos, len);
      writePos := writePos + len;
    }

    /** The stepper was built for this job's dialect and accumulator. */
    ghost predicate Serves(j: Job) {
      cfg.Valid() && CompiledFrom(cfg, tables) && j.cfg == cfg && j.accept == accept
    }

    /** Close the open field: its range joins the record in flight. */
    method PushField(base: nat)
      requires fieldStart <= writePos
      modifies `refs
      ensures refs == old(refs) + [(base + fieldStart, writePos - fieldStart)]
    {
      refs := refs + [(base + fieldStart, writePos - fieldStart)];
    }

    /** The next field is empty and starts at `pos`. */
    method StartFieldAt(base: nat, pos: nat)
      modifies `fieldStart, `fieldInStart, `writePos
      ensures fieldStart == writePos == pos && fieldInStart == base + pos
    {
      fieldStart := pos;
      fieldInStart := base + pos;
      writePos := pos;
    }

    /** Arity check and accumulator for the record in flight. */
    method EmitRecord(mem: array<byte>) returns (r: Record, v: Option<Failure>)
      requires forall s :: s in refs ==> s.0 + s.1 <= mem.Length
      modifies `refs
      ensures r == old(Fields(mem[..], refs)) && refs == []
      ensures v == if cfg.fieldCount.Some? && |r| != cfg.fieldCount.value then Some(NumberOfFields(cfg.fieldCount.value, |r|, recordInStart))
                   else if !accept(r) then Some(Rejected(r)) else None
    {
      r := Fields(mem[..], refs);
      if cfg.fieldCount.Some? && |refs| != cfg.fieldCount.value {
        v := Some(NumberOfFields(cfg.fieldCount.value, |refs|, recordInStart));
      } else if !accept(r) {
        v := Some(Rejected(r));
      } else {
        v := None;
      }
      refs := [];
    }

    /** Close the field, and the record if `s` ends it; `pos` is behind the byte. */
    method ApplyAction(ghost j: Job, s: State, mem: array<byte>, base: nat, pos: nat, remainingInChunk: nat, ghost bnd: nat)
      returns (out: Option<StepResult>, emitted: seq<Record>)
      requires Serves(j) && remainingInChunk == (if bnd < base then 0 else bnd - base) && pos >= 1
      requires Good(j, mem[..], Now(base), base + pos - 1) && Entering(j, Now(base), base + pos - 1)
      requires Cell(cfg, dfaState, j.data[base + pos - 1]).next == s
      requires s.FieldEnd? || s.RecordEnd? || s.Error?
      requires pendingSpans == []
      modifies this
      ensures pendingSpans == []
      ensures out.None? ==> Good(j, mem[..], Now(base), base + pos) && dfaState == Settle(s)
      ensures emitted != [] || (out.Some? && out.value.Failed? && out.value.failure.Rejected?) ==> s.RecordEnd?
      ensures var whole := old(Remaining(j, mem[..], Now(base), base + pos - 1, bnd, lastRecordEnd));
              match out
              case None => whole == Prepend(emitted, Remaining(j, mem[..], Now(base), base + pos, bnd, lastRecordEnd))
              case Some(Done(e)) => whole == Ok(emitted, Some(e)) && bnd <= e < base + pos
              case Some(Failed(x)) => whole == Err([], x) && emitted == []
              case Some(Suspended(_, _, _)) => false
    {
      hide Cell, Scan, View, Layout, Unread, Fields, CompiledFrom;
      ghost var m := mem[..];
      ghost var c := Now(base);
      emitted := [];
      if s.Error? {
        ErrorByte(j, m, c, base + pos - 1, bnd, lastRecordEnd);
        return Some(Failed(InvalidQuote(base + pos - 1))), [];
      }
      LayoutBounds(c, base + pos - 1);
      UnreadBounds(m, j.data, base + pos - 1);
      PushField(base);
      StartFieldAt(base, pos);
      if s.FieldEnd? {
        FieldEndByte(j, m, c, base + pos - 1, bnd, lastRecordEnd);
        dfaState := FieldStart;
        assert Now(base) == Closed(c, base + pos);
        PrependNothing(Remaining(j, mem[..], Now(base), base + pos, bnd, lastRecordEnd));
        return None, [];
      }
      out, emitted := CloseRecord(j, mem, base, pos, remainingInChunk, bnd, m, c);
    }

    /** Emit the record in flight, its last field closed, and start over behind the terminator. */
    method CloseRecord(ghost j: Job, mem: array<byte>, base: nat, pos: nat, remainingInChunk: nat, ghost bnd: nat, ghost m: seq<byte>, ghost c: Cursor)
      returns (out: Option<StepResult>, emitted: seq<Record>)
      requires Serves(j) && remainingInChunk == (if bnd < base then 0 else bnd - base) && pos >= 1 && mem[..] == m
      requires Good(j, m, c, base + pos - 1) && Entering(j, c, base + pos - 1) && c.fieldStart <= c.writePos
      requires Cell(cfg, c.state, j.data[base + pos - 1]).next.RecordEnd?
      requires refs == c.spans + [(c.fieldStart, c.writePos - c.fieldStart)] && recordInStart == c.recordIn && pendingSpans == []
      modifies this
      ensures pendingSpans == []
      ensures out.None? ==> Good(j, m, Now(base), base + pos) && dfaState == RecordStart
      ensures var whole := Remaining(j, m, c, base + pos - 1, bnd, old(lastRecordEnd));
              match out
              case None => whole == Prepend(emitted, Remaining(j, m, Now(base), base + pos, bnd, lastRecordEnd))
              case Some(Done(e)) => whole == Ok(emitted, Some(e)) && bnd <= e < base + pos
              case Some(Failed(x)) => whole == Err([], x) && emitted == []
              case Some(Suspended(_, _, _)) => false
    {
      hide Cell, Scan, View, Layout, Unread, Fields, CompiledFrom;
      UnreadBounds(m, j.data, base + pos - 1);
      RecordEndByte(j, m, c, base + pos - 1, bnd, lastRecordEnd);
      ClosedFields(m, c, base + pos - 1);
      var r, v := EmitRecord(mem);
      if v.Some? {
        return Some(Failed(v.value)), [];
      }
      var anchor := pos - 1;
      lastRecordEnd := Some(base + anchor);
      recordBufStart := pos;
      StartFieldAt(base, pos);
      dfaState := RecordStart;
      assert Now(base) == Restarted(c, base + pos);
      // The next chunk searches for a boundary and meets this same byte.
      if anchor >= remainingInChunk {
        return Some(Done(base + anchor)), [r];
      }
      return None, [r];
    }

    /** One byte through the table, with compaction and the action it triggers. */
    method StepByte(ghost j: Job, mem: array<byte>, base: nat, pos: nat, remainingInChunk: nat, ghost bnd: nat)
      returns (out: Option<StepResult>, emitted: seq<Record>)
      requires Serves(j) && remainingInChunk == if bnd < base then 0 else bnd - base
      requires Good(j, mem[..], Now(base), base + pos) && Entering(j, Now(base), base + pos)
      requires pendingSpans == []
      modifies this, mem
      ensures pendingSpans == []
      ensures out.None? ==> Good(j, mem[..], Now(base), base + pos + 1) && dfaState == Settle(Cell(cfg, old(dfaState), j.data[base + pos]).next)
      ensures emitted != [] || (out.Some? && out.value.Failed? && out.value.failure.Rejected?) ==> Cell(cfg, old(dfaState), j.data[base + pos]).next.RecordEnd?
      ensures var whole := old(Remaining(j, mem[..], Now(base), base + pos, bnd, lastRecordEnd));
              match out
              case None => whole == Prepend(emitted, Remaining(j, mem[..], Now(base), base + pos + 1, bnd, lastRecordEnd))
              case Some(Done(e)) => whole == Ok(emitted, Some(e)) && bnd <= e <= base + pos
              case Some(Failed(x)) => whole == Err([], x) && emitted == []
              case Some(Suspended(_, _, _)) => false
    {
      hide Cell, Scan, View, Layout, Unread, Fields, CompiledFrom;
      ghost var m := mem[..];
      ghost var c := Now(base);
      LayoutBounds(c, base + pos);
      UnreadBounds(m, j.data, base + pos);
      var byte := mem[base + pos];
      assert byte == j.data[base + pos] by { SameByte(m, j.data, base + pos); }
      CompiledCell(cfg, tables, dfaState, byte);
      var trans := tables.Transition(dfaState, byte);
      ActionsKeepNothing(cfg, dfaState, byte);
      if trans.output {
        if writePos != pos {
          mem[base + writePos] := byte;
        }
        writePos := writePos + 1;
      }
      var s := trans.next;
      if !s.FieldEnd? && !s.RecordEnd? && !s.Error? {
        InteriorByte(j, m, c, base + pos, bnd, lastRecordEnd);
        dfaState := s;
        assert mem[..] == Kept(m, c, byte, trans.output);
        PrependNothing(Remaining(j, mem[..], Now(base), base + pos + 1, bnd, lastRecordEnd));
        return None, [];
      }
      assert mem[..] == m && Now(base) == c;
      out, emitted := ApplyAction(j, s, mem, base, pos + 1, remainingInChunk, bnd);
    }

    method BlankEnd(mem: array<byte>, start: nat, end: nat) returns (pos: nat)
      requires cfg.Valid() && CompiledFrom(cfg, tables) && start <= end <= mem.Length
      ensures start <= pos <= end
      ensures forall i :: start <= i < pos ==> cfg.IsTerm(mem[i])
      ensures pos < end ==> !cfg.IsTerm(mem[pos])
    {
      hide CompiledFrom;
      assert tables.Valid() by { TablesValid(cfg, tables); }
      pos := start;
      while pos < end && !tables.recordStartStructural[mem[pos] as int]
        invariant start <= pos <= end
        invariant forall i :: start <= i < pos ==> cfg.IsTerm(mem[i])
      {
        BlankMask(cfg, tables, mem[pos]);
        pos := pos + 1;
      }
      if pos < end {
        BlankMask(cfg, tables, mem[pos]);
      }
    }

    /** Skip blank lines at a record start; the pass ends on the first terminator at or past the boundary. */
    method SkipBlankRun(ghost j: Job, mem: array<byte>, base: nat, start: nat, scanEnd: nat, remainingInChunk: nat, ghost bnd: nat)
      returns (pos: nat, done: Option<nat>)
      requires Serves(j) && remainingInChunk == if bnd < base then 0 else bnd - base
      requires start <= scanEnd && base + scanEnd <= mem.Length && dfaState.RecordStart?
      requires Good(j, mem[..], Now(base), base + start)
      modifies `recordInStart, `fieldInStart
      ensures start <= pos <= scanEnd && (done.Some? ==> done.value < scanEnd && bnd <= base + done.value)
      ensures mem.Length == |j.data| && forall i :: base + start <= i < base + pos ==> Stays(cfg, dfaState, j.data[i])
      ensures var whole := old(Remaining(j, mem[..], Now(base), base + start, bnd, lastRecordEnd));
              if done.Some? then whole == Ok([], Some(base + done.value))
              else && Good(j, mem[..], Now(base), base + pos)
                   && (pos < scanEnd ==> Entering(j, Now(base), base + pos))
                   && whole == Remaining(j, mem[..], Now(base), base + pos, bnd, lastRecordEnd)
    {
      hide Scan, Layout, Unread, View, CompiledFrom;
      ghost var m := mem[..];
      ghost var c := Now(base);
      var next := BlankEnd(mem, base + start, base + scanEnd);
      pos := next - base;
      BlankSkipped(j, m, c, base + start, next, bnd, lastRecordEnd);
      BlanksStay(j, m, c, base + start, next);
      GoodIs(j, m, c, base + start);
      var anchor := Max(remainingInChunk, start);
      if anchor < pos {
        return pos, Some(anchor);
      }
      recordInStart := base + pos;
      fieldInStart := base + pos;
      done := None;
    }

    /** The bulk arms: content runs move down at once, blank lines are skipped. */
    method Skip(ghost j: Job, mem: array<byte>, base: nat, pos: nat, scanEnd: nat, remainingInChunk: nat, ghost bnd: nat)
      returns (next: nat, done: Option<nat>)
      requires Serves(j) && remainingInChunk == if bnd < base then 0 else bnd - base
      requires pos < scanEnd && base + scanEnd <= mem.Length
      requires Good(j, mem[..], Now(base), base + pos)
      modifies `writePos, `recordInStart, `fieldInStart, mem
      ensures pos <= next <= scanEnd && (done.Some? ==> done.value < scanEnd && bnd <= base + done.value)
      ensures mem.Length == |j.data| && forall i :: base + pos <= i < base + next ==> Stays(cfg, dfaState, j.data[i])
      ensures var whole := old(Remaining(j, mem[..], Now(base), base + pos, bnd, lastRecordEnd));
              if done.Some? then whole == Ok([], Some(base + done.value))
              else && Good(j, mem[..], Now(base), base + next)
                   && (next < scanEnd ==> Entering(j, Now(base), base + next))
                   && whole == Remaining(j, mem[..], Now(base), base + next, bnd, lastRecordEnd)
    {
      hide Scan, Layout, Unread, View, CompiledFrom, Moved, InRun;
      ghost var m := mem[..];
      ghost var c := Now(base);
      LayoutBounds(c, base + pos);
      UnreadBounds(m, j.data, base + pos);
      done := None;
      if dfaState.InField? || dfaState.InQuotedField? {
        next := ScanRun(mem, base, pos, scanEnd);
        assert forall i :: base + pos <= i < base + next ==> InRun(cfg, c.state, m[i]);
        RunMoved(j, m, mem[..], c, base + pos, base + next, bnd, lastRecordEnd);
        RunStays(j, m, c, base + pos, base + next);
      } else if dfaState.RecordStart? {
        next, done := SkipBlankRun(j, mem, base, pos, scanEnd, remainingInChunk, bnd);
      } else {
        next := pos;
      }
    }

    /** What a suspension at `pos` lets the driver release. */
    function Consumable(pos: nat): nat
      reads this
    {
      if pendingSpans == [] && fieldStart == writePos then pos else recordBufStart
    }

    /** One turn of the hot loop: a bulk arm, then one byte through the table. */
    method RunAndByte(ghost j: Job, mem: array<byte>, base: nat, pos: nat, scanEnd: nat, remainingInChunk: nat, ghost bnd: nat, ghost o: nat, ghost told: seq<Record>)
      returns (out: Option<StepResult>, next: nat, more: seq<Record>)
      requires Serves(j) && remainingInChunk == (if bnd < base then 0 else bnd - base)
      requires pos < scanEnd && base + scanEnd <= mem.Length && pendingSpans == [] && Good(j, mem[..], Now(base), base + pos)
      requires Told(j, o, bnd, told, Remaining(j, mem[..], Now(base), base + pos, bnd, lastRecordEnd), dfaState, base + pos)
      modifies this, mem
      ensures pendingSpans == [] && base + scanEnd <= |j.data| && o <= base + scanEnd
      ensures out.None? ==>
        && pos < next <= scanEnd && Good(j, mem[..], Now(base), base + next)
        && Told(j, o, bnd, told + more, Remaining(j, mem[..], Now(base), base + next, bnd, lastRecordEnd), dfaState, base + next)
        && old(Remaining(j, mem[..], Now(base), base + pos, bnd, lastRecordEnd)) == Prepend(more, Remaining(j, mem[..], Now(base), base + next, bnd, lastRecordEnd))
      ensures out.Some? ==> Finishes(out.value, old(Remaining(j, mem[..], Now(base), base + pos, bnd, lastRecordEnd)), more, bnd, base + scanEnd)
      ensures out.Some? && out.value.Done? ==> told + more <= Offered(j, o, base + scanEnd, Fresh(o))
      ensures out.Some? && out.value.Failed? ==> HandedOut(Err(told + more, out.value.failure)) <= Offered(j, o, base + scanEnd, Fresh(o))
    {
      hide Good, Remaining, Entering, View, Layout, Told, Offered, HandedOut, Scan, Cell, Settle, Stays, Idle;
      ghost var s := dfaState;
      ghost var whole := Remaining(j, mem[..], Now(base), base + pos, bnd, lastRecordEnd);
      ToldIs(j, o, bnd, told, whole, s, base + pos);
      PrependNothing(whole);
      assert told + [] == told;
      var stop;
      next, stop := Skip(j, mem, base, pos, scanEnd, remainingInChunk, bnd);
      more := [];
      if stop.Some? {
        ToldEnd(j, o, bnd, told, [], base + stop.value, s, base + pos, base + scanEnd);
        return Some(Done(base + stop.value)), next, [];
      }
      ToldOver(j, o, bnd, told, whole, s, base + pos, base + next);
      if next >= scanEnd {
        return None, next, [];
      }
      out, more := StepByte(j, mem, base, next, remainingInChunk, bnd);
      if out.Some? {
        ToldLast(j, o, bnd, told, more, whole, out.value, s, base + next, base + scanEnd);
      } else {
        ToldNext(j, o, bnd, told, more, whole, s, base + next, mem[..], Now(base), lastRecordEnd);
      }
      next := next + 1;
    }

    /** Run the table over `buf[scanStart..scanEnd]`, emitting records; `o` is where the walk began, and `done` what it handed out before. */
    method Step(ghost j: Job, mem: array<byte>, ctx: StepCtx, ghost bnd: nat, ghost o: nat, ghost done: seq<Record>) returns (res: StepResult, emitted: seq<Record>)
      requires Serves(j) && ctx.remainingInChunk == if bnd < ctx.base then 0 else bnd - ctx.base
      requires ctx.scanStart <= ctx.scanEnd && ctx.base + ctx.scanEnd <= mem.Length
      requires refs == [] && Good(j, mem[..], Resting(ctx.base), ctx.base + ctx.scanStart)
      requires Told(j, o, bnd, done, Remaining(j, mem[..], Resting(ctx.base), ctx.base + ctx.scanStart, bnd, lastRecordEnd), dfaState, ctx.base + ctx.scanStart)
      modifies this, mem
      ensures o <= ctx.base + ctx.scanEnd <= |j.data|
      ensures res.Suspended? ==>
        && Good(j, mem[..], Resting(ctx.base), ctx.base + ctx.scanEnd)
        && Told(j, o, bnd, done + emitted, Remaining(j, mem[..], Resting(ctx.base), ctx.base + ctx.scanEnd, bnd, lastRecordEnd), dfaState, ctx.base + ctx.scanEnd)
      ensures res.Done? ==> done + emitted <= Offered(j, o, ctx.base + ctx.scanEnd, Fresh(o))
      ensures res.Failed? ==> HandedOut(Err(done + emitted, res.failure)) <= Offered(j, o, ctx.base + ctx.scanEnd, Fresh(o))
      ensures var whole := old(Remaining(j, mem[..], Resting(ctx.base), ctx.base + ctx.scanStart, bnd, lastRecordEnd));
              if res.Suspended? then
                && res.resumeAt == ctx.scanEnd && res.lastRecordEnd == lastRecordEnd && res.consumable == Consumable(ctx.scanEnd) && refs == []
                && whole == Prepend(emitted, Remaining(j, mem[..], Resting(ctx.base), ctx.base + ctx.scanEnd, bnd, lastRecordEnd))
              else Finishes(res, whole, emitted, bnd, ctx.base + ctx.scanEnd)
    {
      hide *;
      var base := ctx.base;
      var pos := ctx.scanStart;
      emitted := [];
      ghost var whole := Remaining(j, mem[..], Resting(base), base + pos, bnd, lastRecordEnd);
      StateIs(base);
      Resume(base);
      StateIs(base);
      PrependNothing(whole);
      assert done + [] == done;
      GoodIs(j, mem[..], Now(base), base + pos);
      ToldIs(j, o, bnd, done, whole, dfaState, base + pos);
      while pos < ctx.scanEnd
        invariant ctx.scanStart <= pos <= ctx.scanEnd && pendingSpans == []
        invariant Good(j, mem[..], Now(base), base + pos)
        invariant whole == Prepend(emitted, Remaining(j, mem[..], Now(base), base + pos, bnd, lastRecordEnd))
        invariant Told(j, o, bnd, done + emitted, Remaining(j, mem[..], Now(base), base + pos, bnd, lastRecordEnd), dfaState, base + pos)
      {
        ghost var before, first := Remaining(j, mem[..], Now(base), base + pos, bnd, lastRecordEnd), emitted;
        var out, next, more := RunAndByte(j, mem, base, pos, ctx.scanEnd, ctx.remainingInChunk, bnd, o, done + emitted);
        emitted := emitted + more;
        assert (done + first) + more == done + emitted;
        if out.Some? {
          Chain(whole, first, before, more, out.value, bnd, base + ctx.scanEnd);
          return out.value, emitted;
        }
        PrependTwice(first, more, Remaining(j, mem[..], Now(base), base + next, bnd, lastRecordEnd));
        pos := next;
      }
      GoodBounds(j, mem[..], Now(base), base + pos);
      StateIs(base);
      Suspend(base);
      StateIs(base);
      res := Suspended(pos, Consumable(pos), lastRecordEnd);
    }

    /** The driver consumed `n` bytes: the buffer now starts `n` later. */
    method Consume(ghost j: Job, ghost m: seq<byte>, ghost base: nat, ghost pos: nat, n: nat, ghost bnd: nat)
      requires base <= pos && refs == [] && Good(j, m, Resting(base), pos)
      requires n == Consumable(pos - base) && n <= pos - base
      modifies `fieldStart, `writePos, `recordBufStart, `pendingSpans
      ensures Good(j, m, Resting(base + n), pos)
      ensures Remaining(j, m, Resting(base + n), pos, bnd, lastRecordEnd) == old(Remaining(j, m, Resting(base), pos, bnd, lastRecordEnd))
    {
      hide Good, Remaining;
      ghost var c := Resting(base);
      ghost var empty := pendingSpans == [] && fieldStart == writePos;
      ghost var d := if empty then c.(fieldStart := pos, writePos := pos, recordStart := pos) else c;
      GoodBounds(j, m, c, pos);
      SpanBounds(j, m, c, pos, pendingSpans, base);
      if empty {
        EmptyMoves(j, m, c, pos, bnd, lastRecordEnd);
      }
      fieldStart := if fieldStart < n then 0 else fieldStart - n;
      writePos := if writePos < n then 0 else writePos - n;
      recordBufStart := if recordBufStart < n then 0 else recordBufStart - n;
      ReShift(pendingSpans, base, n);
      pendingSpans := Demoted(pendingSpans, n);
      assert Resting(base + n) == d;
    }

    /** End of input: flush the open record, or reject an open quote. */
    method Finalize(ghost j: Job, mem: array<byte>, ctx: StepCtx, ghost bnd: nat) returns (end: Option<nat>, failure: Option<Failure>, emitted: seq<Record>)
      requires Serves(j) && ctx.base + ctx.scanEnd == mem.Length
      requires refs == [] && Good(j, mem[..], Resting(ctx.base), mem.Length)
      modifies this
      ensures old(Remaining(j, mem[..], Resting(ctx.base), mem.Length, bnd, lastRecordEnd)) ==
                if failure.Some? then Err(emitted, failure.value) else Ok(emitted, if end.Some? then end else old(lastRecordEnd))
    {
      hide Good, Remaining, Fields;
      ghost var m := mem[..];
      ghost var c := Resting(ctx.base);
      AtEnd(j, m, c, bnd, lastRecordEnd);
      end, failure, emitted := None, None, [];
      match dfaState {
        case RecordStart | InComment =>
        case InQuotedField | InEscapedQuote =>
          failure := Some(UnclosedQuote(fieldInStart));
        case FieldStart | InField | AfterClosingQuote =>
          Resume(ctx.base);
          PushField(ctx.base);
          var r, v := EmitRecord(mem);
          if v.Some? {
            failure := v;
          } else {
            end, emitted := Some(ctx.base + ctx.scanEnd), [r];
          }
        case FieldEnd | RecordEnd | Error =>
      }
    }
  }

  lemma GoodIs(j: Job, m: seq<byte>, c: Cursor, pos: nat)
    requires Good(j, m, c, pos)
    ensures |m| == |j.data|
  {
  }

  /** One byte on, what was handed out and what remains are known as before. */
  lemma ToldNext(j: Job, o: nat, bnd: nat, told: seq<Record>, more: seq<Record>, before: Outcome, s: State, p: nat, m: seq<byte>, c: Cursor, last: Option<nat>)
    requires Told(j, o, bnd, told, before, s, p) && p < |j.data| && Good(j, m, c, p + 1)
    requires before == Prepend(more, Remaining(j, m, c, p + 1, bnd, last))
    requires c.state == Settle(Cell(j.cfg, s, j.data[p]).next) && (more != [] ==> Cell(j.cfg, s, j.data[p]).next.RecordEnd?)
    ensures Told(j, o, bnd, told + more, Remaining(j, m, c, p + 1, bnd, last), c.state, p + 1)
  {
    hide Good, Remaining, View, Layout, Told, Scan, Cell, Idle;
    if more == [] {
      PrependNothing(Remaining(j, m, c, p + 1, bnd, last));
      ToldByte(j, o, bnd, told, before, s, p);
      assert told + more == told;
    } else {
      RestsIdle(j, m, c, p + 1, bnd, last);
      ToldClose(j, o, bnd, told, more, before, s, p, View(m, c, p + 1), last);
    }
  }

  /** On the last byte, everything handed out was handed out by then. */
  lemma ToldLast(j: Job, o: nat, bnd: nat, told: seq<Record>, more: seq<Record>, before: Outcome, res: StepResult, s: State, p: nat, v: nat)
    requires Told(j, o, bnd, told, before, s, p) && p < v <= |j.data| && !res.Suspended?
    requires res.Done? ==> before == Ok(more, Some(res.end)) && res.end < v
    requires res.Failed? ==> before == Err([], res.failure) && more == [] && (res.failure.Rejected? ==> Cell(j.cfg, s, j.data[p]).next.RecordEnd?)
    ensures o <= v
    ensures res.Done? ==> told + more <= Offered(j, o, v, Fresh(o))
    ensures res.Failed? ==> HandedOut(Err(told + more, res.failure)) <= Offered(j, o, v, Fresh(o))
  {
    hide Told, Offered, Scan, Cell, HandedOut;
    ToldIs(j, o, bnd, told, before, s, p);
    if res.Done? {
      ToldEnd(j, o, bnd, told, more, res.end, s, p, v);
    } else {
      assert told + more == told;
      ToldFailure(j, o, bnd, told, res.failure, s, p);
      OfferedGrows(j, o, p + 1, v, Fresh(o));
    }
  }

  /** Between records nothing is in flight. */
  lemma RestsIdle(j: Job, m: seq<byte>, c: Cursor, pos: nat, bnd: nat, last: Option<nat>)
    requires Good(j, m, c, pos) && c.state.RecordStart?
    ensures Layout(c, pos) && pos <= |m| && View(m, c, pos).state.RecordStart? && Idle(View(m, c, pos))
    ensures Remaining(j, m, c, pos, bnd, last) == Scan(j, pos, bnd, View(m, c, pos), last)
  {
  }

  lemma RunStays(j: Job, m: seq<byte>, c: Cursor, p: nat, q: nat)
    requires Good(j, m, c, p) && p <= q <= |m| && forall i :: p <= i < q ==> InRun(j.cfg, c.state, m[i])
    requires c.state.InField? || c.state.InQuotedField?
    ensures forall i :: p <= i < q ==> Stays(j.cfg, c.state, j.data[i])
  {
    forall i | p <= i < q ensures m[i] == j.data[i] {
      assert m[p..][i - p] == j.data[p..][i - p];
    }
  }

  lemma BlanksStay(j: Job, m: seq<byte>, c: Cursor, p: nat, q: nat)
    requires Good(j, m, c, p) && p <= q <= |m| && c.state.RecordStart? && forall i :: p <= i < q ==> j.cfg.IsTerm(m[i])
    ensures forall i :: p <= i < q ==> Stays(j.cfg, c.state, j.data[i])
  {
    forall i | p <= i < q ensures m[i] == j.data[i] {
      assert m[p..][i - p] == j.data[p..][i - p];
    }
  }

  lemma SameByte(m: seq<byte>, data: seq<byte>, pos: nat)
    requires Unread(m, data, pos) && pos < |m|
    ensures m[pos] == data[pos]
  {
    assert m[pos] == m[pos..][0] == data[pos..][0];
  }

  /** The record about to be emitted: the closed fields, the last one included. */
  lemma ClosedFields(m: seq<byte>, c: Cursor, pos: nat)
    requires Layout(c, pos) && pos <= |m|
    ensures var spans := c.spans + [(c.fieldStart, c.writePos - c.fieldStart)];
            && (forall s :: s in spans ==> s.0 + s.1 <= |m|)
            && Fields(m, spans) == RecordOf(m, c, pos)
  {
    FieldsAppend(m, c.spans, (c.fieldStart, c.writePos - c.fieldStart));
  }

  lemma BlankMask(c: Config, t: Tables, b: byte)
    requires CompiledFrom(c, t)
    ensures t.Valid() && t.recordStartStructural[b as int] == !c.IsTerm(b)
  {
  }

  /** A result that ends the pass, before byte `v`: all that remained was emitted, or it fails behind that. */
  predicate Finishes(res: StepResult, whole: Outcome, emitted: seq<Record>, bnd: nat, v: nat) {
    match res
    case Done(e) => whole == Ok(emitted, Some(e)) && bnd <= e < v
    case Failed(x) => whole == Err(emitted, x)
    case Suspended(_, _, _) => false
  }

  lemma Chain(whole: Outcome, emitted: seq<Record>, before: Outcome, more: seq<Record>, res: StepResult, bnd: nat, v: nat)
    requires whole == Prepend(emitted, before) && Finishes(res, before, more, bnd, v)
    ensures Finishes(res, whole, emitted + more, bnd, v)
  {
  }

  /** What is left to do at the end of the input. */
  lemma AtEnd(j: Job, m: seq<byte>, c: Cursor, bnd: nat, last: Option<nat>)
    requires Good(j, m, c, |m|)
    ensures c.fieldStart <= c.writePos
    ensures var spans := c.spans + [(c.fieldStart, c.writePos - c.fieldStart)];
            && (forall s :: s in spans ==> s.0 + s.1 <= |m|)
            && Remaining(j, m, c, |m|, bnd, last) ==
               match c.state
               case InQuotedField | InEscapedQuote => Err([], UnclosedQuote(c.fieldIn))
               case FieldStart | InField | AfterClosingQuote =>
                 var r := Fields(m, spans);
                 var v := Verdict(j, r, c.recordIn);
                 if v.Some? then Err([], v.value) else Ok([r], Some(|m|))
               case _ => Ok([], last)
  {
    ClosedFields(m, c, |m|);
    hide Fields;
    UnreadBounds(m, j.data, |m|);
  }

  /** A pending span never lies in front of the record that owns it. */
  lemma SpanBounds(j: Job, m: seq<byte>, c: Cursor, pos: nat, pending: seq<Span>, base: nat)
    requires Good(j, m, c, pos) && c.spans == Shifted(pending, base) && base <= c.recordStart
    ensures forall s :: s in pending ==> c.recordStart <= s.0 + base
  {
    forall s | s in pending ensures c.recordStart <= s.0 + base {
      var i :| 0 <= i < |pending| && pending[i] == s;
      assert c.spans[i] in c.spans;
    }
  }

  lemma ReShift(spans: seq<Span>, base: nat, n: nat)
    requires forall s :: s in spans ==> n <= s.0
    ensures Shifted(Demoted(spans, n), base + n) == Shifted(spans, base)
  {
  }

  lemma GoodBounds(j: Job, m: seq<byte>, c: Cursor, pos: nat)
    requires Good(j, m, c, pos)
    ensures |m| == |j.data| && pos <= |m| && c.recordStart <= c.fieldStart <= c.writePos <= pos
    ensures forall s :: s in c.spans ==> c.recordStart <= s.0
  {
  }

  lemma CompiledCell(c: Config, t: Tables, s: State, b: byte)
    requires CompiledFrom(c, t)
    ensures t.Valid() && t.Transition(s, b) == Cell(c, s, b)
  {
  }

  lemma LayoutBounds(c: Cursor, pos: nat)
    requires Layout(c, pos)
    ensures c.recordStart <= c.fieldStart <= c.writePos <= pos
  {
  }

  lemma UnreadBounds(m: seq<byte>, data: seq<byte>, pos: nat)
    requires Unread(m, data, pos)
    ensures |m| == |data| && pos <= |m|
  {
  }

  lemma TablesValid(c: Config, t: Tables)
    requires CompiledFrom(c, t)
    ensures t.Valid()
  {
  }

  /** Moving a run of content down leaves the remaining scan unchanged. */
  lemma RunMoved(j: Job, m: seq<byte>, n: seq<byte>, c: Cursor, pos: nat, next: nat, bnd: nat, last: Option<nat>)
    requires j.cfg.Valid() && Unread(m, j.data, pos) && Layout(c, pos) && pos <= next <= |m|
    requires c.state.InField? || c.state.InQuotedField?
    requires forall i :: pos <= i < next ==> InRun(j.cfg, c.state, m[i])
    requires c.writePos <= pos && n == Moved(m, c.writePos, pos, next - pos)
    ensures var d := c.(writePos := c.writePos + (next - pos));
            && Unread(n, j.data, next) && Layout(d, next)
            && Scan(j, pos, bnd, View(m, c, pos), last) == Scan(j, next, bnd, View(n, d, next), last)
  {
    hide Layout, Unread, Scan, InRun, Fields;
    LayoutBounds(c, pos);
    UnreadBounds(m, j.data, pos);
    forall i | pos <= i < next ensures m[i] == j.data[i] {
      SameBytes(m, j.data, pos, next);
      assert m[pos..next][i - pos] == m[i];
    }
    MoveRun(m, n, j.data, c, pos, next);
    ContentRun(j, pos, next, bnd, View(m, c, pos), last);
  }

  lemma SameBytes(m: seq<byte>, data: seq<byte>, lo: nat, hi: nat)
    requires Unread(m, data, lo) && lo <= hi <= |m|
    ensures m[lo..hi] == data[lo..hi]
  {
    assert m[lo..hi] == m[lo..][..hi - lo];
  }

  /** A buffer that was not moved looks as if it had been. */
  lemma Rejoin(m: seq<byte>, n: seq<byte>, dst: nat, src: nat, len: nat)
    requires dst <= src && src + len <= |m|
    requires n == Moved(m, dst, src, len) || (n == m && (len == 0 || dst == src))
    ensures n == Moved(m, dst, src, len)
  {
  }

  /** The needle search stops where the run of content ends. */
  lemma RunFound(c: Config, t: Tables, s: State, data: seq<byte>, lo: nat, hi: nat, off: Option<nat>)
    requires c.Valid() && CompiledFrom(c, t) && lo <= hi <= |data|
    requires s.InField? || s.InQuotedField?
    requires FirstIn(data[lo..hi], (if s.InField? then t.inField else t.inQuoted).bytes, off)
    ensures off.Some? ==> lo + off.value < hi && !InRun(c, s, data[lo + off.value])
    ensures forall i :: lo <= i < (if off.Some? then lo + off.value else hi) ==> InRun(c, s, data[i])
  {
    forall i | lo <= i < (if off.Some? then lo + off.value else hi)
      ensures InRun(c, s, data[i])
    {
      assert data[lo..hi][i - lo] == data[i];
    }
  }

  function Shifted(spans: seq<Span>, base: nat): (r: seq<Span>)
    ensures |r| == |spans| && forall i :: 0 <= i < |spans| ==> r[i] == (spans[i].0 + base, spans[i].1)
  {
    seq(|spans|, i requires 0 <= i < |spans| => (spans[i].0 + base, spans[i].1))
  }

  function Demoted(spans: seq<Span>, base: nat): (r: seq<Span>)
    requires forall s :: s in spans ==> base <= s.0
    ensures Shifted(r, base) == spans
  {
    seq(|spans|, i requires 0 <= i < |spans| => (spans[i].0 - base, spans[i].1))
  }

  /** Overlapping copy towards the front. */
  method MoveDown(mem: array<byte>, src: nat, dst: nat, len: nat)
    requires dst <= src && src + len <= mem.Length
    modifies mem
    ensures mem[..] == Moved(old(mem[..]), dst, src, len)
  {
    ghost var o := mem[..];
    var i := 0;
    while i < len
      invariant 0 <= i <= len
      invariant forall k :: dst <= k < dst + i ==> mem[k] == o[k + (src - dst)]
      invariant forall k :: dst + i <= k < mem.Length ==> mem[k] == o[k]
      invariant forall k :: 0 <= k < dst ==> mem[k] == o[k]
    {
      mem[dst + i] := mem[src + i];
      i := i + 1;
    }
    MovedPointwise(o, mem[..], dst, src, len);
  }

  lemma MovedPointwise(o: seq<byte>, n: seq<byte>, dst: nat, src: nat, len: nat)
    requires dst <= src && src + len <= |o| && |n| == |o|
    requires forall k :: dst <= k < dst + len ==> n[k] == o[k + (src - dst)]
    requires forall k :: dst + len <= k < |o| ==> n[k] == o[k]
    requires forall k :: 0 <= k < dst ==> n[k] == o[k]
    ensures n == Moved(o, dst, src, len)
  {
    assert n[..dst] == o[..dst];
    assert n[dst..dst + len] == o[src..src + len];
    assert n[dst + len..] == o[dst + len..];
    assert n == n[..dst] + n[dst..dst + len] + n[dst + len..];
  }
}
