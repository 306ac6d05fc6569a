/** The bit-parallel stepper of a dialect: with a quote character the indexing one, without one the cheaper cursor. */
module SimdStepper {
  import opened Dialect
  import opened Records
  import opened Index
  import opened InPlace
  import opened LiveIndex
  import opened Ledger
  import opened Stepper
  import opened IndexStepper
  import opened CursorStepper

  datatype AnyStepper = Quoted(ix: SimdIndexStepper) | Plain(cu: SimdCursorStepper) {
    ghost function Frame(): set<object> {
      match this
      case Quoted(ix) => {ix, ix.scanner, ix.fieldCounter}
      case Plain(cu) => {cu, cu.fieldCounter}
    }

    /** Where its run starts, and the oldest record it has not emitted. */
    ghost function Origin(): nat {
      match this
      case Quoted(ix) => ix.o
      case Plain(cu) => cu.o
    }

    ghost function Oldest(): nat
      reads Frame()
    {
      match this
      case Quoted(ix) => ix.a
      case Plain(cu) => cu.a
    }

    function LastRecordEnd(): Option<nat>
      reads Frame()
    {
      match this
      case Quoted(ix) => ix.lastRecordEnd
      case Plain(cu) => cu.lastRecordEnd
    }

    /** The consume limit. */
    ghost function Limit(): nat
      reads Frame()
    {
      match this
      case Quoted(ix) => ix.recordBufStart
      case Plain(cu) => cu.cellStart
    }

    /** No step has been made. */
    ghost predicate Unstepped()
      reads Frame()
    {
      match this
      case Quoted(ix) => ix.needsChunkStartB
      case Plain(cu) => false
    }

    ghost predicate Resting(j: Job, base: nat, at: nat, mem: seq<byte>)
      reads Frame()
    {
      match this
      case Quoted(ix) => ix.Resting(j, base, at, mem)
      case Plain(cu) => cu.Resting(j, base, at, mem)
    }

    lemma FrontQuoted(j: Job, base: nat, at: nat, mem: seq<byte>)
      requires Quoted? && ix.Resting(j, base, at, mem)
      ensures ix.o + ix.a == base + ix.recordBufStart <= base + at <= |j.data| == |mem| && Unread(mem, j.data, ix.o + ix.a)
    {
      hide *;
      ix.LimitBehind(j, base, at, mem);
    }

    lemma FrontPlain(j: Job, base: nat, at: nat, mem: seq<byte>)
      requires Plain? && cu.Resting(j, base, at, mem)
      ensures cu.o + cu.a == base + cu.cellStart <= base + at <= |j.data| == |mem| && Unread(mem, j.data, cu.o + cu.a)
    {
      hide *;
      cu.RestingIs(j, base, at, mem);
      cu.LimitBehind(j, base, at, mem);
    }

    /** The oldest record, and with it every byte that is still to be scanned, is untouched. */
    lemma Front(j: Job, base: nat, at: nat, mem: seq<byte>)
      requires Resting(j, base, at, mem)
      ensures Origin() + Oldest() == base + Limit() <= base + at <= |j.data| == |mem|
      ensures Unread(mem, j.data, Origin() + Oldest())
    {
      hide CursorStepper.SimdCursorStepper.Resting, IndexStepper.SimdIndexStepper.Resting, Unread;
      if Quoted? {
        FrontQuoted(j, base, at, mem);
      } else {
        FrontPlain(j, base, at, mem);
      }
    }

    method Step(ghost j: Job, mem: array<byte>, ctx: StepCtx, address: nat, ghost bnd: nat) returns (res: StepResult, emitted: seq<Record>)
      requires Resting(j, ctx.base, ctx.scanStart, mem[..]) && ctx.scanStart <= ctx.scanEnd
      requires ctx.base + ctx.scanEnd <= mem.Length && mem.Length + 128 <= WORD && bnd <= |j.data|
      requires ctx.remainingInChunk == if bnd < ctx.base then 0 else bnd - ctx.base
      modifies Frame(), mem
      ensures res.Suspended? ==>
        && Resting(j, ctx.base, res.resumeAt, mem[..]) && !Unstepped()
        && res.consumable == Limit() && res.consumable <= res.resumeAt <= ctx.scanEnd < res.resumeAt + 64 && res.lastRecordEnd == LastRecordEnd()
        && Keeps(j, Origin(), old(Oldest()), old(LastRecordEnd()), Oldest(), LastRecordEnd(), bnd, emitted)
      ensures !res.Suspended? ==> EndsWith(j, Origin(), old(Oldest()), old(LastRecordEnd()), bnd, emitted, res, ctx.base + ctx.scanEnd)
      ensures res.Done? ==> bnd <= res.end < ctx.base + ctx.scanEnd
    {
      hide CursorStepper.SimdCursorStepper.Resting, IndexStepper.SimdIndexStepper.Resting, Keeps, EndsWith;
      match this
      case Quoted(ix) => res, emitted := ix.Step(j, mem, ctx, address, bnd);
      case Plain(cu) => res, emitted := cu.Step(j, mem, ctx, address, bnd);
    }

    method Consume(ghost j: Job, ghost base: nat, ghost at: nat, ghost mem: seq<byte>, k: nat)
      requires Resting(j, base, at, mem) && !Unstepped() && k <= Limit() <= at < WORD
      modifies Frame()
      ensures Resting(j, base + k, at - k, mem) && Limit() == old(Limit()) - k && !Unstepped()
      ensures Oldest() == old(Oldest()) && LastRecordEnd() == old(LastRecordEnd())
    {
      hide CursorStepper.SimdCursorStepper.Resting, IndexStepper.SimdIndexStepper.Resting;
      match this
      case Quoted(ix) => ix.Consume(j, base, at, mem, k);
      case Plain(cu) => cu.Consume(j, base, at, mem, k);
    }

    method Finalize(ghost j: Job, mem: array<byte>, ctx: StepCtx, ghost bnd: nat) returns (end: Option<nat>, failure: Option<Failure>, emitted: seq<Record>)
      requires Resting(j, ctx.base, ctx.scanStart, mem[..]) && ctx.scanStart <= ctx.scanEnd < ctx.scanStart + 64
      requires Unstepped() ==> ctx.scanEnd == 0
      requires ctx.base + ctx.scanEnd == mem.Length && mem.Length + 192 <= WORD && bnd <= |j.data|
      requires ctx.remainingInChunk == if bnd < ctx.base then 0 else bnd - ctx.base
      modifies Frame(), mem
      ensures failure.None? ==> Origin() + old(Oldest()) <= |j.data| && Remains(j, Origin(), old(Oldest()), bnd, old(LastRecordEnd())) == Ok(emitted, end)
      ensures failure.Some? ==> Founders(j, Origin(), old(Oldest()), old(LastRecordEnd()), bnd, emitted, failure.value)
    {
      hide CursorStepper.SimdCursorStepper.Resting, IndexStepper.SimdIndexStepper.Resting, Remains, Founders;
      match this
      case Quoted(ix) => end, failure, emitted := ix.Finalize(j, mem, ctx, bnd);
      case Plain(cu) => end, failure, emitted := cu.Finalize(j, mem, ctx, bnd);
    }
  }

  /** Without a quote character there are no quotes to track. */
  method Choose(cfg: Config, accept: Record -> bool, fastPext: bool, ghost j: Job, ghost o: nat) returns (st: AnyStepper)
    requires o <= |j.data| && Feeds(j, o, 0, Shown(j, o, 0)) && j.cfg == cfg && j.accept == accept
    ensures fresh(st.Frame()) && st.Resting(j, o, 0, j.data) && st.Origin() == o && st.Oldest() == 0 && st.LastRecordEnd() == None
    ensures st.Plain? <==> cfg.quote.None?
  {
    hide CursorStepper.SimdCursorStepper.Resting, IndexStepper.SimdIndexStepper.Resting, Feeds;
    if cfg.quote.None? {
      var cu := new SimdCursorStepper(cfg, accept, fastPext, j, o);
      st := Plain(cu);
    } else {
      var ix := new SimdIndexStepper(cfg, accept, fastPext, j, o);
      st := Quoted(ix);
    }
  }
}
