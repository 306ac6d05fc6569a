/** The sequential merge: pick the pass that starts where its predecessor ended, or reparse. */
module Merge {
  import opened Dialect
  import opened Records
  import opened Chunk
  import opened Answer
  import opened Parsers
  import opened Scheduler

  /** `next` is where the first record not yet merged begins, as far as the merge knows. */
  datatype MergeResult = Merged(states: seq<seq<Record>>, next: Option<nat>) | MergeFailed(failure: Failure)

  function Flatten(states: seq<seq<Record>>): seq<Record> {
    if states == [] then [] else Flatten(states[..|states| - 1]) + states[|states| - 1]
  }

  /** The first pass whose start is the expected one; any pass when none is expected. */
  function Select(passes: seq<Pass>, next: Option<nat>): Option<Pass> {
    if passes == [] then None
    else if next.None? || passes[0].recordStart == next.value then Some(passes[0])
    else Select(passes[1..], next)
  }

  method SelectPass(passes: seq<Pass>, next: Option<nat>) returns (r: Option<Pass>)
    ensures r == Select(passes, next)
  {
    var i := 0;
    while i < |passes|
      invariant 0 <= i <= |passes|
      invariant Select(passes, next) == Select(passes[i..], next)
    {
      if next.None? || passes[i].recordStart == next.value {
        return Some(passes[i]);
      }
      i := i + 1;
    }
    return None;
  }

  /** Reparse one chunk from a known record boundary. */
  function Reparse(j: Job, start: nat, chunkEnd: nat): (o: Outcome)
    requires start <= |j.data|
    ensures o.Ok? && o.end.Some? ==> o.end.value <= |j.data|
  {
    BodyIsScan(j, start, Min(chunkEnd, |j.data|));
    EndInRange(j, start, Min(chunkEnd, |j.data|), Fresh(start), None);
    Body(j, start, Min(chunkEnd, |j.data|))
  }

  /** Chunk results whose record ends lie in the input. */
  predicate InRange(j: Job, outs: seq<ChunkOutput>) {
    forall o :: o in outs && o.recordEnd.Some? ==> o.recordEnd.value <= |j.data|
  }

  /** The merge from chunk `k` on; the accumulated `states` end where `next` begins. */
  function MergeRest(j: Job, chunkSize: nat, outs: seq<ChunkOutput>, k: nat, next: Option<nat>, states: seq<seq<Record>>): MergeResult
    requires k <= |outs| && InRange(j, outs)
    requires next.Some? ==> next.value <= |j.data|
    decreases |outs| - k
  {
    if k == |outs| then Merged(states, next)
    else
      var out := outs[k];
      var chunkEnd := k * chunkSize + chunkSize;
      if (next.Some? && next.value > chunkEnd) || out.passes == [] then
        MergeRest(j, chunkSize, outs, k + 1, next, states)
      else
        match Select(out.passes, next)
        case Some(p) =>
          (match p.outcome
           case Ok(rs, _) => MergeRest(j, chunkSize, outs, k + 1, out.recordEnd, states + [rs])
           case Err(_, e) => MergeFailed(e))
        case None =>
          match Reparse(j, next.value, chunkEnd)
          case Ok(rs, end) => MergeRest(j, chunkSize, outs, k + 1, end, states + [rs])
          case Err(_, e) => MergeFailed(e)
  }

  /**
   * What the merge may do from chunk `k` on, whichever parser made the passes and makes the
   * reparses. Its result is `r`.
   */
  ghost predicate Merges(j: Job, text: bool, chunkSize: nat, outs: seq<ChunkOutput>, k: nat, next: Option<nat>, states: seq<seq<Record>>, r: MergeResult)
    requires k <= |outs|
    decreases |outs| - k
  {
    if k == |outs| then r == Merged(states, next)
    else
      var out := outs[k];
      var chunkEnd := k * chunkSize + chunkSize;
      if (next.Some? && next.value > chunkEnd) || out.passes == [] then Merges(j, text, chunkSize, outs, k + 1, next, states, r)
      else
        var s := Select(out.passes, next);
        if s.Some? then
          if s.value.outcome.Ok? then Merges(j, text, chunkSize, outs, k + 1, out.recordEnd, states + [s.value.outcome.records], r)
          else r == MergeFailed(s.value.outcome.failure)
        else
          exists o :: Reparsed(j, text, next, chunkEnd, o)
            && if o.Ok? then Merges(j, text, chunkSize, outs, k + 1, o.end, states + [o.records], r)
               else r == MergeFailed(o.failure)
  }

  ghost predicate Reparsed(j: Job, text: bool, next: Option<nat>, chunkEnd: nat, o: Outcome) {
    next.Some? && Fits(j, text, next.value, Min(chunkEnd, |j.data|), o)
  }

  /** Reparse as the run does it: a fresh reader at the boundary, no search. */
  method ReparseChunk(parser: AnyParser, data: seq<byte>, accept: Record -> bool, text: bool, start: nat, chunkEnd: nat) returns (o: Outcome)
    requires parser.Valid() && parser.Holds(data) && start <= |data| && (text ==> parser.Dialect().AsciiControls())
    ensures Fits(Job(parser.Dialect(), data, accept), text, start, Min(chunkEnd, |data|), o)
    ensures parser.Table? && !text ==> o == Reparse(Job(parser.Dialect(), data, accept), start, chunkEnd)
  {
    hide Body, Fits;
    var pr := parser.Parse(data, start, Min(chunkEnd, |data|), AssumeOut, FindNone, accept, text);
    o := pr.outcome;
  }

  method CollectAndMerge(parser: AnyParser, data: seq<byte>, accept: Record -> bool, text: bool, chunkSize: nat, outs: seq<ChunkOutput>)
    returns (r: MergeResult)
    requires parser.Valid() && parser.Holds(data) && InRange(Job(parser.Dialect(), data, accept), outs) && (text ==> parser.Dialect().AsciiControls())
    ensures Merges(Job(parser.Dialect(), data, accept), text, chunkSize, outs, 0, None, [], r)
    ensures parser.Table? && !text ==> r == MergeRest(Job(parser.Dialect(), data, accept), chunkSize, outs, 0, None, [])
  {
    hide Reparse, Fits, MergeRest, Merges;
    ghost var j := Job(parser.Dialect(), data, accept);
    var states: seq<seq<Record>> := [];
    var next: Option<nat> := None;
    var chunkEnd := 0;
    var k := 0;
    while k < |outs|
      invariant 0 <= k <= |outs| && chunkEnd == k * chunkSize
      invariant next.Some? ==> next.value <= |j.data|
      invariant forall q :: Merges(j, text, chunkSize, outs, k, next, states, q) ==> Merges(j, text, chunkSize, outs, 0, None, [], q)
      invariant parser.Table? && !text ==> MergeRest(j, chunkSize, outs, 0, None, []) == MergeRest(j, chunkSize, outs, k, next, states)
    {
      var out := outs[k];
      MergeOne(j, text, chunkSize, outs, k, next, states);
      chunkEnd := chunkEnd + chunkSize;
      k := k + 1;
      if next.Some? && next.value > chunkEnd {
        continue;
      }
      if out.passes == [] {
        continue;
      }
      var selected := SelectPass(out.passes, next);
      if selected.Some? {
        if selected.value.outcome.Err? {
          return MergeFailed(selected.value.outcome.failure);
        }
        states := states + [selected.value.outcome.records];
        assert out in outs;
        next := out.recordEnd;
        continue;
      }
      SelectNone(out.passes, next);
      var o := ReparseChunk(parser, data, accept, text, next.value, chunkEnd);
      assert Reparsed(j, text, next, chunkEnd, o);
      if o.Err? {
        return MergeFailed(o.failure);
      }
      states := states + [o.records];
      if o.end.Some? {
        FittingEnd(j, text, next.value, Min(chunkEnd, |data|), o);
      }
      next := o.end;
    }
    MergeNone(j, text, chunkSize, outs, next, states);
    return Merged(states, next);
  }

  lemma SelectNone(passes: seq<Pass>, next: Option<nat>)
    requires passes != [] && Select(passes, next).None?
    ensures next.Some?
  {
  }

  lemma MergeNone(j: Job, text: bool, chunkSize: nat, outs: seq<ChunkOutput>, next: Option<nat>, states: seq<seq<Record>>)
    requires InRange(j, outs) && (next.Some? ==> next.value <= |j.data|)
    ensures Merges(j, text, chunkSize, outs, |outs|, next, states, Merged(states, next))
    ensures MergeRest(j, chunkSize, outs, |outs|, next, states) == Merged(states, next)
  {
  }

  /** One chunk of the merge, as both definitions have it. */
  lemma MergeOne(j: Job, text: bool, chunkSize: nat, outs: seq<ChunkOutput>, k: nat, next: Option<nat>, states: seq<seq<Record>>)
    requires k < |outs| && InRange(j, outs) && (next.Some? ==> next.value <= |j.data|)
    ensures var out, chunkEnd := outs[k], k * chunkSize + chunkSize;
            var s := Select(out.passes, next);
            if (next.Some? && next.value > chunkEnd) || out.passes == [] then
              && (forall q :: Merges(j, text, chunkSize, outs, k + 1, next, states, q) ==> Merges(j, text, chunkSize, outs, k, next, states, q))
              && MergeRest(j, chunkSize, outs, k, next, states) == MergeRest(j, chunkSize, outs, k + 1, next, states)
            else if s.Some? then
              if s.value.outcome.Ok? then
                && (forall q :: Merges(j, text, chunkSize, outs, k + 1, out.recordEnd, states + [s.value.outcome.records], q) ==> Merges(j, text, chunkSize, outs, k, next, states, q))
                && (out.recordEnd.Some? ==> out.recordEnd.value <= |j.data|)
                && MergeRest(j, chunkSize, outs, k, next, states) == MergeRest(j, chunkSize, outs, k + 1, out.recordEnd, states + [s.value.outcome.records])
              else
                && Merges(j, text, chunkSize, outs, k, next, states, MergeFailed(s.value.outcome.failure))
                && MergeRest(j, chunkSize, outs, k, next, states) == MergeFailed(s.value.outcome.failure)
            else
              && next.Some?
              && (forall o, q :: Reparsed(j, text, next, chunkEnd, o) && o.Ok? && Merges(j, text, chunkSize, outs, k + 1, o.end, states + [o.records], q)
                    ==> Merges(j, text, chunkSize, outs, k, next, states, q))
              && (forall o :: Reparsed(j, text, next, chunkEnd, o) && o.Err? ==> Merges(j, text, chunkSize, outs, k, next, states, MergeFailed(o.failure)))
              && var w := Reparse(j, next.value, chunkEnd);
                 MergeRest(j, chunkSize, outs, k, next, states) ==
                   if w.Ok? then MergeRest(j, chunkSize, outs, k + 1, w.end, states + [w.records]) else MergeFailed(w.failure)
  {
    hide Reparse, Reparsed;
    assert outs[k] in outs;
    if outs[k].passes != [] && Select(outs[k].passes, next).None? {
      SelectNone(outs[k].passes, next);
    }
  }
}
