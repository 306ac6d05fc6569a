/** The whole run: workers in any interleaving, then the merge. */
module Pipeline {
  import opened Dialect
  import opened Records
  import opened Dfa
  import opened Chunk
  import opened Handoff
  import opened FieldText
  import opened Answer
  import opened Parsers
  import opened SimdParser
  import opened Scheduler
  import opened Merge
  import opened ParallelRun
  import opened Equivalence
  import opened AnyRun
  import opened Workers

  function Collected(s: Machine<ChunkOutput>): (outs: seq<ChunkOutput>)
    requires forall i :: 0 <= i < |s.slots| ==> s.slots[i].Some?
    ensures |outs| == |s.slots| && forall i :: 0 <= i < |outs| ==> outs[i] == s.slots[i].value
  {
    seq(|s.slots|, i requires 0 <= i < |s.slots| => s.slots[i].value)
  }

  /** A run that finished fills every slot with its own chunk's output. */
  lemma AllStored(threads: nat, chunks: nat, events: seq<Event>, output: nat -> ChunkOutput)
    requires 1 <= threads <= chunks
    requires Schedule(Initial(threads, chunks), events, output)
    requires AllFinished(After(Initial(threads, chunks), events, output))
    ensures var s := After(Initial<ChunkOutput>(threads, chunks), events, output);
            |s.slots| == chunks && forall i :: 0 <= i < chunks ==> s.slots[i] == Some(output(i))
  {
    hide Schedule, After;
    var s := After(Initial<ChunkOutput>(threads, chunks), events, output);
    ExactlyOnce(threads, chunks, events, 0, output);
    forall i | 0 <= i < chunks ensures s.slots[i] == Some(output(i)) {
      ExactlyOnce(threads, chunks, events, i, output);
    }
  }

  /** Every slot of a finished run holds what some worker stored for its chunk. */
  lemma AllProduced(j: Job, text: bool, vectors: bool, size: nat, hasHeaders: bool, threads: nat, chunks: nat, events: seq<Event>, output: nat -> ChunkOutput)
    requires 1 <= threads <= chunks && Chunked(j.data, size, chunks)
    requires forall k: nat :: k < chunks ==> MayStore(j, text, vectors, size, hasHeaders, k, output(k))
    requires Schedule(Initial(threads, chunks), events, output)
    requires AllFinished(After(Initial(threads, chunks), events, output))
    ensures var s := After(Initial<ChunkOutput>(threads, chunks), events, output);
            |s.slots| == chunks && (forall i :: 0 <= i < |s.slots| ==> s.slots[i].Some?) && Produces(j, text, vectors, size, hasHeaders, Collected(s))
  {
    hide *;
    var s := After(Initial<ChunkOutput>(threads, chunks), events, output);
    AllStored(threads, chunks, events, output);
    var outs := Collected(s);
    forall k: nat | k < |outs| ensures MayStore(j, text, vectors, size, hasHeaders, k, outs[k]) {
      assert outs[k] == output(k);
    }
    AreProduced(j, text, vectors, size, hasHeaders, outs);
  }

  /**
   * For every interleaving of the workers that ends with all of them finished, and whichever
   * parser they run and the merge reparses with: on well-quoted input, what the merge makes of
   * the slots agrees with what one uninterrupted pass makes of the input.
   */
  lemma AnyInterleavingEqualsSequential(j: Job, text: bool, vectors: bool, size: nat, hasHeaders: bool, h: nat, threads: nat, chunks: nat, events: seq<Event>,
                                        output: nat -> ChunkOutput)
    requires j.cfg.Valid() && j.cfg.comment.None? && (text ==> j.cfg.AsciiControls())
    requires 1 <= threads <= chunks && Chunked(j.data, size, chunks)
    requires forall k: nat :: k < chunks ==> MayStore(j, text, vectors, size, hasHeaders, k, output(k))
    requires HeaderInFirstChunk(j, size, hasHeaders, h) && h <= |j.data| && WellQuoted(j.cfg, j.data, h)
    requires Schedule(Initial(threads, chunks), events, output)
    requires AllFinished(After(Initial(threads, chunks), events, output))
    ensures var s := After(Initial<ChunkOutput>(threads, chunks), events, output);
            && (forall i :: 0 <= i < |s.slots| ==> s.slots[i].Some?)
            && forall r, w :: Merges(j, text, size, Collected(s), 0, None, [], r) && Fits(j, text, h, |j.data|, w) ==> Agrees(w, Result(r))
  {
    hide *;
    var s := After(Initial<ChunkOutput>(threads, chunks), events, output);
    AllProduced(j, text, vectors, size, hasHeaders, threads, chunks, events, output);
    var outs := Collected(s);
    forall r, w | Merges(j, text, size, outs, 0, None, [], r) && Fits(j, text, h, |j.data|, w) ensures Agrees(w, Result(r)) {
      WellQuotedAnswered(j, text, vectors, size, hasHeaders, h, outs, r);
      OnePassAnswers(j, text, h, w);
      AnsweredAgree(j, text, h, w, Result(r));
    }
  }

  /**
   * For every such interleaving and all inputs, however quoted: the merge yields what one pass
   * hands out first or fails on records it does not accept, and answers for all of them iff it
   * fails or the run is loss-free.
   */
  lemma AnyInterleavingIsSafe(j: Job, text: bool, vectors: bool, size: nat, hasHeaders: bool, h: nat, threads: nat, chunks: nat, events: seq<Event>, output: nat -> ChunkOutput)
    requires j.cfg.Valid() && j.cfg.comment.None? && (text ==> j.cfg.AsciiControls())
    requires 1 <= threads <= chunks && Chunked(j.data, size, chunks)
    requires forall k: nat :: k < chunks ==> MayStore(j, text, vectors, size, hasHeaders, k, output(k))
    requires HeaderInFirstChunk(j, size, hasHeaders, h) && h <= |j.data|
    requires Schedule(Initial(threads, chunks), events, output)
    requires AllFinished(After(Initial(threads, chunks), events, output))
    ensures var s := After(Initial<ChunkOutput>(threads, chunks), events, output);
            && (forall i :: 0 <= i < |s.slots| ==> s.slots[i].Some?)
            && forall r :: Merges(j, text, size, Collected(s), 0, None, [], r) ==>
                 && (if r.Merged? then Flatten(r.states) <= Rest(j, h).records else FailsFairly(j, text, h, r.failure))
                 && (Answered(j, text, h, Result(r)) <==> r.MergeFailed? || LossFree(j, h, size, Collected(s)))
  {
    hide *;
    var s := After(Initial<ChunkOutput>(threads, chunks), events, output);
    AllProduced(j, text, vectors, size, hasHeaders, threads, chunks, events, output);
    var outs := Collected(s);
    forall r | Merges(j, text, size, outs, 0, None, [], r)
      ensures if r.Merged? then Flatten(r.states) <= Rest(j, h).records else FailsFairly(j, text, h, r.failure)
      ensures Answered(j, text, h, Result(r)) <==> r.MergeFailed? || LossFree(j, h, size, outs)
    {
      AnyMergeSafety(j, text, vectors, size, hasHeaders, h, outs, r);
      AnsweredExactlyWhen(j, text, vectors, size, hasHeaders, h, outs, r);
    }
  }

  /** What a worker with the table stores for chunk `k`; indices past the last chunk are never parsed. */
  function Output(j: Job, size: nat, hasHeaders: bool): nat -> ChunkOutput {
    (k: nat) =>
      if k * size <= |j.data| then
        ChunkResult(j, k * size, Min(k * size + size, |j.data|), FindModeFor(hasHeaders, k))
      else ChunkOutput([], None)
  }

  /**
   * With the table, comments included: records and failures are the sequential ones iff the run is
   * loss-free, which it is on well-quoted input with plain comments.
   */
  lemma TableInterleavingEqualsSequential(j: Job, size: nat, hasHeaders: bool, h: nat, threads: nat, chunks: nat, events: seq<Event>)
    requires j.cfg.Valid() && CommentsEnd(j.cfg)
    requires 1 <= threads <= chunks && Chunked(j.data, size, chunks)
    requires HeaderInFirstChunk(j, size, hasHeaders, h) && h <= |j.data|
    requires Schedule(Initial(threads, chunks), events, Output(j, size, hasHeaders))
    requires AllFinished(After(Initial(threads, chunks), events, Output(j, size, hasHeaders)))
    ensures var s := After(Initial<ChunkOutput>(threads, chunks), events, Output(j, size, hasHeaders));
            && (forall i :: 0 <= i < |s.slots| ==> s.slots[i].Some?)
            && InRange(j, Collected(s))
            && (SameAnswer(Sequential(j, hasHeaders), Result(MergeRest(j, size, Collected(s), 0, None, []))) <==> LossFree(j, h, size, Collected(s)))
            && (WellQuoted(j.cfg, j.data, h) && PlainComments(j.cfg, j.data, h) ==> LossFree(j, h, size, Collected(s)))
  {
    hide ChunkResult, Sequential, MergeRest, WellQuoted, PlainComments, HeaderInFirstChunk, Schedule, After, InRange, LossFree;
    var output := Output(j, size, hasHeaders);
    var s := After(Initial<ChunkOutput>(threads, chunks), events, output);
    AllStored(threads, chunks, events, output);
    forall i | 0 <= i < chunks ensures i * size <= |j.data| {
      ChunkInRange(j.data, size, chunks, i);
    }
    RunExactlyWhen(j, size, hasHeaders, h, Collected(s));
    if WellQuoted(j.cfg, j.data, h) && PlainComments(j.cfg, j.data, h) {
      ParallelEqualsSequential(j, size, hasHeaders, h, Collected(s));
    }
  }

  /** The streaming run: one pass over the whole input. */
  method RunStreaming(parser: AnyParser, data: seq<byte>, accept: Record -> bool, text: bool, hasHeaders: bool, ghost size: nat, ghost h: nat) returns (r: PassResult)
    requires parser.Valid() && parser.Holds(data) && (text ==> parser.Dialect().AsciiControls())
    ensures HeaderInFirstChunk(Job(parser.Dialect(), data, accept), size, hasHeaders, h) && h <= |data| ==>
              && r.Started? && r.start == h && Answered(Job(parser.Dialect(), data, accept), text, h, r.outcome)
              && (r.outcome.Err? ==> FailsFairly(Job(parser.Dialect(), data, accept), text, h, r.outcome.failure))
    ensures parser.Table? && !text ==> r == Chunk.Parse(Job(parser.Dialect(), data, accept), 0, |data|, AssumeOut, FindModeFor(hasHeaders, 0))
  {
    hide Fits, Answered, FailsFairly, Chunk.Parse, Find, VectorLocate;
    ghost var j := Job(parser.Dialect(), data, accept);
    r := parser.Parse(data, 0, |data|, AssumeOut, FindModeFor(hasHeaders, 0), accept, text);
    if HeaderInFirstChunk(j, size, hasHeaders, h) && h <= |data| {
      if hasHeaders {
        FindWiden(j.cfg, data, 0, Min(size, |data|), |data|, RecordStart, false);
      }
      assert Assumptions(j.cfg)[0] == AssumeOut;
      SearchFinds(j, parser.Vectors?, 0, |data|, AssumeOut, FindModeFor(hasHeaders, 0));
      OnePassAnswers(j, text, h, r.outcome);
    }
  }

  /**
   * The single-threaded run: the work loop draws every chunk index in turn, then the merge.
   * `h` is where the records start, at the header's terminator if there is a header.
   */
  method RunAlone(parser: AnyParser, data: seq<byte>, accept: Record -> bool, text: bool, size: nat, hasHeaders: bool, ghost h: nat)
    returns (r: MergeResult, ghost outs: seq<ChunkOutput>)
    requires parser.Valid() && parser.Holds(data) && size >= 1 && (text ==> parser.Dialect().AsciiControls())
    ensures var j := Job(parser.Dialect(), data, accept);
            j.cfg.comment.None? && HeaderInFirstChunk(j, size, hasHeaders, h) && h <= |data| && WellQuoted(j.cfg, data, h) ==>
              Answered(j, text, h, Result(r))
    ensures var j := Job(parser.Dialect(), data, accept);
            j.cfg.comment.None? && HeaderInFirstChunk(j, size, hasHeaders, h) && h <= |data| ==>
              && (Answered(j, text, h, Result(r)) <==> r.MergeFailed? || LossFree(j, h, size, outs))
              && (forall i: nat :: 1 <= i < |outs| ==> (outs[i].passes == [] <==> BarrenChunk(j, parser.Vectors?, size, i)))
              && (if r.Merged? then Flatten(r.states) <= Rest(j, h).records else FailsFairly(j, text, h, r.failure))
    ensures var j := Job(parser.Dialect(), data, accept);
            parser.Table? && !text && CommentsEnd(j.cfg) && HeaderInFirstChunk(j, size, hasHeaders, h) && h <= |data| ==>
              && (SameAnswer(Sequential(j, hasHeaders), Result(r)) <==> LossFree(j, h, size, outs))
              && (WellQuoted(j.cfg, data, h) && PlainComments(j.cfg, data, h) ==> LossFree(j, h, size, outs))
  {
    hide *;
    ghost var j, vectors := Job(parser.Dialect(), data, accept), parser.Vectors?;
    var count := (|data| + size - 1) / size;
    CountCovers(data, size, count);
    var outputs: seq<ChunkOutput> := [];
    var idx, nextChunk := 0, 1;
    while idx < count
      invariant 0 <= idx <= count && |outputs| == idx && nextChunk == idx + 1
      invariant forall k: nat :: k < |outputs| ==> MayStore(j, text, vectors, size, hasHeaders, k, outputs[k])
      invariant parser.Table? && !text ==> forall k: nat :: k < |outputs| ==> outputs[k] == Output(j, size, hasHeaders)(k)
    {
      ChunkInRange(data, size, count, idx);
      var output := ProcessChunk(parser, data, accept, text, size, hasHeaders, idx);
      IsStored(j, text, vectors, size, hasHeaders, idx, output);
      outputs := outputs + [output];
      idx := nextChunk;
      nextChunk := nextChunk + 1;
    }
    outs := outputs;
    AreProduced(j, text, vectors, size, hasHeaders, outs);
    r := CollectAndMerge(parser, data, accept, text, size, outputs);
    DialectIsValid(parser);
    if j.cfg.comment.None? && HeaderInFirstChunk(j, size, hasHeaders, h) && h <= |data| {
      if data == [] {
        EmptyInput(j, text, size, hasHeaders, h, r);
      } else {
        AnsweredExactlyWhen(j, text, vectors, size, hasHeaders, h, outs, r);
        AnyMergeSafety(j, text, vectors, size, hasHeaders, h, outs, r);
        if WellQuoted(j.cfg, data, h) {
          WellQuotedAnswered(j, text, vectors, size, hasHeaders, h, outs, r);
        }
      }
    }
    if parser.Table? && !text && CommentsEnd(j.cfg) && HeaderInFirstChunk(j, size, hasHeaders, h) && h <= |data| {
      if data == [] {
        EmptyInput(j, text, size, hasHeaders, h, r);
      } else {
        InChunks(j, text, vectors, size, hasHeaders, outs);
        IsRun(j, size, hasHeaders, h, outs);
        RunExactlyWhen(j, size, hasHeaders, h, outs);
        if WellQuoted(j.cfg, data, h) && PlainComments(j.cfg, data, h) {
          ParallelEqualsSequential(j, size, hasHeaders, h, outs);
        }
      }
    }
  }

  lemma CountCovers(data: seq<byte>, size: nat, count: nat)
    requires size >= 1 && count == (|data| + size - 1) / size
    ensures Chunked(data, size, count) && (data != [] ==> count >= 1)
    ensures data == [] ==> count == 0
  {
    var t := |data| + size - 1;
    assert t == count * size + t % size;
    assert (count - 1) * size == count * size - size;
  }

  lemma IsStored(j: Job, text: bool, vectors: bool, size: nat, hasHeaders: bool, k: nat, out: ChunkOutput)
    requires k * size <= |j.data|
    requires Produced(j, text, vectors, k * size, Min(k * size + size, |j.data|), FindModeFor(hasHeaders, k), out)
    ensures MayStore(j, text, vectors, size, hasHeaders, k, out)
    ensures Output(j, size, hasHeaders)(k) == ChunkResult(j, k * size, Min(k * size + size, |j.data|), FindModeFor(hasHeaders, k))
  {
    hide Produced, ChunkResult;
  }

  lemma AreProduced(j: Job, text: bool, vectors: bool, size: nat, hasHeaders: bool, outs: seq<ChunkOutput>)
    requires Chunked(j.data, size, |outs|) && forall k: nat :: k < |outs| ==> MayStore(j, text, vectors, size, hasHeaders, k, outs[k])
    ensures Produces(j, text, vectors, size, hasHeaders, outs) && InRange(j, outs)
  {
    hide MayStore, Chunked, InRange;
    EndsStored(j, text, vectors, size, hasHeaders, outs);
  }

  lemma EndsStored(j: Job, text: bool, vectors: bool, size: nat, hasHeaders: bool, outs: seq<ChunkOutput>)
    requires forall k: nat :: k < |outs| ==> MayStore(j, text, vectors, size, hasHeaders, k, outs[k])
    ensures InRange(j, outs)
  {
    hide MayStore;
    forall o | o in outs && o.recordEnd.Some? ensures o.recordEnd.value <= |j.data| {
      var k: nat :| k < |outs| && outs[k] == o;
      EndStored(j, text, vectors, size, hasHeaders, k, o);
    }
  }

  lemma EndStored(j: Job, text: bool, vectors: bool, size: nat, hasHeaders: bool, k: nat, out: ChunkOutput)
    requires MayStore(j, text, vectors, size, hasHeaders, k, out)
    ensures out.recordEnd.Some? ==> out.recordEnd.value <= |j.data|
  {
    hide Fits, Locate;
  }

  lemma InChunks(j: Job, text: bool, vectors: bool, size: nat, hasHeaders: bool, outs: seq<ChunkOutput>)
    requires Produces(j, text, vectors, size, hasHeaders, outs)
    ensures forall k: nat :: k < |outs| ==> k * size <= |j.data|
  {
    hide Produced;
  }

  lemma DialectIsValid(parser: AnyParser)
    requires parser.Valid()
    ensures parser.Dialect().Valid()
  {
  }

  /** No bytes, no chunks, no records. */
  lemma EmptyInput(j: Job, text: bool, size: nat, hasHeaders: bool, h: nat, r: MergeResult)
    requires j.data == [] && HeaderInFirstChunk(j, size, hasHeaders, h) && Merges(j, text, size, [], 0, None, [], r)
    ensures h == 0 && r == Merged([], None) && Answered(j, text, h, Result(r)) && LossFree(j, h, size, []) && Flatten(r.states) == []
    ensures SameAnswer(Sequential(j, hasHeaders), Result(r))
  {
    EmptyIsText();
    assert j.data[0..] == [];
  }

  lemma IsRun(j: Job, size: nat, hasHeaders: bool, h: nat, outs: seq<ChunkOutput>)
    requires j.cfg.Valid() && CommentsEnd(j.cfg) && |outs| >= 1 && HeaderInFirstChunk(j, size, hasHeaders, h)
    requires Chunked(j.data, size, |outs|)
    requires forall k: nat :: k < |outs| ==> k * size <= |j.data| && outs[k] == Output(j, size, hasHeaders)(k)
    ensures Run(j, size, hasHeaders, h, outs)
  {
    hide ChunkResult, HeaderInFirstChunk;
  }
}
