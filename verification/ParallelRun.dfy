/** Parallel equals sequential: the merge theorems. */
module ParallelRun {
  import opened Dialect
  import opened Dfa
  import opened Records
  import opened Chunk
  import opened Handoff
  import opened Scheduler
  import opened Merge
  import opened FailurePoint

  /** One uninterrupted pass over the input, as the streaming entry point runs it. */
  function Sequential(j: Job, hasHeaders: bool): Outcome {
    match Parse(j, 0, |j.data|, AssumeOut, FindModeFor(hasHeaders, 0))
    case Started(_, o) => o
    case NoRecord => Ok([], None)
    case Failed(e) => Err([], e)
  }

  /** `count` chunks of `size` bytes cover the input, and no fewer do. */
  predicate Chunked(data: seq<byte>, size: nat, count: nat) {
    && size >= 1
    && |data| <= count * size
    && (count >= 1 ==> (count - 1) * size < |data|)
  }

  /** The header, if any, ends inside chunk 0; the records start at its terminator. */
  predicate HeaderInFirstChunk(j: Job, size: nat, hasHeaders: bool, h: nat) {
    if hasHeaders then Locate(j, 0, Min(size, |j.data|), AssumeOut, SkipHeaders) == At(h) else h == 0
  }

  /** Where a record may begin on a walk that started at `h`. */
  ghost predicate Boundary(j: Job, h: nat, e: nat) {
    h <= e <= |j.data| && (e == h || e == |j.data| || EndsHere(j.cfg, j.data, h, e))
  }

  /** One pass from a boundary accounts for everything up to the next boundary it reports. */
  lemma BoundaryStep(j: Job, h: nat, e: nat, b: nat)
    requires j.cfg.Valid() && Boundary(j, h, e)
    requires b <= |j.data| && (e <= b || e < |j.data|)
    ensures var o := Body(j, e, b);
            if o.Err? then Rest(j, e) == o
            else if o.end.Some? && Max(e, b) <= o.end.value < |j.data| then
              && SameYield(Rest(j, e), Prepend(o.records, Rest(j, o.end.value)))
              && FirstEnd(j.cfg, j.data, h, Max(e, b), o.end.value)
              && FailAt(j, e, Fresh(e)) == FailAt(j, o.end.value, Fresh(o.end.value))
            else
              && SameYield(Rest(j, e), Ok(o.records, None))
              && (j.cfg.comment.None? && b < |j.data| ==> o.end == Some(|j.data|))
              && NoEnd(j.cfg, j.data, h, Max(e, b), |j.data|)
  {
    BodyIsScan(j, e, b);
    Split(j, e, b, |j.data|, Fresh(e), None);
    var o := Scan(j, e, b, Fresh(e), None);
    if o.Ok? && o.end.Some? && b <= o.end.value < |j.data| {
      FailureBehind(j, e, b, Fresh(e), None);
    }
    hide FailAt;
    if e == |j.data| {
    } else if e == h {
      StopsAtFirstEnd(j, h, e, b, Fresh(e), None);
    } else if e < b {
      assert StateAt(j.cfg, j.data, h, e + 1) == RecordStart;
      StopsAtFirstEnd(j, h, e + 1, b, Fresh(e), None);
    }
  }

  /** A terminator with nothing but blank lines and comments behind it. */
  ghost predicate Silent(j: Job, h: nat, x: nat) {
    h <= x < |j.data| && j.cfg.IsTerm(j.data[x]) && Trailing(j.cfg, j.data, h, x + 1)
  }

  /** No record is left from `lo` on, nor behind the boundary that the merge expects next, if it expects one. */
  ghost predicate Finished(j: Job, h: nat, lo: nat, next: Option<nat>) {
    h <= lo && Trailing(j.cfg, j.data, h, lo) && (next.Some? ==> Silent(j, h, next.value))
  }

  lemma TerminatorLeadsOn(c: Config, s: State, b: byte)
    requires c.Valid() && CommentsEnd(c) && c.IsTerm(b) && Between(Settle(Cell(c, s, b).next)) && (s.InComment? ==> c.comment.Some?)
    ensures Settle(Cell(c, s, b).next) == RecordStart
  {
  }

  /** A pass from there yields nothing, wherever it ends. */
  lemma SilentBody(j: Job, h: nat, x: nat, b: nat)
    requires j.cfg.Valid() && CommentsEnd(j.cfg) && Silent(j, h, x)
    ensures var o := Body(j, x, b); o.Ok? && o.records == [] && (o.end.Some? ==> Silent(j, h, o.end.value))
  {
    hide *;
    SilentIs(j, h, x);
    BodyIsScan(j, x, b);
    SilentStart(j, h, x);
    FromTerminator(j, x, b);
    if x < b {
      TrailingIsQuiet(j, h, x + 1, b, Fresh(x), None);
      var o := Scan(j, x + 1, b, Fresh(x), None);
      if o.end.Some? {
        IsSilent(j, h, x + 1, o.end.value);
      }
    }
  }

  lemma SilentIs(j: Job, h: nat, x: nat)
    requires Silent(j, h, x)
    ensures h <= x < |j.data| && j.cfg.IsTerm(j.data[x]) && Trailing(j.cfg, j.data, h, x + 1)
  {
    hide Trailing;
  }

  lemma IsSilent(j: Job, h: nat, lo: nat, x: nat)
    requires h <= lo <= x < |j.data| && j.cfg.IsTerm(j.data[x]) && Trailing(j.cfg, j.data, h, lo)
    ensures Silent(j, h, x)
  {
    hide StateAt, Between;
  }

  lemma SilentStart(j: Job, h: nat, x: nat)
    requires j.cfg.Valid() && CommentsEnd(j.cfg) && Silent(j, h, x)
    ensures OnPath(j, h, x + 1, Fresh(x))
  {
    TrailingFrom(j.cfg, j.data, h, x + 1);
    Interior(j.cfg, j.data, h, x);
    TerminatorLeadsOn(j.cfg, StateAt(j.cfg, j.data, h, x), j.data[x]);
    hide Cell, Between;
  }

  lemma FromTerminator(j: Job, x: nat, b: nat)
    requires x < |j.data| && j.cfg.IsTerm(j.data[x])
    ensures Scan(j, x, b, Fresh(x), None) == if b <= x then Ok([], Some(x)) else Scan(j, x + 1, b, Fresh(x), None)
  {
  }

  /** A pass that ran to the end without closing a record there left nothing. */
  lemma BoundaryFinish(j: Job, h: nat, e: nat, b: nat)
    requires j.cfg.Valid() && Boundary(j, h, e) && e <= b < |j.data|
    ensures var o := Body(j, e, b);
            o.Ok? && !(o.end.Some? && b <= o.end.value < |j.data|) ==> o.end == Some(|j.data|) || Finished(j, h, b, o.end)
  {
    hide *;
    BodyIsScan(j, e, b);
    BoundaryPath(j, h, e);
    MaxIsBound(e, b);
    var p := if e == h then e else e + 1;
    if e != h {
      FromTerminator(j, e, b);
      MaxIsBound(e + 1, b);
    }
    if p <= b {
      EndsQuietly(j, h, p, b, Fresh(e), None);
      var o := Scan(j, p, b, Fresh(e), None);
      if o.Ok? && o.end != Some(|j.data|) && !(o.end.Some? && b <= o.end.value < |j.data|) {
        QuietlyFinished(j, h, p, b, o.end);
      }
    }
  }

  lemma MaxIsBound(e: nat, b: nat)
    ensures e <= b ==> Max(e, b) == b
  {
  }

  lemma BoundaryPath(j: Job, h: nat, e: nat)
    requires j.cfg.Valid() && Boundary(j, h, e) && e < |j.data|
    ensures h <= e && Fresh(e).state == RecordStart
    ensures if e == h then OnPath(j, h, h, Fresh(h)) else j.cfg.IsTerm(j.data[e]) && OnPath(j, h, e + 1, Fresh(e))
  {
  }

  lemma QuietlyFinished(j: Job, h: nat, p: nat, b: nat, end: Option<nat>)
    requires h <= p <= b < |j.data|
    requires (end.None? && Trailing(j.cfg, j.data, h, p))
             || (end.Some? && p <= end.value < b && EndsHere(j.cfg, j.data, h, end.value) && Trailing(j.cfg, j.data, h, end.value + 1))
    ensures Finished(j, h, b, end)
  {
    hide StateAt, Between, OutOfQuotes;
  }

  lemma ChunkInRange(data: seq<byte>, size: nat, count: nat, k: nat)
    requires Chunked(data, size, count) && k < count
    ensures k * size < |data|
    ensures k + 1 < count ==> k * size + size < |data|
    ensures k + 1 == count ==> |data| <= k * size + size
  {
    assert k * size <= (count - 1) * size;
    if k + 1 < count {
      assert (k + 1) * size <= (count - 1) * size;
    }
  }

  /** The parallel run: every chunk's speculative output, merged in order. */
  ghost predicate AllOutputs(j: Job, size: nat, hasHeaders: bool, count: nat, outs: seq<ChunkOutput>) {
    && Chunked(j.data, size, count)
    && |outs| == count
    && forall k :: 0 <= k < count ==>
         && k * size <= |j.data|
         && outs[k] == ChunkResult(j, k * size, Min(k * size + size, |j.data|), FindModeFor(hasHeaders, k))
  }

  lemma OutputsConsistent(j: Job, size: nat, hasHeaders: bool, count: nat, outs: seq<ChunkOutput>)
    requires AllOutputs(j, size, hasHeaders, count, outs)
    ensures forall k :: 0 <= k < count ==> Consistent(j, Min(k * size + size, |j.data|), outs[k])
    ensures InRange(j, outs)
  {
    forall k | 0 <= k < count
      ensures Consistent(j, Min(k * size + size, |j.data|), outs[k])
      ensures outs[k].recordEnd.Some? ==> outs[k].recordEnd.value <= |j.data|
    {
      var bnd := Min(k * size + size, |j.data|);
      ChunkConsistent(j, k * size, bnd, FindModeFor(hasHeaders, k));
      RecordEndInRange(j, k * size, bnd, FindModeFor(hasHeaders, k));
    }
  }

  lemma RecordEndInRange(j: Job, start: nat, bnd: nat, mode: FindMode)
    requires start <= |j.data|
    ensures var o := ChunkResult(j, start, bnd, mode).recordEnd; o.Some? ==> o.value <= |j.data|
  {
    TryEndInRange(j, start, bnd, mode, Assumptions(j.cfg), [], false);
    TryEndInRange(j, start, bnd, FindLenient, Assumptions(j.cfg), [], false);
  }

  lemma {:induction false} TryEndInRange(j: Job, start: nat, bnd: nat, mode: FindMode, todo: seq<Assumption>, passes: seq<Pass>, sawClean: bool)
    requires start <= |j.data|
    ensures var t := TryRest(j, start, bnd, mode, todo, passes, sawClean);
            t.Resolved? && t.recordEnd.Some? ==> t.recordEnd.value <= |j.data|
    decreases |todo|
  {
    hide Body, Locate;
    if todo != [] {
      match Parse(j, start, bnd, todo[0], mode)
      case Started(s, o) =>
        BodyIsScan(j, s, bnd);
        EndInRange(j, s, bnd, Fresh(s), None);
        TryEndInRange(j, start, bnd, mode, todo[1..], passes + [Pass(s, o)], sawClean);
      case NoRecord => TryEndInRange(j, start, bnd, mode, todo[1..], passes, true);
      case Failed(_) => TryEndInRange(j, start, bnd, mode, todo[1..], passes, sawClean);
    }
  }

  lemma FlattenAppend(states: seq<seq<Record>>, s: seq<Record>)
    ensures Flatten(states + [s]) == Flatten(states) + s
  {
    assert (states + [s])[..|states|] == states;
  }

  lemma Glue(w: Outcome, done: seq<Record>, r: Outcome, rs: seq<Record>, rest: Outcome)
    requires SameYield(w, Prepend(done, r)) && SameYield(r, Prepend(rs, rest))
    ensures SameYield(w, Prepend(done + rs, rest))
  {
    assert done + (rs + rest.records) == (done + rs) + rest.records;
  }

  /** The records merged so far, and the next boundary, account for the sequential pass. */
  ghost predicate Accounted(j: Job, h: nat, n: nat, done: seq<Record>) {
    && Boundary(j, h, n) && SameYield(Rest(j, h), Prepend(done, Rest(j, n)))
    && FailAt(j, h, Fresh(h)) == FailAt(j, n, Fresh(n))
  }

  /** No record ends between `lo` and the pending boundary `n`. */
  ghost predicate NoneFrom(j: Job, h: nat, lo: nat, n: nat) {
    h <= lo && n < |j.data| ==> NoEnd(j.cfg, j.data, h, lo, n)
  }

  /** Everything has been merged, and what is left are blank lines and comments. */
  ghost predicate Over(j: Job, h: nat, lo: nat, next: Option<nat>, done: seq<Record>) {
    j.cfg.comment.Some? && h <= |j.data| && SameYield(Rest(j, h), Ok(done, None)) && Finished(j, h, lo, next)
  }

  lemma OverIs(j: Job, h: nat, lo: nat, next: Option<nat>, done: seq<Record>)
    requires Over(j, h, lo, next, done)
    ensures j.cfg.comment.Some? && h <= |j.data| && SameYield(Rest(j, h), Ok(done, None)) && Finished(j, h, lo, next)
  {
    hide Rest, SameYield, Finished;
  }

  /** The merge before chunk `k`. */
  ghost predicate Progress(j: Job, h: nat, size: nat, count: nat, k: nat, next: Option<nat>, done: seq<Record>) {
    if k == 0 then next.None? && done == []
    else
      || (next.Some? && Accounted(j, h, next.value, done) && NoneFrom(j, h, k * size, next.value))
      || Over(j, h, k * size, next, done)
      || (k == count && h <= |j.data| && SameYield(Rest(j, h), Ok(done, None)))
  }

  function Yielded(o: Outcome): seq<Record> {
    if o.Ok? then o.records else []
  }

  /** A parse from an accounted boundary advances it, or fails as the sequential pass does, and behind the same records. */
  lemma Advance(j: Job, h: nat, n: nat, b: nat, done: seq<Record>)
    requires j.cfg.Valid() && CommentsEnd(j.cfg) && Accounted(j, h, n, done) && b <= |j.data| && (n <= b || n < |j.data|)
    ensures var o := Body(j, n, b);
            if o.Err? then Rest(j, h) == Err(done + o.records, o.failure)
            else if o.end.Some? && Max(n, b) <= o.end.value < |j.data| then
              Accounted(j, h, o.end.value, done + o.records) && NoEnd(j.cfg, j.data, h, Max(n, b), o.end.value)
            else
              && SameYield(Rest(j, h), Ok(done + o.records, None))
              && (n <= b < |j.data| ==> o.end == Some(|j.data|) || Finished(j, h, b, o.end))
              && (j.cfg.comment.None? && b < |j.data| ==> o.end == Some(|j.data|))
  {
    BoundaryStep(j, h, n, b);
    if n <= b < |j.data| {
      BoundaryFinish(j, h, n, b);
    }
    hide Finished, Body, Rest, FailAt, EndsHere;
    var o := Body(j, n, b);
    if o.Ok? {
      if o.end.Some? && Max(n, b) <= o.end.value < |j.data| {
        Glue(Rest(j, h), done, Rest(j, n), o.records, Rest(j, o.end.value));
      } else {
        Glue(Rest(j, h), done, Rest(j, n), o.records, Ok([], None));
      }
    }
  }

  /** One processed chunk advances the merge, or fails as the sequential pass does. */
  lemma ProcessedChunk(j: Job, h: nat, size: nat, count: nat, k: nat, n: nat, done: seq<Record>)
    requires j.cfg.Valid() && CommentsEnd(j.cfg) && Chunked(j.data, size, count) && k < count
    requires Accounted(j, h, n, done) && n <= k * size + size
    ensures var o := Body(j, n, Min(k * size + size, |j.data|));
            if o.Err? then Rest(j, h) == Err(done + o.records, o.failure)
            else
              && Progress(j, h, size, count, k + 1, o.end, done + o.records)
              && (k + 1 < count && !Over(j, h, k * size + size, o.end, done + o.records) ==> o.end.Some? && (o.end.value < |j.data| ==> k * size + size <= o.end.value))
              && (k + 1 == count ==> SameYield(Rest(j, h), Ok(done + o.records, None)))
  {
    ChunkInRange(j.data, size, count, k);
    var b := Min(k * size + size, |j.data|);
    assert (k + 1) * size == k * size + size;
    assert n <= |j.data| by { hide Rest, FailAt; }
    Advance(j, h, n, b, done);
    AtInputEnd(j, h, done + Yielded(Body(j, n, b)));
    hide Body, Rest, FailAt, NoEnd, SameYield, Finished;
  }

  /** What has been merged up to the input's end is everything. */
  lemma AtInputEnd(j: Job, h: nat, done: seq<Record>)
    requires h <= |j.data|
    ensures SameYield(Rest(j, h), Ok(done, None)) <==> Accounted(j, h, |j.data|, done)
  {
    assert done + [] == done;
    if SameYield(Rest(j, h), Ok(done, None)) {
      SuccessRefusesNothing(j, h, Fresh(h), None);
    }
  }

  /** Chunk 0's state is known: its first pass parses from the true start. */
  lemma FirstChunk(j: Job, size: nat, hasHeaders: bool, h: nat)
    requires HeaderInFirstChunk(j, size, hasHeaders, h)
    ensures var out := ChunkResult(j, 0, Min(size, |j.data|), FindModeFor(hasHeaders, 0));
            out.passes != [] && out.passes[0].recordStart == h
  {
    var bnd, mode := Min(size, |j.data|), FindModeFor(hasHeaders, 0);
    var todo := Assumptions(j.cfg);
    assert todo[0] == AssumeOut;
    var r := Parse(j, 0, bnd, AssumeOut, mode);
    var p := Pass(r.start, r.outcome);
    assert [] + [p] == [p];
    var t := TryRest(j, 0, bnd, mode, todo, [], false);
    if r.outcome.Err? {
      TryNonEmpty(j, 0, bnd, mode, todo[1..], [p], false, AssumeOut);
      assert [p] <= t.passes;
    }
    assert t.passes[0] == p;
  }

  /** What the merge relies on: every pass is a parse from where it starts, and chunk 0's first pass starts at `h`. */
  ghost predicate Sound(j: Job, h: nat, size: nat, outs: seq<ChunkOutput>) {
    && Chunked(j.data, size, |outs|) && |outs| >= 1 && h <= |j.data| && h < size && InRange(j, outs)
    && (forall k :: 0 <= k < |outs| ==> Consistent(j, Min(k * size + size, |j.data|), outs[k]))
    && outs[0].passes != [] && outs[0].passes[0].recordStart == h
    && (j.cfg.comment.Some? ==> forall k: nat :: 1 <= k < |outs| ==> Anchored(j, k * size, outs[k]))
  }

  /** The passes of a chunk that was searched start on terminators in it. */
  ghost predicate Anchored(j: Job, start: nat, out: ChunkOutput) {
    forall p :: p in out.passes ==> start <= p.recordStart < |j.data| && j.cfg.IsTerm(j.data[p.recordStart])
  }

  lemma SoundIs(j: Job, h: nat, size: nat, outs: seq<ChunkOutput>)
    requires Sound(j, h, size, outs)
    ensures Chunked(j.data, size, |outs|) && |outs| >= 1 && h <= |j.data| && h < size && InRange(j, outs)
    ensures forall k :: 0 <= k < |outs| ==> Consistent(j, Min(k * size + size, |j.data|), outs[k])
    ensures outs[0].passes != [] && outs[0].passes[0].recordStart == h
  {
    hide Consistent, InRange, Chunked, Anchored;
  }

  lemma SoundAnchors(j: Job, h: nat, size: nat, outs: seq<ChunkOutput>, k: nat)
    requires Sound(j, h, size, outs) && 1 <= k < |outs| && j.cfg.comment.Some?
    ensures Anchored(j, k * size, outs[k])
  {
    hide Consistent, InRange, Chunked, Anchored;
  }

  lemma ChunkAnchored(j: Job, start: nat, bnd: nat)
    requires j.cfg.Valid() && start <= |j.data|
    ensures Anchored(j, start, ChunkResult(j, start, bnd, FindStrict))
  {
    TryAnchored(j, start, bnd, FindStrict, Assumptions(j.cfg), [], false);
    TryAnchored(j, start, bnd, FindLenient, Assumptions(j.cfg), [], false);
  }

  lemma {:induction false} TryAnchored(j: Job, start: nat, bnd: nat, mode: FindMode, todo: seq<Assumption>, passes: seq<Pass>, sawClean: bool)
    requires j.cfg.Valid() && start <= |j.data| && (mode.FindStrict? || mode.FindLenient?)
    requires forall p :: p in passes ==> start <= p.recordStart < |j.data| && j.cfg.IsTerm(j.data[p.recordStart])
    ensures Anchored(j, start, FromTry(TryRest(j, start, bnd, mode, todo, passes, sawClean)))
    decreases |todo|
  {
    hide Body, Find;
    if todo != [] {
      FindInRange(j.cfg.With(Toggle), j.data, start, bnd, InitialState(j.cfg, todo[0]), mode.FindStrict?);
      match Parse(j, start, bnd, todo[0], mode)
      case Started(s, o) => TryAnchored(j, start, bnd, mode, todo[1..], passes + [Pass(s, o)], sawClean);
      case NoRecord => TryAnchored(j, start, bnd, mode, todo[1..], passes, true);
      case Failed(_) => TryAnchored(j, start, bnd, mode, todo[1..], passes, sawClean);
    }
  }

  /** The outputs of a run are. */
  lemma OutputsSound(j: Job, size: nat, hasHeaders: bool, h: nat, outs: seq<ChunkOutput>)
    requires j.cfg.Valid()
    requires AllOutputs(j, size, hasHeaders, |outs|, outs) && |outs| >= 1
    requires HeaderInFirstChunk(j, size, hasHeaders, h)
    ensures Sound(j, h, size, outs)
  {
    hide Consistent, HeaderInFirstChunk, ChunkResult;
    StartInRange(j, size, hasHeaders, h);
    OutputsConsistent(j, size, hasHeaders, |outs|, outs);
    forall k: nat | 1 <= k < |outs| ensures Anchored(j, k * size, outs[k]) {
      ChunkAnchored(j, k * size, Min(k * size + size, |j.data|));
      assert outs[k] == ChunkResult(j, k * size, Min(k * size + size, |j.data|), FindModeFor(hasHeaders, k));
    }
    FirstChunk(j, size, hasHeaders, h);
    assert outs[0] == ChunkResult(j, 0, Min(size, |j.data|), FindModeFor(hasHeaders, 0));
  }

  /** Chunks from the one holding `n` on produced nothing, so the records from `n` on are not merged. */
  ghost predicate Stranded(j: Job, h: nat, size: nat, outs: seq<ChunkOutput>, k: nat, n: nat) {
    n < |j.data| &&
    forall i :: k <= i < |outs| && n < i * size + size ==>
      outs[i].passes == [] && NoneFrom(j, h, i * size, n)
  }

  /** The merge from chunk `k` and boundary `next` fails as the sequential pass does, or loses stranded records only. */
  ghost predicate Faithful(j: Job, h: nat, size: nat, outs: seq<ChunkOutput>, k: nat, next: Option<nat>, r: MergeResult)
    requires h <= |j.data|
  {
    match r
    case MergeFailed(x) => FailsWith(Rest(j, h), x)
    case Merged(states, last) =>
      || SameYield(Rest(j, h), Ok(Flatten(states), None))
      || (&& last.Some? && Accounted(j, h, last.value, Flatten(states))
          && (last == next || k * size + size <= last.value)
          && Stranded(j, h, size, outs, k, last.value))
  }

  /** The pass the merge selects is the one a parse from the expected boundary gives. */
  lemma {:induction false} SelectedPass(j: Job, bnd: nat, out: ChunkOutput, passes: seq<Pass>, next: Option<nat>)
    requires Consistent(j, bnd, out)
    requires forall p :: p in passes ==> p in out.passes
    ensures var s := Select(passes, next);
            if s.Some? then s.value in out.passes && (next.Some? ==> s.value.recordStart == next.value) else passes == [] || next.Some?
    decreases |passes|
  {
    if passes != [] {
      SelectedPass(j, bnd, out, passes[1..], next);
    }
  }

  /** What the merge does with chunk `k`: skip it, or continue from a parse at the expected boundary. */
  lemma MergeStep(j: Job, size: nat, outs: seq<ChunkOutput>, k: nat, n: nat, states: seq<seq<Record>>)
    requires k < |outs| && InRange(j, outs) && n <= |j.data|
    requires Consistent(j, Min(k * size + size, |j.data|), outs[k])
    requires n <= k * size + size && outs[k].passes != []
    ensures var o := Body(j, n, Min(k * size + size, |j.data|));
            if o.Err? then MergeRest(j, size, outs, k, Some(n), states) == MergeFailed(o.failure)
            else
              && (o.end.Some? ==> o.end.value <= |j.data|)
              && MergeRest(j, size, outs, k, Some(n), states) == MergeRest(j, size, outs, k + 1, o.end, states + [o.records])
  {
    var b := Min(k * size + size, |j.data|);
    SelectedPass(j, b, outs[k], outs[k].passes, Some(n));
    var s := Select(outs[k].passes, Some(n));
    if s.Some? {
      assert s.value.outcome == Body(j, n, b);
      var i :| 0 <= i < |outs[k].passes| && outs[k].passes[i] == s.value;
      if s.value.outcome.Ok? {
        assert outs[k].recordEnd == s.value.outcome.end;
      }
    } else {
      assert Reparse(j, n, k * size + size) == Body(j, n, b);
    }
  }

  /** A skipped chunk strands nothing that was not stranded already. */
  lemma AfterSkip(j: Job, h: nat, size: nat, outs: seq<ChunkOutput>, k: nat, n: nat, r: MergeResult)
    requires 1 <= k < |outs| && h <= size && h <= n <= |j.data|
    requires NoneFrom(j, h, k * size, n)
    requires n > k * size + size || outs[k].passes == []
    requires Faithful(j, h, size, outs, k + 1, Some(n), r)
    ensures Faithful(j, h, size, outs, k, Some(n), r)
  {
    hide Accounted, SameYield, Rest, Flatten;
    assert (k + 1) * size == k * size + size;
  }

  lemma NoneFromLater(j: Job, h: nat, size: nat, k: nat, n: nat)
    requires 1 <= k && h <= size && NoneFrom(j, h, k * size, n)
    ensures NoneFrom(j, h, (k + 1) * size, n)
  {
    assert (k + 1) * size == k * size + size;
    assert k * size >= 1 * size;
  }

  /** A merged chunk ends at or past its own boundary, so it strands nothing itself. */
  lemma AfterMerge(j: Job, h: nat, size: nat, outs: seq<ChunkOutput>, k: nat, n: Option<nat>, e: Option<nat>, r: MergeResult)
    requires k + 1 < |outs| && h <= |j.data|
    requires e.Some? && (e.value < |j.data| ==> k * size + size <= e.value)
    requires Faithful(j, h, size, outs, k + 1, e, r)
    ensures Faithful(j, h, size, outs, k, n, r)
  {
    hide Accounted, SameYield, Rest, Flatten, NoneFrom;
    assert (k + 1) * size == k * size + size;
  }

  lemma FaithfulEnd(j: Job, h: nat, size: nat, outs: seq<ChunkOutput>, n: nat, states: seq<seq<Record>>)
    requires InRange(j, outs) && Accounted(j, h, n, Flatten(states))
    ensures Faithful(j, h, size, outs, |outs|, Some(n), MergeRest(j, size, outs, |outs|, Some(n), states))
  {
    if n == |j.data| {
      assert Flatten(states) + [] == Flatten(states);
    }
  }

  lemma FaithfulSkip(j: Job, h: nat, size: nat, outs: seq<ChunkOutput>, k: nat, n: nat, states: seq<seq<Record>>)
    requires 1 <= k < |outs| && h <= size && h <= n <= |j.data| && InRange(j, outs)
    requires NoneFrom(j, h, k * size, n)
    requires n > k * size + size || outs[k].passes == []
    requires Faithful(j, h, size, outs, k + 1, Some(n), MergeRest(j, size, outs, k + 1, Some(n), states))
    ensures Faithful(j, h, size, outs, k, Some(n), MergeRest(j, size, outs, k, Some(n), states))
  {
    AfterSkip(j, h, size, outs, k, n, MergeRest(j, size, outs, k + 1, Some(n), states));
  }

  lemma FaithfulComplete(j: Job, h: nat, size: nat, outs: seq<ChunkOutput>, k: nat, next: Option<nat>, end: Option<nat>, states: seq<seq<Record>>)
    requires h <= |j.data| && InRange(j, outs) && (end.Some? ==> end.value <= |j.data|)
    requires SameYield(Rest(j, h), Ok(Flatten(states), None))
    ensures Faithful(j, h, size, outs, k, next, MergeRest(j, size, outs, |outs|, end, states))
  {
  }

  lemma FaithfulFailure(j: Job, h: nat, size: nat, outs: seq<ChunkOutput>, k: nat, next: Option<nat>, x: Failure)
    requires h <= |j.data| && FailsWith(Rest(j, h), x)
    ensures Faithful(j, h, size, outs, k, next, MergeFailed(x))
  {
  }

  lemma FinishedIs(j: Job, h: nat, lo: nat, next: Option<nat>)
    requires Finished(j, h, lo, next)
    ensures h <= lo && (next.Some? ==> next.value < |j.data| && Silent(j, h, next.value))
    ensures forall x: nat :: lo <= x < |j.data| && j.cfg.IsTerm(j.data[x]) ==> Silent(j, h, x)
  {
    hide StateAt, Between;
  }

  lemma IsFinished(j: Job, h: nat, lo: nat, lo': nat, next: Option<nat>, next': Option<nat>)
    requires Finished(j, h, lo, next) && lo <= lo' && (next'.Some? ==> Silent(j, h, next'.value))
    ensures Finished(j, h, lo', next')
  {
    hide StateAt, Between, Silent;
  }

  /** A chunk merged behind the last record: whichever pass is taken, it yields nothing. */
  lemma FinishedStep(j: Job, h: nat, size: nat, outs: seq<ChunkOutput>, k: nat, next: Option<nat>, states: seq<seq<Record>>) returns (o: Outcome)
    requires j.cfg.Valid() && CommentsEnd(j.cfg) && j.cfg.comment.Some? && Sound(j, h, size, outs) && InRange(j, outs)
    requires 1 <= k < |outs| && Finished(j, h, k * size, next) && (next.Some? ==> next.value <= |j.data|)
    requires outs[k].passes != [] && (next.Some? ==> next.value <= k * size + size)
    ensures o.Ok? && o.records == [] && Finished(j, h, (k + 1) * size, o.end) && (o.end.Some? ==> o.end.value <= |j.data|)
    ensures MergeRest(j, size, outs, k, next, states) == MergeRest(j, size, outs, k + 1, o.end, states + [[]])
  {
    hide *;
    SoundIs(j, h, size, outs);
    SoundAnchors(j, h, size, outs, k);
    FinishedIs(j, h, k * size, next);
    var b := Min(k * size + size, |j.data|);
    SelectedPass(j, b, outs[k], outs[k].passes, next);
    var s := Select(outs[k].passes, next);
    var x := if s.Some? then s.value.recordStart else next.value;
    if s.Some? {
      AnchoredIs(j, k * size, outs[k], s.value);
    }
    SilentBody(j, h, x, b);
    o := Body(j, x, b);
    assert (k + 1) * size == k * size + size;
    IsFinished(j, h, k * size, (k + 1) * size, next, o.end);
    FinishedIs(j, h, (k + 1) * size, o.end);
    MergeTakes(j, size, outs, k, next, states, x);
  }

  lemma AnchoredIs(j: Job, start: nat, out: ChunkOutput, p: Pass)
    requires Anchored(j, start, out) && p in out.passes
    ensures start <= p.recordStart < |j.data| && j.cfg.IsTerm(j.data[p.recordStart])
  {
  }

  lemma MergeTakes(j: Job, size: nat, outs: seq<ChunkOutput>, k: nat, next: Option<nat>, states: seq<seq<Record>>, x: nat)
    requires k < |outs| && InRange(j, outs) && x <= |j.data| && (next.Some? ==> next.value <= |j.data| && next.value <= k * size + size)
    requires Consistent(j, Min(k * size + size, |j.data|), outs[k]) && outs[k].passes != []
    requires var s := Select(outs[k].passes, next); if s.Some? then s.value in outs[k].passes && x == s.value.recordStart else next == Some(x)
    requires Body(j, x, Min(k * size + size, |j.data|)).Ok?
    ensures var o := Body(j, x, Min(k * size + size, |j.data|));
            && (o.end.Some? ==> o.end.value <= |j.data|)
            && MergeRest(j, size, outs, k, next, states) == MergeRest(j, size, outs, k + 1, o.end, states + [o.records])
  {
    hide Body, Select;
    var b := Min(k * size + size, |j.data|);
    var s := Select(outs[k].passes, next);
    if s.Some? {
      assert s.value.outcome == Body(j, x, b);
      var i :| 0 <= i < |outs[k].passes| && outs[k].passes[i] == s.value;
      assert outs[k].recordEnd == s.value.outcome.end;
    } else {
      assert Reparse(j, x, k * size + size) == Body(j, x, b);
    }
  }

  /** Behind the last record the merge adds nothing, though it may no longer expect a boundary. */
  lemma {:induction false} FinishedMerge(j: Job, h: nat, size: nat, outs: seq<ChunkOutput>, k: nat, next: Option<nat>, states: seq<seq<Record>>)
    requires j.cfg.Valid() && CommentsEnd(j.cfg) && j.cfg.comment.Some? && Sound(j, h, size, outs) && InRange(j, outs)
    requires 1 <= k <= |outs| && Finished(j, h, k * size, next)
    ensures next.Some? ==> next.value <= |j.data|
    ensures var r := MergeRest(j, size, outs, k, next, states); r.Merged? && Flatten(r.states) == Flatten(states)
    decreases |outs| - k
  {
    hide *;
    FinishedIs(j, h, k * size, next);
    if k == |outs| || (next.Some? && next.value > k * size + size) || outs[k].passes == [] {
      MergeSkips(j, size, outs, k, next, states);
      if k < |outs| {
        assert (k + 1) * size == k * size + size;
        IsFinished(j, h, k * size, (k + 1) * size, next, next);
        FinishedMerge(j, h, size, outs, k + 1, next, states);
      }
    } else {
      var o := FinishedStep(j, h, size, outs, k, next, states);
      FinishedMerge(j, h, size, outs, k + 1, o.end, states + [[]]);
      FlattenAppend(states, []);
      assert Flatten(states) + [] == Flatten(states);
    }
  }

  lemma MergeSkips(j: Job, size: nat, outs: seq<ChunkOutput>, k: nat, next: Option<nat>, states: seq<seq<Record>>)
    requires InRange(j, outs) && k <= |outs| && (next.Some? ==> next.value <= |j.data|)
    requires k == |outs| || (next.Some? && next.value > k * size + size) || outs[k].passes == []
    ensures MergeRest(j, size, outs, k, next, states)
         == if k == |outs| then Merged(states, next) else MergeRest(j, size, outs, k + 1, next, states)
  {
    hide InRange, Reparse, Select;
  }

  lemma FaithfulFinish(j: Job, h: nat, size: nat, outs: seq<ChunkOutput>, k: nat, next: Option<nat>, done: seq<Record>, r: MergeResult)
    requires h <= |j.data| && SameYield(Rest(j, h), Ok(done, None)) && r.Merged? && Flatten(r.states) == done
    ensures Faithful(j, h, size, outs, k, next, r) && Safe(j, h, size, outs, r)
  {
    hide Rest, SameYield, Flatten;
  }

  /** The merge from chunk `k` on stays faithful to the sequential pass. */
  lemma {:induction false} MergeSafe(j: Job, h: nat, size: nat, outs: seq<ChunkOutput>, k: nat, n: nat, states: seq<seq<Record>>)
    requires j.cfg.Valid() && CommentsEnd(j.cfg)
    requires Sound(j, h, size, outs) && InRange(j, outs)
    requires h <= size && 1 <= k <= |outs|
    requires Accounted(j, h, n, Flatten(states)) && NoneFrom(j, h, k * size, n)
    ensures h <= |j.data| && n <= |j.data|
    ensures Faithful(j, h, size, outs, k, Some(n), MergeRest(j, size, outs, k, Some(n), states))
    decreases |outs| - k
  {
    hide *;
    SoundIs(j, h, size, outs);
    AccountedIn(j, h, n, Flatten(states));
    if k == |outs| {
      FaithfulEnd(j, h, size, outs, n, states);
    } else if n > k * size + size || outs[k].passes == [] {
      NoneFromLater(j, h, size, k, n);
      MergeSafe(j, h, size, outs, k + 1, n, states);
      FaithfulSkip(j, h, size, outs, k, n, states);
    } else {
      MergeStep(j, size, outs, k, n, states);
      ProcessedChunk(j, h, size, |outs|, k, n, Flatten(states));
      var o := Body(j, n, Min(k * size + size, |j.data|));
      if o.Err? {
        FailsSo(Rest(j, h), Flatten(states) + o.records, o.failure);
        FaithfulFailure(j, h, size, outs, k, Some(n), o.failure);
      } else {
        var longer := states + [o.records];
        FlattenAppend(states, o.records);
        if k + 1 == |outs| {
          FaithfulComplete(j, h, size, outs, k, Some(n), o.end, longer);
        } else {
          ProgressIs(j, h, size, |outs|, k + 1, o.end, Flatten(longer));
          assert (k + 1) * size == k * size + size;
          if Over(j, h, (k + 1) * size, o.end, Flatten(longer)) {
            OverIs(j, h, (k + 1) * size, o.end, Flatten(longer));
            FinishedMerge(j, h, size, outs, k + 1, o.end, longer);
            FaithfulFinish(j, h, size, outs, k, Some(n), Flatten(longer), MergeRest(j, size, outs, k + 1, o.end, longer));
          } else {
            MergeSafe(j, h, size, outs, k + 1, o.end.value, longer);
            AfterMerge(j, h, size, outs, k, Some(n), o.end, MergeRest(j, size, outs, k + 1, o.end, longer));
          }
        }
      }
    }
  }

  lemma FailsSo(o: Outcome, records: seq<Record>, e: Failure)
    requires o == Err(records, e)
    ensures FailsWith(o, e)
  {
  }

  lemma AccountedIn(j: Job, h: nat, n: nat, done: seq<Record>)
    requires Accounted(j, h, n, done)
    ensures h <= n <= |j.data|
  {
    hide Rest, FailAt, EndsHere;
  }

  lemma ProgressIs(j: Job, h: nat, size: nat, count: nat, k: nat, next: Option<nat>, done: seq<Record>)
    requires Progress(j, h, size, count, k, next, done) && 0 < k < count
    ensures
      || (next.Some? && Accounted(j, h, next.value, done) && NoneFrom(j, h, k * size, next.value))
      || Over(j, h, k * size, next, done)
  {
    hide Accounted, NoneFrom, Over;
  }

  /** Chunk 0 starts the merge where the sequential pass starts. */
  lemma MergeStart(j: Job, h: nat, size: nat, outs: seq<ChunkOutput>)
    requires Sound(j, h, size, outs) && InRange(j, outs)
    ensures var o := Body(j, h, Min(size, |j.data|));
            if o.Err? then MergeRest(j, size, outs, 0, None, []) == MergeFailed(o.failure)
            else && (o.end.Some? ==> o.end.value <= |j.data|)
                 && MergeRest(j, size, outs, 0, None, []) == MergeRest(j, size, outs, 1, o.end, [o.records])
  {
    hide Body;
    assert Consistent(j, Min(0 * size + size, |j.data|), outs[0]);
    assert Select(outs[0].passes, None) == Some(outs[0].passes[0]);
    assert outs[0].passes[0] in outs[0].passes;
    var o := outs[0].passes[0].outcome;
    if o.Ok? {
      assert outs[0].recordEnd == o.end;
      assert [] + [o.records] == [o.records];
    }
  }

  lemma StartInRange(j: Job, size: nat, hasHeaders: bool, h: nat)
    requires size >= 1 && HeaderInFirstChunk(j, size, hasHeaders, h)
    ensures h <= |j.data| && h < size
  {
    FindInRange(j.cfg, j.data, 0, Min(size, |j.data|), RecordStart, false);
  }

  /** What the merge may do to the sequential records: nothing, or strand a tail of them. */
  ghost predicate Safe(j: Job, h: nat, size: nat, outs: seq<ChunkOutput>, r: MergeResult)
    requires h <= |j.data|
  {
    match r
    case MergeFailed(x) => FailsWith(Rest(j, h), x)
    case Merged(states, last) =>
      || SameYield(Rest(j, h), Ok(Flatten(states), None))
      || (last.Some? && Accounted(j, h, last.value, Flatten(states)) && Stranded(j, h, size, outs, 0, last.value))
  }

  lemma FaithfulIsSafe(j: Job, h: nat, size: nat, outs: seq<ChunkOutput>, e: nat, r: MergeResult)
    requires h <= |j.data| && Faithful(j, h, size, outs, 1, Some(e), r)
    requires e < |j.data| ==> size <= e
    ensures Safe(j, h, size, outs, r)
  {
    hide Accounted, SameYield, Rest, Flatten, NoneFrom;
  }

  lemma CompleteIsSafe(j: Job, h: nat, size: nat, outs: seq<ChunkOutput>, e: Option<nat>, rs: seq<Record>)
    requires h <= |j.data| && |outs| == 1 && InRange(j, outs) && (e.Some? ==> e.value <= |j.data|)
    requires SameYield(Rest(j, h), Ok(rs, None))
    ensures Safe(j, h, size, outs, MergeRest(j, size, outs, 1, e, [rs]))
  {
    assert Flatten([rs]) == [] + rs;
  }

  /** What a merge yields, all or some of it, is what one pass hands out first, whether that pass fails later or not. */
  lemma SafePrefix(j: Job, h: nat, size: nat, outs: seq<ChunkOutput>, r: MergeResult)
    requires h <= |j.data| && Safe(j, h, size, outs, r) && r.Merged?
    ensures Flatten(r.states) <= Rest(j, h).records
  {
    hide Rest, FailAt, EndsHere, Stranded, Flatten;
  }

  /**
   * Merge safety, whatever the quoting: the merge fails only as the sequential pass fails, and
   * otherwise its records are the sequential ones, up to records stranded behind a tail of
   * chunks that produced no pass. Even where the sequential pass fails later, the merged records
   * are the first it hands out.
   */
  lemma MergeSafety(j: Job, h: nat, size: nat, outs: seq<ChunkOutput>)
    requires j.cfg.Valid() && CommentsEnd(j.cfg) && Sound(j, h, size, outs)
    ensures InRange(j, outs) && h <= |j.data|
    ensures var r := MergeRest(j, size, outs, 0, None, []);
            Safe(j, h, size, outs, r) && (r.Merged? ==> Flatten(r.states) <= Rest(j, h).records)
  {
    hide *;
    MergeIsSafe(j, h, size, outs);
    var r := MergeRest(j, size, outs, 0, None, []);
    if r.Merged? {
      SafePrefix(j, h, size, outs, r);
    }
  }

  lemma MergeIsSafe(j: Job, h: nat, size: nat, outs: seq<ChunkOutput>)
    requires j.cfg.Valid() && CommentsEnd(j.cfg) && Sound(j, h, size, outs)
    ensures InRange(j, outs) && h <= |j.data|
    ensures Safe(j, h, size, outs, MergeRest(j, size, outs, 0, None, []))
  {
    hide *;
    SoundIs(j, h, size, outs);
    MergeStart(j, h, size, outs);
    StartAccounted(j, h);
    assert 0 * size + size == size && 1 * size == size;
    ProcessedChunk(j, h, size, |outs|, 0, h, []);
    var o := Body(j, h, Min(size, |j.data|));
    if o.Err? {
      FailsSo(Rest(j, h), [] + o.records, o.failure);
      SafeFailure(j, h, size, outs, o.failure);
    } else {
      assert [] + [o.records] == [o.records] && [] + o.records == o.records;
      FlattenAppend([], o.records);
      FlattenNone();
      if |outs| == 1 {
        CompleteIsSafe(j, h, size, outs, o.end, o.records);
      } else {
        ProgressIs(j, h, size, |outs|, 1, o.end, o.records);
        if Over(j, h, 1 * size, o.end, o.records) {
          OverIs(j, h, 1 * size, o.end, o.records);
          FinishedMerge(j, h, size, outs, 1, o.end, [o.records]);
          FaithfulFinish(j, h, size, outs, 1, None, o.records, MergeRest(j, size, outs, 1, o.end, [o.records]));
        } else {
          MergeSafe(j, h, size, outs, 1, o.end.value, [o.records]);
          FaithfulIsSafe(j, h, size, outs, o.end.value, MergeRest(j, size, outs, 1, o.end, [o.records]));
        }
      }
    }
  }

  lemma StartAccounted(j: Job, h: nat)
    requires h <= |j.data|
    ensures Accounted(j, h, h, [])
  {
    PrependNothing(Rest(j, h));
    hide Rest, FailAt;
  }

  lemma FlattenNone()
    ensures Flatten([]) == []
  {
  }

  lemma SafeFailure(j: Job, h: nat, size: nat, outs: seq<ChunkOutput>, x: Failure)
    requires h <= |j.data| && FailsWith(Rest(j, h), x)
    ensures Safe(j, h, size, outs, MergeFailed(x))
  {
  }
}
