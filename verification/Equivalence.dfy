/** When the parallel run yields exactly the sequential records. */
module Equivalence {
  import opened Dialect
  import opened Dfa
  import opened Records
  import opened Chunk
  import opened Handoff
  import opened Scheduler
  import opened Merge
  import opened FailurePoint
  import opened ParallelRun

  function Result(r: MergeResult): Outcome {
    match r
    case Merged(states, _) => Ok(Flatten(states), None)
    case MergeFailed(x) => Err([], x)
  }

  lemma {:induction false} FindWiden(c: Config, data: seq<byte>, pos: nat, b1: nat, b2: nat, s: State, probe: bool)
    requires pos <= |data| && b1 <= b2
    requires Find(c, data, pos, b1, s, probe).At?
    ensures Find(c, data, pos, b2, s, probe) == Find(c, data, pos, b1, s, probe)
    decreases |data| - pos
  {
    var t := Cell(c, s, data[pos]);
    if !t.next.RecordEnd? {
      FindWiden(c, data, pos + 1, b1, b2, Settle(t.next), probe);
    }
  }

  /** The streaming pass is one scan from where chunk 0's records start. */
  lemma SequentialIsRest(j: Job, size: nat, hasHeaders: bool, h: nat)
    requires HeaderInFirstChunk(j, size, hasHeaders, h) && h <= |j.data|
    ensures Sequential(j, hasHeaders) == Rest(j, h)
  {
    BodyIsScan(j, h, |j.data|);
    if hasHeaders {
      FindWiden(j.cfg, j.data, 0, Min(size, |j.data|), |j.data|, RecordStart, false);
    }
  }

  /** A record starts at or past `n` on the walk from `h`: without comments, any byte there that is not a bare terminator. */
  ghost predicate Content(j: Job, h: nat, n: nat)
    requires h <= n
  {
    exists x :: n <= x < |j.data| && !j.cfg.IsTerm(j.data[x]) && (j.cfg.comment.Some? ==> StartsRecord(j, h, x))
  }

  predicate StartsRecord(j: Job, h: nat, x: nat)
    requires h <= x < |j.data|
  {
    StateAt(j.cfg, j.data, h, x).RecordStart? && j.cfg.comment != Some(j.data[x])
  }

  lemma NoRecordStarts(j: Job, h: nat, x: nat)
    requires j.cfg.Valid() && h <= x < |j.data| && Between(StateAt(j.cfg, j.data, h, x)) && !Content(j, h, x)
    ensures Between(StateAt(j.cfg, j.data, h, x + 1))
  {
    Interior(j.cfg, j.data, h, x);
  }

  /** Without content there are only blank lines and comments. */
  lemma {:induction false} NoContentTrails(j: Job, h: nat, x: nat)
    requires j.cfg.Valid() && h <= x <= |j.data| && Between(StateAt(j.cfg, j.data, h, x)) && !Content(j, h, x)
    ensures Trailing(j.cfg, j.data, h, x)
    decreases |j.data| - x
  {
    hide StateAt, Between;
    if x < |j.data| {
      NoRecordStarts(j, h, x);
      NoContentTrails(j, h, x + 1);
    }
    TrailingFrom(j.cfg, j.data, h, x);
  }

  lemma BlankRest(j: Job, h: nat, n: nat)
    requires j.cfg.Valid() && h <= n < |j.data| && EndsHere(j.cfg, j.data, h, n) && !Content(j, h, n)
    ensures Rest(j, n) == Ok([], None)
  {
    hide *;
    AfterEnd(j, h, n);
    ContentLater(j, h, n);
    StartIsBetween();
    NoContentTrails(j, h, n + 1);
    TrailingIsQuiet(j, h, n + 1, |j.data|, Fresh(n), None);
    RestIs(j, n);
  }

  lemma StartIsBetween()
    ensures Between(RecordStart)
  {
  }

  lemma RestIs(j: Job, n: nat)
    requires n <= |j.data|
    ensures Rest(j, n) == Scan(j, n, |j.data|, Fresh(n), None)
  {
    hide Scan;
  }

  lemma ContentLater(j: Job, h: nat, n: nat)
    requires h <= n
    ensures Content(j, h, n + 1) ==> Content(j, h, n)
  {
    hide StateAt;
  }

  /** Behind a byte that starts no record, content is further on. */
  lemma ContentBehind(j: Job, from: nat, pos: nat, f: Flight)
    requires OnPath(j, from, pos, f) && pos < |j.data| && Between(f.state) && Content(j, from, pos)
    ensures var m := Step(j, f, pos); m.Blank? || (m.Go? && Between(m.flight.state)) ==> Content(j, from, pos + 1)
  {
    var m := Step(j, f, pos);
    if m.Blank? || (m.Go? && Between(m.flight.state)) {
      var x :| pos <= x < |j.data| && !j.cfg.IsTerm(j.data[x]) && (j.cfg.comment.Some? ==> StartsRecord(j, from, x));
      Interior(j.cfg, j.data, from, pos);
      assert x != pos;
    }
  }

  /** Content left to read, or a record in flight, yields a record if the pass succeeds at all. */
  lemma {:induction false} ContentYields(j: Job, from: nat, pos: nat, f: Flight, last: Option<nat>)
    requires OnPath(j, from, pos, f) && !f.state.Error?
    requires !Between(f.state) || Content(j, from, pos)
    ensures var o := Scan(j, pos, |j.data|, f, last); o.Ok? ==> o.records != []
    decreases |j.data| - pos
  {
    Interior(j.cfg, j.data, from, pos);
    hide Cell, Verdict, Content, StateAt, Step;
    if pos < |j.data| {
      StepOnPath(j, from, pos, f);
      if Between(f.state) {
        ContentBehind(j, from, pos, f);
      }
      match Step(j, f, pos)
      case Blank =>
        BlankIsBetween(j, f, pos);
        ContentYields(j, from, pos + 1, f, last);
      case Go(g) => ContentYields(j, from, pos + 1, g, last);
      case Close(_) =>
      case Fail(_) =>
    } else {
      NoContentAtEnd(j, from, pos);
    }
  }

  lemma NoContentAtEnd(j: Job, h: nat, n: nat)
    requires h <= n == |j.data|
    ensures !Content(j, h, n)
  {
  }

  lemma RestYields(j: Job, h: nat, n: nat)
    requires j.cfg.Valid() && Boundary(j, h, n) && Content(j, h, n)
    ensures Rest(j, n).Ok? ==> Rest(j, n).records != []
  {
    hide *;
    BoundaryIs(j, h, n);
    if n == |j.data| {
      NoContentAtEnd(j, h, n);
    } else if n == h {
      OnPathAtStart(j, h);
      FreshIs(h);
      ContentYields(j, h, h, Fresh(h), None);
    } else {
      AfterEnd(j, h, n);
      FreshIs(n);
      StartIsBetween();
      PastEnd(j, h, n);
      ContentYields(j, h, n + 1, Fresh(n), None);
    }
    RestIs(j, n);
  }

  lemma FreshIs(n: nat)
    ensures Fresh(n).state == RecordStart
  {
  }

  lemma BoundaryIs(j: Job, h: nat, n: nat)
    requires Boundary(j, h, n)
    ensures h <= n <= |j.data| && (n == h || n == |j.data| || EndsHere(j.cfg, j.data, h, n))
  {
    hide EndsHere;
  }

  lemma PastEnd(j: Job, h: nat, n: nat)
    requires h <= n < |j.data| && j.cfg.IsTerm(j.data[n]) && Content(j, h, n)
    ensures Content(j, h, n + 1)
  {
    hide StateAt;
  }

  /** A chunk the strict search leaves without a pass, retry included. */
  predicate Dead(j: Job, start: nat, bnd: nat)
    requires start <= |j.data|
  {
    ChunkResult(j, start, bnd, FindStrict).passes == []
  }

  /** In terms of the searches alone: a chunk is dead iff none of its assumptions leads to a pass. */
  lemma DeadIff(j: Job, start: nat, bnd: nat)
    requires start <= |j.data|
    ensures Dead(j, start, bnd) <==> Barren(j, false, start, bnd, FindStrict)
  {
    var todo := Assumptions(j.cfg);
    TryShape(j, start, bnd, FindStrict, todo, false);
    TryShape(j, start, bnd, FindLenient, todo, false);
  }

  /** One round of assumptions: resolved iff some search succeeds, clean iff none does but one ran through. */
  lemma {:induction false} TryShape(j: Job, start: nat, bnd: nat, mode: FindMode, todo: seq<Assumption>, sawClean: bool)
    requires start <= |j.data|
    ensures var t := TryRest(j, start, bnd, mode, todo, [], sawClean);
            && (t.Resolved? <==> exists a :: a in todo && Locate(j, start, bnd, a, mode).At?)
            && (t.Resolved? ==> t.passes != [])
            && (t.AllFailed? <==> !sawClean && forall a :: a in todo ==> Locate(j, start, bnd, a, mode).Refused?)
    decreases |todo|
  {
    if todo != [] {
      var a := todo[0];
      assert forall x :: x in todo <==> x == a || x in todo[1..];
      var r := Locate(j, start, bnd, a, mode);
      if r.At? {
        var p := Pass(r.pos, Body(j, r.pos, bnd));
        assert [] + [p] == [p];
        if p.outcome.Err? {
          TryNonEmpty(j, start, bnd, mode, todo[1..], [p], sawClean, a);
        }
      } else {
        TryShape(j, start, bnd, mode, todo[1..], sawClean || r.Nowhere?);
      }
    }
  }

  lemma ChunkHolding(data: seq<byte>, size: nat, count: nat, n: nat) returns (i: nat)
    requires Chunked(data, size, count) && n < |data|
    ensures i < count && i * size <= n < i * size + size
  {
    i := n / size;
    assert n == i * size + n % size;
    assert i >= count ==> i * size >= count * size;
  }

  /** Every chunk's output, as the run produces them. */
  ghost predicate Run(j: Job, size: nat, hasHeaders: bool, h: nat, outs: seq<ChunkOutput>) {
    && j.cfg.Valid() && CommentsEnd(j.cfg)
    && AllOutputs(j, size, hasHeaders, |outs|, outs) && |outs| >= 1
    && HeaderInFirstChunk(j, size, hasHeaders, h)
  }

  /** On well-quoted input the chunk that holds the first record end past its start is not dead. */
  lemma WellQuotedLive(j: Job, h: nat, start: nat, bnd: nat, n: nat)
    requires j.cfg.Valid() && CommentsEnd(j.cfg)
    requires h <= start <= |j.data| && WellQuoted(j.cfg, j.data, h) && PlainComments(j.cfg, j.data, h)
    requires FirstEnd(j.cfg, j.data, h, start, n) && n < bnd
    ensures !Dead(j, start, bnd)
  {
    hide Cell, Find, TryRest;
    TrueAssumptionStops(j.cfg, j.data, h, start, bnd, n);
    DeadIff(j, start, bnd);
    assert Locate(j, start, bnd, Abstract(StateAt(j.cfg, j.data, h, start)), FindStrict).At?;
  }

  /** Chunk `i` ends past `n` and produced a pass. */
  predicate LiveAfter(size: nat, outs: seq<ChunkOutput>, n: nat, i: nat) {
    i < |outs| && n < i * size + size && outs[i].passes != []
  }

  ghost predicate Covered(size: nat, outs: seq<ChunkOutput>, n: nat) {
    exists i: nat :: LiveAfter(size, outs, n, i)
  }

  /**
   * Every record end that the sequential pass gets past, with content behind it, is in or
   * before a chunk that produced a pass.
   */
  ghost predicate LossFree(j: Job, h: nat, size: nat, outs: seq<ChunkOutput>)
    requires h <= |j.data|
  {
    forall n: nat :: h <= n < FailAt(j, h, Fresh(h)) && n < |j.data| && EndsHere(j.cfg, j.data, h, n) && Content(j, h, n) ==> Covered(size, outs, n)
  }

  lemma LossFreeAt(j: Job, h: nat, size: nat, outs: seq<ChunkOutput>, n: nat)
    requires h <= |j.data| && LossFree(j, h, size, outs)
    requires h <= n < FailAt(j, h, Fresh(h)) && n < |j.data| && EndsHere(j.cfg, j.data, h, n) && Content(j, h, n)
    ensures Covered(size, outs, n)
  {
    hide FailAt, EndsHere, Content, Covered;
  }

  lemma NotCovered(size: nat, outs: seq<ChunkOutput>, n: nat)
    requires forall i: nat :: i < |outs| && n < i * size + size ==> outs[i].passes == []
    ensures !Covered(size, outs, n)
  {
  }

  /** A stranded boundary of a loss-free run has only blank lines behind it. */
  lemma StrandedIsBlank(j: Job, h: nat, size: nat, outs: seq<ChunkOutput>, m: nat, done: seq<Record>)
    requires j.cfg.Valid() && CommentsEnd(j.cfg) && Sound(j, h, size, outs) && h <= |j.data| && LossFree(j, h, size, outs)
    requires Accounted(j, h, m, done) && Stranded(j, h, size, outs, 0, m)
    ensures SameYield(Rest(j, h), Ok(done, None))
  {
    hide *;
    SoundIs(j, h, size, outs);
    StrandedChunks(j, h, size, outs, m);
    assert 0 * size + size == size;
    NotCovered(size, outs, m);
    StrandedAt(j, h, m, done);
    if Content(j, h, m) {
      LossFreeAt(j, h, size, outs, m);
    } else {
      BlankRest(j, h, m);
      NothingMore(j, h, m, done);
    }
  }

  lemma NothingMore(j: Job, h: nat, m: nat, done: seq<Record>)
    requires Accounted(j, h, m, done) && m <= |j.data| && Rest(j, m) == Ok([], None)
    ensures SameYield(Rest(j, h), Ok(done, None))
  {
    hide Rest, FailAt, EndsHere;
    assert done + [] == done;
  }

  /** A merged boundary inside the input, past the start, is a record end that the sequential pass gets past. */
  lemma StrandedAt(j: Job, h: nat, m: nat, done: seq<Record>)
    requires j.cfg.Valid() && Accounted(j, h, m, done) && m != h && m < |j.data|
    ensures h <= m < FailAt(j, h, Fresh(h)) && EndsHere(j.cfg, j.data, h, m)
  {
    PastTerminator(j, m);
    hide Rest, FailAt;
  }

  lemma StrandedChunks(j: Job, h: nat, size: nat, outs: seq<ChunkOutput>, m: nat)
    requires Stranded(j, h, size, outs, 0, m)
    ensures m < |j.data| && forall i: nat :: i < |outs| && m < i * size + size ==> outs[i].passes == []
  {
    hide NoneFrom;
  }

  /** One merged chunk on the way to `n`. */
  lemma StuckStep(j: Job, h: nat, size: nat, outs: seq<ChunkOutput>, n: nat, k: nat, m: nat, states: seq<seq<Record>>) returns (o: Outcome)
    requires j.cfg.Valid() && CommentsEnd(j.cfg) && Sound(j, h, size, outs) && InRange(j, outs)
    requires k < |outs| && m <= k * size + size <= n < |j.data| && Accounted(j, h, m, Flatten(states)) && outs[k].passes != []
    requires n < FailAt(j, h, Fresh(h)) && EndsHere(j.cfg, j.data, h, n) && (m != h ==> EndsHere(j.cfg, j.data, h, m))
    ensures o.Ok? && o.end.Some? && o.end.value <= n && k * size + size <= o.end.value && EndsHere(j.cfg, j.data, h, o.end.value)
    ensures Accounted(j, h, o.end.value, Flatten(states + [o.records]))
    ensures MergeRest(j, size, outs, k, Some(m), states) == MergeRest(j, size, outs, k + 1, o.end, states + [o.records])
  {
    hide *;
    SoundIs(j, h, size, outs);
    var b := k * size + size;
    WithinInput(b, |j.data|);
    MergeStep(j, size, outs, k, m, states);
    Advance(j, h, m, b, Flatten(states));
    AccountedIs(j, h, m, Flatten(states));
    BodyReaches(j, h, m, b, n);
    MaxOf(m, b);
    o := Body(j, m, b);
    FlattenAppend(states, o.records);
  }

  lemma WithinInput(b: nat, len: nat)
    requires b <= len
    ensures Min(b, len) == b
  {
  }

  lemma MaxOf(m: nat, b: nat)
    requires m <= b
    ensures Max(m, b) == b
  {
  }

  lemma AccountedIs(j: Job, h: nat, m: nat, done: seq<Record>)
    requires Accounted(j, h, m, done)
    ensures h <= m <= |j.data| && Boundary(j, h, m) && FailAt(j, h, Fresh(h)) == FailAt(j, m, Fresh(m))
  {
    hide Rest, FailAt, EndsHere;
  }

  /** A merge that meets no live chunk past `n` never gets beyond `n`, and does not fail before the sequential pass does. */
  lemma {:induction false} StuckBefore(j: Job, h: nat, size: nat, outs: seq<ChunkOutput>, n: nat, k: nat, m: nat, states: seq<seq<Record>>)
    requires j.cfg.Valid() && CommentsEnd(j.cfg) && Sound(j, h, size, outs) && InRange(j, outs)
    requires 1 <= k <= |outs| && m <= n < |j.data| && Accounted(j, h, m, Flatten(states))
    requires n < FailAt(j, h, Fresh(h)) && EndsHere(j.cfg, j.data, h, n) && (m != h ==> EndsHere(j.cfg, j.data, h, m))
    requires forall i: nat :: k <= i < |outs| && n < i * size + size ==> outs[i].passes == []
    ensures var r := MergeRest(j, size, outs, k, Some(m), states);
            r.Merged? && r.next.Some? && r.next.value <= n && Accounted(j, h, r.next.value, Flatten(r.states))
    decreases |outs| - k
  {
    hide *;
    if k == |outs| || m > k * size + size || outs[k].passes == [] {
      SkipStep(j, size, outs, k, m, states);
      if k < |outs| {
        StuckBefore(j, h, size, outs, n, k + 1, m, states);
      }
    } else {
      var o := StuckStep(j, h, size, outs, n, k, m, states);
      StuckBefore(j, h, size, outs, n, k + 1, o.end.value, states + [o.records]);
    }
  }

  lemma SkipStep(j: Job, size: nat, outs: seq<ChunkOutput>, k: nat, m: nat, states: seq<seq<Record>>)
    requires InRange(j, outs) && k <= |outs| && m <= |j.data|
    requires k == |outs| || m > k * size + size || outs[k].passes == []
    ensures MergeRest(j, size, outs, k, Some(m), states)
         == if k == |outs| then Merged(states, Some(m)) else MergeRest(j, size, outs, k + 1, Some(m), states)
  {
    hide InRange, Reparse, Select;
  }

  /** A parse from a merged boundary to one before a record end reaches the latter, unless the sequential pass fails first. */
  lemma BodyReaches(j: Job, h: nat, m: nat, b: nat, n: nat)
    requires j.cfg.Valid() && Boundary(j, h, m) && FailAt(j, h, Fresh(h)) == FailAt(j, m, Fresh(m))
    requires h <= m <= b <= n < |j.data| && n < FailAt(j, h, Fresh(h)) && EndsHere(j.cfg, j.data, h, n) && (m != h ==> EndsHere(j.cfg, j.data, h, m))
    ensures var o := Body(j, m, b); o.Ok? && o.end.Some? && o.end.value <= n && b <= o.end.value && EndsHere(j.cfg, j.data, h, o.end.value)
  {
    hide *;
    BodyIsScan(j, m, b);
    BoundaryStep(j, h, m, b);
    if m == h {
      OnPathAtStart(j, h);
      StopsBeforeFailure(j, h, h, b, Fresh(h), None, n);
    } else {
      AfterEnd(j, h, m);
      if m < b {
        StopsBeforeFailure(j, h, m + 1, b, Fresh(m), None, n);
      }
    }
    EndsAtFirst(j, h, m, b, n);
  }

  lemma OnPathAtStart(j: Job, h: nat)
    requires j.cfg.Valid() && h <= |j.data|
    ensures OnPath(j, h, h, Fresh(h))
  {
  }

  /** A parse that succeeds stops at the first end at or past its boundary, if there is one. */
  lemma EndsAtFirst(j: Job, h: nat, m: nat, b: nat, n: nat)
    requires j.cfg.Valid() && Boundary(j, h, m) && m <= b <= n < |j.data| && EndsHere(j.cfg, j.data, h, n)
    ensures var o := Body(j, m, b); o.Ok? ==> o.end.Some? && b <= o.end.value <= n && EndsHere(j.cfg, j.data, h, o.end.value)
  {
    BoundaryStep(j, h, m, b);
    hide Body, Rest, FailAt, EndsHere;
  }

  /** Behind a record end the walk stands at a record start. */
  lemma AfterEnd(j: Job, h: nat, m: nat)
    requires j.cfg.Valid() && h <= m < |j.data| && EndsHere(j.cfg, j.data, h, m)
    ensures StateAt(j.cfg, j.data, h, m + 1) == RecordStart && j.cfg.IsTerm(j.data[m])
    ensures FailAt(j, m, Fresh(m)) == FailAt(j, m + 1, Fresh(m))
    ensures OnPath(j, h, m + 1, Fresh(m))
    ensures forall b: nat :: m < b ==> Scan(j, m, b, Fresh(m), None) == Scan(j, m + 1, b, Fresh(m), None)
    ensures forall b: nat :: b <= m ==> Scan(j, m, b, Fresh(m), None) == Ok([], Some(m))
  {
    PastTerminator(j, m);
  }

  /** Content behind a record end that no chunk with a pass covers is missing from the merge. */
  lemma UncoveredIsLost(j: Job, h: nat, size: nat, outs: seq<ChunkOutput>, n: nat)
    requires j.cfg.Valid() && CommentsEnd(j.cfg) && Sound(j, h, size, outs) && InRange(j, outs)
    requires h <= n < |j.data| && n < FailAt(j, h, Fresh(h)) && EndsHere(j.cfg, j.data, h, n) && Content(j, h, n)
    requires !Covered(size, outs, n)
    ensures !SameAnswer(Rest(j, h), Result(MergeRest(j, size, outs, 0, None, [])))
  {
    hide *;
    SoundIs(j, h, size, outs);
    Uncovered(size, outs, n);
    assert 0 * size + size == size;
    WithinInput(size, |j.data|);
    StartAccounted(j, h);
    StartBoundary(j, h);
    BodyReaches(j, h, h, size, n);
    Advance(j, h, h, size, []);
    MaxOf(h, size);
    MergeStart(j, h, size, outs);
    var o := Body(j, h, size);
    FlattenAppend([], o.records);
    FlattenNone();
    assert [] + [o.records] == [o.records] && [] + o.records == o.records;
    StuckBefore(j, h, size, outs, n, 1, o.end.value, [o.records]);
    var r := MergeRest(j, size, outs, 1, o.end, [o.records]);
    AccountedIs(j, h, r.next.value, Flatten(r.states));
    LaterContent(j, h, r.next.value, n);
    RestYields(j, h, r.next.value);
    MissesSome(j, h, r.next.value, Flatten(r.states));
    FailureIs(j, h, r);
  }

  lemma StartBoundary(j: Job, h: nat)
    requires h <= |j.data|
    ensures Boundary(j, h, h)
  {
  }

  lemma Uncovered(size: nat, outs: seq<ChunkOutput>, n: nat)
    requires !Covered(size, outs, n)
    ensures forall i: nat :: i < |outs| && n < i * size + size ==> outs[i].passes == []
    ensures |outs| >= 1 && outs[0].passes != [] ==> n >= size
  {
    assert !LiveAfter(size, outs, n, 0) && 0 * size + size == size;
    forall i: nat | i < |outs| && n < i * size + size ensures outs[i].passes == [] {
      assert !LiveAfter(size, outs, n, i);
    }
  }

  /** What lies behind an accounted boundary is more than nothing, or a failure. */
  lemma MissesSome(j: Job, h: nat, m: nat, done: seq<Record>)
    requires Accounted(j, h, m, done) && m <= |j.data| && h <= |j.data| && (Rest(j, m).Ok? ==> Rest(j, m).records != [])
    ensures !SameYield(Rest(j, h), Ok(done, None))
  {
    hide Rest, FailAt, EndsHere;
    var o := Rest(j, m);
    if o.Ok? {
      assert |done + o.records| > |done|;
    }
  }

  lemma LaterContent(j: Job, h: nat, m: nat, n: nat)
    requires h <= m <= n && Content(j, h, n)
    ensures Content(j, h, m)
  {
    hide StateAt;
  }

  /**
   * Exactly when an input survives chunking, accepted or not: the parallel run yields what the
   * sequential pass yields, records or failure, iff every record end before the failing byte
   * that has content behind it is covered by a chunk that produced a pass.
   */
  lemma ExactlyWhen(j: Job, h: nat, size: nat, outs: seq<ChunkOutput>)
    requires j.cfg.Valid() && CommentsEnd(j.cfg) && Sound(j, h, size, outs)
    ensures InRange(j, outs) && h <= |j.data|
    ensures SameAnswer(Rest(j, h), Result(MergeRest(j, size, outs, 0, None, []))) <==> LossFree(j, h, size, outs)
  {
    hide *;
    SoundIs(j, h, size, outs);
    MergeSafety(j, h, size, outs);
    var r := MergeRest(j, size, outs, 0, None, []);
    if LossFree(j, h, size, outs) {
      SafeIs(j, h, size, outs, r);
      FailureIs(j, h, r);
      if r.Merged? && !SameYield(Rest(j, h), Ok(Flatten(r.states), None)) {
        StrandedIsBlank(j, h, size, outs, r.next.value, Flatten(r.states));
      }
    } else {
      var n := SomeUncovered(j, h, size, outs);
      UncoveredIsLost(j, h, size, outs, n);
    }
  }

  lemma SafeIs(j: Job, h: nat, size: nat, outs: seq<ChunkOutput>, r: MergeResult)
    requires h <= |j.data| && Safe(j, h, size, outs, r)
    ensures r.MergeFailed? ==> FailsWith(Rest(j, h), r.failure)
    ensures r.Merged? ==> SameYield(Rest(j, h), Ok(Flatten(r.states), None))
                          || (r.next.Some? && Accounted(j, h, r.next.value, Flatten(r.states)) && Stranded(j, h, size, outs, 0, r.next.value))
  {
    hide Rest, Stranded, Accounted, SameYield;
  }

  lemma FailureIs(j: Job, h: nat, r: MergeResult)
    requires h <= |j.data|
    ensures r.MergeFailed? && FailsWith(Rest(j, h), r.failure) ==> SameAnswer(Rest(j, h), Result(r))
    ensures r.Merged? ==> (SameAnswer(Rest(j, h), Result(r)) <==> SameYield(Rest(j, h), Ok(Flatten(r.states), None)))
  {
    hide Rest;
  }

  lemma SomeUncovered(j: Job, h: nat, size: nat, outs: seq<ChunkOutput>) returns (n: nat)
    requires h <= |j.data| && !LossFree(j, h, size, outs)
    ensures h <= n < FailAt(j, h, Fresh(h)) && n < |j.data| && EndsHere(j.cfg, j.data, h, n) && Content(j, h, n) && !Covered(size, outs, n)
  {
    hide FailAt, EndsHere, Content, Covered;
    n :| h <= n < FailAt(j, h, Fresh(h)) && n < |j.data| && EndsHere(j.cfg, j.data, h, n) && Content(j, h, n) && !Covered(size, outs, n);
  }

  /** Every chunk that the true walk ends a record in, past its start, produced a pass. */
  ghost predicate Alive(j: Job, h: nat, size: nat, outs: seq<ChunkOutput>) {
    forall i: nat, n: nat :: 1 <= i < |outs| && h <= i * size && FirstEnd(j.cfg, j.data, h, i * size, n) && n < i * size + size ==> outs[i].passes != []
  }

  lemma {:induction false} FirstEndExists(j: Job, h: nat, lo: nat, n: nat) returns (e: nat)
    requires h <= lo <= n < |j.data| && EndsHere(j.cfg, j.data, h, n)
    ensures lo <= e <= n && FirstEnd(j.cfg, j.data, h, lo, e)
  {
    hide EndsHere;
    e := lo;
    while !EndsHere(j.cfg, j.data, h, e)
      invariant lo <= e <= n && NoEnd(j.cfg, j.data, h, lo, e)
      decreases n - e
    {
      e := e + 1;
    }
  }

  lemma AliveIsLossFree(j: Job, h: nat, size: nat, outs: seq<ChunkOutput>)
    requires Sound(j, h, size, outs) && h <= |j.data| && Alive(j, h, size, outs)
    ensures LossFree(j, h, size, outs)
  {
    hide *;
    SoundIs(j, h, size, outs);
    forall n: nat | h <= n < |j.data| && EndsHere(j.cfg, j.data, h, n)
      ensures Covered(size, outs, n)
    {
      var i := ChunkHolding(j.data, size, |outs|, n);
      if i > 0 {
        assert size <= i * size by { assert 1 * size <= i * size; }
        var e := FirstEndExists(j, h, i * size, n);
        AliveAt(j, h, size, outs, i, e);
      }
      IsCovered(size, outs, n, i);
    }
    IsLossFree(j, h, size, outs);
  }

  lemma AliveAt(j: Job, h: nat, size: nat, outs: seq<ChunkOutput>, i: nat, n: nat)
    requires Alive(j, h, size, outs) && 1 <= i < |outs| && h <= i * size && FirstEnd(j.cfg, j.data, h, i * size, n) && n < i * size + size
    ensures outs[i].passes != []
  {
    hide FirstEnd;
  }

  lemma IsCovered(size: nat, outs: seq<ChunkOutput>, n: nat, i: nat)
    requires i < |outs| && n < i * size + size && outs[i].passes != []
    ensures Covered(size, outs, n)
  {
    assert LiveAfter(size, outs, n, i);
  }

  lemma IsLossFree(j: Job, h: nat, size: nat, outs: seq<ChunkOutput>)
    requires h <= |j.data| && forall n: nat :: h <= n < |j.data| && EndsHere(j.cfg, j.data, h, n) ==> Covered(size, outs, n)
    ensures LossFree(j, h, size, outs)
  {
    hide FailAt, EndsHere, Content, Covered;
  }

  lemma WellQuotedAlive(j: Job, size: nat, hasHeaders: bool, h: nat, outs: seq<ChunkOutput>)
    requires Run(j, size, hasHeaders, h, outs) && h <= |j.data| && WellQuoted(j.cfg, j.data, h) && PlainComments(j.cfg, j.data, h)
    ensures Alive(j, h, size, outs)
  {
    hide Cell, Find, TryRest, EndsHere, StateAt, WellQuoted, PlainComments, HeaderInFirstChunk, FirstEnd;
    forall i: nat, n: nat | 1 <= i < |outs| && h <= i * size && FirstEnd(j.cfg, j.data, h, i * size, n) && n < i * size + size
      ensures outs[i].passes != []
    {
      FirstEndIn(j, h, i * size, n);
      ChunkInRange(j.data, size, |outs|, i);
      WellQuotedLive(j, h, i * size, Min(i * size + size, |j.data|), n);
      assert outs[i] == ChunkResult(j, i * size, Min(i * size + size, |j.data|), FindModeFor(hasHeaders, i));
    }
  }

  lemma FirstEndIn(j: Job, h: nat, lo: nat, n: nat)
    requires h <= lo && FirstEnd(j.cfg, j.data, h, lo, n)
    ensures lo <= n < |j.data|
  {
  }

  /** Parallel equals sequential: same records in the same order, or the same failure. */
  lemma ParallelEqualsSequential(j: Job, size: nat, hasHeaders: bool, h: nat, outs: seq<ChunkOutput>)
    requires Run(j, size, hasHeaders, h, outs)
    requires h <= |j.data| && WellQuoted(j.cfg, j.data, h) && PlainComments(j.cfg, j.data, h)
    ensures InRange(j, outs)
    ensures SameAnswer(Sequential(j, hasHeaders), Result(MergeRest(j, size, outs, 0, None, [])))
  {
    hide *;
    RunIs(j, size, hasHeaders, h, outs);
    WellQuotedAlive(j, size, hasHeaders, h, outs);
    AliveIsLossFree(j, h, size, outs);
    ExactlyWhen(j, h, size, outs);
  }

  lemma RunIs(j: Job, size: nat, hasHeaders: bool, h: nat, outs: seq<ChunkOutput>)
    requires Run(j, size, hasHeaders, h, outs)
    ensures j.cfg.Valid() && CommentsEnd(j.cfg) && Sound(j, h, size, outs) && h <= |j.data|
    ensures AllOutputs(j, size, hasHeaders, |outs|, outs) && Sequential(j, hasHeaders) == Rest(j, h)
  {
    OutputsSound(j, size, hasHeaders, h, outs);
    SoundIs(j, h, size, outs);
    SequentialIsRest(j, size, hasHeaders, h);
    hide Rest, Sequential, Sound, HeaderInFirstChunk, AllOutputs;
  }

  /** The same condition for a run: what decides is whether the searches leave chunks dead. */
  lemma RunExactlyWhen(j: Job, size: nat, hasHeaders: bool, h: nat, outs: seq<ChunkOutput>)
    requires Run(j, size, hasHeaders, h, outs)
    ensures InRange(j, outs) && h <= |j.data|
    ensures SameAnswer(Sequential(j, hasHeaders), Result(MergeRest(j, size, outs, 0, None, []))) <==> LossFree(j, h, size, outs)
    ensures forall i: nat :: 1 <= i < |outs| ==> (outs[i].passes == [] <==> BarrenChunk(j, false, size, i))
  {
    hide *;
    RunIs(j, size, hasHeaders, h, outs);
    ExactlyWhen(j, h, size, outs);
    forall i: nat | 1 <= i < |outs|
      ensures outs[i].passes == [] <==> BarrenChunk(j, false, size, i)
    {
      OutputIs(j, size, hasHeaders, outs, i);
    }
  }

  lemma OutputIs(j: Job, size: nat, hasHeaders: bool, outs: seq<ChunkOutput>, i: nat)
    requires AllOutputs(j, size, hasHeaders, |outs|, outs) && 1 <= i < |outs|
    ensures outs[i].passes == [] <==> BarrenChunk(j, false, size, i)
  {
    hide ChunkResult, Barren;
    ChunkInRange(j.data, size, |outs|, i);
    DeadIff(j, i * size, Min(i * size + size, |j.data|));
  }
}
