/**
 * The run with any chunk parser: passes may fail earlier than the table's and for other reasons,
 * and text is validated, yet the merge accepts what one pass accepts and yields its records.
 */
module AnyRun {
  import opened Dialect
  import opened Dfa
  import opened Records
  import opened Chunk
  import opened Handoff
  import opened Utf8
  import opened FieldText
  import opened Answer
  import opened Scheduler
  import opened Merge
  import opened FailurePoint
  import opened ParallelRun
  import opened Equivalence

  /** What a worker may store for chunk `k`, whichever parser it runs. */
  ghost predicate MayStore(j: Job, text: bool, vectors: bool, size: nat, hasHeaders: bool, k: nat, out: ChunkOutput) {
    k * size <= |j.data| && Produced(j, text, vectors, k * size, Min(k * size + size, |j.data|), FindModeFor(hasHeaders, k), out)
  }

  /** Every chunk's output, whichever parser made it. */
  ghost predicate Produces(j: Job, text: bool, vectors: bool, size: nat, hasHeaders: bool, outs: seq<ChunkOutput>) {
    && Chunked(j.data, size, |outs|)
    && forall k: nat :: k < |outs| ==> MayStore(j, text, vectors, size, hasHeaders, k, outs[k])
  }

  /** One pass over the records from `h` on accepts them. */
  ghost predicate Accepts(j: Job, text: bool, h: nat)
    requires h <= |j.data|
  {
    Records.Rest(j, h).Ok? && (text ==> WellFormed(j.data[h..]))
  }

  /** `o` yields the records from `h` on, or fails behind some of them as they do not deserve acceptance. */
  ghost predicate Answered(j: Job, text: bool, h: nat, o: Outcome)
    requires h <= |j.data|
  {
    && (o.Ok? <==> Accepts(j, text, h))
    && o.records <= Records.Rest(j, h).records && (o.Ok? ==> o.records == Records.Rest(j, h).records)
  }

  /** Both fail, or both yield the same records. */
  predicate Agrees(a: Outcome, b: Outcome) {
    (a.Ok? <==> b.Ok?) && (a.Ok? ==> a.records == b.records)
  }

  lemma AnsweredAgree(j: Job, text: bool, h: nat, a: Outcome, b: Outcome)
    requires h <= |j.data| && Answered(j, text, h, a) && Answered(j, text, h, b)
    ensures Agrees(a, b)
  {
    hide Accepts, Records.Rest;
  }

  /** An uninterrupted pass of any parser answers for the records. */
  lemma OnePassAnswers(j: Job, text: bool, h: nat, o: Outcome)
    requires h <= |j.data| && Fits(j, text, h, |j.data|, o)
    ensures Answered(j, text, h, o) && (o.Err? ==> FailsFairly(j, text, h, o.failure))
  {
    BodyIsScan(j, h, |j.data|);
    hide WellFormed, Stuck, Body, Scan;
    if o.Ok? && text {
      var v: nat :| Vouched(j.data, h, v, |j.data|, o.end);
      assert v == |j.data| && j.data[h..v] == j.data[h..];
    }
  }

  /** Text splits in front of an ASCII byte. */
  lemma {:induction false} SplitsAtAscii(s: seq<byte>, i: nat)
    requires WellFormed(s) && i < |s| && s[i] < 128
    ensures WellFormed(s[..i])
    decreases i
  {
    hide WellFormed, CharLen;
    FirstChar(s);
    if i == 0 {
      EmptyIsText();
      assert s[..0] == [];
    } else {
      var k := CharLen(s);
      assert k <= i;
      SplitsAtAscii(s[k..], i - k);
      Concat(s[..k], s[k..][..i - k]);
      assert s[..i] == s[..k] + s[k..][..i - k];
    }
  }

  lemma Joined(data: seq<byte>, h: nat, n: nat, v: nat)
    requires h <= n <= v <= |data| && WellFormed(data[h..n])
    ensures WellFormed(data[h..v]) <==> WellFormed(data[n..v])
  {
    hide WellFormed;
    Concat(data[h..n], data[n..v]);
    assert data[h..v] == data[h..n] + data[n..v];
  }

  /** The bytes up to `n` are text, if that is asked for. */
  ghost predicate TextUpTo(j: Job, text: bool, h: nat, n: nat) {
    text ==> h <= n <= |j.data| && WellFormed(j.data[h..n])
  }

  /** What one pass from `n` validated: up to the terminator it stopped on, or everything. */
  lemma VouchedUpTo(j: Job, text: bool, h: nat, n: nat, bnd: nat, o: Outcome)
    requires (text ==> j.cfg.AsciiControls()) && h <= n <= |j.data| && TextUpTo(j, text, h, n) && Fits(j, text, n, bnd, o) && o.Ok?
    ensures o.end.Some? && h <= o.end.value < |j.data| && n <= o.end.value && j.cfg.IsTerm(j.data[o.end.value]) ==> TextUpTo(j, text, h, o.end.value)
    ensures !(o.end.Some? && bnd <= o.end.value < |j.data|) ==> TextUpTo(j, text, h, |j.data|)
  {
    hide WellFormed, Body, Records.Rest;
    if text {
      var v: nat :| Vouched(j.data, n, v, bnd, o.end);
      Joined(j.data, h, n, v);
      if o.end.Some? && n <= o.end.value < |j.data| && j.cfg.IsTerm(j.data[o.end.value]) {
        var s := j.data[h..v];
        var e := o.end.value;
        if e < v {
          assert s[e - h] == j.data[e];
          SplitsAtAscii(s, e - h);
          assert s[..e - h] == j.data[h..e];
        }
      }
    }
  }

  /** What the table would have made of a chunk from where the first pass starts. */
  function TablePass(j: Job, bnd: nat, out: ChunkOutput): ChunkOutput
    requires out.passes != [] ==> out.passes[0].recordStart <= |j.data|
  {
    if out.passes == [] then ChunkOutput([], None)
    else
      var s := out.passes[0].recordStart;
      var o := Body(j, s, bnd);
      ChunkOutput([Pass(s, o)], if o.Ok? then o.end else None)
  }

  /** The table's outputs behind any parser's. */
  ghost predicate Shadows(outs: seq<ChunkOutput>, tab: seq<ChunkOutput>) {
    && |tab| == |outs|
    && forall k: nat :: k < |outs| ==>
         && (outs[k].passes == [] <==> tab[k].passes == [])
         && (outs[k].passes != [] ==> tab[k].passes != [] && tab[k].passes[0].recordStart == outs[k].passes[0].recordStart)
  }

  lemma PassStarts(j: Job, text: bool, vectors: bool, size: nat, hasHeaders: bool, outs: seq<ChunkOutput>, k: nat)
    requires Produces(j, text, vectors, size, hasHeaders, outs) && k < |outs| && outs[k].passes != []
    ensures outs[k].passes[0].recordStart <= |j.data|
  {
    hide Body, Records.Rest, WellFormed, Vouched, Locate;
    assert outs[k].passes[0] in outs[k].passes;
  }

  lemma TableConsistent(j: Job, bnd: nat, out: ChunkOutput)
    requires out.passes != [] ==> out.passes[0].recordStart <= |j.data|
    ensures Consistent(j, bnd, TablePass(j, bnd, out))
    ensures var e := TablePass(j, bnd, out).recordEnd; e.Some? ==> e.value <= |j.data|
  {
    if out.passes != [] {
      BodyIsScan(j, out.passes[0].recordStart, bnd);
      EndInRange(j, out.passes[0].recordStart, bnd, Fresh(out.passes[0].recordStart), None);
    }
    hide Body, Scan;
  }

  /** Chunk 0's first pass starts at the records' start. */
  lemma FirstStart(j: Job, text: bool, vectors: bool, size: nat, hasHeaders: bool, h: nat, outs: seq<ChunkOutput>)
    requires Produces(j, text, vectors, size, hasHeaders, outs) && |outs| >= 1 && HeaderInFirstChunk(j, size, hasHeaders, h)
    ensures outs[0].passes != [] && outs[0].passes[0].recordStart == h
  {
    hide Fits, Find;
    assert 0 * size == 0;
  }

  lemma TableRun(j: Job, text: bool, vectors: bool, size: nat, hasHeaders: bool, h: nat, outs: seq<ChunkOutput>) returns (tab: seq<ChunkOutput>)
    requires j.cfg.comment.None?
    requires Produces(j, text, vectors, size, hasHeaders, outs) && |outs| >= 1 && HeaderInFirstChunk(j, size, hasHeaders, h)
    ensures Shadows(outs, tab) && Sound(j, h, size, tab)
  {
    hide Body, Consistent, Produced, HeaderInFirstChunk, TablePass, Anchored;
    FirstStart(j, text, vectors, size, hasHeaders, h, outs);
    StartInRange(j, size, hasHeaders, h);
    forall k: nat | k < |outs| && outs[k].passes != [] ensures outs[k].passes[0].recordStart <= |j.data| {
      PassStarts(j, text, vectors, size, hasHeaders, outs, k);
    }
    tab := seq(|outs|, k requires 0 <= k < |outs| => TablePass(j, Min(k * size + size, |j.data|), outs[k]));
    forall k: nat | k < |outs|
      ensures Consistent(j, Min(k * size + size, |j.data|), tab[k])
      ensures tab[k].recordEnd.Some? ==> tab[k].recordEnd.value <= |j.data|
      ensures outs[k].passes == [] <==> tab[k].passes == []
      ensures outs[k].passes != [] ==> tab[k].passes[0].recordStart == outs[k].passes[0].recordStart
    {
      TableConsistent(j, Min(k * size + size, |j.data|), outs[k]);
      TablePassIs(j, Min(k * size + size, |j.data|), outs[k]);
    }
    assert 0 * size + size == size;
  }

  lemma TablePassIs(j: Job, bnd: nat, out: ChunkOutput)
    requires out.passes != [] ==> out.passes[0].recordStart <= |j.data|
    ensures var t := TablePass(j, bnd, out);
            && (out.passes == [] <==> t.passes == [])
            && (out.passes != [] ==> t.passes[0].recordStart == out.passes[0].recordStart)
  {
    hide Body;
  }

  /** Coverage looks at no more than which chunks produced a pass. */
  lemma SameCoverage(j: Job, h: nat, size: nat, outs: seq<ChunkOutput>, tab: seq<ChunkOutput>)
    requires h <= |j.data| && Shadows(outs, tab)
    ensures LossFree(j, h, size, outs) <==> LossFree(j, h, size, tab)
  {
    hide FailAt, EndsHere, Content;
    forall n: nat ensures Covered(size, outs, n) <==> Covered(size, tab, n) {
      if i: nat :| LiveAfter(size, outs, n, i) {
        assert LiveAfter(size, tab, n, i);
      }
      if i: nat :| LiveAfter(size, tab, n, i) {
        assert LiveAfter(size, outs, n, i);
      }
    }
    hide Covered;
  }

  /** Starting at the expected boundary is what the merge does with chunk 0 anyway. */
  lemma MergeFrom(j: Job, text: bool, h: nat, size: nat, outs: seq<ChunkOutput>, r: MergeResult)
    requires |outs| >= 1 && outs[0].passes != [] && outs[0].passes[0].recordStart == h && h <= size
    ensures Merges(j, text, size, outs, 0, None, [], r) <==> Merges(j, text, size, outs, 0, Some(h), [], r)
  {
    hide Reparsed;
    assert 0 * size + size == size;
    assert Select(outs[0].passes, None) == Select(outs[0].passes, Some(h)) == Some(outs[0].passes[0]);
  }

  /** What the merge does with chunk `k`, if it does not skip it: go on from a fitting outcome, or fail with it. */
  lemma MergesStep(j: Job, text: bool, vectors: bool, size: nat, hasHeaders: bool, outs: seq<ChunkOutput>, k: nat, n: nat, states: seq<seq<Record>>, r: MergeResult)
    returns (o: Outcome)
    requires Produces(j, text, vectors, size, hasHeaders, outs) && k < |outs| && n <= |j.data|
    requires Merges(j, text, size, outs, k, Some(n), states, r)
    requires n <= k * size + size && outs[k].passes != []
    ensures Fits(j, text, n, Min(k * size + size, |j.data|), o)
    ensures if o.Ok? then Merges(j, text, size, outs, k + 1, o.end, states + [o.records], r) else r == MergeFailed(o.failure)
  {
    var s := Select(outs[k].passes, Some(n));
    Selected(outs[k].passes, n);
    ProducedPasses(j, text, vectors, size, hasHeaders, outs, k);
    hide Fits, Produced;
    if s.Some? {
      o := s.value.outcome;
    } else {
      o :| Reparsed(j, text, Some(n), k * size + size, o)
            && if o.Ok? then Merges(j, text, size, outs, k + 1, o.end, states + [o.records], r) else r == MergeFailed(o.failure);
    }
  }

  lemma {:induction false} Selected(passes: seq<Pass>, n: nat)
    ensures var s := Select(passes, Some(n)); s.Some? ==> s.value in passes && s.value.recordStart == n
    decreases |passes|
  {
    if passes != [] {
      Selected(passes[1..], n);
    }
  }

  lemma ProducedPasses(j: Job, text: bool, vectors: bool, size: nat, hasHeaders: bool, outs: seq<ChunkOutput>, k: nat)
    requires Produces(j, text, vectors, size, hasHeaders, outs) && k < |outs|
    ensures forall p :: p in outs[k].passes ==> Fits(j, text, p.recordStart, Min(k * size + size, |j.data|), p.outcome)
    ensures forall p :: p in outs[k].passes && p.outcome.Ok? ==> outs[k].recordEnd == p.outcome.end
  {
    hide Fits, Locate;
    forall p | p in outs[k].passes && p.outcome.Ok? ensures outs[k].recordEnd == p.outcome.end {
      var i :| 0 <= i < |outs[k].passes| && outs[k].passes[i] == p;
    }
  }

  /** A fitting outcome from an accounted boundary advances it as the table does. */
  lemma Continue(j: Job, text: bool, h: nat, n: nat, b: nat, done: seq<Record>, o: Outcome)
    requires j.cfg.Valid() && j.cfg.comment.None? && (text ==> j.cfg.AsciiControls())
    requires Accounted(j, h, n, done) && TextUpTo(j, text, h, n) && b <= |j.data| && (n <= b || n < |j.data|)
    requires Fits(j, text, n, b, o) && o.Ok?
    ensures o == Body(j, n, b)
    ensures b < |j.data| ==> o.end.Some? && Accounted(j, h, o.end.value, done + o.records) && TextUpTo(j, text, h, o.end.value)
    ensures b == |j.data| ==> TextUpTo(j, text, h, |j.data|) && SameYield(Records.Rest(j, h), Ok(done + o.records, None))
  {
    hide *;
    AccountedIs(j, h, n, done);
    FitIs(j, text, n, b, o);
    BoundaryStep(j, h, n, b);
    NoComments(j.cfg);
    Advance(j, h, n, b, done);
    MaxIs(n, b);
    VouchedUpTo(j, text, h, n, b, o);
    if o.end.Some? && Max(n, b) <= o.end.value < |j.data| {
      EndIsTerm(j, h, Max(n, b), o.end.value);
    } else if b < |j.data| {
      AtInputEnd(j, h, done + o.records);
    }
  }

  lemma FitIs(j: Job, text: bool, n: nat, b: nat, o: Outcome)
    requires Fits(j, text, n, b, o)
    ensures o.Ok? ==> o == Body(j, n, b)
    ensures n <= |j.data| && (o.Err? ==> Records.Rest(j, n).Err? || (text && !WellFormed(j.data[n..])))
    ensures o.Err? && o.failure.IllFormed? ==> text && Stuck(j.data, n, o.failure.at)
  {
    hide Body, Records.Rest, WellFormed, Vouched, Stuck;
  }

  lemma MaxIs(n: nat, b: nat)
    ensures n <= Max(n, b) && b <= Max(n, b)
  {
  }

  lemma EndIsTerm(j: Job, h: nat, lo: nat, e: nat)
    requires h <= lo && FirstEnd(j.cfg, j.data, h, lo, e)
    ensures e < |j.data| && j.cfg.IsTerm(j.data[e])
  {
  }

  /** A pass from an accounted boundary fails only on records that one pass does not accept. */
  lemma FailsRightly(j: Job, text: bool, h: nat, n: nat, b: nat, done: seq<Record>, o: Outcome)
    requires Accounted(j, h, n, done) && TextUpTo(j, text, h, n) && Fits(j, text, n, b, o) && o.Err?
    ensures h <= |j.data| && FailsFairly(j, text, h, o.failure)
  {
    FitIs(j, text, n, b, o);
    hide Fits, Records.Rest, WellFormed, FailAt, EndsHere, Stuck;
    if text {
      if o.failure.IllFormed? {
        StuckBehind(j.data, h, n, o.failure.at);
      }
      Joined(j.data, h, n, |j.data|);
      assert j.data[h..] == j.data[h..|j.data|] && j.data[n..] == j.data[n..|j.data|];
    }
  }

  /** One pass does not accept the records, and ill-formed text is reported at the first byte that begins no character. */
  ghost predicate FailsFairly(j: Job, text: bool, h: nat, x: Failure)
    requires h <= |j.data|
  {
    !Accepts(j, text, h) && (x.IllFormed? ==> text && Stuck(j.data, h, x.at))
  }

  /** How far a merge got: to the end, or to a boundary that accounts for what it merged; either way it merged what one pass hands out first. */
  ghost predicate Reaches(j: Job, text: bool, h: nat, r: MergeResult) {
    r.Merged? ==>
      || (h <= |j.data| && TextUpTo(j, text, h, |j.data|) && SameYield(Records.Rest(j, h), Ok(Flatten(r.states), None)))
      || (r.next.Some? && Accounted(j, h, r.next.value, Flatten(r.states)) && TextUpTo(j, text, h, r.next.value))
  }

  /** A merge of any parser's outputs is the table's merge, or fails rightly. */
  ghost predicate Follows(j: Job, text: bool, h: nat, r: MergeResult, w: MergeResult)
    requires h <= |j.data|
  {
    && (r.Merged? ==> r == w && Reaches(j, text, h, r))
    && (r.MergeFailed? ==> FailsFairly(j, text, h, r.failure))
  }

  lemma FollowsTo(j: Job, text: bool, h: nat, r: MergeResult, n: nat)
    requires h <= |j.data| && r.Merged? && (r.next == Some(n) && Accounted(j, h, n, Flatten(r.states)) && TextUpTo(j, text, h, n))
    ensures Follows(j, text, h, r, r)
  {
    hide Accounted, TextUpTo;
  }

  lemma FollowsToEnd(j: Job, text: bool, h: nat, r: MergeResult)
    requires h <= |j.data| && r.Merged? && TextUpTo(j, text, h, |j.data|) && SameYield(Records.Rest(j, h), Ok(Flatten(r.states), None))
    ensures Follows(j, text, h, r, r)
  {
    hide TextUpTo, SameYield, Records.Rest;
  }

  lemma MergedFirst(j: Job, text: bool, h: nat, r: MergeResult, w: MergeResult)
    requires h <= |j.data| && Follows(j, text, h, r, w) && r.Merged?
    ensures Flatten(r.states) <= Records.Rest(j, h).records
  {
    hide Records.Rest, FailAt, EndsHere, TextUpTo, Flatten;
  }

  lemma FailureFollows(j: Job, text: bool, h: nat, x: Failure, w: MergeResult)
    requires h <= |j.data| && FailsFairly(j, text, h, x)
    ensures Follows(j, text, h, MergeFailed(x), w)
  {
    hide FailsFairly;
  }

  /** The merges keep step, chunk by chunk. */
  lemma {:induction false} Lockstep(j: Job, text: bool, vectors: bool, h: nat, size: nat, hasHeaders: bool, outs: seq<ChunkOutput>, tab: seq<ChunkOutput>,
                                    k: nat, n: nat, states: seq<seq<Record>>, r: MergeResult)
    requires j.cfg.Valid() && j.cfg.comment.None? && (text ==> j.cfg.AsciiControls())
    requires Produces(j, text, vectors, size, hasHeaders, outs) && Shadows(outs, tab) && Sound(j, h, size, tab) && InRange(j, tab)
    requires k <= |outs| == |tab| && Accounted(j, h, n, Flatten(states)) && TextUpTo(j, text, h, n)
    requires Merges(j, text, size, outs, k, Some(n), states, r)
    ensures n <= |j.data| && h <= |j.data| && Follows(j, text, h, r, MergeRest(j, size, tab, k, Some(n), states))
    decreases |outs| - k
  {
    hide *;
    AccountedIs(j, h, n, Flatten(states));
    SoundIs(j, h, size, tab);
    if k == |outs| {
      MergesEnd(j, text, size, outs, Some(n), states, r);
      SkipStep(j, size, tab, k, n, states);
      FollowsTo(j, text, h, r, n);
    } else if n > k * size + size || outs[k].passes == [] {
      ShadowIs(outs, tab, k);
      MergesSkip(j, text, size, outs, k, n, states, r);
      Lockstep(j, text, vectors, h, size, hasHeaders, outs, tab, k + 1, n, states, r);
      SkipStep(j, size, tab, k, n, states);
    } else {
      ShadowIs(outs, tab, k);
      ChunkInRange(j.data, size, |outs|, k);
      var b := Min(k * size + size, |j.data|);
      MinIs(k * size + size, |j.data|);
      var o := MergesStep(j, text, vectors, size, hasHeaders, outs, k, n, states, r);
      if o.Err? {
        FailsRightly(j, text, h, n, b, Flatten(states), o);
        FailureFollows(j, text, h, o.failure, MergeRest(j, size, tab, k, Some(n), states));
      } else {
        Continue(j, text, h, n, b, Flatten(states), o);
        MergeStep(j, size, tab, k, n, states);
        FlattenAppend(states, o.records);
        if k + 1 == |outs| {
          MergesEnd(j, text, size, outs, o.end, states + [o.records], r);
          MergedAll(j, size, tab, o.end, states + [o.records]);
          FollowsToEnd(j, text, h, r);
        } else {
          Lockstep(j, text, vectors, h, size, hasHeaders, outs, tab, k + 1, o.end.value, states + [o.records], r);
        }
      }
    }
  }

  lemma MinIs(a: nat, b: nat)
    ensures Min(a, b) <= a && Min(a, b) <= b && (Min(a, b) == a || Min(a, b) == b)
  {
  }

  lemma ShadowIs(outs: seq<ChunkOutput>, tab: seq<ChunkOutput>, k: nat)
    requires Shadows(outs, tab) && k < |outs|
    ensures |tab| == |outs| && (outs[k].passes == [] <==> tab[k].passes == [])
  {
  }

  lemma MergesEnd(j: Job, text: bool, size: nat, outs: seq<ChunkOutput>, next: Option<nat>, states: seq<seq<Record>>, r: MergeResult)
    requires Merges(j, text, size, outs, |outs|, next, states, r)
    ensures r == Merged(states, next)
  {
  }

  lemma MergedAll(j: Job, size: nat, tab: seq<ChunkOutput>, next: Option<nat>, states: seq<seq<Record>>)
    requires InRange(j, tab) && (next.Some? ==> next.value <= |j.data|)
    ensures MergeRest(j, size, tab, |tab|, next, states) == Merged(states, next)
  {
  }

  lemma MergesSkip(j: Job, text: bool, size: nat, outs: seq<ChunkOutput>, k: nat, n: nat, states: seq<seq<Record>>, r: MergeResult)
    requires k < |outs| && Merges(j, text, size, outs, k, Some(n), states, r) && (n > k * size + size || outs[k].passes == [])
    ensures Merges(j, text, size, outs, k + 1, Some(n), states, r)
  {
    hide Reparsed;
  }

  /** Behind a boundary that accounts for everything there is nothing but blank lines. */
  lemma TextToTheEnd(j: Job, text: bool, h: nat, r: MergeResult)
    requires j.cfg.Valid() && j.cfg.comment.None? && (text ==> j.cfg.AsciiControls()) && h <= |j.data|
    requires r.Merged? && Reaches(j, text, h, r) && SameYield(Records.Rest(j, h), Ok(Flatten(r.states), None))
    ensures Accepts(j, text, h)
  {
    if text && !TextUpTo(j, text, h, |j.data|) {
      var n := r.next.value;
      assert Accounted(j, h, n, Flatten(r.states)) by { hide Accounted, TextUpTo; }
      NothingBehind(j, h, n, Flatten(r.states));
      hide Records.Rest, FailAt, EndsHere, WellFormed;
      forall i | n <= i < |j.data| ensures j.cfg.IsTerm(j.data[i]) {
      }
      TermsAreText(j.cfg, j.data[n..]);
      assert j.data[n..] == j.data[n..|j.data|];
      Joined(j.data, h, n, |j.data|);
    }
    hide Records.Rest, WellFormed;
    assert j.data[h..] == j.data[h..|j.data|];
  }

  lemma NothingBehind(j: Job, h: nat, n: nat, done: seq<Record>)
    requires j.cfg.Valid() && j.cfg.comment.None? && Accounted(j, h, n, done) && h <= |j.data|
    requires SameYield(Records.Rest(j, h), Ok(done, None))
    ensures n <= |j.data| && !Content(j, h, n)
  {
    AccountedIs(j, h, n, done);
    if Content(j, h, n) {
      RestYields(j, h, n);
      MissesSome(j, h, n, done);
    }
  }

  /** The table's merge that any parser's merge keeps step with. */
  lemma TableFollowed(j: Job, text: bool, vectors: bool, size: nat, hasHeaders: bool, h: nat, outs: seq<ChunkOutput>, r: MergeResult) returns (tab: seq<ChunkOutput>)
    requires j.cfg.Valid() && j.cfg.comment.None? && (text ==> j.cfg.AsciiControls())
    requires Produces(j, text, vectors, size, hasHeaders, outs) && |outs| >= 1 && HeaderInFirstChunk(j, size, hasHeaders, h)
    requires Merges(j, text, size, outs, 0, None, [], r)
    ensures h <= |j.data| && Sound(j, h, size, tab) && InRange(j, tab) && Shadows(outs, tab)
    ensures Follows(j, text, h, r, MergeRest(j, size, tab, 0, None, []))
  {
    hide *;
    tab := TableRun(j, text, vectors, size, hasHeaders, h, outs);
    SoundIs(j, h, size, tab);
    FirstStart(j, text, vectors, size, hasHeaders, h, outs);
    ShadowIs(outs, tab, 0);
    MergeFrom(j, text, h, size, outs, r);
    TableMergeFrom(j, h, size, tab);
    StartAccounted(j, h);
    FlattenNone();
    TextAtStart(j, text, h);
    Lockstep(j, text, vectors, h, size, hasHeaders, outs, tab, 0, h, [], r);
  }

  /**
   * Merge safety with any parser, whatever the quoting: the merge fails only on records that one
   * pass does not accept, ill-formed text being reported where it is, and what it yields is what
   * one pass hands out first.
   */
  lemma AnyMergeSafety(j: Job, text: bool, vectors: bool, size: nat, hasHeaders: bool, h: nat, outs: seq<ChunkOutput>, r: MergeResult)
    requires j.cfg.Valid() && j.cfg.comment.None? && (text ==> j.cfg.AsciiControls())
    requires Produces(j, text, vectors, size, hasHeaders, outs) && |outs| >= 1 && HeaderInFirstChunk(j, size, hasHeaders, h)
    requires Merges(j, text, size, outs, 0, None, [], r)
    ensures h <= |j.data|
    ensures if r.Merged? then Flatten(r.states) <= Records.Rest(j, h).records else FailsFairly(j, text, h, r.failure)
  {
    hide *;
    var tab := TableFollowed(j, text, vectors, size, hasHeaders, h, outs, r);
    var w := MergeRest(j, size, tab, 0, None, []);
    if r.Merged? {
      MergedFirst(j, text, h, r, w);
    } else {
      FailedRightly(j, text, h, r, w);
    }
  }

  lemma FailedRightly(j: Job, text: bool, h: nat, r: MergeResult, w: MergeResult)
    requires h <= |j.data| && Follows(j, text, h, r, w) && r.MergeFailed?
    ensures FailsFairly(j, text, h, r.failure)
  {
    hide FailsFairly, Reaches;
  }

  /**
   * Exactly when any parser's run survives chunking, for all inputs: its merge answers for the
   * records, with text validated, iff it fails or every record end before the failing byte that
   * has content behind it is covered by a chunk that produced a pass; and which chunks produce
   * one the parser's searches alone decide.
   */
  lemma AnsweredExactlyWhen(j: Job, text: bool, vectors: bool, size: nat, hasHeaders: bool, h: nat, outs: seq<ChunkOutput>, r: MergeResult)
    requires j.cfg.Valid() && j.cfg.comment.None? && (text ==> j.cfg.AsciiControls())
    requires Produces(j, text, vectors, size, hasHeaders, outs) && |outs| >= 1 && HeaderInFirstChunk(j, size, hasHeaders, h)
    requires Merges(j, text, size, outs, 0, None, [], r)
    ensures h <= |j.data|
    ensures Answered(j, text, h, Result(r)) <==> r.MergeFailed? || LossFree(j, h, size, outs)
    ensures forall i: nat :: 1 <= i < |outs| ==> (outs[i].passes == [] <==> BarrenChunk(j, vectors, size, i))
  {
    hide *;
    var tab := TableFollowed(j, text, vectors, size, hasHeaders, h, outs, r);
    NoComments(j.cfg);
    ExactlyWhen(j, h, size, tab);
    SameCoverage(j, h, size, outs, tab);
    FollowsIs(j, text, h, r, MergeRest(j, size, tab, 0, None, []));
    forall i: nat | 1 <= i < |outs| ensures outs[i].passes == [] <==> BarrenChunk(j, vectors, size, i) {
      StoredBarren(j, text, vectors, size, hasHeaders, outs, i);
    }
  }

  lemma StoredBarren(j: Job, text: bool, vectors: bool, size: nat, hasHeaders: bool, outs: seq<ChunkOutput>, i: nat)
    requires Produces(j, text, vectors, size, hasHeaders, outs) && 1 <= i < |outs|
    ensures outs[i].passes == [] <==> BarrenChunk(j, vectors, size, i)
  {
    hide Barren, Fits, Locate;
    assert MayStore(j, text, vectors, size, hasHeaders, i, outs[i]);
  }

  lemma TableMergeFrom(j: Job, h: nat, size: nat, tab: seq<ChunkOutput>)
    requires Sound(j, h, size, tab) && InRange(j, tab) && h <= |j.data|
    ensures MergeRest(j, size, tab, 0, None, []) == MergeRest(j, size, tab, 0, Some(h), [])
  {
    hide Consistent, InRange, Reparse, Chunked;
    assert 0 * size + size == size;
    assert Select(tab[0].passes, None) == Select(tab[0].passes, Some(h)) == Some(tab[0].passes[0]);
  }

  lemma TextAtStart(j: Job, text: bool, h: nat)
    requires h <= |j.data|
    ensures TextUpTo(j, text, h, h)
  {
    assert j.data[h..h] == [];
  }

  lemma FollowsIs(j: Job, text: bool, h: nat, r: MergeResult, w: MergeResult)
    requires j.cfg.Valid() && j.cfg.comment.None? && (text ==> j.cfg.AsciiControls()) && h <= |j.data|
    requires Follows(j, text, h, r, w)
    ensures Answered(j, text, h, Result(r)) <==> r.MergeFailed? || SameAnswer(Records.Rest(j, h), Result(w))
  {
    hide Records.Rest, WellFormed, Reaches;
    if r.Merged? && SameAnswer(Records.Rest(j, h), Result(w)) {
      TextToTheEnd(j, text, h, r);
    }
  }

  /** On well-quoted input the run answers for the records, whichever parser made the passes. */
  lemma WellQuotedAnswered(j: Job, text: bool, vectors: bool, size: nat, hasHeaders: bool, h: nat, outs: seq<ChunkOutput>, r: MergeResult)
    requires j.cfg.Valid() && j.cfg.comment.None? && (text ==> j.cfg.AsciiControls())
    requires Produces(j, text, vectors, size, hasHeaders, outs) && |outs| >= 1 && HeaderInFirstChunk(j, size, hasHeaders, h)
    requires Merges(j, text, size, outs, 0, None, [], r)
    requires h <= |j.data| && WellQuoted(j.cfg, j.data, h)
    ensures Answered(j, text, h, Result(r))
  {
    hide *;
    var tab := TableRun(j, text, vectors, size, hasHeaders, h, outs);
    WellQuotedCovers(j, text, vectors, size, hasHeaders, h, outs, tab);
    AliveIsLossFree(j, h, size, tab);
    SameCoverage(j, h, size, outs, tab);
    AnsweredExactlyWhen(j, text, vectors, size, hasHeaders, h, outs, r);
  }

  lemma WellQuotedCovers(j: Job, text: bool, vectors: bool, size: nat, hasHeaders: bool, h: nat, outs: seq<ChunkOutput>, tab: seq<ChunkOutput>)
    requires j.cfg.Valid() && j.cfg.comment.None?
    requires Produces(j, text, vectors, size, hasHeaders, outs) && Shadows(outs, tab)
    requires h <= |j.data| && WellQuoted(j.cfg, j.data, h)
    ensures Alive(j, h, size, tab)
  {
    hide Cell, Find, EndsHere, StateAt, WellQuoted, FirstEnd, Fits;
    forall i: nat, n: nat | 1 <= i < |tab| && h <= i * size && FirstEnd(j.cfg, j.data, h, i * size, n) && n < i * size + size
      ensures tab[i].passes != []
    {
      FirstEndIn(j, h, i * size, n);
      var b := Min(i * size + size, |j.data|);
      TrueAssumptionFinds(j.cfg, j.data, h, i * size, b, n);
      assert Locate(j, i * size, b, Abstract(StateAt(j.cfg, j.data, h, i * size)), FindStrict) == At(n);
      assert Produced(j, text, vectors, i * size, b, FindStrict, outs[i]);
    }
  }
}
