/**
 * What comment lines do to the parallel run: a quote in a comment can hide the records behind it,
 * and where a comment may go on behind a terminator its text can be handed out as records.
 */
module Comments {
  import opened Dialect
  import opened Dfa
  import opened Records
  import opened Chunk
  import opened Scheduler
  import opened Merge
  import opened ParallelRun
  import opened FailurePoint
  import opened Equivalence
  import opened Handoff
  import opened Parsers
  import LossExample

  /** A run's merge never yields more than one pass hands out first. */
  ghost predicate AlwaysSafe(c: Config) {
    forall j: Job, size: nat, hasHeaders: bool, h: nat, outs: seq<ChunkOutput> ::
      j.cfg == c && AllOutputs(j, size, hasHeaders, |outs|, outs) && |outs| >= 1 && HeaderInFirstChunk(j, size, hasHeaders, h) && InRange(j, outs)
      ==> OnlyRecords(j, h, MergeRest(j, size, outs, 0, None, []))
  }

  predicate OnlyRecords(j: Job, h: nat, r: MergeResult) {
    h <= |j.data| && (r.Merged? ==> Flatten(r.states) <= Rest(j, h).records)
  }

  /** A byte with no part in the dialect, nor in ending comments. */
  predicate Letter(c: Config, v: byte) {
    v != c.delimiter && !c.IsTerm(v) && !c.IsQuote(v) && c.escape != Some(v) && c.comment != Some(v) && v != LF
  }

  lemma SomeLetter(c: Config) returns (v: byte)
    requires c.terminator.SingleByte?
    ensures Letter(c, v)
  {
    v := if Letter(c, 97) then 97 else if Letter(c, 98) then 98 else if Letter(c, 99) then 99
    else if Letter(c, 100) then 100 else if Letter(c, 101) then 101 else 102;
  }

  /** Three chunks: a record, and then a comment that looks like records to a search. */
  function Commented(c: Config, v: byte): seq<byte>
    requires c.terminator.SingleByte? && c.comment.Some?
  {
    var t := c.terminator.value;
    [v, t, c.comment.value, v, t, v, t, v]
  }

  function CommentedJob(c: Config, v: byte): Job
    requires c.terminator.SingleByte? && c.comment.Some?
  {
    Job(c, Commented(c, v), (r: Record) => true)
  }

  /** The job's dialect lets a comment go on behind a terminator. */
  ghost predicate Runs(j: Job, v: byte) {
    && j.cfg.Valid() && j.cfg.fieldCount.None? && j.cfg.terminator.SingleByte? && j.cfg.comment.Some? && j.cfg.terminator.value != LF
    && Letter(j.cfg, v) && j.data == Commented(j.cfg, v) && forall r :: j.accept(r)
  }

  lemma ReadLetter(j: Job, v: byte, f: Flight, pos: nat)
    requires Runs(j, v) && pos < 8 && j.data[pos] == v
    ensures f.state.RecordStart? && f.fields == [] && f.cur == [] ==> Step(j, f, pos) == Go(Flight(InField, [], [v], pos, pos))
    ensures f.state.InComment? ==> Step(j, f, pos) == Go(f)
  {
    assert [] + [v] == [v];
  }

  lemma ReadTerminator(j: Job, v: byte, f: Flight, pos: nat)
    requires Runs(j, v) && pos < 8 && j.data[pos] == j.cfg.terminator.value
    ensures f.state.RecordStart? ==> Step(j, f, pos) == Blank
    ensures f.state.InField? && f.fields == [] ==> Step(j, f, pos) == Close([f.cur])
    ensures f.state.InComment? ==> Step(j, f, pos) == Go(f)
  {
    assert [] + [f.cur] == [f.cur];
  }

  lemma ReadComment(j: Job, v: byte, f: Flight)
    requires Runs(j, v) && f.state.RecordStart? && f.fields == [] && f.cur == []
    ensures Step(j, f, 2) == Go(Flight(InComment, [], [], 2, 2))
  {
  }

  lemma AtEnd(j: Job, v: byte, f: Flight, last: Option<nat>)
    requires Runs(j, v)
    ensures f.state.InComment? ==> Finish(j, f, last) == Ok([], last)
    ensures f.state.InField? && f.fields == [] ==> Finish(j, f, last) == Ok([[f.cur]], Some(8))
  {
    assert [] + [f.cur] == [f.cur];
  }

  lemma {:induction false} ScanComment(j: Job, v: byte, pos: nat, bnd: nat, last: Option<nat>)
    requires Runs(j, v) && 3 <= pos <= 8
    ensures Scan(j, pos, bnd, Flight(InComment, [], [], 2, 2), last) == Ok([], last)
    decreases 8 - pos
  {
    hide Step, Finish;
    var f := Flight(InComment, [], [], 2, 2);
    if pos < 8 {
      if j.data[pos] == v { ReadLetter(j, v, f, pos); } else { ReadTerminator(j, v, f, pos); }
      ScanComment(j, v, pos + 1, bnd, last);
    } else {
      AtEnd(j, v, f, last);
    }
  }

  /** One pass reads the record in front of the comment. */
  lemma ReadsOne(j: Job, v: byte, bnd: nat)
    requires Runs(j, v) && 2 <= bnd
    ensures Scan(j, 0, bnd, Fresh(0), None) == Ok([[[v]]], Some(1))
    ensures Scan(j, 1, bnd, Fresh(1), None) == Ok([], None)
  {
    hide Step, Finish;
    ReadLetter(j, v, Fresh(0), 0);
    ReadTerminator(j, v, Flight(InField, [], [v], 0, 0), 1);
    ReadTerminator(j, v, Fresh(1), 1);
    ReadComment(j, v, Fresh(2));
    ReadComment(j, v, Fresh(1));
    ScanComment(j, v, 3, bnd, Some(1));
    ScanComment(j, v, 3, bnd, None);
    assert Scan(j, 2, bnd, Fresh(2), Some(1)) == Ok([], Some(1));
    assert Scan(j, 2, bnd, Fresh(1), None) == Ok([], None);
    assert Scan(j, 1, bnd, Flight(InField, [], [v], 0, 0), None) == Prepend([[[v]]], Ok([], Some(1)));
  }

  /** The passes of chunks 1 and 2 read the comment's text. */
  lemma ReadsText(j: Job, v: byte)
    requires Runs(j, v)
    ensures Scan(j, 4, 6, Fresh(4), None) == Ok([[[v]]], Some(6))
    ensures Scan(j, 6, 8, Fresh(6), None) == Ok([[[v]]], Some(8))
  {
    hide Step, Finish;
    ReadTerminator(j, v, Fresh(4), 4);
    ReadLetter(j, v, Fresh(4), 5);
    ReadTerminator(j, v, Flight(InField, [], [v], 5, 5), 6);
    ReadTerminator(j, v, Fresh(6), 6);
    ReadLetter(j, v, Fresh(6), 7);
    AtEnd(j, v, Flight(InField, [], [v], 7, 7), None);
    assert Scan(j, 6, 6, Flight(InField, [], [v], 5, 5), None) == Ok([[[v]]], Some(6));
    assert Scan(j, 8, 8, Flight(InField, [], [v], 7, 7), None) == Ok([[[v]]], Some(8));
  }

  lemma FindsText(j: Job, v: byte)
    requires Runs(j, v)
    ensures Locate(j, 3, 6, AssumeOut, FindStrict) == At(4) && Locate(j, 6, 8, AssumeOut, FindStrict) == At(6)
  {
    var c := j.cfg.With(Toggle);
    assert Cell(c, FieldStart, v) == Keep(InField) && Cell(c, InField, j.data[4]) == Goto(RecordEnd) && Cell(c, FieldStart, j.data[6]) == Goto(RecordEnd);
    assert Find(c, j.data, 4, 6, InField, true) == At(4);
    assert Find(c, j.data, 3, 6, FieldStart, true) == At(4);
    assert Find(c, j.data, 6, 8, FieldStart, true) == At(6);
  }

  /** A chunk whose first assumption leads to a pass that succeeds has no other. */
  lemma OnePass(j: Job, start: nat, bnd: nat, mode: FindMode, x: nat, rs: seq<Record>, e: Option<nat>)
    requires start <= |j.data| && x <= |j.data| && Locate(j, start, bnd, AssumeOut, mode) == At(x) && Scan(j, x, bnd, Fresh(x), None) == Ok(rs, e)
    ensures ChunkResult(j, start, bnd, mode) == ChunkOutput([Pass(x, Ok(rs, e))], e)
  {
    hide Scan, Find, Body;
    BodyIsScan(j, x, bnd);
    assert Assumptions(j.cfg)[0] == AssumeOut;
    var p := Pass(x, Ok(rs, e));
    assert [] + [p] == [p];
  }

  /** The three chunks' outputs. */
  lemma TextOutputs(j: Job, v: byte) returns (outs: seq<ChunkOutput>)
    requires Runs(j, v)
    ensures outs == [ChunkOutput([Pass(0, Ok([[[v]]], Some(1)))], Some(1)), ChunkOutput([Pass(4, Ok([[[v]]], Some(6)))], Some(6)), ChunkOutput([Pass(6, Ok([[[v]]], Some(8)))], Some(8))]
    ensures AllOutputs(j, 3, false, 3, outs)
  {
    hide Scan, ChunkResult, Locate;
    ReadsOne(j, v, 3);
    ReadsText(j, v);
    FindsText(j, v);
    LocatesStart(j);
    OnePass(j, 0, 3, FindNone, 0, [[[v]]], Some(1));
    OnePass(j, 3, 6, FindStrict, 4, [[[v]]], Some(6));
    OnePass(j, 6, 8, FindStrict, 6, [[[v]]], Some(8));
    outs := [ChunkResult(j, 0, 3, FindNone), ChunkResult(j, 3, 6, FindStrict), ChunkResult(j, 6, 8, FindStrict)];
    assert |j.data| == 8;
    forall k | 0 <= k < 3 ensures k * 3 <= |j.data| && outs[k] == ChunkResult(j, k * 3, Min(k * 3 + 3, |j.data|), FindModeFor(false, k)) {
    }
  }

  lemma LocatesStart(j: Job)
    ensures Locate(j, 0, 3, AssumeOut, FindNone) == At(0)
  {
  }

  lemma ReparseIs(j: Job, start: nat, chunkEnd: nat)
    requires start <= |j.data|
    ensures Reparse(j, start, chunkEnd) == Body(j, start, Min(chunkEnd, |j.data|))
  {
    hide Body;
  }

  /** The merge takes the text of the comment for a record. */
  lemma MergesText(j: Job, v: byte, outs: seq<ChunkOutput>)
    requires Runs(j, v) && InRange(j, outs)
    requires outs == [ChunkOutput([Pass(0, Ok([[[v]]], Some(1)))], Some(1)), ChunkOutput([Pass(4, Ok([[[v]]], Some(6)))], Some(6)), ChunkOutput([Pass(6, Ok([[[v]]], Some(8)))], Some(8))]
    ensures MergeRest(j, 3, outs, 0, None, []) == Merged([[[[v]]], [], [[[v]]]], Some(8))
  {
    hide Scan;
    assert |j.data| == 8;
    ReadsOne(j, v, 6);
    BodyIsScan(j, 1, 6);
    ReparseIs(j, 1, 6);
    hide Reparse, Body, InRange;
    var one: seq<seq<Record>> := [[[[v]]]];
    var none: seq<Record> := [];
    assert [] + [[[[v]]]] == one;
    assert one + [none] + [[[[v]]]] == [[[[v]]], [], [[[v]]]];
    assert MergeRest(j, 3, outs, 3, Some(8), one + [none] + [[[[v]]]]) == Merged(one + [none] + [[[[v]]]], Some(8));
    assert MergeRest(j, 3, outs, 2, None, one + [none]) == Merged(one + [none] + [[[[v]]]], Some(8));
    assert outs[1].passes[1..] == [] && Select(outs[1].passes, Some(1)) == None;
    assert MergeRest(j, 3, outs, 1, Some(1), one) == MergeRest(j, 3, outs, 2, None, one + [none]);
  }

  lemma TextBecomesRecords(j: Job, v: byte) returns (outs: seq<ChunkOutput>)
    requires Runs(j, v)
    ensures |outs| == 3 && AllOutputs(j, 3, false, 3, outs) && InRange(j, outs)
    ensures !OnlyRecords(j, 0, MergeRest(j, 3, outs, 0, None, []))
  {
    hide *;
    outs := TextOutputs(j, v);
    EndsInRange(j, v, outs);
    MergesText(j, v, outs);
    OneRecord(j, v);
    TwoRecords(v);
    TooMany(j, MergeRest(j, 3, outs, 0, None, []));
  }

  lemma EndsInRange(j: Job, v: byte, outs: seq<ChunkOutput>)
    requires Runs(j, v)
    requires outs == [ChunkOutput([Pass(0, Ok([[[v]]], Some(1)))], Some(1)), ChunkOutput([Pass(4, Ok([[[v]]], Some(6)))], Some(6)), ChunkOutput([Pass(6, Ok([[[v]]], Some(8)))], Some(8))]
    ensures InRange(j, outs)
  {
    assert |j.data| == 8;
  }

  lemma OneRecord(j: Job, v: byte)
    requires Runs(j, v)
    ensures |Rest(j, 0).records| == 1
  {
    hide Scan;
    assert |j.data| == 8;
    ReadsOne(j, v, 8);
  }

  lemma TwoRecords(v: byte)
    ensures |Flatten([[[[v]]], [], [[[v]]]])| == 2
  {
    var none: seq<Record> := [];
    FlattenAppend([], [[[v]]]);
    FlattenAppend([[[[v]]]], none);
    FlattenAppend([[[[v]]], none], [[[v]]]);
    assert [] + [[[[v]]]] == [[[[v]]]] && [[[[v]]]] + [none] == [[[[v]]], none] && [[[[v]]], none] + [[[[v]]]] == [[[[v]]], [], [[[v]]]];
  }

  lemma TooMany(j: Job, r: MergeResult)
    requires r.Merged? && |Flatten(r.states)| > |Rest(j, 0).records|
    ensures !OnlyRecords(j, 0, r)
  {
    hide Rest, Flatten;
  }

  /**
   * Exactly which dialects keep a run from handing out more than the records, whatever the input
   * and the chunks: those without comments, and those whose terminators end a comment line (the field
   * count, if it is checked, can only refuse more).
   */
  lemma SafeExactlyWhen(c: Config)
    requires c.Valid()
    ensures CommentsEnd(c) ==> AlwaysSafe(c)
    ensures c.fieldCount.None? && AlwaysSafe(c) ==> CommentsEnd(c)
  {
    hide Rest, MergeRest, AllOutputs, Runs, HeaderInFirstChunk, InRange;
    if CommentsEnd(c) {
      forall j: Job, size: nat, hasHeaders: bool, h: nat, outs: seq<ChunkOutput>
        | j.cfg == c && AllOutputs(j, size, hasHeaders, |outs|, outs) && |outs| >= 1 && HeaderInFirstChunk(j, size, hasHeaders, h) && InRange(j, outs)
        ensures OnlyRecords(j, h, MergeRest(j, size, outs, 0, None, []))
      {
        OutputsSound(j, size, hasHeaders, h, outs);
        MergeSafety(j, h, size, outs);
      }
    } else if c.fieldCount.None? {
      var v := SomeLetter(c);
      var j := CommentedJob(c, v);
      CommentedRuns(c, v);
      var outs := TextBecomesRecords(j, v);
      NoHeader(j);
    }
  }

  lemma CommentedRuns(c: Config, v: byte)
    requires c.Valid() && c.fieldCount.None? && !CommentsEnd(c) && Letter(c, v)
    ensures c.terminator.SingleByte? && c.comment.Some? && CommentedJob(c, v).cfg == c && Runs(CommentedJob(c, v), v)
  {
  }

  lemma NoHeader(j: Job)
    ensures HeaderInFirstChunk(j, 3, false, 0)
  {
  }

  const QUOTE: byte := 34

  /** `#` starts a comment, and quotes are doubled. */
  const DIALECT: Config := Config(44, SingleByte(LF), Some(QUOTE), Some(QUOTE), Some(35), Toggle, None)

  /** Two chunks of six bytes: `aaaaa\n` and `#""\n\n2`. */
  const DATA: seq<byte> := [97, 97, 97, 97, 97, LF] + [35, QUOTE, QUOTE, LF, LF, 50]

  const JOB: Job := Job(DIALECT, DATA, (r: Record) => true)

  /** The walk, strict or not. */
  lemma Walk(c: Config)
    requires c == DIALECT || c == DIALECT.With(Strict)
    ensures forall i :: 0 <= i <= 12 ==> StateAt(c, DATA, 0, i) == Expected(i)
  {
    Before(c);
    hide StateAt;
    var k := 0;
    while k < 12
      invariant 0 <= k <= 12
      invariant forall i :: 0 <= i <= k ==> StateAt(c, DATA, 0, i) == Expected(i)
    {
      Next(c, k);
      k := k + 1;
    }
  }

  function Expected(k: nat): State {
    if k == 0 || k == 6 || k == 10 || k == 11 then RecordStart else if 7 <= k <= 9 then InComment else InField
  }

  lemma Before(c: Config)
    ensures StateAt(c, DATA, 0, 0) == RecordStart
  {
  }

  lemma Next(c: Config, k: nat)
    requires (c == DIALECT || c == DIALECT.With(Strict)) && k < 12 && StateAt(c, DATA, 0, k) == Expected(k)
    ensures StateAt(c, DATA, 0, k + 1) == Expected(k + 1)
  {
    assert DATA[k] == if k < 5 then 97 else if k == 6 then 35 else if k == 7 || k == 8 then QUOTE else if k == 11 then 50 else LF;
  }

  lemma IsWellQuoted()
    ensures WellQuoted(DIALECT, DATA, 0)
  {
    Walk(DIALECT.With(Strict));
    hide StateAt;
    forall k | 0 <= k < |DATA| ensures !Cell(DIALECT.With(Strict), StateAt(DIALECT.With(Strict), DATA, 0, k), DATA[k]).next.Error? {
    }
  }

  /** A record ends at offset 10, in chunk 1, with the record `2` behind it. */
  lemma TrueEnd()
    ensures EndsHere(DIALECT, DATA, 0, 10) && Content(JOB, 0, 10) && Rest(JOB, 0).Ok?
  {
    Walk(DIALECT);
    hide StateAt, Scan;
    assert DATA[11] == 50 && StartsRecord(JOB, 0, 11);
    LossExample.OnlyOpenQuotesFail(JOB, 0, 0, Fresh(0), None);
  }

  /** One assumption is refused at the comment's first quote, the other takes the two for one. */
  lemma CommentChunkIsDead()
    ensures Dead(JOB, 6, 12)
  {
    assert DIALECT.With(Toggle) == DIALECT;
    assert Find(DIALECT, DATA, 7, 12, InField, true) == Refused(7);
    assert Find(DIALECT, DATA, 11, 12, InQuotedField, true) == Nowhere;
    assert Find(DIALECT, DATA, 9, 12, InQuotedField, true) == Nowhere;
    assert Find(DIALECT, DATA, 8, 12, AfterClosingQuote, true) == Nowhere;
    assert Find(DIALECT, DATA, 6, 12, InQuotedField, true) == Nowhere;
    assert Assumptions(DIALECT) == [AssumeOut, AssumeIn];
    assert Locate(JOB, 6, 12, AssumeOut, FindStrict) == Refused(7);
    assert Locate(JOB, 6, 12, AssumeIn, FindStrict) == Nowhere;
    assert Search(JOB, false, 6, 12, AssumeIn, FindStrict) == Nowhere && AssumeIn in Assumptions(DIALECT);
    DeadIff(JOB, 6, 12);
  }

  lemma DeadOutput(outs: seq<ChunkOutput>)
    requires |outs| == 2 && AllOutputs(JOB, 6, false, 2, outs) && Dead(JOB, 6, 12)
    ensures outs[1].passes == [] && Run(JOB, 6, false, 0, outs)
  {
    assert outs[1] == ChunkResult(JOB, 1 * 6, Min(1 * 6 + 6, |JOB.data|), FindModeFor(false, 1));
  }

  lemma TenIsUncovered(outs: seq<ChunkOutput>)
    requires |outs| == 2 && outs[1].passes == []
    ensures !Covered(6, outs, 10)
  {
  }

  lemma Sizes()
    ensures |DATA| == 12 && JOB.cfg == DIALECT && JOB.data == DATA
  {
  }

  /** Quotes in a comment can lose records, though the input is well quoted. */
  lemma CommentsCanLoseRecords(outs: seq<ChunkOutput>)
    requires |outs| == 2 && AllOutputs(JOB, 6, false, 2, outs)
    ensures InRange(JOB, outs) && WellQuoted(DIALECT, DATA, 0)
    ensures !SameAnswer(Sequential(JOB, false), Result(MergeRest(JOB, 6, outs, 0, None, [])))
  {
    IsWellQuoted();
    TrueEnd();
    CommentChunkIsDead();
    DeadOutput(outs);
    SuccessRefusesNothing(JOB, 0, Fresh(0), None);
    hide *;
    RunIs(JOB, 6, false, 0, outs);
    SoundIs(JOB, 0, 6, outs);
    TenIsUncovered(outs);
    Sizes();
    UncoveredIsLost(JOB, 0, 6, outs, 10);
  }
}
