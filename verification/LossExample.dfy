/**
 * Badly quoted input can lose records: a clean scan under the wrong assumption leaves the
 * last chunk without a pass, and nothing behind it reparses across the gap.
 */
module LossExample {
  import opened Dialect
  import opened Dfa
  import opened Records
  import opened Chunk
  import opened Parsers
  import opened Scheduler
  import opened Merge
  import opened FailurePoint
  import opened ParallelRun
  import opened Equivalence

  const COMMA: byte := 44
  const QUOTE: byte := 34

  const DIALECT: Config :=
    Config(COMMA, SingleByte(LF), Some(QUOTE), Some(QUOTE), None, Toggle, None)

  /** Two chunks of six bytes: `pqrs\nz` and `a""\nw\n`. */
  const DATA: seq<byte> := [112, 113, 114, 115, LF, 122] + [97, QUOTE, QUOTE, LF, 119, LF]

  const JOB: Job := Job(DIALECT, DATA, (r: Record) => true)

  lemma ToggleNeverRefuses(j: Job, f: Flight, pos: nat)
    requires pos < |j.data| && j.cfg.quoteHandling.Toggle? && j.cfg.fieldCount.None?
    requires forall r :: j.accept(r)
    requires OutOfQuotes(f.state) || InQuotes(f.state) || f.state.InComment?
    ensures var m := Step(j, f, pos); !m.Fail? && (m.Go? ==> OutOfQuotes(m.flight.state) || InQuotes(m.flight.state) || m.flight.state.InComment?)
  {
  }

  /** Under toggling nothing but an open quote fails a pass that checks no arity and accepts every record. */
  lemma {:induction false} OnlyOpenQuotesFail(j: Job, from: nat, pos: nat, f: Flight, last: Option<nat>)
    requires OnPath(j, from, pos, f) && j.cfg.quoteHandling.Toggle? && j.cfg.fieldCount.None?
    requires forall r :: j.accept(r)
    requires OutOfQuotes(StateAt(j.cfg, j.data, from, |j.data|))
    requires OutOfQuotes(f.state) || InQuotes(f.state) || f.state.InComment?
    ensures Scan(j, pos, |j.data|, f, last).Ok?
    decreases |j.data| - pos
  {
    hide Step, StateAt, EndsHere;
    if pos < |j.data| {
      StepOnPath(j, from, pos, f);
      ToggleNeverRefuses(j, f, pos);
      match Step(j, f, pos)
      case Blank => OnlyOpenQuotesFail(j, from, pos + 1, f, last);
      case Go(g) => OnlyOpenQuotesFail(j, from, pos + 1, g, last);
      case Close(_) => OnlyOpenQuotesFail(j, from, pos + 1, Fresh(pos + 1), Some(pos));
      case Fail(_) =>
    }
  }

  /** The true walk ends a record at offset 9, in chunk 1, with the record `w` behind it. */
  lemma TrueWalk()
    ensures EndsHere(DIALECT, DATA, 0, 9) && Content(JOB, 0, 9)
    ensures Rest(JOB, 0).Ok?
  {
    WalkStates();
    hide StateAt, Scan;
    assert DATA[10] == 119;
    OnlyOpenQuotesFail(JOB, 0, 0, Fresh(0), None);
  }

  lemma FirstHalf()
    ensures StateAt(DIALECT, DATA, 0, 6) == InField
  {
    assert StateAt(DIALECT, DATA, 0, 2) == InField;
    assert StateAt(DIALECT, DATA, 0, 4) == InField;
  }

  lemma WalkStates()
    ensures EndsHere(DIALECT, DATA, 0, 9)
    ensures StateAt(DIALECT, DATA, 0, 0) == RecordStart && OutOfQuotes(StateAt(DIALECT, DATA, 0, |DATA|))
  {
    FirstHalf();
    assert StateAt(DIALECT, DATA, 0, 8) == InQuotedField;
    assert StateAt(DIALECT, DATA, 0, 10) == RecordStart;
    assert StateAt(DIALECT, DATA, 0, 12) == RecordStart;
  }

  /** Neither assumption finds it: one is refused at the first quote, the other scans clean. */
  lemma Chunk1IsDead()
    ensures Dead(JOB, 6, 12)
  {
    assert DIALECT.With(Toggle) == DIALECT;
    assert Find(DIALECT, DATA, 7, 12, InField, true) == Refused(7);
    assert Find(DIALECT, DATA, 11, 12, InQuotedField, true) == Nowhere;
    assert Find(DIALECT, DATA, 9, 12, InQuotedField, true) == Nowhere;
    assert Find(DIALECT, DATA, 8, 12, AfterClosingQuote, true) == Nowhere;
    assert Find(DIALECT, DATA, 6, 12, InQuotedField, true) == Nowhere;
    assert Assumptions(DIALECT) == [AssumeOut, AssumeIn];
    assert Locate(JOB, 6, 12, AssumeOut, FindStrict) == Refused(7);
    assert Locate(JOB, 6, 12, AssumeIn, FindStrict) == Nowhere;
    assert Search(JOB, false, 6, 12, AssumeIn, FindStrict) == Nowhere && AssumeIn in Assumptions(DIALECT);
    DeadIff(JOB, 6, 12);
  }

  /** Chunk 1 covers the record end at offset 9 only if it has a pass. */
  lemma NineIsUncovered(outs: seq<ChunkOutput>)
    requires |outs| == 2 && outs[1].passes == []
    ensures !Covered(6, outs, 9)
  {
  }

  lemma Chunk1Output(j: Job, outs: seq<ChunkOutput>)
    requires j.cfg == DIALECT && j.data == DATA && |outs| == 2 && AllOutputs(j, 6, false, 2, outs) && Dead(j, 6, 12)
    ensures outs[1].passes == [] && Run(j, 6, false, 0, outs)
  {
    assert outs[1] == ChunkResult(j, 1 * 6, Min(1 * 6 + 6, |j.data|), FindModeFor(false, 1));
  }

  /** The parallel run over these two chunks does not yield the sequential records. */
  lemma ParallelCanLoseRecords(outs: seq<ChunkOutput>)
    requires |outs| == 2 && AllOutputs(JOB, 6, false, 2, outs)
    ensures InRange(JOB, outs)
    ensures !SameAnswer(Sequential(JOB, false), Result(MergeRest(JOB, 6, outs, 0, None, [])))
  {
    TrueWalk();
    Chunk1IsDead();
    Chunk1Output(JOB, outs);
    SuccessRefusesNothing(JOB, 0, Fresh(0), None);
    hide *;
    RunIs(JOB, 6, false, 0, outs);
    SoundIs(JOB, 0, 6, outs);
    NineIsUncovered(outs);
    Lengths();
    UncoveredIsLost(JOB, 0, 6, outs, 9);
  }

  lemma Lengths()
    ensures |DATA| == 12 && JOB.cfg == PICKY.cfg == DIALECT && JOB.data == PICKY.data == DATA
  {
  }

  /** The same input for an accumulator that refuses the record `w`. */
  const PICKY: Job := Job(DIALECT, DATA, (r: Record) => r != [[119]])

  function Reading(s: State, cur: Field, from: nat): Flight {
    Flight(s, [], cur, from, from)
  }

  /** A byte of content. */
  lemma ReadByte(pos: nat, from: nat, s: State, cur: Field)
    requires pos < 12 && DATA[pos] != COMMA && DATA[pos] != LF && DATA[pos] != QUOTE && (s.InField? || s.FieldStart?)
    ensures Step(PICKY, Reading(s, cur, from), pos) == Go(Reading(InField, cur + [DATA[pos]], from))
  {
  }

  lemma ReadFirst(pos: nat, at: nat)
    requires pos < 12 && DATA[pos] != COMMA && DATA[pos] != LF && DATA[pos] != QUOTE
    ensures Step(PICKY, Fresh(at), pos) == Go(Reading(InField, [DATA[pos]], pos))
  {
    assert [] + [DATA[pos]] == [DATA[pos]];
  }

  lemma CloseRecord(pos: nat, from: nat, s: State, cur: Field)
    requires pos < 12 && DATA[pos] == LF && (s.InField? || s.AfterClosingQuote?)
    ensures Step(PICKY, Reading(s, cur, from), pos) == if cur != [119] then Close([cur]) else Fail(Rejected([cur]))
  {
    assert [] + [cur] == [cur];
    assert [cur][0] == cur && [[119]][0] == [119];
  }

  lemma FirstRecord()
    ensures Step(PICKY, Fresh(0), 0) == Go(Reading(InField, [112], 0))
    ensures Step(PICKY, Reading(InField, [112], 0), 1) == Go(Reading(InField, [112, 113], 0))
    ensures Step(PICKY, Reading(InField, [112, 113], 0), 2) == Go(Reading(InField, [112, 113, 114], 0))
    ensures Step(PICKY, Reading(InField, [112, 113, 114], 0), 3) == Go(Reading(InField, [112, 113, 114, 115], 0))
    ensures Step(PICKY, Reading(InField, [112, 113, 114, 115], 0), 4) == Close([[112, 113, 114, 115]])
  {
    hide Step;
    ReadFirst(0, 0);
    ReadByte(1, 0, InField, [112]);
    ReadByte(2, 0, InField, [112, 113]);
    ReadByte(3, 0, InField, [112, 113, 114]);
    CloseRecord(4, 0, InField, [112, 113, 114, 115]);
  }

  lemma SecondRecord()
    ensures Step(PICKY, Fresh(5), 5) == Go(Reading(InField, [122], 5))
    ensures Step(PICKY, Reading(InField, [122], 5), 6) == Go(Reading(InField, [122, 97], 5))
    ensures Step(PICKY, Reading(InField, [122, 97], 5), 7) == Go(Reading(InQuotedField, [122, 97], 5))
    ensures Step(PICKY, Reading(InQuotedField, [122, 97], 5), 8) == Go(Reading(AfterClosingQuote, [122, 97], 5))
    ensures Step(PICKY, Reading(AfterClosingQuote, [122, 97], 5), 9) == Close([[122, 97]])
  {
    ReadFirst(5, 5);
    ReadByte(6, 5, InField, [122]);
    CloseRecord(9, 5, AfterClosingQuote, [122, 97]);
  }

  lemma LastRecord()
    ensures Step(PICKY, Fresh(9), 9) == Blank
    ensures Step(PICKY, Fresh(9), 10) == Go(Reading(InField, [119], 10))
    ensures Step(PICKY, Reading(InField, [119], 10), 11) == Fail(Rejected([[119]]))
  {
    ReadFirst(10, 9);
    CloseRecord(11, 10, InField, [119]);
  }

  /** The scan gets past offset 9 and then refuses the byte at 11. */
  lemma PickyWalk()
    ensures Scan(PICKY, 0, 6, Fresh(0), None) == Ok([[[112, 113, 114, 115]], [[122, 97]]], Some(9))
    ensures FailAt(PICKY, 9, Fresh(9)) == 11 && Rest(PICKY, 9) == Err([], Rejected([[119]]))
  {
    hide Step;
    FirstRecord();
    SecondRecord();
    LastRecord();
    Lengths();
    var last := Some(4);
    assert Scan(PICKY, 9, 6, Reading(AfterClosingQuote, [122, 97], 5), last) == Ok([[[122, 97]]], Some(9));
    assert Scan(PICKY, 7, 6, Reading(InField, [122, 97], 5), last) == Ok([[[122, 97]]], Some(9));
    assert Scan(PICKY, 5, 6, Fresh(5), last) == Ok([[[122, 97]]], Some(9));
    assert Scan(PICKY, 3, 6, Reading(InField, [112, 113, 114], 0), None) == Ok([[[112, 113, 114, 115]], [[122, 97]]], Some(9));
    assert Scan(PICKY, 1, 6, Reading(InField, [112], 0), None) == Ok([[[112, 113, 114, 115]], [[122, 97]]], Some(9));
    assert FailAt(PICKY, 11, Reading(InField, [119], 10)) == 11;
    assert Scan(PICKY, 11, |PICKY.data|, Reading(InField, [119], 10), None) == Err([], Rejected([[119]]));
    assert Scan(PICKY, 10, |PICKY.data|, Fresh(9), None) == Err([], Rejected([[119]]));
  }

  /** An input that one pass rejects and the parallel run accepts. */
  lemma ParallelCanAcceptTheRejected(outs: seq<ChunkOutput>)
    requires |outs| == 2 && AllOutputs(PICKY, 6, false, 2, outs)
    ensures InRange(PICKY, outs)
    ensures var r, w := MergeRest(PICKY, 6, outs, 0, None, []), Sequential(PICKY, false);
            w.Err? && r.Merged? && Flatten(r.states) <= w.records
  {
    TrueWalk();
    Chunk1IsDead();
    DeadForBoth();
    Chunk1Output(PICKY, outs);
    PickyWalk();
    Lengths();
    FailureBehind(PICKY, 0, 6, Fresh(0), None);
    Split(PICKY, 0, 6, 12, Fresh(0), None);
    hide *;
    RunIs(PICKY, 6, false, 0, outs);
    SoundIs(PICKY, 0, 6, outs);
    NineIsUncovered(outs);
    UncoveredIsLost(PICKY, 0, 6, outs, 9);
    MergeSafety(PICKY, 0, 6, outs);
    var r := MergeRest(PICKY, 6, outs, 0, None, []);
    SafeIs(PICKY, 0, 6, outs, r);
    FailureIs(PICKY, 0, r);
  }

  /** Whether a chunk is dead does not depend on the accumulator. */
  lemma DeadForBoth()
    ensures Dead(JOB, 6, 12) <==> Dead(PICKY, 6, 12)
  {
    DeadIff(JOB, 6, 12);
    DeadIff(PICKY, 6, 12);
    Lengths();
    hide ChunkResult;
    forall a, m ensures Locate(JOB, 6, 12, a, m) == Locate(PICKY, 6, 12, a, m) {
    }
  }
}
