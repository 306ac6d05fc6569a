/** What one uninterrupted pass over the bytes yields: the reference for every faster path. */
module Records {
  import opened Dialect
  import opened Dfa

  type Field = seq<byte>
  type Record = seq<Field>

  datatype Failure =
    | InvalidQuote(at: nat)
    | UnclosedQuote(at: nat)
    | NumberOfFields(expected: nat, found: nat, at: nat)
    | Rejected(record: Record)
    | IllFormed(at: nat)

  /** The input of a run; `accept` stands for the user's accumulator. */
  datatype Job = Job(cfg: Config, data: seq<byte>, accept: Record -> bool)

  /** The records handed out, and where the pass ended or why it failed. */
  datatype Outcome = Ok(records: seq<Record>, end: Option<nat>) | Err(records: seq<Record>, failure: Failure)

  /** The record in flight: closed fields, bytes of the open field, and where both began. */
  datatype Flight = Flight(state: State, fields: seq<Field>, cur: Field, recordIn: nat, fieldIn: nat)

  function Fresh(pos: nat): Flight {
    Flight(RecordStart, [], [], pos, pos)
  }

  /** Arity check, then the accumulator. */
  function Verdict(j: Job, r: Record, recordIn: nat): Option<Failure> {
    if j.cfg.fieldCount.Some? && |r| != j.cfg.fieldCount.value then
      Some(NumberOfFields(j.cfg.fieldCount.value, |r|, recordIn))
    else if !j.accept(r) then Some(Rejected(r))
    else None
  }

  function Prepend(rs: seq<Record>, o: Outcome): Outcome {
    match o
    case Ok(records, end) => Ok(rs + records, end)
    case Err(records, e) => Err(rs + records, e)
  }

  /** End of input: flush the open record, or reject an open quote. */
  function Finish(j: Job, f: Flight, last: Option<nat>): Outcome {
    match f.state
    case InQuotedField => Err([], UnclosedQuote(f.fieldIn))
    case InEscapedQuote => Err([], UnclosedQuote(f.fieldIn))
    case FieldStart => FinishRecord(j, f)
    case InField => FinishRecord(j, f)
    case AfterClosingQuote => FinishRecord(j, f)
    case _ => Ok([], last)
  }

  function FinishRecord(j: Job, f: Flight): Outcome {
    var r := f.fields + [f.cur];
    var v := Verdict(j, r, f.recordIn);
    if v.Some? then Err([], v.value) else Ok([r], Some(|j.data|))
  }

  /** The offset at which a record starts is the first byte that leaves `RecordStart`. */
  function Anchor(f: Flight, pos: nat): Flight {
    if f.state.RecordStart? then f.(recordIn := pos, fieldIn := pos) else f
  }

  /** What one byte does to the record in flight. */
  datatype Move =
    | Blank               // a terminator at `RecordStart`: an empty line
    | Go(flight: Flight)
    | Close(record: Record)
    | Fail(failure: Failure)

  function Step(j: Job, f: Flight, pos: nat): Move
    requires pos < |j.data|
  {
    var b := j.data[pos];
    if f.state.RecordStart? && j.cfg.IsTerm(b) then Blank
    else
      var g := Anchor(f, pos);
      var t := Cell(j.cfg, g.state, b);
      var cur := if t.output then g.cur + [b] else g.cur;
      match t.next
      case Error => Fail(InvalidQuote(pos))
      case FieldEnd => Go(Flight(FieldStart, g.fields + [cur], [], g.recordIn, pos + 1))
      case RecordEnd =>
        var r := g.fields + [cur];
        var v := Verdict(j, r, g.recordIn);
        if v.Some? then Fail(v.value) else Close(r)
      case s => Go(g.(state := s, cur := cur))
  }

  /**
   * Step the table one byte at a time from `pos`, stopping at the first
   * out-of-quotes terminator at or past `bnd`. `last` is the previous record end.
   */
  function Scan(j: Job, pos: nat, bnd: nat, f: Flight, last: Option<nat>): Outcome
    requires pos <= |j.data|
    decreases |j.data| - pos
  {
    if pos == |j.data| then Finish(j, f, last)
    else
      match Step(j, f, pos)
      case Blank => if bnd <= pos then Ok([], Some(pos)) else Scan(j, pos + 1, bnd, f, last)
      case Go(g) => Scan(j, pos + 1, bnd, g, last)
      case Close(r) =>
        if bnd <= pos then Ok([r], Some(pos))
        else Prepend([r], Scan(j, pos + 1, bnd, Fresh(pos + 1), Some(pos)))
      case Fail(e) => Err([], e)
  }

  /** The table's state before byte `hi`, having started a record at `from`. */
  function StateAt(c: Config, data: seq<byte>, from: nat, hi: nat): State
    requires from <= hi <= |data|
    decreases hi
  {
    if hi == from then RecordStart
    else Settle(Cell(c, StateAt(c, data, from, hi - 1), data[hi - 1]).next)
  }

  /** A terminator that ends a record or a blank line. */
  predicate EndsHere(c: Config, data: seq<byte>, from: nat, k: nat)
    requires from <= k < |data|
  {
    c.IsTerm(data[k]) && OutOfQuotes(StateAt(c, data, from, k))
  }

  ghost predicate NoEnd(c: Config, data: seq<byte>, from: nat, lo: nat, hi: nat)
    requires from <= lo && hi <= |data|
  {
    forall k :: lo <= k < hi ==> !EndsHere(c, data, from, k)
  }

  function Min(a: nat, b: nat): nat {
    if a < b then a else b
  }

  function Max(a: nat, b: nat): nat {
    if a < b then b else a
  }

  /** Where `pos` stands on its way: the flight's state is the table's state there. */
  ghost predicate OnPath(j: Job, from: nat, pos: nat, f: Flight) {
    && j.cfg.Valid()
    && from <= pos <= |j.data|
    && f.state == StateAt(j.cfg, j.data, from, pos)
  }

  /** Interior states are all that a walk visits, unless it errs. */
  lemma {:induction false} Interior(c: Config, data: seq<byte>, from: nat, hi: nat)
    requires from <= hi <= |data|
    ensures var s := StateAt(c, data, from, hi); OutOfQuotes(s) || InQuotes(s) || s.Error? || (s.InComment? && c.comment.Some?)
  {
    if from < hi {
      Interior(c, data, from, hi - 1);
    }
  }

  /** No record is in flight: at a record's start or in a comment. */
  predicate Between(s: State) {
    s.RecordStart? || s.InComment?
  }

  /** From `lo` on there are nothing but blank lines and comments. */
  ghost predicate Trailing(c: Config, data: seq<byte>, from: nat, lo: nat)
    requires from <= lo
  {
    forall x :: lo <= x <= |data| ==> Between(StateAt(c, data, from, x))
  }

  /** One step follows the table, and only a blank line or a closed record ends there. */
  lemma StepOnPath(j: Job, from: nat, pos: nat, f: Flight)
    requires OnPath(j, from, pos, f) && pos < |j.data|
    ensures var s := StateAt(j.cfg, j.data, from, pos + 1);
            var m := Step(j, f, pos);
            && (m.Blank? ==> EndsHere(j.cfg, j.data, from, pos) && s == f.state)
            && (m.Go? ==> !EndsHere(j.cfg, j.data, from, pos) && s == m.flight.state && !s.Error? && (Between(s) ==> Between(f.state)))
            && (m.Go? && s.RecordStart? ==> f.state.InComment?)
            && (m.Close? ==> EndsHere(j.cfg, j.data, from, pos) && s == RecordStart)
  {
    Interior(j.cfg, j.data, from, pos);
  }

  /** A pass ends on the first record end at or past the boundary, and only there. */
  lemma {:induction false} StopsAtFirstEnd(j: Job, from: nat, pos: nat, bnd: nat, f: Flight, last: Option<nat>)
    requires OnPath(j, from, pos, f) && !f.state.Error?
    ensures var o := Scan(j, pos, bnd, f, last);
            o.Ok? ==>
              || (&& o.end.Some? && Max(pos, bnd) <= o.end.value < |j.data|
                  && EndsHere(j.cfg, j.data, from, o.end.value)
                  && NoEnd(j.cfg, j.data, from, Max(pos, bnd), o.end.value))
              || (&& NoEnd(j.cfg, j.data, from, Max(pos, bnd), |j.data|)
                  && (o.end == last || (o.end.Some? && (o.end.value < bnd || o.end.value == |j.data|)))
                  && (j.cfg.comment.None? && bnd < |j.data| && (pos < |j.data| || !f.state.RecordStart?) ==> o.end == Some(|j.data|)))
    decreases |j.data| - pos
  {
    hide Step, Verdict, StateAt, EndsHere;
    Interior(j.cfg, j.data, from, pos);
    if pos < |j.data| {
      StepOnPath(j, from, pos, f);
      match Step(j, f, pos)
      case Blank =>
        if pos < bnd { StopsAtFirstEnd(j, from, pos + 1, bnd, f, last); }
      case Go(g) =>
        StopsAtFirstEnd(j, from, pos + 1, bnd, g, last);
      case Close(_) =>
        if pos < bnd { StopsAtFirstEnd(j, from, pos + 1, bnd, Fresh(pos + 1), Some(pos)); }
      case Fail(_) =>
    }
  }

  /** A pass that ran to the end of the input closed a record there, or has nothing but blank lines and comments behind its last. */
  lemma {:induction false} EndsQuietly(j: Job, from: nat, pos: nat, bnd: nat, f: Flight, last: Option<nat>)
    requires OnPath(j, from, pos, f) && !f.state.Error?
    ensures var o := Scan(j, pos, bnd, f, last);
            o.Ok? && !(o.end.Some? && Max(pos, bnd) <= o.end.value < |j.data|) ==>
              || o.end == Some(|j.data|)
              || (o.end == last && Trailing(j.cfg, j.data, from, pos))
              || (o.end.Some? && pos <= o.end.value < bnd && o.end.value < |j.data| && EndsHere(j.cfg, j.data, from, o.end.value)
                  && Trailing(j.cfg, j.data, from, o.end.value + 1))
    decreases |j.data| - pos
  {
    hide Step, Verdict, StateAt, EndsHere, Trailing;
    if pos < |j.data| {
      StepOnPath(j, from, pos, f);
      match Step(j, f, pos)
      case Blank =>
        if pos < bnd {
          EndsQuietly(j, from, pos + 1, bnd, f, last);
          TrailingFrom(j.cfg, j.data, from, pos);
          BlankIsBetween(j, f, pos);
        }
      case Go(g) =>
        EndsQuietly(j, from, pos + 1, bnd, g, last);
        TrailingFrom(j.cfg, j.data, from, pos);
        TrailingFrom(j.cfg, j.data, from, pos + 1);
      case Close(_) =>
        if pos < bnd { EndsQuietly(j, from, pos + 1, bnd, Fresh(pos + 1), Some(pos)); }
      case Fail(_) =>
    } else {
      Interior(j.cfg, j.data, from, pos);
      TrailingFrom(j.cfg, j.data, from, pos);
    }
  }

  lemma BlankIsBetween(j: Job, f: Flight, pos: nat)
    requires pos < |j.data| && Step(j, f, pos).Blank?
    ensures Between(f.state)
  {
  }

  lemma TrailingFrom(c: Config, data: seq<byte>, from: nat, pos: nat)
    requires from <= pos <= |data|
    ensures Trailing(c, data, from, pos) <==> Between(StateAt(c, data, from, pos)) && (pos < |data| ==> Trailing(c, data, from, pos + 1))
  {
    hide StateAt, Between;
  }

  /** Nothing but blank lines and comments yields nothing; a blank line may still end the pass. */
  lemma {:induction false} TrailingIsQuiet(j: Job, from: nat, pos: nat, bnd: nat, f: Flight, last: Option<nat>)
    requires OnPath(j, from, pos, f) && Trailing(j.cfg, j.data, from, pos)
    ensures var o := Scan(j, pos, bnd, f, last);
            && o.Ok? && o.records == []
            && (o.end == last || (o.end.Some? && bnd <= o.end.value && pos <= o.end.value < |j.data| && j.cfg.IsTerm(j.data[o.end.value])))
    decreases |j.data| - pos
  {
    hide Step, Verdict, StateAt, EndsHere, Trailing;
    TrailingFrom(j.cfg, j.data, from, pos);
    if pos < |j.data| {
      TrailingFrom(j.cfg, j.data, from, pos + 1);
      StepOnPath(j, from, pos, f);
      StepBetween(j, from, pos, f);
      match Step(j, f, pos)
      case Blank => if pos < bnd { TrailingIsQuiet(j, from, pos + 1, bnd, f, last); }
      case Go(g) => TrailingIsQuiet(j, from, pos + 1, bnd, g, last);
      case _ =>
    }
  }

  lemma StepBetween(j: Job, from: nat, pos: nat, f: Flight)
    requires OnPath(j, from, pos, f) && pos < |j.data| && Between(f.state) && Between(StateAt(j.cfg, j.data, from, pos + 1))
    ensures var m := Step(j, f, pos); (m.Blank? && j.cfg.IsTerm(j.data[pos])) || m.Go?
  {
  }

  /** Everything a pass would still yield from the record boundary `e` on. */
  function Rest(j: Job, e: nat): Outcome
    requires e <= |j.data|
  {
    Scan(j, e, |j.data|, Fresh(e), None)
  }

  /** Equal up to the reported last record end. */
  predicate SameYield(a: Outcome, b: Outcome) {
    match (a, b)
    case (Ok(r, _), Ok(s, _)) => r == s
    case (Err(r, e), Err(s, g)) => r == s && e == g
    case _ => false
  }

  /** Equal as answers: the records, or the failure. */
  predicate SameAnswer(a: Outcome, b: Outcome) {
    match (a, b)
    case (Ok(r, _), Ok(s, _)) => r == s
    case (Err(_, e), Err(_, g)) => e == g
    case _ => false
  }

  predicate FailsWith(o: Outcome, e: Failure) {
    o.Err? && o.failure == e
  }

  lemma PrependTwice(a: seq<Record>, b: seq<Record>, o: Outcome)
    ensures Prepend(a, Prepend(b, o)) == Prepend(a + b, o)
  {
    assert a + (b + o.records) == (a + b) + o.records;
  }

  lemma PrependNothing(o: Outcome)
    ensures Prepend([], o) == o
  {
    assert [] + o.records == o.records;
  }

  /** The last record end is only reported, so it does not affect the records. */
  lemma {:induction false} LastIrrelevant(j: Job, pos: nat, bnd: nat, f: Flight, l: Option<nat>, m: Option<nat>)
    requires pos <= |j.data|
    ensures SameYield(Scan(j, pos, bnd, f, l), Scan(j, pos, bnd, f, m))
    decreases |j.data| - pos
  {
    hide Step;
    if pos < |j.data| {
      match Step(j, f, pos)
      case Blank => if pos < bnd { LastIrrelevant(j, pos + 1, bnd, f, l, m); }
      case Go(g) => LastIrrelevant(j, pos + 1, bnd, g, l, m);
      case Close(_) =>
      case Fail(_) =>
    }
  }

  /** Where a pending record began does not matter while none is in flight. */
  lemma {:induction false} AnchorIrrelevant(j: Job, pos: nat, bnd: nat, f: Flight, g: Flight, last: Option<nat>)
    requires pos <= |j.data|
    requires f.state.RecordStart? && g == f.(recordIn := g.recordIn, fieldIn := g.fieldIn)
    ensures Scan(j, pos, bnd, f, last) == Scan(j, pos, bnd, g, last)
    decreases |j.data| - pos
  {
    hide Verdict;
    if pos < |j.data| {
      assert Step(j, f, pos) == Step(j, g, pos);
      if Step(j, f, pos).Blank? && pos < bnd {
        AnchorIrrelevant(j, pos + 1, bnd, f, g, last);
      }
    }
  }

  /** Nothing is in flight before a record's first byte. */
  predicate Idle(f: Flight) {
    f.state.RecordStart? || f.state.InComment? ==> f.fields == [] && f.cur == []
  }

  lemma StepShape(j: Job, f: Flight, pos: nat)
    requires pos < |j.data| && Idle(f)
    ensures var m := Step(j, f, pos); (m.Go? ==> Idle(m.flight)) && (m.Close? || m.Blank? ==> j.cfg.IsTerm(j.data[pos]))
  {
  }

  /** Standing on a terminator between records: stop there, or step over it. */
  lemma AtTerminator(j: Job, e: nat, bnd: nat, last: Option<nat>)
    requires e < |j.data| && j.cfg.IsTerm(j.data[e])
    ensures SameYield(Scan(j, e, bnd, Fresh(e), None),
                      if bnd <= e then Ok([], Some(e)) else Scan(j, e + 1, bnd, Fresh(e + 1), last))
  {
    if e < bnd {
      AnchorIrrelevant(j, e + 1, bnd, Fresh(e), Fresh(e + 1), None);
      LastIrrelevant(j, e + 1, bnd, Fresh(e + 1), None, last);
    }
  }

  /**
   * A pass stopped at an earlier boundary and resumed from the terminator it stopped on
   * yields what an undivided pass to the later boundary yields.
   */
  lemma {:induction false} Split(j: Job, pos: nat, b1: nat, b2: nat, f: Flight, last: Option<nat>)
    requires pos <= |j.data| && b1 <= b2 && Idle(f)
    requires last.Some? ==> last.value < pos
    ensures var o := Scan(j, pos, b1, f, last);
            var w := Scan(j, pos, b2, f, last);
            if o.Ok? && o.end.Some? then
              var e := o.end.value;
              if b1 <= e < |j.data| && pos <= e then SameYield(w, Prepend(o.records, Scan(j, e, b2, Fresh(e), None)))
              else w == o && (pos <= e || last == Some(e))
            else w == o
    decreases |j.data| - pos
  {
    hide Step;
    if pos < |j.data| {
      StepShape(j, f, pos);
      match Step(j, f, pos)
      case Blank =>
        if pos < b1 {
          Split(j, pos + 1, b1, b2, f, last);
        } else {
          assert Scan(j, pos, b2, f, last) == Scan(j, pos, b2, Fresh(pos), last) by {
            BlankIsIdle(j, f, pos);
            AnchorIrrelevant(j, pos, b2, f, Fresh(pos), last);
          }
          LastIrrelevant(j, pos, b2, Fresh(pos), last, None);
          PrependNothing(Scan(j, pos, b2, Fresh(pos), None));
        }
      case Go(g) =>
        Split(j, pos + 1, b1, b2, g, last);
      case Close(r) =>
        if pos < b1 {
          Split(j, pos + 1, b1, b2, Fresh(pos + 1), Some(pos));
          var o := Scan(j, pos + 1, b1, Fresh(pos + 1), Some(pos));
          if o.Ok? && o.end.Some? && b1 <= o.end.value < |j.data| {
            PrependTwice([r], o.records, Scan(j, o.end.value, b2, Fresh(o.end.value), None));
          }
        } else {
          AtTerminator(j, pos, b2, Some(pos));
        }
      case Fail(_) =>
    }
  }

  lemma BlankIsIdle(j: Job, f: Flight, pos: nat)
    requires pos < |j.data| && Idle(f) && Step(j, f, pos).Blank?
    ensures f == Fresh(pos).(recordIn := f.recordIn, fieldIn := f.fieldIn)
  {
  }

  lemma {:induction false} EndInRange(j: Job, pos: nat, bnd: nat, f: Flight, last: Option<nat>)
    requires pos <= |j.data|
    requires last.Some? ==> last.value <= |j.data|
    ensures var o := Scan(j, pos, bnd, f, last);
            o.Ok? && o.end.Some? ==> o.end.value <= |j.data|
    decreases |j.data| - pos
  {
    hide Step, Verdict;
    if pos < |j.data| {
      match Step(j, f, pos)
      case Blank => if pos < bnd { EndInRange(j, pos + 1, bnd, f, last); }
      case Go(g) => EndInRange(j, pos + 1, bnd, g, last);
      case Close(_) => EndInRange(j, pos + 1, bnd, Fresh(pos + 1), Some(pos));
      case Fail(_) =>
    }
  }
}
