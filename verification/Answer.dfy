/** What a chunk parser may answer for the records from a known boundary, whichever parser it is. */
module Answer {
  import opened Dialect
  import opened Dfa
  import opened Records
  import opened Handed
  import opened Chunk
  import opened Utf8
  import opened FieldText

  /**
   * The table's outcome, over bytes that are validated if they are text; or a failure, where the
   * table fails by the end of the input or the text is ill-formed, behind some of the table's
   * records. Ill-formed text is reported at the byte that begins no character, and whatever was
   * handed out as text is text.
   */
  ghost predicate Fits(j: Job, text: bool, start: nat, bnd: nat, o: Outcome) {
    && start <= |j.data|
    && (o.Ok? ==> o == Body(j, start, bnd) && (text ==> exists v :: Vouched(j.data, start, v, bnd, o.end)))
    && (o.Err? ==> (Records.Rest(j, start).Err? || (text && !WellFormed(j.data[start..]))) && o.records <= Records.Rest(j, start).records)
    && (o.Err? && o.failure.IllFormed? ==> text && Stuck(j.data, start, o.failure.at))
    && TextOut(text, j, HandedOut(o))
  }

  /** The table itself answers exactly, unless the text is ill-formed. */
  ghost predicate Exact(j: Job, text: bool, start: nat, bnd: nat, o: Outcome) {
    Fits(j, text, start, bnd, o) && (o != Body(j, start, bnd) ==> text && o.Err? && o.failure.IllFormed?)
  }

  /** Blank lines do not decide whether the rest fails. */
  lemma {:induction false} RestPastBlanks(j: Job, start: nat, bnd: nat)
    requires start <= |j.data|
    ensures var (p, outlasts) := SkipBlank(j.cfg, j.data, start, bnd);
            !outlasts ==> Records.Rest(j, p) == Records.Rest(j, start)
    decreases |j.data| - start
  {
    if start < |j.data| && j.cfg.IsTerm(j.data[start]) && start < bnd {
      RestPastBlanks(j, start + 1, bnd);
      AnchorIrrelevant(j, start + 1, |j.data|, Fresh(start), Fresh(start + 1), None);
    }
  }

  /** What blank lines consist of, and what they stop on. */
  lemma {:induction false} BlanksAre(c: Config, data: seq<byte>, pos: nat, bnd: nat)
    requires pos <= |data|
    ensures var (p, outlasts) := SkipBlank(c, data, pos, bnd);
            && (forall i :: pos <= i < p ==> c.IsTerm(data[i]))
            && (!outlasts && p < |data| ==> !c.IsTerm(data[p]))
            && (outlasts ==> p < |data| && c.IsTerm(data[p]) && bnd <= p)
    decreases |data| - pos
  {
    if pos < |data| && c.IsTerm(data[pos]) && pos < bnd {
      BlanksAre(c, data, pos + 1, bnd);
    }
  }

  lemma {:induction false} TermsAreText(c: Config, s: seq<byte>)
    requires c.AsciiControls() && forall i :: 0 <= i < |s| ==> c.IsTerm(s[i])
    ensures WellFormed(s)
    decreases |s|
  {
    if s != [] {
      OneAscii(s[0]);
      TermsAreText(c, s[1..]);
      Concat([s[0]], s[1..]);
      assert s == [s[0]] + s[1..];
    }
  }

  /** Where the body starts: behind the blank lines, which are text themselves. */
  lemma BodyFrom(j: Job, start: nat, bnd: nat)
    requires start <= |j.data|
    ensures var (p, outlasts) := SkipBlank(j.cfg, j.data, start, bnd);
            && start <= p <= |j.data| && (!outlasts && p < |j.data| ==> !j.cfg.IsTerm(j.data[p]))
            && Body(j, start, bnd) == (if outlasts then Ok([], Some(p)) else Scan(j, p, bnd, Fresh(p), None))
            && (!outlasts ==> Records.Rest(j, p) == Records.Rest(j, start))
            && (j.cfg.AsciiControls() ==> WellFormed(j.data[start..p]))
            && (j.cfg.AsciiControls() && outlasts ==> Vouched(j.data, start, p + 1, bnd, Some(p)))
  {
    hide Scan, WellFormed;
    RestPastBlanks(j, start, bnd);
    BlanksAre(j.cfg, j.data, start, bnd);
    var (p, outlasts) := SkipBlank(j.cfg, j.data, start, bnd);
    if j.cfg.AsciiControls() {
      TermsAreText(j.cfg, j.data[start..p]);
      if outlasts {
        TermsAreText(j.cfg, j.data[start..p + 1]);
      }
    }
  }

  /** Text behind the blank lines is text with them. */
  lemma VouchedWithBlanks(data: seq<byte>, start: nat, p: nat, v: nat, bnd: nat, end: Option<nat>)
    requires start <= p <= |data| && WellFormed(data[start..p]) && Vouched(data, p, v, bnd, end)
    ensures Vouched(data, start, v, bnd, end)
  {
    hide WellFormed;
    Concat(data[start..p], data[p..v]);
    assert data[start..v] == data[start..p] + data[p..v];
  }

  /** A pass that fails before its boundary fails in the same way without one. */
  lemma {:induction false} FailureIsRest(j: Job, pos: nat, bnd: nat, f: Flight, last: Option<nat>, m: Option<nat>)
    requires pos <= |j.data| && Scan(j, pos, bnd, f, last).Err?
    ensures Scan(j, pos, |j.data|, f, m) == Scan(j, pos, bnd, f, last)
    decreases |j.data| - pos
  {
    hide Records.Step, Verdict;
    if pos < |j.data| {
      match Records.Step(j, f, pos)
      case Blank => FailureIsRest(j, pos + 1, bnd, f, last, m);
      case Go(g) => FailureIsRest(j, pos + 1, bnd, g, last, m);
      case Close(_) => FailureIsRest(j, pos + 1, bnd, Fresh(pos + 1), Some(pos), Some(pos));
      case Fail(_) =>
    }
  }

  lemma BodyFailureIsRest(j: Job, start: nat, bnd: nat)
    requires start <= |j.data| && Body(j, start, bnd).Err?
    ensures Records.Rest(j, start) == Body(j, start, bnd)
  {
    hide Scan;
    BodyIsScan(j, start, bnd);
    FailureIsRest(j, start, bnd, Fresh(start), None, None);
  }

  /** The table does not look at what text is. */
  lemma {:induction false} NeverIllFormed(j: Job, pos: nat, bnd: nat, f: Flight, last: Option<nat>)
    requires pos <= |j.data|
    ensures var o := Scan(j, pos, bnd, f, last); o.Err? ==> !o.failure.IllFormed?
    decreases |j.data| - pos
  {
    hide Cell;
    if pos < |j.data| {
      match Records.Step(j, f, pos)
      case Blank => if pos < bnd { NeverIllFormed(j, pos + 1, bnd, f, last); }
      case Go(g) => NeverIllFormed(j, pos + 1, bnd, g, last);
      case Close(_) => if pos < bnd { NeverIllFormed(j, pos + 1, bnd, Fresh(pos + 1), Some(pos)); }
      case Fail(_) =>
    }
  }

  /** The table's own outcome fits, over bytes that are validated if they are text. */
  lemma BodyFits(j: Job, text: bool, start: nat, bnd: nat, v: nat)
    requires start <= |j.data|
    requires text && Body(j, start, bnd).Ok? ==> Vouched(j.data, start, v, bnd, Body(j, start, bnd).end)
    requires TextOut(text, j, HandedOut(Body(j, start, bnd)))
    ensures Exact(j, text, start, bnd, Body(j, start, bnd))
  {
    hide Body, Records.Rest, WellFormed, Vouched, TextOut, Scan;
    if Body(j, start, bnd).Err? {
      BodyFailureIsRest(j, start, bnd);
      BodyIsScan(j, start, bnd);
      NeverIllFormed(j, start, bnd, Fresh(start), None);
    }
    IsFit(j, text, start, bnd, Body(j, start, bnd), v);
    IsExact(j, text, start, bnd, Body(j, start, bnd));
  }

  lemma IsFit(j: Job, text: bool, start: nat, bnd: nat, o: Outcome, v: nat)
    requires start <= |j.data| && (o.Ok? ==> o == Body(j, start, bnd) && (text ==> Vouched(j.data, start, v, bnd, o.end)))
    requires o.Err? ==> (Records.Rest(j, start).Err? || (text && !WellFormed(j.data[start..]))) && o.records <= Records.Rest(j, start).records
    requires o.Err? && o.failure.IllFormed? ==> text && Stuck(j.data, start, o.failure.at)
    requires TextOut(text, j, HandedOut(o))
    ensures Fits(j, text, start, bnd, o)
  {
    hide Body, Records.Rest, WellFormed, Vouched, TextOut, HandedOut, Stuck;
  }

  lemma IsExact(j: Job, text: bool, start: nat, bnd: nat, o: Outcome)
    requires Fits(j, text, start, bnd, o)
    requires o == Body(j, start, bnd) || (text && o.Err? && o.failure.IllFormed?)
    ensures Exact(j, text, start, bnd, o)
  {
    hide Body, Fits, WellFormed;
  }

  /** What a pass hands out is among what the rest hands out. */
  lemma {:induction false} RecordsOfRest(j: Job, pos: nat, bnd: nat, f: Flight, last: Option<nat>, m: Option<nat>)
    requires pos <= |j.data|
    ensures Scan(j, pos, bnd, f, last).records <= Scan(j, pos, |j.data|, f, m).records
    decreases |j.data| - pos
  {
    hide Records.Step, Verdict;
    if pos < |j.data| {
      match Records.Step(j, f, pos)
      case Blank => if pos < bnd { RecordsOfRest(j, pos + 1, bnd, f, last, m); }
      case Go(g) => RecordsOfRest(j, pos + 1, bnd, g, last, m);
      case Close(_) => if pos < bnd { RecordsOfRest(j, pos + 1, bnd, Fresh(pos + 1), Some(pos), Some(pos)); }
      case Fail(_) =>
    }
  }
}
