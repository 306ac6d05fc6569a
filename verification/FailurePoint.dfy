/** The byte on which a scan of the whole input fails. */
module FailurePoint {
  import opened Dialect
  import opened Records

  /** The first byte that the table or the verdict on a record refuses; the input's length if none is, or if only its end is. */
  function FailAt(j: Job, pos: nat, f: Flight): (x: nat)
    requires pos <= |j.data|
    ensures pos <= x <= |j.data|
    decreases |j.data| - pos
  {
    if pos == |j.data| then pos
    else
      match Step(j, f, pos)
      case Blank => FailAt(j, pos + 1, f)
      case Go(g) => FailAt(j, pos + 1, g)
      case Close(_) => FailAt(j, pos + 1, Fresh(pos + 1))
      case Fail(_) => pos
  }

  /** A scan that succeeds refuses no byte. */
  lemma {:induction false} SuccessRefusesNothing(j: Job, pos: nat, f: Flight, last: Option<nat>)
    requires pos <= |j.data| && Scan(j, pos, |j.data|, f, last).Ok?
    ensures FailAt(j, pos, f) == |j.data|
    decreases |j.data| - pos
  {
    hide Step;
    if pos < |j.data| {
      match Step(j, f, pos)
      case Blank => SuccessRefusesNothing(j, pos + 1, f, last);
      case Go(g) => SuccessRefusesNothing(j, pos + 1, g, last);
      case Close(_) => SuccessRefusesNothing(j, pos + 1, Fresh(pos + 1), Some(pos));
      case Fail(_) =>
    }
  }

  lemma {:induction false} AnchorRefusesNothing(j: Job, pos: nat, f: Flight, g: Flight)
    requires pos <= |j.data|
    requires g == f.(recordIn := g.recordIn, fieldIn := g.fieldIn)
    ensures FailAt(j, pos, f) == FailAt(j, pos, g)
    decreases |j.data| - pos
  {
    if pos < |j.data| {
      SameMove(j, f, g, pos);
      hide Step;
      match (Step(j, f, pos), Step(j, g, pos))
      case (Blank, Blank) => AnchorRefusesNothing(j, pos + 1, f, g);
      case (Go(x), Go(y)) => AnchorRefusesNothing(j, pos + 1, x, y);
      case _ =>
    }
  }

  /** Where a record began decides nothing but what its failure reports. */
  lemma SameMove(j: Job, f: Flight, g: Flight, pos: nat)
    requires pos < |j.data| && g == f.(recordIn := g.recordIn, fieldIn := g.fieldIn)
    ensures var m, n := Step(j, f, pos), Step(j, g, pos);
            && (m.Blank? <==> n.Blank?) && (m.Go? <==> n.Go?) && (m.Close? ==> n == m) && (m.Fail? <==> n.Fail?)
            && (m.Go? ==> n.flight == m.flight.(recordIn := n.flight.recordIn, fieldIn := n.flight.fieldIn))
  {
  }

  /** A terminator between records is passed over. */
  lemma PastTerminator(j: Job, e: nat)
    requires e < |j.data| && j.cfg.IsTerm(j.data[e])
    ensures FailAt(j, e, Fresh(e)) == FailAt(j, e + 1, Fresh(e + 1)) > e
  {
    AnchorRefusesNothing(j, e + 1, Fresh(e), Fresh(e + 1));
  }

  /** A pass that stopped at its boundary left the failing byte where it is. */
  lemma {:induction false} FailureBehind(j: Job, pos: nat, b: nat, f: Flight, last: Option<nat>)
    requires pos <= |j.data| && Idle(f) && (last.Some? ==> last.value < b)
    requires var o := Scan(j, pos, b, f, last); o.Ok? && o.end.Some? && b <= o.end.value < |j.data|
    ensures var e := Scan(j, pos, b, f, last).end.value; FailAt(j, pos, f) == FailAt(j, e, Fresh(e))
    decreases |j.data| - pos
  {
    StepShapes(j, pos, f);
    hide Step;
    if pos < |j.data| {
      match Step(j, f, pos)
      case Blank =>
        if b <= pos {
          BlankIsIdle(j, f, pos);
          AnchorRefusesNothing(j, pos, f, Fresh(pos));
        } else {
          FailureBehind(j, pos + 1, b, f, last);
        }
      case Go(g) => FailureBehind(j, pos + 1, b, g, last);
      case Close(_) =>
        if b <= pos {
          PastTerminator(j, pos);
        } else {
          FailureBehind(j, pos + 1, b, Fresh(pos + 1), Some(pos));
        }
      case Fail(_) =>
    }
  }

  lemma StepShapes(j: Job, pos: nat, f: Flight)
    requires pos <= |j.data| && Idle(f)
    ensures pos < |j.data| ==>
              var m := Step(j, f, pos); (m.Go? ==> Idle(m.flight)) && (m.Close? || m.Blank? ==> j.cfg.IsTerm(j.data[pos]))
    ensures Idle(Fresh(pos + 1))
  {
    if pos < |j.data| {
      StepShape(j, f, pos);
    }
  }

  /** A pass whose boundary has a record end behind it, before the failing byte, succeeds. */
  lemma {:induction false} StopsBeforeFailure(j: Job, from: nat, pos: nat, b: nat, f: Flight, last: Option<nat>, n: nat)
    requires OnPath(j, from, pos, f) && pos <= n < FailAt(j, pos, f) && b <= n && EndsHere(j.cfg, j.data, from, n)
    ensures Scan(j, pos, b, f, last).Ok?
    decreases |j.data| - pos
  {
    hide Step, Verdict, StateAt, EndsHere;
    StepOnPath(j, from, pos, f);
    match Step(j, f, pos)
    case Blank => if pos < b { StopsBeforeFailure(j, from, pos + 1, b, f, last, n); }
    case Go(g) => StopsBeforeFailure(j, from, pos + 1, b, g, last, n);
    case Close(_) => if pos < b { StopsBeforeFailure(j, from, pos + 1, b, Fresh(pos + 1), Some(pos), n); }
    case Fail(_) =>
  }
}
