/** What a walk hands to the accumulator before it reaches an offset. */
module Handed {
  import opened Dialect
  import opened Dfa
  import opened Records

  /** The record the accumulator refused; it was handed out, too. */
  function Refused(o: Outcome): seq<Record> {
    if o.Err? && o.failure.Rejected? then [o.failure.record] else []
  }

  function HandedOut(o: Outcome): seq<Record> {
    o.records + Refused(o)
  }

  /** The records handed out before byte `v`, whatever follows; at the end of the input the open one as well. */
  function Offered(j: Job, pos: nat, v: nat, f: Flight): seq<Record>
    requires pos <= v <= |j.data|
    decreases v - pos
  {
    if pos == |j.data| then HandedOut(Finish(j, f, None))
    else if pos == v then []
    else
      match Step(j, f, pos)
      case Blank => Offered(j, pos + 1, v, f)
      case Go(g) => Offered(j, pos + 1, v, g)
      case Close(r) => [r] + Offered(j, pos + 1, v, Fresh(pos + 1))
      case Fail(e) => HandedOut(Err([], e))
  }

  lemma {:induction false} OfferedGrows(j: Job, pos: nat, v: nat, w: nat, f: Flight)
    requires pos <= v <= w <= |j.data|
    ensures Offered(j, pos, v, f) <= Offered(j, pos, w, f)
    decreases v - pos
  {
    hide Step, Finish;
    if pos < v {
      match Step(j, f, pos)
      case Blank => OfferedGrows(j, pos + 1, v, w, f);
      case Go(g) => OfferedGrows(j, pos + 1, v, w, g);
      case Close(_) => OfferedGrows(j, pos + 1, v, w, Fresh(pos + 1));
      case Fail(_) =>
    }
  }

  /** A pass hands out no more than the walk to the end of the input. */
  lemma {:induction false} AllOffered(j: Job, pos: nat, bnd: nat, f: Flight, last: Option<nat>)
    requires pos <= |j.data|
    ensures HandedOut(Scan(j, pos, bnd, f, last)) <= Offered(j, pos, |j.data|, f)
    decreases |j.data| - pos
  {
    hide Step, Verdict;
    if pos < |j.data| {
      match Step(j, f, pos)
      case Blank => if pos < bnd { AllOffered(j, pos + 1, bnd, f, last); }
      case Go(g) => AllOffered(j, pos + 1, bnd, g, last);
      case Close(r) => if pos < bnd { AllOffered(j, pos + 1, bnd, Fresh(pos + 1), Some(pos)); }
      case Fail(_) =>
    }
  }

  /** A successful scan ends no earlier than it stands, unless it yields nothing. */
  lemma {:induction false} EndsNoEarlier(j: Job, pos: nat, bnd: nat, f: Flight, last: Option<nat>)
    requires pos <= |j.data|
    ensures var o := Scan(j, pos, bnd, f, last);
            o.Ok? && o.records != [] ==> o.end.Some? && o.end.value >= pos
    decreases |j.data| - pos
  {
    hide Step, Verdict;
    if pos < |j.data| {
      match Step(j, f, pos)
      case Blank => if pos < bnd { EndsNoEarlier(j, pos + 1, bnd, f, last); }
      case Go(g) => EndsNoEarlier(j, pos + 1, bnd, g, last);
      case Close(_) => if pos < bnd { EndsNoEarlier(j, pos + 1, bnd, Fresh(pos + 1), Some(pos)); EndKept(j, pos + 1, bnd, Fresh(pos + 1), pos); }
      case Fail(_) =>
    }
  }

  lemma {:induction false} EndKept(j: Job, pos: nat, bnd: nat, f: Flight, last: nat)
    requires pos <= |j.data| && last <= pos
    ensures var o := Scan(j, pos, bnd, f, Some(last)); o.Ok? ==> o.end.Some? && o.end.value >= last
    decreases |j.data| - pos
  {
    hide Step, Verdict;
    if pos < |j.data| {
      match Step(j, f, pos)
      case Blank => if pos < bnd { EndKept(j, pos + 1, bnd, f, last); }
      case Go(g) => EndKept(j, pos + 1, bnd, g, last);
      case Close(_) => if pos < bnd { EndKept(j, pos + 1, bnd, Fresh(pos + 1), pos); }
      case Fail(_) =>
    }
  }

  /** A pass that ended before `v` handed everything out before `v`. */
  lemma {:induction false} EndedBefore(j: Job, pos: nat, v: nat, bnd: nat, f: Flight, last: Option<nat>)
    requires pos <= v <= |j.data|
    requires var o := Scan(j, pos, bnd, f, last); o.Ok? && o.end.Some? && o.end.value < v
    ensures Scan(j, pos, bnd, f, last).records <= Offered(j, pos, v, f)
    decreases v - pos
  {
    hide Step, Verdict;
    EndsNoEarlier(j, pos, bnd, f, last);
    if pos < v {
      match Step(j, f, pos)
      case Blank => if pos < bnd { EndedBefore(j, pos + 1, v, bnd, f, last); }
      case Go(g) => EndedBefore(j, pos + 1, v, bnd, g, last);
      case Close(_) => if pos < bnd { EndedBefore(j, pos + 1, v, bnd, Fresh(pos + 1), Some(pos)); }
      case Fail(_) =>
    }
  }

  /** One step follows the table's state, comments included. */
  lemma StepTracks(j: Job, from: nat, pos: nat, f: Flight)
    requires from <= pos < |j.data| && f.state == StateAt(j.cfg, j.data, from, pos) && Idle(f)
    ensures var m, s := Step(j, f, pos), StateAt(j.cfg, j.data, from, pos + 1);
            && (m.Blank? ==> s == f.state)
            && (m.Go? ==> s == m.flight.state && Idle(m.flight))
            && (m.Close? ==> s == RecordStart)
  {
    StepShape(j, f, pos);
  }

  /**
   * Where the walk stands on a record start, what was handed out so far was handed out before
   * that: `done`, if what remains of the scan from there completes it to the whole.
   */
  lemma {:induction false} Landed(j: Job, from: nat, pos: nat, p: nat, bnd: nat, f: Flight, last: Option<nat>, last2: Option<nat>, done: seq<Record>)
    requires from <= pos <= p <= |j.data| && f.state == StateAt(j.cfg, j.data, from, pos) && Idle(f)
    requires StateAt(j.cfg, j.data, from, p) == RecordStart
    requires Scan(j, pos, bnd, f, last) == Prepend(done, Scan(j, p, bnd, Fresh(p), last2))
    ensures done <= Offered(j, pos, p, f)
    decreases p - pos
  {
    hide Step, StateAt;
    if pos == p {
      SameStart(j, p, bnd, f, last, last2);
      assert |done| == 0;
    } else {
      StepTracks(j, from, pos, f);
      match Step(j, f, pos)
      case Blank => if pos < bnd { Landed(j, from, pos + 1, p, bnd, f, last, last2, done); }
      case Go(g) => Landed(j, from, pos + 1, p, bnd, g, last, last2, done);
      case Close(r) =>
        var rest := Scan(j, p, bnd, Fresh(p), last2);
        if done != [] {
          assert (done + rest.records)[0] == done[0] == r;
          if pos < bnd {
            WithoutFirst(r, Scan(j, pos + 1, bnd, Fresh(pos + 1), Some(pos)), done, rest);
            Landed(j, from, pos + 1, p, bnd, Fresh(pos + 1), Some(pos), last2, done[1..]);
          }
        }
      case Fail(_) =>
    }
  }

  lemma SameStart(j: Job, p: nat, bnd: nat, f: Flight, last: Option<nat>, last2: Option<nat>)
    requires p <= |j.data| && f.state.RecordStart? && Idle(f)
    ensures SameYield(Scan(j, p, bnd, f, last), Scan(j, p, bnd, Fresh(p), last2))
  {
    AnchorIrrelevant(j, p, bnd, f, Fresh(p), last);
    LastIrrelevant(j, p, bnd, Fresh(p), last, last2);
  }

  lemma WithoutFirst(r: Record, o: Outcome, done: seq<Record>, rest: Outcome)
    requires done != [] && done[0] == r && Prepend([r], o) == Prepend(done, rest)
    ensures o == Prepend(done[1..], rest)
  {
    assert [r] + o.records == done + rest.records;
    assert o.records == ([r] + o.records)[1..] == (done + rest.records)[1..] == done[1..] + rest.records;
  }

  /** A record refused at or before the terminator `x`, when all accepted ones closed before that, was handed out there. */
  lemma {:induction false} RefusedBy(j: Job, from: nat, pos: nat, x: nat, bnd: nat, f: Flight, last: Option<nat>)
    requires from <= pos <= x < |j.data| && f.state == StateAt(j.cfg, j.data, from, pos) && Idle(f)
    requires Cell(j.cfg, StateAt(j.cfg, j.data, from, x), j.data[x]).next.RecordEnd?
    requires var o := Scan(j, pos, bnd, f, last); o.Err? && o.failure.Rejected? && o.records <= Offered(j, pos, x, f)
    ensures HandedOut(Scan(j, pos, bnd, f, last)) <= Offered(j, pos, x + 1, f)
    decreases x - pos
  {
    hide StateAt, Cell;
    if pos == x {
      EndsThere(j, f, pos);
      hide Step;
      match Step(j, f, pos)
      case Close(_) =>
      case Fail(_) =>
    } else {
      StepTracks(j, from, pos, f);
      hide Step;
      match Step(j, f, pos)
      case Blank => RefusedBy(j, from, pos + 1, x, bnd, f, last);
      case Go(g) => RefusedBy(j, from, pos + 1, x, bnd, g, last);
      case Close(r) =>
        ConsPrefix(r, Scan(j, pos + 1, bnd, Fresh(pos + 1), Some(pos)).records, Offered(j, pos + 1, x, Fresh(pos + 1)));
        RefusedBy(j, from, pos + 1, x, bnd, Fresh(pos + 1), Some(pos));
      case Fail(_) =>
    }
  }

  lemma ConsPrefix(r: Record, a: seq<Record>, b: seq<Record>)
    requires [r] + a <= [r] + b
    ensures a <= b
  {
    assert a == ([r] + a)[1..] && b == ([r] + b)[1..];
  }

  lemma EndsThere(j: Job, f: Flight, pos: nat)
    requires pos < |j.data| && Cell(j.cfg, f.state, j.data[pos]).next.RecordEnd?
    ensures Step(j, f, pos).Close? || Step(j, f, pos).Fail?
  {
  }

  /**
   * On a walk from `o`, `done` was handed out before `pos`, where the table is in state `s` and
   * `rest` remains.
   */
  ghost predicate Told(j: Job, o: nat, bnd: nat, done: seq<Record>, rest: Outcome, s: State, pos: nat) {
    && o <= pos <= |j.data| && s == StateAt(j.cfg, j.data, o, pos)
    && Scan(j, o, bnd, Fresh(o), None) == Prepend(done, rest)
    && done <= Offered(j, o, pos, Fresh(o))
  }

  lemma ToldFirst(j: Job, o: nat, bnd: nat)
    requires o <= |j.data|
    ensures Told(j, o, bnd, [], Scan(j, o, bnd, Fresh(o), None), RecordStart, o)
  {
    PrependNothing(Scan(j, o, bnd, Fresh(o), None));
  }

  lemma ToldIs(j: Job, o: nat, bnd: nat, done: seq<Record>, rest: Outcome, s: State, pos: nat)
    requires Told(j, o, bnd, done, rest, s, pos)
    ensures o <= pos <= |j.data| && s == StateAt(j.cfg, j.data, o, pos)
    ensures Scan(j, o, bnd, Fresh(o), None) == Prepend(done, rest) && done <= Offered(j, o, pos, Fresh(o))
  {
  }

  /** Bytes over which the table keeps its state. */
  predicate Stays(c: Config, s: State, b: byte) {
    Settle(Cell(c, s, b).next) == s
  }

  lemma {:induction false} StateStays(c: Config, data: seq<byte>, from: nat, p: nat, q: nat)
    requires from <= p <= q <= |data| && forall i :: p <= i < q ==> Stays(c, StateAt(c, data, from, p), data[i])
    ensures StateAt(c, data, from, q) == StateAt(c, data, from, p)
    decreases q - p
  {
    hide Cell;
    if p < q {
      StateStays(c, data, from, p, q - 1);
    }
  }

  lemma ToldOver(j: Job, o: nat, bnd: nat, done: seq<Record>, rest: Outcome, s: State, p: nat, q: nat)
    requires Told(j, o, bnd, done, rest, s, p) && p <= q <= |j.data| && forall i :: p <= i < q ==> Stays(j.cfg, s, j.data[i])
    ensures Told(j, o, bnd, done, rest, s, q)
  {
    hide Scan, Offered;
    StateStays(j.cfg, j.data, o, p, q);
    OfferedGrows(j, o, p, q, Fresh(o));
  }

  lemma ToldByte(j: Job, o: nat, bnd: nat, done: seq<Record>, rest: Outcome, s: State, p: nat)
    requires Told(j, o, bnd, done, rest, s, p) && p < |j.data|
    ensures Told(j, o, bnd, done, rest, Settle(Cell(j.cfg, s, j.data[p]).next), p + 1)
  {
    hide Scan, Offered, Cell, Settle;
    OfferedGrows(j, o, p, p + 1, Fresh(o));
  }

  /** At a record start everything handed out so far was handed out before it. */
  lemma ToldClose(j: Job, o: nat, bnd: nat, done: seq<Record>, more: seq<Record>, before: Outcome, s: State, p: nat, f: Flight, last: Option<nat>)
    requires Told(j, o, bnd, done, before, s, p) && p < |j.data| && Settle(Cell(j.cfg, s, j.data[p]).next) == RecordStart
    requires f.state.RecordStart? && Idle(f) && before == Prepend(more, Scan(j, p + 1, bnd, f, last))
    ensures Told(j, o, bnd, done + more, Scan(j, p + 1, bnd, f, last), RecordStart, p + 1)
  {
    hide Offered, Cell, Settle;
    AnchorIrrelevant(j, p + 1, bnd, f, Fresh(p + 1), last);
    hide Scan;
    PrependTwice(done, more, Scan(j, p + 1, bnd, f, last));
    Landed(j, o, o, p + 1, bnd, Fresh(o), None, last, done + more);
  }

  /** What a pass that ended or failed by byte `p` handed out. */
  lemma ToldEnd(j: Job, o: nat, bnd: nat, done: seq<Record>, more: seq<Record>, e: nat, s: State, p: nat, v: nat)
    requires Told(j, o, bnd, done, Ok(more, Some(e)), s, p) && e < v <= |j.data| && p <= v
    ensures done + more <= Offered(j, o, v, Fresh(o))
  {
    hide Offered, Scan;
    EndedBefore(j, o, v, bnd, Fresh(o), None);
  }

  lemma ToldFailure(j: Job, o: nat, bnd: nat, done: seq<Record>, e: Failure, s: State, p: nat)
    requires Told(j, o, bnd, done, Err([], e), s, p) && p < |j.data|
    requires e.Rejected? ==> Cell(j.cfg, s, j.data[p]).next.RecordEnd?
    ensures HandedOut(Err(done, e)) <= Offered(j, o, p + 1, Fresh(o))
  {
    hide Offered, Scan, Cell;
    assert done + [] == done;
    OfferedGrows(j, o, p, p + 1, Fresh(o));
    if e.Rejected? {
      RefusedBy(j, o, o, p, bnd, Fresh(o), None);
    }
  }

  /** At the end of the input whatever the pass handed out was. */
  lemma ToldAll(j: Job, o: nat, bnd: nat)
    requires o <= |j.data|
    ensures HandedOut(Scan(j, o, bnd, Fresh(o), None)) <= Offered(j, o, |j.data|, Fresh(o))
  {
    AllOffered(j, o, bnd, Fresh(o), None);
  }

  lemma OnlyRecords(records: seq<Record>, e: Failure)
    requires !e.Rejected?
    ensures HandedOut(Err(records, e)) == records
  {
  }

  /** How many records the bytes from `lo` up to `hi` close, on a walk from `from`. */
  function Closings(j: Job, from: nat, lo: nat, hi: nat): nat
    requires from <= lo <= hi <= |j.data|
    decreases hi - lo
  {
    if lo == hi then 0
    else (if Cell(j.cfg, StateAt(j.cfg, j.data, from, lo), j.data[lo]).next.RecordEnd? then 1 else 0) + Closings(j, from, lo + 1, hi)
  }

  lemma {:induction false} ClosingsSplit(j: Job, from: nat, lo: nat, mid: nat, hi: nat)
    requires from <= lo <= mid <= hi <= |j.data|
    ensures Closings(j, from, lo, hi) == Closings(j, from, lo, mid) + Closings(j, from, mid, hi)
    decreases mid - lo
  {
    hide Cell, StateAt;
    if lo < mid {
      ClosingsSplit(j, from, lo + 1, mid, hi);
    }
  }

  /** A failure behind some of the scan's records; a refused record is the scan's own. */
  predicate BreaksOff(whole: Outcome, emitted: seq<Record>, e: Failure) {
    emitted <= whole.records && (e.Rejected? ==> whole == Err(emitted, e))
  }

  /** What a broken-off pass handed out was handed out before `v`, if that many records close before it. */
  lemma {:induction false} ClosedInTime(j: Job, from: nat, pos: nat, v: nat, bnd: nat, f: Flight, last: Option<nat>, emitted: seq<Record>, e: Failure)
    requires from <= pos <= v <= |j.data| && f.state == StateAt(j.cfg, j.data, from, pos) && Idle(f)
    requires BreaksOff(Scan(j, pos, bnd, f, last), emitted, e)
    requires |HandedOut(Err(emitted, e))| <= Closings(j, from, pos, v)
    ensures HandedOut(Err(emitted, e)) <= Offered(j, pos, v, f)
    decreases v - pos
  {
    hide StateAt, Cell, Finish;
    if pos < v {
      StepTracks(j, from, pos, f);
      StepCloses(j, from, pos, f);
      hide Step;
      match Step(j, f, pos)
      case Blank => if pos < bnd { ClosedInTime(j, from, pos + 1, v, bnd, f, last, emitted, e); }
      case Go(g) => ClosedInTime(j, from, pos + 1, v, bnd, g, last, emitted, e);
      case Close(r) =>
        if emitted != [] && pos < bnd {
          assert emitted[0] == r;
          BreaksOffLater(r, Scan(j, pos + 1, bnd, Fresh(pos + 1), Some(pos)), emitted, e);
          ClosedInTime(j, from, pos + 1, v, bnd, Fresh(pos + 1), Some(pos), emitted[1..], e);
        }
      case Fail(_) =>
    }
  }

  /** By the end of the input every record closes. */
  lemma OfferedByTheEnd(j: Job, pos: nat, bnd: nat, f: Flight, last: Option<nat>, emitted: seq<Record>, e: Failure)
    requires pos <= |j.data| && BreaksOff(Scan(j, pos, bnd, f, last), emitted, e)
    ensures HandedOut(Err(emitted, e)) <= Offered(j, pos, |j.data|, f)
  {
    hide Scan, Offered;
    AllOffered(j, pos, bnd, f, last);
  }

  lemma StepCloses(j: Job, from: nat, pos: nat, f: Flight)
    requires from <= pos < |j.data| && f.state == StateAt(j.cfg, j.data, from, pos)
    ensures Cell(j.cfg, StateAt(j.cfg, j.data, from, pos), j.data[pos]).next.RecordEnd? ==> Step(j, f, pos).Close? || Step(j, f, pos).Fail?
  {
  }

  lemma BreaksOffLater(r: Record, o: Outcome, emitted: seq<Record>, e: Failure)
    requires emitted != [] && emitted[0] == r && BreaksOff(Prepend([r], o), emitted, e)
    ensures BreaksOff(o, emitted[1..], e)
    ensures HandedOut(Err(emitted, e)) == [r] + HandedOut(Err(emitted[1..], e))
  {
    assert emitted == [r] + emitted[1..];
    ConsPrefix(r, emitted[1..], o.records);
    if e.Rejected? {
      assert [r] + o.records == emitted;
      assert o.records == ([r] + o.records)[1..];
    }
  }
}
