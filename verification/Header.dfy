/** Where the header ends: on the terminator that closes the first record, read as the user's dialect has it. */
module Header {
  import opened Dialect
  import opened Dfa
  import opened Records
  import opened Handed
  import opened Chunk
  import opened ParallelRun

  /** The walk from the start of the input gets from `pos` to `h` without closing a record or refusing a byte. */
  ghost predicate Quiet(c: Config, data: seq<byte>, pos: nat, h: nat)
    requires h <= |data|
  {
    forall p :: pos <= p < h ==> var s := Cell(c, StateAt(c, data, 0, p), data[p]).next; !s.RecordEnd? && !s.Error?
  }

  /** The first record of the input is closed at `h`. */
  ghost predicate ClosesFirst(c: Config, data: seq<byte>, h: nat) {
    h < |data| && Quiet(c, data, 0, h) && Cell(c, StateAt(c, data, 0, h), data[h]).next.RecordEnd?
  }

  /** The same input, every record of any width welcome. */
  function Lenient(j: Job): Job {
    Job(j.cfg.(fieldCount := None), j.data, (r: Record) => true)
  }

  /** The search from the walk's state stops where the walk first closes a record. */
  lemma {:induction false} FindIsFirst(c: Config, data: seq<byte>, pos: nat, bnd: nat, h: nat)
    requires pos <= |data|
    ensures Find(c, data, pos, bnd, StateAt(c, data, 0, pos), false) == At(h)
            <==> pos <= h < |data| && h < bnd && Quiet(c, data, pos, h) && Cell(c, StateAt(c, data, 0, h), data[h]).next.RecordEnd?
    decreases |data| - pos
  {
    hide Cell, Settle, StateAt;
    if pos < |data| && pos < bnd {
      WalkOn(c, data, pos);
      FindIsFirst(c, data, pos + 1, bnd, h);
      if pos < h < |data| {
        QuietStep(c, data, pos, h);
      }
    }
  }

  lemma WalkOn(c: Config, data: seq<byte>, pos: nat)
    requires pos < |data|
    ensures StateAt(c, data, 0, pos + 1) == Settle(Cell(c, StateAt(c, data, 0, pos), data[pos]).next)
  {
  }

  lemma QuietStep(c: Config, data: seq<byte>, pos: nat, h: nat)
    requires pos < h <= |data|
    ensures Quiet(c, data, pos, h) <==>
      var s := Cell(c, StateAt(c, data, 0, pos), data[pos]).next; !s.RecordEnd? && !s.Error? && Quiet(c, data, pos + 1, h)
  {
    hide Cell, StateAt;
  }

  /** The field count has no part in the walk. */
  lemma {:induction false} SameWalk(c: Config, data: seq<byte>, p: nat)
    requires p <= |data|
    ensures StateAt(c.(fieldCount := None), data, 0, p) == StateAt(c, data, 0, p)
    decreases p
  {
    if p > 0 {
      SameWalk(c, data, p - 1);
      SameCell(c, StateAt(c, data, 0, p - 1), data[p - 1]);
      hide Cell;
    }
  }

  lemma SameCell(c: Config, s: State, b: byte)
    ensures Cell(c.(fieldCount := None), s, b) == Cell(c, s, b)
  {
  }

  /** The one record up to `h`, and what follows it. */
  lemma {:induction false} OneRecord(k: Job, pos: nat, f: Flight, h: nat) returns (r: Record)
    requires k.cfg.fieldCount.None? && (forall x :: k.accept(x)) && pos <= h < |k.data|
    requires f.state == StateAt(k.cfg, k.data, 0, pos) && Idle(f) && Quiet(k.cfg, k.data, pos, h)
    requires Cell(k.cfg, StateAt(k.cfg, k.data, 0, h), k.data[h]).next.RecordEnd?
    ensures Scan(k, pos, |k.data|, f, None) == Prepend([r], Scan(k, h + 1, |k.data|, Fresh(h + 1), Some(h)))
    decreases h - pos
  {
    hide StateAt, Cell;
    StepTracks(k, 0, pos, f);
    QuietMove(k, pos, f);
    hide Step;
    if pos == h {
      r := Step(k, f, pos).record;
    } else {
      QuietStep(k.cfg, k.data, pos, h);
      match Step(k, f, pos)
      case Blank => r := OneRecord(k, pos + 1, f, h);
      case Go(g) => r := OneRecord(k, pos + 1, g, h);
    }
  }

  lemma QuietMove(k: Job, pos: nat, f: Flight)
    requires k.cfg.fieldCount.None? && (forall x :: k.accept(x)) && pos < |k.data| && f.state == StateAt(k.cfg, k.data, 0, pos)
    ensures var s, m := Cell(k.cfg, StateAt(k.cfg, k.data, 0, pos), k.data[pos]).next, Step(k, f, pos);
            && (s.RecordEnd? ==> m.Close?) && (!s.RecordEnd? && !s.Error? ==> m.Blank? || m.Go?)
  {
  }

  /**
   * For every valid dialect, comments included: the header ends in chunk 0 exactly if the terminator
   * that closes the first record lies there, and then at that terminator. One record comes before
   * it, and the run's records are what comes behind.
   */
  lemma HeaderIsFirstRecord(j: Job, size: nat, h: nat)
    requires j.cfg.Valid()
    ensures HeaderInFirstChunk(j, size, true, h) <==> h < size && ClosesFirst(j.cfg, j.data, h)
    ensures ClosesFirst(j.cfg, j.data, h) ==>
      var k := Lenient(j); h < |j.data| && j.cfg.IsTerm(j.data[h]) && exists r :: SameYield(Rest(k, 0), Prepend([r], Rest(k, h)))
  {
    FindIsFirst(j.cfg, j.data, 0, Min(size, |j.data|), h);
    if ClosesFirst(j.cfg, j.data, h) {
      var k := Lenient(j);
      forall p | 0 <= p <= h ensures StateAt(k.cfg, j.data, 0, p) == StateAt(j.cfg, j.data, 0, p) {
        SameWalk(j.cfg, j.data, p);
      }
      forall s, b ensures Cell(k.cfg, s, b) == Cell(j.cfg, s, b) {
        SameCell(j.cfg, s, b);
      }
      EndsOnTerminator(j.cfg, StateAt(j.cfg, j.data, 0, h), j.data[h]);
      hide Cell, StateAt, Scan;
      var r := OneRecord(k, 0, Fresh(0), h);
      AtTerminator(k, h, |j.data|, Some(h));
      FollowedBy(Rest(k, 0), r, Scan(k, h + 1, |j.data|, Fresh(h + 1), Some(h)), Rest(k, h));
    }
  }

  lemma FollowedBy(w: Outcome, r: Record, o: Outcome, rest: Outcome)
    requires w == Prepend([r], o) && SameYield(rest, o)
    ensures SameYield(w, Prepend([r], rest))
  {
  }

  lemma EndsOnTerminator(c: Config, s: State, b: byte)
    requires Cell(c, s, b).next.RecordEnd?
    ensures c.IsTerm(b)
  {
  }
}
