/** Fields kept as ranges of a buffer that is compacted while it is read. */
module InPlace {
  import opened Dialect
  import opened Dfa
  import opened Records
  import opened Runs

  /** A range of the buffer: offset and length. */
  type Span = (nat, nat)

  /** The stepper's cursors as absolute offsets. */
  datatype Cursor = Cursor(
    state: State,
    fieldStart: nat,
    writePos: nat,
    recordStart: nat,
    spans: seq<Span>,
    recordIn: nat,
    fieldIn: nat)

  function Bytes(m: seq<byte>, s: Span): seq<byte>
    requires s.0 + s.1 <= |m|
  {
    m[s.0..s.0 + s.1]
  }

  function Fields(m: seq<byte>, spans: seq<Span>): (fields: seq<Field>)
    requires forall s :: s in spans ==> s.0 + s.1 <= |m|
    ensures |fields| == |spans| && forall i :: 0 <= i < |spans| ==> fields[i] == Bytes(m, spans[i])
  {
    seq(|spans|, i requires 0 <= i < |spans| => Bytes(m, spans[i]))
  }

  /** Closed fields are ascending and disjoint, in front of the open field, which is in front of the read position. */
  ghost predicate Layout(c: Cursor, pos: nat) {
    && c.recordStart <= c.fieldStart <= c.writePos <= pos
    && (forall i, k :: 0 <= i < k < |c.spans| ==> c.spans[i].0 + c.spans[i].1 <= c.spans[k].0)
    && (forall s :: s in c.spans ==> c.recordStart <= s.0 && s.0 + s.1 <= c.fieldStart)
    && (c.state.RecordStart? || c.state.InComment? ==> c.spans == [] && c.fieldStart == c.writePos)
  }

  /** Unread bytes are the input's. */
  ghost predicate Unread(m: seq<byte>, data: seq<byte>, pos: nat) {
    |m| == |data| && pos <= |m| && m[pos..] == data[pos..]
  }

  /** The record in flight that the buffer and the cursors stand for. */
  function View(m: seq<byte>, c: Cursor, pos: nat): Flight
    requires Layout(c, pos) && pos <= |m|
  {
    Flight(c.state, Fields(m, c.spans), m[c.fieldStart..c.writePos], c.recordIn, c.fieldIn)
  }

  /** Writing one byte behind the read position extends the open field and nothing else. */
  lemma WriteByte(m: seq<byte>, data: seq<byte>, c: Cursor, pos: nat, b: byte, s: State)
    requires Unread(m, data, pos) && Layout(c, pos) && pos < |m|
    requires !s.RecordStart? && !s.InComment?
    ensures var n := m[c.writePos := b];
            var d := c.(state := s, writePos := c.writePos + 1);
            && Unread(n, data, pos + 1) && Layout(d, pos + 1)
            && View(n, d, pos + 1) == View(m, c, pos).(state := s, cur := View(m, c, pos).cur + [b])
  {
    var n := m[c.writePos := b];
    var d := c.(state := s, writePos := c.writePos + 1);
    assert n[pos + 1..] == m[pos..][1..] == data[pos..][1..];
    assert n[c.fieldStart..c.writePos + 1] == m[c.fieldStart..c.writePos] + [b];
    assert Fields(n, d.spans) == Fields(m, c.spans) by {
      forall i | 0 <= i < |c.spans| ensures Bytes(n, c.spans[i]) == Bytes(m, c.spans[i]) {
        assert c.spans[i] in c.spans;
      }
    }
  }

  lemma SkipByte(m: seq<byte>, data: seq<byte>, c: Cursor, pos: nat, s: State)
    requires Unread(m, data, pos) && Layout(c, pos) && pos < |m|
    requires s.RecordStart? || s.InComment? ==> c.spans == [] && c.fieldStart == c.writePos
    ensures var d := c.(state := s);
            && Unread(m, data, pos + 1) && Layout(d, pos + 1)
            && View(m, d, pos + 1) == View(m, c, pos).(state := s)
  {
    assert m[pos + 1..] == m[pos..][1..] == data[pos..][1..];
  }

  lemma FieldsAppend(m: seq<byte>, spans: seq<Span>, s: Span)
    requires (forall t :: t in spans ==> t.0 + t.1 <= |m|) && s.0 + s.1 <= |m|
    ensures forall t :: t in spans + [s] ==> t.0 + t.1 <= |m|
    ensures Fields(m, spans + [s]) == Fields(m, spans) + [Bytes(m, s)]
  {
  }

  function Closed(c: Cursor, pos: nat): Cursor
    requires c.fieldStart <= c.writePos
  {
    c.(state := FieldStart, spans := c.spans + [(c.fieldStart, c.writePos - c.fieldStart)],
       fieldStart := pos, writePos := pos, fieldIn := pos)
  }

  lemma ClosedLayout(c: Cursor, pos: nat)
    requires Layout(c, pos)
    ensures Layout(Closed(c, pos), pos)
  {
    var last := (c.fieldStart, c.writePos - c.fieldStart);
    var spans := Closed(c, pos).spans;
    forall s | s in spans ensures c.recordStart <= s.0 && s.0 + s.1 <= c.writePos {
      assert s in c.spans || s == last;
    }
    forall i, k | 0 <= i < k < |spans|
      ensures spans[i].0 + spans[i].1 <= spans[k].0
    {
      assert spans[i] == c.spans[i] && c.spans[i] in c.spans;
      if k == |c.spans| {
        assert spans[k] == last;
      } else {
        assert spans[k] == c.spans[k];
      }
    }
  }

  /** Closing the open field turns it into a span; the next one starts empty at `pos`. */
  lemma CloseField(m: seq<byte>, c: Cursor, pos: nat)
    requires Layout(c, pos) && pos <= |m|
    ensures var f := View(m, c, pos);
            && Layout(Closed(c, pos), pos)
            && View(m, Closed(c, pos), pos) == Flight(FieldStart, f.fields + [f.cur], [], f.recordIn, pos)
  {
    ClosedLayout(c, pos);
    hide Bytes;
    forall s | s in c.spans ensures s.0 + s.1 <= |m| {
    }
    FieldsAppend(m, c.spans, (c.fieldStart, c.writePos - c.fieldStart));
    assert Bytes(m, (c.fieldStart, c.writePos - c.fieldStart)) == m[c.fieldStart..c.writePos] by {
      BytesOf(m, (c.fieldStart, c.writePos - c.fieldStart));
    }
  }

  lemma BytesOf(m: seq<byte>, s: Span)
    requires s.0 + s.1 <= |m|
    ensures Bytes(m, s) == m[s.0..s.0 + s.1]
  {
  }

  /** The buffer after `len` bytes at `src` were copied down to `dst`. */
  function Moved(m: seq<byte>, dst: nat, src: nat, len: nat): seq<byte>
    requires dst <= src && src + len <= |m|
  {
    m[..dst] + m[src..src + len] + m[dst + len..]
  }

  /** Moving a run down to the write position extends the open field by the run. */
  lemma MoveRun(m: seq<byte>, n: seq<byte>, data: seq<byte>, c: Cursor, pos: nat, next: nat)
    requires Unread(m, data, pos) && Layout(c, pos) && pos <= next <= |m|
    requires !c.state.RecordStart? && !c.state.InComment?
    requires n == Moved(m, c.writePos, pos, next - pos)
    ensures var d := c.(writePos := c.writePos + (next - pos));
            && Unread(n, data, next) && Layout(d, next)
            && View(n, d, next) == View(m, c, pos).(cur := View(m, c, pos).cur + data[pos..next])
  {
    var len := next - pos;
    var d := c.(writePos := c.writePos + len);
    assert m[pos..next] == m[pos..][..len] == data[pos..][..len] == data[pos..next];
    assert n[next..] == m[next..] == m[pos..][len..] == data[pos..][len..] == data[next..];
    assert n[c.fieldStart..d.writePos] == m[c.fieldStart..c.writePos] + m[pos..next];
    assert Fields(n, d.spans) == Fields(m, c.spans) by {
      forall i | 0 <= i < |c.spans| ensures Bytes(n, c.spans[i]) == Bytes(m, c.spans[i]) {
        assert c.spans[i] in c.spans;
      }
    }
  }

  /** The buffer and cursors stand for a flight at `pos`. */
  ghost predicate Good(j: Job, m: seq<byte>, c: Cursor, pos: nat) {
    Unread(m, j.data, pos) && Layout(c, pos)
  }

  /** What remains of the scan at `pos`. */
  ghost function Remaining(j: Job, m: seq<byte>, c: Cursor, pos: nat, bnd: nat, last: Option<nat>): Outcome
    requires Good(j, m, c, pos)
  {
    Scan(j, pos, bnd, View(m, c, pos), last)
  }

  /** The byte at `pos` leaves the record-start state, whose offsets have been set to it, or another state. */
  ghost predicate Entering(j: Job, c: Cursor, pos: nat) {
    && pos < |j.data|
    && (c.state.RecordStart? ==> !j.cfg.IsTerm(j.data[pos]) && c.recordIn == pos && c.fieldIn == pos)
  }

  /** The buffer after one byte: the byte moves down if the table keeps it. */
  function Kept(m: seq<byte>, c: Cursor, b: byte, output: bool): seq<byte>
    requires c.writePos < |m|
  {
    if output then m[c.writePos := b] else m
  }

  lemma ActionsKeepNothing(c: Config, s: State, b: byte)
    ensures var t := Cell(c, s, b);
            && (t.next.FieldEnd? || t.next.RecordEnd? || t.next.Error? ==> !t.output)
            && (t.next.RecordStart? || t.next.InComment? ==> (s.RecordStart? || s.InComment?) && !t.output)
  {
  }

  /** A byte that closes nothing. */
  lemma InteriorByte(j: Job, m: seq<byte>, c: Cursor, pos: nat, bnd: nat, last: Option<nat>)
    requires Good(j, m, c, pos) && Entering(j, c, pos)
    requires var t := Cell(j.cfg, c.state, j.data[pos]); Settle(t.next) == t.next && !t.next.Error?
    ensures var t := Cell(j.cfg, c.state, j.data[pos]);
            var d := c.(state := t.next, writePos := if t.output then c.writePos + 1 else c.writePos);
            var n := Kept(m, c, j.data[pos], t.output);
            && Good(j, n, d, pos + 1)
            && Remaining(j, m, c, pos, bnd, last) == Remaining(j, n, d, pos + 1, bnd, last)
  {
    var b := j.data[pos];
    var t := Cell(j.cfg, c.state, b);
    ActionsKeepNothing(j.cfg, c.state, b);
    hide Cell, Fields;
    if t.output {
      WriteByte(m, j.data, c, pos, b, t.next);
    } else {
      SkipByte(m, j.data, c, pos, t.next);
    }
  }

  lemma Advance(j: Job, m: seq<byte>, c: Cursor, pos: nat)
    requires Good(j, m, c, pos) && pos < |m|
    ensures Good(j, m, c, pos + 1) && View(m, c, pos + 1) == View(m, c, pos)
  {
    assert m[pos + 1..] == m[pos..][1..] == j.data[pos..][1..];
  }

  /** A byte that ends a field. */
  lemma FieldEndByte(j: Job, m: seq<byte>, c: Cursor, pos: nat, bnd: nat, last: Option<nat>)
    requires Good(j, m, c, pos) && Entering(j, c, pos)
    requires Cell(j.cfg, c.state, j.data[pos]).next.FieldEnd?
    ensures c.fieldStart <= c.writePos
    ensures var d := Closed(c, pos + 1);
            && Good(j, m, d, pos + 1)
            && Remaining(j, m, c, pos, bnd, last) == Remaining(j, m, d, pos + 1, bnd, last)
  {
    var t := Cell(j.cfg, c.state, j.data[pos]);
    ActionsKeepNothing(j.cfg, c.state, j.data[pos]);
    Advance(j, m, c, pos);
    CloseField(m, c, pos + 1);
    hide Cell, Fields, Layout, Unread;
    var f := View(m, c, pos);
    assert Step(j, f, pos) == Go(Flight(FieldStart, f.fields + [f.cur], [], f.recordIn, pos + 1));
  }

  /** The record in flight, once its last field is closed. */
  function RecordOf(m: seq<byte>, c: Cursor, pos: nat): Record
    requires Layout(c, pos) && pos <= |m|
  {
    View(m, c, pos).fields + [View(m, c, pos).cur]
  }

  function Restarted(c: Cursor, pos: nat): Cursor {
    Cursor(RecordStart, pos, pos, pos, [], c.recordIn, pos)
  }

  /** A byte that ends a record. */
  lemma RecordEndByte(j: Job, m: seq<byte>, c: Cursor, pos: nat, bnd: nat, last: Option<nat>)
    requires Good(j, m, c, pos) && Entering(j, c, pos)
    requires Cell(j.cfg, c.state, j.data[pos]).next.RecordEnd?
    ensures var r := RecordOf(m, c, pos);
            var v := Verdict(j, r, c.recordIn);
            && Good(j, m, Restarted(c, pos + 1), pos + 1)
            && Remaining(j, m, c, pos, bnd, last) ==
               if v.Some? then Err([], v.value)
               else if bnd <= pos then Ok([r], Some(pos))
               else Prepend([r], Remaining(j, m, Restarted(c, pos + 1), pos + 1, bnd, Some(pos)))
  {
    var t := Cell(j.cfg, c.state, j.data[pos]);
    ActionsKeepNothing(j.cfg, c.state, j.data[pos]);
    Advance(j, m, c, pos);
    var d := Restarted(c, pos + 1);
    assert View(m, d, pos + 1) == Flight(RecordStart, [], [], c.recordIn, pos + 1);
    AnchorIrrelevant(j, pos + 1, bnd, Fresh(pos + 1), View(m, d, pos + 1), Some(pos));
    hide Cell, Fields, Layout, Unread;
    var f := View(m, c, pos);
    var r := f.fields + [f.cur];
    var v := Verdict(j, r, f.recordIn);
    assert Step(j, f, pos) == if v.Some? then Fail(v.value) else Close(r);
  }

  lemma ErrorByte(j: Job, m: seq<byte>, c: Cursor, pos: nat, bnd: nat, last: Option<nat>)
    requires Good(j, m, c, pos) && Entering(j, c, pos)
    requires Cell(j.cfg, c.state, j.data[pos]).next.Error?
    ensures Remaining(j, m, c, pos, bnd, last) == Err([], InvalidQuote(pos))
  {
  }

  lemma AdvanceTo(j: Job, m: seq<byte>, c: Cursor, p: nat, q: nat)
    requires Good(j, m, c, p) && p <= q <= |m|
    ensures Good(j, m, c, q) && View(m, c, q) == View(m, c, p)
  {
    assert m[q..] == m[p..][q - p..] == j.data[p..][q - p..] == j.data[q..];
  }

  /** While no record is in flight, its recorded offsets do not matter. */
  lemma Reanchor(j: Job, m: seq<byte>, c: Cursor, pos: nat, bnd: nat, last: Option<nat>)
    requires Good(j, m, c, pos) && c.state.RecordStart?
    ensures var d := c.(recordIn := pos, fieldIn := pos);
            Good(j, m, d, pos) && Remaining(j, m, d, pos, bnd, last) == Remaining(j, m, c, pos, bnd, last)
  {
    var d := c.(recordIn := pos, fieldIn := pos);
    AnchorIrrelevant(j, pos, bnd, View(m, c, pos), View(m, d, pos), last);
  }

  /** A run of blank lines ends the pass or leaves the record start at its end. */
  lemma BlankSkipped(j: Job, m: seq<byte>, c: Cursor, p: nat, q: nat, bnd: nat, last: Option<nat>)
    requires Good(j, m, c, p) && c.state.RecordStart? && p <= q <= |m|
    requires forall i :: p <= i < q ==> j.cfg.IsTerm(m[i])
    ensures var d := c.(recordIn := q, fieldIn := q);
            if Max(bnd, p) < q then Remaining(j, m, c, p, bnd, last) == Ok([], Some(Max(bnd, p)))
            else && Good(j, m, d, q)
                 && Remaining(j, m, c, p, bnd, last) == Remaining(j, m, d, q, bnd, last)
                 && (q < |m| && !j.cfg.IsTerm(m[q]) ==> Entering(j, d, q))
  {
    hide Scan, Fields;
    forall i | p <= i < |m| ensures m[i] == j.data[i] {
      assert m[p..][i - p] == j.data[p..][i - p];
    }
    BlankRun(j, p, q, bnd, View(m, c, p), last);
    AdvanceTo(j, m, c, p, q);
    Reanchor(j, m, c, q, bnd, last);
  }

  /** With nothing in flight the cursors may jump to the read position. */
  lemma EmptyMoves(j: Job, m: seq<byte>, c: Cursor, pos: nat, bnd: nat, last: Option<nat>)
    requires Good(j, m, c, pos) && c.spans == [] && c.fieldStart == c.writePos
    ensures var d := c.(fieldStart := pos, writePos := pos, recordStart := pos);
            Good(j, m, d, pos) && Remaining(j, m, d, pos, bnd, last) == Remaining(j, m, c, pos, bnd, last)
  {
    var d := c.(fieldStart := pos, writePos := pos, recordStart := pos);
    assert View(m, d, pos) == View(m, c, pos);
  }
}
