/**
 * Text stays text: splitting well-formed UTF-8 at ASCII control bytes and dropping such bytes
 * leaves well-formed fields.
 */
module FieldText {
  import opened Dialect
  import opened Dfa
  import opened Records
  import opened Handed
  import opened Utf8

  predicate IsText(rs: seq<Record>) {
    forall i, k :: 0 <= i < |rs| && 0 <= k < |rs[i]| ==> WellFormed(rs[i][k])
  }

  /** The fields of the record in flight. */
  predicate TextInFlight(f: Flight) {
    (forall k :: 0 <= k < |f.fields| ==> WellFormed(f.fields[k])) && WellFormed(f.cur)
  }

  lemma TextRecord(r: Record)
    requires forall k :: 0 <= k < |r| ==> WellFormed(r[k])
    ensures IsText([r])
  {
    hide WellFormed;
  }

  lemma TextCons(r: Record, rs: seq<Record>)
    requires IsText([r]) && IsText(rs)
    ensures IsText([r] + rs)
  {
    hide WellFormed;
    var all := [r] + rs;
    forall i, k | 0 <= i < |all| && 0 <= k < |all[i]| ensures WellFormed(all[i][k]) {
      if i == 0 {
        assert [r][0] == r;
      } else {
        assert all[i] == rs[i - 1];
      }
    }
  }

  /** A byte of a longer character is no control byte: it is kept, or it is part of a comment. */
  lemma HighByte(j: Job, f: Flight, pos: nat)
    requires j.cfg.AsciiControls() && pos < |j.data| && j.data[pos] >= 128
    ensures var m := Step(j, f, pos);
            && (m.Go? || (m.Fail? && !m.failure.Rejected?))
            && (m.Go? ==> && m.flight.fields == f.fields
                          && m.flight.cur == (if f.state.InComment? then f.cur else f.cur + [j.data[pos]])
                          && (m.flight.state.InComment? <==> f.state.InComment?))
  {
  }

  /** So the scan crosses the character whole. */
  lemma {:induction false} HighRun(j: Job, f: Flight, pos: nat, k: nat, v: nat) returns (g: Flight)
    requires j.cfg.AsciiControls() && pos + k <= v <= |j.data| && forall i :: pos <= i < pos + k ==> j.data[i] >= 128
    ensures Offered(j, pos, v, f) == [] || Offered(j, pos, v, f) == Offered(j, pos + k, v, g)
    ensures g.fields == f.fields && g.cur == (if f.state.InComment? then f.cur else f.cur + j.data[pos..pos + k])
    decreases k
  {
    hide *;
    g := f;
    if k > 0 {
      HighByte(j, f, pos);
      HighOffered(j, f, pos, v);
      if Step(j, f, pos).Go? {
        g := HighRun(j, Step(j, f, pos).flight, pos + 1, k - 1, v);
        assert f.cur + [j.data[pos]] + j.data[pos + 1..pos + k] == f.cur + j.data[pos..pos + k];
      } else {
        g := f.(cur := if f.state.InComment? then f.cur else f.cur + j.data[pos..pos + k]);
      }
    } else {
      assert f.cur + j.data[pos..pos] == f.cur;
    }
  }

  lemma HighOffered(j: Job, f: Flight, pos: nat, v: nat)
    requires pos < v <= |j.data|
    ensures var m := Step(j, f, pos);
            && (m.Go? ==> Offered(j, pos, v, f) == Offered(j, pos + 1, v, m.flight))
            && (m.Fail? && !m.failure.Rejected? ==> Offered(j, pos, v, f) == [])
  {
    hide Step;
  }

  /** The character at the front, and what is behind it. */
  lemma FirstChar(s: seq<byte>)
    requires s != [] && WellFormed(s)
    ensures var k := CharLen(s); 1 <= k <= |s| && WellFormed(s[..k]) && WellFormed(s[k..])
    ensures if s[0] < 128 then CharLen(s) == 1 else forall i :: 0 <= i < CharLen(s) ==> s[i] >= 128
  {
    hide CharLen;
    var k := CharLen(s);
    Front(s, k);
    assert s[..k][k..] == [];
    CharBytes(s);
  }

  lemma CharBytes(s: seq<byte>)
    requires s != [] && 1 <= CharLen(s) <= |s|
    ensures if s[0] < 128 then CharLen(s) == 1 else forall i :: 0 <= i < CharLen(s) ==> s[i] >= 128
  {
    var k := CharLen(s);
    forall i | 0 <= i < k && s[0] >= 128 ensures s[i] >= 128 {
      assert i == 0 || i == 1 || i == 2 || i == 3;
    }
  }

  lemma OneAscii(b: byte)
    requires b < 128
    ensures WellFormed([b])
  {
    assert [b][1..] == [];
  }

  /** An ASCII byte leaves well-formed fields in flight, or closes them. */
  lemma LowByte(j: Job, f: Flight, pos: nat)
    requires pos < |j.data| && j.data[pos] < 128 && TextInFlight(f)
    ensures var m := Step(j, f, pos);
            && (m.Go? ==> TextInFlight(m.flight)) && (m.Close? ==> IsText([m.record]))
            && (m.Fail? ==> IsText(HandedOut(Err([], m.failure))))
  {
    OneAscii(j.data[pos]);
    Concat(f.cur, [j.data[pos]]);
    EmptyIsText();
    hide WellFormed, Cell, IsText;
    match Step(j, f, pos)
    case Go(g) =>
    case Close(r) => TextRecord(r);
    case Fail(e) => if e.Rejected? { TextRecord(e.record); assert [] + [e.record] == [e.record]; } else { assert HandedOut(Err([], e)) == []; }
    case Blank =>
  }

  lemma EmptyIsText()
    ensures WellFormed([]) && IsText([])
  {
  }

  /** The bytes that a run validated reach past everything it handed out: to the end of the input, or past the end it stopped on. */
  ghost predicate Vouched(data: seq<byte>, start: nat, v: nat, bnd: nat, end: Option<nat>) {
    && start <= v <= |data| && WellFormed(data[start..v])
    && (v == |data| || (end.Some? && bnd <= end.value < v))
  }

  /** Every field handed out before a byte up to which the input is text is text, whatever follows. */
  lemma {:induction false} FieldsAreText(j: Job, pos: nat, v: nat, f: Flight)
    requires j.cfg.AsciiControls() && pos <= v <= |j.data| && TextInFlight(f) && WellFormed(j.data[pos..v])
    ensures IsText(Offered(j, pos, v, f))
    decreases v - pos
  {
    hide WellFormed, Step, IsText, TextInFlight;
    EmptyIsText();
    if pos == |j.data| {
      FinishIsText(j, f);
    } else if pos < v {
      var s := j.data[pos..v];
      FirstChar(s);
      var k := CharLen(s);
      assert s[k..] == j.data[pos + k..v] && s[..k] == j.data[pos..pos + k];
      if j.data[pos] < 128 {
        LowByte(j, f, pos);
        match Step(j, f, pos)
        case Blank => FieldsAreText(j, pos + 1, v, f);
        case Go(g) => FieldsAreText(j, pos + 1, v, g);
        case Close(r) =>
          FreshIsText(pos + 1);
          FieldsAreText(j, pos + 1, v, Fresh(pos + 1));
          TextCons(r, Offered(j, pos + 1, v, Fresh(pos + 1)));
        case Fail(_) =>
      } else {
        assert forall i :: pos <= i < pos + k ==> j.data[i] == s[i - pos];
        var g := HighRun(j, f, pos, k, v);
        CrossedIsText(f, g, s[..k]);
        FieldsAreText(j, pos + k, v, g);
      }
    }
  }

  lemma PrefixIsText(a: seq<Record>, b: seq<Record>)
    requires a <= b && IsText(b)
    ensures IsText(a)
  {
    hide WellFormed;
  }

  /** Records handed out as text are text. */
  ghost predicate TextOut(text: bool, j: Job, records: seq<Record>) {
    text && j.cfg.AsciiControls() ==> IsText(records)
  }

  lemma FreshIsText(pos: nat)
    ensures TextInFlight(Fresh(pos))
  {
  }

  lemma CrossedIsText(f: Flight, g: Flight, one: seq<byte>)
    requires TextInFlight(f) && WellFormed(one) && g.fields == f.fields && (g.cur == f.cur || g.cur == f.cur + one)
    ensures TextInFlight(g)
  {
    Concat(f.cur, one);
    hide WellFormed;
  }

  lemma FinishIsText(j: Job, f: Flight)
    requires TextInFlight(f)
    ensures IsText(HandedOut(Finish(j, f, None)))
  {
    var r := f.fields + [f.cur];
    TextRecord(r);
    EmptyIsText();
    hide WellFormed, IsText;
    var o := Finish(j, f, None);
    assert HandedOut(o) == [] || HandedOut(o) == [r] by {
      assert [] + [r] == [r] && [r] + [] == [r];
    }
  }

  lemma NothingOut(text: bool, j: Job, o: Outcome)
    requires o.Ok? && o.records == []
    ensures TextOut(text, j, HandedOut(o))
  {
    EmptyIsText();
    assert HandedOut(o) == [];
  }
}
