/** A writer in bytes, and its round trip: what is written is read back, field by field. */
module RoundTrip {
  import opened Dialect
  import opened Records
  import opened Writing
  import opened Reading

  function Terminator(c: Config): seq<byte> {
    match c.terminator
    case SingleByte(t) => [t]
    case CrLf => [CR, LF]
  }

  /** A field's bytes, quotes and escapes behind the escape byte. */
  function Escape(c: Config, f: Field): seq<byte> {
    if f == [] then []
    else (if c.IsQuote(f[0]) || c.escape == Some(f[0]) then Opt(c.escape) + [f[0]] else [f[0]]) + Escape(c, f[1..])
  }

  /** Fields are quoted, if the dialect has a quote. */
  function WriteField(c: Config, f: Field): seq<byte> {
    if c.quote.Some? then [c.quote.value] + Escape(c, f) + [c.quote.value] else f
  }

  function WriteRecord(c: Config, r: Record): seq<byte> {
    if r == [] then []
    else if |r| == 1 then WriteField(c, r[0])
    else WriteField(c, r[0]) + [c.delimiter] + WriteRecord(c, r[1..])
  }

  function Write(c: Config, rs: seq<Record>): seq<byte> {
    if rs == [] then [] else WriteRecord(c, rs[0]) + Terminator(c) + Write(c, rs[1..])
  }

  /** What can be written: without an escape no quotes, without a quote no syntax. */
  predicate FieldFits(c: Config, f: Field) {
    forall i :: 0 <= i < |f| ==>
      if c.quote.Some? then c.escape.Some? || !c.IsQuote(f[i])
      else f[i] != c.delimiter && f[i] !in Terminator(c)
  }

  predicate RecordFits(c: Config, r: Record) {
    && r != [] && (forall i :: 0 <= i < |r| ==> FieldFits(c, r[i]))
    && (c.quote.None? ==> r != [[]] && (r[0] != [] ==> c.comment != Some(r[0][0])))
  }

  predicate Welcome(j: Job, r: Record) {
    j.accept(r) && (j.cfg.fieldCount.Some? ==> j.cfg.fieldCount.value == |r|)
  }

  function Letters(c: Config, f: Field): seq<Letter> {
    if f == [] then []
    else [if c.IsQuote(f[0]) || c.escape == Some(f[0]) then Escaped(f[0]) else Plain(f[0])] + Letters(c, f[1..])
  }

  function Bares(f: Field): Text {
    if f == [] then [] else [Bare(f[0])] + Bares(f[1..])
  }

  function FieldText(c: Config, f: Field): Text {
    if c.quote.Some? then [Quoted(Letters(c, f))] else Bares(f)
  }

  function Texts(c: Config, r: Record): seq<Text> {
    if r == [] then [] else [FieldText(c, r[0])] + Texts(c, r[1..])
  }

  function RecordLines(c: Config, r: Record): seq<Line> {
    match c.terminator
    case SingleByte(t) => [Row(Texts(c, r), Closed(t))]
    case CrLf => [Row(Texts(c, r), Closed(CR)), Empty(LF)]
  }

  function Lines(c: Config, rs: seq<Record>): seq<Line> {
    if rs == [] then [] else RecordLines(c, rs[0]) + Lines(c, rs[1..])
  }

  lemma {:induction false} LettersAre(c: Config, f: Field)
    requires c.Valid() && c.quote.Some? && FieldFits(c, f)
    ensures LegalLetters(c, Letters(c, f)) && WriteLetters(c, Letters(c, f)) == Escape(c, f) && LettersSay(Letters(c, f)) == f
    decreases |f|
  {
    if f != [] {
      var l, more := Letters(c, f)[0], Letters(c, f[1..]);
      assert Letters(c, f)[1..] == more;
      assert forall i :: 0 <= i < |f[1..]| ==> f[1..][i] == f[i + 1];
      LettersAre(c, f[1..]);
      assert [] + [f[0]] == [f[0]] && f == [f[0]] + f[1..];
    }
  }

  lemma {:induction false} BaresAre(c: Config, at: Place, f: Field)
    requires c.Valid() && c.quote.None? && FieldFits(c, f) && !at.BehindQuoted?
    ensures LegalText(c, at, Bares(f)) && WriteText(c, Bares(f)) == f && TextSays(Bares(f)) == f
    ensures !PlaceAfter(at, Bares(f)).BehindQuoted?
    decreases |f|
  {
    if f != [] {
      assert Bares(f)[1..] == Bares(f[1..]);
      assert forall i :: 0 <= i < |f[1..]| ==> f[1..][i] == f[i + 1];
      BaresAre(c, BehindBare, f[1..]);
      assert f == [f[0]] + f[1..];
    }
  }

  /** A field's text is legal, written as the writer does, and says the field. */
  lemma FieldTextIs(c: Config, f: Field)
    requires c.Valid() && FieldFits(c, f)
    ensures LegalText(c, First, FieldText(c, f)) && WriteText(c, FieldText(c, f)) == WriteField(c, f) && TextSays(FieldText(c, f)) == f
  {
    if c.quote.Some? {
      LettersAre(c, f);
      var t := FieldText(c, f);
      assert t[1..] == [];
      assert WriteText(c, t) == WritePiece(c, t[0]) + [] && TextSays(t) == PieceSays(t[0]) + [];
    } else {
      BaresAre(c, First, f);
    }
  }

  lemma {:induction false} TextsAre(c: Config, r: Record)
    requires c.Valid() && forall i :: 0 <= i < |r| ==> FieldFits(c, r[i])
    ensures |Texts(c, r)| == |r| && WriteFields(c, Texts(c, r)) == WriteRecord(c, r) && FieldsSay(Texts(c, r)) == r
    ensures forall i :: 0 <= i < |r| ==> LegalText(c, First, Texts(c, r)[i])
    decreases |r|
  {
    hide FieldFits, LegalText, FieldText, WriteText, WriteField, TextSays;
    if r != [] {
      FieldTextIs(c, r[0]);
      TextsAre(c, r[1..]);
      assert Texts(c, r)[1..] == Texts(c, r[1..]);
      FieldsStep(c, Texts(c, r));
      assert r == [r[0]] + r[1..];
    }
  }

  lemma RowFits(c: Config, r: Record, last: bool, t: byte)
    requires c.Valid() && RecordFits(c, r) && c.IsTerm(t)
    ensures LegalRow(c, Texts(c, r), Closed(t), last)
  {
    TextsAre(c, r);
    hide LegalText, WriteFields, FieldFits;
    if c.quote.None? {
      if |r| == 1 {
        assert r == [r[0]];
      }
    }
  }

  /** Lines behind lines. */
  lemma LineFirst(j: Job, pos: nat, l: Line, more: seq<Line>, last: Option<nat>)
    requires LegalLine(j.cfg, l, false) && Legal(j.cfg, more)
    ensures Legal(j.cfg, [l] + more) && WriteLines(j.cfg, [l] + more) == WriteLine(j.cfg, l) + WriteLines(j.cfg, more)
    ensures var next := pos + |WriteLine(j.cfg, l)|;
            && (l.Empty? ==> Meaning(j, pos, [l] + more, last) == Meaning(j, next, more, last))
            && (l.Row? && l.end.Closed? && Welcome(j, FieldsSay(l.fields)) ==>
                  Meaning(j, pos, [l] + more, last) == Prepend([FieldsSay(l.fields)], Meaning(j, next, more, Some(pos + |WriteFields(j.cfg, l.fields)|))))
  {
    hide *;
    assert ([l] + more)[1..] == more && ([l] + more)[0] == l;
    LegalAnyway(j.cfg, l);
    var lines := LineBefore(j.cfg, l, more);
    MeaningStep(j, pos, [l] + more, last);
    if l.Row? {
      WelcomeIs(j, FieldsSay(l.fields), pos);
    }
  }

  lemma WelcomeIs(j: Job, r: Record, pos: nat)
    ensures Welcome(j, r) <==> Judged(j, r, pos).None?
  {
  }

  lemma LegalAnyway(c: Config, l: Line)
    requires LegalLine(c, l, false)
    ensures LegalLine(c, l, true)
  {
  }

  /** The lines that the writer writes. */
  lemma {:induction false} LinesAre(j: Job, pos: nat, rs: seq<Record>, last: Option<nat>)
    requires j.cfg.Valid() && forall i :: 0 <= i < |rs| ==> RecordFits(j.cfg, rs[i]) && Welcome(j, rs[i])
    ensures var ls := Lines(j.cfg, rs);
            && Legal(j.cfg, ls) && WriteLines(j.cfg, ls) == Write(j.cfg, rs)
            && Meaning(j, pos, ls, last).Ok? && Meaning(j, pos, ls, last).records == rs
    decreases |rs|
  {
    hide *;
    var c := j.cfg;
    WriteStep(c, rs);
    if rs == [] {
      MeaningOfNothing(j, pos, last);
      NothingWritten(c, First);
      return;
    }
    var r, more := rs[0], Lines(c, rs[1..]);
    var t := if c.terminator.CrLf? then CR else c.terminator.value;
    var row := Row(Texts(c, r), Closed(t));
    TermFits(c);
    FitsIs(c, r);
    TextsAre(c, r);
    RowFits(c, r, false, t);
    RowIsLine(c, Texts(c, r), Closed(t));
    var next := pos + |WriteLine(c, row)|;
    var at := Some(pos + |WriteFields(c, Texts(c, r))|);
    if c.terminator.CrLf? {
      LinesAre(j, next + 1, rs[1..], at);
      LineFirst(j, next, Empty(LF), more, at);
      LineFirst(j, pos, row, [Empty(LF)] + more, last);
      assert [row] + ([Empty(LF)] + more) == [row, Empty(LF)] + more;
      assert WriteRecord(c, r) + [CR] + ([LF] + Write(c, rs[1..])) == WriteRecord(c, r) + [CR, LF] + Write(c, rs[1..]);
    } else {
      LinesAre(j, next, rs[1..], at);
      LineFirst(j, pos, row, more, last);
    }
    Prepended(r, Meaning(j, if c.terminator.CrLf? then next + 1 else next, more, at), rs);
  }

  lemma Prepended(r: Record, o: Outcome, rs: seq<Record>)
    requires rs != [] && r == rs[0] && o.Ok? && o.records == rs[1..]
    ensures Prepend([r], o).Ok? && Prepend([r], o).records == rs
  {
    assert [rs[0]] + rs[1..] == rs;
  }

  lemma WriteStep(c: Config, rs: seq<Record>)
    ensures rs == [] ==> Write(c, rs) == [] && Lines(c, rs) == []
    ensures rs != [] ==>
              && Write(c, rs) == WriteRecord(c, rs[0]) + (if c.terminator.CrLf? then [CR, LF] else [c.terminator.value]) + Write(c, rs[1..])
              && Lines(c, rs) == (if c.terminator.CrLf? then [Row(Texts(c, rs[0]), Closed(CR)), Empty(LF)] else [Row(Texts(c, rs[0]), Closed(c.terminator.value))]) + Lines(c, rs[1..])
  {
    hide WriteRecord, Texts;
  }

  lemma TermFits(c: Config)
    ensures c.terminator.CrLf? ==> c.IsTerm(CR) && LegalLine(c, Empty(LF), false) && WriteLine(c, Empty(LF)) == [LF]
    ensures c.terminator.SingleByte? ==> c.IsTerm(c.terminator.value)
  {
  }

  lemma FitsIs(c: Config, r: Record)
    requires RecordFits(c, r)
    ensures r != [] && forall i :: 0 <= i < |r| ==> FieldFits(c, r[i])
  {
    hide FieldFits;
  }

  lemma RowIsLine(c: Config, fields: seq<Text>, e: End)
    requires LegalRow(c, fields, e, false)
    ensures LegalLine(c, Row(fields, e), false) && WriteLine(c, Row(fields, e)) == WriteFields(c, fields) + WriteEnd(c, e)
    ensures e.Closed? ==> WriteEnd(c, e) == [e.term]
  {
    hide LegalRow, WriteFields;
  }

  /**
   * The round trip: under every valid dialect, whatever the quote handling, the terminator and the
   * escape, the scan reads back exactly the records that were written.
   */
  lemma WrittenIsRead(j: Job, rs: seq<Record>)
    requires j.cfg.Valid() && j.data == Write(j.cfg, rs)
    requires forall i :: 0 <= i < |rs| ==> RecordFits(j.cfg, rs[i]) && Welcome(j, rs[i])
    ensures Rest(j, 0).Ok? && Rest(j, 0).records == rs
  {
    hide Scan, Write, RecordFits, Lines, Meaning, Legal, WriteLines, Welcome;
    LinesAre(j, 0, rs, None);
    ReadingUndoesWriting(j);
  }
}
