/** Reading undoes writing: the scan yields what lines say, and every input is written by some lines. */
module Reading {
  import opened Dialect
  import opened Dfa
  import opened Records
  import opened Writing

  /** The input from `pos` on is `w` and then `tail`. */
  ghost predicate Shows(j: Job, pos: nat, w: seq<byte>, tail: seq<byte>) {
    pos <= |j.data| && j.data[pos..] == w + tail
  }

  lemma ShowsByte(j: Job, pos: nat, w: seq<byte>, tail: seq<byte>)
    requires Shows(j, pos, w, tail) && w != []
    ensures pos < |j.data| && j.data[pos] == w[0] && Shows(j, pos + 1, w[1..], tail)
  {
    assert j.data[pos] == j.data[pos..][0] == (w + tail)[0];
    assert j.data[pos + 1..] == j.data[pos..][1..] == (w + tail)[1..];
    assert (w + tail)[1..] == w[1..] + tail;
  }

  lemma ShowsSplit(j: Job, pos: nat, a: seq<byte>, b: seq<byte>, tail: seq<byte>)
    requires Shows(j, pos, a + b, tail)
    ensures Shows(j, pos, a, b + tail) && Shows(j, pos + |a|, b, tail)
  {
    assert (a + b) + tail == a + (b + tail);
    assert j.data[pos + |a|..] == j.data[pos..][|a|..] == (a + (b + tail))[|a|..];
    assert (a + (b + tail))[|a|..] == b + tail;
  }

  lemma ShowsEnd(j: Job, pos: nat, w: seq<byte>, tail: seq<byte>)
    requires Shows(j, pos, w, tail)
    ensures pos + |w| <= |j.data| && Shows(j, pos + |w|, [], tail)
    ensures tail == [] ==> pos + |w| == |j.data|
  {
    assert w + [] == w;
    ShowsSplit(j, pos, w, [], tail);
    assert |j.data[pos..]| == |w| + |tail|;
  }

  /** The table's state behind a piece. */
  function StateFor(at: Place): State {
    match at
    case First => FieldStart
    case BehindBare => InField
    case BehindQuoted => AfterClosingQuote
  }

  /** One byte that neither closes nor fails. */
  lemma GoByte(j: Job, pos: nat, bnd: nat, f: Flight, last: Option<nat>)
    requires pos < |j.data| && !f.state.RecordStart?
    requires var s := Cell(j.cfg, f.state, j.data[pos]).next; OutOfQuotes(s) || InQuotes(s)
    ensures var t := Cell(j.cfg, f.state, j.data[pos]);
            Scan(j, pos, bnd, f, last) == Scan(j, pos + 1, bnd, f.(state := t.next, cur := f.cur + (if t.output then [j.data[pos]] else [])), last)
  {
    hide Cell;
    assert f.cur + [] == f.cur;
  }

  /** Letters between quotes are content, without their escapes. */
  lemma {:induction false} LettersScan(j: Job, pos: nat, ls: seq<Letter>, tail: seq<byte>, bnd: nat, f: Flight, last: Option<nat>)
    requires j.cfg.Valid() && LegalLetters(j.cfg, ls) && j.cfg.quote.Some? && Shows(j, pos, WriteLetters(j.cfg, ls), tail)
    requires f.state.InQuotedField?
    ensures var p := pos + |WriteLetters(j.cfg, ls)|;
            p <= |j.data| && Scan(j, pos, bnd, f, last) == Scan(j, p, bnd, f.(cur := f.cur + LettersSay(ls)), last)
    decreases |ls|
  {
    hide *;
    ShowsEnd(j, pos, WriteLetters(j.cfg, ls), tail);
    LettersStep(j.cfg, ls);
    if ls == [] {
      assert f.cur + [] == f.cur;
    } else {
      var b, rest := ls[0].b, WriteLetters(j.cfg, ls[1..]);
      var w := if ls[0].Escaped? then [j.cfg.escape.value, b] else [b];
      ShowsSplit(j, pos, w, rest, tail);
      LetterScan(j, pos, ls[0], rest + tail, bnd, f, last);
      LettersScan(j, pos + |w|, ls[1..], tail, bnd, f.(cur := f.cur + [b]), last);
      assert f.cur + [b] + LettersSay(ls[1..]) == f.cur + ([b] + LettersSay(ls[1..]));
    }
  }

  lemma LettersStep(c: Config, ls: seq<Letter>)
    requires LegalLetters(c, ls)
    ensures ls == [] ==> WriteLetters(c, ls) == [] && LettersSay(ls) == []
    ensures ls != [] ==>
              && LegalLetter(c, ls[0]) && LegalLetters(c, ls[1..]) && (ls[0].Escaped? ==> c.escape.Some?)
              && WriteLetters(c, ls) == (if ls[0].Escaped? then [c.escape.value, ls[0].b] else [ls[0].b]) + WriteLetters(c, ls[1..])
              && LettersSay(ls) == [ls[0].b] + LettersSay(ls[1..])
  {
    if ls != [] {
      assert LegalLetter(c, ls[0]);
      assert forall i :: 0 <= i < |ls[1..]| ==> ls[1..][i] == ls[i + 1];
      if ls[0].Escaped? {
        assert [c.escape.value] + [ls[0].b] == [c.escape.value, ls[0].b];
      } else {
        assert [] + [ls[0].b] == [ls[0].b];
      }
    }
  }

  lemma LetterScan(j: Job, pos: nat, l: Letter, tail: seq<byte>, bnd: nat, f: Flight, last: Option<nat>)
    requires j.cfg.Valid() && LegalLetter(j.cfg, l) && j.cfg.quote.Some? && (l.Escaped? ==> j.cfg.escape.Some?)
    requires Shows(j, pos, if l.Escaped? then [j.cfg.escape.value, l.b] else [l.b], tail) && f.state.InQuotedField?
    ensures var p := pos + if l.Escaped? then 2 else 1;
            p <= |j.data| && Scan(j, pos, bnd, f, last) == Scan(j, p, bnd, f.(cur := f.cur + [l.b]), last)
  {
    hide *;
    LetterCell(j.cfg, l);
    if l.Plain? {
      ShowsByte(j, pos, [l.b], tail);
      ContentByte(j, pos, bnd, f, last);
    } else {
      var w := [j.cfg.escape.value, l.b];
      ShowsByte(j, pos, w, tail);
      ShowsByte(j, pos + 1, w[1..], tail);
      SyntaxByte(j, pos, bnd, f, last);
      ContentByte(j, pos + 1, bnd, f.(state := Cell(j.cfg, InQuotedField, j.cfg.escape.value).next), last);
    }
  }

  lemma LetterCell(c: Config, l: Letter)
    requires c.Valid() && LegalLetter(c, l) && c.quote.Some?
    ensures l.Plain? ==> Content(c, InQuotedField, l.b)
    ensures l.Escaped? ==>
              && c.escape.Some?
              && var t := Cell(c, InQuotedField, c.escape.value);
                 !t.output && (OutOfQuotes(t.next) || InQuotes(t.next)) && !t.next.RecordStart? && Content(c, t.next, l.b)
  {
  }

  /** The byte is content between quotes. */
  predicate Content(c: Config, s: State, b: byte) {
    Cell(c, s, b) == Keep(InQuotedField)
  }

  lemma ContentByte(j: Job, pos: nat, bnd: nat, f: Flight, last: Option<nat>)
    requires pos < |j.data| && !f.state.RecordStart? && Content(j.cfg, f.state, j.data[pos])
    ensures Scan(j, pos, bnd, f, last) == Scan(j, pos + 1, bnd, f.(state := InQuotedField, cur := f.cur + [j.data[pos]]), last)
  {
    hide Cell, Scan;
    GoByte(j, pos, bnd, f, last);
  }

  /** The byte is syntax, and leads to state `s`. */
  lemma SyntaxByte(j: Job, pos: nat, bnd: nat, f: Flight, last: Option<nat>)
    requires pos < |j.data| && !f.state.RecordStart?
    requires var t := Cell(j.cfg, f.state, j.data[pos]); !t.output && (OutOfQuotes(t.next) || InQuotes(t.next))
    ensures Scan(j, pos, bnd, f, last) == Scan(j, pos + 1, bnd, f.(state := Cell(j.cfg, f.state, j.data[pos]).next), last)
  {
    hide Cell, Scan;
    GoByte(j, pos, bnd, f, last);
    assert f.cur + [] == f.cur;
  }

  /** A piece of a field. */
  lemma PieceScan(j: Job, pos: nat, at: Place, p: Piece, tail: seq<byte>, bnd: nat, f: Flight, last: Option<nat>)
    requires j.cfg.Valid() && LegalPiece(j.cfg, at, p) && Shows(j, pos, WritePiece(j.cfg, p), tail)
    requires f.state == StateFor(at)
    ensures var q := pos + |WritePiece(j.cfg, p)|;
            q <= |j.data| && Scan(j, pos, bnd, f, last) == Scan(j, q, bnd, f.(state := StateFor(Behind(p)), cur := f.cur + PieceSays(p)), last)
  {
    hide *;
    var w := WritePiece(j.cfg, p);
    PieceIs(j.cfg, at, p);
    ShowsEnd(j, pos, w, tail);
    if p.Bare? {
      ShowsByte(j, pos, w, tail);
      BareCell(j.cfg, at, p.b);
      GoByte(j, pos, bnd, f, last);
    } else {
      QuotedScan(j, pos, at, p.letters, tail, bnd, f, last);
    }
  }

  lemma PieceIs(c: Config, at: Place, p: Piece)
    requires c.Valid() && LegalPiece(c, at, p)
    ensures p.Bare? ==> WritePiece(c, p) == [p.b] && PieceSays(p) == [p.b] && MayFollow(c, at, p.b) && StateFor(Behind(p)) == InField
    ensures p.Quoted? ==>
              && MayOpen(c, at) && LegalLetters(c, p.letters) && c.quote.Some? && PieceSays(p) == LettersSay(p.letters)
              && WritePiece(c, p) == [c.quote.value] + WriteLetters(c, p.letters) + [c.quote.value] && StateFor(Behind(p)) == AfterClosingQuote
  {
  }

  lemma QuotedScan(j: Job, pos: nat, at: Place, letters: seq<Letter>, tail: seq<byte>, bnd: nat, f: Flight, last: Option<nat>)
    requires j.cfg.Valid() && MayOpen(j.cfg, at) && LegalLetters(j.cfg, letters) && j.cfg.quote.Some? && f.state == StateFor(at)
    requires Shows(j, pos, [j.cfg.quote.value] + WriteLetters(j.cfg, letters) + [j.cfg.quote.value], tail)
    ensures var p := pos + |WriteLetters(j.cfg, letters)| + 2;
            p <= |j.data| && Scan(j, pos, bnd, f, last) == Scan(j, p, bnd, f.(state := AfterClosingQuote, cur := f.cur + LettersSay(letters)), last)
  {
    hide *;
    var q, ls := [j.cfg.quote.value], WriteLetters(j.cfg, letters);
    assert q + ls + q == q + (ls + q);
    ShowsSplit(j, pos, q, ls + q, tail);
    ShowsByte(j, pos, q, ls + q + tail);
    ShowsSplit(j, pos + 1, ls, q, tail);
    ShowsByte(j, pos + 1 + |ls|, q, tail);
    QuoteCells(j.cfg, at);
    StatesFor(at);
    SyntaxByte(j, pos, bnd, f, last);
    LettersScan(j, pos + 1, letters, q + tail, bnd, f.(state := InQuotedField), last);
    SyntaxByte(j, pos + 1 + |ls|, bnd, f.(state := InQuotedField, cur := f.cur + LettersSay(letters)), last);
  }

  lemma StatesFor(at: Place)
    ensures StateFor(First) == FieldStart && !StateFor(at).RecordStart? && OutOfQuotes(StateFor(at))
  {
  }

  lemma BareCell(c: Config, at: Place, b: byte)
    requires c.Valid() && MayFollow(c, at, b)
    ensures var t := Cell(c, StateFor(at), b); t.next == InField && t.output && OutOfQuotes(t.next) && !StateFor(at).RecordStart?
  {
  }

  lemma QuoteCells(c: Config, at: Place)
    requires c.Valid() && MayOpen(c, at)
    ensures var t := Cell(c, StateFor(at), c.quote.value); t.next == InQuotedField && !t.output && InQuotes(t.next)
    ensures var t := Cell(c, InQuotedField, c.quote.value); t.next == AfterClosingQuote && !t.output && OutOfQuotes(t.next)
  {
  }

  /** A field, up to where it ends. */
  lemma {:induction false} TextScan(j: Job, pos: nat, at: Place, ps: Text, tail: seq<byte>, bnd: nat, f: Flight, last: Option<nat>)
    requires j.cfg.Valid() && LegalText(j.cfg, at, ps) && Shows(j, pos, WriteText(j.cfg, ps), tail) && f.state == StateFor(at)
    ensures var q := pos + |WriteText(j.cfg, ps)|;
            q <= |j.data| && Scan(j, pos, bnd, f, last) == Scan(j, q, bnd, f.(state := StateFor(PlaceAfter(at, ps)), cur := f.cur + TextSays(ps)), last)
    decreases |ps|
  {
    hide *;
    ShowsEnd(j, pos, WriteText(j.cfg, ps), tail);
    TextStep(j.cfg, at, ps);
    if ps == [] {
      assert f.cur + [] == f.cur;
    } else {
      var p, w, rest := ps[0], WritePiece(j.cfg, ps[0]), WriteText(j.cfg, ps[1..]);
      ShowsSplit(j, pos, w, rest, tail);
      PieceScan(j, pos, at, p, rest + tail, bnd, f, last);
      TextScan(j, pos + |w|, Behind(p), ps[1..], tail, bnd, f.(state := StateFor(Behind(p)), cur := f.cur + PieceSays(p)), last);
      assert f.cur + PieceSays(p) + TextSays(ps[1..]) == f.cur + (PieceSays(p) + TextSays(ps[1..]));
    }
  }

  lemma TextStep(c: Config, at: Place, ps: Text)
    requires LegalText(c, at, ps)
    ensures ps == [] ==> WriteText(c, ps) == [] && TextSays(ps) == [] && PlaceAfter(at, ps) == at
    ensures ps != [] ==>
              && LegalPiece(c, at, ps[0]) && LegalText(c, Behind(ps[0]), ps[1..])
              && WriteText(c, ps) == WritePiece(c, ps[0]) + WriteText(c, ps[1..])
              && TextSays(ps) == PieceSays(ps[0]) + TextSays(ps[1..])
              && PlaceAfter(at, ps) == PlaceAfter(Behind(ps[0]), ps[1..])
  {
    hide LegalPiece, WritePiece, PieceSays;
  }

  /** Behind a field its delimiter starts the next one. */
  lemma DelimByte(j: Job, pos: nat, at: Place, bnd: nat, f: Flight, last: Option<nat>)
    requires j.cfg.Valid() && pos < |j.data| && j.data[pos] == j.cfg.delimiter && f.state == StateFor(at)
    ensures Scan(j, pos, bnd, f, last) == Scan(j, pos + 1, bnd, Flight(FieldStart, f.fields + [f.cur], [], f.recordIn, pos + 1), last)
  {
  }

  /** The fields of a row; the last one is in flight. */
  lemma {:induction false} FieldsScan(j: Job, pos: nat, fs: seq<Text>, tail: seq<byte>, bnd: nat, f: Flight, last: Option<nat>) returns (g: Flight)
    requires j.cfg.Valid() && fs != [] && (forall i :: 0 <= i < |fs| ==> LegalText(j.cfg, First, fs[i]))
    requires Shows(j, pos, WriteFields(j.cfg, fs), tail) && f.state.FieldStart? && f.cur == [] && f.fieldIn == pos
    ensures var q := pos + |WriteFields(j.cfg, fs)|; q <= |j.data| && Scan(j, pos, bnd, f, last) == Scan(j, q, bnd, g, last)
    ensures g.state == StateFor(PlaceAfter(First, fs[|fs| - 1])) && g.fields + [g.cur] == f.fields + FieldsSay(fs)
    ensures g.recordIn == f.recordIn && g.fieldIn == pos + LastStart(j.cfg, fs)
    decreases |fs|
  {
    hide *;
    FieldsStep(j.cfg, fs);
    StatesFor(First);
    var t := fs[0];
    ShowsEnd(j, pos, WriteFields(j.cfg, fs), tail);
    assert [] + TextSays(t) == TextSays(t);
    if |fs| == 1 {
      TextScan(j, pos, First, t, tail, bnd, f, last);
      g := f.(state := StateFor(PlaceAfter(First, t)), cur := TextSays(t));
    } else {
      var w, d, rest := WriteText(j.cfg, t), [j.cfg.delimiter], WriteFields(j.cfg, fs[1..]);
      assert w + d + rest == w + (d + rest);
      ShowsSplit(j, pos, w, d + rest, tail);
      TextScan(j, pos, First, t, d + rest + tail, bnd, f, last);
      var h := f.(state := StateFor(PlaceAfter(First, t)), cur := TextSays(t));
      ShowsSplit(j, pos + |w|, d, rest, tail);
      DelimShown(j, pos + |w|, d + rest, tail);
      DelimByte(j, pos + |w|, PlaceAfter(First, t), bnd, h, last);
      var k := Flight(FieldStart, f.fields + [TextSays(t)], [], f.recordIn, pos + |w| + 1);
      g := FieldsScan(j, pos + |w| + 1, fs[1..], tail, bnd, k, last);
      assert f.fields + [TextSays(t)] + FieldsSay(fs[1..]) == f.fields + ([TextSays(t)] + FieldsSay(fs[1..]));
    }
  }

  lemma DelimShown(j: Job, pos: nat, w: seq<byte>, tail: seq<byte>)
    requires Shows(j, pos, w, tail) && w != []
    ensures pos < |j.data| && j.data[pos] == w[0]
  {
    ShowsByte(j, pos, w, tail);
  }

  lemma FieldsStep(c: Config, fs: seq<Text>)
    requires fs != []
    ensures |fs| == 1 ==> WriteFields(c, fs) == WriteText(c, fs[0]) && FieldsSay(fs) == [TextSays(fs[0])] && LastStart(c, fs) == 0
    ensures |fs| > 1 ==>
              && WriteFields(c, fs) == WriteText(c, fs[0]) + [c.delimiter] + WriteFields(c, fs[1..])
              && FieldsSay(fs) == [TextSays(fs[0])] + FieldsSay(fs[1..])
              && LastStart(c, fs) == |WriteText(c, fs[0])| + 1 + LastStart(c, fs[1..])
  {
    hide WriteText, TextSays;
    assert FieldsSay([]) == [];
    assert [TextSays(fs[0])] + [] == [TextSays(fs[0])];
  }

  /** A row's first byte is no terminator and opens no comment. */
  lemma RowByte(c: Config, fields: seq<Text>, e: End, last: bool)
    requires c.Valid() && LegalRow(c, fields, e, last)
    ensures var w := WriteFields(c, fields) + WriteEnd(c, e); w != [] && !c.IsTerm(w[0]) && c.comment != Some(w[0])
  {
    FieldsStep(c, fields);
    assert LegalText(c, First, fields[0]);
    TextStep(c, First, fields[0]);
    hide LegalText, WriteText, LegalLetters, WriteFields;
    if fields[0] == [] {
      if |fields| > 1 {
        assert WriteFields(c, fields)[0] == c.delimiter;
      } else {
        assert fields == [[]];
      }
    } else {
      PieceIs(c, First, fields[0][0]);
    }
  }

  /** Between records a byte that is neither a terminator nor a comment starts a field. */
  lemma StartsField(j: Job, pos: nat, bnd: nat, f: Flight, last: Option<nat>)
    requires pos < |j.data| && !j.cfg.IsTerm(j.data[pos]) && j.cfg.comment != Some(j.data[pos])
    requires f.state.RecordStart? && Idle(f)
    ensures Scan(j, pos, bnd, f, last) == Scan(j, pos, bnd, Flight(FieldStart, [], [], pos, pos), last)
  {
  }

  /** The verdict on a row, once it is complete. */
  function Judged(j: Job, r: Record, recordIn: nat): Option<Failure> {
    if j.cfg.fieldCount.Some? && j.cfg.fieldCount.value != |r| then Some(NumberOfFields(j.cfg.fieldCount.value, |r|, recordIn))
    else if !j.accept(r) then Some(Rejected(r))
    else None
  }

  lemma ClosedScan(j: Job, pos: nat, at: Place, f: Flight, last: Option<nat>)
    requires j.cfg.Valid() && pos < |j.data| && j.cfg.IsTerm(j.data[pos]) && f.state == StateFor(at)
    ensures var r := f.fields + [f.cur];
            Scan(j, pos, |j.data|, f, last) ==
              if Judged(j, r, f.recordIn).Some? then Err([], Judged(j, r, f.recordIn).value)
              else Prepend([r], Scan(j, pos + 1, |j.data|, Fresh(pos + 1), Some(pos)))
  {
  }

  lemma OverScan(j: Job, at: Place, f: Flight, last: Option<nat>)
    requires f.state == StateFor(at)
    ensures var r := f.fields + [f.cur];
            Scan(j, |j.data|, |j.data|, f, last) ==
              if Judged(j, r, f.recordIn).Some? then Err([], Judged(j, r, f.recordIn).value) else Ok([r], Some(|j.data|))
  {
  }

  lemma StrayScan(j: Job, pos: nat, at: Place, bnd: nat, b: byte, rest: seq<byte>, f: Flight, last: Option<nat>)
    requires j.cfg.Valid() && pos < |j.data| && LegalEnd(j.cfg, at, Stray(b, rest), true) && j.data[pos] == b && f.state == StateFor(at)
    ensures Scan(j, pos, bnd, f, last) == Err([], InvalidQuote(pos))
  {
  }

  /** Quotes that stay open to the end of the input. */
  lemma OpenScan(j: Job, pos: nat, at: Place, bnd: nat, ls: seq<Letter>, dangling: bool, f: Flight, last: Option<nat>)
    requires j.cfg.Valid() && LegalEnd(j.cfg, at, Open(ls, dangling), true) && f.state == StateFor(at)
    requires Shows(j, pos, WriteEnd(j.cfg, Open(ls, dangling)), [])
    ensures pos <= |j.data| && Scan(j, pos, bnd, f, last) == Err([], UnclosedQuote(f.fieldIn))
  {
    hide *;
    OpenIs(j.cfg, at, ls, dangling);
    var q, w, d := [j.cfg.quote.value], WriteLetters(j.cfg, ls), if dangling then [j.cfg.escape.value] else [];
    assert q + w + d == q + (w + d);
    ShowsSplit(j, pos, q, w + d, []);
    ShowsByte(j, pos, q, w + d + []);
    ShowsSplit(j, pos + 1, w, d, []);
    ShowsEnd(j, pos + 1 + |w|, d, []);
    QuoteCells(j.cfg, at);
    StatesFor(at);
    SyntaxByte(j, pos, bnd, f, last);
    LettersScan(j, pos + 1, ls, d + [], bnd, f.(state := InQuotedField), last);
    var g := f.(state := InQuotedField, cur := f.cur + LettersSay(ls));
    if dangling {
      ShowsByte(j, pos + 1 + |w|, d, []);
      SyntaxByte(j, pos + 1 + |w|, bnd, g, last);
      Unclosed(j, bnd, g.(state := InEscapedQuote), last);
    } else {
      Unclosed(j, bnd, g, last);
    }
  }

  lemma OpenIs(c: Config, at: Place, ls: seq<Letter>, dangling: bool)
    requires LegalEnd(c, at, Open(ls, dangling), true)
    ensures MayOpen(c, at) && LegalLetters(c, ls) && c.quote.Some? && (dangling ==> c.escape.Some?)
    ensures WriteEnd(c, Open(ls, dangling)) == [c.quote.value] + WriteLetters(c, ls) + (if dangling then [c.escape.value] else [])
    ensures dangling ==> var t := Cell(c, InQuotedField, c.escape.value); t.next == InEscapedQuote && !t.output && InQuotes(t.next)
  {
  }

  lemma Unclosed(j: Job, bnd: nat, f: Flight, last: Option<nat>)
    requires InQuotes(f.state)
    ensures Scan(j, |j.data|, bnd, f, last) == Err([], UnclosedQuote(f.fieldIn))
  {
  }

  /** A row, up to and with what ends it. */
  lemma RowScan(j: Job, pos: nat, fields: seq<Text>, e: End, tail: seq<byte>, f: Flight, last: Option<nat>)
    requires j.cfg.Valid() && LegalRow(j.cfg, fields, e, tail == []) && Shows(j, pos, WriteFields(j.cfg, fields) + WriteEnd(j.cfg, e), tail)
    requires f.state.RecordStart? && Idle(f)
    ensures var at, next := pos + |WriteFields(j.cfg, fields)|, pos + |WriteFields(j.cfg, fields)| + |WriteEnd(j.cfg, e)|;
            var r := FieldsSay(fields);
            && next <= |j.data|
            && Scan(j, pos, |j.data|, f, last) ==
                 if e.Stray? then Err([], InvalidQuote(at))
                 else if e.Open? then Err([], UnclosedQuote(pos + LastStart(j.cfg, fields)))
                 else if Judged(j, r, pos).Some? then Err([], Judged(j, r, pos).value)
                 else if e.Over? then Ok([r], Some(at))
                 else Prepend([r], Scan(j, next, |j.data|, Fresh(next), Some(at)))
  {
    hide *;
    RowIs(j.cfg, fields, e, tail == []);
    var w, v, n := WriteFields(j.cfg, fields), WriteEnd(j.cfg, e), |j.data|;
    RowByte(j.cfg, fields, e, tail == []);
    ShowsByte(j, pos, w + v, tail);
    StartsField(j, pos, n, f, last);
    ShowsSplit(j, pos, w, v, tail);
    ShowsEnd(j, pos + |w|, v, tail);
    var g := FieldsScan(j, pos, fields, v + tail, n, Flight(FieldStart, [], [], pos, pos), last);
    assert [] + FieldsSay(fields) == FieldsSay(fields);
    var at := PlaceAfter(First, fields[|fields| - 1]);
    EndIs(j.cfg, at, e, tail == []);
    match e
    case Closed(t) =>
      ShowsByte(j, pos + |w|, v, tail);
      ClosedScan(j, pos + |w|, at, g, last);
    case Over => OverScan(j, at, g, last);
    case Open(ls, dangling) => OpenScan(j, pos + |w|, at, n, ls, dangling, g, last);
    case Stray(b, rest) =>
      ShowsByte(j, pos + |w|, v, tail);
      StrayScan(j, pos + |w|, at, n, b, rest, g, last);
  }

  lemma RowIs(c: Config, fields: seq<Text>, e: End, last: bool)
    requires LegalRow(c, fields, e, last)
    ensures fields != [] && (forall i :: 0 <= i < |fields| ==> LegalText(c, First, fields[i]))
    ensures LegalEnd(c, PlaceAfter(First, fields[|fields| - 1]), e, last)
  {
    hide LegalText, LegalEnd;
  }

  lemma EndIs(c: Config, at: Place, e: End, last: bool)
    requires LegalEnd(c, at, e, last)
    ensures e.Closed? ==> WriteEnd(c, e) == [e.term] && c.IsTerm(e.term)
    ensures !e.Closed? ==> last && LegalEnd(c, at, e, true)
    ensures e.Over? ==> WriteEnd(c, e) == []
    ensures e.Stray? ==> WriteEnd(c, e) != [] && WriteEnd(c, e)[0] == e.b
  {
  }

  /** A comment's bytes say nothing. */
  lemma {:induction false} CommentScan(j: Job, pos: nat, bytes: seq<byte>, tail: seq<byte>, bnd: nat, f: Flight, last: Option<nat>)
    requires Shows(j, pos, bytes, tail) && (forall i :: 0 <= i < |bytes| ==> !EndsComment(j.cfg, bytes[i])) && f.state.InComment?
    ensures pos + |bytes| <= |j.data| && Scan(j, pos, bnd, f, last) == Scan(j, pos + |bytes|, bnd, f, last)
    decreases |bytes|
  {
    hide Scan, Shows;
    ShowsEnd(j, pos, bytes, tail);
    if bytes != [] {
      ShowsByte(j, pos, bytes, tail);
      InCommentByte(j, pos, bnd, f, last);
      CommentScan(j, pos + 1, bytes[1..], tail, bnd, f, last);
    }
  }

  lemma InCommentByte(j: Job, pos: nat, bnd: nat, f: Flight, last: Option<nat>)
    requires pos < |j.data| && f.state.InComment?
    ensures Scan(j, pos, bnd, f, last) == Scan(j, pos + 1, bnd, if EndsComment(j.cfg, j.data[pos]) then f.(state := RecordStart) else f, last)
  {
  }

  lemma OpensComment(j: Job, pos: nat, bnd: nat, f: Flight, last: Option<nat>)
    requires j.cfg.Valid() && pos < |j.data| && j.cfg.comment == Some(j.data[pos]) && f.state.RecordStart? && Idle(f)
    ensures Scan(j, pos, bnd, f, last) == Scan(j, pos + 1, bnd, Flight(InComment, [], [], pos, pos), last)
  {
  }

  /** Nothing is in flight between records. */
  lemma NothingLeft(j: Job, bnd: nat, f: Flight, last: Option<nat>)
    requires f.state.RecordStart? || f.state.InComment?
    ensures Scan(j, |j.data|, bnd, f, last) == Ok([], last)
  {
  }

  /** A line of comment. */
  lemma CommentLine(j: Job, pos: nat, bytes: seq<byte>, eol: Option<byte>, tail: seq<byte>, f: Flight, last: Option<nat>) returns (g: Flight)
    requires j.cfg.Valid() && LegalLine(j.cfg, Comment(bytes, eol), tail == []) && f.state.RecordStart? && Idle(f)
    requires Shows(j, pos, WriteLine(j.cfg, Comment(bytes, eol)), tail)
    ensures var p := pos + |WriteLine(j.cfg, Comment(bytes, eol))|;
            p <= |j.data| && Scan(j, pos, |j.data|, f, last) == Scan(j, p, |j.data|, g, last)
    ensures Idle(g) && (g.state.RecordStart? || (eol.None? && g.state.InComment?))
  {
    hide *;
    CommentIs(j.cfg, bytes, eol, tail == []);
    var k, e, n := [j.cfg.comment.value], if eol.Some? then [eol.value] else [], |j.data|;
    ShowsByte(j, pos, k + (bytes + e), tail);
    ShowsSplit(j, pos, k, bytes + e, tail);
    ShowsSplit(j, pos + 1, bytes, e, tail);
    ShowsEnd(j, pos + 1 + |bytes|, e, tail);
    OpensComment(j, pos, n, f, last);
    var c := Flight(InComment, [], [], pos, pos);
    CommentIsIdle(c);
    CommentScan(j, pos + 1, bytes, e + tail, n, c, last);
    g := c;
    if eol.Some? {
      ShowsByte(j, pos + 1 + |bytes|, e, tail);
      InCommentByte(j, pos + 1 + |bytes|, n, c, last);
      g := c.(state := RecordStart);
    }
  }

  lemma CommentIsIdle(f: Flight)
    requires f.fields == [] && f.cur == []
    ensures Idle(f) && Idle(f.(state := RecordStart))
  {
  }

  lemma CommentIs(c: Config, bytes: seq<byte>, eol: Option<byte>, last: bool)
    requires LegalLine(c, Comment(bytes, eol), last)
    ensures c.comment.Some? && WriteLine(c, Comment(bytes, eol)) == [c.comment.value] + (bytes + if eol.Some? then [eol.value] else [])
    ensures (forall i :: 0 <= i < |bytes| ==> !EndsComment(c, bytes[i])) && (eol.Some? ==> EndsComment(c, eol.value))
  {
    hide EndsComment;
  }

  lemma EmptyLine(j: Job, pos: nat, f: Flight, last: Option<nat>)
    requires pos < |j.data| && j.cfg.IsTerm(j.data[pos]) && f.state.RecordStart?
    ensures Scan(j, pos, |j.data|, f, last) == Scan(j, pos + 1, |j.data|, f, last)
  {
  }

  /**
   * Reading a writing yields what it says, for every valid dialect and any quote handling: the rows
   * in order with their contents, up to the first failure and with its place.
   */
  lemma {:induction false} ReadsAsWritten(j: Job, pos: nat, lines: seq<Line>, f: Flight, last: Option<nat>)
    requires j.cfg.Valid() && Legal(j.cfg, lines) && Shows(j, pos, WriteLines(j.cfg, lines), [])
    requires (f.state.RecordStart? || (f.state.InComment? && lines == [])) && Idle(f)
    ensures pos <= |j.data| && Scan(j, pos, |j.data|, f, last) == Meaning(j, pos, lines, last)
    decreases |lines|
  {
    hide *;
    var n := |j.data|;
    ShowsEnd(j, pos, WriteLines(j.cfg, lines), []);
    LinesStep(j, pos, lines, last);
    MeaningOfNothing(j, pos + |WriteLines(j.cfg, lines)|, last);
    if lines == [] {
      NothingLeft(j, n, f, last);
      return;
    }
    MeaningStep(j, pos, lines, last);
    var l, w, rest := lines[0], WriteLine(j.cfg, lines[0]), WriteLines(j.cfg, lines[1..]);
    assert rest + [] == rest;
    ShowsSplit(j, pos, w, rest, []);
    ShowsEnd(j, pos, w, rest);
    var next := pos + |w|;
    FreshIsIdle(next);
    LineIs(j.cfg, lines);
    match l
    case Empty(t) =>
      ShowsByte(j, pos, w, rest);
      EmptyLine(j, pos, f, last);
      ReadsAsWritten(j, next, lines[1..], f, last);
    case Comment(bytes, eol) =>
      var g := CommentLine(j, pos, bytes, eol, rest, f, last);
      ReadsAsWritten(j, next, lines[1..], g, last);
    case Row(fields, e) =>
      RowLegal(j.cfg, fields, e, |lines| == 1, rest == []);
      RowScan(j, pos, fields, e, rest, f, last);
      if e.Closed? {
        ReadsAsWritten(j, next, lines[1..], Fresh(next), Some(pos + |WriteFields(j.cfg, fields)|));
      } else if e.Over? {
        MeaningOfNothing(j, next, Some(pos + |WriteFields(j.cfg, fields)|));
        PrependOne(FieldsSay(fields), Some(pos + |WriteFields(j.cfg, fields)|));
      }
  }

  lemma RowLegal(c: Config, fields: seq<Text>, e: End, last: bool, empty: bool)
    requires LegalRow(c, fields, e, last) && (last ==> empty)
    ensures LegalRow(c, fields, e, empty)
  {
    hide LegalText, MayOpen, LegalLetters;
  }

  lemma FreshIsIdle(pos: nat)
    ensures Idle(Fresh(pos)) && Fresh(pos).state.RecordStart?
  {
  }

  lemma PrependOne(r: Record, end: Option<nat>)
    ensures Prepend([r], Ok([], end)) == Ok([r], end)
  {
  }

  lemma LineIs(c: Config, lines: seq<Line>)
    requires Legal(c, lines) && lines != []
    ensures lines[0].Empty? ==> WriteLine(c, lines[0]) == [lines[0].term] && c.IsTerm(lines[0].term)
    ensures lines[0].Comment? && lines[0].eol.None? ==> lines[1..] == []
    ensures lines[0].Row? ==>
              && LegalRow(c, lines[0].fields, lines[0].end, |lines| == 1)
              && WriteLine(c, lines[0]) == WriteFields(c, lines[0].fields) + WriteEnd(c, lines[0].end)
              && (|lines| == 1 ==> WriteLines(c, lines[1..]) == []) && (lines[0].end.Over? ==> lines[1..] == [] && WriteEnd(c, lines[0].end) == [])
  {
    hide EndsComment, LegalText, MayOpen, LegalLetters, WriteFields;
  }

  /** What a line adds to the meaning. */
  lemma MeaningStep(j: Job, pos: nat, lines: seq<Line>, last: Option<nat>)
    requires lines != []
    ensures var next := pos + |WriteLine(j.cfg, lines[0])|;
            && (!lines[0].Row? ==> Meaning(j, pos, lines, last) == Meaning(j, next, lines[1..], last))
            && (lines[0].Row? ==>
                  var fields, e := lines[0].fields, lines[0].end;
                  var at, r := pos + |WriteFields(j.cfg, fields)|, FieldsSay(fields);
                  Meaning(j, pos, lines, last) ==
                    if e.Stray? then Err([], InvalidQuote(at))
                    else if e.Open? then Err([], UnclosedQuote(pos + LastStart(j.cfg, fields)))
                    else if Judged(j, r, pos).Some? then Err([], Judged(j, r, pos).value)
                    else Prepend([r], Meaning(j, next, lines[1..], Some(at))))
  {
    hide WriteLine, WriteFields, FieldsSay, LastStart;
  }

  lemma MeaningOfNothing(j: Job, pos: nat, last: Option<nat>)
    ensures Meaning(j, pos, [], last) == Ok([], last)
  {
  }

  lemma LinesStep(j: Job, pos: nat, lines: seq<Line>, last: Option<nat>)
    requires j.cfg.Valid() && Legal(j.cfg, lines)
    ensures lines == [] ==> WriteLines(j.cfg, lines) == [] && Meaning(j, pos, lines, last) == Ok([], last)
    ensures lines != [] ==>
              && LegalLine(j.cfg, lines[0], |lines| == 1) && Legal(j.cfg, lines[1..])
              && LegalLine(j.cfg, lines[0], WriteLines(j.cfg, lines[1..]) == [])
              && WriteLines(j.cfg, lines) == WriteLine(j.cfg, lines[0]) + WriteLines(j.cfg, lines[1..])
  {
  }

  /** Letters up to the quote that closes them and what is behind it, or letters that stay open. */
  ghost predicate Lettered(c: Config, data: seq<byte>, ls: seq<Letter>, closed: bool, dangling: bool, behind: seq<byte>) {
    && c.quote.Some? && LegalLetters(c, ls)
    && if closed then
         && data == WriteLetters(c, ls) + [c.quote.value] + behind && |behind| < |data|
         && (c.Doubled() && behind != [] ==> !c.IsQuote(behind[0]))
       else data == WriteLetters(c, ls) + (if dangling then Opt(c.escape) else []) && (dangling ==> c.escape.Some? && !c.Doubled())
  }

  lemma LetteredMore(c: Config, l: Letter, rest: seq<byte>, more: seq<Letter>, closed: bool, dangling: bool, behind: seq<byte>)
    requires LegalLetter(c, l) && Lettered(c, rest, more, closed, dangling, behind)
    ensures Lettered(c, (if l.Escaped? then Opt(c.escape) else []) + [l.b] + rest, [l] + more, closed, dangling, behind)
  {
    hide LegalLetter;
    var ls := [l] + more;
    assert ls[1..] == more;
    var w, v := (if l.Escaped? then Opt(c.escape) else []) + [l.b], WriteLetters(c, more);
    assert WriteLetters(c, ls) == w + v;
    hide WriteLetters, Opt;
    if closed {
      assert w + (v + [c.quote.value] + behind) == w + v + [c.quote.value] + behind;
    } else {
      var d := if dangling then Opt(c.escape) else [];
      assert w + (v + d) == w + v + d;
    }
  }

  lemma LetteredOver(c: Config)
    requires c.quote.Some?
    ensures Lettered(c, [], [], false, false, [])
  {
  }

  lemma LetteredDangling(c: Config, b: byte)
    requires c.quote.Some? && c.escape == Some(b) && !c.Doubled()
    ensures Lettered(c, [b], [], false, true, [])
  {
  }

  lemma LetteredClosed(c: Config, b: byte, behind: seq<byte>)
    requires c.IsQuote(b) && (c.Doubled() && behind != [] ==> !c.IsQuote(behind[0]))
    ensures Lettered(c, [b] + behind, [], true, false, behind)
  {
    assert [] + [b] + behind == [b] + behind;
  }

  lemma {:induction false} SomeLetters(c: Config, data: seq<byte>) returns (ls: seq<Letter>, closed: bool, dangling: bool, behind: seq<byte>)
    requires c.Valid() && c.quote.Some?
    ensures Lettered(c, data, ls, closed, dangling, behind)
    decreases |data|
  {
    hide Lettered;
    ls, closed, dangling, behind := [], false, false, [];
    if data == [] {
      LetteredOver(c);
      return;
    }
    var b, rest := data[0], data[1..];
    assert data == [b] + rest;
    if c.escape == Some(b) && (!c.Doubled() || (rest != [] && c.IsQuote(rest[0]))) {
      if rest == [] {
        assert data == [b];
        dangling := true;
        LetteredDangling(c, b);
        return;
      }
      assert data == [b] + [rest[0]] + rest[1..];
      ls, closed, dangling, behind := SomeLetters(c, rest[1..]);
      LetteredMore(c, Escaped(rest[0]), rest[1..], ls, closed, dangling, behind);
      ls := [Escaped(rest[0])] + ls;
    } else if c.IsQuote(b) {
      closed, behind := true, rest;
      LetteredClosed(c, b, rest);
    } else {
      assert data == [] + [b] + rest;
      ls, closed, dangling, behind := SomeLetters(c, rest);
      LetteredMore(c, Plain(b), rest, ls, closed, dangling, behind);
      ls := [Plain(b)] + ls;
    }
  }

  /** A field from `at` on with what follows in its row, and the lines behind. */
  ghost predicate Spells(c: Config, at: Place, data: seq<byte>, t: Text, fs: seq<Text>, e: End, lines: seq<Line>) {
    && LegalText(c, at, t) && (forall i :: 0 <= i < |fs| ==> LegalText(c, First, fs[i]))
    && LegalEnd(c, if fs == [] then PlaceAfter(at, t) else PlaceAfter(First, fs[|fs| - 1]), e, lines == []) && Legal(c, lines)
    && data == WriteFields(c, [t] + fs) + WriteEnd(c, e) + WriteLines(c, lines)
  }

  /** A row may end behind nothing. */
  lemma SpellsNothing(c: Config, at: Place, e: End, lines: seq<Line>)
    requires LegalEnd(c, at, e, lines == []) && Legal(c, lines)
    ensures Spells(c, at, WriteEnd(c, e) + WriteLines(c, lines), [], [], e, lines)
  {
    hide *;
    NothingWritten(c, at);
    var one: seq<Text> := [[]];
    assert one + [] == one && one[0] == [];
    FieldsStep(c, one);
    assert [] + WriteEnd(c, e) + WriteLines(c, lines) == WriteEnd(c, e) + WriteLines(c, lines);
    IsSpelled(c, at, WriteEnd(c, e) + WriteLines(c, lines), [], [], e, lines);
  }

  lemma SpellsIs(c: Config, at: Place, data: seq<byte>, t: Text, fs: seq<Text>, e: End, lines: seq<Line>)
    requires Spells(c, at, data, t, fs, e, lines)
    ensures LegalText(c, at, t) && (forall i :: 0 <= i < |fs| ==> LegalText(c, First, fs[i])) && Legal(c, lines)
    ensures LegalEnd(c, if fs == [] then PlaceAfter(at, t) else PlaceAfter(First, fs[|fs| - 1]), e, lines == [])
    ensures data == WriteFields(c, [t] + fs) + WriteEnd(c, e) + WriteLines(c, lines)
  {
    hide LegalText, LegalEnd, Legal, PlaceAfter, WriteFields, WriteEnd, WriteLines;
  }

  lemma IsSpelled(c: Config, at: Place, data: seq<byte>, t: Text, fs: seq<Text>, e: End, lines: seq<Line>)
    requires LegalText(c, at, t) && (forall i :: 0 <= i < |fs| ==> LegalText(c, First, fs[i])) && Legal(c, lines)
    requires LegalEnd(c, if fs == [] then PlaceAfter(at, t) else PlaceAfter(First, fs[|fs| - 1]), e, lines == [])
    requires data == WriteFields(c, [t] + fs) + WriteEnd(c, e) + WriteLines(c, lines)
    ensures Spells(c, at, data, t, fs, e, lines)
  {
    hide LegalText, LegalEnd, Legal, PlaceAfter, WriteFields, WriteEnd, WriteLines;
  }

  lemma SpellsDelim(c: Config, at: Place, rest: seq<byte>, t: Text, fs: seq<Text>, e: End, lines: seq<Line>)
    requires Spells(c, First, rest, t, fs, e, lines)
    ensures Spells(c, at, [c.delimiter] + rest, [], [t] + fs, e, lines)
  {
    hide *;
    SpellsIs(c, First, rest, t, fs, e, lines);
    NothingWritten(c, at);
    var all: seq<Text> := [t] + fs;
    var whole: seq<Text> := [[]] + all;
    assert whole[1..] == all && whole[0] == [];
    FieldsStep(c, whole);
    var d, v, u, w := [c.delimiter], WriteFields(c, all), WriteEnd(c, e), WriteLines(c, lines);
    assert [] + d + v == d + v;
    assert d + (v + u + w) == d + v + u + w;
    IsSpelled(c, at, d + rest, [], all, e, lines);
  }

  lemma SpellsPiece(c: Config, at: Place, p: Piece, rest: seq<byte>, t: Text, fs: seq<Text>, e: End, lines: seq<Line>)
    requires LegalPiece(c, at, p) && Spells(c, Behind(p), rest, t, fs, e, lines)
    ensures Spells(c, at, WritePiece(c, p) + rest, [p] + t, fs, e, lines)
  {
    hide *;
    SpellsIs(c, Behind(p), rest, t, fs, e, lines);
    var all: Text := [p] + t;
    TextMore(c, at, p, t);
    var long, short: seq<Text> := [all] + fs, [t] + fs;
    assert long[1..] == fs == short[1..];
    FieldsStep(c, long);
    FieldsStep(c, short);
    var q, v, u, w := WritePiece(c, p), WriteFields(c, short), WriteEnd(c, e), WriteLines(c, lines);
    if |fs| > 0 {
      var x, y := [c.delimiter], WriteFields(c, fs);
      assert q + WriteText(c, t) + x + y == q + (WriteText(c, t) + x + y);
    }
    assert q + (v + u + w) == q + v + u + w;
    IsSpelled(c, at, q + rest, all, fs, e, lines);
  }

  lemma TextMore(c: Config, at: Place, p: Piece, t: Text)
    requires LegalPiece(c, at, p) && LegalText(c, Behind(p), t)
    ensures LegalText(c, at, [p] + t) && WriteText(c, [p] + t) == WritePiece(c, p) + WriteText(c, t) && PlaceAfter(at, [p] + t) == PlaceAfter(Behind(p), t)
  {
    hide LegalPiece, WritePiece;
    assert ([p] + t)[1..] == t;
  }

  /** The rest of a row, and the lines behind it. */
  lemma {:induction false} SomeRow(c: Config, at: Place, data: seq<byte>) returns (t: Text, fs: seq<Text>, e: End, lines: seq<Line>)
    requires c.Valid() && !(at.BehindQuoted? && c.Doubled() && data != [] && c.IsQuote(data[0]))
    ensures Spells(c, at, data, t, fs, e, lines)
    decreases |data|, 0
  {
    hide Spells, WriteLetters, Legal, WriteLines, LegalLetters, Lettered, WriteText, WriteFields;
    t, fs, e, lines := [], [], Over, [];
    if data == [] {
      NothingWritten(c, at);
      SpellsNothing(c, at, e, []);
      assert data == WriteEnd(c, e) + [];
      return;
    }
    var b, rest := data[0], data[1..];
    assert data == [b] + rest;
    if b == c.delimiter {
      var u, us;
      u, us, e, lines := SomeRow(c, First, rest);
      SpellsDelim(c, at, rest, u, us, e, lines);
      fs := [u] + us;
    } else if c.IsTerm(b) {
      e := Closed(b);
      lines := SomeLines(c, rest);
      SpellsNothing(c, at, e, lines);
    } else if c.IsQuote(b) && MayOpen(c, at) {
      var ls, closed, dangling, behind := SomeLetters(c, rest);
      LetteredIs(c, data, ls, closed, dangling, behind);
      if closed {
        t, fs, e, lines := SomeRow(c, BehindQuoted, behind);
        SpellsPiece(c, at, Quoted(ls), behind, t, fs, e, lines);
        t := [Quoted(ls)] + t;
      } else {
        e := Open(ls, dangling);
        NothingWritten(c, at);
        SpellsNothing(c, at, e, []);
        assert data == WriteEnd(c, e) + [];
      }
    } else if MayFollow(c, at, b) {
      t, fs, e, lines := SomeRow(c, BehindBare, rest);
      SpellsPiece(c, at, Bare(b), rest, t, fs, e, lines);
      t := [Bare(b)] + t;
    } else {
      e := Stray(b, rest);
      NothingWritten(c, at);
      SpellsNothing(c, at, e, []);
      assert data == WriteEnd(c, e) + [];
    }
  }

  /** Every input is written by some lines. */
  lemma {:induction false} SomeLines(c: Config, data: seq<byte>) returns (lines: seq<Line>)
    requires c.Valid()
    ensures Legal(c, lines) && WriteLines(c, lines) == data
    decreases |data|, 1
  {
    hide Spells, LegalRow, WriteFields, WriteEnd;
    if data == [] {
      return [];
    }
    var b, rest := data[0], data[1..];
    assert data == [b] + rest;
    if c.IsTerm(b) {
      var more := SomeLines(c, rest);
      lines := LineBefore(c, Empty(b), more);
    } else if c.comment == Some(b) {
      var bytes, eol, behind := SomeComment(c, rest);
      var more := [];
      if eol.Some? {
        more := SomeLines(c, behind);
      } else {
        NothingWritten(c, First);
      }
      CommentBefore(c, bytes, eol, more, rest, behind);
      lines := LineBefore(c, Comment(bytes, eol), more);
    } else {
      var t, fs, e, more := SomeRow(c, First, data);
      RowSpelled(c, data, t, fs, e, more);
      lines := LineBefore(c, Row([t] + fs, e), more);
    }
  }

  lemma CommentBefore(c: Config, bytes: seq<byte>, eol: Option<byte>, more: seq<Line>, rest: seq<byte>, behind: seq<byte>)
    requires c.comment.Some? && rest == bytes + Opt(eol) + behind && WriteLines(c, more) == behind && (eol.None? ==> more == [])
    requires (forall i :: 0 <= i < |bytes| ==> !EndsComment(c, bytes[i])) && (eol.Some? ==> EndsComment(c, eol.value))
    ensures LegalLine(c, Comment(bytes, eol), more == []) && [c.comment.value] + rest == WriteLine(c, Comment(bytes, eol)) + WriteLines(c, more)
  {
    hide WriteLines, EndsComment;
    var k := [c.comment.value];
    assert k + (bytes + Opt(eol) + behind) == k + bytes + Opt(eol) + behind;
  }

  lemma LineBefore(c: Config, l: Line, more: seq<Line>) returns (lines: seq<Line>)
    requires LegalLine(c, l, more == []) && Legal(c, more)
    ensures lines == [l] + more && Legal(c, lines) && WriteLines(c, lines) == WriteLine(c, l) + WriteLines(c, more)
  {
    lines := [l] + more;
    assert lines[1..] == more;
  }

  lemma {:induction false} SomeComment(c: Config, data: seq<byte>) returns (bytes: seq<byte>, eol: Option<byte>, behind: seq<byte>)
    ensures data == bytes + Opt(eol) + behind && (eol.None? ==> behind == []) && (eol.Some? ==> EndsComment(c, eol.value) && |behind| < |data|)
    ensures forall i :: 0 <= i < |bytes| ==> !EndsComment(c, bytes[i])
    decreases |data|
  {
    if data == [] {
      return [], None, [];
    }
    assert data == [data[0]] + data[1..];
    if EndsComment(c, data[0]) {
      return [], Some(data[0]), data[1..];
    }
    bytes, eol, behind := SomeComment(c, data[1..]);
    bytes := [data[0]] + bytes;
  }

  /** What is spelled from a record's start on is a row, if it is no blank line and no comment. */
  lemma RowSpelled(c: Config, data: seq<byte>, t: Text, fs: seq<Text>, e: End, more: seq<Line>)
    requires c.Valid() && Spells(c, First, data, t, fs, e, more) && data != [] && !c.IsTerm(data[0]) && c.comment != Some(data[0])
    ensures LegalRow(c, [t] + fs, e, more == []) && Legal(c, more) && data == WriteLine(c, Row([t] + fs, e)) + WriteLines(c, more)
  {
    hide *;
    SpellsIs(c, First, data, t, fs, e, more);
    var all: seq<Text> := [t] + fs;
    assert all[1..] == fs && all[|all| - 1] == if fs == [] then t else fs[|fs| - 1];
    FieldsStep(c, all);
    TextStep(c, First, t);
    NothingWritten(c, First);
    if all == [[]] && !e.Open? {
      EndIs(c, PlaceAfter(First, t), e, more == []);
      NeverStray(c, PlaceAfter(First, t), e, more == []);
    }
    if t != [] && t[0].Bare? {
      PieceIs(c, First, t[0]);
    }
    IsRow(c, all, e, more == []);
  }

  lemma NeverStray(c: Config, at: Place, e: End, last: bool)
    requires LegalEnd(c, at, e, last)
    ensures at.First? ==> !e.Stray?
  {
  }

  lemma IsRow(c: Config, fields: seq<Text>, e: End, last: bool)
    requires fields != [] && (forall i :: 0 <= i < |fields| ==> LegalText(c, First, fields[i]))
    requires LegalEnd(c, PlaceAfter(First, fields[|fields| - 1]), e, last) && (fields == [[]] ==> e.Open?)
    requires fields[0] != [] && fields[0][0].Bare? ==> c.comment != Some(fields[0][0].b)
    ensures LegalRow(c, fields, e, last) && WriteLine(c, Row(fields, e)) == WriteFields(c, fields) + WriteEnd(c, e)
  {
    hide LegalText, LegalEnd;
  }

  lemma NothingWritten(c: Config, at: Place)
    ensures WriteText(c, []) == [] && WriteLines(c, []) == [] && LegalText(c, at, []) && PlaceAfter(at, []) == at && Legal(c, [])
  {
  }

  lemma LetteredIs(c: Config, data: seq<byte>, ls: seq<Letter>, closed: bool, dangling: bool, behind: seq<byte>)
    requires data != [] && c.IsQuote(data[0]) && Lettered(c, data[1..], ls, closed, dangling, behind)
    ensures LegalLetters(c, ls) && c.quote.Some?
    ensures closed ==> data == WritePiece(c, Quoted(ls)) + behind && |behind| < |data| && (c.Doubled() && behind != [] ==> !c.IsQuote(behind[0]))
    ensures !closed ==> data == WriteEnd(c, Open(ls, dangling)) && (dangling ==> c.escape.Some? && !c.Doubled())
  {
    hide LegalLetters, WriteLetters;
    var q, w := [c.quote.value], WriteLetters(c, ls);
    assert data == q + data[1..];
    if closed {
      assert q + (w + q + behind) == q + w + q + behind;
    } else {
      var d := if dangling then Opt(c.escape) else [];
      assert q + (w + d) == q + w + d;
    }
  }

  /**
   * The dialect, without its table: every input is written by some lines, and reading it yields
   * exactly what they say.
   */
  lemma ReadingUndoesWriting(j: Job)
    requires j.cfg.Valid()
    ensures exists lines :: Legal(j.cfg, lines) && WriteLines(j.cfg, lines) == j.data
    ensures forall lines :: Legal(j.cfg, lines) && WriteLines(j.cfg, lines) == j.data ==> Scan(j, 0, |j.data|, Fresh(0), None) == Meaning(j, 0, lines, None)
  {
    hide *;
    var some := SomeLines(j.cfg, j.data);
    forall lines | Legal(j.cfg, lines) && WriteLines(j.cfg, lines) == j.data
      ensures Scan(j, 0, |j.data|, Fresh(0), None) == Meaning(j, 0, lines, None)
    {
      AllShown(j);
      FreshIsIdle(0);
      ReadsAsWritten(j, 0, lines, Fresh(0), None);
    }
  }

  lemma AllShown(j: Job)
    ensures Shows(j, 0, j.data, [])
  {
    assert j.data[0..] == j.data + [];
  }
}
