/**
 * The dialect as a way of writing records down, without states: letters, pieces, fields, rows and
 * lines. Every byte sequence is written by some lines, so this says what reading it must yield.
 */
module Writing {
  import opened Dialect
  import opened Records

  /** A byte between quotes, as it is or behind the escape byte. */
  datatype Letter = Plain(b: byte) | Escaped(b: byte)

  /** A field is a sequence of bytes outside quotes and of quoted stretches. */
  datatype Piece = Bare(b: byte) | Quoted(letters: seq<Letter>)

  type Text = seq<Piece>

  /**
   * A row ends on a terminator or with the input; or it goes wrong, in quotes that stay open,
   * perhaps behind a last escape byte, or on a byte that strict quoting refuses.
   */
  datatype End =
    | Closed(term: byte)
    | Over
    | Open(letters: seq<Letter>, dangling: bool)
    | Stray(b: byte, rest: seq<byte>)

  datatype Line =
    | Empty(term: byte)
    | Comment(bytes: seq<byte>, eol: Option<byte>)
    | Row(fields: seq<Text>, end: End)

  function Opt(b: Option<byte>): seq<byte> {
    if b.Some? then [b.value] else []
  }

  function WriteLetters(c: Config, ls: seq<Letter>): seq<byte> {
    if ls == [] then []
    else (if ls[0].Escaped? then Opt(c.escape) else []) + [ls[0].b] + WriteLetters(c, ls[1..])
  }

  function WritePiece(c: Config, p: Piece): seq<byte> {
    match p
    case Bare(b) => [b]
    case Quoted(ls) => Opt(c.quote) + WriteLetters(c, ls) + Opt(c.quote)
  }

  function WriteText(c: Config, ps: Text): seq<byte> {
    if ps == [] then [] else WritePiece(c, ps[0]) + WriteText(c, ps[1..])
  }

  /** Delimiters stand between fields. */
  function WriteFields(c: Config, fs: seq<Text>): seq<byte> {
    if fs == [] then []
    else if |fs| == 1 then WriteText(c, fs[0])
    else WriteText(c, fs[0]) + [c.delimiter] + WriteFields(c, fs[1..])
  }

  /** Where in a row its last field starts. */
  function LastStart(c: Config, fs: seq<Text>): nat {
    if |fs| <= 1 then 0 else |WriteText(c, fs[0])| + 1 + LastStart(c, fs[1..])
  }

  function WriteEnd(c: Config, e: End): seq<byte> {
    match e
    case Closed(t) => [t]
    case Over => []
    case Open(ls, dangling) => Opt(c.quote) + WriteLetters(c, ls) + (if dangling then Opt(c.escape) else [])
    case Stray(b, rest) => [b] + rest
  }

  function WriteLine(c: Config, l: Line): seq<byte> {
    match l
    case Empty(t) => [t]
    case Comment(bytes, eol) => Opt(c.comment) + bytes + Opt(eol)
    case Row(fields, end) => WriteFields(c, fields) + WriteEnd(c, end)
  }

  function WriteLines(c: Config, ls: seq<Line>): seq<byte> {
    if ls == [] then [] else WriteLine(c, ls[0]) + WriteLines(c, ls[1..])
  }

  /** What a field says. */
  function LettersSay(ls: seq<Letter>): seq<byte> {
    if ls == [] then [] else [ls[0].b] + LettersSay(ls[1..])
  }

  function PieceSays(p: Piece): seq<byte> {
    match p
    case Bare(b) => [b]
    case Quoted(ls) => LettersSay(ls)
  }

  function TextSays(ps: Text): seq<byte> {
    if ps == [] then [] else PieceSays(ps[0]) + TextSays(ps[1..])
  }

  function FieldsSay(fs: seq<Text>): Record {
    if fs == [] then [] else [TextSays(fs[0])] + FieldsSay(fs[1..])
  }

  /** Between quotes, quote and escape bytes are escaped; a doubled quote escapes nothing but quotes. */
  predicate LegalLetter(c: Config, l: Letter) {
    match l
    case Plain(b) => !c.IsQuote(b) && c.escape != Some(b)
    case Escaped(b) => c.escape.Some? && (c.Doubled() ==> c.IsQuote(b))
  }

  predicate LegalLetters(c: Config, ls: seq<Letter>) {
    forall i :: 0 <= i < |ls| ==> LegalLetter(c, ls[i])
  }

  /** Where in a field a piece stands. */
  datatype Place = First | BehindBare | BehindQuoted

  /** Whether a quote may open here: at a field's start, and anywhere if quotes toggle; behind a quoted piece a doubled quote would be an escape. */
  predicate MayOpen(c: Config, at: Place) {
    c.quote.Some? && (at.First? || (c.quoteHandling.Toggle? && !(at.BehindQuoted? && c.Doubled())))
  }

  /**
   * Outside quotes, delimiters and terminators do not belong to the field. A quote does if quotes
   * are literal and it cannot open or escape; strict quoting admits nothing behind a closing quote.
   */
  predicate MayFollow(c: Config, at: Place, b: byte) {
    && b != c.delimiter && !c.IsTerm(b)
    && (c.IsQuote(b) ==> c.quoteHandling.Literal? && !at.First? && !(at.BehindQuoted? && c.Doubled()))
    && (at.BehindQuoted? ==> !c.quoteHandling.Strict?)
  }

  predicate LegalPiece(c: Config, at: Place, p: Piece) {
    match p
    case Bare(b) => MayFollow(c, at, b)
    case Quoted(ls) => MayOpen(c, at) && LegalLetters(c, ls)
  }

  function Behind(p: Piece): Place {
    if p.Bare? then BehindBare else BehindQuoted
  }

  predicate LegalText(c: Config, at: Place, ps: Text)
    decreases |ps|
  {
    ps == [] || (LegalPiece(c, at, ps[0]) && LegalText(c, Behind(ps[0]), ps[1..]))
  }

  function PlaceAfter(at: Place, ps: Text): Place
    decreases |ps|
  {
    if ps == [] then at else PlaceAfter(Behind(ps[0]), ps[1..])
  }

  /** How a row may go on behind a field that ends at `at`. */
  predicate LegalEnd(c: Config, at: Place, e: End, last: bool) {
    match e
    case Closed(t) => c.IsTerm(t)
    case Over => last
    case Open(ls, dangling) => last && MayOpen(c, at) && LegalLetters(c, ls) && (dangling ==> c.escape.Some? && !c.Doubled())
    case Stray(b, _) =>
      && last && c.quoteHandling.Strict? && b != c.delimiter && !c.IsTerm(b)
      && (at.BehindBare? ==> c.IsQuote(b)) && (at.BehindQuoted? ==> !(c.Doubled() && c.IsQuote(b))) && !at.First?
  }

  /** Rows are not empty, and do not look like blank lines or comments. */
  predicate LegalRow(c: Config, fields: seq<Text>, e: End, last: bool) {
    && fields != [] && (forall i :: 0 <= i < |fields| ==> LegalText(c, First, fields[i]))
    && LegalEnd(c, PlaceAfter(First, fields[|fields| - 1]), e, last)
    && (fields == [[]] ==> e.Open?)
    && (fields[0] != [] && fields[0][0].Bare? ==> c.comment != Some(fields[0][0].b))
  }

  /** A comment ends on a line feed, or a carriage return under CRLF, whatever terminates records. */
  predicate EndsComment(c: Config, b: byte) {
    b == LF || (c.terminator.CrLf? && b == CR)
  }

  predicate LegalLine(c: Config, l: Line, last: bool) {
    match l
    case Empty(t) => c.IsTerm(t)
    case Comment(bytes, eol) =>
      && c.comment.Some? && (forall i :: 0 <= i < |bytes| ==> !EndsComment(c, bytes[i]))
      && (if eol.Some? then EndsComment(c, eol.value) else last)
    case Row(fields, end) => LegalRow(c, fields, end, last)
  }

  predicate Legal(c: Config, ls: seq<Line>)
    decreases |ls|
  {
    ls == [] || (LegalLine(c, ls[0], |ls| == 1) && Legal(c, ls[1..]))
  }

  /**
   * What reading `lines`, written from `pos` on, must yield: the rows in order, up to the first
   * whose width is wrong, that is refused, or that goes wrong; `last` is the previous record's end.
   */
  function Meaning(j: Job, pos: nat, lines: seq<Line>, last: Option<nat>): Outcome
    decreases |lines|
  {
    if lines == [] then Ok([], last)
    else
      var next := pos + |WriteLine(j.cfg, lines[0])|;
      match lines[0]
      case Empty(_) => Meaning(j, next, lines[1..], last)
      case Comment(_, _) => Meaning(j, next, lines[1..], last)
      case Row(fields, end) =>
        var at := pos + |WriteFields(j.cfg, fields)|;
        if end.Stray? then Err([], InvalidQuote(at))
        else if end.Open? then Err([], UnclosedQuote(pos + LastStart(j.cfg, fields)))
        else
          var r := FieldsSay(fields);
          if j.cfg.fieldCount.Some? && j.cfg.fieldCount.value != |r| then Err([], NumberOfFields(j.cfg.fieldCount.value, |r|, pos))
          else if !j.accept(r) then Err([], Rejected(r))
          else Prepend([r], Meaning(j, next, lines[1..], Some(at)))
  }
}
