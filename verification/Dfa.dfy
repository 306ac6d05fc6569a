/** The transition table a dialect compiles to. */
module Dfa {
  import opened Dialect

  datatype State =
    | InField
    | InQuotedField
    | RecordStart
    | FieldStart
    | AfterClosingQuote
    | InEscapedQuote
    | InComment
    | FieldEnd
    | RecordEnd
    | Error

  datatype Transition = Transition(next: State, output: bool, strictError: bool)

  function Goto(s: State): Transition {
    Transition(s, false, false)
  }

  function Keep(s: State): Transition {
    Transition(s, true, false)
  }

  function FieldStartCell(c: Config, b: byte): Transition {
    if c.IsQuote(b) then Goto(InQuotedField)
    else if b == c.delimiter then Goto(FieldEnd)
    else if c.IsTerm(b) then Goto(RecordEnd)
    else Keep(InField)
  }

  /** One cell of the table; action states have no outgoing transitions, so their rows hold `Error`. */
  function Cell(c: Config, s: State, b: byte): Transition {
    match s
    case FieldStart => FieldStartCell(c, b)
    case InField =>
      if b == c.delimiter then Goto(FieldEnd)
      else if c.IsTerm(b) then Goto(RecordEnd)
      else if c.IsQuote(b) then
        match c.quoteHandling
        case Toggle => Transition(InQuotedField, false, true)
        case Literal => Transition(InField, true, true)
        case Strict => Goto(Error)
      else Keep(InField)
    case InQuotedField =>
      if c.escape == Some(b) && !c.Doubled() then Goto(InEscapedQuote)
      else if c.IsQuote(b) then Goto(AfterClosingQuote)
      else Keep(InQuotedField)
    case AfterClosingQuote =>
      if c.Doubled() && c.IsQuote(b) then Keep(InQuotedField)
      else if b == c.delimiter then Goto(FieldEnd)
      else if c.IsTerm(b) then Goto(RecordEnd)
      else if c.quoteHandling.Strict? then Goto(Error)
      else if c.quoteHandling.Toggle? && c.IsQuote(b) then Transition(InQuotedField, false, true)
      else Transition(InField, true, true)
    case InEscapedQuote => Keep(InQuotedField)
    case InComment =>
      if b == LF || (c.terminator.CrLf? && b == CR) then Goto(RecordStart) else Goto(InComment)
    case RecordStart =>
      if c.IsTerm(b) then Goto(RecordStart)
      else if c.comment == Some(b) then Goto(InComment)
      else FieldStartCell(c, b)
    case FieldEnd => Goto(Error)
    case RecordEnd => Goto(Error)
    case Error => Goto(Error)
  }

  /** The interior state the hot loop installs after an action. */
  function Settle(s: State): State {
    match s
    case FieldEnd => FieldStart
    case RecordEnd => RecordStart
    case _ => s
  }

  predicate OutOfQuotes(s: State) {
    s.RecordStart? || s.FieldStart? || s.InField? || s.AfterClosingQuote?
  }

  predicate InQuotes(s: State) {
    s.InQuotedField? || s.InEscapedQuote?
  }
}
