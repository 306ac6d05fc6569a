/** The CSV dialect: control bytes, terminators and quote handling. */
module Dialect {

  newtype byte = x: int | 0 <= x < 256

  const CR: byte := 13
  const LF: byte := 10

  datatype Option<+T> = None | Some(value: T)

  datatype Terminator = SingleByte(value: byte) | CrLf

  datatype QuoteHandling = Toggle | Strict | Literal

  datatype Config = Config(
    delimiter: byte,
    terminator: Terminator,
    quote: Option<byte>,
    escape: Option<byte>,
    comment: Option<byte>,
    quoteHandling: QuoteHandling,
    fieldCount: Option<nat>)
  {
    /** Membership in the terminator byte set; under CRLF either byte terminates. */
    predicate IsTerm(b: byte) {
      match terminator
      case SingleByte(t) => b == t
      case CrLf => b == CR || b == LF
    }

    predicate IsQuote(b: byte) {
      quote == Some(b)
    }

    /** `escape == quote`: a quote inside a quoted field is written twice. */
    predicate Doubled() {
      quote.Some? && escape == quote
    }

    /** Control bytes are pairwise distinct, except that quote and escape may coincide. */
    predicate Valid() {
      && !IsTerm(delimiter)
      && (quote.Some? ==> quote.value != delimiter && !IsTerm(quote.value))
      && (escape.Some? ==> quote.Some? && escape.value != delimiter && !IsTerm(escape.value))
      && (comment.Some? ==>
            && comment.value != delimiter && !IsTerm(comment.value)
            && comment != quote && comment != escape)
    }

    /** Text mode's own condition: no control byte can be part of a longer character. */
    predicate AsciiControls() {
      && delimiter < 128
      && (terminator.SingleByte? ==> terminator.value < 128)
      && (quote.Some? ==> quote.value < 128)
      && (escape.Some? ==> escape.value < 128)
      && (comment.Some? ==> comment.value < 128)
    }

    /** The same dialect under another quote handling. */
    function With(h: QuoteHandling): Config {
      this.(quoteHandling := h)
    }
  }
}
