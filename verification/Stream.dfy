/**
 * What the bit-parallel masks mean, byte by byte over a whole stream: in-quotes parity,
 * out-of-quotes boundaries with terminator runs collapsed, field begins and ends, and the
 * quotes to drop. Positions outside the stream hold nothing.
 */
module Stream {
  import opened Dialect
  import opened Masks

  function QuoteBits(c: Config, s: seq<byte>): (r: seq<bool>)
    ensures |r| == |s| && forall i :: 0 <= i < |s| ==> r[i] == c.IsQuote(s[i])
  {
    seq(|s|, i requires 0 <= i < |s| => c.IsQuote(s[i]))
  }

  /** Whether an odd number of quotes precedes offset `n`. */
  predicate Odd(c: Config, s: seq<byte>, n: nat)
    requires n <= |s|
  {
    Parity(QuoteBits(c, s[..n]))
  }

  predicate Quote(c: Config, s: seq<byte>, i: int) {
    0 <= i < |s| && c.IsQuote(s[i])
  }

  /** `M`: inside quotes, opener included, closer excluded. */
  predicate Inside(c: Config, s: seq<byte>, i: int) {
    0 <= i < |s| && Odd(c, s, i + 1)
  }

  predicate Delim(c: Config, s: seq<byte>, i: int) {
    0 <= i < |s| && s[i] == c.delimiter && !Inside(c, s, i)
  }

  predicate Term(c: Config, s: seq<byte>, i: int) {
    0 <= i < |s| && c.IsTerm(s[i]) && !Inside(c, s, i)
  }

  predicate RunStart(c: Config, s: seq<byte>, i: int) {
    Term(c, s, i) && !Term(c, s, i - 1)
  }

  predicate RunEnd(c: Config, s: seq<byte>, i: int) {
    Term(c, s, i) && !Term(c, s, i + 1)
  }

  /** The boundary after which the next field begins. */
  predicate BoundB(c: Config, s: seq<byte>, i: int) {
    Delim(c, s, i) || RunEnd(c, s, i)
  }

  /** The boundary at which the field before it ends. */
  predicate BoundE(c: Config, s: seq<byte>, i: int) {
    Delim(c, s, i) || RunStart(c, s, i)
  }

  /** A quote that opens a field. */
  predicate Opener(c: Config, s: seq<byte>, i: int) {
    BoundB(c, s, i - 1) && Quote(c, s, i)
  }

  /** `B`: the first content byte of a field. */
  predicate Begin(c: Config, s: seq<byte>, i: int) {
    i < |s| && ((BoundB(c, s, i - 1) && !Quote(c, s, i)) || Opener(c, s, i - 1))
  }

  predicate Closing(c: Config, s: seq<byte>, i: int) {
    Quote(c, s, i) && !Inside(c, s, i)
  }

  /** A quote that closes a field. */
  predicate Closer(c: Config, s: seq<byte>, i: int) {
    Closing(c, s, i) && BoundE(c, s, i + 1)
  }

  /** `E`: one past the last content byte of a field. */
  predicate End(c: Config, s: seq<byte>, i: int) {
    (BoundE(c, s, i) && !Closer(c, s, i - 1)) || Closer(c, s, i)
  }

  /** `R`: a quote that is not content. */
  predicate Removed(c: Config, s: seq<byte>, i: int) {
    || (Quote(c, s, i) && Inside(c, s, i) && !Begin(c, s, i + 1))
    || (Closing(c, s, i) && !End(c, s, i) && !(c.Doubled() && Quote(c, s, i + 1)))
  }

  lemma OddStep(c: Config, s: seq<byte>, i: nat)
    requires i < |s|
    ensures Odd(c, s, i + 1) == (Odd(c, s, i) != Quote(c, s, i))
    ensures !Odd(c, s, 0)
  {
    var q := QuoteBits(c, s[..i + 1]);
    assert s[..i + 1][..i] == s[..i];
    assert q[..i] == QuoteBits(c, s[..i]);
    assert s[..0] == [] && QuoteBits(c, []) == [];
  }
}
