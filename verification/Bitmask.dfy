/** The per-vector masks: structural matches, in-quotes, begins, ends, removals. */
module Bitmask {
  import opened Dialect
  import opened Masks

  datatype Structural = Structural(delim: Mask, term: Mask, quote: Mask)

  datatype BeginsCarry = BeginsCarry(dStructMsb: bool, qbMsb: bool)

  function EqMask(v: seq<byte>, b: byte): (r: Mask)
    requires |v| == 64
    ensures forall i :: 0 <= i < 64 ==> r[i] == (v[i] == b)
  {
    seq(64, i requires 0 <= i < 64 => v[i] == b)
  }

  /** Matches of the delimiter, of both terminator bytes, and of the quote. */
  function MatchStructural(c: Config, v: seq<byte>): (r: Structural)
    requires |v| == 64
    ensures forall i :: 0 <= i < 64 ==>
      r.delim[i] == (v[i] == c.delimiter) && r.term[i] == c.IsTerm(v[i]) && r.quote[i] == c.IsQuote(v[i])
  {
    var term := match c.terminator case SingleByte(t) => EqMask(v, t) case CrLf => Or(EqMask(v, LF), EqMask(v, CR));
    Structural(EqMask(v, c.delimiter), term, if c.quote.Some? then EqMask(v, c.quote.value) else Zero())
  }

  predicate Empty(m: Mask) {
    forall i :: 0 <= i < 64 ==> !m[i]
  }

  lemma {:induction false} EmptyParity(q: seq<bool>)
    requires forall i :: 0 <= i < |q| ==> !q[i]
    ensures !Parity(q)
    decreases |q|
  {
    if q != [] {
      EmptyParity(q[..|q| - 1]);
    }
  }

  /** The in-quotes mask: the carry XOR the parity of all quotes up to and including the byte. */
  method ComputeInQuotes(quote: Mask, carryIn: bool) returns (m: Mask, carryOut: bool)
    ensures forall i :: 0 <= i < 64 ==> m[i] == (carryIn != Parity(quote[..i + 1]))
    ensures carryOut == m[63]
  {
    hide Parity;
    if Empty(quote) {
      forall k | 0 <= k <= 64 ensures !Parity(quote[..k]) {
        EmptyParity(quote[..k]);
      }
      return Fill(carryIn), carryIn;
    }
    var prefix := XorPrefixSum(quote);
    m := Xor(prefix, Fill(carryIn));
    carryOut := m[63];
  }

  function TerminatorRunStarts(t: Mask, prevIsTerm: bool): Mask {
    And(t, Not(Shl1(t, prevIsTerm)))
  }

  function TerminatorRunEnds(t: Mask, nextTermLsb: bool): Mask {
    And(t, Not(Shr1(t, nextTermLsb)))
  }

  function ComputeFieldBegins(dStruct: Mask, quote: Mask, carryIn: BeginsCarry): (Mask, BeginsCarry) {
    var bInit := Shl1(dStruct, carryIn.dStructMsb);
    var qb := And(bInit, quote);
    var shifted := Or(And(bInit, Not(qb)), Shl1(qb, false));
    (shifted[0 := shifted[0] || carryIn.qbMsb], BeginsCarry(dStruct[63], qb[63]))
  }

  function ComputeFieldEnds(dStruct: Mask, quote: Mask, m: Mask, nextDStructLsb: bool, prevQeMsb: bool): (Mask, bool) {
    var qr := And(quote, Not(m));
    var qe := And(qr, Shr1(dStruct, nextDStructLsb));
    (Or(And(dStruct, Not(Shl1(qe, prevQeMsb))), qe), qe[63])
  }

  function ComputeCharsToRemove(quote: Mask, m: Mask, b: Mask, e: Mask, nextBLsb: bool, nextQLsb: bool, doubled: bool): Mask {
    var ql := And(quote, m);
    var qr := And(quote, Not(m));
    var qlRemove := And(ql, Not(Shr1(b, nextBLsb)));
    var qrRemove := if doubled then And(And(qr, Not(Shr1(quote, nextQLsb))), Not(e)) else And(qr, Not(e));
    Or(qlRemove, qrRemove)
  }
}
