/** The cross-vector scanner: a vector's ends and removals wait for the next vector's first bits. */
module VectorScanner {
  import opened Dialect
  import opened Masks
  import opened Stream
  import opened Bitmask

  datatype VectorOutput = VectorOutput(b: Mask, e: Mask, r: Mask, dStruct: Mask, term: Mask)

  datatype Pending = Pending(structural: Structural, m: Mask)

  /** The raw masks of the vector at `base`. */
  ghost predicate Raw(c: Config, s: seq<byte>, base: nat, p: Pending)
    requires base + 64 <= |s|
  {
    forall i :: 0 <= i < 64 ==>
      && p.structural.delim[i] == (s[base + i] == c.delimiter)
      && p.structural.term[i] == c.IsTerm(s[base + i])
      && p.structural.quote[i] == Quote(c, s, base + i)
      && p.m[i] == Inside(c, s, base + i)
  }

  /** A vector's output is the stream's definition of its bytes. */
  ghost predicate Exact(c: Config, s: seq<byte>, base: nat, o: VectorOutput) {
    forall i :: 0 <= i < 64 ==>
      && o.b[i] == Begin(c, s, base + i)
      && o.e[i] == End(c, s, base + i)
      && o.r[i] == Removed(c, s, base + i)
      && o.dStruct[i] == BoundB(c, s, base + i)
      && o.term[i] == RunEnd(c, s, base + i)
  }

  /** Bit 0 of the next vector's begins. */
  function DeriveBLsb(carry: BeginsCarry, nextQuoteLsb: bool): bool {
    (carry.dStructMsb && !nextQuoteLsb) || carry.qbMsb
  }

  lemma RunEndsExact(c: Config, s: seq<byte>, base: nat, t: Mask, next: bool)
    requires forall i :: 0 <= i < 64 ==> t[i] == Term(c, s, base + i)
    requires next == Term(c, s, base + 64)
    ensures forall i :: 0 <= i < 64 ==> TerminatorRunEnds(t, next)[i] == RunEnd(c, s, base + i)
  {
    hide Term;
    forall i | 0 <= i < 64
      ensures TerminatorRunEnds(t, next)[i] == RunEnd(c, s, base + i)
    {
      var after := if i < 63 then t[i + 1] else next;
      assert after == Term(c, s, base + i + 1);
    }
  }

  lemma RunStartsExact(c: Config, s: seq<byte>, base: nat, t: Mask, prev: bool)
    requires forall i :: 0 <= i < 64 ==> t[i] == Term(c, s, base + i)
    requires prev == Term(c, s, base - 1)
    ensures forall i :: 0 <= i < 64 ==> TerminatorRunStarts(t, prev)[i] == RunStart(c, s, base + i)
  {
    hide Term;
    forall i | 0 <= i < 64
      ensures TerminatorRunStarts(t, prev)[i] == RunStart(c, s, base + i)
    {
      var before := if i > 0 then t[i - 1] else prev;
      assert before == Term(c, s, base + i - 1);
    }
  }

  lemma OpenersExact(c: Config, s: seq<byte>, base: nat, d: Mask, q: Mask, carry: bool)
    requires forall i :: 0 <= i < 64 ==> d[i] == BoundB(c, s, base + i)
    requires forall i :: 0 <= i < 64 ==> q[i] == Quote(c, s, base + i)
    requires carry == BoundB(c, s, base - 1)
    ensures forall i :: 0 <= i < 64 ==> Shl1(d, carry)[i] == BoundB(c, s, base + i - 1)
    ensures forall i :: 0 <= i < 64 ==> And(Shl1(d, carry), q)[i] == Opener(c, s, base + i)
  {
    hide BoundB, Quote;
    forall i | 0 <= i < 64
      ensures Shl1(d, carry)[i] == BoundB(c, s, base + i - 1)
      ensures And(Shl1(d, carry), q)[i] == Opener(c, s, base + i)
    {
      assert i > 0 ==> d[i - 1] == BoundB(c, s, base + (i - 1));
    }
  }

  lemma BeginsExact(c: Config, s: seq<byte>, base: nat, d: Mask, q: Mask, carry: BeginsCarry)
    requires base + 64 <= |s|
    requires forall i :: 0 <= i < 64 ==> d[i] == BoundB(c, s, base + i)
    requires forall i :: 0 <= i < 64 ==> q[i] == Quote(c, s, base + i)
    requires carry.dStructMsb == BoundB(c, s, base - 1) && carry.qbMsb == Opener(c, s, base - 1)
    ensures var (b, out) := ComputeFieldBegins(d, q, carry);
            && (forall i :: 0 <= i < 64 ==> b[i] == Begin(c, s, base + i))
            && out.dStructMsb == BoundB(c, s, base + 63) && out.qbMsb == Opener(c, s, base + 63)
  {
    hide *;
    OpenersExact(c, s, base, d, q, carry.dStructMsb);
    BeginsCarried(d, q, carry);
    var b := ComputeFieldBegins(d, q, carry).0;
    var bInit := Shl1(d, carry.dStructMsb);
    var qb := And(bInit, q);
    forall i | 0 <= i < 64
      ensures b[i] == Begin(c, s, base + i)
    {
      var before := if i == 0 then carry.qbMsb else qb[i - 1];
      assert before == Opener(c, s, base + i - 1) by {
        if i > 0 { assert qb[i - 1] == Opener(c, s, base + (i - 1)); }
      }
      assert bInit[i] == BoundB(c, s, base + i - 1);
      assert qb[i] == Opener(c, s, base + i);
      BeginAt(c, s, base + i, bInit[i], qb[i], before);
      BeginsBit(d, q, carry, i);
    }
  }

  lemma BeginAt(c: Config, s: seq<byte>, p: nat, bound: bool, opener: bool, before: bool)
    requires p < |s| && bound == BoundB(c, s, p - 1) && opener == Opener(c, s, p) && before == Opener(c, s, p - 1)
    ensures ((bound && !opener) || before) == Begin(c, s, p)
  {
    hide BoundB, Quote;
  }

  lemma BeginsCarried(d: Mask, q: Mask, carry: BeginsCarry)
    ensures ComputeFieldBegins(d, q, carry).1 == BeginsCarry(d[63], And(Shl1(d, carry.dStructMsb), q)[63])
  {
  }

  lemma BeginsBit(d: Mask, q: Mask, carry: BeginsCarry, i: nat)
    requires i < 64
    ensures var bInit := Shl1(d, carry.dStructMsb);
            var qb := And(bInit, q);
            ComputeFieldBegins(d, q, carry).0[i] == ((bInit[i] && !qb[i]) || (if i == 0 then carry.qbMsb else qb[i - 1]))
  {
  }

  lemma ClosersExact(c: Config, s: seq<byte>, base: nat, d: Mask, q: Mask, m: Mask, next: bool)
    requires forall i :: 0 <= i < 64 ==> d[i] == BoundE(c, s, base + i)
    requires forall i :: 0 <= i < 64 ==> q[i] == Quote(c, s, base + i)
    requires forall i :: 0 <= i < 64 ==> m[i] == Inside(c, s, base + i)
    requires next == BoundE(c, s, base + 64)
    ensures forall i :: 0 <= i < 64 ==> And(And(q, Not(m)), Shr1(d, next))[i] == Closer(c, s, base + i)
  {
    hide BoundE, Quote, Inside;
    forall i | 0 <= i < 64
      ensures And(And(q, Not(m)), Shr1(d, next))[i] == Closer(c, s, base + i)
    {
      var after := if i < 63 then d[i + 1] else next;
      assert after == BoundE(c, s, base + i + 1);
    }
  }

  lemma EndsExact(c: Config, s: seq<byte>, base: nat, d: Mask, q: Mask, m: Mask, next: bool, prev: bool)
    requires forall i :: 0 <= i < 64 ==> d[i] == BoundE(c, s, base + i)
    requires forall i :: 0 <= i < 64 ==> q[i] == Quote(c, s, base + i)
    requires forall i :: 0 <= i < 64 ==> m[i] == Inside(c, s, base + i)
    requires next == BoundE(c, s, base + 64) && prev == Closer(c, s, base - 1)
    ensures var (e, out) := ComputeFieldEnds(d, q, m, next, prev);
            && (forall i :: 0 <= i < 64 ==> e[i] == End(c, s, base + i))
            && out == Closer(c, s, base + 63)
  {
    ClosersExact(c, s, base, d, q, m, next);
    hide BoundE, Quote, Inside, Closer;
    var (e, out) := ComputeFieldEnds(d, q, m, next, prev);
    var qe := And(And(q, Not(m)), Shr1(d, next));
    forall i | 0 <= i < 64
      ensures e[i] == End(c, s, base + i)
    {
      assert qe[i] == Closer(c, s, base + i);
      assert i > 0 ==> qe[i - 1] == Closer(c, s, base + (i - 1));
    }
  }

  lemma RemovalsExact(c: Config, s: seq<byte>, base: nat, q: Mask, m: Mask, b: Mask, e: Mask, nextB: bool, nextQ: bool)
    requires forall i :: 0 <= i < 64 ==> b[i] == Begin(c, s, base + i)
    requires forall i :: 0 <= i < 64 ==> e[i] == End(c, s, base + i)
    requires forall i :: 0 <= i < 64 ==> q[i] == Quote(c, s, base + i)
    requires forall i :: 0 <= i < 64 ==> m[i] == Inside(c, s, base + i)
    requires nextB == Begin(c, s, base + 64) && nextQ == Quote(c, s, base + 64)
    ensures forall i :: 0 <= i < 64 ==> ComputeCharsToRemove(q, m, b, e, nextB, nextQ, c.Doubled())[i] == Removed(c, s, base + i)
  {
    hide Begin, End, Quote, Inside;
    forall i | 0 <= i < 64
      ensures ComputeCharsToRemove(q, m, b, e, nextB, nextQ, c.Doubled())[i] == Removed(c, s, base + i)
    {
      assert (if i < 63 then b[i + 1] else nextB) == Begin(c, s, base + i + 1);
      assert (if i < 63 then q[i + 1] else nextQ) == Quote(c, s, base + i + 1);
    }
  }

  /** The forward carries from one resolved vector to the next. */
  datatype Carry = Carry(begins: BeginsCarry, ends: bool, prevTerm: bool)

  /** The carries as the stream defines them just before `base`. */
  ghost predicate CarriesAt(c: Config, s: seq<byte>, base: nat, k: Carry) {
    && k.begins.dStructMsb == BoundB(c, s, base - 1)
    && k.begins.qbMsb == Opener(c, s, base - 1)
    && k.ends == Closer(c, s, base - 1)
    && k.prevTerm == Term(c, s, base - 1)
  }

  /** The first bits of the next vector; all clear at the end of the stream. */
  datatype NextBits = NextBits(present: bool, delim: bool, term: bool, quote: bool)

  ghost predicate NextAt(c: Config, s: seq<byte>, p: nat, n: NextBits) {
    && p <= |s| && (n.present <==> p < |s|)
    && n.delim == Delim(c, s, p) && n.term == Term(c, s, p) && n.quote == Quote(c, s, p)
  }

  function General(c: Config, p: Pending, n: NextBits, k: Carry): (VectorOutput, Carry) {
    var q, m := p.structural.quote, p.m;
    var delim := And(p.structural.delim, Not(m));
    var term := And(p.structural.term, Not(m));
    // Begins follow the end of a run, ends its start.
    var runEnd := TerminatorRunEnds(term, n.term);
    var dStructB := Or(delim, runEnd);
    var dStructE := Or(delim, TerminatorRunStarts(term, k.prevTerm));
    var (b, begins) := ComputeFieldBegins(dStructB, q, k.begins);
    // Lane 0 of the next vector may continue a run of this one.
    var nextDLsb := n.delim || (n.term && !term[63]);
    var (e, ends) := ComputeFieldEnds(dStructE, q, m, nextDLsb, k.ends);
    // At the end of the stream no begin lands past it.
    var nextBLsb := n.present && DeriveBLsb(begins, n.quote);
    var r := ComputeCharsToRemove(q, m, b, e, nextBLsb, n.quote, c.Doubled());
    (VectorOutput(b, e, r, dStructB, runEnd), Carry(begins, ends, term[63]))
  }

  /** The same for a vector without quotes that lies outside quotes; it still consumes the carries. */
  function Unquoted(p: Pending, nextTerm: bool, k: Carry): (VectorOutput, Carry) {
    var delim, term := p.structural.delim, p.structural.term;
    var runEnd := TerminatorRunEnds(term, nextTerm);
    var dStructB := Or(delim, runEnd);
    var dStructE := Or(delim, TerminatorRunStarts(term, k.prevTerm));
    var shifted := Shl1(dStructB, k.begins.dStructMsb);
    (VectorOutput(shifted[0 := shifted[0] || k.begins.qbMsb], dStructE[0 := dStructE[0] && !k.ends], Zero(), dStructB, runEnd),
     Carry(BeginsCarry(dStructB[63], false), false, term[63]))
  }

  /** Wherever its guard holds, the shortcut is the general computation. */
  lemma UnquotedIsGeneral(c: Config, p: Pending, n: NextBits, k: Carry)
    requires Empty(p.structural.quote) && Empty(p.m)
    ensures Unquoted(p, n.term, k) == General(c, p, n, k)
  {
    hide ComputeFieldBegins, ComputeFieldEnds, ComputeCharsToRemove, TerminatorRunEnds, TerminatorRunStarts, DeriveBLsb;
    var q, m := p.structural.quote, p.m;
    assert And(p.structural.delim, Not(m)) == p.structural.delim;
    assert And(p.structural.term, Not(m)) == p.structural.term;
    var dStructB := Or(p.structural.delim, TerminatorRunEnds(p.structural.term, n.term));
    var dStructE := Or(p.structural.delim, TerminatorRunStarts(p.structural.term, k.prevTerm));
    NoQuoteBegins(dStructB, q, k.begins);
    NoQuoteEnds(dStructE, q, m, n.delim || (n.term && !p.structural.term[63]), k.ends);
    var (b, begins) := ComputeFieldBegins(dStructB, q, k.begins);
    var (e, ends) := ComputeFieldEnds(dStructE, q, m, n.delim || (n.term && !p.structural.term[63]), k.ends);
    NoQuoteRemovals(q, m, b, e, n.present && DeriveBLsb(begins, n.quote), n.quote, c.Doubled());
  }

  lemma NoQuoteBegins(d: Mask, q: Mask, carry: BeginsCarry)
    requires Empty(q)
    ensures var shifted := Shl1(d, carry.dStructMsb);
            ComputeFieldBegins(d, q, carry) == (shifted[0 := shifted[0] || carry.qbMsb], BeginsCarry(d[63], false))
  {
    var bInit := Shl1(d, carry.dStructMsb);
    assert And(bInit, q) == Zero();
    assert Shl1(Zero(), false) == Zero();
    assert Or(And(bInit, Not(Zero())), Zero()) == bInit;
  }

  lemma NoQuoteEnds(d: Mask, q: Mask, m: Mask, next: bool, prev: bool)
    requires Empty(q)
    ensures ComputeFieldEnds(d, q, m, next, prev) == (d[0 := d[0] && !prev], false)
  {
    assert And(And(q, Not(m)), Shr1(d, next)) == Zero();
    assert Or(And(d, Not(Shl1(Zero(), prev))), Zero()) == d[0 := d[0] && !prev];
  }

  lemma NoQuoteRemovals(q: Mask, m: Mask, b: Mask, e: Mask, nextB: bool, nextQ: bool, doubled: bool)
    requires Empty(q)
    ensures ComputeCharsToRemove(q, m, b, e, nextB, nextQ, doubled) == Zero()
  {
  }

  /** One resolved vector is exact, and its carries are the stream's. */
  lemma GeneralExact(c: Config, s: seq<byte>, base: nat, p: Pending, n: NextBits, k: Carry)
    requires base + 64 <= |s| && Raw(c, s, base, p) && CarriesAt(c, s, base, k) && NextAt(c, s, base + 64, n)
    ensures var (o, out) := General(c, p, n, k);
            Exact(c, s, base, o) && CarriesAt(c, s, base + 64, out)
  {
    hide Exact, Term, Delim, Quote, Inside, Begin, End, Removed, BoundB, BoundE, Opener, Closer, RunEnd, RunStart,
      ComputeFieldBegins, ComputeFieldEnds, ComputeCharsToRemove, TerminatorRunEnds, TerminatorRunStarts;
    var q, m := p.structural.quote, p.m;
    var delim := And(p.structural.delim, Not(m));
    var term := And(p.structural.term, Not(m));
    OutOfQuotesExact(c, s, base, p, delim, term);
    var runEnd := TerminatorRunEnds(term, n.term);
    var runStart := TerminatorRunStarts(term, k.prevTerm);
    RunEndsExact(c, s, base, term, n.term);
    RunStartsExact(c, s, base, term, k.prevTerm);
    BoundsExact(c, s, base, delim, runEnd, runStart);
    var dStructB := Or(delim, runEnd);
    var dStructE := Or(delim, runStart);
    BeginsExact(c, s, base, dStructB, q, k.begins);
    var (b, begins) := ComputeFieldBegins(dStructB, q, k.begins);
    var nextDLsb := n.delim || (n.term && !term[63]);
    NextBoundE(c, s, base + 64);
    EndsExact(c, s, base, dStructE, q, m, nextDLsb, k.ends);
    var (e, ends) := ComputeFieldEnds(dStructE, q, m, nextDLsb, k.ends);
    var nextBLsb := n.present && DeriveBLsb(begins, n.quote);
    NextBegin(c, s, base + 64);
    RemovalsExact(c, s, base, q, m, b, e, nextBLsb, n.quote);
    var r := ComputeCharsToRemove(q, m, b, e, nextBLsb, n.quote, c.Doubled());
    ExactIs(c, s, base, VectorOutput(b, e, r, dStructB, runEnd));
  }

  class Scanner {
    const config: Config
    /** The whole stream the vectors are cut from. */
    ghost var stream: seq<byte>
    ghost var fed: nat
    ghost var drained: bool

    var inQuotesCarry: bool
    var carry: Carry
    var pending: Option<Pending>

    constructor (config: Config, ghost stream: seq<byte>)
      ensures this.config == config && this.stream == stream && fed == 0 && !drained
      ensures Synced()
    {
      this.config := config;
      this.stream := stream;
      fed, drained := 0, false;
      inQuotesCarry := false;
      carry := Carry(BeginsCarry(false, false), false, false);
      pending := None;
      new;
      OddStart(config, stream);
    }

    /** Before the first vector, the stream may still turn out to be another one. */
    ghost method Attach(t: seq<byte>)
      requires Synced() && fed == 0
      modifies `stream
      ensures Synced() && stream == t
    {
      OddStart(config, t);
      OddStart(config, stream);
      NothingCarried(config, stream, carry);
      stream := t;
      NothingCarried(config, t, carry);
    }

    /** Everything fed so far is reflected; one vector is held back. */
    ghost predicate Synced()
      reads this
    {
      Sync(config, stream, fed, drained, inQuotesCarry, carry, pending)
    }

    /** Finish the held vector against the next one's first bits. */
    method Resolve(prev: Pending, next: NextBits) returns (o: VectorOutput)
      modifies `carry
      ensures (o, carry) == General(config, prev, next, old(carry))
    {
      // The common vector: quoting is on, but no quote is in sight.
      if Empty(prev.structural.quote) && Empty(prev.m) {
        UnquotedIsGeneral(config, prev, next, carry);
        var (out, k) := Unquoted(prev, next.term, carry);
        o, carry := out, k;
      } else {
        var (out, k) := General(config, prev, next, carry);
        o, carry := out, k;
      }
    }

    /** Consume one vector; the previous one's output comes out. */
    method Step(input: seq<byte>) returns (o: Option<VectorOutput>)
      requires Synced() && !drained
      requires |input| == 64 && 64 * fed + 64 <= |stream| && input == stream[64 * fed..64 * fed + 64]
      modifies `inQuotesCarry, `carry, `pending, `fed
      ensures Synced() && fed == old(fed) + 1
      ensures o.Some? <==> old(fed) > 0
      ensures o.Some? ==> Exact(config, stream, 64 * old(fed) - 64, o.value)
    {
      hide Sync, Exact, General, MatchStructural, Odd, Parity;
      var s := MatchStructural(config, input);
      var m, carryOut := ComputeInQuotes(s.quote, inQuotesCarry);
      var next := NextBits(true, s.delim[0] && !m[0], s.term[0] && !m[0], s.quote[0]);
      Stepped(config, stream, fed, input, inQuotesCarry, carry, pending, m, next);
      o := None;
      if pending.Some? {
        var out := Resolve(pending.value, next);
        o := Some(out);
      }
      pending := Some(Pending(s, m));
      inQuotesCarry := carryOut;
      fed := fed + 1;
    }

    /** The quote parity so far. */
    predicate InQuotes()
      reads this
    {
      inQuotesCarry
    }

    /** Drain the held vector at the end of the stream. */
    method Finalize() returns (o: Option<VectorOutput>)
      requires Synced() && !drained && 64 * fed == |stream|
      modifies `carry, `pending, `drained
      ensures Synced() && (o.Some? <==> fed > 0)
      ensures o.Some? ==> Exact(config, stream, 64 * fed - 64, o.value)
    {
      hide Sync, Exact, General, Raw, CarriesAt, NextAt;
      SyncIs(config, stream, fed, drained, inQuotesCarry, carry, pending);
      if pending.None? {
        return None;
      }
      var next := NextBits(false, false, false, false);
      EndNext(config, stream, next);
      GeneralExact(config, stream, 64 * fed - 64, pending.value, next, carry);
      var out := Resolve(pending.value, next);
      pending := None;
      drained := true;
      IsSync(config, stream, fed, true, inQuotesCarry, carry, pending);
      return Some(out);
    }
  }

  /** The scanner's state after `fed` vectors of the stream. */
  ghost predicate Sync(c: Config, t: seq<byte>, fed: nat, drained: bool, inQuotes: bool, k: Carry, held: Option<Pending>) {
    && 64 * fed <= |t|
    && inQuotes == Odd(c, t, 64 * fed)
    && (held.None? <==> fed == 0 || drained)
    && (held.Some? ==> Raw(c, t, 64 * fed - 64, held.value) && CarriesAt(c, t, 64 * fed - 64, k))
    && (fed == 0 ==> CarriesAt(c, t, 0, k))
  }

  lemma SyncIs(c: Config, t: seq<byte>, fed: nat, drained: bool, inQuotes: bool, k: Carry, held: Option<Pending>)
    requires Sync(c, t, fed, drained, inQuotes, k, held)
    ensures 64 * fed <= |t| && inQuotes == Odd(c, t, 64 * fed) && (held.None? <==> fed == 0 || drained)
    ensures held.Some? ==> Raw(c, t, 64 * fed - 64, held.value) && CarriesAt(c, t, 64 * fed - 64, k)
    ensures fed == 0 ==> CarriesAt(c, t, 0, k)
  {
    hide Raw, CarriesAt, Odd;
  }

  lemma IsSync(c: Config, t: seq<byte>, fed: nat, drained: bool, inQuotes: bool, k: Carry, held: Option<Pending>)
    requires 1 <= fed && 64 * fed <= |t| && inQuotes == Odd(c, t, 64 * fed) && (held.None? <==> drained)
    requires held.Some? ==> Raw(c, t, 64 * fed - 64, held.value) && CarriesAt(c, t, 64 * fed - 64, k)
    ensures Sync(c, t, fed, drained, inQuotes, k, held)
  {
    hide Raw, CarriesAt, Odd;
  }

  /** What one more vector makes of the scanner's state, and of the vector held back. */
  lemma Stepped(c: Config, t: seq<byte>, fed: nat, input: seq<byte>, inQuotes: bool, k: Carry, held: Option<Pending>, m: Mask, next: NextBits)
    requires Sync(c, t, fed, false, inQuotes, k, held)
    requires |input| == 64 && 64 * fed + 64 <= |t| && input == t[64 * fed..64 * fed + 64]
    requires forall i :: 0 <= i < 64 ==> m[i] == (inQuotes != Parity(MatchStructural(c, input).quote[..i + 1]))
    requires var s := MatchStructural(c, input); next == NextBits(true, s.delim[0] && !m[0], s.term[0] && !m[0], s.quote[0])
    ensures held.Some? <==> fed > 0
    ensures held.Some? ==> Exact(c, t, 64 * fed - 64, General(c, held.value, next, k).0)
    ensures Sync(c, t, fed + 1, false, m[63], if held.Some? then General(c, held.value, next, k).1 else k, Some(Pending(MatchStructural(c, input), m)))
  {
    hide *;
    var s := MatchStructural(c, input);
    SyncIs(c, t, fed, false, inQuotes, k, held);
    Fed(c, t, fed, input, inQuotes, m);
    RawNext(c, t, 64 * fed, Pending(s, m), next);
    if held.Some? {
      GeneralExact(c, t, 64 * fed - 64, held.value, next, k);
    }
    IsSync(c, t, fed + 1, false, m[63], if held.Some? then General(c, held.value, next, k).1 else k, Some(Pending(s, m)));
  }

  /** The vector just matched, as the stream has it. */
  lemma Fed(c: Config, t: seq<byte>, fed: nat, input: seq<byte>, carry: bool, m: Mask)
    requires |input| == 64 && 64 * fed + 64 <= |t| && input == t[64 * fed..64 * fed + 64]
    requires carry == Odd(c, t, 64 * fed)
    requires forall i :: 0 <= i < 64 ==> m[i] == (carry != Parity(MatchStructural(c, input).quote[..i + 1]))
    ensures Raw(c, t, 64 * fed, Pending(MatchStructural(c, input), m)) && m[63] == Odd(c, t, 64 * fed + 64)
  {
    hide Raw, Odd, MatchStructural, Inside, Parity;
    MatchedQuotes(c, t, 64 * fed, input);
    InsideExact(c, t, 64 * fed, MatchStructural(c, input).quote, carry, m);
    RawIs(c, t, 64 * fed, input, m);
  }

  lemma NothingCarried(c: Config, s: seq<byte>, k: Carry)
    ensures CarriesAt(c, s, 0, k) <==> k == Carry(BeginsCarry(false, false), false, false)
  {
  }

  lemma MatchedQuotes(c: Config, s: seq<byte>, base: nat, v: seq<byte>)
    requires base + 64 <= |s| && v == s[base..base + 64]
    ensures forall i :: 0 <= i < 64 ==> MatchStructural(c, v).quote[i] == c.IsQuote(s[base + i])
  {
  }

  lemma RawNext(c: Config, s: seq<byte>, base: nat, p: Pending, n: NextBits)
    requires base + 64 <= |s| && Raw(c, s, base, p)
    requires n == NextBits(true, p.structural.delim[0] && !p.m[0], p.structural.term[0] && !p.m[0], p.structural.quote[0])
    ensures NextAt(c, s, base, n)
  {
  }

  lemma EndNext(c: Config, s: seq<byte>, n: NextBits)
    requires n == NextBits(false, false, false, false)
    ensures NextAt(c, s, |s|, n)
  {
  }

  /** The in-quotes mask of the vector at `base` is the stream's parity. */
  lemma InsideExact(c: Config, s: seq<byte>, base: nat, quote: Mask, carry: bool, m: Mask)
    requires base + 64 <= |s| && carry == Odd(c, s, base)
    requires forall i :: 0 <= i < 64 ==> quote[i] == c.IsQuote(s[base + i])
    requires forall i :: 0 <= i < 64 ==> m[i] == (carry != Parity(quote[..i + 1]))
    ensures forall i :: 0 <= i < 64 ==> m[i] == Inside(c, s, base + i)
    ensures m[63] == Odd(c, s, base + 64)
  {
    hide Parity;
    forall i | 0 <= i < 64
      ensures m[i] == Odd(c, s, base + i + 1)
    {
      ParityConcat(QuoteBits(c, s[..base]), quote[..i + 1]);
      assert QuoteBits(c, s[..base + i + 1]) == QuoteBits(c, s[..base]) + quote[..i + 1];
    }
  }

  lemma RawIs(c: Config, s: seq<byte>, base: nat, v: seq<byte>, m: Mask)
    requires base + 64 <= |s| && v == s[base..base + 64]
    requires forall i :: 0 <= i < 64 ==> m[i] == Inside(c, s, base + i)
    ensures Raw(c, s, base, Pending(MatchStructural(c, v), m))
    ensures forall i :: 0 <= i < 64 ==> MatchStructural(c, v).quote[i] == c.IsQuote(s[base + i])
  {
    hide Inside;
  }

  lemma OddStart(c: Config, s: seq<byte>)
    ensures !Odd(c, s, 0)
  {
    assert s[..0] == [];
  }

  lemma ExactIs(c: Config, s: seq<byte>, base: nat, o: VectorOutput)
    requires forall i :: 0 <= i < 64 ==> o.b[i] == Begin(c, s, base + i)
    requires forall i :: 0 <= i < 64 ==> o.e[i] == End(c, s, base + i)
    requires forall i :: 0 <= i < 64 ==> o.r[i] == Removed(c, s, base + i)
    requires forall i :: 0 <= i < 64 ==> o.dStruct[i] == BoundB(c, s, base + i)
    requires forall i :: 0 <= i < 64 ==> o.term[i] == RunEnd(c, s, base + i)
    ensures Exact(c, s, base, o)
  {
    hide Begin, End, Removed, BoundB, RunEnd;
  }

  lemma OutOfQuotesExact(c: Config, s: seq<byte>, base: nat, p: Pending, delim: Mask, term: Mask)
    requires base + 64 <= |s| && Raw(c, s, base, p)
    requires delim == And(p.structural.delim, Not(p.m)) && term == And(p.structural.term, Not(p.m))
    ensures forall i :: 0 <= i < 64 ==> delim[i] == Delim(c, s, base + i)
    ensures forall i :: 0 <= i < 64 ==> term[i] == Term(c, s, base + i)
    ensures forall i :: 0 <= i < 64 ==> p.structural.quote[i] == Quote(c, s, base + i)
    ensures forall i :: 0 <= i < 64 ==> p.m[i] == Inside(c, s, base + i)
  {
    hide Inside, Quote;
  }

  lemma BoundsExact(c: Config, s: seq<byte>, base: nat, delim: Mask, runEnd: Mask, runStart: Mask)
    requires forall i :: 0 <= i < 64 ==> delim[i] == Delim(c, s, base + i)
    requires forall i :: 0 <= i < 64 ==> runEnd[i] == RunEnd(c, s, base + i)
    requires forall i :: 0 <= i < 64 ==> runStart[i] == RunStart(c, s, base + i)
    ensures forall i :: 0 <= i < 64 ==> Or(delim, runEnd)[i] == BoundB(c, s, base + i)
    ensures forall i :: 0 <= i < 64 ==> Or(delim, runStart)[i] == BoundE(c, s, base + i)
  {
    hide Delim, RunEnd, RunStart;
  }

  lemma NextBoundE(c: Config, s: seq<byte>, p: nat)
    ensures BoundE(c, s, p) == (Delim(c, s, p) || (Term(c, s, p) && !Term(c, s, p - 1)))
  {
  }

  lemma NextBegin(c: Config, s: seq<byte>, p: nat)
    ensures Begin(c, s, p) == (p < |s| && ((BoundB(c, s, p - 1) && !Quote(c, s, p)) || Opener(c, s, p - 1)))
  {
  }
}
