/**
 * The bit-parallel search for a chunk's first record boundary. It finds what the table's
 * search finds, and in strict mode refuses the same quotes.
 */
module FindStart {
  import opened Dialect
  import opened Dfa
  import opened Records
  import opened Chunk
  import opened Masks
  import opened Bitmask
  import opened FieldCount
  import opened Stream
  import opened Segments
  import opened Padding
  import opened Driver

  /** The in-quotes state before byte `p`, for a search that starts at `from`. */
  predicate InQuotesAt(c: Config, data: seq<byte>, from: nat, inside: bool, p: nat)
    requires from <= p <= |data|
  {
    inside != Parity(QuoteBits(c, data[from..p]))
  }

  /** A delimiter, terminator or quote byte, structural or not. */
  predicate Border(c: Config, b: byte) {
    b == c.delimiter || c.IsTerm(b) || c.IsQuote(b)
  }

  /** An out-of-quotes terminator. */
  predicate TermAt(c: Config, data: seq<byte>, from: nat, inside: bool, p: nat)
    requires from <= p < |data|
  {
    c.IsTerm(data[p]) && !InQuotesAt(c, data, from, inside, p)
  }

  /** An opening quote without a border before it. */
  predicate BadOpener(c: Config, data: seq<byte>, from: nat, inside: bool, p: nat)
    requires from <= p < |data|
  {
    c.IsQuote(data[p]) && !InQuotesAt(c, data, from, inside, p) && p > from && !Border(c, data[p - 1])
  }

  /** A byte behind a closing quote that is no border. */
  predicate BadFollower(c: Config, data: seq<byte>, from: nat, inside: bool, p: nat)
    requires from <= p < |data|
  {
    p > from && c.IsQuote(data[p - 1]) && !InQuotesAt(c, data, from, inside, p) && !Border(c, data[p])
  }

  predicate BadAt(c: Config, data: seq<byte>, from: nat, inside: bool, p: nat)
    requires from <= p < |data|
  {
    BadOpener(c, data, from, inside, p) || BadFollower(c, data, from, inside, p)
  }

  predicate Hit(c: Config, data: seq<byte>, from: nat, inside: bool, probe: bool, p: nat)
    requires from <= p < |data|
  {
    TermAt(c, data, from, inside, p)
    || (probe && BadAt(c, data, from, inside, p))
  }

  /** The table's state before byte `p`, read off the bytes. */
  function StateBefore(c: Config, data: seq<byte>, from: nat, inside: bool, p: nat): State
    requires from <= p <= |data|
  {
    if InQuotesAt(c, data, from, inside, p) then InQuotedField
    else if p == from then FieldStart
    else if c.IsQuote(data[p - 1]) then AfterClosingQuote
    else if data[p - 1] == c.delimiter then FieldStart
    else InField
  }

  lemma ParityStep(c: Config, data: seq<byte>, from: nat, inside: bool, p: nat)
    requires from <= p < |data|
    ensures InQuotesAt(c, data, from, inside, p + 1) == (InQuotesAt(c, data, from, inside, p) != c.IsQuote(data[p]))
    ensures InQuotesAt(c, data, from, inside, from) == inside
  {
    var q := QuoteBits(c, data[from..p + 1]);
    assert data[from..p + 1][..p - from] == data[from..p];
    assert q[..p - from] == QuoteBits(c, data[from..p]);
    assert q[p - from] == c.IsQuote(data[p]);
    assert data[from..from] == [] && QuoteBits(c, []) == [];
  }

  /** Two quotes in a row outside quotes: the vectors read the pair as one content quote, whatever the escape is. */
  predicate Adjacent(c: Config, data: seq<byte>, from: nat, inside: bool, p: nat)
    requires from <= p < |data|
  {
    p > from && c.IsQuote(data[p - 1]) && c.IsQuote(data[p]) && !InQuotesAt(c, data, from, inside, p)
  }

  /** One byte of the table's search, read off the bytes. */
  lemma SearchByte(c: Config, data: seq<byte>, from: nat, inside: bool, p: nat)
    requires Supported(c) && from <= p < |data|
    requires p > from ==> !TermAt(c, data, from, inside, p - 1)
    ensures var t := Cell(c, StateBefore(c, data, from, inside, p), data[p]);
            && !t.next.Error?
            && (t.next.RecordEnd? <==> TermAt(c, data, from, inside, p))
            && (t.strictError <==> BadAt(c, data, from, inside, p) || (Adjacent(c, data, from, inside, p) && !c.Doubled()))
            && (!t.next.RecordEnd? ==> Settle(t.next) == StateBefore(c, data, from, inside, p + 1))
  {
    ParityStep(c, data, from, inside, p);
    if p > from {
      ParityStep(c, data, from, inside, p - 1);
    }
    hide InQuotesAt;
  }

  /** The first hit in `[p, bnd)`, found one byte at a time. */
  function FirstHit(c: Config, data: seq<byte>, from: nat, inside: bool, probe: bool, p: nat, bnd: nat): Found
    requires from <= p <= |data|
    decreases |data| - p
  {
    if p == |data| || bnd <= p then Nowhere
    else if TermAt(c, data, from, inside, p) then At(p)
    else if probe && BadAt(c, data, from, inside, p) then Refused(p)
    else FirstHit(c, data, from, inside, probe, p + 1, bnd)
  }

  /** The table's search stops at the first hit, when the pairs of quotes are escapes or nobody probes. */
  lemma {:induction false} FindIsFirstHit(c: Config, data: seq<byte>, from: nat, inside: bool, probe: bool, p: nat, bnd: nat)
    requires Supported(c) && (probe ==> c.quote.None? || c.Doubled()) && from <= p <= |data|
    requires p > from ==> !TermAt(c, data, from, inside, p - 1)
    ensures Find(c, data, p, bnd, StateBefore(c, data, from, inside, p), probe) == FirstHit(c, data, from, inside, probe, p, bnd)
    decreases |data| - p
  {
    hide StateBefore, Cell, Settle, BadAt;
    if p < |data| && p < bnd {
      SearchByte(c, data, from, inside, p);
      if TermAt(c, data, from, inside, p) {
        TermIsFine(c, data, from, inside, p);
      } else {
        FindIsFirstHit(c, data, from, inside, probe, p + 1, bnd);
      }
    }
  }

  /** A strict search has stopped before `i`. */
  predicate HitBefore(c: Config, data: seq<byte>, from: nat, inside: bool, p: nat, i: nat)
    requires from <= p <= i <= |data|
  {
    exists k :: p <= k < i && Hit(c, data, from, inside, true, k)
  }

  /** Every pair of adjacent quotes that a search from `p` might meet has a hit before it. */
  predicate PairsBehindHits(c: Config, data: seq<byte>, from: nat, inside: bool, p: nat, bnd: nat)
    requires from <= p <= |data|
  {
    forall i :: p <= i < Min(|data|, bnd) && Adjacent(c, data, from, inside, i) ==> HitBefore(c, data, from, inside, p, i)
  }

  /**
   * Without an escape a strict search differs from the table's, which refuses the second of two
   * adjacent quotes: the two agree exactly when every such pair has a hit before it.
   */
  lemma {:induction false} StrictWithoutEscape(c: Config, data: seq<byte>, from: nat, inside: bool, p: nat, bnd: nat)
    requires Supported(c) && c.quote.Some? && c.escape.None? && from <= p <= |data|
    requires p > from ==> !TermAt(c, data, from, inside, p - 1)
    ensures Find(c, data, p, bnd, StateBefore(c, data, from, inside, p), true) == FirstHit(c, data, from, inside, true, p, bnd)
            <==> PairsBehindHits(c, data, from, inside, p, bnd)
    decreases |data| - p
  {
    hide StateBefore, Cell, Settle, BadAt, PairsBehindHits;
    PairsStep(c, data, from, inside, p, bnd);
    if p < |data| && p < bnd {
      SearchByte(c, data, from, inside, p);
      NotBoth(c, data, from, inside, p);
      if TermAt(c, data, from, inside, p) {
        TermIsFine(c, data, from, inside, p);
      } else if !BadAt(c, data, from, inside, p) {
        FirstHitIsLater(c, data, from, inside, p + 1, bnd);
        StrictWithoutEscape(c, data, from, inside, p + 1, bnd);
        hide Adjacent, TermAt;
      }
    }
  }

  /** What the first byte decides about the pairs behind it. */
  lemma PairsStep(c: Config, data: seq<byte>, from: nat, inside: bool, p: nat, bnd: nat)
    requires c.Valid() && from <= p <= |data|
    ensures p == |data| || bnd <= p ==> PairsBehindHits(c, data, from, inside, p, bnd)
    ensures p < |data| && p < bnd ==>
      (PairsBehindHits(c, data, from, inside, p, bnd) <==>
        if Hit(c, data, from, inside, true, p) then true
        else !Adjacent(c, data, from, inside, p) && PairsBehindHits(c, data, from, inside, p + 1, bnd))
  {
    hide Adjacent, Hit, HitBefore;
    if p < |data| && p < bnd {
      NothingBefore(c, data, from, inside, p);
      PairIsNoHit(c, data, from, inside, p);
      forall i | p < i <= |data|
        ensures HitBefore(c, data, from, inside, p, i) <==> Hit(c, data, from, inside, true, p) || HitBefore(c, data, from, inside, p + 1, i)
      {
        BeforeStep(c, data, from, inside, p, i);
      }
    }
  }

  lemma PairIsNoHit(c: Config, data: seq<byte>, from: nat, inside: bool, p: nat)
    requires c.Valid() && from <= p < |data|
    ensures Hit(c, data, from, inside, true, p) ==> !Adjacent(c, data, from, inside, p)
  {
    NotBoth(c, data, from, inside, p);
    hide Adjacent, TermAt, BadAt;
  }

  lemma NothingBefore(c: Config, data: seq<byte>, from: nat, inside: bool, p: nat)
    requires from <= p <= |data|
    ensures !HitBefore(c, data, from, inside, p, p)
  {
  }

  lemma BeforeStep(c: Config, data: seq<byte>, from: nat, inside: bool, p: nat, i: nat)
    requires from <= p < i <= |data|
    ensures HitBefore(c, data, from, inside, p, i) <==> Hit(c, data, from, inside, true, p) || HitBefore(c, data, from, inside, p + 1, i)
  {
    hide Hit;
  }

  lemma NotBoth(c: Config, data: seq<byte>, from: nat, inside: bool, p: nat)
    requires c.Valid() && from <= p < |data|
    ensures Adjacent(c, data, from, inside, p) ==> !BadAt(c, data, from, inside, p) && !TermAt(c, data, from, inside, p)
  {
    hide InQuotesAt;
  }

  lemma {:induction false} FirstHitIsLater(c: Config, data: seq<byte>, from: nat, inside: bool, p: nat, bnd: nat)
    requires from <= p <= |data|
    ensures var r := FirstHit(c, data, from, inside, true, p, bnd); (r.At? ==> p <= r.pos) && (r.Refused? ==> p <= r.at)
    decreases |data| - p
  {
    hide TermAt, BadAt;
    if p < |data| && p < bnd {
      FirstHitIsLater(c, data, from, inside, p + 1, bnd);
    }
  }

  lemma TermIsFine(c: Config, data: seq<byte>, from: nat, inside: bool, p: nat)
    requires c.Valid() && from <= p < |data| && TermAt(c, data, from, inside, p)
    ensures !BadAt(c, data, from, inside, p) && !Adjacent(c, data, from, inside, p)
  {
  }

  /** The masks of the `avail` bytes at `p`, padded neutrally to a vector. */
  ghost predicate Matched(c: Config, data: seq<byte>, from: nat, inside: bool, p: nat, avail: nat, s: Structural, m: Mask) {
    && from <= p && p + avail <= |data| && avail <= 64
    && (forall i :: 0 <= i < avail ==> s.delim[i] == (data[p + i] == c.delimiter))
    && (forall i :: 0 <= i < avail ==> s.term[i] == c.IsTerm(data[p + i]))
    && (forall i :: 0 <= i < avail ==> s.quote[i] == c.IsQuote(data[p + i]))
    && (forall i :: 0 <= i < avail ==> m[i] == InQuotesAt(c, data, from, inside, p + i + 1))
    && (forall i :: avail <= i < 64 ==> !s.delim[i] && !s.term[i] && !s.quote[i])
  }

  /** All border bytes of a vector. */
  function Borders(s: Structural): (r: Mask)
    ensures forall i :: 0 <= i < 64 ==> r[i] == (s.delim[i] || s.term[i] || s.quote[i])
  {
    Or(Or(s.delim, s.term), s.quote)
  }

  /** The lanes below `k`. */
  function Below(k: nat): (r: Mask)
    ensures forall i :: 0 <= i < 64 ==> r[i] == (i < k)
  {
    seq(64, i => i < k)
  }

  /** The probe's memory of the vector before the one at `p`. */
  ghost predicate Remembers(c: Config, data: seq<byte>, from: nat, inside: bool, p: nat, prevLastBnd: bool, pending: Option<nat>) {
    && from <= p <= |data|
    && prevLastBnd == (p == from || Border(c, data[p - 1]))
    && pending == if p > from && c.IsQuote(data[p - 1]) && !InQuotesAt(c, data, from, inside, p) then Some(p) else None
  }

  /** Openers without a border on their left. */
  function BadOpeners(s: Structural, m: Mask, prev: bool): (r: Mask)
    ensures forall i :: 0 <= i < 64 ==> r[i] == (s.quote[i] && m[i] && !(if i == 0 then prev else Borders(s)[i - 1]))
  {
    And(And(s.quote, m), Not(Shl1(Borders(s), prev)))
  }

  /** Closers without a border on their right, in this vector. */
  function BadClosers(s: Structural, m: Mask): (r: Mask)
    ensures forall i :: 0 <= i < 64 ==> r[i] == (s.quote[i] && !m[i] && !(i < 63 && Borders(s)[i + 1]))
  {
    And(And(s.quote, Not(m)), Not(Shr1(Borders(s), false)))
  }

  lemma BorderBit(c: Config, data: seq<byte>, from: nat, inside: bool, p: nat, avail: nat, s: Structural, m: Mask, i: nat)
    requires Matched(c, data, from, inside, p, avail, s, m) && i < avail
    ensures Borders(s)[i] == Border(c, data[p + i]) && s.quote[i] == c.IsQuote(data[p + i])
    ensures m[i] == InQuotesAt(c, data, from, inside, p + i + 1)
    ensures InQuotesAt(c, data, from, inside, p + i + 1) == (InQuotesAt(c, data, from, inside, p + i) != c.IsQuote(data[p + i]))
  {
    ParityStep(c, data, from, inside, p + i);
    hide InQuotesAt;
  }

  lemma BadIs(c: Config, data: seq<byte>, from: nat, inside: bool, p: nat)
    requires from <= p < |data|
    ensures BadAt(c, data, from, inside, p) <==> (p > from && !InQuotesAt(c, data, from, inside, p)
        && ((c.IsQuote(data[p]) && !Border(c, data[p - 1])) || (c.IsQuote(data[p - 1]) && !Border(c, data[p]))))
  {
    hide InQuotesAt, Border;
  }

  lemma RememberedIs(c: Config, data: seq<byte>, from: nat, inside: bool, p: nat, prev: bool, pending: Option<nat>)
    requires Remembers(c, data, from, inside, p, prev, pending)
    ensures from <= p <= |data|
    ensures prev == (p == from || Border(c, data[p - 1]))
    ensures pending.Some? <==> p > from && c.IsQuote(data[p - 1]) && !InQuotesAt(c, data, from, inside, p)
  {
    hide InQuotesAt, Border;
  }

  lemma QuoteIsBorder(c: Config, b: byte)
    ensures c.IsQuote(b) ==> Border(c, b)
  {
  }

  /** A byte is bad as an opener, or as the follower of a quote in its vector or the one before. */
  lemma BadBits(c: Config, data: seq<byte>, from: nat, inside: bool, p: nat, avail: nat, s: Structural, m: Mask, prev: bool, pending: Option<nat>, i: nat)
    requires Matched(c, data, from, inside, p, avail, s, m) && i < avail && Remembers(c, data, from, inside, p, prev, pending)
    ensures BadAt(c, data, from, inside, p + i) <==>
      BadOpeners(s, m, prev)[i] || (if i == 0 then pending.Some? && !Borders(s)[0] else BadClosers(s, m)[i - 1])
  {
    hide *;
    MatchedLast(c, data, from, inside, p, avail, s, m);
    BorderBit(c, data, from, inside, p, avail, s, m, i);
    BadIs(c, data, from, inside, p + i);
    if i > 0 {
      var x := p + (i - 1);
      BorderBit(c, data, from, inside, p, avail, s, m, i - 1);
      assert x + 1 == p + i && p + i - 1 == x;
      QuoteIsBorder(c, data[x]);
    } else {
      RememberedIs(c, data, from, inside, p, prev, pending);
    }
  }

  /** What the check of one vector reports: its first bad byte below the cutoff. */
  ghost predicate Reports(c: Config, data: seq<byte>, from: nat, inside: bool, p: nat, cut: nat, err: Option<nat>) {
    && from <= p && p + cut <= |data|
    && (err.None? ==> forall i :: p <= i < p + cut ==> !BadAt(c, data, from, inside, i))
    && (err.Some? ==> p <= err.value < p + cut && BadAt(c, data, from, inside, err.value)
                      && forall i :: p <= i < err.value ==> !BadAt(c, data, from, inside, i))
  }

  /** The neighbour bits that straddle vectors. */
  class StrictProbe {
    /** Whether the previous vector's last byte was a border. */
    var prevLastBnd: bool
    /** If the previous vector ended on a closing quote, the offset at which its follower will be judged. */
    var pendingCloserMsb: Option<nat>

    constructor ()
      ensures prevLastBnd && pendingCloserMsb == None
    {
      prevLastBnd, pendingCloserMsb := true, None;
    }

    /** Judge one vector against the assumption. */
    method Check(s: Structural, m: Mask, avail: nat, termBit: Option<nat>, p: nat, ghost c: Config, ghost data: seq<byte>, ghost from: nat, ghost inside: bool)
      returns (err: Option<nat>)
      requires Matched(c, data, from, inside, p, avail, s, m) && 1 <= avail && Remembers(c, data, from, inside, p, prevLastBnd, pendingCloserMsb)
      requires termBit.Some? ==> termBit.value < avail && s.term[termBit.value]
      modifies `pendingCloserMsb
      ensures Reports(c, data, from, inside, p, if termBit.Some? then termBit.value else avail, err)
      ensures err.None? && avail == 64 && termBit.None? ==>
        pendingCloserMsb == if c.IsQuote(data[p + 63]) && !InQuotesAt(c, data, from, inside, p + 64) then Some(p + 64) else None
    {
      hide *;
      ghost var pending := pendingCloserMsb;
      var cut := if termBit.Some? then termBit.value else avail;
      MatchedLast(c, data, from, inside, p, avail, s, m);
      RemembersPending(c, data, from, inside, p, prevLastBnd, pending);
      BordersAre(s);
      var bnd := Borders(s);
      // A closer deferred from the previous vector meets this vector's first byte.
      var parked := pendingCloserMsb;
      pendingCloserMsb := None;
      if parked.Some? && !bnd[0] {
        BadBits(c, data, from, inside, p, avail, s, m, prevLastBnd, pending, 0);
        FirstIsBad(c, data, from, inside, p, avail, cut, termBit, s);
        return parked;
      }
      var badOpeners := BadOpeners(s, m, prevLastBnd);
      var badClosers := BadClosers(s, m);
      ghost var closers0 := badClosers;
      // A closer in the last lane has its right neighbour in the next vector.
      if avail == 64 && badClosers[63] {
        badClosers := badClosers[63 := false];
        pendingCloserMsb := Some(p + 64);
      }
      // Nothing follows the last byte of a short vector.
      if avail < 64 {
        badClosers := badClosers[avail - 1 := false];
      }
      // Only bytes in front of the terminator are of this record.
      var opener := Lowest(And(badOpeners, Below(cut)), 0);
      var closer := Lowest(And(badClosers, Below(cut)), 0);
      // The table blames the byte behind a bad closer; so do we.
      var first := if closer + 1 < opener then closer + 1 else opener;
      err := if first < 64 then Some(p + first) else None;
      Trimmed(s, m, avail, closers0, badClosers);
      Reported(c, data, from, inside, p, avail, cut, s, m, prevLastBnd, pending, badOpeners, badClosers, opener, closer, err, termBit);
    }

    /** Remember the last byte for the vector to come. */
    method Advance(s: Structural)
      modifies `prevLastBnd
      ensures prevLastBnd == Borders(s)[63]
    {
      prevLastBnd := Borders(s)[63];
    }
  }

  lemma MatchedLast(c: Config, data: seq<byte>, from: nat, inside: bool, p: nat, avail: nat, s: Structural, m: Mask)
    requires Matched(c, data, from, inside, p, avail, s, m)
    ensures from <= p && p + avail <= |data| && avail <= 64
    ensures forall i :: avail <= i < 64 ==> !s.quote[i]
    ensures avail == 64 ==> s.quote[63] == c.IsQuote(data[p + 63]) && m[63] == InQuotesAt(c, data, from, inside, p + 64)
  {
    hide InQuotesAt;
    if avail == 64 {
      assert m[63] == InQuotesAt(c, data, from, inside, p + 63 + 1);
    }
  }

  lemma RemembersPending(c: Config, data: seq<byte>, from: nat, inside: bool, p: nat, prev: bool, pending: Option<nat>)
    requires Remembers(c, data, from, inside, p, prev, pending)
    ensures pending.Some? ==> pending.value == p
  {
    hide InQuotesAt, Border;
  }

  lemma BordersAre(s: Structural)
    ensures forall i :: 0 <= i < 64 ==> Borders(s)[i] == (s.delim[i] || s.term[i] || s.quote[i])
  {
  }

  /** The closers that this vector can judge. */
  lemma Trimmed(s: Structural, m: Mask, avail: nat, before: Mask, after: Mask)
    requires 1 <= avail <= 64 && before == BadClosers(s, m) && forall i :: avail <= i < 64 ==> !s.quote[i]
    requires var t := if avail == 64 && before[63] then before[63 := false] else before;
             after == if avail < 64 then t[avail - 1 := false] else t
    ensures forall i :: 0 <= i < 64 ==> after[i] == (i + 1 < avail && before[i])
    ensures before[63] == (s.quote[63] && !m[63])
  {
    hide BadClosers;
  }

  lemma FirstIsBad(c: Config, data: seq<byte>, from: nat, inside: bool, p: nat, avail: nat, cut: nat, termBit: Option<nat>, s: Structural)
    requires from <= p && p + avail <= |data| && 1 <= avail && BadAt(c, data, from, inside, p) && !Borders(s)[0]
    requires cut == (if termBit.Some? then termBit.value else avail) && (termBit.Some? ==> termBit.value < avail && avail <= 64 && s.term[termBit.value])
    ensures Reports(c, data, from, inside, p, cut, Some(p))
  {
    hide BadAt;
  }

  lemma Reported(c: Config, data: seq<byte>, from: nat, inside: bool, p: nat, avail: nat, cut: nat, s: Structural, m: Mask, prev: bool, pending: Option<nat>,
                 openers: Mask, closers: Mask, opener: nat, closer: nat, err: Option<nat>, termBit: Option<nat>)
    requires Matched(c, data, from, inside, p, avail, s, m) && 1 <= avail && Remembers(c, data, from, inside, p, prev, pending)
    requires cut == (if termBit.Some? then termBit.value else avail) && (termBit.Some? ==> termBit.value < avail && s.term[termBit.value])
    requires !(pending.Some? && !Borders(s)[0])
    requires openers == BadOpeners(s, m, prev) && forall i :: 0 <= i < 64 ==> closers[i] == (i + 1 < avail && BadClosers(s, m)[i])
    requires opener == Lowest(And(openers, Below(cut)), 0) && closer == Lowest(And(closers, Below(cut)), 0)
    requires var first := if closer + 1 < opener then closer + 1 else opener; err == if first < 64 then Some(p + first) else None
    ensures Reports(c, data, from, inside, p, cut, err)
  {
    hide *;
    MatchedLast(c, data, from, inside, p, avail, s, m);
    var first := if closer + 1 < opener then closer + 1 else opener;
    BelowFirst(openers, cut, opener);
    BelowFirst(closers, cut, closer);
    forall i | p <= i < p + cut && i < p + first ensures !BadAt(c, data, from, inside, i) {
      BadBits(c, data, from, inside, p, avail, s, m, prev, pending, i - p);
    }
    if first < 64 {
      if closer + 1 < opener {
        if termBit.Some? && closer + 1 == cut {
          TermIsBorder(s, m, closer);
        }
        BadBits(c, data, from, inside, p, avail, s, m, prev, pending, closer + 1);
      } else {
        BadBits(c, data, from, inside, p, avail, s, m, prev, pending, opener);
      }
    }
    IsReport(c, data, from, inside, p, cut, err);
  }

  lemma BelowFirst(x: Mask, cut: nat, k: nat)
    requires k == Lowest(And(x, Below(cut)), 0)
    ensures k <= 64 && (k < 64 ==> x[k] && k < cut) && forall i :: 0 <= i < k && i < cut ==> !x[i]
  {
    hide Lowest;
    forall i | 0 <= i < k && i < cut ensures !x[i] {
      assert !And(x, Below(cut))[i];
    }
  }

  lemma TermIsBorder(s: Structural, m: Mask, i: nat)
    requires i < 63 && s.term[i + 1]
    ensures !BadClosers(s, m)[i]
  {
  }

  lemma IsReport(c: Config, data: seq<byte>, from: nat, inside: bool, p: nat, cut: nat, err: Option<nat>)
    requires from <= p && p + cut <= |data|
    requires err.None? ==> forall i :: p <= i < p + cut ==> !BadAt(c, data, from, inside, i)
    requires err.Some? ==> p <= err.value < p + cut && BadAt(c, data, from, inside, err.value)
                           && forall i :: p <= i < err.value ==> !BadAt(c, data, from, inside, i)
    ensures Reports(c, data, from, inside, p, cut, err)
  {
    hide BadAt;
  }

  /** No byte in `[lo, hi)` ends the search. */
  ghost predicate NoHit(c: Config, data: seq<byte>, from: nat, inside: bool, probe: bool, lo: nat, hi: nat)
    requires from <= lo <= hi <= |data|
  {
    forall i :: lo <= i < hi ==> !Hit(c, data, from, inside, probe, i)
  }

  lemma NoHitJoins(c: Config, data: seq<byte>, from: nat, inside: bool, probe: bool, p: nat, q: nat)
    requires from <= p <= q <= |data|
    requires NoHit(c, data, from, inside, probe, from, p) && NoHit(c, data, from, inside, probe, p, q)
    ensures NoHit(c, data, from, inside, probe, from, q)
  {
    hide Hit;
  }

  /** What the search returns once its first hit, or the lack of one, is known. */
  lemma {:induction false} FirstHitIs(c: Config, data: seq<byte>, from: nat, inside: bool, probe: bool, p: nat, q: nat, bnd: nat)
    requires from <= p <= q <= |data| && (q == p || q <= bnd) && NoHit(c, data, from, inside, probe, p, q)
    requires q < |data| && q < bnd ==> Hit(c, data, from, inside, probe, q)
    ensures FirstHit(c, data, from, inside, probe, p, bnd)
         == if q < |data| && q < bnd then (if TermAt(c, data, from, inside, q) then At(q) else Refused(q)) else Nowhere
    decreases q - p
  {
    hide TermAt, BadAt;
    if p < q {
      assert !Hit(c, data, from, inside, probe, p);
      FirstHitIs(c, data, from, inside, probe, p + 1, q, bnd);
    }
  }

  /** Whether an assumption puts the byte in front of the chunk inside quotes. */
  function InitialCarry(c: Config, a: Assumption): bool {
    match a
    case AssumeOut => false
    case AssumeIn => true
    case AssumeEscaped => c.quote != c.escape
  }

  /**
   * The two searches agree on every assumption a supported dialect gives rise to: lenient ones
   * always, strict ones unless a quote has no escape.
   */
  lemma SearchesAgree(c: Config, data: seq<byte>, from: nat, a: Assumption, bnd: nat, probe: bool)
    requires Supported(c) && from <= |data| && (a.AssumeEscaped? ==> c.Doubled() && !probe)
    requires probe ==> c.quote.None? || c.Doubled()
    ensures FirstHit(c, data, from, InitialCarry(c, a), probe, from, bnd) == Find(c, data, from, bnd, InitialState(c, a), probe)
  {
    assert data[from..from] == [] && QuoteBits(c, []) == [];
    FindIsFirstHit(c, data, from, InitialCarry(c, a), probe, from, bnd);
    hide InQuotesAt, FirstHit;
  }

  /** A vector of input bytes, padded. */
  ghost predicate Loaded(c: Config, data: seq<byte>, p: nat, avail: nat, v: seq<byte>) {
    && |v| == 64 && avail <= 64 && p + avail <= |data|
    && (forall i :: 0 <= i < avail ==> v[i] == data[p + i])
    && (forall i :: avail <= i < 64 ==> Neutral(c, v[i]))
  }

  lemma VectorMatched(c: Config, data: seq<byte>, from: nat, inside: bool, p: nat, avail: nat, v: seq<byte>, s: Structural, m: Mask)
    requires Loaded(c, data, p, avail, v) && from <= p && s == MatchStructural(c, v)
    requires forall i :: 0 <= i < 64 ==> m[i] == (InQuotesAt(c, data, from, inside, p) != Parity(s.quote[..i + 1]))
    ensures Matched(c, data, from, inside, p, avail, s, m)
  {
    hide MatchStructural, Parity;
    forall i | 0 <= i < avail ensures m[i] == InQuotesAt(c, data, from, inside, p + i + 1) {
      var head, tail := data[from..p], data[p..p + i + 1];
      assert data[from..p + i + 1] == head + tail;
      assert QuoteBits(c, head + tail) == QuoteBits(c, head) + QuoteBits(c, tail);
      assert QuoteBits(c, tail) == s.quote[..i + 1] by {
        forall k | 0 <= k < i + 1 ensures QuoteBits(c, tail)[k] == s.quote[..i + 1][k] {
          assert v[k] == data[p + k];
        }
      }
      ParityConcat(QuoteBits(c, head), QuoteBits(c, tail));
    }
    assert forall i :: 0 <= i < avail ==> v[i] == data[p + i];
  }

  /** The out-of-quotes terminators of a vector. */
  function StructuralTerm(s: Structural, m: Mask): (r: Mask)
    ensures forall i :: 0 <= i < 64 ==> r[i] == (s.term[i] && !m[i])
  {
    And(s.term, And(Or(s.delim, s.term), Not(m)))
  }

  lemma TermBits(c: Config, data: seq<byte>, from: nat, inside: bool, p: nat, avail: nat, s: Structural, m: Mask)
    requires c.Valid() && Matched(c, data, from, inside, p, avail, s, m)
    ensures from <= p && p + avail <= |data| && avail <= 64
    ensures forall i :: 0 <= i < avail ==> (StructuralTerm(s, m)[i] <==> TermAt(c, data, from, inside, p + i))
    ensures forall i :: avail <= i < 64 ==> !StructuralTerm(s, m)[i]
  {
    forall i | 0 <= i < avail ensures StructuralTerm(s, m)[i] <==> TermAt(c, data, from, inside, p + i) {
      ParityStep(c, data, from, inside, p + i);
      assert m[i] == InQuotesAt(c, data, from, inside, p + i + 1);
      assert s.term[i] == c.IsTerm(data[p + i]);
      hide InQuotesAt;
    }
  }

  /** One vector's verdict: the bytes below the cutoff hold no hit, unless the probe reported one. */
  lemma Verdict(c: Config, data: seq<byte>, from: nat, inside: bool, probe: bool, p: nat, avail: nat, s: Structural, m: Mask, termBit: nat, cut: nat, err: Option<nat>)
    requires c.Valid() && Matched(c, data, from, inside, p, avail, s, m)
    requires termBit == Lowest(StructuralTerm(s, m), 0) && cut == (if termBit < avail then termBit else avail)
    requires if probe then Reports(c, data, from, inside, p, cut, err) else err.None?
    ensures from <= p && p + avail <= |data| && (termBit < 64 ==> termBit < avail)
    ensures err.None? ==> NoHit(c, data, from, inside, probe, p, p + cut)
    ensures err.None? && termBit < avail ==> TermAt(c, data, from, inside, p + termBit) && Hit(c, data, from, inside, probe, p + termBit)
    ensures err.Some? ==> p <= err.value < p + cut && NoHit(c, data, from, inside, probe, p, err.value)
                          && Hit(c, data, from, inside, probe, err.value) && !TermAt(c, data, from, inside, err.value)
  {
    hide Matched, TermAt, BadOpener, BadFollower, StructuralTerm, Lowest, c.IsTerm, c.IsQuote;
    TermBits(c, data, from, inside, p, avail, s, m);
    var terms := StructuralTerm(s, m);
    forall i | p <= i < p + cut ensures !TermAt(c, data, from, inside, i) {
      assert !terms[i - p] && p + (i - p) == i;
    }
    if termBit < 64 {
      assert terms[termBit];
    }
    var end := if err.Some? then err.value else p + cut;
    forall i | p <= i < end ensures !Hit(c, data, from, inside, probe, i) {
      assert !TermAt(c, data, from, inside, i);
      if probe {
        assert !BadAt(c, data, from, inside, i);
      }
    }
  }

  /** At the start of the chunk nothing precedes the first byte. */
  lemma StartRemembered(c: Config, data: seq<byte>, from: nat, inside: bool)
    requires from <= |data|
    ensures InQuotesAt(c, data, from, inside, from) == inside && Remembers(c, data, from, inside, from, true, None)
  {
    assert data[from..from] == [] && QuoteBits(c, []) == [];
  }

  /** A full vector without a hit hands its last byte on. */
  lemma NextRemembered(c: Config, data: seq<byte>, from: nat, inside: bool, p: nat, s: Structural, m: Mask, pending: Option<nat>)
    requires Matched(c, data, from, inside, p, 64, s, m)
    requires p + 64 <= |data| && from <= p
    requires pending == if c.IsQuote(data[p + 63]) && !InQuotesAt(c, data, from, inside, p + 64) then Some(p + 64) else None
    ensures Remembers(c, data, from, inside, p + 64, Borders(s)[63], pending) && m[63] == InQuotesAt(c, data, from, inside, p + 64)
  {
    BorderBit(c, data, from, inside, p, 64, s, m, 63);
    assert p + 63 + 1 == p + 64;
    hide Matched, InQuotesAt, Border, Borders;
  }

  lemma EmptyHit(c: Config, data: seq<byte>, from: nat, inside: bool, probe: bool)
    requires from <= |data|
    ensures NoHit(c, data, from, inside, probe, from, from)
  {
  }

  lemma ReaderIs(reader: ChunkReader)
    ensures reader.Valid() <==> reader.base <= reader.filled <= reader.mem.Length
  {
  }

  lemma RemainingIs(reader: ChunkReader)
    ensures reader.RemainingInChunk() == if reader.chunkEnd < reader.base then 0 else reader.chunkEnd - reader.base
  {
  }

  lemma PadIsNeutral(c: Config)
    ensures Neutral(c, Pad(c))
  {
  }

  /** Load a vector, padding what lies past the scan's end. */
  method Load(c: Config, reader: ChunkReader, avail: nat, pad: byte, ghost data: seq<byte>) returns (v: seq<byte>)
    requires reader.Valid() && reader.base + avail <= reader.filled && avail <= 64 && Neutral(c, pad)
    requires reader.mem[..] == data
    ensures |v| == 64 && Loaded(c, data, reader.base, avail, v)
  {
    hide Neutral;
    v := reader.mem[reader.base..reader.base + avail];
    if avail < 64 {
      v := v + seq(64 - avail, _ => pad);
    }
  }

  /** Search one vector for a terminator, and in strict mode for a quote that contradicts the assumption. */
  method SearchVector(c: Config, reader: ChunkReader, avail: nat, pad: byte, carry: bool, strict: bool, probe: StrictProbe,
                      ghost data: seq<byte>, ghost from: nat, ghost inside: bool) returns (r: Found, newCarry: bool)
    requires c.Valid() && reader.Valid() && reader.mem[..] == data && Neutral(c, pad)
    requires from <= reader.base && 1 <= avail <= 64 && reader.base + avail <= reader.filled
    requires carry == InQuotesAt(c, data, from, inside, reader.base)
    requires strict ==> Remembers(c, data, from, inside, reader.base, probe.prevLastBnd, probe.pendingCloserMsb)
    modifies probe
    ensures reader.base + avail <= |data|
    ensures r.At? ==> reader.base <= r.pos < reader.base + avail && TermAt(c, data, from, inside, r.pos)
    ensures r.Refused? ==> reader.base <= r.at < reader.base + avail && !TermAt(c, data, from, inside, r.at)
    ensures var end := if r.At? then r.pos else if r.Refused? then r.at else reader.base + avail;
            NoHit(c, data, from, inside, strict, reader.base, end) && (!r.Nowhere? ==> Hit(c, data, from, inside, strict, end))
    ensures r.Nowhere? && avail == 64 ==> newCarry == InQuotesAt(c, data, from, inside, reader.base + 64)
    ensures r.Nowhere? && avail == 64 && strict ==> Remembers(c, data, from, inside, reader.base + 64, probe.prevLastBnd, probe.pendingCloserMsb)
  {
    hide *;
    ReaderIs(reader);
    var p := reader.base;
    var v := Load(c, reader, avail, pad, data);
    var s := MatchStructural(c, v);
    var m;
    m, newCarry := ComputeInQuotes(s.quote, carry);
    VectorMatched(c, data, from, inside, p, avail, v, s, m);
    MatchedLast(c, data, from, inside, p, avail, s, m);
    var termBit := Lowest(StructuralTerm(s, m), 0);
    TermBits(c, data, from, inside, p, avail, s, m);
    var cut := if termBit < avail then termBit else avail;
    var err: Option<nat> := None;
    if strict {
      err := probe.Check(s, m, avail, if termBit < avail then Some(termBit) else None, p, c, data, from, inside);
    }
    Verdict(c, data, from, inside, strict, p, avail, s, m, termBit, cut, err);
    if err.Some? {
      return Refused(err.value), newCarry;
    }
    if termBit < avail {
      return At(p + termBit), newCarry;
    }
    if strict && avail == 64 {
      NextRemembered(c, data, from, inside, p, s, m, probe.pendingCloserMsb);
      probe.Advance(s);
    }
    r := Nowhere;
  }

  /**
   * Scan under an assumption, forward to the first terminator out of quotes, and in strict mode
   * for a quote that contradicts the assumption, whatever amounts arrive at each refill.
   */
  method FindRecordStart(c: Config, reader: ChunkReader, a: Assumption, strict: bool, ghost data: seq<byte>) returns (r: Found)
    requires c.Valid() && reader.Valid() && reader.mem[..] == data
    modifies reader`base, reader`filled
    ensures reader.Valid() && old(reader.base) <= reader.base
    ensures r == old(FirstHit(c, data, reader.base, InitialCarry(c, a), strict, reader.base, reader.chunkEnd))
    ensures r.At? ==> reader.base == r.pos
  {
    hide *;
    var pad := NeutralPad(c);
    PadIsNeutral(c);
    var carry := InitialCarry(c, a);
    ghost var from, bnd, inside := reader.base, reader.chunkEnd, carry;
    var probe := new StrictProbe();
    ReaderIs(reader);
    StartRemembered(c, data, from, inside);
    EmptyHit(c, data, from, inside, strict);
    while true
      invariant reader.Valid() && from <= reader.base <= |data| && (reader.base == from || reader.base <= bnd)
      invariant carry == InQuotesAt(c, data, from, inside, reader.base)
      invariant strict ==> Remembers(c, data, from, inside, reader.base, probe.prevLastBnd, probe.pendingCloserMsb)
      invariant NoHit(c, data, from, inside, strict, from, reader.base)
      decreases |data| - reader.base
    {
      reader.Fill(64);
      ReaderIs(reader);
      var p := reader.base;
      var len := reader.filled - reader.base;
      var chunkLeft := reader.RemainingInChunk();
      RemainingIs(reader);
      if len == 0 || chunkLeft == 0 {
        FirstHitIs(c, data, from, inside, strict, from, p, bnd);
        return Nowhere;
      }
      var scanEnd := if chunkLeft < len then chunkLeft else len;
      var avail := if scanEnd < 64 then scanEnd else 64;
      var found, newCarry := SearchVector(c, reader, avail, pad, carry, strict, probe, data, from, inside);
      ghost var end := match found case At(q) => q case Refused(q) => q case Nowhere => p + avail;
      NoHitJoins(c, data, from, inside, strict, p, end);
      if !found.Nowhere? || avail < 64 {
        FirstHitIs(c, data, from, inside, strict, from, end, bnd);
      }
      match found {
        case Refused(at) => return Refused(at);
        case At(q) =>
          reader.Consume(q - p);
          return At(q);
        case Nowhere =>
      }
      if avail < 64 {
        // A tail vector without a terminator: the merge takes over.
        return Nowhere;
      }
      carry := newCarry;
      reader.Consume(64);
    }
  }
}
