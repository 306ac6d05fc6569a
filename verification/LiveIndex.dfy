/**
 * The offsets a stepper has found and not yet emitted. They are, one origin apart, the
 * stream's positions from the first unemitted record to the last resolved vector.
 */
module LiveIndex {
  import opened Dialect
  import opened Records
  import opened Masks
  import opened Stream
  import opened Segments
  import opened FieldWalk
  import opened FieldCount
  import opened Stride
  import opened VectorScanner
  import opened Index
  import opened Padding

  /** The terminator byte that completes a last record without one. */
  function TermByte(c: Config): (b: byte)
    ensures c.IsTerm(b)
  {
    match c.terminator case SingleByte(t) => t case CrLf => LF
  }

  /** How many lanes complete the last vector. */
  function Filler(n: nat): (k: nat)
    ensures k < 64 && (n + k) % 64 == 0
  {
    if n % 64 == 0 then 0 else 64 - n % 64
  }

  /** All the vectors of one run: `m` lanes of padding, the input from `o` on, and a padded tail. */
  function Vectors(j: Job, o: nat, m: nat): (t: seq<byte>)
    requires o <= |j.data|
    ensures |t| % 64 == 0
  {
    var body := Pads(j.cfg, m) + j.data[o..] + (if Unterminated(j, o) then [TermByte(j.cfg)] else []);
    body + Pads(j.cfg, Filler(|body|))
  }

  /** The same without the head padding. */
  function Shown(j: Job, o: nat, m: nat): (s: seq<byte>)
    requires o <= |j.data|
    ensures |s| == |Vectors(j, o, m)| - m
  {
    Vectors(j, o, m)[m..]
  }

  lemma ShownIs(j: Job, o: nat, m: nat)
    requires o <= |j.data| && j.cfg.Valid()
    ensures Shows(j, o, Shown(j, o, m))
    ensures Vectors(j, o, m) == Pads(j.cfg, m) + Shown(j, o, m)
  {
    var n := |j.data| - o;
    var s := Shown(j, o, m);
    var virtual := if Unterminated(j, o) then [TermByte(j.cfg)] else [];
    var k := |s| - n - |virtual|;
    assert s == j.data[o..] + virtual + Pads(j.cfg, k);
    forall i | n <= i < |s|
      ensures s[i] != j.cfg.delimiter && !j.cfg.IsQuote(s[i]) && (j.cfg.IsTerm(s[i]) <==> i == n && Unterminated(j, o))
    {
      if i >= n + |virtual| {
        assert s[i] == Pads(j.cfg, k)[i - n - |virtual|];
      }
    }
  }

  function Shift(xs: seq<int>, d: int): (r: seq<int>)
    ensures |r| == |xs| && forall i :: 0 <= i < |xs| ==> r[i] == xs[i] + d
  {
    seq(|xs|, i requires 0 <= i < |xs| => xs[i] + d)
  }

  lemma ShiftConcat(a: seq<int>, b: seq<int>, d: int)
    ensures Shift(a + b, d) == Shift(a, d) + Shift(b, d)
  {
  }

  /** Set lanes as stream positions. */
  lemma {:induction false} OffsetsShift(mask: Mask, base: int, d: int, hi: nat)
    requires hi <= 64
    ensures Shift(Offsets(mask, base, hi), d) == Offsets(mask, base + d, hi)
  {
    if hi > 0 {
      OffsetsShift(mask, base, d, hi - 1);
      ShiftConcat(Offsets(mask, base, hi - 1), if mask[hi - 1] then [base + hi - 1] else [], d);
    }
  }

  /** A mask of one kind, read off as offsets, is the kind's positions; lanes before the stream hold nothing. */
  lemma {:induction false} OffsetsArePositions(k: Kind, c: Config, s: seq<byte>, mask: Mask, base: int, hi: nat)
    requires hi <= 64 && base + hi >= 0
    requires forall i :: 0 <= i < hi ==> mask[i] == (base + i >= 0 && Holds(k, c, s, base + i))
    ensures Offsets(mask, base, hi) == Positions(k, c, s, if base < 0 then 0 else base, base + hi)
    decreases hi
  {
    hide Holds;
    if hi > 0 {
      if base + hi == 0 {
        forall x | 0 <= x < hi ensures !mask[x] {}
        OffsetsSkip(mask, base, 0, hi);
      } else {
        OffsetsArePositions(k, c, s, mask, base, hi - 1);
      }
    }
  }

  /** The classes of the boundaries of one vector. */
  lemma {:induction false} PickIsClasses(c: Config, s: seq<byte>, d: Mask, term: Mask, base: int, hi: nat)
    requires hi <= 64 && base + hi >= 0
    requires forall i :: 0 <= i < hi ==> d[i] == (base + i >= 0 && BoundB(c, s, base + i))
    requires forall i :: 0 <= i < hi ==> term[i] == (base + i >= 0 && RunEnd(c, s, base + i))
    ensures Pick(term[..hi], d[..hi]) == Classes(c, s, if base < 0 then 0 else base, base + hi)
    decreases hi
  {
    hide BoundB, RunEnd;
    if hi > 0 {
      if base + hi == 0 {
        assert term[..0] == [] && d[..0] == [];
        PickSkips(term, d, 0, hi);
      } else {
        PickIsClasses(c, s, d, term, base, hi - 1);
        PickNext(term, d, hi - 1);
      }
    }
  }

  /** A vector's output in stream positions: `m` lanes of head padding precede the stream. */
  lemma OutputShifts(c: Config, p: seq<byte>, s: seq<byte>, tb: nat, out: VectorOutput, i: nat)
    requires (forall k :: 0 <= k < |p| ==> Neutral(c, p[k])) && Exact(c, p + s, tb, out) && i < 64
    ensures var at := tb - |p| + i;
            && out.b[i] == (at >= 0 && Holds(Begins, c, s, at))
            && out.e[i] == (at >= 0 && Holds(Ends, c, s, at))
            && out.r[i] == (at >= 0 && Holds(Removals, c, s, at))
            && out.dStruct[i] == (at >= 0 && BoundB(c, s, at))
            && out.term[i] == (at >= 0 && RunEnd(c, s, at))
  {
    var at := tb - |p| + i;
    assert at + |p| == tb + i;
    PadShifts(c, p, s, at, Begins);
    PadShifts(c, p, s, at, Ends);
    PadShifts(c, p, s, at, Removals);
    PadShifts(c, p, s, at, Bounds);
    if at < 0 {
      NothingBefore(c, s, at);
    }
    hide Begin, End, Removed, BoundB, RunEnd;
  }

  lemma NothingBefore(c: Config, s: seq<byte>, i: int)
    requires i < 0
    ensures !Begin(c, s, i) && !Removed(c, s, i) && !BoundB(c, s, i) && !RunEnd(c, s, i)
    ensures i < -1 ==> !End(c, s, i)
    ensures !End(c, s, i)
  {
  }
}
