/**
 * Where the scan's origin lies does not matter: a head of neutral padding, which puts every
 * later load on a vector boundary, shifts every position and changes nothing else.
 */
module Padding {
  import opened Dialect
  import opened Masks
  import opened Bitmask
  import opened Stream
  import opened Segments

  /** A byte that is no control byte. */
  predicate Neutral(c: Config, b: byte) {
    b != c.delimiter && !c.IsTerm(b) && !c.IsQuote(b)
  }

  function FirstNeutral(c: Config, k: nat): (b: nat)
    requires k <= 256
    ensures k <= b <= 256 && (b < 256 ==> Neutral(c, b as byte))
    decreases 256 - k
  {
    if k == 256 || Neutral(c, k as byte) then k else FirstNeutral(c, k + 1)
  }

  /** At most four bytes are structural, so one of the first five is not. */
  lemma SomeNeutral(c: Config)
    ensures FirstNeutral(c, 0) <= 4
  {
    assert Neutral(c, 0) || Neutral(c, 1) || Neutral(c, 2) || Neutral(c, 3) || Neutral(c, 4);
    if !Neutral(c, 0) && !Neutral(c, 1) && !Neutral(c, 2) {
      assert FirstNeutral(c, 0) == FirstNeutral(c, 1) == FirstNeutral(c, 2) == FirstNeutral(c, 3);
    }
  }

  function Pad(c: Config): (b: byte)
    ensures Neutral(c, b)
  {
    SomeNeutral(c);
    FirstNeutral(c, 0) as byte
  }

  /** Pick a byte that synthesizes no structural bits. */
  method NeutralPad(c: Config) returns (pad: byte)
    ensures pad == Pad(c)
  {
    SomeNeutral(c);
    var candidate := 0;
    while candidate < 256
      invariant 0 <= candidate <= 256
      invariant FirstNeutral(c, 0) == FirstNeutral(c, candidate)
    {
      if Neutral(c, candidate as byte) {
        return candidate as byte;
      }
      candidate := candidate + 1;
    }
  }

  function Pads(c: Config, k: nat): (p: seq<byte>)
    ensures |p| == k && forall i :: 0 <= i < k ==> Neutral(c, p[i])
  {
    seq(k, _ => Pad(c))
  }

  lemma {:induction false} PadParity(c: Config, p: seq<byte>, s: seq<byte>, n: nat)
    requires n <= |s| && forall i :: 0 <= i < |p| ==> Neutral(c, p[i])
    ensures Odd(c, p + s, |p| + n) == Odd(c, s, n)
  {
    hide Parity;
    var t := p + s;
    EmptyParity(QuoteBits(c, p));
    ParityConcat(QuoteBits(c, p), QuoteBits(c, s[..n]));
    assert t[..|p| + n] == p + s[..n];
    assert QuoteBits(c, t[..|p| + n]) == QuoteBits(c, p) + QuoteBits(c, s[..n]);
  }

  lemma PadOutside(c: Config, p: seq<byte>, s: seq<byte>, n: nat)
    requires n <= |p| && forall i :: 0 <= i < |p| ==> Neutral(c, p[i])
    ensures !Odd(c, p + s, n)
  {
    var t := p + s;
    assert t[..n] == p[..n];
    EmptyParity(QuoteBits(c, t[..n]));
  }

  /** The byte-level predicates agree at positions `m` apart. */
  ghost predicate SameByte(c: Config, t: seq<byte>, s: seq<byte>, m: nat, i: int) {
    && Quote(c, t, i + m) == Quote(c, s, i)
    && Inside(c, t, i + m) == Inside(c, s, i)
    && Delim(c, t, i + m) == Delim(c, s, i)
    && Term(c, t, i + m) == Term(c, s, i)
  }

  /** So do the boundaries. */
  ghost predicate SameBounds(c: Config, t: seq<byte>, s: seq<byte>, m: nat, i: int) {
    && BoundB(c, t, i + m) == BoundB(c, s, i)
    && BoundE(c, t, i + m) == BoundE(c, s, i)
    && RunEnd(c, t, i + m) == RunEnd(c, s, i)
  }

  lemma PadShiftsBytes(c: Config, p: seq<byte>, s: seq<byte>, i: int)
    requires forall k :: 0 <= k < |p| ==> Neutral(c, p[k])
    ensures SameByte(c, p + s, s, |p|, i)
  {
    var t := p + s;
    if 0 <= i < |s| {
      PadParity(c, p, s, i + 1);
      assert t[i + |p|] == s[i];
    } else if -|p| <= i < 0 {
      PadOutside(c, p, s, i + |p| + 1);
      assert t[i + |p|] == p[i + |p|];
    }
  }

  lemma BoundsShift(c: Config, t: seq<byte>, s: seq<byte>, m: nat, i: int)
    requires SameByte(c, t, s, m, i - 1) && SameByte(c, t, s, m, i) && SameByte(c, t, s, m, i + 1)
    ensures SameBounds(c, t, s, m, i)
  {
    hide Delim, Term, Quote, Inside;
  }

  lemma BeginShift(c: Config, t: seq<byte>, s: seq<byte>, m: nat, i: int)
    requires |t| == m + |s|
    requires SameBounds(c, t, s, m, i - 2) && SameBounds(c, t, s, m, i - 1)
    requires SameByte(c, t, s, m, i - 1) && SameByte(c, t, s, m, i)
    ensures Begin(c, t, i + m) == Begin(c, s, i)
  {
    hide Delim, Term, Quote, Inside, BoundB, BoundE;
    assert (i - 1) + m - 1 == (i - 2) + m && i + m - 1 == (i - 1) + m;
  }

  lemma EndShift(c: Config, t: seq<byte>, s: seq<byte>, m: nat, i: int)
    requires SameBounds(c, t, s, m, i) && SameBounds(c, t, s, m, i + 1)
    requires SameByte(c, t, s, m, i - 1) && SameByte(c, t, s, m, i)
    ensures End(c, t, i + m) == End(c, s, i)
  {
    hide Delim, Term, Quote, Inside, BoundB, BoundE;
    assert (i - 1) + m + 1 == i + m && i + m + 1 == (i + 1) + m && i + m - 1 == (i - 1) + m;
  }

  lemma RemovedShift(c: Config, t: seq<byte>, s: seq<byte>, m: nat, i: int)
    requires SameByte(c, t, s, m, i) && SameByte(c, t, s, m, i + 1)
    requires Begin(c, t, (i + 1) + m) == Begin(c, s, i + 1) && End(c, t, i + m) == End(c, s, i)
    ensures Removed(c, t, i + m) == Removed(c, s, i)
  {
    hide Delim, Term, Quote, Inside, Begin, End;
    assert i + m + 1 == (i + 1) + m;
  }

  /** Prologue invariance: begins, ends, removals and boundaries all shift with the origin. */
  lemma PadShifts(c: Config, p: seq<byte>, s: seq<byte>, i: int, k: Kind)
    requires forall k :: 0 <= k < |p| ==> Neutral(c, p[k])
    ensures Holds(k, c, p + s, i + |p|) == Holds(k, c, s, i)
    ensures RunEnd(c, p + s, i + |p|) == RunEnd(c, s, i)
  {
    hide *;
    var t, m := p + s, |p|;
    PadShiftsBytes(c, p, s, i - 3);
    PadShiftsBytes(c, p, s, i - 2);
    PadShiftsBytes(c, p, s, i - 1);
    PadShiftsBytes(c, p, s, i);
    PadShiftsBytes(c, p, s, i + 1);
    PadShiftsBytes(c, p, s, i + 2);
    BoundsShift(c, t, s, m, i - 2);
    BoundsShift(c, t, s, m, i - 1);
    BoundsShift(c, t, s, m, i);
    BoundsShift(c, t, s, m, i + 1);
    BeginShift(c, t, s, m, i);
    BeginShift(c, t, s, m, i + 1);
    EndShift(c, t, s, m, i);
    RemovedShift(c, t, s, m, i);
    HoldsAgrees(c, t, s, m, i, k);
  }

  lemma HoldsAgrees(c: Config, t: seq<byte>, s: seq<byte>, m: nat, i: int, k: Kind)
    requires SameBounds(c, t, s, m, i) && Begin(c, t, i + m) == Begin(c, s, i)
    requires End(c, t, i + m) == End(c, s, i) && Removed(c, t, i + m) == Removed(c, s, i)
    ensures Holds(k, c, t, i + m) == Holds(k, c, s, i) && RunEnd(c, t, i + m) == RunEnd(c, s, i)
  {
    hide Begin, End, Removed, BoundB, BoundE, RunEnd;
  }
}
