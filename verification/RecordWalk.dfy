/**
 * Records over the cut stream. When the verifier accepts the boundaries, striding begins and
 * ends by the arity yields the records of the reference scan; when it rejects them, or the
 * stream ends inside quotes, the reference scan fails too.
 */
module RecordWalk {
  import opened Dialect
  import opened Dfa
  import opened Records
  import opened Stream
  import opened Segments
  import opened FieldWalk

  /** The first boundary byte at or past `i`; the stream's length if there is none. */
  function Stop(c: Config, s: seq<byte>, i: nat): (x: nat)
    requires i <= |s|
    ensures i <= x <= |s| && forall k :: i <= k < x ==> !Delim(c, s, k) && !Term(c, s, k)
    ensures x < |s| ==> Delim(c, s, x) || Term(c, s, x)
    decreases |s| - i
  {
    if i == |s| || Delim(c, s, i) || Term(c, s, i) then i else Stop(c, s, i + 1)
  }

  /** The last byte of the boundary at `x`: a delimiter itself, or the end of the terminator run. */
  function Last(c: Config, s: seq<byte>, x: nat): (re: nat)
    requires x < |s|
    ensures x <= re < |s|
    decreases |s| - x
  {
    if x + 1 < |s| && Term(c, s, x) && Term(c, s, x + 1) then Last(c, s, x + 1) else x
  }

  /** The whole segment that begins at `a`. */
  lemma {:induction false} StopIsSegment(c: Config, s: seq<byte>, a: nat)
    requires c.Valid() && Starts(c, s, a) && Stop(c, s, a) < |s|
    ensures var x := Stop(c, s, a); Segment(c, s, a, x, Last(c, s, x))
  {
    var x := Stop(c, s, a);
    DelimIsNotTerm(c, s, x);
    LastOfRun(c, s, x);
  }

  lemma {:induction false} LastOfRun(c: Config, s: seq<byte>, x: nat)
    requires x < |s|
    ensures Term(c, s, x) ==> (forall i :: x <= i <= Last(c, s, x) ==> Term(c, s, i)) && !Term(c, s, Last(c, s, x) + 1)
    ensures !Term(c, s, x) ==> Last(c, s, x) == x
    decreases |s| - x
  {
    if x + 1 < |s| && Term(c, s, x) && Term(c, s, x + 1) {
      LastOfRun(c, s, x + 1);
    } else {
      OutOfStream(c, s, x + 1);
    }
  }

  lemma OutOfStream(c: Config, s: seq<byte>, i: nat)
    ensures i >= |s| ==> !Term(c, s, i) && !Delim(c, s, i)
  {
  }

  /** Where the `k`-th segment after `a` begins; past the last one, where that would be. */
  function After(c: Config, s: seq<byte>, a: nat, k: nat): (b: nat)
    requires a <= |s|
    ensures a <= b <= |s|
    decreases k
  {
    if k == 0 || Stop(c, s, a) == |s| then a
    else After(c, s, Last(c, s, Stop(c, s, a)) + 1, k - 1)
  }

  /** `k` delimited fields follow from `a`. */
  predicate DelimRun(c: Config, s: seq<byte>, a: nat, k: nat)
    requires a <= |s|
    decreases k
  {
    k == 0 || (Stop(c, s, a) < |s| && Delim(c, s, Stop(c, s, a)) && DelimRun(c, s, Last(c, s, Stop(c, s, a)) + 1, k - 1))
  }

  /** The contents of the `k` segments from `a`. */
  function FieldsOf(c: Config, s: seq<byte>, a: nat, k: nat): (r: Record)
    requires a <= |s|
    decreases k
  {
    if k == 0 || Stop(c, s, a) == |s| then []
    else [Content(c, s, a, Stop(c, s, a))] + FieldsOf(c, s, Last(c, s, Stop(c, s, a)) + 1, k - 1)
  }

  /** A record of `n` fields starts at `a`: `n - 1` delimited fields and one that a terminator ends. */
  ghost predicate RecordAt(c: Config, s: seq<byte>, a: nat, n: nat) {
    && a <= |s| && n >= 1 && DelimRun(c, s, a, n - 1)
    && var z := After(c, s, a, n - 1);
       Stop(c, s, z) < |s| && Term(c, s, Stop(c, s, z))
  }

  /** The terminator run of the record at `a`: its first byte. */
  function RunOf(c: Config, s: seq<byte>, a: nat, n: nat): nat
    requires a <= |s| && n >= 1
  {
    Stop(c, s, After(c, s, a, n - 1))
  }

  /** `k` delimited fields join the record in flight. */
  lemma {:induction false} DelimsScan(j: Job, o: nat, s: seq<byte>, a: nat, k: nat, bnd: nat, f: Flight, last: Option<nat>) returns (g: Flight)
    requires Supported(j.cfg) && Shows(j, o, s) && a <= |s| && Starts(j.cfg, s, a) && DelimRun(j.cfg, s, a, k) && o + a <= |j.data|
    requires f.state.FieldStart? && f.cur == []
    ensures var z := After(j.cfg, s, a, k);
            && Starts(j.cfg, s, z) && o + z <= |j.data|
            && Scan(j, o + a, bnd, f, last) == Scan(j, o + z, bnd, g, last)
    ensures g.state.FieldStart? && g.cur == [] && g.recordIn == f.recordIn && g.fields == f.fields + FieldsOf(j.cfg, s, a, k)
    decreases k
  {
    hide *;
    if k == 0 {
      NoFields(j.cfg, s, a);
      assert f.fields + [] == f.fields;
      return f;
    }
    var x := Stop(j.cfg, s, a);
    SupportedIsValid(j.cfg);
    FirstDelim(j.cfg, s, a, k);
    FieldsOfFirst(j.cfg, s, a, k);
    DelimScan(j, o, s, a, x, bnd, f, last);
    var h := Flight(FieldStart, f.fields + [Content(j.cfg, s, a, x)], [], f.recordIn, o + x + 1);
    g := DelimsScan(j, o, s, x + 1, k - 1, bnd, h, last);
    assert f.fields + ([Content(j.cfg, s, a, x)] + FieldsOf(j.cfg, s, x + 1, k - 1))
        == f.fields + [Content(j.cfg, s, a, x)] + FieldsOf(j.cfg, s, x + 1, k - 1);
  }

  lemma SupportedIsValid(c: Config)
    requires Supported(c)
    ensures c.Valid() && c.comment.None? && c.fieldCount.Some? && 1 <= c.fieldCount.value <= 63
  {
  }

  lemma NoFields(c: Config, s: seq<byte>, a: nat)
    requires a <= |s|
    ensures FieldsOf(c, s, a, 0) == [] && After(c, s, a, 0) == a
  {
  }

  lemma FirstDelim(c: Config, s: seq<byte>, a: nat, k: nat)
    requires c.Valid() && Starts(c, s, a) && k >= 1 && DelimRun(c, s, a, k)
    ensures var x := Stop(c, s, a);
            && a <= x < |s| && Segment(c, s, a, x, x) && Delim(c, s, x) && Starts(c, s, x + 1)
            && DelimRun(c, s, x + 1, k - 1) && After(c, s, a, k) == After(c, s, x + 1, k - 1)
  {
    var x := Stop(c, s, a);
    StopIsSegment(c, s, a);
    SegmentBounds(c, s, a, x, Last(c, s, x));
    DelimIsNotTerm(c, s, x);
    LastOfRun(c, s, x);
  }

  lemma FieldsOfFirst(c: Config, s: seq<byte>, a: nat, k: nat)
    requires a <= |s| && k >= 1 && DelimRun(c, s, a, k) && c.Valid()
    ensures var x := Stop(c, s, a); x < |s| && FieldsOf(c, s, a, k) == [Content(c, s, a, x)] + FieldsOf(c, s, x + 1, k - 1)
  {
    DelimIsNotTerm(c, s, Stop(c, s, a));
    LastOfRun(c, s, Stop(c, s, a));
  }

  lemma {:induction false} FieldsOfMore(c: Config, s: seq<byte>, a: nat, k: nat)
    requires a <= |s| && DelimRun(c, s, a, k) && Stop(c, s, After(c, s, a, k)) < |s|
    ensures FieldsOf(c, s, a, k + 1) == FieldsOf(c, s, a, k) + [Content(c, s, After(c, s, a, k), Stop(c, s, After(c, s, a, k)))]
    ensures |FieldsOf(c, s, a, k)| == k
    decreases k
  {
    hide Delim, Content;
    if k == 0 {
      assert FieldsOf(c, s, Last(c, s, Stop(c, s, a)) + 1, 0) == [];
    } else {
      FieldsOfMore(c, s, Last(c, s, Stop(c, s, a)) + 1, k - 1);
    }
  }

  /** The scan over one record of the right arity. */
  lemma RecordScan(j: Job, o: nat, s: seq<byte>, a: nat, bnd: nat, last: Option<nat>)
    requires Supported(j.cfg) && Shows(j, o, s) && Starts(j.cfg, s, a) && o + a < |j.data| && !j.cfg.IsTerm(j.data[o + a])
    requires RecordAt(j.cfg, s, a, j.cfg.fieldCount.value)
    ensures var n := j.cfg.fieldCount.value;
            var x := RunOf(j.cfg, s, a, n);
            x < |s| &&
            var re := Last(j.cfg, s, x);
            var r := FieldsOf(j.cfg, s, a, n);
            && |r| == n
            && (o + x == |j.data| || o + x <= o + re < |j.data|)
            && Scan(j, o + a, bnd, Fresh(o + a), last) == Closed(j, o, x, re, r, o + a, bnd)
  {
    hide *;
    SupportedIsValid(j.cfg);
    var n := j.cfg.fieldCount.value;
    var z, x, re := RecordParts(j.cfg, s, a, n);
    var f := Flight(FieldStart, [], [], o + a, o + a);
    var g := DelimsScan(j, o, s, a, n - 1, bnd, f, last);
    RecordTail(j, o, s, a, n, z, x, re);
    FreshIsFieldStart(j, o + a, bnd, last);
    TermScan(j, o, s, z, x, re, bnd, g, last);
    assert g.fields == FieldsOf(j.cfg, s, a, n - 1);
  }

  lemma RecordParts(c: Config, s: seq<byte>, a: nat, n: nat) returns (z: nat, x: nat, re: nat)
    requires RecordAt(c, s, a, n)
    ensures a <= |s| && DelimRun(c, s, a, n - 1) && z == After(c, s, a, n - 1) <= |s|
    ensures x == RunOf(c, s, a, n) == Stop(c, s, z) < |s| && re == Last(c, s, x)
  {
    z := After(c, s, a, n - 1);
    x := Stop(c, s, z);
    re := Last(c, s, x);
  }

  lemma RecordTail(j: Job, o: nat, s: seq<byte>, a: nat, n: nat, z: nat, x: nat, re: nat)
    requires Supported(j.cfg) && Shows(j, o, s) && Starts(j.cfg, s, a) && RecordAt(j.cfg, s, a, n)
    requires 1 <= n && a <= |s| && z == After(j.cfg, s, a, n - 1) && Starts(j.cfg, s, z) && x == Stop(j.cfg, s, z) < |s| && re == Last(j.cfg, s, x)
    ensures Segment(j.cfg, s, z, x, re) && Term(j.cfg, s, x)
    ensures o + x == |j.data| || o + x <= o + re < |j.data|
    ensures |FieldsOf(j.cfg, s, a, n)| == n
    ensures FieldsOf(j.cfg, s, a, n) == FieldsOf(j.cfg, s, a, n - 1) + [Content(j.cfg, s, z, x)]
  {
    hide *;
    SupportedIsValid(j.cfg);
    RecordAtIs(j.cfg, s, a, n);
    StopIsSegment(j.cfg, s, z);
    TermInRange(j, o, s, z, x, re);
    FieldsOfMore(j.cfg, s, a, n - 1);
  }

  lemma RecordAtIs(c: Config, s: seq<byte>, a: nat, n: nat)
    requires RecordAt(c, s, a, n)
    ensures n >= 1 && a <= |s| && DelimRun(c, s, a, n - 1)
    ensures var x := Stop(c, s, After(c, s, a, n - 1)); x < |s| && Term(c, s, x)
  {
  }

  lemma LastInRange(c: Config, s: seq<byte>, x: nat)
    requires x < |s|
    ensures x <= Last(c, s, x) < |s|
  {
  }
}
