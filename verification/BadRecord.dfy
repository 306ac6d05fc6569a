/** Pinning down the record that the field-count verifier rejected. */
module BadRecord {
  import opened Dialect
  import opened Records
  import opened Stream
  import opened Segments
  import opened FieldWalk
  import opened FieldCount
  import opened RecordWalk
  import opened Stride
  import opened Refinement
  import opened InPlace

  /** How many out-of-quotes delimiters `[lo, hi)` holds. */
  function Delims(c: Config, t: seq<byte>, lo: nat, hi: nat): nat
    requires lo <= hi
    decreases hi - lo
  {
    if lo == hi then 0 else Delims(c, t, lo, hi - 1) + (if Delim(c, t, hi - 1) then 1 else 0)
  }

  ghost predicate NoTerm(c: Config, t: seq<byte>, lo: nat, hi: nat) {
    forall i :: lo <= i < hi ==> !Term(c, t, i)
  }

  /** The record at `r` runs to `e` and shows `found` fields; the records from `a` up to it are whole. */
  ghost predicate Walked(c: Config, t: seq<byte>, n: nat, a: nat, r: nat, e: nat, found: nat) {
    && 1 <= n && a <= r <= e <= |t|
    && (r == a || (Term(c, t, r - 1) && !Term(c, t, r)))
    && NoTerm(c, t, r, e) && found == 1 + Delims(c, t, r, e)
    && Aligned(n, 0, Classes(c, t, a, r)) && |Classes(c, t, a, r)| % n == 0
  }

  lemma WalkedIs(c: Config, t: seq<byte>, n: nat, a: nat, r: nat, e: nat, found: nat)
    requires Walked(c, t, n, a, r, e, found)
    ensures 1 <= n && a <= r <= e <= |t| && (r == a || (Term(c, t, r - 1) && !Term(c, t, r)))
    ensures NoTerm(c, t, r, e) && found == 1 + Delims(c, t, r, e)
    ensures Aligned(n, 0, Classes(c, t, a, r)) && |Classes(c, t, a, r)| % n == 0
  {
    hide Term, NoTerm, Delims, Aligned, Classes;
  }

  lemma IsWalked(c: Config, t: seq<byte>, n: nat, a: nat, r: nat, e: nat, found: nat)
    requires 1 <= n && a <= r <= e <= |t| && (r == a || (Term(c, t, r - 1) && !Term(c, t, r)))
    requires NoTerm(c, t, r, e) && found == 1 + Delims(c, t, r, e)
    requires Aligned(n, 0, Classes(c, t, a, r)) && |Classes(c, t, a, r)| % n == 0
    ensures Walked(c, t, n, a, r, e, found)
  {
    hide Term, NoTerm, Delims, Aligned, Classes;
  }

  lemma StartWalk(c: Config, t: seq<byte>, n: nat, a: nat)
    requires 1 <= n && a <= |t|
    ensures Walked(c, t, n, a, a, a, 1)
  {
  }

  /** One byte that does not end the record. */
  lemma WalkOn(c: Config, t: seq<byte>, n: nat, a: nat, r: nat, e: nat, found: nat)
    requires Walked(c, t, n, a, r, e, found) && e < |t| && !Term(c, t, e)
    ensures Walked(c, t, n, a, r, e + 1, if Delim(c, t, e) then found + 1 else found)
  {
    hide Term, Delim, Aligned, Classes;
  }

  /** Without a terminator every boundary is a delimiter. */
  lemma {:induction false} PartialClasses(c: Config, t: seq<byte>, lo: nat, hi: nat)
    requires lo <= hi && NoTerm(c, t, lo, hi)
    ensures var p := Classes(c, t, lo, hi); |p| == Delims(c, t, lo, hi) && forall k :: 0 <= k < |p| ==> !p[k]
    decreases hi - lo
  {
    hide Term, Delim;
    if lo < hi {
      PartialClasses(c, t, lo, hi - 1);
      assert !Term(c, t, hi - 1);
    }
  }

  /** A record so far: aligned as long as it has no more than `n` fields, and one terminator after the `n`-th completes it. */
  lemma PartialAligned(n: nat, p: seq<bool>, ends: seq<bool>)
    requires 1 <= n && (forall k :: 0 <= k < |p| ==> !p[k]) && |p| + 1 <= n
    requires ends == [] || (ends == [true] && |p| + 1 == n)
    ensures Aligned(n, 0, p + ends) && (ends == [true] ==> |p + ends| == n && n % n == 0)
  {
    forall k | 0 <= k < |p + ends| ensures (p + ends)[k] <==> Completes(n, 0, k) {
      Small(k, n);
    }
    if ends == [true] {
      MultipleMod(n, 1, 0);
    }
  }

  /** Whole records and then a stretch: aligned when the stretch is. */
  lemma AfterWhole(c: Config, t: seq<byte>, n: nat, a: nat, r: nat, e: nat)
    requires 1 <= n && a <= r <= e && Aligned(n, 0, Classes(c, t, a, r)) && |Classes(c, t, a, r)| % n == 0
    ensures Aligned(n, 0, Classes(c, t, a, e)) <==> Aligned(n, 0, Classes(c, t, r, e))
    ensures |Classes(c, t, r, e)| == n ==> |Classes(c, t, a, e)| % n == 0
  {
    hide *;
    var x, y := Classes(c, t, a, r), Classes(c, t, r, e);
    ClassesSplit(c, t, a, r, e);
    AlignedConcat(n, x, y);
    if |y| == n {
      ModShift(|x|, n, n);
      ModNextIs(n);
    }
  }

  lemma ModNextIs(n: nat)
    requires n >= 1
    ensures (0 + n) % n == 0
  {
    MultipleMod(n, 1, 0);
  }

  /** A run of terminators is one boundary. */
  lemma {:induction false} RunClasses(c: Config, t: seq<byte>, x: nat, q: nat)
    requires c.Valid() && x < q <= |t| && (forall i :: x <= i < q ==> Term(c, t, i)) && !Term(c, t, q)
    ensures Classes(c, t, x, q) == [true]
    decreases q - x
  {
    forall i | x <= i < q ensures BoundB(c, t, i) <==> i == q - 1 {
      DelimIsNotTerm(c, t, i);
      if i + 1 < q { assert Term(c, t, i + 1); }
    }
    hide Term, Delim, BoundB;
    NoClasses(c, t, x, q - 1);
    assert Term(c, t, q - 1);
  }

  /** A record of `n` fields and its run, walked over. */
  lemma WalkPast(c: Config, t: seq<byte>, n: nat, a: nat, r: nat, e: nat, q: nat)
    requires c.Valid() && Walked(c, t, n, a, r, e, n) && e < q <= |t|
    requires (forall i :: e <= i < q ==> Term(c, t, i)) && !Term(c, t, q)
    ensures Walked(c, t, n, a, q, q, 1)
  {
    hide *;
    WalkedIs(c, t, n, a, r, e, n);
    PartialClasses(c, t, r, e);
    RunClasses(c, t, e, q);
    ClassesSplit(c, t, r, e, q);
    PartialAligned(n, Classes(c, t, r, e), [true]);
    AfterWhole(c, t, n, a, r, q);
    NothingWalked(c, t, q);
    IsWalked(c, t, n, a, q, q, 1);
  }

  lemma NothingWalked(c: Config, t: seq<byte>, q: nat)
    ensures NoTerm(c, t, q, q) && Delims(c, t, q, q) == 0
  {
  }

  /** One byte of the walk: what it is, and whether it toggles the quotes. */
  lemma WalkByte(c: Config, t: seq<byte>, i: nat)
    requires c.Valid() && i < |t|
    ensures Odd(c, t, i + 1) == (Odd(c, t, i) != c.IsQuote(t[i]))
    ensures Term(c, t, i) <==> c.IsTerm(t[i]) && !Odd(c, t, i)
    ensures Delim(c, t, i) <==> t[i] == c.delimiter && !Odd(c, t, i)
    ensures Term(c, t, i) ==> !c.IsQuote(t[i]) && t[i] != c.delimiter
    ensures Delim(c, t, i) ==> !c.IsQuote(t[i])
  {
    OddStep(c, t, i);
    hide Odd;
  }

  lemma NoTermAtEnd(c: Config, t: seq<byte>)
    ensures !Term(c, t, |t|)
  {
  }

  /** Walk from an accepted record's start to the first record with another number of fields. `t` is the buffer as the stream shows it. */
  method LocateBadRecord(c: Config, buf: seq<byte>, from: nat, n: nat, ghost t: seq<byte>, ghost a: nat)
    returns (start: nat, found: nat, ghost e: nat)
    requires c.Valid() && n >= 1 && a <= |t| && !Odd(c, t, a) && t[a..] == buf[Min(from, |buf|)..]
    ensures Min(from, |buf|) <= start <= |buf|
    ensures Walked(c, t, n, a, a + start - Min(from, |buf|), e, found)
    ensures e < |t| ==> found != n && Term(c, t, e)
  {
    hide Walked, Odd, Term, Delim;
    var i := if from < |buf| then from else |buf|;
    ghost var d: int := a - i;
    start := i;
    // An empty record has one field; every delimiter adds another.
    found := 1;
    var inQuotes := false;
    StartWalk(c, t, n, a);
    while i < |buf|
      invariant Min(from, |buf|) <= start <= i <= |buf| && d + |buf| == |t| && a == d + Min(from, |buf|)
      invariant Walked(c, t, n, a, d + start, d + i, found)
      invariant inQuotes == Odd(c, t, d + i)
      decreases |buf| - i
    {
      var b := buf[i];
      ghost var found0 := found;
      assert b == t[d + i] by { assert t[a..][d + i - a] == buf[Min(from, |buf|)..][d + i - a]; }
      WalkByte(c, t, d + i);
      if c.IsQuote(b) {
        inQuotes := !inQuotes;
      } else if !inQuotes {
        if b == c.delimiter {
          found := found + 1;
        } else if c.IsTerm(b) {
          if found != n {
            e := d + i;
            return;
          }
          // Collapse the run so that the next record's start lands on content.
          ghost var x := d + i;
          i := i + 1;
          while i < |buf| && c.IsTerm(buf[i])
            invariant x < d + i <= |t| && i <= |buf|
            invariant (forall k :: x <= k < d + i ==> Term(c, t, k)) && !Odd(c, t, d + i)
          {
            assert buf[i] == t[d + i] by { assert t[a..][d + i - a] == buf[Min(from, |buf|)..][d + i - a]; }
            WalkByte(c, t, d + i);
            i := i + 1;
          }
          if i < |buf| {
            assert buf[i] == t[d + i] by { assert t[a..][d + i - a] == buf[Min(from, |buf|)..][d + i - a]; }
            WalkByte(c, t, d + i);
          } else {
            NoTermAtEnd(c, t);
          }
          WalkPast(c, t, n, a, d + start, x, d + i);
          start := i;
          found := 1;
          continue;
        }
      }
      WalkOn(c, t, n, a, d + start, d + i, found0);
      i := i + 1;
    }
    e := |t|;
  }

  /** The verifier rejected the boundaries of `[a, h)`. */
  ghost predicate Misaligned(c: Config, s: seq<byte>, a: nat, n: nat, h: nat) {
    n >= 1 && a <= h <= |s| && !Aligned(n, 0, Classes(c, s, a, h))
  }

  /** A prefix of the stream shows the same bytes. */
  lemma PrefixBytes(c: Config, s: seq<byte>, lim: nat, i: nat)
    requires i < lim <= |s|
    ensures Term(c, s[..lim], i) == Term(c, s, i) && Delim(c, s[..lim], i) == Delim(c, s, i)
  {
    assert s[..lim][..i + 1] == s[..i + 1];
  }

  /** And the same boundaries, if no run goes on behind it. */
  lemma {:induction false} PrefixClasses(c: Config, s: seq<byte>, lim: nat, a: nat, h: nat)
    requires a <= h <= lim <= |s| && (h < lim || lim == 0 || !Term(c, s, lim - 1) || !Term(c, s, lim))
    ensures Classes(c, s[..lim], a, h) == Classes(c, s, a, h)
    decreases h - a
  {
    if a < h {
      PrefixBytes(c, s, lim, h - 1);
      if h < lim {
        PrefixBytes(c, s, lim, h);
      } else {
        NoTermAtEnd(c, s[..lim]);
        assert |s[..lim]| == lim;
      }
      hide Term, Delim;
      PrefixClasses(c, s, lim, a, h - 1);
    }
  }

  /** Behind the input there is the terminator it lacks, and nothing else. */
  lemma {:induction false} BehindInput(j: Job, o: nat, s: seq<byte>, lim: nat, h: nat)
    requires Supported(j.cfg) && Shows(j, o, s) && o + lim == |j.data| && lim <= h <= |s|
    ensures var p := Classes(j.cfg, s, lim, h); p == [] || p == [true]
    ensures lim > 0 && Term(j.cfg, s, lim - 1) ==> !Term(j.cfg, s, lim) && Classes(j.cfg, s, lim, h) == []
    decreases h
  {
    var c := j.cfg;
    if lim > 0 && Term(c, s, lim - 1) {
      TermBeforeEnd(j, o, s, lim - 1);
    }
    forall i | lim <= i ensures !Delim(c, s, i) && (Term(c, s, i) ==> i == lim && Unterminated(j, o)) {
      if i < |s| && (Delim(c, s, i) || Term(c, s, i)) {
        BoundIsInInput(j, o, s, i);
      }
    }
    hide Term, Delim, Unterminated;
    if lim < h {
      assert BoundB(c, s, lim) ==> RunEnd(c, s, lim);
      forall i | lim + 1 <= i < h ensures !BoundB(c, s, i) {
      }
      NoClasses(c, s, lim + 1, h);
      ClassesSplit(c, s, lim, lim + 1, h);
      assert Classes(c, s, lim, lim) == [];
    }
  }

  /** What the walk shows of a record that has no terminator in the buffer. */
  lemma WalkedOut(c: Config, t: seq<byte>, n: nat, a: nat, r: nat, found: nat)
    requires Walked(c, t, n, a, r, |t|, found) && found <= n
    ensures Aligned(n, 0, Classes(c, t, a, |t|))
    ensures found == n ==> Aligned(n, 0, Classes(c, t, a, |t|) + [true])
  {
    hide *;
    WalkedIs(c, t, n, a, r, |t|, found);
    var p := Classes(c, t, r, |t|);
    PartialClasses(c, t, r, |t|);
    PartialAligned(n, p, []);
    assert p + [] == p;
    AfterWhole(c, t, n, a, r, |t|);
    if found == n {
      PartialAligned(n, p, [true]);
      ClassesSplit(c, t, a, r, |t|);
      var x := Classes(c, t, a, r);
      AlignedConcat(n, x, p + [true]);
      assert x + (p + [true]) == Classes(c, t, a, |t|) + [true];
    }
  }

  lemma AlignedPrefix(c: Config, t: seq<byte>, n: nat, a: nat, h: nat)
    requires n >= 1 && a <= h <= |t| && Aligned(n, 0, Classes(c, t, a, |t|))
    ensures Aligned(n, 0, Classes(c, t, a, h))
  {
    hide *;
    ClassesSplit(c, t, a, h, |t|);
    AlignedConcat(n, Classes(c, t, a, h), Classes(c, t, h, |t|));
  }

  /**
   * A rejection always names a bad record: where the walk ends up, the count is not `n`. Short of
   * the input's end a record that runs past the buffer has too many fields already.
   */
  lemma RejectedIsBad(j: Job, o: nat, s: seq<byte>, lim: nat, a: nat, h: nat, n: nat, r: nat, e: nat, found: nat)
    requires Supported(j.cfg) && Shows(j, o, s) && o + lim <= |j.data| && Misaligned(j.cfg, s, a, n, h)
    requires h < lim || o + lim == |j.data|
    requires Walked(j.cfg, s[..lim], n, a, r, e, found) && (e < lim ==> found != n) && a < lim
    ensures r < lim && found != n && (e == lim && o + lim < |j.data| ==> found > n)
  {
    hide *;
    ShowsLength(j, o, s);
    var c, t := j.cfg, s[..lim];
    MisalignedIs(c, s, a, n, h);
    WalkedIs(c, t, n, a, r, e, found);
    NothingWalked(c, t, r);
    if e == lim && found <= n {
      assert |t| == lim;
      WalkedOut(c, t, n, a, r, found);
      if h < lim {
        AlignedPrefix(c, t, n, a, h);
        PrefixClasses(c, s, lim, a, h);
        assert false;
      }
      BehindInput(j, o, s, lim, h);
      PrefixClasses(c, s, lim, a, lim);
      var whole := Classes(c, s, a, lim);
      assert whole + [] == whole;
      ClassesSplit(c, s, a, lim, h);
      if r == lim {
        PrefixBytes(c, s, lim, lim - 1);
        assert false;
      }
      if found == n {
        assert false;
      }
    }
  }

  lemma ShowsLength(j: Job, o: nat, s: seq<byte>)
    requires Shows(j, o, s)
    ensures o <= |j.data| && |j.data| - o <= |s|
  {
  }

  lemma MisalignedIs(c: Config, s: seq<byte>, a: nat, n: nat, h: nat)
    requires Misaligned(c, s, a, n, h)
    ensures n >= 1 && a <= h <= |s| && !Aligned(n, 0, Classes(c, s, a, h))
  {
    hide Aligned, Classes;
  }

  /**
   * In the input `w` the record at `r` is the first that does not have `n` fields: those before
   * it have, and `found` of its own come before its terminator, or before the cut.
   */
  ghost predicate NamesBad(c: Config, w: seq<byte>, n: nat, r: nat, found: nat) {
    exists e :: BadTo(c, w, n, r, e, found)
  }

  ghost predicate BadTo(c: Config, w: seq<byte>, n: nat, r: nat, e: nat, found: nat) {
    && n >= 1 && r < |w| && r <= e <= |w|
    && Aligned(n, 0, Classes(c, w, 0, r)) && |Classes(c, w, 0, r)| % n == 0
    && (r > 0 ==> Term(c, w, r - 1)) && !Term(c, w, r)
    && NoTerm(c, w, r, e) && found == 1 + Delims(c, w, r, e) && found != n
    && (e < |w| ==> Term(c, w, e) || found > n)
  }

  /** The input `w` ends inside quotes, and the field that holds them starts at `p`. */
  ghost predicate OpensLast(c: Config, w: seq<byte>, p: nat) {
    && p < |w| && Odd(c, w, |w|) && (p > 0 ==> BoundB(c, w, p - 1))
    && forall i :: p <= i < |w| ==> !Delim(c, w, i) && !Term(c, w, i)
  }

  /**
   * An arity failure is placed on a record of the input with another number of fields, and a
   * quote that is left open on the field it is in.
   */
  ghost predicate Placed(j: Job, o: nat, f: Failure) {
    && (f.NumberOfFields? ==>
          && o <= |j.data| && o <= f.at && j.cfg.fieldCount == Some(f.expected)
          && NamesBad(j.cfg, j.data[o..], f.expected, f.at - o, f.found))
    && (f.UnclosedQuote? ==> o <= f.at && o <= |j.data| && OpensLast(j.cfg, j.data[o..], f.at - o))
  }

  lemma {:induction false} SameDelims(c: Config, s: seq<byte>, t: seq<byte>, lo: nat, hi: nat)
    requires lo <= hi && forall i :: lo <= i < hi ==> Delim(c, s, i) == Delim(c, t, i)
    ensures Delims(c, s, lo, hi) == Delims(c, t, lo, hi)
    decreases hi - lo
  {
    hide Delim;
    if lo < hi {
      SameDelims(c, s, t, lo, hi - 1);
    }
  }

  /** From the buffer to the input. */
  lemma BufferIsInput(j: Job, o: nat, s: seq<byte>, lim: nat, a: nat, n: nat, r: nat, e: nat, found: nat)
    requires Supported(j.cfg) && Shows(j, o, s) && o + lim <= |j.data| && (a > 0 ==> Term(j.cfg, s, a - 1)) && !Term(j.cfg, s, a)
    requires Walked(j.cfg, s[..lim], n, a, r, e, found) && r < lim && found != n
    requires e < lim ==> Term(j.cfg, s[..lim], e)
    requires e == lim && o + lim < |j.data| ==> found > n
    requires Aligned(n, 0, Classes(j.cfg, s, 0, a)) && |Classes(j.cfg, s, 0, a)| % n == 0
    ensures NamesBad(j.cfg, j.data[o..], n, r, found)
  {
    hide *;
    ShownPrefix(j, o, s, lim);
    var c, t, w := j.cfg, s[..lim], j.data[o..];
    WalkedIs(c, t, n, a, r, e, found);
    PrefixClasses(c, s, lim, 0, a);
    AllWhole(c, t, n, a, r);
    PrefixClasses(c, w, lim, 0, r);
    forall i | 0 <= i < lim ensures Term(c, t, i) == Term(c, w, i) && Delim(c, t, i) == Delim(c, w, i) && Term(c, t, i) == Term(c, s, i) {
      PrefixBytes(c, w, lim, i);
      PrefixBytes(c, s, lim, i);
    }
    SameDelims(c, t, w, r, e);
    NoTermMeans(c, t, w, r, e);
    IsBad(c, w, n, r, e, found);
  }

  /** Whole records up to `a` and from there to `r`. */
  lemma AllWhole(c: Config, t: seq<byte>, n: nat, a: nat, r: nat)
    requires 1 <= n && a <= r && Aligned(n, 0, Classes(c, t, 0, a)) && |Classes(c, t, 0, a)| % n == 0
    requires Aligned(n, 0, Classes(c, t, a, r)) && |Classes(c, t, a, r)| % n == 0
    ensures Aligned(n, 0, Classes(c, t, 0, r)) && |Classes(c, t, 0, r)| % n == 0
  {
    hide *;
    var x, y := Classes(c, t, 0, a), Classes(c, t, a, r);
    ClassesSplit(c, t, 0, a, r);
    AlignedConcat(n, x, y);
    ModShift(|x|, |y|, n);
  }

  lemma NoTermMeans(c: Config, t: seq<byte>, w: seq<byte>, r: nat, e: nat)
    requires NoTerm(c, t, r, e) && forall i :: r <= i < e ==> Term(c, t, i) == Term(c, w, i)
    ensures NoTerm(c, w, r, e)
  {
    hide Term;
  }

  lemma ShownPrefix(j: Job, o: nat, s: seq<byte>, lim: nat)
    requires Shows(j, o, s) && o + lim <= |j.data|
    ensures o <= |j.data| && lim <= |s| && s[..lim] == j.data[o..][..lim] == j.data[o..o + lim]
  {
  }

  lemma IsBad(c: Config, w: seq<byte>, n: nat, r: nat, e: nat, found: nat)
    requires r < |w| && r <= e <= |w| && (r > 0 ==> Term(c, w, r - 1)) && !Term(c, w, r)
    requires NoTerm(c, w, r, e) && found == 1 + Delims(c, w, r, e) && found != n && (e < |w| ==> Term(c, w, e) || found > n)
    requires n >= 1 && Aligned(n, 0, Classes(c, w, 0, r)) && |Classes(c, w, 0, r)| % n == 0
    ensures NamesBad(c, w, n, r, found)
  {
    hide Term, NoTerm, Delims, Aligned, Classes;
    assert BadTo(c, w, n, r, e, found);
  }

  lemma IsPlaced(j: Job, o: nat, f: Failure)
    requires f.NumberOfFields? ==> o <= |j.data| && o <= f.at && j.cfg.fieldCount == Some(f.expected) && NamesBad(j.cfg, j.data[o..], f.expected, f.at - o, f.found)
    requires f.UnclosedQuote? ==> o <= f.at && o <= |j.data| && OpensLast(j.cfg, j.data[o..], f.at - o)
    ensures Placed(j, o, f)
  {
    hide NamesBad, OpensLast;
  }

  lemma UnreadIs(m: seq<byte>, data: seq<byte>, p: nat)
    requires Unread(m, data, p)
    ensures |m| == |data| && p <= |m| && m[p..] == data[p..]
  {
  }

  lemma StartIsFree(c: Config, s: seq<byte>, a: nat)
    requires RecordStarts(c, s, a)
    ensures a <= |s| && (a > 0 ==> Term(c, s, a - 1)) && (c.Valid() ==> !Term(c, s, a)) && (c.Valid() ==> !Odd(c, s, a))
  {
    if a > 0 {
      if c.Valid() { DelimIsNotTerm(c, s, a - 1); }
    } else {
      EmptyIsEven(c, s);
    }
  }

  lemma EmptyIsEven(c: Config, s: seq<byte>)
    ensures !Odd(c, s, 0)
  {
    assert s[..0] == [] && QuoteBits(c, []) == [];
  }

  lemma StreamStart(c: Config, s: seq<byte>, lim: nat, a: nat)
    requires a <= lim <= |s|
    ensures Odd(c, s[..lim], a) == Odd(c, s, a)
  {
    assert s[..lim][..a] == s[..a];
  }

  /** The buffer from the oldest record on is the stream's. */
  lemma BufferShows(j: Job, o: nat, s: seq<byte>, a: nat, lim: nat, mem: seq<byte>, base: nat, end: nat, start: nat)
    requires Shows(j, o, s) && o + lim <= |j.data| == |mem| && o + a == base + start && o + lim == base + end && a <= lim
    requires mem[o + a..] == j.data[o + a..]
    ensures lim <= |s| && s[..lim][a..] == mem[base..base + end][start..]
  {
    var x, y, w := s[..lim][a..], mem[base..base + end][start..], mem[o + a..];
    forall i | 0 <= i < |x| ensures x[i] == y[i] {
      assert y[i] == w[i] == j.data[o + a..][i];
    }
  }

  /** Turn a verifier rejection into a failure on the record to blame; `start` is where the oldest unemitted record starts. */
  method ArityError(c: Config, ghost j: Job, ghost o: nat, ghost s: seq<byte>, ghost a: nat, n: nat, mem: array<byte>, base: nat, start: nat, end: nat, ghost h: nat)
    returns (f: Failure)
    requires Supported(j.cfg) && j.cfg == c && j.cfg.fieldCount == Some(n) && Shows(j, o, s) && RecordStarts(c, s, a)
    requires Unread(mem[..], j.data, o + a) && o <= base && o + a == base + start && o + a < base + end <= |j.data|
    requires Misaligned(c, s, a, n, h) && (o + h < base + end || base + end == |j.data|)
    requires n >= 1 && Aligned(n, 0, Classes(c, s, 0, a)) && |Classes(c, s, 0, a)| % n == 0
    ensures f.NumberOfFields? && Placed(j, o, f)
  {
    hide *;
    UnreadIs(mem[..], j.data, o + a);
    ghost var lim := base + end - o;
    BufferShows(j, o, s, a, lim, mem[..], base, end, start);
    StartIsFree(c, s, a);
    ShownPrefix(j, o, s, lim);
    MisalignedIs(c, s, a, n, h);
    StreamStart(c, s, lim, a);
    SupportedIsValid(c);
    StartIsMin(start, end);
    ghost var e;
    var at, found;
    at, found, e := LocateBadRecord(c, mem[base..base + end], start, n, s[..lim], a);
    ghost var r := a + at - start;
    RejectedIsBad(j, o, s, lim, a, h, n, r, e, found);
    BufferIsInput(j, o, s, lim, a, n, r, e, found);
    f := NumberOfFields(n, found, base + at);
    IsPlaced(j, o, f);
  }

  lemma StartIsMin(a: nat, b: nat)
    requires a <= b
    ensures Min(a, b) == a
  {
  }
}
