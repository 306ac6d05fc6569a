/**
 * Field-count verification: whether terminators sit exactly on every `n`-th boundary.
 * Boundaries arrive a vector at a time as two masks: where a boundary is, and which of
 * them are terminators.
 */
module FieldCount {
  import opened Masks
  import opened Bitmask

  const MAX_ARITY: nat := 63

  /** The bits of `src` at the positions `mask` selects, in order. */
  function Pick(src: seq<bool>, mask: seq<bool>): (p: seq<bool>)
    requires |src| == |mask|
    ensures |p| == Count(mask)
  {
    if mask == [] then []
    else
      var k := |mask| - 1;
      Pick(src[..k], mask[..k]) + (if mask[k] then [src[k]] else [])
  }

  /** Boundary `j` after the first `phase` completes a record of `n` fields. */
  predicate Completes(n: nat, phase: nat, j: nat)
    requires n >= 1
  {
    (phase + j) % n == n - 1
  }

  /** The classes `p` of the boundaries after the first `phase`: terminators exactly where records complete. */
  ghost predicate Aligned(n: nat, phase: nat, p: seq<bool>)
    requires n >= 1
  {
    forall j :: 0 <= j < |p| ==> (p[j] <==> Completes(n, phase, j))
  }

  /** The first set bit at or above `i`, or 64. */
  function Lowest(m: Mask, i: nat): (k: nat)
    requires i <= 64
    ensures i <= k <= 64 && (k < 64 ==> m[k])
    ensures forall x :: i <= x < k ==> !m[x]
    decreases 64 - i
  {
    if i == 64 || m[i] then i else Lowest(m, i + 1)
  }

  /** `m & (m - 1)`: the lowest set bit cleared. */
  function ClearLowest(m: Mask): (r: Mask)
    ensures var k := Lowest(m, 0); forall x :: 0 <= x < 64 ==> r[x] == (m[x] && x != k)
  {
    var k := Lowest(m, 0);
    if k == 64 then m else m[k := false]
  }

  /** `t` is what is left of `m` once everything below `k` has been cleared. */
  ghost predicate Above(t: Mask, m: Mask, k: nat) {
    forall x :: 0 <= x < 64 ==> t[x] == (m[x] && k <= x)
  }

  lemma {:induction false} PickSkips(src: seq<bool>, mask: seq<bool>, lo: nat, hi: nat)
    requires |src| == |mask| && lo <= hi <= |mask|
    requires forall x :: lo <= x < hi ==> !mask[x]
    ensures Pick(src[..hi], mask[..hi]) == Pick(src[..lo], mask[..lo])
    decreases hi - lo
  {
    if lo < hi {
      PickSkips(src, mask, lo, hi - 1);
      PickNext(src, mask, hi - 1);
    }
  }

  lemma PickNext(src: seq<bool>, mask: seq<bool>, k: nat)
    requires |src| == |mask| && k < |mask|
    ensures Pick(src[..k + 1], mask[..k + 1]) == Pick(src[..k], mask[..k]) + (if mask[k] then [src[k]] else [])
  {
    assert src[..k + 1][..k] == src[..k];
    assert mask[..k + 1][..k] == mask[..k];
  }

  lemma {:induction false} PickPrefix(src: seq<bool>, mask: seq<bool>, lo: nat, hi: nat)
    requires |src| == |mask| && lo <= hi <= |mask|
    ensures Pick(src[..lo], mask[..lo]) <= Pick(src[..hi], mask[..hi])
    decreases hi - lo
  {
    if lo < hi {
      PickPrefix(src, mask, lo, hi - 1);
      PickNext(src, mask, hi - 1);
    }
  }

  lemma CountIsSmall(m: Mask)
    ensures Count(m) <= 64
  {
  }

  /** Bits of `p`, zero past its end. */
  ghost predicate LowBits(r: Mask, p: seq<bool>) {
    |p| <= 64 && forall x :: 0 <= x < 64 ==> r[x] == (x < |p| && p[x])
  }

  /** Parallel bit extract, one selected bit at a time. */
  method PextScalar(src: Mask, mask: Mask) returns (result: Mask)
    ensures LowBits(result, Pick(src, mask))
  {
    result := Zero();
    var m := mask;
    var outPos := 0;
    ghost var k := 0;
    assert Pick(src[..0], mask[..0]) == [];
    while !Empty(m)
      invariant k <= 64 && Above(m, mask, k)
      invariant outPos == |Pick(src[..k], mask[..k])|
      invariant LowBits(result, Pick(src[..k], mask[..k]))
      decreases 64 - k
    {
      var lo := Lowest(m, 0);
      LowestAbove(m, mask, k);
      PickSkips(src, mask, k, lo);
      PickNext(src, mask, lo);
      assert |Pick(src[..lo + 1], mask[..lo + 1])| <= 64;
      if src[lo] {
        result := result[outPos := true];
      }
      m := ClearLowest(m);
      outPos := outPos + 1;
      k := lo + 1;
    }
    PickSkips(src, mask, k, 64);
    assert src[..64] == src && mask[..64] == mask;
  }

  lemma LowestAbove(t: Mask, m: Mask, k: nat)
    requires k <= 64 && Above(t, m, k) && !Empty(t)
    ensures var lo := Lowest(t, 0); k <= lo < 64 && m[lo] && (forall x :: k <= x < lo ==> !m[x]) && Above(ClearLowest(t), m, lo + 1)
  {
  }

  lemma ModNext(x: nat, n: nat)
    requires n >= 1
    ensures (x + 1) % n == if x % n == n - 1 then 0 else x % n + 1
  {
    var q := x / n;
    if x % n == n - 1 {
      assert x + 1 == n * (q + 1);
      MultipleMod(n, q + 1, 0);
    } else {
      assert x + 1 == n * q + (x % n + 1);
      MultipleMod(n, q, x % n + 1);
    }
  }

  lemma MultipleMod(n: nat, q: nat, r: nat)
    requires r < n
    ensures (n * q + r) % n == r
  {
    var x := n * q + r;
    var d := x / n - q;
    assert n * d == r - x % n;
    assert d == 0 by {
      NoMultipleBelow(n, d);
    }
  }

  lemma NoMultipleBelow(n: int, d: int)
    requires -n < n * d < n
    ensures d == 0
  {
  }

  /** Counting on from a multiple of `n`. */
  lemma {:induction false} ModFrom(x: nat, n: nat, d: nat)
    requires n >= 1 && x % n + d < n
    ensures (x + d) % n == x % n + d
    decreases d
  {
    if d > 0 {
      ModFrom(x, n, d - 1);
      ModNext(x + d - 1, n);
    }
  }

  /** `d` boundaries that complete nothing: fewer than the record still lacks, and the phase counts them. */
  lemma PhaseAfter(n: nat, phase: nat, lo: nat, d: nat)
    requires n >= 1
    requires forall j :: lo <= j < lo + d ==> !Completes(n, phase, j)
    ensures (phase + lo) % n + d < n && (phase + lo + d) % n == (phase + lo) % n + d
  {
    var r := (phase + lo) % n;
    assert 0 <= r < n;
    if r + d >= n {
      ModFrom(phase + lo, n, n - 1 - r);
      assert Completes(n, phase, lo + (n - 1 - r));
      assert false;
    }
    ModFrom(phase + lo, n, d);
  }

  /** The boundary after one that completes a record starts the next at phase 0. */
  lemma AfterHit(n: nat, phase: nat, j: nat)
    requires n >= 1 && Completes(n, phase, j)
    ensures (phase + j + 1) % n == 0
  {
    ModNext(phase + j, n);
  }

  /** The expected pattern for a vector that starts at `phase`. */
  method ExpectedPattern(n: nat, phase: nat) returns (out: Mask)
    requires n >= 1
    ensures forall i :: 0 <= i < 64 ==> (out[i] <==> Completes(n, phase, i))
  {
    out := Zero();
    var i := 0;
    while i < 64
      invariant 0 <= i <= 64
      invariant forall k :: 0 <= k < i ==> (out[k] <==> Completes(n, phase, k))
      invariant forall k :: i <= k < 64 ==> !out[k]
    {
      if (i + phase) % n == n - 1 {
        out := out[i := true];
      }
      i := i + 1;
    }
  }

  /** One past the highest set bit, or 0. */
  function Width(m: seq<bool>): (k: nat)
    ensures k <= |m| && (k > 0 ==> m[k - 1]) && forall x :: k <= x < |m| ==> !m[x]
  {
    if m == [] then 0 else if m[|m| - 1] then |m| else Width(m[..|m| - 1])
  }

  function LeadingZeros(m: Mask): nat {
    64 - Width(m)
  }

  lemma WidthOfLowBits(r: Mask, p: seq<bool>)
    requires LowBits(r, p)
    ensures Width(r) <= |p| && (Width(r) > 0 ==> p[Width(r) - 1]) && forall x :: Width(r) <= x < |p| ==> !p[x]
  {
    forall x | Width(r) <= x < |p| ensures !p[x] {
      assert !r[x];
    }
  }

  /** Where a pattern that is aligned leaves the phase. */
  lemma AlignedPhase(n: nat, phase: nat, p: seq<bool>, w: nat)
    requires n >= 1 && phase < n && Aligned(n, phase, p)
    requires w <= |p| && (w > 0 ==> p[w - 1]) && forall x :: w <= x < |p| ==> !p[x]
    ensures (phase + |p|) % n == |p| - w + (if w == 0 then phase else 0)
  {
    if w == 0 {
      Small(phase, n);
    } else {
      AfterHit(n, phase, w - 1);
    }
    hide Completes;
    PhaseAfter(n, phase, w, |p| - w);
  }

  lemma Small(x: nat, n: nat)
    requires x < n
    ensures x % n == x
  {
  }

  /** Verify by extracting the classes of the boundaries and comparing them with the expected pattern. */
  method VerifyPext(n: nat, expected: Mask, phase: nat, dStruct: Mask, term: Mask) returns (ok: bool, next: nat)
    requires 1 <= n && phase < n
    requires forall i :: 0 <= i < 64 ==> (expected[i] <==> Completes(n, phase, i))
    ensures ok <==> Aligned(n, phase, Pick(term, dStruct))
    ensures next == if ok then (phase + Count(dStruct)) % n else phase
  {
    hide Pick, Count;
    CountIsSmall(dStruct);
    var count := Count(dStruct);
    if count == 0 {
      Small(phase, n);
      return true, phase;
    }
    var p := PextScalar(term, dStruct);
    ghost var pattern := Pick(term, dStruct);
    var mask := seq(64, i => i < count);
    if !Empty(And(Xor(p, expected), mask)) {
      ghost var i :| 0 <= i < 64 && And(Xor(p, expected), mask)[i];
      assert pattern[i] == p[i];
      return false, phase;
    }
    forall j | 0 <= j < |pattern| ensures pattern[j] <==> Completes(n, phase, j) {
      assert !And(Xor(p, expected), mask)[j];
      assert pattern[j] == p[j];
    }
    WidthOfLowBits(p, pattern);
    AlignedPhase(n, phase, pattern, Width(p));
    EmptyWidth(p);
    var carry := if Empty(p) then phase else 0;
    return true, count + LeadingZeros(p) - 64 + carry;
  }

  lemma EmptyWidth(m: Mask)
    ensures Empty(m) <==> Width(m) == 0
  {
  }

  /** The prefix up to the last terminator seen is aligned, nothing follows it up to `hi`, and the next one is due at `due`. */
  ghost predicate WalkedTo(n: nat, phase: nat, p: seq<bool>, lo: nat, hi: nat, due: int)
    requires n >= 1
  {
    && lo <= hi <= |p|
    && Aligned(n, phase, p[..lo])
    && (forall x :: lo <= x < hi ==> !p[x])
    && Due(n, phase, p, lo, due)
  }

  predicate Due(n: nat, phase: nat, p: seq<bool>, lo: nat, due: int)
    requires lo <= |p|
  {
    if lo == 0 then due == n - 1 - phase else p[lo - 1] && due == lo - 1 + n
  }

  lemma PhaseAtLo(n: nat, phase: nat, p: seq<bool>, lo: nat)
    requires 1 <= n && phase < n && lo <= |p| && Aligned(n, phase, p[..lo]) && (lo > 0 ==> p[lo - 1])
    ensures (phase + lo) % n == if lo == 0 then phase else 0
  {
    if lo == 0 {
      Small(phase, n);
    } else {
      assert p[..lo][lo - 1] == p[lo - 1];
      AfterHit(n, phase, lo - 1);
    }
  }

  /** The next boundary to complete a record is the due one, and none before it does. */
  lemma NextHit(n: nat, phase: nat, p: seq<bool>, lo: nat, due: int)
    requires 1 <= n && phase < n && lo <= |p| && Aligned(n, phase, p[..lo]) && Due(n, phase, p, lo, due)
    ensures 0 <= lo <= due && Completes(n, phase, due)
    ensures forall x :: lo <= x < due ==> !Completes(n, phase, x)
  {
    PhaseAtLo(n, phase, p, lo);
    forall x | lo <= x <= due ensures Completes(n, phase, x) <==> x == due {
      ModFrom(phase + lo, n, x - lo);
    }
  }

  /** Verify by visiting the terminators only: each must land on the next expected boundary. */
  method VerifyByTerminators(n: nat, phase0: nat, dStruct: Mask, term: Mask) returns (ok: bool, next: nat)
    requires 1 <= n && phase0 < n
    ensures ok <==> Aligned(n, phase0, Pick(term, dStruct))
    ensures next == if ok then (phase0 + Count(dStruct)) % n else phase0
  {
    hide Pick, Count, Aligned;
    var count := Count(dStruct);
    var t := And(term, dStruct);
    ghost var p := Pick(term, dStruct);
    ghost var k: nat, lo: nat := 0, 0;
    var due: int := n - 1 - phase0;
    var phase := phase0 + count;
    assert p[..0] == [] && Pick(term[..0], dStruct[..0]) == [] && Aligned(n, phase0, []) by { Nothing(n, phase0, term, dStruct); }
    while !Empty(t)
      invariant k <= 64 && Above(t, And(term, dStruct), k)
      invariant WalkedTo(n, phase0, p, lo, |Pick(term[..k], dStruct[..k])|, due)
      invariant phase == count - lo + (if lo == 0 then phase0 else 0)
      decreases 64 - k
    {
      var bit := Lowest(t, 0);
      LowestAbove(t, And(term, dStruct), k);
      var idx := Count(dStruct[..bit]);
      NextBit(dStruct, term, k, bit, p);
      if idx != due {
        Misplaced(n, phase0, p, lo, |Pick(term[..k], dStruct[..k])|, due, idx);
        return false, phase0;
      }
      Landed(n, phase0, p, lo, |Pick(term[..k], dStruct[..k])|, idx);
      due := due + n;
      phase := count - idx - 1;
      t := ClearLowest(t);
      k := bit + 1;
      lo := idx + 1;
    }
    NoMore(term, dStruct, k, p);
    // With `n` boundaries behind it a terminator was due.
    Tail(n, phase0, p, lo, due);
    if phase >= n {
      return false, phase0;
    }
    return true, phase;
  }

  lemma Nothing(n: nat, phase: nat, term: Mask, d: Mask)
    requires n >= 1
    ensures Pick(term[..0], d[..0]) == [] && Aligned(n, phase, [])
  {
  }

  /** The lowest remaining terminator is the boundary that `Count` says, and none lies between. */
  lemma NextBit(d: Mask, term: Mask, k: nat, bit: nat, p: seq<bool>)
    requires k <= bit < 64 && term[bit] && d[bit] && p == Pick(term, d)
    requires forall x :: k <= x < bit ==> !(term[x] && d[x])
    ensures var idx := Count(d[..bit]);
            && |Pick(term[..k], d[..k])| <= idx < |p| && p[idx] && idx + 1 == |Pick(term[..bit + 1], d[..bit + 1])|
            && forall x :: |Pick(term[..k], d[..k])| <= x < idx ==> !p[x]
  {
    hide Pick, Count;
    PickPrefix(term, d, k, bit);
    PickNext(term, d, bit);
    PickPrefix(term, d, bit + 1, 64);
    assert term[..64] == term && d[..64] == d;
    NoneBetween(term, d, k, bit);
    forall x | |Pick(term[..k], d[..k])| <= x < Count(d[..bit]) ensures !p[x] {
      assert p[x] == Pick(term[..bit], d[..bit])[x];
    }
  }

  lemma {:induction false} NoneBetween(term: seq<bool>, d: seq<bool>, k: nat, hi: nat)
    requires |term| == |d| && k <= hi <= |d|
    requires forall x :: k <= x < hi ==> !(term[x] && d[x])
    ensures |Pick(term[..k], d[..k])| <= |Pick(term[..hi], d[..hi])|
    ensures forall x :: |Pick(term[..k], d[..k])| <= x < |Pick(term[..hi], d[..hi])| ==> !Pick(term[..hi], d[..hi])[x]
    decreases hi - k
  {
    if k < hi {
      NoneBetween(term, d, k, hi - 1);
      PickNext(term, d, hi - 1);
    }
  }

  lemma NoMore(term: Mask, d: Mask, k: nat, p: seq<bool>)
    requires k <= 64 && p == Pick(term, d)
    requires forall x :: k <= x < 64 ==> !(term[x] && d[x])
    ensures |Pick(term[..k], d[..k])| <= |p| && forall x :: |Pick(term[..k], d[..k])| <= x < |p| ==> !p[x]
  {
    NoneBetween(term, d, k, 64);
    assert term[..64] == term && d[..64] == d;
  }

  lemma Misplaced(n: nat, phase: nat, p: seq<bool>, lo: nat, hi: nat, due: int, idx: nat)
    requires 1 <= n && phase < n && WalkedTo(n, phase, p, lo, hi, due)
    requires hi <= idx < |p| && p[idx] && idx != due
    requires forall x :: hi <= x < idx ==> !p[x]
    ensures !Aligned(n, phase, p)
  {
    hide Completes;
    NextHit(n, phase, p, lo, due);
    if idx > due {
      assert !p[due];
    } else {
      assert !Completes(n, phase, idx);
    }
  }

  lemma Landed(n: nat, phase: nat, p: seq<bool>, lo: nat, hi: nat, idx: nat)
    requires 1 <= n && phase < n && WalkedTo(n, phase, p, lo, hi, idx) && hi <= idx < |p| && p[idx]
    requires forall x :: hi <= x < idx ==> !p[x]
    ensures WalkedTo(n, phase, p, idx + 1, idx + 1, idx + n)
  {
    hide Completes;
    NextHit(n, phase, p, lo, idx);
    forall x | 0 <= x < idx + 1 ensures p[..idx + 1][x] <==> Completes(n, phase, x) {
      assert x < lo ==> p[..lo][x] == p[x];
    }
  }

  lemma Tail(n: nat, phase: nat, p: seq<bool>, lo: nat, due: int)
    requires 1 <= n && phase < n && WalkedTo(n, phase, p, lo, |p|, due)
    ensures var left := |p| - lo + (if lo == 0 then phase else 0);
            && (Aligned(n, phase, p) <==> left < n)
            && (left < n ==> (phase + |p|) % n == left)
  {
    hide Completes;
    NextHit(n, phase, p, lo, due);
    if due < |p| {
      assert !p[due];
    } else {
      forall x | 0 <= x < |p| ensures p[x] <==> Completes(n, phase, x) {
        assert x < lo ==> p[..lo][x] == p[x];
      }
      AlignedPhase(n, phase, p, lo);
    }
  }

  /** Two adjacent stretches of boundaries are aligned when each is, the second from the phase the first leaves. */
  lemma AlignedConcat(n: nat, a: seq<bool>, b: seq<bool>)
    requires n >= 1
    ensures Aligned(n, 0, a + b) <==> Aligned(n, 0, a) && Aligned(n, |a| % n, b)
  {
    forall j | 0 <= j < |b| ensures Completes(n, |a| % n, j) == Completes(n, 0, |a| + j) {
      ModShift(|a|, j, n);
    }
    hide Completes;
    if Aligned(n, 0, a + b) {
      forall j | 0 <= j < |a| ensures a[j] <==> Completes(n, 0, j) {
        assert (a + b)[j] == a[j];
      }
      forall j | 0 <= j < |b| ensures b[j] <==> Completes(n, |a| % n, j) {
        assert (a + b)[|a| + j] == b[j];
      }
    }
    if Aligned(n, 0, a) && Aligned(n, |a| % n, b) {
      forall j | 0 <= j < |a + b| ensures (a + b)[j] <==> Completes(n, 0, j) {
        if j >= |a| {
          assert (a + b)[j] == b[j - |a|];
        }
      }
    }
  }

  lemma {:induction false} ModShift(x: nat, j: nat, n: nat)
    requires n >= 1
    ensures (x % n + j) % n == (x + j) % n
    decreases j
  {
    if j == 0 {
      Small(x % n, n);
    } else {
      ModShift(x, j - 1, n);
      ModNext(x % n + (j - 1), n);
      ModNext(x + (j - 1), n);
    }
  }

  /** The verifier of one pass: `seen` is the class of every boundary it has accepted. */
  class FieldCounter {
    const n: nat
    const fastPext: bool
    const rotations: seq<Mask>
    var phase: nat
    ghost var seen: seq<bool>

    ghost predicate Valid()
      reads this
    {
      && 1 <= n <= MAX_ARITY && phase < n && |rotations| == 64
      && (forall p, i :: 0 <= p < n && 0 <= i < 64 ==> (rotations[p][i] <==> Completes(n, p, i)))
      && phase == |seen| % n && Aligned(n, 0, seen)
    }

    constructor (n: nat, fastPext: bool)
      requires 1 <= n <= MAX_ARITY
      ensures Valid() && this.n == n && seen == [] && phase == 0
    {
      var table: seq<Mask> := [];
      var p := 0;
      while p < 64
        invariant |table| == p <= 64
        invariant forall q, i :: 0 <= q < p && q < n && 0 <= i < 64 ==> (table[q][i] <==> Completes(n, q, i))
      {
        var row := Zero();
        if p < n {
          row := ExpectedPattern(n, p);
        }
        table := table + [row];
        p := p + 1;
      }
      this.n, this.fastPext, rotations := n, fastPext, table;
      phase := 0;
      seen := [];
    }

    /** Accepts exactly when the boundaries so far and this vector's are all where they belong. */
    method Verify(dStruct: Mask, term: Mask) returns (ok: bool)
      requires Valid()
      modifies this
      ensures Valid()
      ensures ok <==> Aligned(n, 0, old(seen) + Pick(term, dStruct))
      ensures seen == if ok then old(seen) + Pick(term, dStruct) else old(seen)
    {
      hide Pick, Count, Aligned;
      AlignedConcat(n, seen, Pick(term, dStruct));
      ghost var before := |seen|;
      ModShift(before, Count(dStruct), n);
      if fastPext {
        ok, phase := VerifyPext(n, rotations[phase], phase, dStruct, term);
      } else {
        ok, phase := VerifyByTerminators(n, phase, dStruct, term);
      }
      if ok {
        seen := seen + Pick(term, dStruct);
      }
    }
  }
}
