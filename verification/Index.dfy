/** From masks to buffer offsets, and from offsets to records compacted in place. */
module Index {
  import opened Dialect
  import opened Records
  import opened Masks
  import opened Bitmask
  import opened FieldCount
  import opened InPlace
  import opened Stepper

  const WORD: nat := 0x1_0000_0000_0000_0000
  const EXTRACT_UNROLL: nat := 4
  const EXTRACT_SPARSE: nat := 2

  /** Machine-word addition and subtraction. */
  function WrappingAdd(a: nat, b: nat): (r: nat)
    ensures r < WORD
  {
    (a + b) % WORD
  }

  function WrappingSub(a: nat, b: nat): (r: nat)
    requires b <= WORD
    ensures r < WORD
  {
    (a + WORD - b) % WORD
  }

  /** The set bits of the first `hi` lanes as offsets from `base`, ascending. */
  function Offsets(mask: Mask, base: int, hi: nat): seq<int>
    requires hi <= 64
  {
    if hi == 0 then [] else Offsets(mask, base, hi - 1) + (if mask[hi - 1] then [base + hi - 1] else [])
  }

  /** A wrapped negative base still gives the true offset of every lane at or past the buffer's start. */
  lemma WrappedBase(cursor: nat, lane: nat)
    requires cursor + 64 <= WORD && lane < 64 && 64 <= cursor + lane
    ensures WrappingAdd(WrappingSub(cursor, 64), lane) == cursor + lane - 64
  {
    if cursor >= 64 {
      assert WrappingSub(cursor, 64) == cursor - 64;
    } else {
      assert WrappingSub(cursor, 64) == cursor + WORD - 64;
    }
  }

  lemma {:induction false} OffsetsSkip(mask: Mask, base: int, lo: nat, hi: nat)
    requires lo <= hi <= 64 && forall x :: lo <= x < hi ==> !mask[x]
    ensures Offsets(mask, base, hi) == Offsets(mask, base, lo)
    decreases hi - lo
  {
    if lo < hi {
      OffsetsSkip(mask, base, lo, hi - 1);
    }
  }

  lemma {:induction false} OffsetsCount(mask: Mask, base: int, hi: nat)
    requires hi <= 64
    ensures |Offsets(mask, base, hi)| == Count(mask[..hi])
  {
    if hi > 0 {
      OffsetsCount(mask, base, hi - 1);
      assert mask[..hi][..hi - 1] == mask[..hi - 1];
    }
  }

  /** What has been written so far: the offsets below `k`, then anything once no bit is left. */
  ghost predicate Written(w: seq<nat>, m: Mask, mask: Mask, base: int, k: nat) {
    && k <= 64 && Above(m, mask, k)
    && (if Empty(m) then Offsets(mask, base, 64) <= w else Offsets(mask, base, k) == w)
  }

  /** Every lane whose offset would be negative is clear. */
  predicate InBuffer(mask: Mask, base: int) {
    forall i :: 0 <= i < 64 ==> mask[i] ==> 0 <= base + i
  }

  /** Write the lowest remaining offset, or anything at all once none is left. */
  method WriteNext(w: seq<nat>, m: Mask, wrapped: nat, ghost mask: Mask, ghost base: int, ghost k: nat)
    returns (w': seq<nat>, m': Mask, ghost k': nat)
    requires Written(w, m, mask, base, k) && InBuffer(mask, base)
    requires -64 <= base && base + 128 <= WORD && wrapped == WrappingSub(base + 64, 64)
    ensures Written(w', m', mask, base, k') && |w'| == |w| + 1 && k <= k' && (!Empty(m) ==> k < k')
  {
    hide Offsets;
    var lane := Lowest(m, 0);
    w' := w + [WrappingAdd(wrapped, lane)];
    m' := ClearLowest(m);
    k' := k;
    if !Empty(m) {
      LowestAbove(m, mask, k);
      OffsetsSkip(mask, base, k, lane);
      WrappedBase(base + 64, lane);
      k' := lane + 1;
      OneMore(mask, base, lane);
      if Empty(m') {
        OffsetsSkip(mask, base, k', 64);
      }
    }
  }

  lemma OneMore(mask: Mask, base: int, lane: nat)
    requires lane < 64 && mask[lane]
    ensures Offsets(mask, base, lane + 1) == Offsets(mask, base, lane) + [base + lane]
  {
  }

  /** Append the offsets of the set bits; what the unrolled loop writes beyond them is cut off. */
  method ExtendOffsets(out: seq<nat>, mask: Mask, wrapped: nat, ghost base: int) returns (r: seq<nat>)
    requires InBuffer(mask, base)
    requires -64 <= base && base + 128 <= WORD && wrapped == WrappingSub(base + 64, 64)
    ensures r == out + Offsets(mask, base, 64)
  {
    hide Offsets, WrappingSub;
    OffsetsCount(mask, base, 64);
    assert mask[..64] == mask;
    if Empty(mask) {
      OffsetsSkip(mask, base, 0, 64);
      NoOffsets(mask, base);
      return out;
    }
    var count := Count(mask);
    var w: seq<nat> := [];
    var m := mask;
    ghost var k := 0;
    NoOffsets(mask, base);
    if count <= EXTRACT_SPARSE {
      while !Empty(m)
        invariant Written(w, m, mask, base, k)
        decreases 64 - k
      {
        w, m, k := WriteNext(w, m, wrapped, mask, base, k);
      }
    } else {
      var written := 0;
      while written < count
        invariant Written(w, m, mask, base, k) && |w| == written
      {
        var i := 0;
        while i < EXTRACT_UNROLL
          invariant 0 <= i <= EXTRACT_UNROLL && Written(w, m, mask, base, k) && |w| == written + i
        {
          w, m, k := WriteNext(w, m, wrapped, mask, base, k);
          i := i + 1;
        }
        written := written + EXTRACT_UNROLL;
      }
      if !Empty(m) {
        OffsetsGrow(mask, base, k, m);
      }
    }
    assert w[..count] == Offsets(mask, base, 64);
    r := out + w[..count];
  }

  lemma NoOffsets(mask: Mask, base: int)
    ensures Offsets(mask, base, 0) == []
  {
  }

  /** A bit still to be extracted is an offset still missing. */
  lemma OffsetsGrow(mask: Mask, base: int, k: nat, m: Mask)
    requires k <= 64 && Above(m, mask, k) && !Empty(m)
    ensures |Offsets(mask, base, k)| < |Offsets(mask, base, 64)|
  {
    hide Offsets;
    LowestAbove(m, mask, k);
    var lane := Lowest(m, 0);
    OffsetsSkip(mask, base, k, lane);
    OneMore(mask, base, lane);
    OffsetsMonotone(mask, base, lane + 1, 64);
  }

  lemma {:induction false} OffsetsMonotone(mask: Mask, base: int, lo: nat, hi: nat)
    requires lo <= hi <= 64
    ensures |Offsets(mask, base, lo)| <= |Offsets(mask, base, hi)|
    decreases hi - lo
  {
    if lo < hi {
      OffsetsMonotone(mask, base, lo, hi - 1);
    }
  }

  /** Strictly ascending offsets in `[lo, hi)`. */
  ghost predicate Ascending(rs: seq<nat>, lo: nat, hi: nat) {
    && (forall i :: 0 <= i < |rs| ==> lo <= rs[i] < hi)
    && (forall i, k :: 0 <= i < k < |rs| ==> rs[i] < rs[k])
  }

  /** The bytes of `[b, e)` without those at `rs`; offsets count from `base`. */
  ghost function Splice(m: seq<byte>, base: nat, b: nat, rs: seq<nat>, e: nat): seq<byte>
    requires b <= e && base + e <= |m| && Ascending(rs, b, e)
    decreases |rs|
  {
    if rs == [] then m[base + b..base + e]
    else m[base + b..base + rs[0]] + Splice(m, base, rs[0] + 1, rs[1..], e)
  }

  lemma {:induction false} SpliceLength(m: seq<byte>, base: nat, b: nat, rs: seq<nat>, e: nat)
    requires b <= e && base + e <= |m| && Ascending(rs, b, e)
    ensures |rs| <= e - b && |Splice(m, base, b, rs, e)| == e - b - |rs|
    decreases |rs|
  {
    if rs != [] {
      SpliceLength(m, base, rs[0] + 1, rs[1..], e);
    }
  }

  /** `n` is `m` with the kept run `[from, end)` of the input appended at the write position. */
  ghost predicate Copied(n: seq<byte>, m: seq<byte>, orig: seq<byte>, base: nat, b: nat, write: nat, from: nat, end: nat) {
    && b <= write <= from <= end && base + end <= |m| == |n| == |orig|
    && n[base + b..base + write + (end - from)] == m[base + b..base + write] + orig[base + from..base + end]
    && n[base + end..] == orig[base + end..] && n[..base + b] == orig[..base + b]
  }

  /** Copy one kept run down to the write position. */
  method CopyRun(mem: array<byte>, base: nat, write: nat, from: nat, end: nat, ghost orig: seq<byte>, ghost b: nat)
    requires b <= write <= from <= end && base + end <= mem.Length == |orig|
    requires mem[..][base + from..] == orig[base + from..] && mem[..][..base + b] == orig[..base + b]
    modifies mem
    ensures Copied(mem[..], old(mem[..]), orig, base, b, write, from, end)
  {
    hide *;
    var len := end - from;
    ghost var m := mem[..];
    if len != 0 && write != from {
      MoveDown(mem, base + from, base + write, len);
    }
    Rejoin(m, mem[..], base + write, base + from, len);
    RunCopied(m, mem[..], orig, base, b, write, from, end);
  }

  lemma RunCopied(m: seq<byte>, n: seq<byte>, orig: seq<byte>, base: nat, b: nat, write: nat, from: nat, end: nat)
    requires b <= write <= from <= end && base + end <= |m| == |orig|
    requires m[base + from..] == orig[base + from..] && m[..base + b] == orig[..base + b]
    requires n == Moved(m, base + write, base + from, end - from)
    ensures Copied(n, m, orig, base, b, write, from, end)
  {
    SameRange(m, orig, base + from, base + from, base + end);
    SuffixOf(m, orig, base + from, base + end);
    assert n[base + end..] == m[base + end..];
    assert n[..base + b] == m[..base + b];
  }

  /** The first `t` removals are done: what is in place and what is still to come make up the field. */
  ghost predicate Compacting(m: seq<byte>, orig: seq<byte>, base: nat, b: nat, e: nat, rs: seq<nat>, t: nat, write: nat, prevEnd: nat) {
    && |m| == |orig| && base + e <= |m|
    && t <= |rs| && b <= write <= prevEnd <= e && Ascending(rs, b, e)
    && write - b + t == prevEnd - b
    && Ascending(rs[t..], prevEnd, e)
    && m[base + b..base + write] + Splice(orig, base, prevEnd, rs[t..], e) == Splice(orig, base, b, rs, e)
    && m[base + prevEnd..] == orig[base + prevEnd..] && m[..base + b] == orig[..base + b]
  }

  lemma CompactStart(m: seq<byte>, base: nat, b: nat, e: nat, rs: seq<nat>)
    requires b <= e && base + e <= |m| && Ascending(rs, b, e)
    ensures Compacting(m, m, base, b, e, rs, 0, b, b)
  {
    assert rs[0..] == rs;
    assert m[base + b..base + b] == [];
  }

  /** One kept run moved down, one removal passed. */
  lemma CompactStep(m: seq<byte>, n: seq<byte>, orig: seq<byte>, base: nat, b: nat, e: nat, rs: seq<nat>, t: nat, write: nat, prevEnd: nat)
    requires Compacting(m, orig, base, b, e, rs, t, write, prevEnd) && t < |rs| && |n| == |m|
    requires prevEnd <= rs[t] < e && Copied(n, m, orig, base, b, write, prevEnd, rs[t])
    ensures Compacting(n, orig, base, b, e, rs, t + 1, write + (rs[t] - prevEnd), rs[t] + 1)
  {
    hide Splice, Ascending;
    var r := rs[t];
    SpliceStep(orig, base, prevEnd, rs[t..], e);
    assert rs[t..][1..] == rs[t + 1..];
    Dropped1(n, orig, base, r);
    var done := m[base + b..base + write];
    assert done + (orig[base + prevEnd..base + r] + Splice(orig, base, r + 1, rs[t + 1..], e))
        == done + orig[base + prevEnd..base + r] + Splice(orig, base, r + 1, rs[t + 1..], e);
  }

  /** `n` is `orig` with the field's content at its front, and nothing else touched outside of it. */
  ghost predicate Compacted(n: seq<byte>, orig: seq<byte>, base: nat, b: nat, e: nat, rs: seq<nat>) {
    && b <= e && base + e <= |n| == |orig| && Ascending(rs, b, e) && |rs| <= e - b
    && n[base + b..base + e - |rs|] == Splice(orig, base, b, rs, e)
    && n[base + e..] == orig[base + e..] && n[..base + b] == orig[..base + b]
  }

  /** The last kept run completes the field. */
  lemma CompactEnd(m: seq<byte>, n: seq<byte>, orig: seq<byte>, base: nat, b: nat, e: nat, rs: seq<nat>, write: nat, prevEnd: nat)
    requires Compacting(m, orig, base, b, e, rs, |rs|, write, prevEnd) && |n| == |m|
    requires Copied(n, m, orig, base, b, write, prevEnd, e)
    ensures Compacted(n, orig, base, b, e, rs)
  {
    hide Splice, Ascending;
    assert rs[|rs|..] == [];
    SpliceWhole(orig, base, prevEnd, e);
  }

  lemma CompactingBounds(m: seq<byte>, orig: seq<byte>, base: nat, b: nat, e: nat, rs: seq<nat>, t: nat, write: nat, prevEnd: nat)
    requires Compacting(m, orig, base, b, e, rs, t, write, prevEnd)
    ensures |m| == |orig| && base + e <= |m| && t <= |rs| && b <= write <= prevEnd <= e
    ensures t < |rs| ==> prevEnd <= rs[t] < e
    ensures m[base + prevEnd..] == orig[base + prevEnd..] && m[..base + b] == orig[..base + b]
  {
    hide Splice;
    if t < |rs| {
      assert rs[t..][0] == rs[t];
    }
  }

  /** Close the gaps that the removals leave in one field, in place. */
  method CompactField(mem: array<byte>, base: nat, b: nat, e: nat, rs: seq<nat>) returns (len: nat)
    requires b <= e && base + e <= mem.Length && Ascending(rs, b, e)
    modifies mem
    ensures |rs| <= e - b && len == e - b - |rs|
    ensures Compacted(mem[..], old(mem[..]), base, b, e, rs)
  {
    hide *;
    ghost var orig := mem[..];
    SpliceLength(orig, base, b, rs, e);
    len := e - b - |rs|;
    if rs == [] {
      NothingRemoved(orig, base, b, e);
      return;
    }
    CompactStart(orig, base, b, e, rs);
    var write, prevEnd, t := b, b, 0;
    while t < |rs|
      invariant 0 <= t <= |rs| && b <= write && 0 <= prevEnd
      invariant Compacting(mem[..], orig, base, b, e, rs, t, write, prevEnd)
    {
      ghost var m := mem[..];
      CompactingBounds(m, orig, base, b, e, rs, t, write, prevEnd);
      CopyRun(mem, base, write, prevEnd, rs[t], orig, b);
      CompactStep(m, mem[..], orig, base, b, e, rs, t, write, prevEnd);
      write := write + (rs[t] - prevEnd);
      prevEnd := rs[t] + 1;
      t := t + 1;
    }
    ghost var m := mem[..];
    CompactingBounds(m, orig, base, b, e, rs, t, write, prevEnd);
    CopyRun(mem, base, write, prevEnd, e, orig, b);
    CompactEnd(m, mem[..], orig, base, b, e, rs, write, prevEnd);
  }

  lemma NothingRemoved(m: seq<byte>, base: nat, b: nat, e: nat)
    requires b <= e && base + e <= |m|
    ensures Compacted(m, m, base, b, e, [])
  {
  }

  lemma Dropped1(m: seq<byte>, orig: seq<byte>, base: nat, r: nat)
    requires |m| == |orig| && base + r < |m| && m[base + r..] == orig[base + r..]
    ensures m[base + r + 1..] == orig[base + r + 1..]
  {
    assert m[base + r + 1..] == m[base + r..][1..];
    assert orig[base + r + 1..] == orig[base + r..][1..];
  }

  lemma SpliceWhole(m: seq<byte>, base: nat, b: nat, e: nat)
    requires b <= e && base + e <= |m|
    ensures Ascending([], b, e) && Splice(m, base, b, [], e) == m[base + b..base + e]
  {
  }

  lemma SpliceStep(m: seq<byte>, base: nat, b: nat, rs: seq<nat>, e: nat)
    requires b <= e && base + e <= |m| && rs != [] && Ascending(rs, b, e)
    ensures Ascending(rs[1..], rs[0] + 1, e)
    ensures Splice(m, base, b, rs, e) == m[base + b..base + rs[0]] + Splice(m, base, rs[0] + 1, rs[1..], e)
  {
  }

  /** `p` cuts an ascending sequence at the value `v`. */
  ghost predicate Cut(rs: seq<nat>, p: nat, v: nat) {
    p <= |rs| && (forall k :: 0 <= k < p ==> rs[k] < v) && (forall k :: p <= k < |rs| ==> v <= rs[k])
  }

  ghost predicate Sorted(rs: seq<nat>) {
    forall i, k :: 0 <= i < k < |rs| ==> rs[i] < rs[k]
  }

  /** The removals in `[b, e)`. */
  function Within(rs: seq<nat>, b: nat, e: nat): (w: seq<nat>)
    ensures forall i :: 0 <= i < |w| ==> b <= w[i] < e && w[i] in rs
  {
    if rs == [] then []
    else
      var v := rs[|rs| - 1];
      Within(rs[..|rs| - 1], b, e) + (if b <= v < e then [v] else [])
  }

  lemma {:induction false} WithinSorted(rs: seq<nat>, b: nat, e: nat)
    requires Sorted(rs)
    ensures Ascending(Within(rs, b, e), b, e)
  {
    if rs != [] {
      var k := |rs| - 1;
      WithinSorted(rs[..k], b, e);
      var w := Within(rs[..k], b, e);
      forall i | 0 <= i < |w| ensures w[i] < rs[k] {
        assert w[i] in rs[..k];
      }
    }
  }

  lemma {:induction false} WithinIsSlice(rs: seq<nat>, p: nat, q: nat, b: nat, e: nat)
    requires Cut(rs, p, b) && Cut(rs, q, e) && p <= q
    ensures Within(rs, b, e) == rs[p..q]
    decreases |rs|
  {
    if rs != [] {
      var k := |rs| - 1;
      var front := rs[..k];
      CutFront(rs, p, b);
      CutFront(rs, q, e);
      WithinIsSlice(front, if p < k then p else k, if q < k then q else k, b, e);
      if q == |rs| && p < |rs| {
        assert rs[p..q] == front[p..k] + [rs[k]];
      } else {
        assert rs[p..q] == front[if p < k then p else k..if q < k then q else k];
      }
    }
  }

  lemma CutFront(rs: seq<nat>, p: nat, v: nat)
    requires rs != [] && Cut(rs, p, v)
    ensures Cut(rs[..|rs| - 1], if p < |rs| - 1 then p else |rs| - 1, v)
  {
  }

  /** Advance the removal cursor to the first removal at or past `v`. */
  method SkipBelow(rs: seq<nat>, from: nat, v: nat) returns (p: nat)
    requires Sorted(rs) && from <= |rs| && forall k :: 0 <= k < from ==> rs[k] < v
    ensures from <= p && Cut(rs, p, v)
  {
    p := from;
    while p < |rs| && rs[p] < v
      invariant from <= p <= |rs| && forall k :: 0 <= k < p ==> rs[k] < v
    {
      p := p + 1;
    }
  }

  /** One field's bytes with its removals taken out. */
  ghost function FieldBytes(m: seq<byte>, base: nat, b: nat, e: nat, rs: seq<nat>): Field
    requires b <= e && base + e <= |m| && Sorted(rs)
  {
    WithinSorted(rs, b, e);
    Splice(m, base, b, Within(rs, b, e), e)
  }

  /** Fields that do not overlap, in order, within the buffer. */
  ghost predicate Laid(bs: seq<nat>, es: seq<nat>, total: nat, limit: nat) {
    && total <= |bs| && total <= |es|
    && (forall i :: 0 <= i < total ==> bs[i] <= es[i] <= limit)
    && (forall i, k :: 0 <= i < k < total ==> es[i] <= bs[k])
  }

  /** The record that the first `n` begins and ends delimit. */
  ghost function RecordBytes(m: seq<byte>, base: nat, bs: seq<nat>, es: seq<nat>, rs: seq<nat>, n: nat): (r: Record)
    requires Sorted(rs) && base <= |m| && Laid(bs, es, n, |m| - base)
    ensures |r| == n
  {
    seq(n, i requires 0 <= i < n => FieldBytes(m, base, bs[i], es[i], rs))
  }

  /** The fields done so far are in their slots; the rest of the buffer is as it was. */
  ghost predicate Slotted(m: seq<byte>, orig: seq<byte>, base: nat, bs: seq<nat>, es: seq<nat>, rs: seq<nat>, spans: seq<Span>, i: nat)
    requires Sorted(rs)
  {
    && |m| == |orig| && base <= |m| && i == |spans| && Laid(bs, es, i, |m| - base)
    && (forall k :: 0 <= k < i ==> spans[k].0 == base + bs[k] && bs[k] + spans[k].1 <= es[k])
    && (forall k :: 0 <= k < i ==> Bytes(m, spans[k]) == FieldBytes(orig, base, bs[k], es[k], rs))
  }

  lemma SamePrefix(m: seq<byte>, n: seq<byte>, v: nat, lo: nat, hi: nat)
    requires lo <= hi <= v <= |m| && v <= |n| && m[..v] == n[..v]
    ensures m[lo..hi] == n[lo..hi]
  {
    assert m[lo..hi] == m[..v][lo..hi];
    assert n[lo..hi] == n[..v][lo..hi];
  }

  /** Compacting one more field leaves the earlier ones alone. */
  lemma SlotNext(m: seq<byte>, n: seq<byte>, orig: seq<byte>, base: nat, bs: seq<nat>, es: seq<nat>, rs: seq<nat>, spans: seq<Span>, i: nat, len: nat)
    requires Sorted(rs) && Slotted(m, orig, base, bs, es, rs, spans, i) && Laid(bs, es, i + 1, |m| - base)
    requires |n| == |m| && n[..base + bs[i]] == m[..base + bs[i]] && bs[i] + len <= es[i]
    requires n[base + bs[i]..base + bs[i] + len] == FieldBytes(orig, base, bs[i], es[i], rs)
    ensures Slotted(n, orig, base, bs, es, rs, spans + [(base + bs[i], len)], i + 1)
  {
    hide FieldBytes;
    var more := spans + [(base + bs[i], len)];
    forall k | 0 <= k < i + 1
      ensures more[k].0 == base + bs[k] && bs[k] + more[k].1 <= es[k]
      ensures Bytes(n, more[k]) == FieldBytes(orig, base, bs[k], es[k], rs)
    {
      if k < i {
        assert more[k] == spans[k] && es[k] <= bs[i];
        SamePrefix(n, m, base + bs[i], spans[k].0, spans[k].0 + spans[k].1);
      }
    }
  }

  /** Removals taken from the bytes of an untouched field are taken from the input's. */
  lemma {:induction false} SpliceAgrees(m: seq<byte>, orig: seq<byte>, base: nat, b: nat, rs: seq<nat>, e: nat)
    requires b <= e && base + e <= |m| == |orig| && Ascending(rs, b, e)
    requires m[base + b..] == orig[base + b..]
    ensures Splice(m, base, b, rs, e) == Splice(orig, base, b, rs, e)
    decreases |rs|
  {
    hide *;
    if rs == [] {
      SameRange(m, orig, base + b, base + b, base + e);
      SpliceWhole(m, base, b, e);
      SpliceWhole(orig, base, b, e);
    } else {
      AscendingFirst(rs, b, e);
      SameRange(m, orig, base + b, base + b, base + rs[0]);
      SuffixOf(m, orig, base + b, base + (rs[0] + 1));
      SpliceStep(m, base, b, rs, e);
      SpliceStep(orig, base, b, rs, e);
      SpliceAgrees(m, orig, base, rs[0] + 1, rs[1..], e);
    }
  }

  lemma AscendingFirst(rs: seq<nat>, b: nat, e: nat)
    requires Ascending(rs, b, e) && rs != []
    ensures b <= rs[0] < e
  {
  }

  lemma SameRange(m: seq<byte>, orig: seq<byte>, v: nat, lo: nat, hi: nat)
    requires |m| == |orig| && v <= lo <= hi <= |m| && m[v..] == orig[v..]
    ensures m[lo..hi] == orig[lo..hi]
  {
    forall i | 0 <= i < hi - lo ensures m[lo..hi][i] == orig[lo..hi][i] {
      assert m[lo..hi][i] == m[v..][lo - v + i];
      assert orig[lo..hi][i] == orig[v..][lo - v + i];
    }
  }

  lemma SuffixOf(m: seq<byte>, orig: seq<byte>, v: nat, w: nat)
    requires |m| == |orig| && v <= w <= |m| && m[v..] == orig[v..]
    ensures m[w..] == orig[w..]
  {
    assert m[w..] == m[v..][w - v..];
    assert orig[w..] == orig[v..][w - v..];
  }

  /** The buffer outside `[lo, hi)` is as it was. */
  ghost predicate Untouched(m: seq<byte>, orig: seq<byte>, lo: nat, hi: nat) {
    lo <= hi <= |m| == |orig| && m[..lo] == orig[..lo] && m[hi..] == orig[hi..]
  }

  /** What the removal path keeps while it works through one record. */
  ghost predicate Assembling(m: seq<byte>, orig: seq<byte>, base: nat, bs: seq<nat>, es: seq<nat>, rs: seq<nat>, spans: seq<Span>, i: nat, rCursor: nat)
  {
    && Sorted(rs) && |bs| > 0 && Slotted(m, orig, base, bs, es, rs, spans, i)
    && var v := if i == 0 then bs[0] else es[i - 1];
    && bs[0] <= v && Untouched(m, orig, base + bs[0], base + v)
    && rCursor <= |rs| && forall k :: 0 <= k < rCursor ==> rs[k] < v
  }

  /** One field of a record that has removals. */
  method AssembleField(mem: array<byte>, base: nat, n: nat, bs: seq<nat>, es: seq<nat>, rs: seq<nat>, spans: seq<Span>, i: nat, from: nat, ghost orig: seq<byte>)
    returns (spans': seq<Span>, rCursor: nat)
    requires i < n && base <= mem.Length && Laid(bs, es, n, mem.Length - base)
    requires Assembling(mem[..], orig, base, bs, es, rs, spans, i, from)
    modifies mem
    ensures Assembling(mem[..], orig, base, bs, es, rs, spans', i + 1, rCursor)
  {
    hide *;
    ghost var m := mem[..];
    LaidPrefix(bs, es, n, i, mem.Length - base);
    var b, e := bs[i], es[i];
    AssemblingStep(m, orig, base, n, bs, es, rs, spans, i, from);
    var rStart := SkipBelow(rs, from, b);
    CutBelow(rs, rStart, b, e);
    rCursor := SkipBelow(rs, rStart, e);
    WithinIsSlice(rs, rStart, rCursor, b, e);
    WithinSorted(rs, b, e);
    var len := CompactField(mem, base, b, e, rs[rStart..rCursor]);
    AssembledField(m, mem[..], orig, base, n, bs, es, rs, spans, i, from, rCursor, len);
    spans' := spans + [(base + b, len)];
  }

  lemma CutBelow(rs: seq<nat>, p: nat, b: nat, e: nat)
    requires Cut(rs, p, b) && b <= e
    ensures p <= |rs| && forall k :: 0 <= k < p ==> rs[k] < e
  {
  }

  lemma AssemblingStep(m: seq<byte>, orig: seq<byte>, base: nat, n: nat, bs: seq<nat>, es: seq<nat>, rs: seq<nat>, spans: seq<Span>, i: nat, from: nat)
    requires i < n && base <= |m| && Laid(bs, es, n, |m| - base)
    requires Assembling(m, orig, base, bs, es, rs, spans, i, from)
    ensures n <= |bs| && n <= |es| && bs[i] <= es[i] && base + es[i] <= |m| == |orig| && Sorted(rs)
    ensures from <= |rs| && forall k :: 0 <= k < from ==> rs[k] < bs[i]
    ensures m[base + bs[i]..] == orig[base + bs[i]..]
  {
    hide Slotted;
    SlottedLength(m, orig, base, bs, es, rs, spans, i);
    SuffixOf(m, orig, base + (if i == 0 then bs[0] else es[i - 1]), base + bs[i]);
  }

  lemma SlottedLength(m: seq<byte>, orig: seq<byte>, base: nat, bs: seq<nat>, es: seq<nat>, rs: seq<nat>, spans: seq<Span>, i: nat)
    requires Sorted(rs) && Slotted(m, orig, base, bs, es, rs, spans, i)
    ensures |m| == |orig| && base <= |m| && i == |spans|
  {
    hide FieldBytes, Bytes;
  }

  lemma AssembledField(m: seq<byte>, n: seq<byte>, orig: seq<byte>, base: nat, total: nat, bs: seq<nat>, es: seq<nat>, rs: seq<nat>, spans: seq<Span>, i: nat, from: nat, rCursor: nat, len: nat)
    requires i < total && base <= |m| && Laid(bs, es, total, |m| - base)
    requires Assembling(m, orig, base, bs, es, rs, spans, i, from)
    requires total <= |bs| && total <= |es| && bs[i] <= es[i] && Compacted(n, m, base, bs[i], es[i], Within(rs, bs[i], es[i]))
    requires len == es[i] - bs[i] - |Within(rs, bs[i], es[i])| && Cut(rs, rCursor, es[i])
    ensures Assembling(n, orig, base, bs, es, rs, spans + [(base + bs[i], len)], i + 1, rCursor)
  {
    hide FieldBytes, Splice, Within, Bytes, Slotted;
    var b, e := bs[i], es[i];
    AssemblingStep(m, orig, base, total, bs, es, rs, spans, i, from);
    SpliceAgrees(m, orig, base, b, Within(rs, b, e), e);
    FieldBytesIs(orig, base, b, e, rs);
    SuffixOf(m, orig, base + b, base + e);
    assert n[..base + bs[0]] == n[..base + b][..base + bs[0]] == m[..base + b][..base + bs[0]] == m[..base + bs[0]];
    assert base + e - |Within(rs, b, e)| == base + b + len;
    SlotNext(m, n, orig, base, bs, es, rs, spans, i, len);
  }

  /** One record: its fields, compacted where something is removed. */
  method AssembleRecord(mem: array<byte>, base: nat, n: nat, bs: seq<nat>, es: seq<nat>, rs: seq<nat>, from: nat)
    returns (r: Record, rCursor: nat)
    requires n >= 1 && base <= mem.Length && Sorted(rs) && Laid(bs, es, n, mem.Length - base)
    requires from <= |rs| && forall k :: 0 <= k < from ==> rs[k] < bs[0]
    modifies mem
    ensures r == RecordBytes(old(mem[..]), base, bs, es, rs, n)
    ensures rCursor <= |rs| && forall k :: 0 <= k < rCursor ==> rs[k] < es[n - 1]
    ensures Untouched(mem[..], old(mem[..]), base + bs[0], base + es[n - 1])
  {
    hide *;
    ghost var orig := mem[..];
    LaidBounds(bs, es, n, mem.Length - base);
    rCursor := SkipBelow(rs, from, bs[0]);
    var clean := rCursor >= |rs| || rs[rCursor] >= es[n - 1];
    var spans: seq<Span> := [];
    var i := 0;
    NoSlots(orig, base, bs, es, rs);
    if clean {
      while i < n
        invariant 0 <= i <= n && Slotted(orig, orig, base, bs, es, rs, spans, i)
        invariant mem[..] == orig
      {
        LaidPrefix(bs, es, n, i, mem.Length - base);
        CleanField(orig, base, bs[i], es[i], rs, rCursor, bs[0], es[n - 1]);
        SlotNext(orig, orig, orig, base, bs, es, rs, spans, i, es[i] - bs[i]);
        spans := spans + [(base + bs[i], es[i] - bs[i])];
        i := i + 1;
      }
      UntouchedSame(orig, base + bs[0], base + es[n - 1]);
      CutBelow(rs, rCursor, bs[0], es[n - 1]);
    } else {
      AssemblingStart(orig, base, bs, es, rs, rCursor);
      while i < n
        invariant 0 <= i <= n && 0 <= rCursor && Assembling(mem[..], orig, base, bs, es, rs, spans, i, rCursor)
      {
        spans, rCursor := AssembleField(mem, base, n, bs, es, rs, spans, i, rCursor, orig);
        i := i + 1;
      }
      AssemblingEnd(mem[..], orig, base, bs, es, rs, spans, n, rCursor);
    }
    SlotsInRange(mem[..], orig, base, bs, es, rs, spans, n);
    r := Fields(mem[..], spans);
    SlotsAreRecord(mem[..], orig, base, bs, es, rs, spans, n);
  }

  lemma LaidBounds(bs: seq<nat>, es: seq<nat>, n: nat, limit: nat)
    requires n >= 1 && Laid(bs, es, n, limit)
    ensures n <= |bs| && n <= |es| && bs[0] <= es[n - 1] <= limit
  {
  }

  lemma LaidPrefix(bs: seq<nat>, es: seq<nat>, n: nat, i: nat, limit: nat)
    requires i < n && Laid(bs, es, n, limit)
    ensures n <= |bs| && n <= |es| && Laid(bs, es, i + 1, limit) && bs[0] <= bs[i] <= es[i] <= es[n - 1] <= limit
  {
  }

  lemma NoSlots(m: seq<byte>, base: nat, bs: seq<nat>, es: seq<nat>, rs: seq<nat>)
    requires Sorted(rs) && base <= |m|
    ensures Slotted(m, m, base, bs, es, rs, [], 0)
  {
  }

  lemma AssemblingStart(m: seq<byte>, base: nat, bs: seq<nat>, es: seq<nat>, rs: seq<nat>, p: nat)
    requires Sorted(rs) && base <= |m| && |bs| > 0 && base + bs[0] <= |m| && Cut(rs, p, bs[0])
    ensures Assembling(m, m, base, bs, es, rs, [], 0, p)
  {
  }

  lemma AssemblingEnd(m: seq<byte>, orig: seq<byte>, base: nat, bs: seq<nat>, es: seq<nat>, rs: seq<nat>, spans: seq<Span>, n: nat, p: nat)
    requires n >= 1 && n <= |es| && Assembling(m, orig, base, bs, es, rs, spans, n, p)
    ensures Sorted(rs) && Slotted(m, orig, base, bs, es, rs, spans, n)
    ensures Untouched(m, orig, base + bs[0], base + es[n - 1]) && p <= |rs| && forall k :: 0 <= k < p ==> rs[k] < es[n - 1]
  {
    hide Slotted;
  }

  lemma UntouchedSame(m: seq<byte>, lo: nat, hi: nat)
    requires lo <= hi <= |m|
    ensures Untouched(m, m, lo, hi)
  {
  }

  lemma SlotsInRange(m: seq<byte>, orig: seq<byte>, base: nat, bs: seq<nat>, es: seq<nat>, rs: seq<nat>, spans: seq<Span>, n: nat)
    requires Sorted(rs) && Slotted(m, orig, base, bs, es, rs, spans, n)
    ensures forall s :: s in spans ==> s.0 + s.1 <= |m|
  {
    forall s | s in spans ensures s.0 + s.1 <= |m| {
      var k :| 0 <= k < |spans| && spans[k] == s;
    }
  }

  lemma SlotsAreRecord(m: seq<byte>, orig: seq<byte>, base: nat, bs: seq<nat>, es: seq<nat>, rs: seq<nat>, spans: seq<Span>, n: nat)
    requires Sorted(rs) && Slotted(m, orig, base, bs, es, rs, spans, n)
    requires forall s :: s in spans ==> s.0 + s.1 <= |m|
    ensures base <= |orig| && Laid(bs, es, n, |orig| - base)
    ensures Fields(m, spans) == RecordBytes(orig, base, bs, es, rs, n)
  {
    hide FieldBytes, Bytes;
  }

  lemma FieldBytesIs(m: seq<byte>, base: nat, b: nat, e: nat, rs: seq<nat>)
    requires b <= e && base + e <= |m| && Sorted(rs)
    ensures Ascending(Within(rs, b, e), b, e) && FieldBytes(m, base, b, e, rs) == Splice(m, base, b, Within(rs, b, e), e)
  {
    WithinSorted(rs, b, e);
  }

  /** A field of a record without removals is its bytes as they are. */
  lemma CleanField(m: seq<byte>, base: nat, b: nat, e: nat, rs: seq<nat>, p: nat, lo: nat, hi: nat)
    requires lo <= b <= e <= hi && base + e <= |m| && Sorted(rs)
    requires Cut(rs, p, lo) && (p >= |rs| || rs[p] >= hi)
    ensures FieldBytes(m, base, b, e, rs) == m[base + b..base + e]
  {
    hide Splice;
    assert Cut(rs, p, b) && Cut(rs, p, e);
    WithinIsSlice(rs, p, p, b, e);
    SpliceWhole(m, base, b, e);
  }

  /** Dropping the first record's fields keeps the layout. */
  lemma LaidRest(bs: seq<nat>, es: seq<nat>, total: nat, n: nat, limit: nat)
    requires Laid(bs, es, total, limit) && n <= total
    ensures total <= |bs| && total <= |es|
    ensures Laid(bs, es, n, limit) && Laid(bs[n..], es[n..], total - n, limit)
  {
  }

  lemma OneLess(count: nat, n: nat)
    requires count >= 1
    ensures (count - 1) * n == count * n - n && n <= count * n
  {
  }

  /** The records that striding `count` times yields from the buffer. */
  ghost function Assembled(m: seq<byte>, base: nat, bs: seq<nat>, es: seq<nat>, rs: seq<nat>, n: nat, count: nat): (records: seq<Record>)
    requires Sorted(rs) && base <= |m| && Laid(bs, es, count * n, |m| - base)
    ensures |records| == count
    decreases count
  {
    if count == 0 then []
    else
      OneLess(count, n);
      LaidRest(bs, es, count * n, n, |m| - base);
      [RecordBytes(m, base, bs, es, rs, n)] + Assembled(m, base, bs[n..], es[n..], rs, n, count - 1)
  }

  lemma AssembledUnfolds(m: seq<byte>, base: nat, bs: seq<nat>, es: seq<nat>, rs: seq<nat>, n: nat, count: nat)
    requires Sorted(rs) && base <= |m| && Laid(bs, es, count * n, |m| - base) && count >= 1
    ensures n <= |bs| && n <= |es| && Laid(bs, es, n, |m| - base) && Laid(bs[n..], es[n..], (count - 1) * n, |m| - base)
    ensures Assembled(m, base, bs, es, rs, n, count)
         == [RecordBytes(m, base, bs, es, rs, n)] + Assembled(m, base, bs[n..], es[n..], rs, n, count - 1)
  {
    hide RecordBytes;
    OneLess(count, n);
    LaidRest(bs, es, count * n, n, |m| - base);
  }

  /** A record whose bytes are untouched is assembled as from the original buffer. */
  lemma RecordAgrees(m: seq<byte>, orig: seq<byte>, base: nat, bs: seq<nat>, es: seq<nat>, rs: seq<nat>, n: nat, v: nat)
    requires n >= 1 && Sorted(rs) && base <= |m| == |orig| && Laid(bs, es, n, |m| - base)
    requires v <= bs[0] && base + v <= |m| && m[base + v..] == orig[base + v..]
    ensures RecordBytes(m, base, bs, es, rs, n) == RecordBytes(orig, base, bs, es, rs, n)
  {
    hide FieldBytes, Splice, Within;
    forall i | 0 <= i < n ensures FieldBytes(m, base, bs[i], es[i], rs) == FieldBytes(orig, base, bs[i], es[i], rs) {
      SuffixOf(m, orig, base + v, base + bs[i]);
      FieldBytesIs(m, base, bs[i], es[i], rs);
      FieldBytesIs(orig, base, bs[i], es[i], rs);
      SpliceAgrees(m, orig, base, bs[i], Within(rs, bs[i], es[i]), es[i]);
    }
  }

  /** Where assembly stands: the fields still to come are untouched, and the removal cursor is in front of them. */
  ghost predicate Striding(m: seq<byte>, orig: seq<byte>, base: nat, bs: seq<nat>, es: seq<nat>, rs: seq<nat>, n: nat, left: nat, from: nat, v: nat) {
    && Sorted(rs) && base + v <= |m| == |orig| && Laid(bs, es, left * n, |m| - base)
    && m[base + v..] == orig[base + v..]
    && (forall i :: 0 <= i < left * n ==> v <= bs[i])
    && from <= |rs| && (forall k :: 0 <= k < from ==> rs[k] < v)
  }

  lemma StridingStart(m: seq<byte>, base: nat, bs: seq<nat>, es: seq<nat>, rs: seq<nat>, n: nat, count: nat)
    requires Sorted(rs) && base <= |m| && Laid(bs, es, count * n, |m| - base)
    ensures Striding(m, m, base, bs, es, rs, n, count, 0, 0)
  {
  }

  lemma StridingRecord(m: seq<byte>, orig: seq<byte>, base: nat, bs: seq<nat>, es: seq<nat>, rs: seq<nat>, n: nat, left: nat, from: nat, v: nat)
    requires n >= 1 && left > 0 && Striding(m, orig, base, bs, es, rs, n, left, from, v)
    ensures Sorted(rs) && base <= |m| == |orig| && n <= |bs| && n <= |es| && Laid(bs, es, n, |m| - base)
    ensures Laid(bs, es, left * n, |m| - base)
    ensures from <= |rs| && forall k :: 0 <= k < from ==> rs[k] < bs[0]
    ensures RecordBytes(m, base, bs, es, rs, n) == RecordBytes(orig, base, bs, es, rs, n)
  {
    hide RecordBytes;
    OneLess(left, n);
    LaidRest(bs, es, left * n, n, |m| - base);
    RecordAgrees(m, orig, base, bs, es, rs, n, v);
  }

  lemma StridingNext(m: seq<byte>, n: seq<byte>, orig: seq<byte>, base: nat, bs: seq<nat>, es: seq<nat>, rs: seq<nat>, arity: nat, left: nat, from: nat, v: nat, from': nat)
    requires arity >= 1 && left > 0 && Striding(m, orig, base, bs, es, rs, arity, left, from, v)
    requires |n| == |m| && arity <= |bs| && arity <= |es| && Untouched(n, m, base + bs[0], base + es[arity - 1])
    requires from' <= |rs| && forall k :: 0 <= k < from' ==> rs[k] < es[arity - 1]
    ensures Striding(n, orig, base, bs[arity..], es[arity..], rs, arity, left - 1, from', es[arity - 1])
  {
    OneLess(left, arity);
    LaidRest(bs, es, left * arity, arity, |m| - base);
    SuffixOf(m, orig, base + v, base + es[arity - 1]);
  }

  predicate AllAccepted(accept: Record -> bool, rs: seq<Record>) {
    forall i :: 0 <= i < |rs| ==> accept(rs[i])
  }

  /** Emit `count` records of `n` fields, stopping at the first that is not accepted. */
  method AssembleRecordsFixed(mem: array<byte>, base: nat, n: nat, bs: seq<nat>, es: seq<nat>, rs: seq<nat>, count: nat, accept: Record -> bool)
    returns (emitted: seq<Record>, rejected: Option<Record>)
    requires n >= 1 && base <= mem.Length && Sorted(rs) && Laid(bs, es, count * n, mem.Length - base)
    modifies mem
    ensures AllAccepted(accept, emitted)
    ensures rejected.None? ==> emitted == Assembled(old(mem[..]), base, bs, es, rs, n, count)
    ensures rejected.Some? ==> !accept(rejected.value) && emitted + [rejected.value] <= Assembled(old(mem[..]), base, bs, es, rs, n, count)
    ensures count > 0 && rejected.None? ==> 1 <= count * n <= |es| && Behind(mem[..], old(mem[..]), base + es[count * n - 1])
  {
    hide *;
    ghost var orig := mem[..];
    ghost var whole := Assembled(orig, base, bs, es, rs, n, count);
    var rCursor, fieldIdx, i := 0, 0, 0;
    ghost var v := 0;
    emitted := [];
    StridingStart(orig, base, bs, es, rs, n, count);
    assert bs[0..] == bs && es[0..] == es;
    EmptyAccepted(accept);
    StillStart(orig, base, bs, es, rs, n, count);
    LaidIn(bs, es, count * n, mem.Length - base);
    while i < count
      invariant 0 <= i <= count && fieldIdx == i * n && fieldIdx <= |bs| && fieldIdx <= |es| && 0 <= rCursor
      invariant Striding(mem[..], orig, base, bs[fieldIdx..], es[fieldIdx..], rs, n, count - i, rCursor, v)
      invariant Still(orig, base, bs[fieldIdx..], es[fieldIdx..], rs, n, count - i, emitted, whole)
      invariant AllAccepted(accept, emitted)
      invariant i > 0 ==> 1 <= fieldIdx && v == es[fieldIdx - 1]
    {
      ghost var m := mem[..];
      var rb, re := bs[fieldIdx..], es[fieldIdx..];
      StridingRecord(m, orig, base, rb, re, rs, n, count - i, rCursor, v);
      var r;
      ghost var from := rCursor;
      r, rCursor := AssembleRecord(mem, base, n, rb, re, rs, rCursor);
      StillOne(orig, base, rb, re, rs, n, count - i, emitted, whole, r);
      if !accept(r) {
        return emitted, Some(r);
      }
      StridingNext(m, mem[..], orig, base, rb, re, rs, n, count - i, from, v, rCursor);
      AcceptOne(accept, emitted, r);
      emitted := emitted + [r];
      v := re[n - 1];
      SliceOfSlice(bs, fieldIdx, n);
      SliceOfSlice(es, fieldIdx, n);
      OneLess(i + 1, n);
      fieldIdx := fieldIdx + n;
      i := i + 1;
    }
    StillNone(orig, base, bs[fieldIdx..], es[fieldIdx..], rs, n, emitted, whole);
    StridingBehind(mem[..], orig, base, bs[fieldIdx..], es[fieldIdx..], rs, n, rCursor, v);
    rejected := None;
  }

  lemma SliceOfSlice(xs: seq<nat>, k: nat, n: nat)
    requires k + n <= |xs|
    ensures xs[k..][n..] == xs[k + n..] && (n > 0 ==> xs[k..][n - 1] == xs[k + n - 1])
  {
  }

  /** The buffer from `v` on is as it was. */
  ghost predicate Behind(m: seq<byte>, orig: seq<byte>, v: nat) {
    v <= |m| == |orig| && m[v..] == orig[v..]
  }

  lemma StridingBehind(m: seq<byte>, orig: seq<byte>, base: nat, bs: seq<nat>, es: seq<nat>, rs: seq<nat>, n: nat, from: nat, v: nat)
    requires Striding(m, orig, base, bs, es, rs, n, 0, from, v)
    ensures Behind(m, orig, base + v)
  {
  }

  /** What is emitted and what is still to come make up the whole. */
  ghost predicate Still(orig: seq<byte>, base: nat, bs: seq<nat>, es: seq<nat>, rs: seq<nat>, n: nat, left: nat, emitted: seq<Record>, whole: seq<Record>) {
    && Sorted(rs) && base <= |orig| && Laid(bs, es, left * n, |orig| - base)
    && emitted + Assembled(orig, base, bs, es, rs, n, left) == whole
  }

  lemma StillStart(orig: seq<byte>, base: nat, bs: seq<nat>, es: seq<nat>, rs: seq<nat>, n: nat, count: nat)
    requires Sorted(rs) && base <= |orig| && Laid(bs, es, count * n, |orig| - base)
    ensures Still(orig, base, bs, es, rs, n, count, [], Assembled(orig, base, bs, es, rs, n, count))
  {
    assert [] + Assembled(orig, base, bs, es, rs, n, count) == Assembled(orig, base, bs, es, rs, n, count);
  }

  lemma StillOne(orig: seq<byte>, base: nat, bs: seq<nat>, es: seq<nat>, rs: seq<nat>, n: nat, left: nat, emitted: seq<Record>, whole: seq<Record>, r: Record)
    requires left >= 1 && Still(orig, base, bs, es, rs, n, left, emitted, whole)
    requires Laid(bs, es, n, |orig| - base) && r == RecordBytes(orig, base, bs, es, rs, n)
    ensures n <= |bs| && n <= |es| && Still(orig, base, bs[n..], es[n..], rs, n, left - 1, emitted + [r], whole)
    ensures emitted + [r] <= whole
  {
    hide RecordBytes, Assembled, Laid;
    AssembledUnfolds(orig, base, bs, es, rs, n, left);
    var more := Assembled(orig, base, bs[n..], es[n..], rs, n, left - 1);
    assert emitted + ([r] + more) == (emitted + [r]) + more;
  }

  lemma StillNone(orig: seq<byte>, base: nat, bs: seq<nat>, es: seq<nat>, rs: seq<nat>, n: nat, emitted: seq<Record>, whole: seq<Record>)
    requires Still(orig, base, bs, es, rs, n, 0, emitted, whole)
    ensures emitted == whole
  {
  }

  lemma EmptyAccepted(accept: Record -> bool)
    ensures AllAccepted(accept, [])
  {
  }

  lemma AcceptOne(accept: Record -> bool, rs: seq<Record>, r: Record)
    requires AllAccepted(accept, rs) && accept(r)
    ensures AllAccepted(accept, rs + [r])
  {
  }

  lemma LaidIn(bs: seq<nat>, es: seq<nat>, total: nat, limit: nat)
    requires Laid(bs, es, total, limit)
    ensures total <= |bs| && total <= |es|
  {
  }
}
