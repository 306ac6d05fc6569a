/** The quote-free bit-parallel stepper: one stream of boundaries, held back a vector. */
module CursorStepper {
  import opened Dialect
  import opened Records
  import opened Handed
  import opened Masks
  import opened Bitmask
  import opened Stream
  import opened Segments
  import opened FieldWalk
  import opened FieldCount
  import opened RecordWalk
  import opened Stride
  import opened InPlace
  import opened Index
  import opened Padding
  import opened LiveIndex
  import opened Endings
  import opened Batch
  import opened Ledger
  import opened Stepper
  import opened BadRecord
  import opened CellWalk
  import opened CellLedger
  import opened IndexStepper

  class SimdCursorStepper {
    const cfg: Config
    const n: nat
    const accept: Record -> bool
    const fieldCounter: FieldCounter
    var needsAlignPrologue: bool
    /** The newest vector; whether its last run ends is known only once the next one is loaded. */
    var pending: Option<Held>
    /** Boundaries of the published vectors, as buffer offsets. */
    var bounds: seq<nat>
    /** Buffer offset where the record in flight starts: the consume limit. */
    var cellStart: nat
    /** Whether some run had more than one terminator. */
    var hasRuns: bool
    var lastRecordEnd: Option<nat>

    /** Where the run starts, how many lanes of head padding it took, what the vectors show, how many are published, and the oldest record. */
    ghost const o: nat
    ghost var m: nat
    ghost var s: seq<byte>
    ghost var k: nat
    ghost var a: nat

    constructor (cfg: Config, accept: Record -> bool, fastPext: bool, ghost j: Job, ghost o: nat)
      requires o <= |j.data| && Feeds(j, o, 0, Shown(j, o, 0)) && j.cfg == cfg && j.accept == accept && cfg.quote.None?
      ensures this.cfg == cfg && this.accept == accept && this.o == o && a == 0 && lastRecordEnd == None
      ensures fresh(fieldCounter) && Resting(j, o, 0, j.data)
    {
      hide *;
      FeedsIs(j, o, 0, Shown(j, o, 0));
      ArityLimit();
      this.cfg, this.accept := cfg, accept;
      n := cfg.fieldCount.value;
      fieldCounter := new FieldCounter(cfg.fieldCount.value, fastPext);
      needsAlignPrologue, pending, bounds, cellStart, hasRuns := true, None, [], 0, false;
      lastRecordEnd := None;
      this.o, m, s, k, a := o, 0, Shown(j, o, 0), 0, 0;
      new;
      SameUnread(j.data, o);
      FreshCells(j, o, 0, s, j.data, n);
      UptoIs(0, 0);
      NothingRuns(cfg, s);
      IsScanning(j, o, 0, 0, j.data);
      IsResting(j, o, 0, j.data);
    }

    ghost function HeldCount(): nat
      reads this
    {
      if pending.Some? then 1 else 0
    }

    /** In the middle of a step: the next vector starts at `cursor`, and `bounds[head..]` are pending. */
    ghost predicate Scanning(j: Job, base: nat, cursor: nat, head: nat, mem: seq<byte>)
      reads this, fieldCounter
    {
      && j.cfg == cfg && j.accept == accept && fieldCounter.n == n && fieldCounter.Valid() && head <= |bounds|
      && CellBooks(j, o, m, s, a, k, fieldCounter.seen, base, bounds[head..], cellStart, mem, n)
      && (!hasRuns ==> Calm(cfg, s, a, Upto(k, m)))
      && cursor + base + m == o + 64 * (k + HeldCount()) && base + cursor <= |j.data|
      && (pending.Some? ==> HeldAt(cfg, s, 64 * k - m, pending.value) && pending.value.base == WrappingSub(cursor, 64))
      && (pending.None? ==> k == 0)
      && (lastRecordEnd.Some? ==> lastRecordEnd.value < o + a)
    }

    lemma ScanningIs(j: Job, base: nat, cursor: nat, head: nat, mem: seq<byte>)
      requires Scanning(j, base, cursor, head, mem)
      ensures j.cfg == cfg && j.accept == accept && fieldCounter.n == n && fieldCounter.Valid() && head <= |bounds|
      ensures CellBooks(j, o, m, s, a, k, fieldCounter.seen, base, bounds[head..], cellStart, mem, n)
      ensures !hasRuns ==> Calm(cfg, s, a, Upto(k, m))
      ensures cursor + base + m == o + 64 * (k + HeldCount()) && base + cursor <= |j.data|
      ensures pending.Some? ==> HeldAt(cfg, s, 64 * k - m, pending.value) && pending.value.base == WrappingSub(cursor, 64)
      ensures pending.None? ==> k == 0
      ensures lastRecordEnd.Some? ==> lastRecordEnd.value < o + a
      ensures HeldCount() == if pending.Some? then 1 else 0
    {
      hide CellBooks, Calm, HeldAt, WrappingSub, Upto, fieldCounter.Valid;
    }

    lemma IsScanning(j: Job, base: nat, cursor: nat, head: nat, mem: seq<byte>)
      requires j.cfg == cfg && j.accept == accept && fieldCounter.n == n && fieldCounter.Valid() && head <= |bounds|
      requires CellBooks(j, o, m, s, a, k, fieldCounter.seen, base, bounds[head..], cellStart, mem, n)
      requires !hasRuns ==> Calm(cfg, s, a, Upto(k, m))
      requires cursor + base + m == o + 64 * (k + if pending.Some? then 1 else 0) && base + cursor <= |j.data|
      requires pending.Some? ==> HeldAt(cfg, s, 64 * k - m, pending.value) && pending.value.base == WrappingSub(cursor, 64)
      requires pending.None? ==> k == 0
      requires lastRecordEnd.Some? ==> lastRecordEnd.value < o + a
      ensures Scanning(j, base, cursor, head, mem)
    {
      hide CellBooks, Calm, HeldAt, WrappingSub, Upto, fieldCounter.Valid;
    }

    /** Between calls: `at` is where the next vector starts. A held vector lies in the buffer. */
    ghost predicate Resting(j: Job, base: nat, at: nat, mem: seq<byte>)
      reads this, fieldCounter
    {
      Scanning(j, base, at, 0, mem) && (pending.Some? ==> 64 <= at)
    }

    lemma RestingIs(j: Job, base: nat, at: nat, mem: seq<byte>)
      requires Resting(j, base, at, mem)
      ensures Scanning(j, base, at, 0, mem) && (pending.Some? ==> 64 <= at)
    {
      hide Scanning;
    }

    lemma IsResting(j: Job, base: nat, at: nat, mem: seq<byte>)
      requires Scanning(j, base, at, 0, mem) && (pending.Some? ==> 64 <= at)
      ensures Resting(j, base, at, mem)
    {
      hide Scanning;
    }

    /** Resolve one vector against the next one's first terminator bit, verify it, and publish its boundaries. */
    method Publish(ghost j: Job, held: Held, next: bool, ghost base: nat, ghost cursor: nat, ghost head: nat, ghost mem: seq<byte>) returns (ok: bool)
      requires j.cfg == cfg && fieldCounter.n == n && fieldCounter.Valid() && head <= |bounds|
      requires CellBooks(j, o, m, s, a, k, fieldCounter.seen, base, bounds[head..], cellStart, mem, n) && 64 * k + 64 <= m + |s|
      requires !hasRuns ==> Calm(cfg, s, a, Upto(k, m))
      requires HeldAt(cfg, s, 64 * k - m, held) && next == Term(cfg, s, 64 * k - m + 64)
      requires cursor + base + m == o + 64 * (k + 1) && held.base == WrappingSub(cursor, 64) && cursor + 128 <= WORD
      modifies `bounds, `hasRuns, `k, fieldCounter
      ensures head <= |bounds|
      ensures ok ==> fieldCounter.Valid() && k == old(k) + 1 && (!hasRuns ==> Calm(cfg, s, a, Upto(k, m)))
      ensures ok ==> CellBooks(j, o, m, s, a, k, fieldCounter.seen, base, bounds[head..], cellStart, mem, n)
      ensures !ok ==> 64 * old(k) + 64 >= m && Misaligned(cfg, s, a, n, 64 * old(k) + 64 - m) && o + a < |j.data| && Doomed(j, o, a)
    {
      hide *;
      ghost var at: int := 64 * k - m;
      ghost var seen, bs := fieldCounter.seen, bounds[head..];
      CellBooksAre(j, o, m, s, a, k, seen, base, bs, cellStart, mem, n);
      RunsResolved(cfg, s, at, held, next);
      var runEnd := TerminatorRunEnds(held.term, next);
      hasRuns := hasRuns || runEnd != held.term;
      var dStruct := Or(held.delim, runEnd);
      RunsInBuffer(j, o, m, s, a, k, seen, base, bs, cellStart, mem, n, dStruct, runEnd);
      ok := fieldCounter.Verify(dStruct, runEnd);
      if !ok {
        Unpublished(j, o, m, s, a, k, seen, base, bs, cellStart, mem, n, dStruct, runEnd);
        return;
      }
      bounds := ExtendOffsets(bounds, dStruct, held.base, cursor - 64);
      assert bounds[head..] == bs + Offsets(dStruct, cursor - 64, 64);
      Published(j, o, m, s, a, k, seen, base, bs, bounds[head..], cellStart, mem, n, dStruct, runEnd);
      UptoIs(k + 1, m);
      if !hasRuns {
        StaysCalm(cfg, s, a, Upto(k, m), at, held, dStruct, runEnd);
      }
      k := k + 1;
    }

    /** The next vector of the input. */
    lemma NextVector(j: Job, base: nat, cursor: nat, head: nat, mem: seq<byte>)
      requires Scanning(j, base, cursor, head, mem) && base + cursor + 64 <= |mem|
      ensures var f := k + HeldCount();
              && o <= |j.data| && 64 * f + 64 <= |Vectors(j, o, m)| == m + |s|
              && mem[base + cursor..base + cursor + 64] == Vectors(j, o, m)[64 * f..64 * f + 64]
    {
      hide *;
      ScanningIs(j, base, cursor, head, mem);
      CellBooksAre(j, o, m, s, a, k, fieldCounter.seen, base, bounds[head..], cellStart, mem, n);
      BodyVector(j, o, m, k + HeldCount(), mem, a, base + cursor);
    }

    /** One vector of the loop: the held one is resolved and published, this one is held. */
    method LoadVector(ghost j: Job, mem: array<byte>, base: nat, cursor: nat, ghost head: nat) returns (ok: bool)
      requires Scanning(j, base, cursor, head, mem[..]) && base + cursor + 64 <= mem.Length && mem.Length + 128 <= WORD
      modifies `bounds, `hasRuns, `k, `pending, fieldCounter
      ensures ok ==> Scanning(j, base, cursor + 64, head, mem[..]) && pending.Some?
      ensures !ok ==> Doomed(j, o, a) && o + a < |j.data| && o <= base + cursor && Misaligned(cfg, s, a, n, base + cursor - o)
    {
      hide *;
      ghost var mm, f := mem[..], k + HeldCount();
      ScanningIs(j, base, cursor, head, mm);
      NextVector(j, base, cursor, head, mm);
      CellBooksAre(j, o, m, s, a, k, fieldCounter.seen, base, bounds[head..], cellStart, mm, n);
      var v := mem[base + cursor..base + cursor + 64];
      assert v == mm[base + cursor..base + cursor + 64];
      VectorHeld(j, o, m, s, f, v, cursor);
      var matches := MatchStructural(cfg, v);
      var held := Held(matches.delim, matches.term, cursor);
      ok := true;
      if pending.Some? {
        HeldAtIs(cfg, s, 64 * f - m, held);
        ok := Publish(j, pending.value, matches.term[0], base, cursor, head, mm);
        if !ok {
          return;
        }
      }
      pending := Some(held);
      UnwrapSub(cursor);
      IsScanning(j, base, cursor + 64, head, mm);
    }

    /** Put the scan on a vector boundary, if the buffer is long enough for an aligned vector to follow. */
    method AlignPrologue(ghost j: Job, mem: array<byte>, base: nat, address: nat, scanEnd: nat) returns (cursor: nat)
      requires Scanning(j, base, 0, 0, mem[..]) && needsAlignPrologue && pending.None? && base + scanEnd <= mem.Length
      modifies `needsAlignPrologue, `m, `s, `pending
      ensures Scanning(j, base, cursor, 0, mem[..]) && cursor <= scanEnd && (pending.Some? ==> cursor + 64 <= scanEnd)
    {
      hide *;
      ghost var mm, seen := mem[..], fieldCounter.seen;
      ScanningIs(j, base, 0, 0, mm);
      CellBooksAre(j, o, m, s, a, 0, seen, base, bounds[0..], cellStart, mm, n);
      NothingPublished(j, o, m, s, a, seen, base, bounds[0..], cellStart, mm, n);
      var pad := NeutralPad(cfg);
      var prologue := HeadPaddedPrologue(mem, base, address, scanEnd, pad);
      VectorIs64();
      WordIs();
      cursor := 0;
      match prologue {
        case Aligned => needsAlignPrologue := false;
        case TooShort =>
          // Another try makes sense only if this step loads no vector.
          needsAlignPrologue := scanEnd < VECTOR_BYTES;
        case Vector(v, misalign) =>
          Realign(j, o, m, misalign, s);
          m := misalign;
          s := Shown(j, o, misalign);
          FeedsIs(j, o, m, s);
          PadsAre(cfg, pad, misalign);
          HeadVector(j, o, misalign, mm, v);
          VectorHeld(j, o, m, s, 0, v, WrappingSub(0, misalign));
          FreshCells(j, o, m, s, mm, n);
          var matches := MatchStructural(cfg, v);
          cursor := 64 - misalign;
          // Wrapped-negative base: lane `i` is offset `i - misalign`. The vector loop is sure to run.
          pending := Some(Held(matches.delim, matches.term, WrappingSub(0, misalign)));
          WrapsBack(misalign);
          needsAlignPrologue := false;
          UptoIs(0, m);
          NothingRuns(cfg, s);
      }
      IsScanning(j, base, cursor, 0, mm);
    }

    /** Emit one record from `bounds[at..]`; the last field ends at the first byte of its terminator run. */
    method EmitRecord(ghost j: Job, mem: array<byte>, base: nat, at: nat, cs0: nat, ghost h: nat, ghost start: nat)
      returns (r: Record, cs: nat, runStart: nat, ghost b: nat, ghost x: nat, ghost re: nat, ghost fields: Record)
      requires at <= |bounds| && n <= |bounds| - at && cs0 == start && j.cfg == cfg
      requires CellList(j, o, s, a, h, base, bounds[at..], start, mem[..], n) && (!hasRuns ==> Calm(cfg, s, a, h))
      ensures n >= 1 && o <= base && b <= x <= |s| && RecordDone(cfg, s, a, h, n, b, x, re, fields, bounds[at..][n - 1..], base - o)
      ensures r == fields + [s[b..x]] && cs + (base - o) == re + 1 && runStart + (base - o) == x
    {
      hide *;
      ghost var mm, d := mem[..], base - o;
      ghost var all := bounds[at..];
      CellListParts(j, o, s, a, h, base, all, start, mm, n);
      SupportedIsValid(cfg);
      EnterRecord(cfg, s, a, h, n, all, d);
      r, cs := [], cs0;
      var i := 0;
      assert all[0..] == all;
      while i < n - 1
        invariant 0 <= i <= n - 1 && cs + d >= 0
        invariant InRecord(cfg, s, a, h, n, i, cs + d, r, all[i..], d)
        invariant a <= cs + d
      {
        var bound := bounds[at + i];
        NextCell(cfg, s, a, h, n, i, cs + d, r, all[i..], d);
        assert all[i..][0] == bound && all[i..][1..] == all[i + 1..];
        DelimCell(j, o, s, a, h, n, i, cs + d, r, all[i..], d);
        CellIsBytes(j, o, s, a, mm, base, cs, bound);
        assert mem[base + cs..base + bound] == mm[base + cs..base + bound];
        r := r + [mem[base + cs..base + bound]];
        cs := bound + 1;
        i := i + 1;
      }
      b, fields := cs + d, r;
      x, re := LastCell(cfg, s, a, h, n, b, fields, all[n - 1..], d);
      RecordDoneIs(cfg, s, a, h, n, b, x, re, fields, all[n - 1..], d);
      RecordScanned(j, o, s, a, h, n, b, x, re, fields, all[n - 1..], d, 0, None);
      var bound := bounds[at + (n - 1)];
      assert all[n - 1..][0] == bound;
      RunInInput(j, o, s, a, n, x, re);
      if hasRuns {
        runStart := StripRun(mem, base, cs, bound, x - d, j, o, s, a, re);
      } else {
        // No runs yet, so the boundary is the field's end.
        CalmRun(cfg, s, a, h, x);
        runStart := bound;
      }
      CellIsBytes(j, o, s, a, mm, base, cs, runStart);
      assert mem[base + cs..base + runStart] == mm[base + cs..base + runStart];
      r := r + [mem[base + cs..base + runStart]];
      cs := bound + 1;
    }

    /** From a run's last byte back to its first, not before the field. */
    method StripRun(mem: array<byte>, base: nat, cs: nat, bound: nat, ghost want: int, ghost j: Job, ghost o: nat, ghost s: seq<byte>, ghost a: nat, ghost re: nat) returns (end: nat)
      requires Shows(j, o, s) && Unread(mem[..], j.data, o + a) && o <= base && a <= cs + (base - o) && j.cfg == cfg
      requires cs <= want <= bound && bound + (base - o) == re < |s| && o + re <= |j.data| && (want < bound ==> o + re < |j.data|)
      requires (forall i :: cs + (base - o) <= i < want + (base - o) ==> !cfg.IsTerm(s[i])) && (forall i :: want + (base - o) <= i <= re ==> cfg.IsTerm(s[i]))
      ensures end == want
    {
      hide *;
      ghost var mm, d := mem[..], base - o;
      UnreadIs(mm, j.data, o + a);
      end := bound;
      RunByte(mm, j, o, s, a, base, cs, end, want, re);
      while end > cs && cfg.IsTerm(mem[base + end - 1])
        invariant want <= end <= bound && (want < end ==> cfg.IsTerm(mem[base + end - 1]))
        invariant end == want && cs < end ==> !cfg.IsTerm(mem[base + end - 1])
      {
        end := end - 1;
        RunByte(mm, j, o, s, a, base, cs, end, want, re);
      }
    }

    /** The byte before `end` is a terminator inside the run, and none at its start. */
    lemma RunByte(mem: seq<byte>, j: Job, o: nat, s: seq<byte>, a: nat, base: nat, cs: nat, end: nat, want: int, re: nat)
      requires Shows(j, o, s) && Unread(mem, j.data, o + a) && o <= base && a <= cs + (base - o) && j.cfg == cfg
      requires cs <= want <= end && end + (base - o) <= re < |s| && o + re <= |j.data| && (want < end ==> o + re < |j.data|)
      requires (forall i :: cs + (base - o) <= i < want + (base - o) ==> !cfg.IsTerm(s[i])) && (forall i :: want + (base - o) <= i <= re ==> cfg.IsTerm(s[i]))
      ensures |mem| == |j.data|
      ensures want < end ==> cfg.IsTerm(mem[base + end - 1])
      ensures end == want && cs < end ==> !cfg.IsTerm(mem[base + end - 1])
    {
      hide *;
      UnreadIs(mem, j.data, o + a);
      var d := base - o;
      if cs < end {
        CellIsBytes(j, o, s, a, mem, base, end - 1, end);
        assert mem[base + (end - 1)..base + end][0] == s[end - 1 + d..end + d][0];
      }
    }

    /** Emit one record and take stock: it is refused, it crosses the boundary, or the next one follows. */
    method EmitNext(ghost j: Job, mem: array<byte>, base: nat, at: nat, cs0: nat, rem: nat, ghost h: nat, ghost bnd: nat, ghost last: Option<nat>)
      returns (ok: bool, r: Record, cs: nat, runStart: nat)
      requires at <= |bounds| && n <= |bounds| - at && j.cfg == cfg && j.accept == accept && o + a <= |j.data| && (last.Some? ==> last.value < o + a)
      requires CellList(j, o, s, a, h, base, bounds[at..], cs0, mem[..], n) && (!hasRuns ==> Calm(cfg, s, a, h))
      requires bnd <= |j.data| && rem == if bnd < base then 0 else bnd - base
      modifies `a
      ensures n >= 1 && cs == bounds[at + n - 1] + 1 && runStart < cs && base + cs <= o + h
      ensures ok == accept(r)
      ensures !ok ==> Doomed(j, o, old(a)) && Remains(j, o, old(a), bnd, last) == Err([], Rejected(r)) && (o + h <= |j.data| ==> CloseWithin(j, o, old(a), h, 1))
      ensures ok && rem < cs ==> Remains(j, o, old(a), bnd, last) == Ok([r], Some(Max(bnd, base + runStart)))
      ensures ok && cs <= rem ==>
        && CellList(j, o, s, a, h, base, bounds[at + n..], cs, mem[..], n) && base + runStart < o + a && (!hasRuns ==> Calm(cfg, s, a, h))
        && Keeps(j, o, old(a), last, a, Some(base + runStart), bnd, [r])
    {
      hide *;
      ghost var bs, mm, d, a0 := bounds[at..], mem[..], base - o, a;
      CellListParts(j, o, s, a, h, base, bs, cs0, mm, n);
      ghost var b, x, re, fields;
      r, cs, runStart, b, x, re, fields := EmitRecord(j, mem, base, at, cs0, h, cs0);
      RecordDoneIs(cfg, s, a, h, n, b, x, re, fields, bs[n - 1..], d);
      RecordLeaves(j, o, s, a, h, n, b, x, re, fields, bs[n - 1..], d, bnd, last);
      assert bs[n - 1..][0] == bs[n - 1] == bounds[at + n - 1];
      ok := accept(r);
      if !ok && o + h <= |j.data| {
        CloseByThen(j, o, a, re + 1, h, 1, 1);
      }
      if ok && cs <= rem {
        KeepsIs(j, o, a, last, re + 1, Some(o + x), bnd, [r]);
        CellsAfter(j, o, s, a, h, base, bs, cs0, mm, n, b, x, re, fields, bs[n - 1..]);
        assert bs[n..] == bounds[at + n..];
        if !hasRuns {
          CalmLater(cfg, s, a, re + 1, h);
        }
        a := re + 1;
      }
    }

    /**
     * Emit `count` records, striding by `n` from the running cell start. `cs` is the consume
     * cursor behind the last one, `runStart` where its terminator run starts.
     */
    method EmitRecords(ghost j: Job, mem: array<byte>, base: nat, head: nat, count: nat, ghost stop: bool, rem: nat, ghost h: nat, ghost bnd: nat)
      returns (failure: Option<Failure>, cs: nat, runStart: nat, emitted: seq<Record>, next: nat)
      requires head <= |bounds| && j.cfg == cfg && j.accept == accept && o + a <= |j.data| && (lastRecordEnd.Some? ==> lastRecordEnd.value < o + a)
      requires CellList(j, o, s, a, h, base, bounds[head..], cellStart, mem[..], n) && (!hasRuns ==> Calm(cfg, s, a, h))
      requires Before(bounds[head..], n, count, rem, stop) && bnd <= |j.data| && rem == if bnd < base then 0 else bnd - base
      modifies `a
      ensures failure.Some? ==> failure.value.Rejected? && Founders(j, o, old(a), lastRecordEnd, bnd, emitted, failure.value)
      ensures failure.Some? && o + h <= |j.data| ==> CloseWithin(j, o, old(a), h, |emitted| + 1)
      ensures failure.None? ==> (stop <==> rem < cs)
      ensures failure.None? && stop ==> Remains(j, o, old(a), bnd, lastRecordEnd) == Ok(emitted, Some(Max(bnd, base + runStart)))
      ensures failure.None? ==> base + runStart < o + h && base + cs <= o + h && (!stop || count == 1 ==> Strode(head, count, n, next))
      ensures failure.None? && !stop ==>
        && head < next <= |bounds| && CellList(j, o, s, a, h, base, bounds[next..], cs, mem[..], n) && base + runStart < o + a
        && (!hasRuns ==> Calm(cfg, s, a, h))
        && Keeps(j, o, old(a), lastRecordEnd, a, Some(base + runStart), bnd, emitted)
    {
      hide *;
      ghost var a0, last: Option<nat> := a, lastRecordEnd;
      var at, i := head, 0;
      cs, runStart, emitted := cellStart, cellStart, [];
      KeepsNothing(j, o, a, lastRecordEnd, bnd);
      BeforeIs(bounds[head..], n, count, rem, stop);
      while i < count
        invariant i <= count && head <= at <= |bounds| && at == head + i * n && n >= 1
        invariant CellList(j, o, s, a, h, base, bounds[at..], cs, mem[..], n) && (!hasRuns ==> Calm(cfg, s, a, h))
        invariant i < count ==> Before(bounds[at..], n, count - i, rem, stop)
        invariant i == count ==> !stop && cs <= rem && last == Some(base + runStart)
        invariant i > 0 ==> runStart < cs && base + cs <= o + h
        invariant o + a <= |j.data| && (last.Some? ==> last.value < o + a) && Keeps(j, o, a0, lastRecordEnd, a, last, bnd, emitted)
      {
        ghost var a1, bs, done := a, bounds[at..], emitted;
        BeforeIs(bs, n, count - i, rem, stop);
        var ok, r;
        ok, r, cs, runStart := EmitNext(j, mem, base, at, cs, rem, h, bnd, last);
        if !ok {
          RefusedAfter(j, o, a0, lastRecordEnd, a1, last, bnd, done, Rejected(r), h);
          return Some(Rejected(r)), cs, runStart, emitted, at;
        }
        assert bs[n - 1] == bounds[at + n - 1] && bs[n..] == bounds[at + n..];
        emitted := emitted + [r];
        if rem < cs {
          if count == 1 {
            HasStrode(head, count, n, at + n);
          }
          StopsThere(j, o, a0, lastRecordEnd, a1, last, bnd, done, [r], base + runStart);
          return None, cs, runStart, emitted, at + n;
        }
        KeepsMore(j, o, a0, lastRecordEnd, a1, last, a, Some(base + runStart), bnd, done, [r]);
        KeepsIs(j, o, a1, last, a, Some(base + runStart), bnd, [r]);
        CountedUp(head, i, n);
        last := Some(base + runStart);
        at, i := at + n, i + 1;
      }
      failure, next := None, at;
      HasStrode(head, count, n, next);
    }

    /** Emit the complete records up to the first that crosses the chunk boundary. */
    method Flush(ghost j: Job, mem: array<byte>, base: nat, head: nat, cursor: nat, rem: nat, ghost bnd: nat)
      returns (out: Option<StepResult>, head': nat, emitted: seq<Record>)
      requires Scanning(j, base, cursor, head, mem[..]) && pending.Some? && bnd <= |j.data| && rem == if bnd < base then 0 else bnd - base
      modifies `cellStart, `lastRecordEnd, `a
      ensures out.None? ==> head <= head' && Scanning(j, base, cursor, head', mem[..]) && Keeps(j, o, old(a), old(lastRecordEnd), a, lastRecordEnd, bnd, emitted)
      ensures out.Some? ==> EndsWith(j, o, old(a), old(lastRecordEnd), bnd, emitted, out.value, base + cursor)
      ensures out.Some? && out.value.Done? ==> bnd <= out.value.end < base + cursor
    {
      hide *;
      ghost var mm, seen, a0, last0 := mem[..], fieldCounter.seen, a, lastRecordEnd;
      ScanningIs(j, base, cursor, head, mm);
      ghost var bs, h, cs0 := bounds[head..], Upto(k, m), cellStart;
      CellBooksAre(j, o, m, s, a, k, seen, base, bs, cellStart, mm, n);
      CellsAscend(j, o, s, a, h, base, bs, cellStart, mm, n);
      KeepsNothing(j, o, a, lastRecordEnd, bnd);
      var count, stop := ChooseCount(head, rem);
      if count == 0 {
        return None, head, [];
      }
      var failure, cs, runStart, records, next := EmitRecords(j, mem, base, head, count, stop, rem, h, bnd);
      if failure.Some? {
        RefusedInTime(j, o, a0, h, last0, bnd, records, failure.value, base + cursor);
        return Some(Failed(failure.value)), head, records;
      }
      cellStart := cs;
      var end := base + Handoff(runStart, rem, stop);
      HandoffIsEnd(base, o, base + runStart - o, runStart, rem, bnd);
      lastRecordEnd := Some(end);
      emitted := records;
      head' := next;
      if stop {
        IsDone(j, o, a0, last0, bnd, emitted, end, base + cursor);
        MaxBelow(bnd, base + runStart, base + cursor);
        return Some(Done(end)), head', emitted;
      }
      KeepsIs(j, o, a0, last0, a, lastRecordEnd, bnd, emitted);
      CellBooksParts(j, o, m, s, a, k, seen, base, bounds[head'..], cellStart, mm, n);
      CellBooksParts(j, o, m, s, a0, k, seen, base, bs, cs0, mm, n);
      IsScanning(j, base, cursor, head', mm);
      out := None;
    }

    /** How many records to emit, and whether the last of them crosses the boundary. */
    method ChooseCount(head: nat, rem: nat) returns (count: nat, stop: bool)
      requires head <= |bounds| && n >= 1 && Sorted(bounds[head..])
      ensures count >= 1 ==> Before(bounds[head..], n, count, rem, stop)
    {
      hide Before, Sorted;
      var avail := (|bounds| - head) / n;
      if avail == 0 {
        return 0, false;
      }
      ghost var bs := bounds[head..];
      Divides(|bs|, n, avail);
      OneLess(avail, n);
      // The boundary lies behind the buffer: one record, and stop.
      if rem == 0 {
        count, stop := 1, true;
        ChosenBefore(bs, n, 1, n, rem, true);
      } else if bounds[head + avail * n - 1] < rem {
        count, stop := avail, false;
        assert bs[avail * n - 1] == bounds[head + avail * n - 1];
        ChosenBefore(bs, n, avail, avail * n, rem, false);
      } else {
        count, stop := 1, true;
        ghost var i := n;
        AtMost(1, avail, n);
        while bounds[head + count * n - 1] < rem
          invariant 1 <= count <= avail && i == count * n && n <= i <= avail * n
          invariant count > 1 ==> i > n && bs[i - n - 1] < rem
          decreases avail - count
        {
          assert bs[i - 1] == bounds[head + count * n - 1];
          OneLess(count + 1, n);
          count := count + 1;
          i := i + n;
          AtMost(count, avail, n);
        }
        assert bs[i - 1] == bounds[head + count * n - 1];
        ChosenBefore(bs, n, count, i, rem, true);
      }
    }

    /** Drop the emitted prefix. */
    method Compact(ghost j: Job, ghost mem: seq<byte>, ghost base: nat, ghost cursor: nat, head: nat)
      requires Scanning(j, base, cursor, head, mem)
      modifies `bounds
      ensures Scanning(j, base, cursor, 0, mem)
    {
      hide *;
      ScanningIs(j, base, cursor, head, mem);
      bounds := bounds[head..];
      assert bounds[0..] == bounds;
      IsScanning(j, base, cursor, 0, mem);
    }

    /** The vector loop: hold, publish, and emit in batches. */
    method ScanLoop(ghost j: Job, mem: array<byte>, base: nat, from: nat, scanEnd: nat, rem: nat, ghost bnd: nat)
      returns (out: Option<StepResult>, cursor: nat, head: nat, emitted: seq<Record>)
      requires Scanning(j, base, from, 0, mem[..]) && base + scanEnd <= mem.Length && mem.Length + 128 <= WORD && from <= scanEnd
      requires pending.Some? && from < 64 ==> from + 64 <= scanEnd
      requires bnd <= |j.data| && rem == if bnd < base then 0 else bnd - base
      modifies `bounds, `hasRuns, `k, `pending, `cellStart, `lastRecordEnd, `a, fieldCounter
      ensures out.None? ==> Scanning(j, base, cursor, head, mem[..]) && Keeps(j, o, old(a), old(lastRecordEnd), a, lastRecordEnd, bnd, emitted)
      ensures out.None? ==> cursor <= scanEnd < cursor + 64 && (pending.Some? ==> 64 <= cursor)
      ensures out.Some? ==> EndsWith(j, o, old(a), old(lastRecordEnd), bnd, emitted, out.value, base + scanEnd)
      ensures out.Some? && out.value.Done? ==> bnd <= out.value.end < base + scanEnd
    {
      hide *;
      ghost var a0, last0 := a, lastRecordEnd;
      out, cursor, head, emitted := None, from, 0, [];
      ScanningIs(j, base, from, 0, mem[..]);
      CellBooksAre(j, o, m, s, a, k, fieldCounter.seen, base, bounds[0..], cellStart, mem[..], n);
      KeepsNothing(j, o, a, lastRecordEnd, bnd);
      while cursor + 64 <= scanEnd
        invariant Scanning(j, base, cursor, head, mem[..]) && Keeps(j, o, a0, last0, a, lastRecordEnd, bnd, emitted)
        invariant out.None? && cursor <= scanEnd && (pending.Some? && cursor < 64 ==> cursor + 64 <= scanEnd)
        decreases scanEnd - cursor
      {
        ScanningIs(j, base, cursor, head, mem[..]);
        ghost var k0, seen0, bs0, at0 := k, fieldCounter.seen, bounds[head..], cursor;
        KeepsIs(j, o, a0, last0, a, lastRecordEnd, bnd, emitted);
        CellBooksAre(j, o, m, s, a, k0, seen0, base, bs0, cellStart, mem[..], n);
        var ok := LoadVector(j, mem, base, cursor, head);
        cursor := cursor + 64;
        if !ok {
          MisalignedIs(cfg, s, a, n, base + at0 - o);
          var f := ArityError(cfg, j, o, s, a, n, mem, base, cellStart, scanEnd, base + at0 - o);
          KeptThenFailed(j, o, a0, last0, a, lastRecordEnd, bnd, emitted, f, base + scanEnd);
          return Some(Failed(f)), cursor, head, emitted;
        }
        ScanningIs(j, base, cursor, head, mem[..]);
        if |bounds| - head < EMIT_BATCH_FIELDS {
          continue;
        }
        ghost var a1, last1 := a, lastRecordEnd;
        var more;
        out, head, more := Flush(j, mem, base, head, cursor, rem, bnd);
        if out.Some? {
          EndsLater(j, o, a0, last0, a1, last1, bnd, emitted, more, out.value, base + cursor, base + scanEnd);
          return out, cursor, head, emitted + more;
        }
        KeepsMore(j, o, a0, last0, a1, last1, a, lastRecordEnd, bnd, emitted, more);
        emitted := emitted + more;
        if head >= COMPACT_THRESHOLD {
          Compact(j, mem[..], base, cursor, head);
          head := 0;
        }
      }
    }

    /** Step over the vectors up to `scanEnd`. `address` is where the buffer lies in memory. */
    method Step(ghost j: Job, mem: array<byte>, ctx: StepCtx, address: nat, ghost bnd: nat) returns (res: StepResult, emitted: seq<Record>)
      requires Resting(j, ctx.base, ctx.scanStart, mem[..]) && ctx.scanStart <= ctx.scanEnd
      requires ctx.base + ctx.scanEnd <= mem.Length && mem.Length + 128 <= WORD && bnd <= |j.data|
      requires ctx.remainingInChunk == if bnd < ctx.base then 0 else bnd - ctx.base
      modifies this, fieldCounter
      ensures res.Suspended? ==>
        && Resting(j, ctx.base, res.resumeAt, mem[..])
        && res.consumable == cellStart && res.consumable <= res.resumeAt <= ctx.scanEnd < res.resumeAt + 64 && res.lastRecordEnd == lastRecordEnd
        && Keeps(j, o, old(a), old(lastRecordEnd), a, lastRecordEnd, bnd, emitted)
      ensures !res.Suspended? ==> EndsWith(j, o, old(a), old(lastRecordEnd), bnd, emitted, res, ctx.base + ctx.scanEnd)
      ensures res.Done? ==> bnd <= res.end < ctx.base + ctx.scanEnd
    {
      hide *;
      var base, from := ctx.base, ctx.scanStart;
      ghost var a0, last0 := a, lastRecordEnd;
      RestingIs(j, base, from, mem[..]);
      if needsAlignPrologue && from == 0 && pending.None? {
        from := AlignPrologue(j, mem, base, address, ctx.scanEnd);
      }
      var out, cursor, head, more := ScanLoop(j, mem, base, from, ctx.scanEnd, ctx.remainingInChunk, bnd);
      emitted := more;
      if out.Some? {
        EndsWithIs(j, o, a0, last0, bnd, emitted, out.value, base + ctx.scanEnd);
        return out.value, emitted;
      }
      ScanningIs(j, base, cursor, head, mem[..]);
      CellBooksAre(j, o, m, s, a, k, fieldCounter.seen, base, bounds[head..], cellStart, mem[..], n);
      // Emit what the last vectors of this step completed.
      if |bounds| - head >= n {
        ghost var a1, last1 := a, lastRecordEnd;
        SomethingHeld(j, base, cursor, head, mem[..]);
        out, head, more := Flush(j, mem, base, head, cursor, ctx.remainingInChunk, bnd);
        if out.Some? {
          EndsLater(j, o, a0, last0, a1, last1, bnd, emitted, more, out.value, base + cursor, base + ctx.scanEnd);
          EndsWithIs(j, o, a0, last0, bnd, emitted + more, out.value, base + ctx.scanEnd);
          return out.value, emitted + more;
        }
        KeepsMore(j, o, a0, last0, a1, last1, a, lastRecordEnd, bnd, emitted, more);
        emitted := emitted + more;
      }
      ScanningIs(j, base, cursor, head, mem[..]);
      if head != 0 {
        Compact(j, mem[..], base, cursor, head);
      }
      IsResting(j, base, cursor, mem[..]);
      LimitBehind(j, base, cursor, mem[..]);
      res := Suspended(cursor, cellStart, lastRecordEnd);
    }

    /** Boundaries are only pending once a vector was published, and then another one is held. */
    lemma SomethingHeld(j: Job, base: nat, cursor: nat, head: nat, mem: seq<byte>)
      requires Scanning(j, base, cursor, head, mem) && head < |bounds|
      ensures pending.Some?
    {
      hide *;
      ScanningIs(j, base, cursor, head, mem);
      var rest := bounds[head..];
      assert |rest| > 0;
      if pending.None? {
        NothingPublished(j, o, m, s, a, fieldCounter.seen, base, rest, cellStart, mem, n);
      }
    }

    /** The record in flight starts no later than the held vector. */
    lemma LimitBehind(j: Job, base: nat, cursor: nat, mem: seq<byte>)
      requires Scanning(j, base, cursor, 0, mem)
      ensures cellStart <= cursor && (pending.Some? && 64 <= cursor ==> cellStart + 64 <= cursor)
      ensures o + a == base + cellStart && |mem| == |j.data| && base + cursor <= |mem| && Unread(mem, j.data, o + a)
    {
      hide *;
      ScanningIs(j, base, cursor, 0, mem);
      CellBooksAre(j, o, m, s, a, k, fieldCounter.seen, base, bounds[0..], cellStart, mem, n);
    }

    /** Account for consumed buffer bytes: every offset shifts. */
    method Consume(ghost j: Job, ghost base: nat, ghost at: nat, ghost mem: seq<byte>, c: nat)
      requires Resting(j, base, at, mem) && c <= cellStart && at < WORD
      modifies `cellStart, `pending, `bounds
      ensures at >= c && Resting(j, base + c, at - c, mem) && cellStart == old(cellStart) - c
    {
      hide *;
      RestingIs(j, base, at, mem);
      ScanningIs(j, base, at, 0, mem);
      LimitBehind(j, base, at, mem);
      ghost var bs, start := bounds[0..], cellStart;
      assert bs == bounds;
      SaturatingIs(cellStart, c);
      cellStart := Saturating(cellStart, c);
      if pending.Some? {
        PlainSub(at);
        PlainSub(at - c);
        SaturatingIs(pending.value.base, c);
        HeldShift(cfg, s, 64 * k - m, pending.value, Saturating(pending.value.base, c));
        pending := Some(pending.value.(base := Saturating(pending.value.base, c)));
      }
      bounds := SaturatingSub(bounds, c);
      assert bounds[0..] == bounds;
      CellsConsumed(j, o, m, s, a, k, fieldCounter.seen, base, bs, bounds, start, mem, n, c);
      IsScanning(j, base + c, at - c, 0, mem);
      IsResting(j, base + c, at - c, mem);
    }

    /** At the end of the input there is something left in the buffer, and its last byte is the input's. */
    lemma AtTail(j: Job, base: nat, cursor: nat, mem: seq<byte>)
      requires Resting(j, base, cursor, mem) && base < |mem| && |mem| < base + cursor + 64
      ensures o + a < |j.data| == |mem| && o <= base + cursor && o + a <= base + cursor <= |j.data|
      ensures Unread(mem, j.data, o + a) && cursor + base + m == o + 64 * (k + HeldCount())
      ensures Unterminated(j, o) <==> !cfg.IsTerm(mem[|mem| - 1])
      ensures o <= |j.data| && |Vectors(j, o, m)| == m + |s| && m < 64
    {
      hide *;
      RestingIs(j, base, cursor, mem);
      ScanningIs(j, base, cursor, 0, mem);
      CellBooksAre(j, o, m, s, a, k, fieldCounter.seen, base, bounds[0..], cellStart, mem, n);
      LimitBehind(j, base, cursor, mem);
      LastByte(j, o, a, mem);
    }

    /** Publish one vector of the tail; a rejection names a record of the input. */
    method PublishTail(ghost j: Job, held: Held, next: bool, mem: array<byte>, base: nat, ghost cursor: nat, scanEnd: nat) returns (failure: Option<Failure>)
      requires j.cfg == cfg && fieldCounter.n == n && fieldCounter.Valid()
      requires CellBooks(j, o, m, s, a, k, fieldCounter.seen, base, bounds, cellStart, mem[..], n) && 64 * k + 64 <= m + |s|
      requires !hasRuns ==> Calm(cfg, s, a, Upto(k, m))
      requires HeldAt(cfg, s, 64 * k - m, held) && next == Term(cfg, s, 64 * k - m + 64)
      requires cursor + base + m == o + 64 * (k + 1) && held.base == WrappingSub(cursor, 64) && cursor + 128 <= WORD
      requires base + scanEnd == mem.Length
      modifies `bounds, `hasRuns, `k, fieldCounter
      ensures failure.None? ==> fieldCounter.Valid() && k == old(k) + 1 && (!hasRuns ==> Calm(cfg, s, a, Upto(k, m)))
      ensures failure.None? ==> CellBooks(j, o, m, s, a, k, fieldCounter.seen, base, bounds, cellStart, mem[..], n)
      ensures failure.Some? ==> Doomed(j, o, a) && Placed(j, o, failure.value) && failure.value.NumberOfFields?
    {
      hide *;
      ghost var mm, k0 := mem[..], k;
      CellBooksAre(j, o, m, s, a, k, fieldCounter.seen, base, bounds, cellStart, mm, n);
      assert bounds[0..] == bounds;
      var ok := Publish(j, held, next, base, cursor, 0, mm);
      assert bounds[0..] == bounds;
      failure := None;
      if !ok {
        MisalignedIs(cfg, s, a, n, 64 * k0 + 64 - m);
        var f := ArityError(cfg, j, o, s, a, n, mem, base, cellStart, scanEnd, 64 * k0 + 64 - m);
        failure := Some(f);
      }
    }

    /** The tail's raw matches, if there is a tail; a terminator is spliced in when the last byte is none. */
    method BuildHeldTail(ghost j: Job, mem: array<byte>, base: nat, cursor: nat, scanEnd: nat) returns (tail: Option<Held>)
      requires Resting(j, base, cursor, mem[..]) && cursor <= scanEnd < cursor + 64 && base < mem.Length
      requires base + scanEnd == mem.Length && mem.Length + 192 <= WORD
      ensures var f := k + HeldCount();
              if tail.Some? then 64 * f + 64 == m + |s| && HeldAt(cfg, s, 64 * f - m, tail.value) && tail.value.base == cursor
              else 64 * f == m + |s|
    {
      hide *;
      ghost var mm, f := mem[..], k + HeldCount();
      AtTail(j, base, cursor, mm);
      RestingIs(j, base, cursor, mm);
      ScanningIs(j, base, cursor, 0, mm);
      CellBooksAre(j, o, m, s, a, k, fieldCounter.seen, base, bounds[0..], cellStart, mm, n);
      var virtual := scanEnd > 0 && !cfg.IsTerm(mem[base + scanEnd - 1]);
      if cursor < scanEnd || virtual {
        var v := BuildTail(cfg, mem, base, cursor, scanEnd, virtual);
        assert mem[base + cursor..base + scanEnd] == mm[base + cursor..];
        TailVector(j, o, m, f, mm, a, base + cursor, virtual, v);
        VectorHeld(j, o, m, s, f, v, cursor);
        var matches := MatchStructural(cfg, v);
        tail := Some(Held(matches.delim, matches.term, cursor));
      } else {
        NoTail(j, o, m, f);
        tail := None;
      }
    }

    /** The held vector first, then the tail: with both published the whole stream is listed. */
    method PublishLast(ghost j: Job, mem: array<byte>, base: nat, cursor: nat, scanEnd: nat) returns (failure: Option<Failure>)
      requires Resting(j, base, cursor, mem[..]) && cursor <= scanEnd < cursor + 64 && base < mem.Length
      requires base + scanEnd == mem.Length && mem.Length + 192 <= WORD
      modifies `bounds, `hasRuns, `k, `pending, fieldCounter
      ensures j.cfg == cfg && j.accept == accept && o + a <= |j.data| && (lastRecordEnd.Some? ==> lastRecordEnd.value < o + a)
      ensures failure.None? ==> CellList(j, o, s, a, |s|, base, bounds, cellStart, mem[..], n) && (!hasRuns ==> Calm(cfg, s, a, |s|))
      ensures failure.Some? ==> Doomed(j, o, a) && Placed(j, o, failure.value) && failure.value.NumberOfFields?
    {
      hide *;
      ghost var mm, f := mem[..], k + HeldCount();
      AtTail(j, base, cursor, mm);
      RestingIs(j, base, cursor, mm);
      ScanningIs(j, base, cursor, 0, mm);
      CellBooksAre(j, o, m, s, a, k, fieldCounter.seen, base, bounds[0..], cellStart, mm, n);
      assert bounds[0..] == bounds;
      var tail := BuildHeldTail(j, mem, base, cursor, scanEnd);
      NoTermPast(cfg, s);
      if tail.Some? {
        HeldAtIs(cfg, s, 64 * f - m, tail.value);
      }
      if pending.Some? {
        var held := pending.value;
        pending := None;
        failure := PublishTail(j, held, tail.Some? && tail.value.term[0], mem, base, cursor, scanEnd);
        if failure.Some? {
          return;
        }
      }
      if tail.Some? {
        UnwrapSub(cursor);
        failure := PublishTail(j, tail.value, false, mem, base, cursor + 64, scanEnd);
        if failure.Some? {
          return;
        }
      }
      CellBooksAre(j, o, m, s, a, k, fieldCounter.seen, base, bounds, cellStart, mm, n);
      failure := None;
    }

    /** Emit the remaining records one at a time, so that the boundary can stop after any of them. */
    method FinishRecords(ghost j: Job, mem: array<byte>, base: nat, rem: nat, ghost bnd: nat) returns (failure: Option<Failure>, emitted: seq<Record>)
      requires j.cfg == cfg && j.accept == accept && o + a <= |j.data| && (lastRecordEnd.Some? ==> lastRecordEnd.value < o + a)
      requires CellList(j, o, s, a, |s|, base, bounds, cellStart, mem[..], n) && (!hasRuns ==> Calm(cfg, s, a, |s|))
      requires bnd <= |j.data| && rem == if bnd < base then 0 else bnd - base
      modifies `cellStart, `lastRecordEnd, `a
      ensures failure.Some? ==> Founders(j, o, old(a), old(lastRecordEnd), bnd, emitted, failure.value)
      ensures failure.None? ==> old(Remains(j, o, a, bnd, lastRecordEnd)) == Ok(emitted, lastRecordEnd)
    {
      hide *;
      ghost var a0, last0, mm := a, lastRecordEnd, mem[..];
      var head := 0;
      emitted := [];
      KeepsNothing(j, o, a, lastRecordEnd, bnd);
      CellListParts(j, o, s, a, |s|, base, bounds, cellStart, mm, n);
      assert bounds[0..] == bounds;
      while |bounds| - head >= n
        invariant 0 <= head <= |bounds| && n >= 1
        invariant CellList(j, o, s, a, |s|, base, bounds[head..], cellStart, mm, n) && (!hasRuns ==> Calm(cfg, s, a, |s|))
        invariant o + a <= |j.data| && (lastRecordEnd.Some? ==> lastRecordEnd.value < o + a)
        invariant Keeps(j, o, a0, last0, a, lastRecordEnd, bnd, emitted)
        decreases |bounds| - head
      {
        ghost var a1, last1 := a, lastRecordEnd;
        var one: nat := 1;
        ghost var crosses := rem <= bounds[head + n - 1];
        OneBefore(bounds[head..], n, one, rem, crosses);
        var cs, runStart, more, next;
        failure, cs, runStart, more, next := EmitRecords(j, mem, base, head, one, crosses, rem, |s|, bnd);
        if failure.Some? {
          FoundersLater(j, o, a0, last0, a1, last1, bnd, emitted, more, failure.value);
          return failure, emitted + more;
        }
        cellStart := cs;
        var stop := cellStart > rem;
        HandoffIsEnd(base, o, base + runStart - o, runStart, rem, bnd);
        lastRecordEnd := Some(base + Handoff(runStart, rem, stop));
        StrodeOne(head, one, n, next);
        head := next;
        if stop {
          StopsThere(j, o, a0, last0, a1, last1, bnd, emitted, more, base + runStart);
          return None, emitted + more;
        }
        KeepsMore(j, o, a0, last0, a1, last1, a, lastRecordEnd, bnd, emitted, more);
        KeepsIs(j, o, a1, last1, a, lastRecordEnd, bnd, more);
        emitted := emitted + more;
      }
      KeepsIs(j, o, a0, last0, a, lastRecordEnd, bnd, emitted);
      UsedUp(j, o, s, a, base, bounds[head..], cellStart, mm, n);
      RemainsAtEnd(j, o, a, bnd, lastRecordEnd);
      PrependOk(emitted, [], lastRecordEnd);
      assert emitted + [] == emitted;
      failure := None;
    }

    /** Flush the records still pending at the end of the input. */
    method Finalize(ghost j: Job, mem: array<byte>, ctx: StepCtx, ghost bnd: nat) returns (end: Option<nat>, failure: Option<Failure>, emitted: seq<Record>)
      requires Resting(j, ctx.base, ctx.scanStart, mem[..]) && ctx.scanStart <= ctx.scanEnd < ctx.scanStart + 64
      requires ctx.base + ctx.scanEnd == mem.Length && mem.Length + 192 <= WORD && bnd <= |j.data|
      requires ctx.remainingInChunk == if bnd < ctx.base then 0 else bnd - ctx.base
      modifies this, fieldCounter
      ensures failure.None? ==> old(o + a <= |j.data| && Remains(j, o, a, bnd, lastRecordEnd) == Ok(emitted, end))
      ensures failure.Some? ==> Founders(j, o, old(a), old(lastRecordEnd), bnd, emitted, failure.value)
    {
      hide *;
      var base, cursor, scanEnd := ctx.base, ctx.scanStart, ctx.scanEnd;
      RestingIs(j, base, cursor, mem[..]);
      LimitBehind(j, base, cursor, mem[..]);
      if scanEnd == 0 && cursor == 0 && pending.None? {
        RemainsAtEnd(j, o, a, bnd, lastRecordEnd);
        return lastRecordEnd, None, [];
      }
      failure := PublishLast(j, mem, base, cursor, scanEnd);
      if failure.Some? {
        FoundersEmpty(j, o, a, lastRecordEnd, bnd, failure.value);
        return None, failure, [];
      }
      failure, emitted := FinishRecords(j, mem, base, ctx.remainingInChunk, bnd);
      end := lastRecordEnd;
    }
  }

  lemma NoTermPast(c: Config, s: seq<byte>)
    ensures !Term(c, s, |s|)
  {
  }

  lemma OneBefore(bs: seq<nat>, n: nat, one: nat, rem: nat, stop: bool)
    requires one == 1 && 1 <= n <= |bs| && stop == (rem <= bs[n - 1])
    ensures Before(bs, n, one, rem, stop) && one * n == n
  {
  }

  lemma UsedUp(j: Job, o: nat, s: seq<byte>, a: nat, base: nat, bs: seq<nat>, start: nat, mem: seq<byte>, n: nat)
    requires CellList(j, o, s, a, |s|, base, bs, start, mem, n) && |bs| < n && o + a <= |j.data|
    ensures o + a == |j.data|
  {
    hide *;
    CellListParts(j, o, s, a, |s|, base, bs, start, mem, n);
    ShiftSame(bs, base - o);
    NoCellsLeft(j, o, s, a, n);
  }

  lemma WordIs()
    ensures WORD == 0x1_0000_0000_0000_0000
  {
  }

  /** What stops a later record stops the whole. */
  lemma StopsThere(j: Job, o: nat, a0: nat, last0: Option<nat>, a1: nat, last1: Option<nat>, bnd: nat, done: seq<Record>, more: seq<Record>, end: nat)
    requires Keeps(j, o, a0, last0, a1, last1, bnd, done) && o + a1 <= |j.data|
    requires Remains(j, o, a1, bnd, last1) == Ok(more, Some(Max(bnd, end)))
    ensures o + a0 <= |j.data| && Remains(j, o, a0, bnd, last0) == Ok(done + more, Some(Max(bnd, end)))
  {
    hide *;
    KeepsIs(j, o, a0, last0, a1, last1, bnd, done);
    PrependOk(done, more, Some(Max(bnd, end)));
  }

  lemma NothingRuns(c: Config, s: seq<byte>)
    ensures Calm(c, s, 0, 0)
  {
  }

  lemma UnwrapSub(cursor: nat)
    requires cursor + 128 <= WORD
    ensures WrappingSub(cursor + 64, 64) == cursor
  {
  }

  lemma PlainSub(at: nat)
    requires 64 <= at < WORD
    ensures WrappingSub(at, 64) == at - 64
  {
  }

  lemma WrapsBack(misalign: nat)
    requires 0 < misalign < 64
    ensures WrappingSub(64 - misalign, 64) == WrappingSub(0, misalign)
  {
  }

  lemma HeldShift(c: Config, s: seq<byte>, at: int, p: Held, base: nat)
    requires HeldAt(c, s, at, p)
    ensures HeldAt(c, s, at, p.(base := base))
  {
    HeldAtIs(c, s, at, p);
    hide Delim, Term;
  }

  /** A delimited field ends inside the input. */
  lemma DelimCell(j: Job, o: nat, s: seq<byte>, a: nat, h: nat, n: nat, k: nat, b: nat, fields: Record, bs: seq<nat>, d: int)
    requires Supported(j.cfg) && Shows(j, o, s) && InRecord(j.cfg, s, a, h, n, k, b, fields, bs, d) && k + 1 < n
    ensures |bs| >= 1 && o + bs[0] + d < |j.data|
  {
    hide *;
    var c := j.cfg;
    InRecordParts(c, s, a, h, n, k, b, fields, bs, d);
    var p := Classes(c, s, a, h);
    NotEmpty(n, p, k, Classes(c, s, b, h));
    var x, re := FirstCell(c, s, b, h);
    CellWalk.ShiftTail(bs, d, re, Positions(Bounds, c, s, re + 1, h));
    ClassAt(n, p, k, Classes(c, s, b, h), Term(c, s, x), Classes(c, s, re + 1, h));
    BoundIsInInput(j, o, s, x);
    DelimIsNotTerm(c, s, x);
  }

  /** A terminator run of more than one byte ends inside the input. */
  lemma RunInInput(j: Job, o: nat, s: seq<byte>, a: nat, n: nat, x: nat, re: nat)
    requires o + x == |j.data| || o + x <= o + re < |j.data|
    requires Supported(j.cfg) && Shows(j, o, s) && RecordAt(j.cfg, s, a, n) && a <= |s| && n >= 1 && x == RunOf(j.cfg, s, a, n) && x < |s| && re == Last(j.cfg, s, x)
    ensures o + re <= |j.data| && (x < re ==> o + re < |j.data|)
  {
    hide *;
    if o + x == |j.data| {
      LastInRange(j.cfg, s, x);
      NoRunBehind(j, o, s, x);
    }
  }

  lemma NoRunBehind(j: Job, o: nat, s: seq<byte>, x: nat)
    requires Supported(j.cfg) && Shows(j, o, s) && x < |s| && o + x == |j.data|
    ensures Last(j.cfg, s, x) == x
  {
  }

  lemma BeforeIs(bs: seq<nat>, n: nat, count: nat, rem: nat, stop: bool)
    requires Before(bs, n, count, rem, stop)
    ensures n >= 1 && count >= 1 && n <= |bs|
    ensures if count == 1 && stop then rem <= bs[n - 1] else bs[n - 1] < rem
    ensures count > 1 ==> Before(bs[n..], n, count - 1, rem, stop)
  {
  }

  /** The accumulator refuses the record behind those emitted. */
  lemma RefusedAfter(j: Job, o: nat, a0: nat, last0: Option<nat>, a1: nat, last1: Option<nat>, bnd: nat, emitted: seq<Record>, f: Failure, h: nat)
    requires Keeps(j, o, a0, last0, a1, last1, bnd, emitted) && Doomed(j, o, a1) && o + a1 <= |j.data|
    requires f.Rejected? && Remains(j, o, a1, bnd, last1) == Err([], f)
    requires o + h <= |j.data| ==> CloseWithin(j, o, a1, h, 1)
    ensures Founders(j, o, a0, last0, bnd, emitted, f)
    ensures o + h <= |j.data| ==> CloseWithin(j, o, a0, h, |emitted| + 1)
  {
    hide *;
    FoundersOnRefusal(j, o, a1, last1, bnd, f);
    FoundersLater(j, o, a0, last0, a1, last1, bnd, emitted, [], f);
    assert emitted + [] == emitted;
    if o + h <= |j.data| {
      KeepsIs(j, o, a0, last0, a1, last1, bnd, emitted);
      CloseWithinIs(j, o, a0, a1, |emitted|);
      CloseWithinIs(j, o, a1, h, 1);
      ClosingsSplit(j, o, o + a0, o + a1, o + h);
      IsCloseWithin(j, o, a0, h, |emitted| + 1);
    }
  }

  lemma RefusedInTime(j: Job, o: nat, a: nat, h: nat, last: Option<nat>, bnd: nat, emitted: seq<Record>, f: Failure, v: nat)
    requires Founders(j, o, a, last, bnd, emitted, f) && f.Rejected? && CloseWithin(j, o, a, h, |emitted| + 1) && o + h <= v <= |j.data|
    ensures EndsWith(j, o, a, last, bnd, emitted, Failed(f), v)
  {
    hide *;
    FoundersIs(j, o, a, last, bnd, emitted, f);
    CloseWithinIs(j, o, a, h, |emitted| + 1);
    ClosingsSplit(j, o, o + a, o + h, v);
    BreaksOffThere(emitted, f);
    IsFailed(j, o, a, last, bnd, emitted, f, v);
  }

  /** `count` records of `n` boundaries each lie between `head` and `next`. */
  predicate Strode(head: nat, count: nat, n: nat, next: nat) {
    next == head + count * n
  }

  lemma HasStrode(head: nat, count: nat, n: nat, next: nat)
    requires next == head + count * n
    ensures Strode(head, count, n, next)
  {
  }

  lemma StrodeOne(head: nat, count: nat, n: nat, next: nat)
    requires count == 1 && Strode(head, count, n, next)
    ensures next == head + n
  {
  }

  lemma CountedUp(head: nat, i: nat, n: nat)
    ensures head + i * n + n == head + (i + 1) * n
  {
  }

  lemma Divides(len: nat, n: nat, q: nat)
    requires n >= 1 && q == len / n
    ensures q * n <= len
  {
  }

  lemma AtMost(i: nat, k: nat, n: nat)
    requires i <= k
    ensures i * n <= k * n
  {
  }
}
