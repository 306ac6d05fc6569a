/** The quoted bit-parallel stepper: vectors in, offsets out, records assembled in place. */
module IndexStepper {
  import opened Dialect
  import opened Records
  import opened Masks
  import opened Stream
  import opened Segments
  import opened FieldWalk
  import opened FieldCount
  import opened Stride
  import opened Refinement
  import opened VectorScanner
  import opened InPlace
  import opened Index
  import opened Padding
  import opened LiveIndex
  import opened Flush
  import opened Endings
  import opened Batch
  import opened Select
  import opened Ledger
  import opened Stepper
  import opened BadRecord

  const EMIT_BATCH_FIELDS: nat := 128
  const COMPACT_THRESHOLD: nat := 2048

  class SimdIndexStepper {
    const cfg: Config
    const n: nat
    const accept: Record -> bool
    const scanner: Scanner
    const fieldCounter: FieldCounter
    var needsAlignPrologue: bool
    var needsChunkStartB: bool
    /** Begins, ends and removals found and not yet emitted, as buffer offsets. */
    var bOffs: seq<nat>
    var eOffs: seq<nat>
    var rOffs: seq<nat>
    /** Buffer offset of the oldest unemitted record: the consume limit. */
    var recordBufStart: nat
    var lastRecordEnd: Option<nat>

    /** Where the run starts, how many lanes of head padding it took, what the vectors show, and the oldest record. */
    ghost const o: nat
    ghost var m: nat
    ghost var s: seq<byte>
    ghost var a: nat

    constructor (cfg: Config, accept: Record -> bool, fastPext: bool, ghost j: Job, ghost o: nat)
      requires o <= |j.data| && Feeds(j, o, 0, Shown(j, o, 0)) && j.cfg == cfg && j.accept == accept
      ensures this.cfg == cfg && this.accept == accept && this.o == o && a == 0 && lastRecordEnd == None
      ensures fresh(scanner) && fresh(fieldCounter) && Resting(j, o, 0, j.data) && needsChunkStartB
    {
      hide *;
      FeedsIs(j, o, 0, Shown(j, o, 0));
      ArityLimit();
      this.cfg, this.accept := cfg, accept;
      n := cfg.fieldCount.value;
      scanner := new Scanner(cfg, Vectors(j, o, 0));
      fieldCounter := new FieldCounter(cfg.fieldCount.value, fastPext);
      needsAlignPrologue, needsChunkStartB := true, true;
      bOffs, eOffs, rOffs := [], [], [];
      recordBufStart := 0;
      lastRecordEnd := None;
      this.o, m, s, a := o, 0, Shown(j, o, 0), 0;
      new;
      SameUnread(j.data, o);
      FreshBooks(j, o, m, s, j.data, n);
      IsSound(j);
      IsFresh(j);
    }

    lemma IsFresh(j: Job)
      requires Sound(j) && needsChunkStartB && scanner.fed == 0 && bOffs == [] && m == 0 && lastRecordEnd == None && o <= |j.data|
      requires Books(j, o, 0, s, a, 0, fieldCounter.seen, o, Lists([0], eOffs, rOffs), recordBufStart, j.data, n)
      ensures Resting(j, o, 0, j.data)
    {
      hide Books, Sound;
      assert [0] + bOffs == [0];
    }

    /** Emit the complete records up to the first that crosses the chunk boundary. */
    method FlushRecords(ghost j: Job, mem: array<byte>, base: nat, head: nat, rHead: nat, resolvedEnd: nat, rem: nat, ghost h: nat, ghost bnd: nat)
      returns (out: Option<StepResult>, head': nat, rHead': nat, emitted: seq<Record>)
      requires head <= |bOffs| && head <= |eOffs| && rHead <= |rOffs| && o + a <= |j.data|
      requires Booked(j, o, s, a, h, base, Lists(bOffs[head..], eOffs[head..], rOffs[rHead..]), recordBufStart, mem[..], n)
      requires j.cfg == cfg && j.accept == accept && resolvedEnd + base == o + h && rem == if bnd < base then 0 else bnd - base
      requires (lastRecordEnd.Some? ==> lastRecordEnd.value < o + a) && Fenced(j, o, a, mem[..])
      modifies `recordBufStart, `lastRecordEnd, `a, mem
      ensures head <= head' <= |bOffs| && head' <= |eOffs| && rHead <= rHead' <= |rOffs| && o + a <= |j.data| && old(a) <= a
      ensures lastRecordEnd.Some? ==> lastRecordEnd.value < o + a
      ensures head' == head ==> rHead' == rHead
      ensures var before := old(Remains(j, o, a, bnd, lastRecordEnd));
              if out.None? then
                && Booked(j, o, s, a, h, base, Lists(bOffs[head'..], eOffs[head'..], rOffs[rHead'..]), recordBufStart, mem[..], n) && Fenced(j, o, a, mem[..])
                && before == Prepend(emitted, Remains(j, o, a, bnd, lastRecordEnd)) && CloseWithin(j, o, old(a), a, |emitted|)
              else
                || (out.value.Done? && before == Ok(emitted, Some(out.value.end)) && bnd <= out.value.end < o + h)
                || (out.value.Failed? && before == Err(emitted, out.value.failure) && out.value.failure.Rejected? && CloseWithin(j, o, old(a), h, |emitted| + 1))
    {
      hide *;
      ghost var m0 := mem[..];
      var bs, es, rs := bOffs[head..], eOffs[head..], rOffs[rHead..];
      ghost var l := Lists(bs, es, rs);
      ghost var whole := Remains(j, o, a, bnd, lastRecordEnd);
      BookedIs(j, o, s, a, h, base, l, recordBufStart, m0, n);
      var count, stop, run := SelectBatch(cfg, mem, base, es, n, resolvedEnd, rem, j, o, s, a, h, base - o, l, bnd);
      ChosenIs(cfg, s, o, a, h, n, base - o, es, bnd, count, stop, run);
      if count == 0 {
        PrependNothing(whole);
        KeepsNothing(j, o, a, lastRecordEnd, bnd);
        KeepsIs(j, o, a, lastRecordEnd, a, lastRecordEnd, bnd, []);
        return None, head, rHead, [];
      }
      BatchLeaves(j, o, s, a, h, base, l, recordBufStart, m0, n, bnd, count, stop, run, lastRecordEnd);
      YieldsIs(j, o, s, a, base, bs, es, rs, m0, n, count, bnd, stop, lastRecordEnd);
      RemainsIs(j, o, a, bnd, lastRecordEnd);
      AllCloseIs(j, o, s, a, n, count);
      ghost var records := Assembled(m0, base, bs, es, rs, n, count);
      ghost var e := NthExtent(cfg, s, a, n, count - 1);
      var rejected;
      emitted, rejected := AssembleRecordsFixed(mem, base, n, bs, es, rs, count, accept);
      if rejected.Some? {
        RejectLeaves(j, o, whole, records, e, bnd, stop, emitted, rejected.value);
        CloseByThen(j, o, a, e.x + 1, h, count, |emitted| + 1);
        return Some(Failed(Rejected(rejected.value))), head, rHead, emitted;
      }
      var consumed := count * n;
      LaidIn(bs, es, consumed, |m0| - base);
      HandoffIsEnd(base, o, e.x, run.start, rem, bnd);
      var end := base + Handoff(run.start, rem, stop);
      if stop {
        StopLeaves(j, o, whole, records, e, bnd);
        MaxBelow(bnd, o + e.x, o + h);
        return Some(Done(end)), head, rHead, emitted;
      }
      GoLeaves(j, o, whole, records, e, bnd);
      ExtentPast(cfg, s, a, n, count - 1);
      CloseByThen(j, o, a, e.x + 1, e.re + 1, count, count);
      rHead' := AfterBatch(j, mem, base, head, rHead, h, bnd, m0, count, consumed, run, end);
      return None, head + consumed, rHead', emitted;
    }

    /** Account for an emitted batch: the removal cursor, the consume limit, the last record end. */
    method AfterBatch(ghost j: Job, ghost mem: array<byte>, ghost base: nat, head: nat, rHead: nat, ghost h: nat, ghost bnd: nat,
                      ghost m0: seq<byte>, ghost count: nat, consumed: nat, run: TermRun, end: nat) returns (rHead': nat)
      requires head <= |bOffs| && head <= |eOffs| && rHead <= |rOffs| && a <= |s| && n >= 1
      requires Booked(j, o, s, a, h, base, Lists(bOffs[head..], eOffs[head..], rOffs[rHead..]), recordBufStart, m0, n) && j.cfg == cfg
      requires count >= 1 && Chosen(cfg, s, o, a, h, n, base - o, eOffs[head..], bnd, count, false, run)
      requires consumed == count * n && 1 <= consumed && head + consumed <= |eOffs| && head + consumed <= |bOffs|
      requires Behind(mem[..], m0, base + eOffs[head..][consumed - 1])
      modifies `recordBufStart, `lastRecordEnd, `a
      ensures a == old(NthExtent(cfg, s, a, n, count - 1)).re + 1 && lastRecordEnd == Some(end)
      ensures rHead <= rHead' <= |rOffs|
      ensures Booked(j, o, s, a, h, base, Lists(bOffs[head + consumed..], eOffs[head + consumed..], rOffs[rHead'..]), recordBufStart, mem[..], n) && Fenced(j, o, a, mem[..])
    {
      hide *;
      ghost var es, rs := eOffs[head..], rOffs[rHead..];
      var lastConsumedE := eOffs[head + consumed - 1];
      BookedIs(j, o, s, a, h, base, Lists(bOffs[head..], es, rs), recordBufStart, m0, n);
      SortedIs(rs);
      rHead' := rHead;
      while rHead' < |rOffs| && rOffs[rHead'] <= lastConsumedE
        invariant rHead <= rHead' <= |rOffs| && forall k :: 0 <= k < rHead' - rHead ==> rs[k] <= lastConsumedE
      {
        rHead' := rHead' + 1;
      }
      ghost var p := rHead' - rHead;
      IsPast(rs, p, lastConsumedE);
      BooksAdvance(j, o, s, a, h, base, Lists(bOffs[head..], es, rs), recordBufStart, m0, mem[..], n, bnd, count, run, consumed, p);
      SliceOfSlice2(bOffs, head, consumed, head + consumed);
      SliceOfSlice2(eOffs, head, consumed, head + consumed);
      SliceOfSlice2(rOffs, rHead, p, rHead');
      recordBufStart := run.end + 1;
      lastRecordEnd := Some(end);
      a := NthExtent(cfg, s, a, n, count - 1).re + 1;
    }

    /** Built for this job; the parts it is made of are in order. */
    ghost predicate Sound(j: Job)
      reads this, scanner, fieldCounter
    {
      && j.cfg == cfg && j.accept == accept && scanner.config == cfg && fieldCounter.n == n
      && scanner.Synced() && !scanner.drained && fieldCounter.Valid()
      && o <= |j.data| && scanner.stream == Vectors(j, o, m)
    }

    lemma SoundIs(j: Job)
      requires Sound(j)
      ensures j.cfg == cfg && j.accept == accept && scanner.config == cfg && fieldCounter.n == n
      ensures scanner.Synced() && !scanner.drained && fieldCounter.Valid()
      ensures o <= |j.data| && scanner.stream == Vectors(j, o, m)
    {
    }

    lemma IsSound(j: Job)
      requires j.cfg == cfg && j.accept == accept && scanner.config == cfg && fieldCounter.n == n
      requires scanner.Synced() && !scanner.drained && fieldCounter.Valid()
      requires o <= |j.data| && scanner.stream == Vectors(j, o, m)
      ensures Sound(j)
    {
    }

    /** Take one more vector: verify and index the one it resolves. */
    method ScanVector(ghost j: Job, v: seq<byte>, cursor: nat, ghost base: nat, ghost mem: seq<byte>, ghost head: nat, ghost rHead: nat) returns (ok: bool)
      requires Sound(j) && head <= |bOffs| && head <= |eOffs| && rHead <= |rOffs|
      requires Books(j, o, m, s, a, scanner.fed, fieldCounter.seen, base, Lists(bOffs[head..], eOffs[head..], rOffs[rHead..]), recordBufStart, mem, n)
      requires 64 * scanner.fed + 64 <= |scanner.stream| && v == scanner.stream[64 * scanner.fed..64 * scanner.fed + 64]
      requires cursor + base + m == o + 64 * scanner.fed && cursor + 128 <= WORD
      modifies `bOffs, `eOffs, `rOffs, scanner, fieldCounter
      ensures head <= |bOffs| && head <= |eOffs| && rHead <= |rOffs|
      ensures ok ==> Sound(j) && scanner.fed == old(scanner.fed) + 1
      ensures ok ==> Books(j, o, m, s, a, scanner.fed, fieldCounter.seen, base, Lists(bOffs[head..], eOffs[head..], rOffs[rHead..]), recordBufStart, mem, n)
      ensures !ok ==> o + a < |j.data| && Remains(j, o, a, |j.data|, lastRecordEnd).Err?
      ensures !ok ==> 64 * old(scanner.fed) >= m && Misaligned(cfg, s, a, n, 64 * old(scanner.fed) - m)
    {
      hide *;
      SoundIs(j);
      ghost var fed := scanner.fed;
      ghost var seen := fieldCounter.seen;
      ghost var l := Lists(bOffs[head..], eOffs[head..], rOffs[rHead..]);
      BooksIs(j, o, m, s, a, fed, seen, base, l, recordBufStart, mem, n);
      FeedsIs(j, o, m, s);
      var pendingBase := WrappingSub(cursor, 64);
      var out := scanner.Step(v);
      if out.None? {
        FirstVector(j, o, m, s, a, seen, base, l, recordBufStart, mem, n);
        IsSound(j);
        return true;
      }
      PendingVector(j, o, m, s, a, fed, seen, base, l, recordBufStart, mem, n, out.value);
      ok := fieldCounter.Verify(out.value.dStruct, out.value.term);
      if !ok {
        VectorRejected(j, o, m, s, a, fed, seen, base, l, recordBufStart, mem, n, out.value, lastRecordEnd);
        return;
      }
      ExtendLists(out.value, pendingBase, cursor, head, rHead);
      IsSound(j);
      VectorBooked(j, o, m, s, a, fed, seen, base, l, Lists(bOffs[head..], eOffs[head..], rOffs[rHead..]), recordBufStart, mem, n, out.value);
    }

    /** Append one vector's begins, ends and removals. */
    method ExtendLists(out: VectorOutput, pendingBase: nat, ghost cursor: nat, ghost head: nat, ghost rHead: nat)
      requires head <= |bOffs| && head <= |eOffs| && rHead <= |rOffs|
      requires InBuffer(out.b, cursor - 64) && InBuffer(out.e, cursor - 64) && InBuffer(out.r, cursor - 64)
      requires cursor + 128 <= WORD && pendingBase == WrappingSub(cursor, 64)
      modifies `bOffs, `eOffs, `rOffs
      ensures head <= |bOffs| && head <= |eOffs| && rHead <= |rOffs|
      ensures bOffs[head..] == old(bOffs[head..]) + Offsets(out.b, cursor - 64, 64)
      ensures eOffs[head..] == old(eOffs[head..]) + Offsets(out.e, cursor - 64, 64)
      ensures rOffs[rHead..] == old(rOffs[rHead..]) + Offsets(out.r, cursor - 64, 64)
    {
      hide *;
      bOffs := ExtendOffsets(bOffs, out.b, pendingBase, cursor - 64);
      eOffs := ExtendOffsets(eOffs, out.e, pendingBase, cursor - 64);
      rOffs := ExtendOffsets(rOffs, out.r, pendingBase, cursor - 64);
    }

    /** The live begins; the scanner omits the chunk's first, which the first step pushes. */
    ghost function Begun(): seq<nat>
      reads this
    {
      if needsChunkStartB then [0] + bOffs else bOffs
    }

    /** Between calls: everything fed is input, and `at` is where the next vector starts. */
    ghost predicate Resting(j: Job, base: nat, at: nat, mem: seq<byte>)
      reads this, scanner, fieldCounter
    {
      && Sound(j) && (needsChunkStartB ==> scanner.fed == 0)
      && Books(j, o, m, s, a, scanner.fed, fieldCounter.seen, base, Lists(Begun(), eOffs, rOffs), recordBufStart, mem, n)
      && at + base + m == o + 64 * scanner.fed && base + at <= |j.data|
      && (lastRecordEnd.Some? ==> lastRecordEnd.value < o + a)
    }

    lemma RestingIs(j: Job, base: nat, at: nat, mem: seq<byte>)
      requires Resting(j, base, at, mem)
      ensures Sound(j) && (needsChunkStartB ==> scanner.fed == 0)
      ensures Books(j, o, m, s, a, scanner.fed, fieldCounter.seen, base, Lists(Begun(), eOffs, rOffs), recordBufStart, mem, n)
      ensures at + base + m == o + 64 * scanner.fed && base + at <= |j.data|
      ensures lastRecordEnd.Some? ==> lastRecordEnd.value < o + a
      ensures Begun() == if needsChunkStartB then [0] + bOffs else bOffs
    {
      hide Books, Sound;
    }

    lemma IsResting(j: Job, base: nat, at: nat, mem: seq<byte>)
      requires Sound(j) && !needsChunkStartB
      requires Books(j, o, m, s, a, scanner.fed, fieldCounter.seen, base, Lists(bOffs, eOffs, rOffs), recordBufStart, mem, n)
      requires at + base + m == o + 64 * scanner.fed && base + at <= |j.data|
      requires lastRecordEnd.Some? ==> lastRecordEnd.value < o + a
      ensures Resting(j, base, at, mem)
    {
      hide Books, Sound;
    }

    /** Put the scan on a vector boundary, if the buffer is long enough for an aligned vector to follow. */
    method AlignPrologue(ghost j: Job, mem: array<byte>, base: nat, address: nat, scanEnd: nat) returns (cursor: nat)
      requires Sound(j) && needsAlignPrologue && !needsChunkStartB && base + scanEnd <= mem.Length
      requires Books(j, o, m, s, a, scanner.fed, fieldCounter.seen, base, Lists(bOffs, eOffs, rOffs), recordBufStart, mem[..], n)
      requires scanner.fed == 0 && base + m == o
      modifies `needsAlignPrologue, `m, `s, scanner
      ensures Sound(j) && cursor + base + m == o + 64 * scanner.fed && scanner.fed <= 1
      ensures Books(j, o, m, s, a, scanner.fed, fieldCounter.seen, base, Lists(bOffs, eOffs, rOffs), recordBufStart, mem[..], n)
      ensures scanner.fed == 1 ==> cursor + 64 <= scanEnd
      ensures cursor <= scanEnd
    {
      hide *;
      SoundIs(j);
      ghost var seen := fieldCounter.seen;
      BooksIs(j, o, m, s, a, 0, seen, base, Lists(bOffs, eOffs, rOffs), recordBufStart, mem[..], n);
      NothingFed(j, o, m, s, a, seen, base, Lists(bOffs, eOffs, rOffs), recordBufStart, mem[..], n);
      var pad := NeutralPad(cfg);
      var prologue := HeadPaddedPrologue(mem, base, address, scanEnd, pad);
      cursor := 0;
      match prologue {
        case Aligned =>
          needsAlignPrologue := false;
          IsSound(j);
        case TooShort =>
          // Another try makes sense only if this step loads no vector.
          needsAlignPrologue := scanEnd < VECTOR_BYTES;
          IsSound(j);
        case Vector(v, misalign) =>
          cursor := StepPrologue(j, mem, base, pad, v, misalign);
          needsAlignPrologue := false;
          IsSound(j);
      }
    }

    /** The head-padded vector is an ordinary first step whose padding leaves the carries as a fresh scan has them. */
    method StepPrologue(ghost j: Job, mem: array<byte>, ghost base: nat, pad: byte, v: seq<byte>, misalign: nat) returns (cursor: nat)
      requires Sound(j) && !needsChunkStartB && base + m == o
      requires Books(j, o, m, s, a, 0, fieldCounter.seen, base, Lists(bOffs, eOffs, rOffs), recordBufStart, mem[..], n) && scanner.fed == 0
      requires pad == Pad(cfg) && 0 < misalign < 64 && base + (64 - misalign) <= mem.Length
      requires v == seq(misalign, _ => pad) + mem[..][base..base + (64 - misalign)]
      modifies `m, `s, scanner
      ensures scanner.Synced() && !scanner.drained && scanner.stream == Vectors(j, o, m) && m == misalign
      ensures scanner.fed == 1 && cursor == 64 - misalign
      ensures Books(j, o, m, s, a, 1, fieldCounter.seen, base, Lists(bOffs, eOffs, rOffs), recordBufStart, mem[..], n)
    {
      hide *;
      SoundIs(j);
      ghost var seen := fieldCounter.seen;
      ghost var l := Lists(bOffs, eOffs, rOffs);
      BooksIs(j, o, m, s, a, 0, seen, base, l, recordBufStart, mem[..], n);
      NothingFed(j, o, m, s, a, seen, base, l, recordBufStart, mem[..], n);
      Realign(j, o, m, misalign, s);
      m := misalign;
      s := Shown(j, o, misalign);
      scanner.Attach(Vectors(j, o, misalign));
      PadsAre(cfg, pad, misalign);
      HeadVector(j, o, misalign, mem[..], v);
      FeedsIs(j, o, misalign, s);
      FreshBooks(j, o, misalign, s, mem[..], n);
      ShownLengths(j, o, misalign);
      var first := scanner.Step(v);
      cursor := 64 - misalign;
      FirstVector(j, o, misalign, s, 0, [], o, l, 0, mem[..], n);
    }

    /** Within a call: the next vector starts at `cursor`, and the lists are live from `head` on. */
    ghost predicate Scanning(j: Job, base: nat, cursor: nat, head: nat, rHead: nat, mem: seq<byte>)
      reads this, scanner, fieldCounter
    {
      && Sound(j) && !needsChunkStartB && head <= |bOffs| && head <= |eOffs| && rHead <= |rOffs|
      && Books(j, o, m, s, a, scanner.fed, fieldCounter.seen, base, Lists(bOffs[head..], eOffs[head..], rOffs[rHead..]), recordBufStart, mem, n)
      && cursor + base + m == o + 64 * scanner.fed && base + cursor <= |j.data|
      && (lastRecordEnd.Some? ==> lastRecordEnd.value < o + a)
    }

    lemma ScanningIs(j: Job, base: nat, cursor: nat, head: nat, rHead: nat, mem: seq<byte>)
      requires Scanning(j, base, cursor, head, rHead, mem)
      ensures Sound(j) && !needsChunkStartB && head <= |bOffs| && head <= |eOffs| && rHead <= |rOffs|
      ensures Books(j, o, m, s, a, scanner.fed, fieldCounter.seen, base, Lists(bOffs[head..], eOffs[head..], rOffs[rHead..]), recordBufStart, mem, n)
      ensures cursor + base + m == o + 64 * scanner.fed && base + cursor <= |j.data|
      ensures lastRecordEnd.Some? ==> lastRecordEnd.value < o + a
      ensures o <= base <= o + a <= |j.data| == |mem|
    {
      BooksIs(j, o, m, s, a, scanner.fed, fieldCounter.seen, base, Lists(bOffs[head..], eOffs[head..], rOffs[rHead..]), recordBufStart, mem, n);
      hide Books, Sound;
    }

    lemma IsScanning(j: Job, base: nat, cursor: nat, head: nat, rHead: nat, mem: seq<byte>)
      requires Sound(j) && !needsChunkStartB && head <= |bOffs| && head <= |eOffs| && rHead <= |rOffs|
      requires Books(j, o, m, s, a, scanner.fed, fieldCounter.seen, base, Lists(bOffs[head..], eOffs[head..], rOffs[rHead..]), recordBufStart, mem, n)
      requires cursor + base + m == o + 64 * scanner.fed && base + cursor <= |j.data|
      requires lastRecordEnd.Some? ==> lastRecordEnd.value < o + a
      ensures Scanning(j, base, cursor, head, rHead, mem)
    {
      hide Books, Sound;
    }

    /** Flush what the vectors so far have completed. */
    method Flush(ghost j: Job, mem: array<byte>, base: nat, head: nat, rHead: nat, cursor: nat, rem: nat, ghost bnd: nat)
      returns (out: Option<StepResult>, head': nat, rHead': nat, emitted: seq<Record>)
      requires Scanning(j, base, cursor, head, rHead, mem[..]) && cursor >= 64 && bnd <= |j.data|
      requires rem == if bnd < base then 0 else bnd - base
      modifies `recordBufStart, `lastRecordEnd, `a, mem
      ensures out.None? ==> head <= head' && (head' == head ==> rHead' == rHead) && Scanning(j, base, cursor, head', rHead', mem[..]) && Keeps(j, o, old(a), old(lastRecordEnd), a, lastRecordEnd, bnd, emitted)
      ensures out.Some? ==> EndsWith(j, o, old(a), old(lastRecordEnd), bnd, emitted, out.value, base + cursor)
      ensures out.Some? && out.value.Done? ==> bnd <= out.value.end < base + cursor
    {
      hide *;
      ghost var a0, last0, fed, seen := a, lastRecordEnd, scanner.fed, fieldCounter.seen;
      ghost var start, m0 := recordBufStart, mem[..];
      ScanningIs(j, base, cursor, head, rHead, m0);
      ghost var l := Lists(bOffs[head..], eOffs[head..], rOffs[rHead..]);
      SoundIs(j);
      BooksIs(j, o, m, s, a, fed, seen, base, l, start, m0, n);
      ResolvedToIs(fed, m);
      ghost var h := ResolvedTo(fed, m);
      ListedIs(j, o, s, a, h, base, l, start, m0);
      BooksAreBooked(j, o, m, s, a, fed, seen, base, l, start, m0, n);
      out, head', rHead', emitted := FlushRecords(j, mem, base, head, rHead, cursor - 64, rem, h, bnd);
      if out.None? {
        BookedAreBooks(j, o, m, s, a0, a, fed, seen, base, l, Lists(bOffs[head'..], eOffs[head'..], rOffs[rHead'..]), start, recordBufStart, m0, mem[..], n);
        IsSound(j);
        IsScanning(j, base, cursor, head', rHead', mem[..]);
        if Doomed(j, o, a) {
          DoomedBack(j, o, a0, a, bnd, last0, lastRecordEnd, emitted);
        }
        IsKeeps(j, o, a0, last0, a, lastRecordEnd, bnd, emitted);
      } else {
        if out.value.Failed? {
          Refuses(j, o, a0, h, last0, bnd, emitted, out.value.failure, base + cursor);
        } else {
          IsDone(j, o, a0, last0, bnd, emitted, out.value.end, base + cursor);
        }
      }
    }

    /** Drop what has been emitted from the lists. */
    method DropEmittedPrefix(fields: nat, removals: nat)
      requires fields <= |bOffs| && fields <= |eOffs| && removals <= |rOffs|
      modifies `bOffs, `eOffs, `rOffs
      ensures bOffs == old(bOffs)[fields..] && eOffs == old(eOffs)[fields..] && rOffs == old(rOffs)[removals..]
    {
      bOffs := bOffs[fields..];
      eOffs := eOffs[fields..];
      rOffs := rOffs[removals..];
    }

    /** Compaction within a call. */
    method Compact(ghost j: Job, ghost mem: seq<byte>, ghost base: nat, ghost cursor: nat, head: nat, rHead: nat)
      requires Scanning(j, base, cursor, head, rHead, mem)
      modifies `bOffs, `eOffs, `rOffs
      ensures Scanning(j, base, cursor, 0, 0, mem)
    {
      hide *;
      ScanningIs(j, base, cursor, head, rHead, mem);
      SoundIs(j);
      DropEmittedPrefix(head, rHead);
      IsSound(j);
      assert bOffs[0..] == bOffs && eOffs[0..] == eOffs && rOffs[0..] == rOffs;
      IsScanning(j, base, cursor, 0, 0, mem);
    }

    /** The vector at the cursor is the stream's next. */
    lemma NextVector(j: Job, base: nat, cursor: nat, head: nat, rHead: nat, mem: seq<byte>)
      requires Scanning(j, base, cursor, head, rHead, mem) && base + cursor + 64 <= |mem|
      ensures 64 * scanner.fed + 64 <= |scanner.stream|
      ensures mem[base + cursor..base + cursor + 64] == scanner.stream[64 * scanner.fed..64 * scanner.fed + 64]
    {
      hide *;
      ScanningIs(j, base, cursor, head, rHead, mem);
      SoundIs(j);
      var l := Lists(bOffs[head..], eOffs[head..], rOffs[rHead..]);
      BooksIs(j, o, m, s, a, scanner.fed, fieldCounter.seen, base, l, recordBufStart, mem, n);
      ListedIs(j, o, s, a, ResolvedTo(scanner.fed, m), base, l, recordBufStart, mem);
      ResolvedToIs(scanner.fed, m);
      BodyVector(j, o, m, scanner.fed, mem, a, base + cursor);
    }

    /** One vector of the loop: load it, scan it. */
    method LoadVector(ghost j: Job, mem: array<byte>, base: nat, cursor: nat, ghost scanEnd: nat, ghost head: nat, ghost rHead: nat) returns (ok: bool)
      requires Scanning(j, base, cursor, head, rHead, mem[..]) && cursor + 64 <= scanEnd && base + scanEnd <= mem.Length && mem.Length + 128 <= WORD
      modifies `bOffs, `eOffs, `rOffs, scanner, fieldCounter
      ensures ok ==> Scanning(j, base, cursor + 64, head, rHead, mem[..])
      ensures !ok ==> Doomed(j, o, a) && o + a < |j.data| && o <= base + cursor && Misaligned(cfg, s, a, n, base + cursor - o)
    {
      hide *;
      ScanningIs(j, base, cursor, head, rHead, mem[..]);
      NextVector(j, base, cursor, head, rHead, mem[..]);
      var v := mem[base + cursor..base + cursor + 64];
      ok := ScanVector(j, v, cursor, base, mem[..], head, rHead);
      if ok {
        IsScanning(j, base, cursor + 64, head, rHead, mem[..]);
      } else {
        RejectionDooms(j, o, a, lastRecordEnd);
      }
    }

    /** The vector loop: scan, and emit in batches. */
    method ScanLoop(ghost j: Job, mem: array<byte>, base: nat, from: nat, scanEnd: nat, rem: nat, ghost bnd: nat)
      returns (out: Option<StepResult>, cursor: nat, head: nat, rHead: nat, emitted: seq<Record>)
      requires Scanning(j, base, from, 0, 0, mem[..]) && base + scanEnd <= mem.Length && mem.Length + 128 <= WORD && from <= scanEnd
      requires bnd <= |j.data| && rem == if bnd < base then 0 else bnd - base
      modifies `bOffs, `eOffs, `rOffs, `recordBufStart, `lastRecordEnd, `a, mem, scanner, fieldCounter
      ensures out.None? ==> Scanning(j, base, cursor, head, rHead, mem[..]) && Keeps(j, o, old(a), old(lastRecordEnd), a, lastRecordEnd, bnd, emitted)
      ensures out.None? ==> cursor <= scanEnd < cursor + 64 && (head == 0 ==> rHead == 0)
      ensures out.Some? ==> EndsWith(j, o, old(a), old(lastRecordEnd), bnd, emitted, out.value, base + scanEnd)
      ensures out.Some? && out.value.Done? ==> bnd <= out.value.end < base + scanEnd
    {
      hide *;
      ghost var a0, last0 := a, lastRecordEnd;
      out, cursor, head, rHead, emitted := None, from, 0, 0, [];
      ScanningIs(j, base, from, 0, 0, mem[..]);
      KeepsNothing(j, o, a, lastRecordEnd, bnd);
      while cursor + 64 <= scanEnd
        invariant Scanning(j, base, cursor, head, rHead, mem[..]) && Keeps(j, o, a0, last0, a, lastRecordEnd, bnd, emitted)
        invariant out.None? && cursor <= scanEnd && (head == 0 ==> rHead == 0)
        decreases scanEnd - cursor
      {
        ScanningIs(j, base, cursor, head, rHead, mem[..]);
        SoundIs(j);
        ghost var l0, at0, fed0, seen0 := Lists(bOffs[head..], eOffs[head..], rOffs[rHead..]), cursor, scanner.fed, fieldCounter.seen;
        var ok := LoadVector(j, mem, base, cursor, scanEnd, head, rHead);
        cursor := cursor + 64;
        if !ok {
          KeepsIs(j, o, a0, last0, a, lastRecordEnd, bnd, emitted);
          LedgerIs(j, base, l0, recordBufStart, mem[..], fed0, seen0);
          MisalignedIs(cfg, s, a, n, at0 + base - o);
          var f := ArityError(cfg, j, o, s, a, n, mem, base, recordBufStart, scanEnd, at0 + base - o);
          KeptThenFailed(j, o, a0, last0, a, lastRecordEnd, bnd, emitted, f, base + scanEnd);
          return Some(Failed(f)), cursor, head, rHead, emitted;
        }
        ScanningIs(j, base, cursor, head, rHead, mem[..]);
        // Wait for a batch.
        if |eOffs| - head < EMIT_BATCH_FIELDS {
          continue;
        }
        ghost var a1, last1 := a, lastRecordEnd;
        KeepsIs(j, o, a0, last0, a, lastRecordEnd, bnd, emitted);
        var more;
        out, head, rHead, more := Flush(j, mem, base, head, rHead, cursor, rem, bnd);
        if out.Some? {
          EndsLater(j, o, a0, last0, a1, last1, bnd, emitted, more, out.value, base + cursor, base + scanEnd);
          return out, cursor, head, rHead, emitted + more;
        }
        KeepsMore(j, o, a0, last0, a1, last1, a, lastRecordEnd, bnd, emitted, more);
        emitted := emitted + more;
        // Drop the emitted prefix when it is long.
        if head >= COMPACT_THRESHOLD {
          Compact(j, mem[..], base, cursor, head, rHead);
          head, rHead := 0, 0;
        }
      }
    }

    /** The first step pushes the chunk's first begin; an opening quote there is a removal. */
    method PushChunkStart(ghost j: Job, ghost base: nat, ghost at: nat, ghost mem: seq<byte>)
      requires Resting(j, base, at, mem)
      modifies `bOffs, `needsChunkStartB
      ensures Scanning(j, base, at, 0, 0, mem)
    {
      hide *;
      RestingIs(j, base, at, mem);
      SoundIs(j);
      ghost var l := Lists(Begun(), eOffs, rOffs);
      BooksIs(j, o, m, s, a, scanner.fed, fieldCounter.seen, base, l, recordBufStart, mem, n);
      if needsChunkStartB {
        NothingFed(j, o, m, s, a, fieldCounter.seen, base, l, recordBufStart, mem, n);
        assert bOffs == [];
        bOffs := bOffs + [0];
        needsChunkStartB := false;
      }
      assert bOffs[0..] == bOffs && eOffs[0..] == eOffs && rOffs[0..] == rOffs;
      IsSound(j);
      IsScanning(j, base, at, 0, 0, mem);
    }

    /** The cursor stands at the buffer's start only before the first vector. */
    lemma AtBufferStart(j: Job, base: nat, mem: seq<byte>)
      requires Scanning(j, base, 0, 0, 0, mem)
      ensures scanner.fed == 0 && base + m == o
    {
      hide *;
      ScanningIs(j, base, 0, 0, 0, mem);
      BooksIs(j, o, m, s, a, scanner.fed, fieldCounter.seen, base, Lists(bOffs[0..], eOffs[0..], rOffs[0..]), recordBufStart, mem, n);
      ResolvedToIs(scanner.fed, m);
    }

    method Align(ghost j: Job, mem: array<byte>, base: nat, from: nat, address: nat, scanEnd: nat) returns (cursor: nat)
      requires Scanning(j, base, from, 0, 0, mem[..]) && from <= scanEnd && base + scanEnd <= mem.Length
      modifies `needsAlignPrologue, `m, `s, scanner
      ensures Scanning(j, base, cursor, 0, 0, mem[..]) && cursor <= scanEnd
    {
      hide *;
      cursor := from;
      if needsAlignPrologue && from == 0 {
        ScanningIs(j, base, 0, 0, 0, mem[..]);
        AtBufferStart(j, base, mem[..]);
        assert bOffs[0..] == bOffs && eOffs[0..] == eOffs && rOffs[0..] == rOffs;
        cursor := AlignPrologue(j, mem, base, address, scanEnd);
        IsScanning(j, base, cursor, 0, 0, mem[..]);
      }
    }

    /** Step over the vectors up to `scanEnd`. `address` is where the buffer lies in memory. */
    method Step(ghost j: Job, mem: array<byte>, ctx: StepCtx, address: nat, ghost bnd: nat) returns (res: StepResult, emitted: seq<Record>)
      requires Resting(j, ctx.base, ctx.scanStart, mem[..]) && ctx.scanStart <= ctx.scanEnd
      requires ctx.base + ctx.scanEnd <= mem.Length && mem.Length + 128 <= WORD && bnd <= |j.data|
      requires ctx.remainingInChunk == if bnd < ctx.base then 0 else bnd - ctx.base
      modifies this, mem, scanner, fieldCounter
      ensures res.Suspended? ==>
        && Resting(j, ctx.base, res.resumeAt, mem[..]) && !needsChunkStartB
        && res.consumable == recordBufStart && res.consumable <= res.resumeAt <= ctx.scanEnd < res.resumeAt + 64 && res.lastRecordEnd == lastRecordEnd
        && Keeps(j, o, old(a), old(lastRecordEnd), a, lastRecordEnd, bnd, emitted)
      ensures !res.Suspended? ==> EndsWith(j, o, old(a), old(lastRecordEnd), bnd, emitted, res, ctx.base + ctx.scanEnd)
      ensures res.Done? ==> bnd <= res.end < ctx.base + ctx.scanEnd
    {
      hide *;
      var base := ctx.base;
      ghost var a0, last0 := a, lastRecordEnd;
      PushChunkStart(j, base, ctx.scanStart, mem[..]);
      var from := Align(j, mem, base, ctx.scanStart, address, ctx.scanEnd);
      var out, cursor, head, rHead, more := ScanLoop(j, mem, base, from, ctx.scanEnd, ctx.remainingInChunk, bnd);
      emitted := more;
      if out.Some? {
        EndsWithIs(j, o, a0, last0, bnd, emitted, out.value, base + ctx.scanEnd);
        return out.value, emitted;
      }
      ScanningIs(j, base, cursor, head, rHead, mem[..]);
      // Pick up the records that this step's last vectors completed.
      if |eOffs| - head >= n && cursor >= VECTOR_BYTES {
        ghost var a1, last1 := a, lastRecordEnd;
        VectorIs64();
        out, head, rHead, more := Flush(j, mem, base, head, rHead, cursor, ctx.remainingInChunk, bnd);
        if out.Some? {
          EndsLater(j, o, a0, last0, a1, last1, bnd, emitted, more, out.value, base + cursor, base + ctx.scanEnd);
          EndsWithIs(j, o, a0, last0, bnd, emitted + more, out.value, base + ctx.scanEnd);
          return out.value, emitted + more;
        }
        KeepsMore(j, o, a0, last0, a1, last1, a, lastRecordEnd, bnd, emitted, more);
        emitted := emitted + more;
      }
      if head != 0 {
        Compact(j, mem[..], base, cursor, head, rHead);
      }
      Rest(j, base, cursor, mem[..]);
      // Nothing from the oldest record on may be consumed.
      res := Suspended(cursor, recordBufStart, lastRecordEnd);
    }

    lemma Rest(j: Job, base: nat, cursor: nat, mem: seq<byte>)
      requires Scanning(j, base, cursor, 0, 0, mem)
      ensures Resting(j, base, cursor, mem) && recordBufStart <= cursor
    {
      hide *;
      ScanningIs(j, base, cursor, 0, 0, mem);
      BooksIs(j, o, m, s, a, scanner.fed, fieldCounter.seen, base, Lists(bOffs[0..], eOffs[0..], rOffs[0..]), recordBufStart, mem, n);
      ResolvedToIs(scanner.fed, m);
      assert bOffs[0..] == bOffs && eOffs[0..] == eOffs && rOffs[0..] == rOffs;
      IsResting(j, base, cursor, mem);
    }

    /** The oldest record, and with it every byte that is still to be scanned, is untouched. */
    lemma LimitBehind(j: Job, base: nat, at: nat, mem: seq<byte>)
      requires Resting(j, base, at, mem)
      ensures o + a == base + recordBufStart <= base + at <= |j.data| == |mem| && Unread(mem, j.data, o + a)
    {
      hide *;
      RestingIs(j, base, at, mem);
      ghost var l := Lists(Begun(), eOffs, rOffs);
      BooksIs(j, o, m, s, a, scanner.fed, fieldCounter.seen, base, l, recordBufStart, mem, n);
      ListedIs(j, o, s, a, ResolvedTo(scanner.fed, m), base, l, recordBufStart, mem);
      ResolvedToIs(scanner.fed, m);
    }

    /** Account for consumed buffer bytes: every offset shifts. */
    method Consume(ghost j: Job, ghost base: nat, ghost at: nat, ghost mem: seq<byte>, k: nat)
      requires Resting(j, base, at, mem) && !needsChunkStartB && k <= recordBufStart <= at
      modifies `bOffs, `eOffs, `rOffs, `recordBufStart
      ensures Resting(j, base + k, at - k, mem) && recordBufStart == old(recordBufStart) - k
    {
      hide *;
      RestingIs(j, base, at, mem);
      SoundIs(j);
      ghost var l := Lists(bOffs, eOffs, rOffs);
      ghost var start := recordBufStart;
      SaturatingIs(recordBufStart, k);
      recordBufStart := Saturating(recordBufStart, k);
      bOffs := SaturatingSub(bOffs, k);
      eOffs := SaturatingSub(eOffs, k);
      rOffs := SaturatingSub(rOffs, k);
      BooksConsumed(j, o, m, s, a, scanner.fed, fieldCounter.seen, base, l, Lists(bOffs, eOffs, rOffs), start, mem, n, k);
      IsSound(j);
      IsResting(j, base + k, at - k, mem);
    }

    /** At the end of the input the oldest record is not yet complete, and the buffer's last byte is the input's. */
    lemma AtTail(j: Job, base: nat, cursor: nat, mem: seq<byte>)
      requires Resting(j, base, cursor, mem) && base < |mem|
      ensures o + a < |j.data| == |mem| && o <= base + cursor && o + a <= base + cursor <= |j.data|
      ensures Unread(mem, j.data, o + a) && cursor + base + m == o + 64 * scanner.fed
      ensures Unterminated(j, o) <==> !cfg.IsTerm(mem[|mem| - 1])
      ensures o <= |j.data| && |scanner.stream| == |Vectors(j, o, m)|
    {
      hide *;
      RestingIs(j, base, cursor, mem);
      SoundIs(j);
      ghost var l := Lists(Begun(), eOffs, rOffs);
      BooksIs(j, o, m, s, a, scanner.fed, fieldCounter.seen, base, l, recordBufStart, mem, n);
      ListedIs(j, o, s, a, ResolvedTo(scanner.fed, m), base, l, recordBufStart, mem);
      ResolvedToIs(scanner.fed, m);
      LastByte(j, o, a, mem);
    }

    /** Some rejected boundaries follow the oldest record. */
    ghost predicate Spoilt()
      reads this
    {
      exists h :: Misaligned(cfg, s, a, n, h)
    }

    lemma IsSpoilt(h: nat)
      requires Misaligned(cfg, s, a, n, h)
      ensures Spoilt()
    {
    }

    lemma SpoiltIs() returns (h: nat)
      requires Spoilt()
      ensures Misaligned(cfg, s, a, n, h)
    {
      h :| Misaligned(cfg, s, a, n, h);
    }

    /** What the books say about the buffer. */
    lemma LedgerIs(j: Job, base: nat, l: Lists, start: nat, mem: seq<byte>, fed: nat, seen: seq<bool>)
      requires Books(j, o, m, s, a, fed, seen, base, l, start, mem, n)
      ensures Supported(j.cfg) && j.cfg.fieldCount == Some(n) && Shows(j, o, s) && RecordStarts(j.cfg, s, a)
      ensures Unread(mem, j.data, o + a) && o <= base && o + a == base + start && |mem| == |j.data|
      ensures n >= 1 && FieldCount.Aligned(n, 0, Classes(j.cfg, s, 0, a)) && |Classes(j.cfg, s, 0, a)| % n == 0
    {
      hide *;
      BooksIs(j, o, m, s, a, fed, seen, base, l, start, mem, n);
      FeedsIs(j, o, m, s);
      ListedIs(j, o, s, a, ResolvedTo(fed, m), base, l, start, mem);
      WholeBefore(j, s, a, ResolvedTo(fed, m), seen, n);
    }

    /** Feed the padded tail. */
    method FeedTail(ghost j: Job, mem: array<byte>, base: nat, cursor: nat, scanEnd: nat, virtual: bool) returns (ok: bool)
      requires Resting(j, base, cursor, mem[..]) && !needsChunkStartB && cursor <= scanEnd < cursor + 64 && base < mem.Length
      requires base + scanEnd == mem.Length && mem.Length + 192 <= WORD && (cursor < scanEnd || virtual) && virtual == !cfg.IsTerm(mem[mem.Length - 1])
      modifies `bOffs, `eOffs, `rOffs, scanner, fieldCounter
      ensures ok ==> Sound(j) && scanner.fed == old(scanner.fed) + 1 && 64 * scanner.fed == |scanner.stream|
      ensures ok ==> Books(j, o, m, s, a, scanner.fed, fieldCounter.seen, base, Lists(bOffs, eOffs, rOffs), recordBufStart, mem[..], n)
      ensures !ok ==> Doomed(j, o, a) && Spoilt()
    {
      hide *;
      ghost var fed, m0 := scanner.fed, mem[..];
      AtTail(j, base, cursor, m0);
      RestingIs(j, base, cursor, m0);
      SoundIs(j);
      var v := BuildTail(cfg, mem, base, cursor, scanEnd, virtual);
      assert mem[base + cursor..base + scanEnd] == m0[base + cursor..];
      TailVector(j, o, m, fed, m0, a, base + cursor, virtual, v);
      assert bOffs[0..] == bOffs && eOffs[0..] == eOffs && rOffs[0..] == rOffs;
      ok := ScanVector(j, v, cursor, base, m0, 0, 0);
      if ok {
        assert bOffs[0..] == bOffs && eOffs[0..] == eOffs && rOffs[0..] == rOffs;
        SoundIs(j);
      } else {
        RejectionDooms(j, o, a, lastRecordEnd);
        IsSpoilt(64 * fed - m);
      }
    }

    /** Feed the tail, if there is one. */
    method ScanTail(ghost j: Job, mem: array<byte>, base: nat, cursor: nat, scanEnd: nat) returns (ok: bool, end: nat)
      requires Resting(j, base, cursor, mem[..]) && !needsChunkStartB && cursor <= scanEnd < cursor + 64 && base < mem.Length
      requires base + scanEnd == mem.Length && mem.Length + 192 <= WORD
      modifies `bOffs, `eOffs, `rOffs, scanner, fieldCounter
      ensures o + a < |j.data|
      ensures ok ==> Sound(j) && end <= cursor + 64 && end + base + m == o + 64 * scanner.fed && 64 * scanner.fed == |scanner.stream| && scanner.fed >= 1
      ensures ok ==> Books(j, o, m, s, a, scanner.fed, fieldCounter.seen, base, Lists(bOffs, eOffs, rOffs), recordBufStart, mem[..], n)
      ensures !ok ==> Doomed(j, o, a) && Spoilt()
    {
      hide *;
      AtTail(j, base, cursor, mem[..]);
      var virtual := !cfg.IsTerm(mem[base + scanEnd - 1]);
      if cursor < scanEnd || virtual {
        ok := FeedTail(j, mem, base, cursor, scanEnd, virtual);
        end := cursor + 64;
      } else {
        ghost var fed := scanner.fed;
        RestingIs(j, base, cursor, mem[..]);
        SoundIs(j);
        NoTail(j, o, m, fed);
        ok, end := true, cursor;
        EverFed(j, o, m, fed, base, cursor);
      }
    }

    /** Drain the scanner's last vector. */
    method DrainLast(ghost j: Job, ghost mem: seq<byte>, ghost base: nat, cursor: nat) returns (ok: bool)
      requires Sound(j) && 64 * scanner.fed == |scanner.stream| && scanner.fed >= 1
      requires Books(j, o, m, s, a, scanner.fed, fieldCounter.seen, base, Lists(bOffs, eOffs, rOffs), recordBufStart, mem, n)
      requires cursor + base + m == o + 64 * scanner.fed && cursor + 128 <= WORD
      modifies `bOffs, `eOffs, `rOffs, scanner, fieldCounter
      ensures o + a <= |j.data| && a <= |s| && n >= 1
      ensures ok ==> Listed(j, o, s, a, |s|, base, Lists(bOffs, eOffs, rOffs), recordBufStart, mem) && FieldCount.Aligned(n, 0, Classes(cfg, s, a, |s|))
      ensures ok ==> j.cfg == cfg && |j.data| - o <= |s| && (scanner.inQuotesCarry <==> Odd(cfg, s, |j.data| - o))
      ensures !ok ==> Doomed(j, o, a) && Spoilt()
    {
      hide *;
      SoundIs(j);
      ghost var fed, seen := scanner.fed, fieldCounter.seen;
      ghost var l := Lists(bOffs, eOffs, rOffs);
      BooksIs(j, o, m, s, a, fed, seen, base, l, recordBufStart, mem, n);
      ListedIs(j, o, s, a, ResolvedTo(fed, m), base, l, recordBufStart, mem);
      FeedsIs(j, o, m, s);
      FeedsShown(j, o, m, s);
      ShownLengths(j, o, m);
      StreamParity(j, o, m, s);
      InQuotesIs();
      var out := scanner.Finalize();
      PendingVector(j, o, m, s, a, fed, seen, base, l, recordBufStart, mem, n, out.value);
      ok := fieldCounter.Verify(out.value.dStruct, out.value.term);
      if !ok {
        FinalRejected(j, o, m, s, a, fed, seen, base, l, recordBufStart, mem, n, out.value, lastRecordEnd);
        RejectionDooms(j, o, a, lastRecordEnd);
        IsSpoilt(|s|);
        return;
      }
      assert bOffs[0..] == bOffs && eOffs[0..] == eOffs && rOffs[0..] == rOffs;
      ExtendLists(out.value, WrappingSub(cursor, 64), cursor, 0, 0);
      assert bOffs[0..] == bOffs && eOffs[0..] == eOffs && rOffs[0..] == rOffs;
      FinalBooked(j, o, m, s, a, fed, seen, base, l, Lists(bOffs, eOffs, rOffs), recordBufStart, mem, n, out.value);
    }

    lemma InQuotesIs()
      requires scanner.Synced()
      ensures 64 * scanner.fed <= |scanner.stream| && scanner.inQuotesCarry == Odd(scanner.config, scanner.stream, 64 * scanner.fed)
    {
    }

    /** Emit one record at the end of the input: find its run, assemble it, and see whether it ends the chunk. */
    method FinishOne(ghost j: Job, mem: array<byte>, base: nat, head: nat, rHead: nat, scanEnd: nat, rem: nat, ghost bnd: nat, ghost all: seq<nat>)
      returns (stop: bool, failure: Option<Failure>, rHead': nat, emitted: seq<Record>, ghost all': seq<nat>)
      requires head <= |bOffs| && head <= |eOffs| && rHead <= |rOffs| && |eOffs| - head >= n && j.accept == accept && j.cfg == cfg
      requires Drained(j, o, s, a, base, Lists(bOffs[head..], eOffs[head..], rOffs[rHead..]), all, recordBufStart, mem[..], n)
      requires base + scanEnd == mem.Length && bnd <= |j.data| && rem == if bnd < base then 0 else bnd - base
      requires o + a <= |j.data| && (lastRecordEnd.Some? ==> lastRecordEnd.value < o + a)
      modifies `recordBufStart, `lastRecordEnd, `a, mem
      ensures failure.Some? ==> Founders(j, o, old(a), old(lastRecordEnd), bnd, emitted, failure.value)
      ensures failure.None? && stop ==> old(Remains(j, o, a, bnd, lastRecordEnd)) == Ok(emitted, lastRecordEnd)
      ensures failure.None? && !stop ==>
        && n >= 1 && head + n <= |bOffs| && head + n <= |eOffs| && rHead' <= |rOffs|
        && Drained(j, o, s, a, base, Lists(bOffs[head + n..], eOffs[head + n..], rOffs[rHead'..]), all', recordBufStart, mem[..], n)
        && o + a <= |j.data| && (lastRecordEnd.Some? ==> lastRecordEnd.value < o + a)
        && Keeps(j, o, old(a), old(lastRecordEnd), a, lastRecordEnd, bnd, emitted)
    {
      hide *;
      ghost var a0, last0, m0, start := a, lastRecordEnd, mem[..], recordBufStart;
      var bs, es, rs := bOffs[head..], eOffs[head..], rOffs[rHead..];
      ghost var l := Lists(bs, es, rs);
      DrainedIs(j, o, s, a, base, l, all, start, m0, n);
      ghost var x, re, r, z := NextFinal(j, o, s, a, base, l, all, start, m0, n, bnd, last0);
      FinalIs(j, o, a, base, l, m0, n, x, re, r, bnd, last0);
      assert mem[base..] == m0[base..];
      var lastE := eOffs[head + n - 1];
      var runStart, recEnd := FindFinalRun(cfg, mem, base, lastE, scanEnd, x + o - base, re + o - base);
      var one: nat := 1;
      OneRecord(m0, base, bs, es, rs, n, one);
      var rejected;
      emitted, rejected := AssembleRecordsFixed(mem, base, n, bs, es, rs, one, accept);
      rHead', all' := rHead, all;
      if rejected.Some? {
        OnlyOne(emitted, rejected.value, r);
        FinalRejects(j, o, a, base, l, m0, n, x, re, r, bnd, last0);
        FoundersOnRefusal(j, o, a, last0, bnd, Rejected(r));
        return true, Some(Rejected(rejected.value)), rHead, emitted, all;
      }
      FirstAccepted(accept, r);
      recordBufStart := recEnd + 1;
      stop := recordBufStart > rem;
      HandoffIsEnd(base, o, x, runStart, rem, bnd);
      lastRecordEnd := Some(base + Handoff(runStart, rem, stop));
      FinalStops(j, o, a, base, l, m0, n, x, re, r, bnd, last0);
      failure := None;
      if stop {
        return;
      }
      rHead' := AfterFinal(j, mem, base, head, rHead, m0, start, all, lastE, z, x, re);
      all' := all[n..];
      SegmentOrder(cfg, s, z, x, re);
      if Doomed(j, o, a) {
        DoomedBack(j, o, a0, a, bnd, last0, lastRecordEnd, emitted);
      }
      OneClosed(j, o, a0, x, a);
      IsKeeps(j, o, a0, last0, a, lastRecordEnd, bnd, emitted);
    }

    /** Account for a final record that does not end the chunk. */
    method AfterFinal(ghost j: Job, ghost mem: array<byte>, ghost base: nat, head: nat, rHead: nat, ghost m0: seq<byte>, ghost start: nat, ghost all: seq<nat>, lastE: nat,
                      ghost z: nat, ghost x: nat, ghost re: nat) returns (rHead': nat)
      requires head <= |bOffs| && head <= |eOffs| && rHead <= |rOffs| && |eOffs| - head >= n && j.cfg == cfg && n >= 1
      requires Drained(j, o, s, a, base, Lists(bOffs[head..], eOffs[head..], rOffs[rHead..]), all, start, m0, n) && n <= |all|
      requires Segment(cfg, s, z, x, re) && a <= z && re < |s| && RecordStarts(cfg, s, re + 1) && o + re < |j.data| && o <= base
      requires lastE == eOffs[head + n - 1] && lastE + (base - o) == EndOf(cfg, s, x)
      requires TracksFields(cfg, s, re + 1, |s|, base - o, all[n..], eOffs[head..][n..]) && FieldCount.Aligned(n, 0, Classes(cfg, s, re + 1, |s|))
      requires Behind(mem[..], m0, base + lastE) && base + recordBufStart == o + re + 1
      modifies `a
      ensures a == re + 1 && head + n <= |bOffs| && rHead <= rHead' <= |rOffs|
      ensures Drained(j, o, s, a, base, Lists(bOffs[head + n..], eOffs[head + n..], rOffs[rHead'..]), all[n..], recordBufStart, mem[..], n)
    {
      hide *;
      ghost var bs, es, rs := bOffs[head..], eOffs[head..], rOffs[rHead..];
      ghost var l := Lists(bs, es, rs);
      DrainedIs(j, o, s, a, base, l, all, start, m0, n);
      ListedIs(j, o, s, a, |s|, base, Lists(all, es, rs), start, m0);
      RemovalsAreSorted(cfg, s, a, |s|, base - o, rs);
      rHead' := AdvanceRemovals(rHead, lastE);
      ghost var p := rHead' - rHead;
      SliceOfSlice2(bOffs, head, n, head + n);
      SliceOfSlice2(eOffs, head, n, head + n);
      SliceOfSlice2(rOffs, rHead, p, rHead');
      SortedIs(rs);
      IsPast(rs, p, lastE);
      DrainedNext(j, o, s, a, base, l, Lists(bs[n..], es[n..], rs[p..]), all, start, m0, mem[..], n, z, x, re, p);
      a := re + 1;
    }

    /** Advance the removal cursor past everything up to `lastE`. */
    method AdvanceRemovals(rHead: nat, lastE: nat) returns (rHead': nat)
      requires rHead <= |rOffs|
      ensures rHead <= rHead' <= |rOffs|
      ensures forall k :: 0 <= k < rHead' - rHead ==> rOffs[rHead..][k] <= lastE
      ensures rHead' < |rOffs| ==> lastE < rOffs[rHead..][rHead' - rHead]
    {
      rHead' := rHead;
      while rHead' < |rOffs| && rOffs[rHead'] <= lastE
        invariant rHead <= rHead' <= |rOffs|
        invariant forall k :: 0 <= k < rHead' - rHead ==> rOffs[rHead..][k] <= lastE
      {
        rHead' := rHead' + 1;
      }
    }

    /** Where an unclosed quote opened: at the last field's begin, or on the quote before it. */
    method QuotePosition(ghost j: Job, mem: array<byte>, base: nat, scanEnd: nat) returns (at: nat)
      requires Supported(j.cfg) && j.cfg == cfg && Shows(j, o, s) && |j.data| - o <= |s| && Odd(cfg, s, |j.data| - o) && o + a < |j.data|
      requires Listed(j, o, s, a, |s|, base, Lists(bOffs, eOffs, rOffs), recordBufStart, mem[..]) && base + scanEnd == mem.Length
      ensures o <= base + at && OpensLast(cfg, j.data[o..], base + at - o)
    {
      hide *;
      ghost var p := OpenerAt(j, o, s, a, base, Lists(bOffs, eOffs, rOffs), recordBufStart, mem[..]);
      var b := if bOffs == [] then scanEnd else bOffs[|bOffs| - 1];
      at := if 0 < b <= scanEnd && cfg.IsQuote(mem[base + b - 1]) then b - 1 else b;
    }

    /** Drop the offsets behind the input. */
    method Trim(ghost j: Job, ghost mem: seq<byte>, ghost base: nat, scanEnd: nat)
      requires Supported(j.cfg) && j.cfg == cfg && j.cfg.fieldCount == Some(n) && n >= 1 && Shows(j, o, s) && a <= |s|
      requires Listed(j, o, s, a, |s|, base, Lists(bOffs, eOffs, rOffs), recordBufStart, mem) && FieldCount.Aligned(n, 0, Classes(cfg, s, a, |s|))
      requires base + scanEnd == |j.data| && scanEnd > 0 && |j.data| - o <= |s| && !Odd(cfg, s, |j.data| - o)
      modifies `bOffs, `eOffs, `rOffs
      ensures Drained(j, o, s, a, base, Lists(bOffs, eOffs, rOffs), old(bOffs), recordBufStart, mem, n)
    {
      hide *;
      Trimmed(j, o, s, a, base, Lists(bOffs, eOffs, rOffs), recordBufStart, mem, n, scanEnd);
      bOffs := RetainUpTo(bOffs, scanEnd);
      eOffs := RetainUpTo(eOffs, scanEnd);
      rOffs := RetainUpTo(rOffs, scanEnd - 1);
    }

    /** Emit the remaining records one at a time, so that the boundary can stop after any of them. */
    method FinishRecords(ghost j: Job, mem: array<byte>, base: nat, scanEnd: nat, rem: nat, ghost bnd: nat, ghost all0: seq<nat>)
      returns (failure: Option<Failure>, emitted: seq<Record>)
      requires Drained(j, o, s, a, base, Lists(bOffs, eOffs, rOffs), all0, recordBufStart, mem[..], n) && j.accept == accept && j.cfg == cfg
      requires base + scanEnd == mem.Length && bnd <= |j.data| && rem == if bnd < base then 0 else bnd - base
      requires o + a <= |j.data| && (lastRecordEnd.Some? ==> lastRecordEnd.value < o + a)
      modifies `recordBufStart, `lastRecordEnd, `a, mem
      ensures failure.Some? ==> Founders(j, o, old(a), old(lastRecordEnd), bnd, emitted, failure.value)
      ensures failure.None? ==> old(Remains(j, o, a, bnd, lastRecordEnd)) == Ok(emitted, lastRecordEnd)
    {
      hide *;
      ghost var a0, last0, all := a, lastRecordEnd, all0;
      var head, rHead := 0, 0;
      emitted := [];
      KeepsNothing(j, o, a, lastRecordEnd, bnd);
      DrainedIs(j, o, s, a, base, Lists(bOffs, eOffs, rOffs), all0, recordBufStart, mem[..], n);
      assert bOffs[0..] == bOffs && eOffs[0..] == eOffs && rOffs[0..] == rOffs;
      while |eOffs| - head >= n
        invariant 0 <= head <= |bOffs| && head <= |eOffs| && 0 <= rHead <= |rOffs| && n >= 1
        invariant Drained(j, o, s, a, base, Lists(bOffs[head..], eOffs[head..], rOffs[rHead..]), all, recordBufStart, mem[..], n)
        invariant o + a <= |j.data| && (lastRecordEnd.Some? ==> lastRecordEnd.value < o + a)
        invariant Keeps(j, o, a0, last0, a, lastRecordEnd, bnd, emitted)
        decreases |eOffs| - head
      {
        ghost var a1, last1 := a, lastRecordEnd;
        KeepsIs(j, o, a0, last0, a, lastRecordEnd, bnd, emitted);
        var stop, more;
        stop, failure, rHead, more, all := FinishOne(j, mem, base, head, rHead, scanEnd, rem, bnd, all);
        if failure.Some? {
          FoundersLater(j, o, a0, last0, a1, last1, bnd, emitted, more, failure.value);
          return failure, emitted + more;
        }
        if stop {
          // The boundary is crossed.
          PrependOk(emitted, more, lastRecordEnd);
          return None, emitted + more;
        }
        KeepsMore(j, o, a0, last0, a1, last1, a, lastRecordEnd, bnd, emitted, more);
        emitted := emitted + more;
        head := head + n;
      }
      KeepsIs(j, o, a0, last0, a, lastRecordEnd, bnd, emitted);
      NothingToFinish(j, o, s, a, base, Lists(bOffs[head..], eOffs[head..], rOffs[rHead..]), all, recordBufStart, mem[..], n, bnd, lastRecordEnd);
      PrependOk(emitted, [], lastRecordEnd);
      assert emitted + [] == emitted;
      failure := None;
    }

    /** Flush the records still pending at the end of the input. */
    method Finalize(ghost j: Job, mem: array<byte>, ctx: StepCtx, ghost bnd: nat) returns (end: Option<nat>, failure: Option<Failure>, emitted: seq<Record>)
      requires Resting(j, ctx.base, ctx.scanStart, mem[..]) && ctx.scanStart <= ctx.scanEnd < ctx.scanStart + 64
      requires needsChunkStartB ==> ctx.scanEnd == 0
      requires ctx.base + ctx.scanEnd == mem.Length && mem.Length + 192 <= WORD && bnd <= |j.data|
      requires ctx.remainingInChunk == if bnd < ctx.base then 0 else bnd - ctx.base
      modifies this, mem, scanner, fieldCounter
      ensures failure.None? ==> old(o + a <= |j.data| && Remains(j, o, a, bnd, lastRecordEnd) == Ok(emitted, end))
      ensures failure.Some? ==> Founders(j, o, old(a), old(lastRecordEnd), bnd, emitted, failure.value)
    {
      hide *;
      var base, cursor, scanEnd := ctx.base, ctx.scanStart, ctx.scanEnd;
      ghost var m0 := mem[..];
      RestingIs(j, base, cursor, m0);
      SoundIs(j);
      BooksIs(j, o, m, s, a, scanner.fed, fieldCounter.seen, base, Lists(Begun(), eOffs, rOffs), recordBufStart, m0, n);
      LedgerIs(j, base, Lists(Begun(), eOffs, rOffs), recordBufStart, m0, scanner.fed, fieldCounter.seen);
      if scanEnd == 0 && cursor == 0 {
        RemainsAtEnd(j, o, a, bnd, lastRecordEnd);
        return lastRecordEnd, None, [];
      }
      // 1. Feed the tail.
      var ok, at := ScanTail(j, mem, base, cursor, scanEnd);
      if ok {
        // 2. The scanner still holds a vector.
        ok := DrainTail(j, mem[..], base, at);
      }
      if !ok {
        ghost var h := SpoiltIs();
        var f := ArityError(cfg, j, o, s, a, n, mem, base, recordBufStart, scanEnd, h);
        FoundersEmpty(j, o, a, lastRecordEnd, bnd, f);
        return None, Some(f), [];
      }
      // 2b. Ending inside a quoted field.
      if scanner.inQuotesCarry {
        OpenQuoteDooms(j, o, m, s, a);
        var q := QuotePosition(j, mem, base, scanEnd);
        IsPlaced(j, o, UnclosedQuote(base + q));
        FoundersEmpty(j, o, a, lastRecordEnd, bnd, UnclosedQuote(base + q));
        return None, Some(UnclosedQuote(base + q)), [];
      }
      // 3. Drop offsets behind the input.
      ghost var all := bOffs;
      Trim(j, mem[..], base, scanEnd);
      // 4. Emit what is left.
      failure, emitted := FinishRecords(j, mem, base, scanEnd, ctx.remainingInChunk, bnd, all);
      end := lastRecordEnd;
    }

    method DrainTail(ghost j: Job, ghost mem: seq<byte>, ghost base: nat, at: nat) returns (ok: bool)
      requires Sound(j) && 64 * scanner.fed == |scanner.stream| && scanner.fed >= 1
      requires Books(j, o, m, s, a, scanner.fed, fieldCounter.seen, base, Lists(bOffs, eOffs, rOffs), recordBufStart, mem, n)
      requires at + base + m == o + 64 * scanner.fed && at + 128 <= WORD
      modifies `bOffs, `eOffs, `rOffs, scanner, fieldCounter
      ensures o + a <= |j.data| && a <= |s| && 1 <= n && j.cfg == cfg && j.accept == accept && j.cfg.fieldCount == Some(n)
      ensures Supported(j.cfg) && Shows(j, o, s) && Feeds(j, o, m, s) && RecordStarts(cfg, s, a) && |j.data| - o <= |s|
      ensures ok ==> Listed(j, o, s, a, |s|, base, Lists(bOffs, eOffs, rOffs), recordBufStart, mem) && FieldCount.Aligned(n, 0, Classes(cfg, s, a, |s|))
      ensures ok ==> (scanner.inQuotesCarry <==> Odd(cfg, s, |j.data| - o))
      ensures !ok ==> Doomed(j, o, a) && Spoilt()
    {
      hide *;
      SoundIs(j);
      BooksIs(j, o, m, s, a, scanner.fed, fieldCounter.seen, base, Lists(bOffs, eOffs, rOffs), recordBufStart, mem, n);
      FeedsIs(j, o, m, s);
      ListedIs(j, o, s, a, ResolvedTo(scanner.fed, m), base, Lists(bOffs, eOffs, rOffs), recordBufStart, mem);
      ok := DrainLast(j, mem, base, at);
    }
  }

  lemma ArityLimit()
    ensures MAX_ARITY == 63
  {
  }

  lemma SameUnread(m: seq<byte>, pos: nat)
    requires pos <= |m|
    ensures Unread(m, m, pos)
  {
  }

  /** The tail as a padded vector, with a terminator spliced in behind a last record that lacks one. */
  method BuildTail(cfg: Config, mem: array<byte>, base: nat, cursor: nat, scanEnd: nat, virtual: bool) returns (v: seq<byte>)
    requires cursor <= scanEnd < cursor + 64 && base + scanEnd <= mem.Length && (cursor < scanEnd || virtual)
    ensures |v| == 64 && v[..scanEnd - cursor] == mem[base + cursor..base + scanEnd]
    ensures virtual ==> v[scanEnd - cursor] == TermByte(cfg)
    ensures forall i :: scanEnd - cursor + (if virtual then 1 else 0) <= i < 64 ==> v[i] == Pad(cfg)
  {
    hide *;
    var pad := NeutralPad(cfg);
    var len := scanEnd - cursor;
    v := mem[base + cursor..base + scanEnd] + seq(64 - len, _ => pad);
    if virtual {
      v := v[len := TermByte(cfg)];
    }
  }

  /** Keep the offsets up to a limit. */
  method RetainUpTo(xs: seq<nat>, limit: nat) returns (ys: seq<nat>)
    ensures ys == Retain(xs, limit)
  {
    ys := [];
    var i := 0;
    while i < |xs|
      invariant 0 <= i <= |xs| && ys == Retain(xs[..i], limit)
    {
      assert xs[..i + 1][..i] == xs[..i];
      if xs[i] <= limit {
        ys := ys + [xs[i]];
      }
      i := i + 1;
    }
    assert xs[..|xs|] == xs;
  }

  /** At the end of the input: walk to the record's terminator, or the end, and across its run. */
  method FindFinalRun(c: Config, mem: array<byte>, base: nat, from: nat, scanEnd: nat, ghost x: int, ghost re: int) returns (runStart: nat, recEnd: nat)
    requires base + scanEnd == mem.Length && from <= scanEnd && RunShape(c, mem[base..], from, x, re)
    requires x <= scanEnd && (x == scanEnd ==> re == x) && (x < scanEnd ==> re < scanEnd)
    ensures runStart == x && recEnd == re
  {
    ghost var w := mem[base..];
    recEnd := from;
    while recEnd < scanEnd && !c.IsTerm(mem[base + recEnd])
      invariant from <= recEnd <= scanEnd && recEnd <= x
    {
      assert w[recEnd] == mem[base + recEnd];
      recEnd := recEnd + 1;
    }
    if recEnd < scanEnd {
      assert w[recEnd] == mem[base + recEnd];
    }
    runStart := recEnd;
    while recEnd + 1 < scanEnd && c.IsTerm(mem[base + recEnd + 1])
      invariant runStart <= recEnd <= re
    {
      assert w[recEnd + 1] == mem[base + recEnd + 1];
      recEnd := recEnd + 1;
    }
    if recEnd + 1 < scanEnd {
      assert w[recEnd + 1] == mem[base + recEnd + 1];
    }
  }

  lemma OneRecord(m: seq<byte>, base: nat, bs: seq<nat>, es: seq<nat>, rs: seq<nat>, n: nat, one: nat)
    requires Sorted(rs) && base <= |m| && Laid(bs, es, n, |m| - base) && one == 1
    ensures one * n == n && Assembled(m, base, bs, es, rs, n, one) == [RecordBytes(m, base, bs, es, rs, n)]
  {
    hide RecordBytes;
    assert one * n == n;
    AssembledUnfolds(m, base, bs, es, rs, n, one);
    NothingAssembled(m, base, bs[n..], es[n..], rs, n);
  }

  lemma OnlyOne(emitted: seq<Record>, q: Record, r: Record)
    requires emitted + [q] <= [r]
    ensures emitted == [] && q == r
  {
    assert (emitted + [q])[|emitted|] == q;
  }

  lemma FirstAccepted(accept: Record -> bool, r: Record)
    ensures Index.AllAccepted(accept, [r]) ==> accept(r)
  {
    assert [r][0] == r;
  }

  lemma EverFed(j: Job, o: nat, m: nat, fed: nat, base: nat, cursor: nat)
    requires o < |j.data| && base + cursor == |j.data| && cursor + base + m == o + 64 * fed
    ensures fed >= 1
  {
  }

  lemma FeedsShown(j: Job, o: nat, m: nat, s: seq<byte>)
    requires Feeds(j, o, m, s)
    ensures o <= |j.data| && s == Shown(j, o, m)
  {
  }

  /** The buffer's last byte tells whether the input lacks a terminator. */
  lemma LastByte(j: Job, o: nat, a: nat, mem: seq<byte>)
    requires Unread(mem, j.data, o + a) && o + a < |j.data|
    ensures Unterminated(j, o) <==> !j.cfg.IsTerm(mem[|mem| - 1])
  {
    var w := |mem| - 1;
    SuffixOf(mem, j.data, o + a, w);
    assert mem[w..][0] == mem[w] && j.data[w..][0] == j.data[w];
  }

  lemma VectorIs64()
    ensures VECTOR_BYTES == 64
  {
  }

  function Saturating(x: nat, k: nat): nat {
    if x < k then 0 else x - k
  }

  lemma SaturatingIs(x: nat, k: nat)
    requires k <= x
    ensures Saturating(x, k) == x - k
  {
  }

  /** Shift every offset down in place. */
  method SaturatingSub(xs: seq<nat>, k: nat) returns (ys: seq<nat>)
    ensures LoweredBy(xs, ys, k)
  {
    ys := xs;
    var i := 0;
    while i < |ys|
      invariant 0 <= i <= |ys| == |xs|
      invariant forall q :: 0 <= q < i ==> ys[q] == if xs[q] < k then 0 else xs[q] - k
      invariant forall q :: i <= q < |xs| ==> ys[q] == xs[q]
    {
      ys := ys[i := Saturating(ys[i], k)];
      i := i + 1;
    }
  }

  lemma ShownLengths(j: Job, o: nat, m: nat)
    requires o <= |j.data|
    ensures |Vectors(j, o, m)| == m + |Shown(j, o, m)|
  {
  }

  /** Moving the origin changes only the padding. */
  lemma Realign(j: Job, o: nat, m: nat, m': nat, s: seq<byte>)
    requires Feeds(j, o, m, s) && m' < 64
    ensures o <= |j.data| && Feeds(j, o, m', Shown(j, o, m'))
  {
    hide Supported, Shown;
  }

  lemma PadsAre(c: Config, pad: byte, k: nat)
    requires pad == Pad(c)
    ensures Pads(c, k) == seq(k, _ => pad)
  {
  }

  datatype Prologue = Vector(bytes: seq<byte>, misalign: nat) | Aligned | TooShort

  /** A head-padded first vector, so that every later load is aligned. */
  method HeadPaddedPrologue(mem: array<byte>, base: nat, address: nat, scanEnd: nat, pad: byte) returns (p: Prologue)
    requires base + scanEnd <= mem.Length
    ensures p.Aligned? <==> address % 64 == 0
    ensures p.Vector? ==>
      && 0 < p.misalign < 64 && p.misalign == address % 64 && 64 - p.misalign + 64 <= scanEnd
      && p.bytes == seq(p.misalign, _ => pad) + mem[..][base..base + (64 - p.misalign)]
    ensures p.TooShort? ==> scanEnd < 64 - address % 64 + 64
  {
    var misalign := address % VECTOR_BYTES;
    if misalign == 0 {
      return Aligned;
    }
    var skip := VECTOR_BYTES - misalign;
    if scanEnd < skip + VECTOR_BYTES {
      return TooShort;
    }
    var v := new byte[VECTOR_BYTES](_ => pad);
    var i := 0;
    while i < skip
      invariant 0 <= i <= skip && v.Length == 64
      invariant forall k :: 0 <= k < misalign ==> v[k] == pad
      invariant forall k :: misalign <= k < misalign + i ==> v[k] == mem[base + (k - misalign)]
    {
      v[misalign + i] := mem[base + i];
      i := i + 1;
    }
    assert v[..] == seq(misalign, _ => pad) + mem[..][base..base + skip];
    p := Vector(v[..], misalign);
  }

  lemma SortedIs(rs: seq<nat>)
    requires Sorted(rs)
    ensures forall i, k :: 0 <= i < k < |rs| ==> rs[i] < rs[k]
  {
  }

  lemma IsPast(rs: seq<nat>, p: nat, e: nat)
    requires p <= |rs| && (forall i, k :: 0 <= i < k < |rs| ==> rs[i] < rs[k])
    requires (forall k :: 0 <= k < p ==> rs[k] <= e) && (p < |rs| ==> e < rs[p])
    ensures Past(rs, p, e)
  {
  }
}
