/** Workers drawing chunk indices from a shared counter, in any interleaving. */
module Workers {
  import opened Dialect

  datatype Worker =
    | Unspawned
    | Starting(idx: nat)   // its I/O context is not open yet
    | Holding(idx: nat)    // parsing chunk `idx`, its slot not yet written
    | Drawing              // slot written, about to draw the next index
    | Finished
    | Failed

  /** Worker 0 is the spawning thread itself; `spawned` is the next thread to spawn. */
  datatype Machine<T> = Machine(counter: nat, workers: seq<Worker>, slots: seq<Option<T>>, spawned: nat, aborted: bool)

  datatype Event =
    | Spawn
    | SpawnFails
    | RunMain
    | Open(w: nat)
    | OpenFails(w: nat)
    | Write(w: nat)
    | Draw(w: nat)

  function Initial<T>(threads: nat, chunks: nat): Machine<T> {
    Machine(threads, seq(threads, _ => Unspawned), seq(chunks, _ => None), 1, false)
  }

  predicate Enabled<T>(s: Machine<T>, e: Event) {
    match e
    case Spawn => !s.aborted && 1 <= s.spawned < |s.workers|
    case SpawnFails => !s.aborted && 1 <= s.spawned < |s.workers|
    case RunMain => !s.aborted && s.spawned == |s.workers| >= 1 && s.workers[0].Unspawned?
    case Open(w) => w < |s.workers| && s.workers[w].Starting?
    case OpenFails(w) => w < |s.workers| && s.workers[w].Starting?
    case Write(w) => w < |s.workers| && s.workers[w].Holding?
    case Draw(w) => w < |s.workers| && s.workers[w].Drawing?
  }

  /** One step; `output` is what parsing a chunk yields. A write past the slots would panic and is left out of `Apply`'s domain by `Inv`. */
  function Apply<T>(s: Machine<T>, e: Event, output: nat -> T): Machine<T>
    requires Enabled(s, e)
  {
    match e
    case Spawn => s.(workers := s.workers[s.spawned := Starting(s.spawned)], spawned := s.spawned + 1)
    case SpawnFails => s.(counter := |s.slots|, aborted := true)
    case RunMain => s.(workers := s.workers[0 := Starting(0)])
    case Open(w) => s.(workers := s.workers[w := Holding(s.workers[w].idx)])
    case OpenFails(w) => s.(workers := s.workers[w := Failed])
    case Write(w) =>
      var i := s.workers[w].idx;
      s.(workers := s.workers[w := Drawing],
         slots := if i < |s.slots| then s.slots[i := Some(output(i))] else s.slots)
    case Draw(w) =>
      s.(workers := s.workers[w := if s.counter < |s.slots| then Holding(s.counter) else Finished],
         counter := s.counter + 1)
  }

  /** Index `i` has been given to a worker that got as far as parsing it. */
  predicate HandedOut<T>(s: Machine<T>, i: nat) {
    if i < |s.workers| then !s.workers[i].Unspawned? && !s.workers[i].Starting? && !s.workers[i].Failed?
    else i < s.counter
  }

  predicate HeldBy<T>(s: Machine<T>, w: nat, i: nat) {
    w < |s.workers| && s.workers[w] == Holding(i)
  }

  predicate Shape<T>(s: Machine<T>) {
    && 1 <= s.spawned <= |s.workers| <= |s.slots|
    && |s.workers| <= s.counter
    && (s.aborted ==> |s.slots| <= s.counter)
    && (s.aborted || s.spawned < |s.workers| ==> s.workers[0].Unspawned?)
    && (forall w :: s.spawned <= w < |s.workers| ==> s.workers[w].Unspawned?)
    && (forall w :: 0 <= w < |s.workers| && s.workers[w].Starting? ==> s.workers[w].idx == w)
    && (!s.aborted ==> forall w :: 0 <= w < |s.workers| && s.workers[w].Finished? ==> |s.slots| <= s.counter)
  }

  /** Each chunk being parsed has one worker, an empty slot, and was handed out. */
  ghost predicate Owners<T>(s: Machine<T>) {
    && (forall w: nat, i: nat :: HeldBy(s, w, i) ==>
          i < |s.slots| && s.slots[i].None? && HandedOut(s, i) && (i < |s.workers| ==> i == w))
    && (forall w: nat, x: nat, i: nat :: HeldBy(s, w, i) && HeldBy(s, x, i) ==> w == x)
  }

  ghost predicate Filled<T(!new)>(s: Machine<T>, output: nat -> T) {
    forall i :: 0 <= i < |s.slots| && s.slots[i].Some? ==> s.slots[i].value == output(i) && HandedOut(s, i)
  }

  /** Unless spawning failed, a handed-out chunk is either stored or being parsed. */
  ghost predicate NoneLost<T>(s: Machine<T>) {
    !s.aborted ==> forall i :: 0 <= i < |s.slots| && HandedOut(s, i) && s.slots[i].None? ==> exists w: nat :: HeldBy(s, w, i)
  }

  ghost predicate Inv<T(!new)>(s: Machine<T>, output: nat -> T) {
    Shape(s) && Owners(s) && Filled(s, output) && NoneLost(s)
  }

  lemma InitialInv<T(!new)>(threads: nat, chunks: nat, output: nat -> T)
    requires 1 <= threads <= chunks
    ensures Inv(Initial(threads, chunks), output)
  {
  }

  lemma ApplyShape<T(!new)>(s: Machine<T>, e: Event, output: nat -> T)
    requires Shape(s) && Enabled(s, e)
    ensures Shape(Apply(s, e, output))
  {
  }

  lemma ApplyOwners<T(!new)>(s: Machine<T>, e: Event, output: nat -> T)
    requires Shape(s) && Owners(s) && Filled(s, output) && Enabled(s, e)
    ensures Owners(Apply(s, e, output))
  {
    var t := Apply(s, e, output);
    if e.Write? {
      assert HeldBy(s, e.w, s.workers[e.w].idx);
    }
    forall x: nat, i: nat | HeldBy(t, x, i)
      ensures HeldBy(s, x, i) || (e.Open? && x == e.w == i) || (e.Draw? && x == e.w && i == s.counter)
      ensures i < |t.slots| && t.slots[i].None? && HandedOut(t, i) && (i < |t.workers| ==> i == x)
    {
      if HeldBy(s, x, i) {
        assert HandedOut(s, i);
      }
    }
  }

  lemma ApplyFilled<T(!new)>(s: Machine<T>, e: Event, output: nat -> T)
    requires Shape(s) && Owners(s) && Filled(s, output) && Enabled(s, e)
    ensures Filled(Apply(s, e, output), output)
  {
    if e.Write? {
      assert HeldBy(s, e.w, s.workers[e.w].idx);
    }
  }

  lemma ApplyNoneLost<T(!new)>(s: Machine<T>, e: Event, output: nat -> T)
    requires Shape(s) && Owners(s) && NoneLost(s) && Enabled(s, e)
    ensures NoneLost(Apply(s, e, output))
  {
    var t := Apply(s, e, output);
    forall i: nat | !t.aborted && 0 <= i < |t.slots| && HandedOut(t, i) && t.slots[i].None?
      ensures exists w: nat :: HeldBy(t, w, i)
    {
      if HandedOut(s, i) {
        var w: nat :| HeldBy(s, w, i);
        assert HeldBy(t, w, i);
      } else {
        assert HeldBy(t, e.w, i);
      }
    }
  }

  /** Every step keeps the invariant. */
  lemma ApplyInv<T(!new)>(s: Machine<T>, e: Event, output: nat -> T)
    requires Inv(s, output) && Enabled(s, e)
    ensures Inv(Apply(s, e, output), output)
  {
    hide Shape, Owners, Filled, NoneLost, Apply, Enabled;
    ApplyShape(s, e, output);
    ApplyOwners(s, e, output);
    ApplyFilled(s, e, output);
    ApplyNoneLost(s, e, output);
  }

  /** A schedule: one enabled event after another. */
  ghost predicate Schedule<T(!new)>(s: Machine<T>, events: seq<Event>, output: nat -> T)
    decreases |events|
  {
    events != [] ==> Enabled(s, events[0]) && Schedule(Apply(s, events[0], output), events[1..], output)
  }

  ghost function After<T(!new)>(s: Machine<T>, events: seq<Event>, output: nat -> T): Machine<T>
    requires Schedule(s, events, output)
    decreases |events|
  {
    if events == [] then s else After(Apply(s, events[0], output), events[1..], output)
  }

  predicate WritesSlot<T>(s: Machine<T>, e: Event, i: nat) {
    e.Write? && HeldBy(s, e.w, i)
  }

  /** How often a schedule writes slot `i`. */
  ghost function Writes<T(!new)>(s: Machine<T>, events: seq<Event>, i: nat, output: nat -> T): nat
    requires Schedule(s, events, output)
    decreases |events|
  {
    if events == [] then 0
    else (if WritesSlot(s, events[0], i) then 1 else 0) + Writes(Apply(s, events[0], output), events[1..], i, output)
  }

  /** Along any schedule a slot is written once if it goes from empty to full, and otherwise never. */
  lemma {:induction false} WriteOnce<T(!new)>(s: Machine<T>, events: seq<Event>, i: nat, output: nat -> T)
    requires Inv(s, output) && Schedule(s, events, output) && i < |s.slots|
    ensures var t := After(s, events, output);
            && Inv(t, output)
            && |t.slots| == |s.slots| && |t.workers| == |s.workers|
            && Writes(s, events, i, output) == (if s.slots[i].None? && t.slots[i].Some? then 1 else 0)
            && (s.slots[i].Some? ==> t.slots[i].Some?)
    decreases |events|
  {
    hide Inv;
    if events != [] {
      ApplyInv(s, events[0], output);
      OneStep(s, events[0], i, output);
      WriteOnce(Apply(s, events[0], output), events[1..], i, output);
    }
  }

  lemma OneStep<T(!new)>(s: Machine<T>, e: Event, i: nat, output: nat -> T)
    requires Inv(s, output) && Enabled(s, e) && i < |s.slots|
    ensures var t := Apply(s, e, output);
            && |t.slots| == |s.slots| && |t.workers| == |s.workers|
            && (WritesSlot(s, e, i) <==> s.slots[i].None? && t.slots[i].Some?)
            && (s.slots[i].Some? ==> t.slots[i] == s.slots[i])
  {
    if e.Write? {
      assert HeldBy(s, e.w, s.workers[e.w].idx);
    }
  }

  predicate AllFinished<T>(s: Machine<T>) {
    forall w :: 0 <= w < |s.workers| ==> s.workers[w].Finished?
  }

  /** When every worker has finished without error, every slot holds its own chunk's output. */
  lemma FinishedMeansFull<T(!new)>(s: Machine<T>, output: nat -> T)
    requires Inv(s, output) && AllFinished(s)
    ensures forall i :: 0 <= i < |s.slots| ==> s.slots[i] == Some(output(i))
  {
    assert !s.aborted && s.workers[0].Finished?;
    forall i: nat | 0 <= i < |s.slots|
      ensures s.slots[i] == Some(output(i))
    {
      assert HandedOut(s, i);
      assert s.slots[i].None? ==> exists w: nat :: HeldBy(s, w, i);
    }
  }

  /** Exactly-once processing: whatever the interleaving, a run whose workers all finish writes every slot once. */
  lemma ExactlyOnce<T(!new)>(threads: nat, chunks: nat, events: seq<Event>, i: nat, output: nat -> T)
    requires 1 <= threads <= chunks && i < chunks
    requires Schedule(Initial(threads, chunks), events, output)
    ensures var t := After(Initial<T>(threads, chunks), events, output);
            && Writes(Initial<T>(threads, chunks), events, i, output) <= 1
            && |t.slots| == chunks
            && (AllFinished(t) ==> Writes(Initial<T>(threads, chunks), events, i, output) == 1 && t.slots[i] == Some(output(i)))
  {
    InitialInv(threads, chunks, output);
    WriteOnce(Initial(threads, chunks), events, i, output);
    var t := After(Initial<T>(threads, chunks), events, output);
    if AllFinished(t) {
      FinishedMeansFull(t, output);
    }
  }

  /** Once a failed spawn has stored the chunk count, no further chunk index is drawn, and the run cannot look complete. */
  lemma {:induction false} NothingAfterAbort<T(!new)>(s: Machine<T>, events: seq<Event>, output: nat -> T)
    requires Inv(s, output) && s.aborted && Schedule(s, events, output)
    ensures var t := After(s, events, output);
            && t.aborted && !AllFinished(t)
            && forall w: nat, i: nat :: HeldBy(t, w, i) ==> HeldBy(s, w, i) || (i == w && w < |s.workers| && s.workers[w].Starting?)
    decreases |events|
  {
    if events != [] {
      ApplyInv(s, events[0], output);
      NothingAfterAbort(Apply(s, events[0], output), events[1..], output);
    }
  }
}
