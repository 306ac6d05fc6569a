/** Speculative passes over every chunk. */
module Scheduler {
  import opened Dialect
  import opened Records
  import opened Chunk
  import opened Segments
  import opened Answer
  import opened Parsers

  datatype Pass = Pass(recordStart: nat, outcome: Outcome)

  datatype ChunkOutput = ChunkOutput(passes: seq<Pass>, recordEnd: Option<nat>)

  datatype TryOutcome = Resolved(passes: seq<Pass>, recordEnd: Option<nat>) | CleanNoBoundary | AllFailed

  /** What the passes produced so far, and the assumptions still to try, amount to. */
  function TryRest(j: Job, start: nat, bnd: nat, mode: FindMode, todo: seq<Assumption>, passes: seq<Pass>, sawClean: bool): TryOutcome
    requires start <= |j.data|
    decreases |todo|
  {
    if todo == [] then
      if passes != [] then Resolved(passes, None)
      else if sawClean then CleanNoBoundary
      else AllFailed
    else
      match Parse(j, start, bnd, todo[0], mode)
      case Started(s, o) =>
        if o.Ok? then Resolved(passes + [Pass(s, o)], o.end)
        else TryRest(j, start, bnd, mode, todo[1..], passes + [Pass(s, o)], sawClean)
      case NoRecord => TryRest(j, start, bnd, mode, todo[1..], passes, true)
      case Failed(_) => TryRest(j, start, bnd, mode, todo[1..], passes, sawClean)
  }

  /** The passes from the assumptions tried so far, and whether one of them searched in vain; the first assumption's is in front. */
  ghost predicate Tried(j: Job, text: bool, vectors: bool, start: nat, bnd: nat, mode: FindMode, tried: seq<Assumption>, passes: seq<Pass>, sawClean: bool)
    requires start <= |j.data|
  {
    && (forall p :: p in passes ==> Fits(j, text, p.recordStart, bnd, p.outcome))
    && (passes != [] <==> exists a :: a in tried && Search(j, vectors, start, bnd, a, mode).At?)
    && (sawClean <==> exists a :: a in tried && Search(j, vectors, start, bnd, a, mode).Nowhere?)
    && (tried != [] && Search(j, vectors, start, bnd, tried[0], mode).At? ==> passes != [] && passes[0].recordStart == Search(j, vectors, start, bnd, tried[0], mode).pos)
  }

  lemma TriedMore(j: Job, text: bool, vectors: bool, start: nat, bnd: nat, mode: FindMode, tried: seq<Assumption>, passes: seq<Pass>, sawClean: bool, a: Assumption, r: PassResult)
    requires start <= |j.data| && Tried(j, text, vectors, start, bnd, mode, tried, passes, sawClean) && Answers(j, text, vectors, start, bnd, a, mode, r)
    ensures Tried(j, text, vectors, start, bnd, mode, tried + [a], if r.Started? then passes + [Pass(r.start, r.outcome)] else passes, sawClean || r.NoRecord?)
  {
    hide Fits, Search;
    assert forall b :: b in tried + [a] <==> b in tried || b == a;
    assert (tried + [a])[0] == if tried == [] then a else tried[0];
  }

  /** What a round of assumptions leaves, whichever parser made it. */
  ghost predicate Round(j: Job, text: bool, vectors: bool, start: nat, bnd: nat, mode: FindMode, r: TryOutcome)
    requires start <= |j.data|
  {
    var out := FromTry(r);
    && (forall p :: p in out.passes ==> Fits(j, text, p.recordStart, bnd, p.outcome))
    && (forall i :: 0 <= i < |out.passes| && out.passes[i].outcome.Ok? ==> i == |out.passes| - 1 && out.recordEnd == out.passes[i].outcome.end)
    && (out.recordEnd.Some? ==> out.recordEnd.value <= |j.data|)
    && (Search(j, vectors, start, bnd, AssumeOut, mode).At? ==> out.passes != [] && out.passes[0].recordStart == Search(j, vectors, start, bnd, AssumeOut, mode).pos)
    && (r.Resolved? <==> out.passes != [])
    && (r.Resolved? <==> exists a :: a in Assumptions(j.cfg) && Search(j, vectors, start, bnd, a, mode).At?)
    && (r.AllFailed? <==> forall a :: a in Assumptions(j.cfg) ==> Search(j, vectors, start, bnd, a, mode).Refused?)
  }

  /** A successful pass ends in the input. */
  lemma FittingEnd(j: Job, text: bool, start: nat, bnd: nat, o: Outcome)
    requires Fits(j, text, start, bnd, o) && o.Ok? && o.end.Some?
    ensures o.end.value <= |j.data|
  {
    BodyIsScan(j, start, bnd);
    EndInRange(j, start, bnd, Fresh(start), None);
  }

  /** Go through the assumptions until one pass succeeds. */
  method TryAssumptions(parser: AnyParser, data: seq<byte>, accept: Record -> bool, text: bool, start: nat, bnd: nat, mode: FindMode)
    returns (r: TryOutcome)
    requires parser.Valid() && parser.Holds(data) && start <= |data| && bnd <= |data| && (text ==> parser.Dialect().AsciiControls())
    ensures Round(Job(parser.Dialect(), data, accept), text, parser.Vectors?, start, bnd, mode, r)
    ensures parser.Table? && !text ==>
              var j := Job(parser.Dialect(), data, accept); r == TryRest(j, start, bnd, mode, Assumptions(j.cfg), [], false)
  {
    hide Chunk.Parse, Fits, Search, Answers, Tried, TryRest;
    ghost var j, vectors := Job(parser.Dialect(), data, accept), parser.Vectors?;
    var assumptions := Assumptions(parser.Dialect());
    var passes: seq<Pass> := [];
    var recordEnd: Option<nat> := None;
    var sawClean := false;
    var i := 0;
    NothingTried(j, text, vectors, start, bnd, mode);
    while i < |assumptions|
      invariant 0 <= i <= |assumptions|
      invariant recordEnd == None && (forall p :: p in passes ==> p.outcome.Err?)
      invariant Tried(j, text, vectors, start, bnd, mode, assumptions[..i], passes, sawClean)
      invariant parser.Table? && !text ==>
                  TryRest(j, start, bnd, mode, assumptions, [], false) == TryRest(j, start, bnd, mode, assumptions[i..], passes, sawClean)
    {
      assert assumptions[i..][1..] == assumptions[i + 1..] && assumptions[i..][0] == assumptions[i];
      assert assumptions[..i + 1] == assumptions[..i] + [assumptions[i]];
      var pr := parser.Parse(data, start, bnd, assumptions[i], mode, accept, text);
      TriedMore(j, text, vectors, start, bnd, mode, assumptions[..i], passes, sawClean, assumptions[i], pr);
      TryOne(j, start, bnd, mode, assumptions[i..], passes, sawClean);
      match pr {
        case Started(s, o) =>
          passes := passes + [Pass(s, o)];
          if o.Ok? {
            recordEnd := o.end;
            i := i + 1;
            break;
          }
        case NoRecord =>
          sawClean := true;
        case Failed(_) =>
      }
      i := i + 1;
    }
    AfterRound(j, text, vectors, start, bnd, mode, assumptions, i, passes, sawClean, recordEnd);
    TryNone(j, start, bnd, mode, passes, sawClean);
    assert i == |assumptions| ==> assumptions[i..] == [];
    if passes != [] {
      r := Resolved(passes, recordEnd);
    } else if sawClean {
      r := CleanNoBoundary;
    } else {
      r := AllFailed;
    }
  }

  lemma NothingTried(j: Job, text: bool, vectors: bool, start: nat, bnd: nat, mode: FindMode)
    requires start <= |j.data|
    ensures Tried(j, text, vectors, start, bnd, mode, [], [], false)
  {
    hide Search;
  }

  lemma TryOne(j: Job, start: nat, bnd: nat, mode: FindMode, todo: seq<Assumption>, passes: seq<Pass>, sawClean: bool)
    requires start <= |j.data| && todo != []
    ensures var p := Chunk.Parse(j, start, bnd, todo[0], mode);
            TryRest(j, start, bnd, mode, todo, passes, sawClean) ==
              if p.Started? && p.outcome.Ok? then Resolved(passes + [Pass(p.start, p.outcome)], p.outcome.end)
              else if p.Started? then TryRest(j, start, bnd, mode, todo[1..], passes + [Pass(p.start, p.outcome)], sawClean)
              else TryRest(j, start, bnd, mode, todo[1..], passes, sawClean || p.NoRecord?)
  {
    hide Chunk.Parse;
  }

  lemma TryNone(j: Job, start: nat, bnd: nat, mode: FindMode, passes: seq<Pass>, sawClean: bool)
    requires start <= |j.data|
    ensures TryRest(j, start, bnd, mode, [], passes, sawClean)
         == if passes != [] then Resolved(passes, None) else if sawClean then CleanNoBoundary else AllFailed
  {
  }

  /** How a round ends. */
  function RoundResult(passes: seq<Pass>, sawClean: bool, recordEnd: Option<nat>): TryOutcome {
    if passes != [] then Resolved(passes, recordEnd) else if sawClean then CleanNoBoundary else AllFailed
  }

  /** The end of a round: all assumptions were tried, or the last pass succeeded. */
  lemma AfterRound(j: Job, text: bool, vectors: bool, start: nat, bnd: nat, mode: FindMode, todo: seq<Assumption>, i: nat, passes: seq<Pass>, sawClean: bool, recordEnd: Option<nat>)
    requires start <= |j.data| && todo == Assumptions(j.cfg) && 1 <= i <= |todo| && Tried(j, text, vectors, start, bnd, mode, todo[..i], passes, sawClean)
    requires i < |todo| ==> passes != [] && passes[|passes| - 1].outcome.Ok?
    requires forall k :: 0 <= k < |passes| && passes[k].outcome.Ok? ==> k == |passes| - 1 && recordEnd == passes[k].outcome.end
    requires recordEnd.Some? ==> passes != [] && passes[|passes| - 1].outcome.Ok?
    ensures Round(j, text, vectors, start, bnd, mode, RoundResult(passes, sawClean, recordEnd))
    ensures passes == [] ==> recordEnd == None
  {
    hide Fits, Search, Assumptions;
    assert todo[..i][0] == AssumeOut by { OutFirst(j.cfg); }
    if recordEnd.Some? {
      var p := passes[|passes| - 1];
      assert p in passes;
      FittingEnd(j, text, p.recordStart, bnd, p.outcome);
    }
    assert forall a :: a in todo[..i] ==> a in todo;
    if i == |todo| {
      assert todo[..i] == todo;
    }
  }

  lemma OutFirst(c: Config)
    ensures |Assumptions(c)| >= 1 && Assumptions(c)[0] == AssumeOut
  {
  }

  function FromTry(t: TryOutcome): ChunkOutput {
    match t
    case Resolved(passes, recordEnd) => ChunkOutput(passes, recordEnd)
    case _ => ChunkOutput([], None)
  }

  function FindModeFor(hasHeaders: bool, idx: nat): FindMode {
    if idx == 0 then (if hasHeaders then SkipHeaders else FindNone) else FindStrict
  }

  /** The speculative output of the chunk `[start, bnd)`. */
  function ChunkResult(j: Job, start: nat, bnd: nat, mode: FindMode): ChunkOutput
    requires start <= |j.data|
  {
    var first := TryRest(j, start, bnd, mode, Assumptions(j.cfg), [], false);
    if first.AllFailed? && mode == FindStrict then
      FromTry(TryRest(j, start, bnd, FindLenient, Assumptions(j.cfg), [], false))
    else FromTry(first)
  }

  /**
   * The searches leave a chunk without a boundary: no assumption finds one, and unless one of
   * them searched in vain, which forgoes the retry, no lenient search does either.
   */
  predicate Barren(j: Job, vectors: bool, start: nat, bnd: nat, mode: FindMode)
    requires start <= |j.data|
  {
    && (forall a :: a in Assumptions(j.cfg) ==> !Search(j, vectors, start, bnd, a, mode).At?)
    && (mode == FindStrict ==>
          || (exists a :: a in Assumptions(j.cfg) && Search(j, vectors, start, bnd, a, FindStrict).Nowhere?)
          || (forall a :: a in Assumptions(j.cfg) ==> !Search(j, vectors, start, bnd, a, FindLenient).At?))
  }

  /** A chunk behind the first that its searches leave without a boundary, by its index. */
  predicate BarrenChunk(j: Job, vectors: bool, size: nat, i: nat) {
    i * size <= |j.data| && Barren(j, vectors, i * size, Min(i * size + size, |j.data|), FindStrict)
  }

  /** With doubled or absent quotes the vectors leave the same chunks without a boundary as the table. */
  lemma BarrenAlike(j: Job, start: nat, bnd: nat, mode: FindMode)
    requires start <= |j.data| && Supported(j.cfg) && (j.cfg.quote.None? || j.cfg.Doubled())
    ensures Barren(j, true, start, bnd, mode) <==> Barren(j, false, start, bnd, mode)
  {
    hide Search, Locate;
    forall a, m | a in Assumptions(j.cfg) ensures Search(j, true, start, bnd, a, m) == Search(j, false, start, bnd, a, m) {
      SearchFinds(j, true, start, bnd, a, m);
      SearchFinds(j, false, start, bnd, a, m);
    }
  }

  /** What a chunk's passes amount to, whichever parser made them. */
  ghost predicate Produced(j: Job, text: bool, vectors: bool, start: nat, bnd: nat, mode: FindMode, out: ChunkOutput)
    requires start <= |j.data|
  {
    && (forall p :: p in out.passes ==> Fits(j, text, p.recordStart, bnd, p.outcome))
    && (forall i :: 0 <= i < |out.passes| && out.passes[i].outcome.Ok? ==> i == |out.passes| - 1 && out.recordEnd == out.passes[i].outcome.end)
    && (out.recordEnd.Some? ==> out.recordEnd.value <= |j.data|)
    && (mode != FindStrict && Locate(j, start, bnd, AssumeOut, mode).At? ==> out.passes != [] && out.passes[0].recordStart == Locate(j, start, bnd, AssumeOut, mode).pos)
    && (out.passes == [] <==> Barren(j, vectors, start, bnd, mode))
    && (forall a :: a in Assumptions(j.cfg) && Locate(j, start, bnd, a, mode).At? ==> out.passes != [])
  }

  /** Unless it is retried, a round is all there is. */
  lemma RoundIsProduced(j: Job, text: bool, vectors: bool, start: nat, bnd: nat, mode: FindMode, r: TryOutcome)
    requires start <= |j.data| && (vectors ==> Supported(j.cfg)) && Round(j, text, vectors, start, bnd, mode, r) && (r.AllFailed? ==> mode != FindStrict)
    ensures Produced(j, text, vectors, start, bnd, mode, FromTry(r))
  {
    hide Fits, Locate, Search, Supported;
    assert Assumptions(j.cfg)[0] == AssumeOut;
    forall a | a in Assumptions(j.cfg) ensures Locate(j, start, bnd, a, mode).At? ==> Search(j, vectors, start, bnd, a, mode) == Locate(j, start, bnd, a, mode) {
      SearchFinds(j, vectors, start, bnd, a, mode);
    }
  }

  /** A retry only follows a round in which every search was refused. */
  lemma RetryIsProduced(j: Job, text: bool, vectors: bool, start: nat, bnd: nat, first: TryOutcome, second: TryOutcome)
    requires start <= |j.data| && (vectors ==> Supported(j.cfg))
    requires Round(j, text, vectors, start, bnd, FindStrict, first) && first.AllFailed? && Round(j, text, vectors, start, bnd, FindLenient, second)
    ensures Produced(j, text, vectors, start, bnd, FindStrict, FromTry(second))
  {
    hide Fits, Locate, Search, Supported;
    forall a | a in Assumptions(j.cfg) ensures Locate(j, start, bnd, a, FindStrict).At? ==> Search(j, vectors, start, bnd, a, FindStrict) == Locate(j, start, bnd, a, FindStrict) {
      SearchFinds(j, vectors, start, bnd, a, FindStrict);
    }
  }

  /** Process one chunk: the strict round, and a lenient retry when every assumption is refused. */
  method ProcessChunk(parser: AnyParser, data: seq<byte>, accept: Record -> bool, text: bool, chunkSize: nat, hasHeaders: bool, idx: nat)
    returns (r: ChunkOutput)
    requires parser.Valid() && parser.Holds(data) && idx * chunkSize <= |data| && (text ==> parser.Dialect().AsciiControls())
    ensures Produced(Job(parser.Dialect(), data, accept), text, parser.Vectors?, idx * chunkSize, Min(idx * chunkSize + chunkSize, |data|), FindModeFor(hasHeaders, idx), r)
    ensures parser.Table? && !text ==>
              r == ChunkResult(Job(parser.Dialect(), data, accept), idx * chunkSize, Min(idx * chunkSize + chunkSize, |data|), FindModeFor(hasHeaders, idx))
  {
    hide TryRest, Round, Produced, Locate, Supported;
    ghost var j, vectors := Job(parser.Dialect(), data, accept), parser.Vectors?;
    var start := idx * chunkSize;
    var bnd := Min(start + chunkSize, |data|);
    var mode := FindModeFor(hasHeaders, idx);
    var first := TryAssumptions(parser, data, accept, text, start, bnd, mode);
    if !(first.AllFailed? && mode == FindStrict) {
      RoundIsProduced(j, text, vectors, start, bnd, mode, first);
    }
    match first {
      case Resolved(passes, recordEnd) => r := ChunkOutput(passes, recordEnd);
      case CleanNoBoundary => r := ChunkOutput([], None);
      case AllFailed =>
        if mode == FindStrict {
          var second := TryAssumptions(parser, data, accept, text, start, bnd, FindLenient);
          RetryIsProduced(j, text, vectors, start, bnd, first, second);
          r := if second.Resolved? then ChunkOutput(second.passes, second.recordEnd) else ChunkOutput([], None);
        } else {
          r := ChunkOutput([], None);
        }
    }
  }

  /**
   * Every pass is what a parse from its record start yields, so passes with equal starts are
   * equal; only the last can succeed, and the chunk's record end is that one's.
   */
  ghost predicate Consistent(j: Job, bnd: nat, out: ChunkOutput) {
    && (forall p :: p in out.passes ==> p.recordStart <= |j.data| && p.outcome == Body(j, p.recordStart, bnd))
    && (forall i :: 0 <= i < |out.passes| && out.passes[i].outcome.Ok? ==>
          i == |out.passes| - 1 && out.recordEnd == out.passes[i].outcome.end)
  }

  lemma {:induction false} TryConsistent(j: Job, start: nat, bnd: nat, mode: FindMode, todo: seq<Assumption>, passes: seq<Pass>, sawClean: bool)
    requires start <= |j.data|
    requires forall p :: p in passes ==> p.recordStart <= |j.data| && p.outcome == Body(j, p.recordStart, bnd) && p.outcome.Err?
    ensures Consistent(j, bnd, FromTry(TryRest(j, start, bnd, mode, todo, passes, sawClean)))
    decreases |todo|
  {
    if todo != [] {
      match Parse(j, start, bnd, todo[0], mode)
      case Started(s, o) =>
        if o.Err? { TryConsistent(j, start, bnd, mode, todo[1..], passes + [Pass(s, o)], sawClean); }
      case NoRecord => TryConsistent(j, start, bnd, mode, todo[1..], passes, true);
      case Failed(_) => TryConsistent(j, start, bnd, mode, todo[1..], passes, sawClean);
    }
  }

  lemma ChunkConsistent(j: Job, start: nat, bnd: nat, mode: FindMode)
    requires start <= |j.data|
    ensures Consistent(j, bnd, ChunkResult(j, start, bnd, mode))
  {
    TryConsistent(j, start, bnd, mode, Assumptions(j.cfg), [], false);
    TryConsistent(j, start, bnd, FindLenient, Assumptions(j.cfg), [], false);
  }

  /** An assumption whose search finds a boundary leaves the chunk with a pass. */
  lemma {:induction false} TryNonEmpty(j: Job, start: nat, bnd: nat, mode: FindMode, todo: seq<Assumption>, passes: seq<Pass>, sawClean: bool, a: Assumption)
    requires start <= |j.data|
    requires passes != [] || (a in todo && Parse(j, start, bnd, a, mode).Started?)
    ensures var t := TryRest(j, start, bnd, mode, todo, passes, sawClean);
            t.Resolved? && t.passes != [] && passes <= t.passes
    decreases |todo|
  {
    if todo != [] {
      match Parse(j, start, bnd, todo[0], mode)
      case Started(s, o) =>
        if o.Err? { TryNonEmpty(j, start, bnd, mode, todo[1..], passes + [Pass(s, o)], sawClean, a); }
      case NoRecord => TryNonEmpty(j, start, bnd, mode, todo[1..], passes, true, a);
      case Failed(_) => TryNonEmpty(j, start, bnd, mode, todo[1..], passes, sawClean, a);
    }
  }
}
