/** The two chunk parsers behind one interface. */
module Parsers {
  import opened Dialect
  import opened Records
  import opened Chunk
  import opened Segments
  import opened Index
  import opened Answer
  import opened ChunkParser
  import opened SimdParser

  /** Where a parser's search for the chunk's first record boundary ends. */
  function Search(j: Job, vectors: bool, start: nat, bnd: nat, a: Assumption, mode: FindMode): Found
    requires start <= |j.data|
  {
    if vectors then VectorLocate(j.cfg, j.data, start, bnd, a, mode) else Locate(j, start, bnd, a, mode)
  }

  /** No search misses a boundary that the table's finds; with doubled or absent quotes they end alike. */
  lemma SearchFinds(j: Job, vectors: bool, start: nat, bnd: nat, a: Assumption, mode: FindMode)
    requires start <= |j.data| && a in Assumptions(j.cfg) && (vectors ==> Supported(j.cfg))
    ensures Locate(j, start, bnd, a, mode).At? ==> Search(j, vectors, start, bnd, a, mode) == Locate(j, start, bnd, a, mode)
    ensures mode != FindStrict || j.cfg.quote.None? || j.cfg.Doubled() ==> Search(j, vectors, start, bnd, a, mode) == Locate(j, start, bnd, a, mode)
  {
    hide VectorLocate, Locate;
    if vectors {
      LocatesAgree(j, start, bnd, a, mode);
    }
  }

  /**
   * What every chunk parser promises: no pass where its search finds no boundary, a failed one
   * where it is refused, and otherwise one that starts on the boundary and answers for the
   * records from there.
   */
  ghost predicate Answers(j: Job, text: bool, vectors: bool, start: nat, bnd: nat, a: Assumption, mode: FindMode, r: PassResult)
    requires start <= |j.data|
  {
    var found := Search(j, vectors, start, bnd, a, mode);
    && (found.Nowhere? ==> r == NoRecord)
    && (found.Refused? ==> r == PassResult.Failed(InvalidQuote(found.at)))
    && (found.At? ==> r.Started? && r.start == found.pos && Fits(j, text, r.start, bnd, r.outcome))
  }

  datatype AnyParser = Table(dfa: DfaChunkParser) | Vectors(simd: SimdChunkParser) {
    function Dialect(): Config {
      match this
      case Table(dfa) => dfa.cfg
      case Vectors(simd) => simd.cfg
    }

    ghost predicate Valid() {
      match this
      case Table(dfa) => dfa.Valid()
      case Vectors(simd) => Supported(simd.cfg)
    }

    /** The vectors' offsets are machine words, with a few vectors to spare. */
    predicate Holds(data: seq<byte>) {
      Vectors? ==> |data| + 192 <= WORD
    }

    method Parse(data: seq<byte>, start: nat, bnd: nat, a: Assumption, mode: FindMode, accept: Record -> bool, text: bool) returns (r: PassResult)
      requires Valid() && Holds(data) && start <= |data| && bnd <= |data| && a in Assumptions(Dialect()) && (text ==> Dialect().AsciiControls())
      ensures Answers(Job(Dialect(), data, accept), text, Vectors?, start, bnd, a, mode, r)
      ensures Table? && !text ==> r == Chunk.Parse(Job(Dialect(), data, accept), start, bnd, a, mode)
    {
      hide Chunk.Parse, Locate, Exact, Fits, VectorLocate, BadRecord.Placed;
      ghost var j := Job(Dialect(), data, accept);
      match this {
        case Table(dfa) =>
          r := dfa.Parse(data, start, bnd, a, mode, accept, text);
          if r.Started? {
            ExactFits(j, text, r.start, bnd, r.outcome);
          }
        case Vectors(simd) =>
          r := simd.Parse(data, start, bnd, a, mode, accept, text);
      }
    }
  }

  lemma ExactFits(j: Job, text: bool, start: nat, bnd: nat, o: Outcome)
    ensures Exact(j, text, start, bnd, o) ==> Fits(j, text, start, bnd, o)
  {
    hide Fits;
  }

  /** Both parsers for one dialect; the vectors' constructor is for the dialects they support. */
  method Choose(cfg: Config, vectors: bool, fastPext: bool) returns (p: AnyParser)
    requires cfg.Valid()
    ensures p.Valid() && p.Dialect() == cfg && (p.Vectors? <==> vectors && SimdChunkParser.Supports(cfg))
  {
    if vectors && SimdChunkParser.Supports(cfg) {
      var simd := new SimdChunkParser(cfg, fastPext);
      p := Vectors(simd);
    } else {
      var dfa := new DfaChunkParser(cfg);
      p := Table(dfa);
    }
  }
}
