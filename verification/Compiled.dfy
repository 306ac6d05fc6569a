/** Compiling a dialect into a lookup table and its needle sets. */
module Compiled {
  import opened Dialect
  import opened Dfa
  import opened Needles

  datatype Tables = Tables(
    cells: seq<seq<Transition>>,
    recordStartStructural: seq<bool>,
    inField: StructuralNeedles,
    inQuoted: StructuralNeedles)
  {
    predicate Valid() {
      && |cells| == 10 && (forall s :: 0 <= s < 10 ==> |cells[s]| == 256)
      && |recordStartStructural| == 256
      && inField.Valid() && inQuoted.Valid()
    }

    function Transition(s: State, b: byte): Transition
      requires Valid()
    {
      cells[Row(s)][b as int]
    }
  }

  function Row(s: State): (r: nat)
    ensures r < 10
  {
    match s
    case InField => 0
    case InQuotedField => 1
    case RecordStart => 2
    case FieldStart => 3
    case AfterClosingQuote => 4
    case InEscapedQuote => 5
    case InComment => 6
    case FieldEnd => 7
    case RecordEnd => 8
    case Error => 9
  }

  /** Bytes that leave `InField`. */
  predicate EndsRun(c: Config, b: byte) {
    b == c.delimiter || c.IsTerm(b) || (c.IsQuote(b) && !c.quoteHandling.Literal?)
  }

  /** Bytes that leave `InQuotedField`. */
  predicate EndsQuotedRun(c: Config, b: byte) {
    (c.escape == Some(b) && !c.Doubled()) || c.IsQuote(b)
  }

  /** Exactly the non-structural bytes loop in place as content. */
  lemma RunsAreContent(c: Config, b: byte)
    requires c.Valid()
    ensures !EndsRun(c, b) ==> Cell(c, InField, b).next.InField? && Cell(c, InField, b).output
    ensures !EndsQuotedRun(c, b) <==> Cell(c, InQuotedField, b) == Keep(InQuotedField)
    ensures EndsRun(c, b) ==> !Cell(c, InField, b).next.InField?
  {
  }

  ghost predicate CompiledFrom(c: Config, t: Tables) {
    && t.Valid()
    && (forall s: State, b: byte :: t.Transition(s, b) == Cell(c, s, b))
    && (forall b: byte :: t.recordStartStructural[b as int] == !c.IsTerm(b))
    && (forall b: byte :: b in t.inField.bytes <==> EndsRun(c, b))
    && (forall b: byte :: b in t.inQuoted.bytes <==> EndsQuotedRun(c, b))
  }

  predicate Ascending(s: seq<byte>) {
    forall i, k :: 0 <= i < k < |s| ==> s[i] < s[k]
  }

  lemma {:induction false} AscendingFits(s: seq<byte>, within: set<byte>)
    requires Ascending(s) && forall b :: b in s ==> b in within
    ensures |s| <= |within|
    decreases |s|
  {
    if s != [] {
      var last := s[|s| - 1];
      var rest := s[..|s| - 1];
      forall b | b in rest ensures b in within - {last} {
        var i :| 0 <= i < |rest| && rest[i] == b;
        assert s[i] < last;
      }
      AscendingFits(rest, within - {last});
    }
  }

  /** The needle bytes of a mask: all of them, when no more than four are set. */
  method FromMask(mask: array<bool>, ghost within: set<byte>) returns (n: StructuralNeedles)
    requires mask.Length == 256 && |within| <= 4
    requires forall b: byte :: mask[b as int] ==> b in within
    ensures n.Valid() && forall b: byte :: b in n.bytes <==> mask[b as int]
  {
    var bytes: seq<byte> := [];
    var i := 0;
    while i < 256
      invariant 0 <= i <= 256
      invariant |bytes| <= 4 && Ascending(bytes)
      invariant forall b: byte :: b in bytes <==> (b as int) < i && mask[b as int]
    {
      if mask[i] {
        assert forall k :: 0 <= k < |bytes| ==> bytes[k] in bytes;
        assert mask[(i as byte) as int];
        AscendingFits(bytes + [i as byte], within);
        // Never more than four structural bytes, so none is dropped.
        if |bytes| < 4 {
          bytes := bytes + [i as byte];
        }
      }
      i := i + 1;
    }
    n := StructuralNeedles(bytes);
  }

  function ControlBytes(c: Config): (s: seq<byte>)
    ensures |s| <= 4
  {
    (match c.terminator case SingleByte(t) => [t] case CrLf => [CR, LF])
    + [c.delimiter] + (if c.quote.Some? then [c.quote.value] else [])
  }

  function QuotingBytes(c: Config): (s: seq<byte>)
    ensures |s| <= 4
  {
    (if c.quote.Some? then [c.quote.value] else []) + (if c.escape.Some? then [c.escape.value] else [])
  }

  function Members(s: seq<byte>): (r: set<byte>)
    ensures |r| <= |s| && forall b :: b in r <==> b in s
  {
    if s == [] then {} else Members(s[..|s| - 1]) + {s[|s| - 1]}
  }

  lemma SomeRows(c: Config, b: byte)
    ensures Cell(c, FieldStart, b) == FieldStartCell(c, b)
    ensures Cell(c, InEscapedQuote, b) == Keep(InQuotedField)
    ensures Cell(c, RecordStart, b) ==
              if c.IsTerm(b) then Goto(RecordStart)
              else if c.comment == Some(b) then Goto(InComment)
              else FieldStartCell(c, b)
    ensures Cell(c, FieldEnd, b) == Cell(c, RecordEnd, b) == Cell(c, Error, b) == Goto(Error)
  {
  }

  /** Column `i` of the interior rows the first pass builds. */
  method FirstPassColumn(c: Config, table: array2<Transition>, i: nat)
    requires table.Length0 == 10 && table.Length1 == 256 && i < 256
    requires forall s: State :: Row(s) >= 7 ==> table[Row(s), i] == Goto(Error)
    modifies table
    ensures forall s: State :: !s.RecordStart? ==> table[Row(s), i] == Cell(c, s, i as byte)
    ensures forall r, k :: 0 <= r < 10 && 0 <= k < 256 && k != i ==> table[r, k] == old(table[r, k])
  {
    hide Cell, FieldStartCell;
    var b := i as byte;
    SomeRows(c, b);
    table[3, i] := FieldStartCell(c, b);
    table[0, i] := Cell(c, InField, b);
    table[1, i] := Cell(c, InQuotedField, b);
    table[4, i] := Cell(c, AfterClosingQuote, b);
    table[5, i] := Keep(InQuotedField);
    table[6, i] := Cell(c, InComment, b);
  }

  /** The record-start row copies the field-start row built before it. */
  method SecondPassColumn(c: Config, table: array2<Transition>, recordStart: array<bool>, i: nat)
    requires table.Length0 == 10 && table.Length1 == 256 && recordStart.Length == 256 && i < 256
    requires recordStart[i]
    requires table[3, i] == Cell(c, FieldStart, i as byte)
    modifies table, recordStart
    ensures table[2, i] == Cell(c, RecordStart, i as byte)
    ensures recordStart[i] == !c.IsTerm(i as byte)
    ensures forall r, k :: 0 <= r < 10 && 0 <= k < 256 && (r != 2 || k != i) ==> table[r, k] == old(table[r, k])
    ensures forall k :: 0 <= k < 256 && k != i ==> recordStart[k] == old(recordStart[k])
  {
    hide Cell, FieldStartCell;
    var b := i as byte;
    SomeRows(c, b);
    if c.IsTerm(b) {
      recordStart[i] := false;
      table[2, i] := Goto(RecordStart);
    } else if c.comment == Some(b) {
      table[2, i] := Goto(InComment);
    } else {
      table[2, i] := table[3, i];
    }
  }

  method FirstPass(c: Config, table: array2<Transition>, inField: array<bool>, inQuoted: array<bool>)
    requires table.Length0 == 10 && table.Length1 == 256 && inField.Length == 256 && inQuoted.Length == 256
    requires inField != inQuoted
    requires forall r, k :: 0 <= r < 10 && 0 <= k < 256 ==> table[r, k] == Goto(Error)
    modifies table, inField, inQuoted
    ensures forall s: State, b: byte :: !s.RecordStart? ==> table[Row(s), b as int] == Cell(c, s, b)
    ensures forall b: byte :: inField[b as int] == EndsRun(c, b)
    ensures forall b: byte :: inQuoted[b as int] == EndsQuotedRun(c, b)
  {
    hide Cell, FieldStartCell, EndsRun, EndsQuotedRun;
    var i := 0;
    while i < 256
      invariant 0 <= i <= 256
      invariant forall s: State, b: byte :: (b as int) < i && !s.RecordStart? ==> table[Row(s), b as int] == Cell(c, s, b)
      invariant forall r, k :: 0 <= r < 10 && i <= k < 256 ==> table[r, k] == Goto(Error)
      invariant forall b: byte :: (b as int) < i ==> inField[b as int] == EndsRun(c, b)
      invariant forall b: byte :: (b as int) < i ==> inQuoted[b as int] == EndsQuotedRun(c, b)
    {
      FirstPassColumn(c, table, i);
      inField[i] := EndsRun(c, i as byte);
      inQuoted[i] := EndsQuotedRun(c, i as byte);
      i := i + 1;
    }
  }

  method SecondPass(c: Config, table: array2<Transition>, recordStart: array<bool>)
    requires table.Length0 == 10 && table.Length1 == 256 && recordStart.Length == 256
    requires forall s: State, b: byte :: !s.RecordStart? ==> table[Row(s), b as int] == Cell(c, s, b)
    requires forall k :: 0 <= k < 256 ==> recordStart[k]
    modifies table, recordStart
    ensures forall s: State, b: byte :: table[Row(s), b as int] == Cell(c, s, b)
    ensures forall b: byte :: recordStart[b as int] == !c.IsTerm(b)
  {
    hide Cell, FieldStartCell;
    var i := 0;
    while i < 256
      invariant 0 <= i <= 256
      invariant forall s: State, b: byte :: (s.RecordStart? ==> (b as int) < i) ==> table[Row(s), b as int] == Cell(c, s, b)
      invariant forall b: byte :: (b as int) < i ==> recordStart[b as int] == !c.IsTerm(b)
      invariant forall k :: i <= k < 256 ==> recordStart[k]
    {
      assert table[Row(FieldStart), (i as byte) as int] == Cell(c, FieldStart, i as byte);
      SecondPassColumn(c, table, recordStart, i);
      i := i + 1;
    }
  }

  function Frozen(table: array2<Transition>): (rows: seq<seq<Transition>>)
    requires table.Length0 == 10 && table.Length1 == 256
    reads table
    ensures |rows| == 10 && forall s :: 0 <= s < 10 ==> |rows[s]| == 256 && forall k :: 0 <= k < 256 ==> rows[s][k] == table[s, k]
  {
    seq(10, s requires 0 <= s < 10 reads table => seq(256, k requires 0 <= k < 256 reads table => table[s, k]))
  }

  method Build(c: Config) returns (t: Tables)
    requires c.Valid()
    ensures CompiledFrom(c, t)
  {
    hide Cell, FieldStartCell, EndsRun, EndsQuotedRun, Frozen, Row, Members, ControlBytes, QuotingBytes;
    var table := new Transition[10, 256]((i, k) => Goto(Error));
    var inField := new bool[256](_ => false);
    var inQuoted := new bool[256](_ => false);
    FirstPass(c, table, inField, inQuoted);
    var recordStart := new bool[256](_ => true);
    SecondPass(c, table, recordStart);
    ControlsCover(c);
    var fieldNeedles := FromMask(inField, Members(ControlBytes(c)));
    var quotedNeedles := FromMask(inQuoted, Members(QuotingBytes(c)));
    var rows := Frozen(table);
    t := Tables(rows, recordStart[..], fieldNeedles, quotedNeedles);
  }

  lemma ControlsCover(c: Config)
    ensures forall b: byte :: EndsRun(c, b) ==> b in ControlBytes(c)
    ensures forall b: byte :: EndsQuotedRun(c, b) ==> b in QuotingBytes(c)
  {
  }
}
