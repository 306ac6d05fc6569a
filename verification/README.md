# csveee: verification model

csveee cuts a CSV file into chunks, parses every chunk speculatively under each quote state it
might open in, and stitches the passes together where one record ends and the next begins. A chunk
is parsed by a byte-wise table or by a pipeline over 64-byte vectors. This project models both
parsers, the search for a chunk's first record, the refill loop and its buffers, the workers and
the merge, and proves that the run yields what one uninterrupted pass yields.

## How the model is laid out

`Records.Scan` steps the table of `Dfa.Cell` one byte at a time and is the reference for
everything else. `Records.Rest(j, h)` is what it makes of the input from offset `h` on: all the
records, or the first failure and the records before it. `Handed.Offered(j, h, v, f)` are the
records that the walk hands to the accumulator before it reaches byte `v`, a refused one included.
A `Job` holds the dialect, the bytes and an accumulator that accepts or refuses each record.

- **The dialect.** `Dialect`, `Validation`, `Dfa` (its table), `Writing` (the same dialect as a way
  of writing records down, without states), `Reading` (the two agree on every input), `RoundTrip`
  (a writer in bytes).
- **The run.** `Chunk`, `Header`, `Handoff`, `Search`, `Scheduler`, `Merge`, `FailurePoint`,
  `ParallelRun`, `Equivalence`, `LossExample`, `Comments` (the table), `Answer`, `Parsers`,
  `AnyRun` (any parser), `Workers`, `Pipeline`.
- **The table parser.** `Compiled` (table construction), `Bytes8`, `Needles`
  (word-wise search), `Runs`, `InPlace`, `Stepper`, `ChunkParser`.
- **The refill loop and its buffers.** `Utf8`, `Encoding` (which bytes are text), `Handed` (what is handed out by when), `FieldText`,
  `Driver`, `Capacity`, `LinearBuf`, `MirroredBuf`, `RingReader`, `ReaderLink`.
- **The vector parser.** `Masks`, `Bitmask`, `Stream` (what the masks mean, byte by byte),
  `VectorScanner` (in Scanner.dfy), `FieldCount`, `Segments`, `FieldWalk`, `RecordWalk`, `Stride`,
  `Refinement`, `Padding`, `Index`, `LiveIndex`, `Flush`, `Endings`, `Batch`, `Select`, `Ledger`,
  `BadRecord`, `IndexStepper` (quoted), `CellWalk`, `CellLedger`, `CursorStepper` (no quote character),
  `SimdStepper`, `SimdDriver`, `FindStart`, `SimdParser`.

Code that works in place is a class over an array (`DfaStepper`, `SimdIndexStepper`,
`SimdCursorStepper`, `Scanner`, `FieldCounter`, `StrictProbe`, `ChunkReader`, `ChunkDriver`,
`LinearBuf`, `MirroredBuf`, `RingBufChunkReader`); a loop of the source is a loop here. How much
arrives at a refill and in which order the workers run is left open, so each statement holds for
every refill schedule and every interleaving.

## Hypotheses

- *Valid dialect*: the control bytes are distinct, as `Config::validate` demands
  (src/config.rs:100-153).
- *Comments end on terminators* in the table's merge theorems: there is no comment byte, or records
  end on LF or CRLF. A comment line ends only on a line feed, or also a carriage return under CRLF
  (src/parser/dfa/table.rs:337-342), which need not be the record terminator, and without this
  safety fails (`Comments.SafeExactlyWhen`). On well-quoted input, moreover, *comments are plain*:
  they hold no quote. The theorems for either parser and for text know no comment byte.
- *The header, if any, ends inside chunk 0*: while no boundary is known the merge takes chunk 0's
  first pass (src/scheduler/merge.rs:66-69). `h` is where the records start, on the terminator that
  closes the first record (`Header.HeaderIsFirstRecord`).
- *Well-quoted*: the table of `QuoteHandling::Strict` refuses no byte, which the code ties to
  RFC 4180 (src/config.rs:54-56; rules 5 to 7 of section 2 of RFC 4180). Where a statement needs
  no such hypothesis it has none.
- *Text*: UTF-8 output demands ASCII control bytes (src/config.rs:157-174).
- *Supported*: the dialects of `SimdChunkParser::supports` (src/parser/simd/mod.rs:70-96).
- *Machine words*: for the vectors, the input and a few vectors more fit in a 64-bit offset.

## Findings

- **Badly quoted input can lose records.** A chunk without passes is skipped without moving the
  expected boundary (src/scheduler/merge.rs:54-59), and nothing reparses behind the last chunk. A
  clean search under a wrong assumption gets no lenient retry (src/scheduler/mod.rs:394-480), so
  the last chunk can be left without a pass. `LossExample.ParallelCanLoseRecords` is a run over
  twelve bytes in two chunks, one record lost.
- **A rejected input can be accepted.** With an accumulator that refuses the lost record, one pass
  fails and the parallel run reports success: `LossExample.ParallelCanAcceptTheRejected`. Even then
  it yields nothing but the first records that the pass handed out before it failed:
  `ParallelRun.MergeSafety` for the table, `AnyRun.AnyMergeSafety` for either parser.
- **Exactly when this happens** is `Equivalence.ExactlyWhen` for the table and
  `AnyRun.AnsweredExactlyWhen` for either parser, over all inputs. The run is right iff no record
  end that has content behind it, and that the sequential pass gets past, lies behind the last
  chunk with a pass. Which chunks have none is decided by the parser's searches alone
  (`Scheduler.Barren`), for the table and for the vectors.
- **The strict searches differ when a quote has no escape.** The table's search refuses the second
  of two adjacent quotes, the vector search does not. `SimdParser.StrictSearchesDiffer` is an input
  of seven bytes; `FindStart.StrictWithoutEscape` gives the exact condition on the bytes. The
  parsers may then start from different boundaries; on well-quoted input the run's result does not
  depend on it.
- **Comments can come out as records.** A pass that ends inside a comment reports no record end of
  its own (src/parser/dfa/stepper.rs:382), and a merge that expects no boundary takes any pass
  (src/scheduler/merge.rs:66-69). Where terminators do not end comments, a later chunk's pass over
  the comment's text is then merged. `Comments.SafeExactlyWhen` shows that the dialects without
  comments, or with LF or CRLF, are exactly those in which this cannot happen.
- **Quotes in a comment can lose records**, though the input is well quoted: the searches read the
  comment as a record. `Comments.CommentsCanLoseRecords` is an input of twelve bytes;
  `Equivalence.ExactlyWhen` gives the exact condition, comments included, and plain comments do not
  lose any.

## Model

| member | source | states |
|---|---|---|
| Pipeline.AnyInterleavingEqualsSequential | src/scheduler/mod.rs:289-369 | For every interleaving of the workers in which all of them finish, every chunk size and either chunk parser: on well-quoted input whatever the merge may return over the stored slots agrees with whatever one uninterrupted pass may return: both fail, or both yield the same records in the same order. Text validation included |
| Pipeline.AnyInterleavingIsSafe | src/scheduler/mod.rs:289-384 | For every such interleaving and all inputs, however quoted: a merge that fails does so on records that one pass does not accept, ill-formed text being reported at its own byte; otherwise it yields the first records that one pass hands out, also where that pass fails later; it answers for all of them iff it fails or the run is loss-free |
| Pipeline.TableInterleavingEqualsSequential | src/scheduler/mod.rs:289-384 | With the table, comments included: the records, or the failure, are the sequential ones iff the run is loss-free, and on well-quoted input with plain comments it is |
| Pipeline.AllStored | src/scheduler/mod.rs:317-364 | A run whose workers all finish leaves in every slot the output of its own chunk |
| Pipeline.RunAlone | src/scheduler/mod.rs:292-319 | The single-threaded run end to end, real parser, real merge: it answers for the records iff it fails or loses no covered boundary, on well-quoted input always; a chunk has no pass iff its parser's searches leave it none; what it yields is what one pass hands out first, and ill-formed text is reported at the first byte that begins no character; with the table the answer is the sequential one iff the run is loss-free, comments included |
| Pipeline.RunStreaming | src/scheduler/mod.rs:37-66 | The streaming run answers for the records from the header's end on: accepted iff the table accepts and text is well-formed, with the table's records; ill-formed text is reported at the first byte that begins no character |
| AnyRun.AnsweredExactlyWhen | src/scheduler/merge.rs:43-125 | For all inputs, accepted or not, either parser, text or bytes: the merge answers for the records iff it fails or every record end before the failing byte with content behind it is covered by a chunk with a pass; a chunk behind the first has none iff its parser's searches leave it none |
| AnyRun.AnyMergeSafety | src/scheduler/merge.rs:43-125 | Either parser, whatever the quoting: the merge fails only on records that one pass does not accept, and reports ill-formed text at the first byte that begins no character, and otherwise its records are the first that one pass hands out, whether that pass fails later or not |
| AnyRun.WellQuotedAnswered | src/scheduler/merge.rs:43-125 | On well-quoted input the merge of any parser's passes accepts what one pass accepts and yields its records |
| AnyRun.Lockstep | src/scheduler/merge.rs:43-125 | Chunk by chunk, the merge over any parser's passes is the merge over the table's passes, unless it fails on input that one pass does not accept; what it merged is what one pass hands out up to the boundary it reached, and text if text was asked for |
| AnyRun.OnePassAnswers | src/scheduler/mod.rs:56-66 | One uninterrupted pass of either parser accepts exactly the accepted records, and all of the text is validated; a failing one has handed out some of the table's first records, and reports ill-formed text where it is |
| Equivalence.ParallelEqualsSequential | src/scheduler/merge.rs:43-125 | The table's run on well-quoted input whose comments hold no quotes and end on terminators: the merged records are the sequential ones, none lost or repeated, or the same failure |
| Equivalence.ExactlyWhen | src/scheduler/merge.rs:43-125 | The table's merge yields what the sequential pass yields, records or failure, iff every record end before the failing byte, with a record behind it, is covered by a chunk with a pass; comments included, and no hypothesis on quoting or acceptance |
| Equivalence.RunExactlyWhen | src/scheduler/merge.rs:54-59 | The same for a run from its searches on: a chunk has no pass iff its searches leave it none |
| Equivalence.DeadIff | src/scheduler/mod.rs:394-595 | The table leaves a chunk without a pass iff no strict search finds a boundary and either one of them ran through cleanly or no lenient one finds a boundary |
| ParallelRun.MergeSafety | src/scheduler/merge.rs:43-125 | Whatever the quoting, comments included: the merge fails only as the sequential pass fails; otherwise its records, followed by the rest from the boundary it reached, are the sequential ones, with nothing behind that boundary but chunks that produced no pass. They are a prefix of what the sequential pass hands out also where that pass fails later |
| ParallelRun.BoundaryStep | src/parser/chunk.rs:128-161 | One pass from a record boundary reports the first record end at or past its own boundary, and its records followed by the rest from there are the rest from where it started, records before a later failure included; if it fails, it fails as the rest does, behind the same records |
| LossExample.ParallelCanLoseRecords | src/scheduler/merge.rs:54-59 | Two chunks of six bytes whose merged records are not the sequential ones |
| LossExample.ParallelCanAcceptTheRejected | src/scheduler/merge.rs:54-59 | The same bytes with an accumulator under which one pass fails and the merge succeeds, with a prefix of the records the pass had handed out |
| Comments.SafeExactlyWhen | src/scheduler/merge.rs:66-69 | Over all inputs, chunk sizes and headers of a dialect the merged records are the first that one pass hands out, exactly if there is no comment byte or records end on LF or CRLF; in every other dialect, the field count off, some run hands out the text of a comment as a record |
| Comments.CommentsCanLoseRecords | src/parser/dfa/mod.rs:65-141 | Two chunks of six well-quoted bytes, a comment with two quotes in the second, whose merged records are not the sequential ones |
| FailurePoint.StopsBeforeFailure | src/parser/dfa/stepper.rs:202-251 | A pass with a record end at or past its boundary and before the failing byte succeeds |
| FailurePoint.FailureBehind | src/parser/dfa/stepper.rs:237-250 | A pass that stops at its boundary leaves the failing byte where it is |
| Scheduler.TryAssumptions | src/scheduler/mod.rs:498-595 | Passes in priority order up to the first success: each fits the records from where it starts, only the last succeeds and its end is the chunk's. For either parser there is a pass iff some assumption's search finds a boundary, and the round has failed altogether iff every search was refused. With the table the result is the value-level definition |
| Scheduler.ProcessChunk | src/scheduler/mod.rs:394-480 | The strict round, with a lenient retry only when every assumption was refused: for either parser the chunk is left without a pass iff no assumption's search finds a boundary, and one of them searched in vain or no lenient one finds a boundary either |
| Scheduler.BarrenAlike | src/scheduler/mod.rs:394-595 | With doubled or absent quotes the vectors leave the same chunks without a pass as the table |
| Scheduler.ChunkConsistent | src/scheduler/mod.rs:521-594 | Passes with equal record starts have equal outcomes, only the last can succeed, and the chunk's record end is that pass's |
| Merge.CollectAndMerge | src/scheduler/merge.rs:28-126 | The loop over the slots returns a result the merge relation admits; with the table, the one result of the value-level merge |
| Merge.ReparseChunk | src/scheduler/mod.rs:603-635 | A reparse from a known boundary answers for the records from there |
| Parsers.AnyParser.Parse | src/parser/chunk.rs:128-161 | Either parser: no pass where its search finds no boundary, a failed one where the search is refused, and otherwise one that starts on the boundary and whose outcome fits the records from there |
| Workers.ExactlyOnce | src/scheduler/mod.rs:289-369 | In every interleaving no slot is written twice, and if all workers finish every slot is written once, with its own chunk's output |
| Workers.ApplyInv | src/scheduler/mod.rs:292-354 | Every step of every worker keeps the invariant: a chunk in work has one owner, an empty slot and was handed out; nothing handed out is lost unless a spawn failed |
| Workers.NothingAfterAbort | src/scheduler/mod.rs:328-337 | Once a failed spawn has stored the chunk count no index is handed out any more, and the run cannot look complete |
| Handoff.HandoffAgreement | src/parser/dfa/stepper.rs:237-250 | Under toggling, whatever the quoting and however many chunks a record spans: the record end a pass hands over is what the lenient search finds, under the assumption that abstracts the true state, in the chunk that holds it; in the chunks between, and if the pass ran to the end, the search finds nothing |
| Handoff.TrueAssumptionFinds | src/parser/dfa/mod.rs:65-141 | On well-quoted input the strict search under the true assumption finds the first record end past the chunk's start, and that assumption is among those tried |
| Handoff.TrueAssumptionStops | src/parser/dfa/mod.rs:65-141 | The same with plain comments that end on terminators: the search stops at or before any record end of the chunk |
| Handoff.UntaggedIffWellQuoted | src/parser/dfa/table.rs:233-239 | One table serves both: a lenient walk meets no cell tagged strict iff the strict table refuses no byte |
| Search.LenientIsFirstOutside | src/parser/dfa/mod.rs:65-141 | Under every quote handling and every assumption tried, comments included, the lenient search finds the first terminator outside quotes, quotes toggling and an escape byte protecting the next |
| Search.StrictIsStrictDialect | src/parser/dfa/mod.rs:22-36 | Under every quote handling the strict search on the toggling table finds and refuses what the strict dialect's own table does |
| Header.HeaderIsFirstRecord | src/parser/dfa/mod.rs:167-171 | For every valid dialect, comments included: the header search ends in chunk 0 iff the terminator that closes the first record lies there, and then on it; one record comes before it and the records of the run are those behind |
| Records.Split | src/parser/dfa/stepper.rs:237-250 | A pass stopped at one boundary and resumed from the terminator it stopped on yields what an undivided pass yields |
| Records.StopsAtFirstEnd | src/parser/dfa/stepper.rs:237-250 | A successful pass ends on the first record end at or past its boundary, or at the end of the input if there is none |
| Records.StepOnPath | src/parser/dfa/stepper.rs:326-348 | One transition follows the table's state, and only a blank line or a closed record ends there |
| Records.EndsQuietly | src/parser/dfa/stepper.rs:370-382 | A pass that runs to the end of the input closes a record there, or has nothing but blank lines and comments behind its last record end |
| Reading.ReadingUndoesWriting | src/parser/dfa/table.rs:240-378 | Over all inputs of all valid dialects, against a grammar without states: every input is written by some lines of letters, pieces, fields and rows, and the scan yields what they say. Quotes and escapes drop out, bare bytes and escaped ones stay; a quote in an unquoted field or behind a closed one is content, opens or is refused as the handling has it; comments and blank lines say nothing; an open quote, a refused byte, a wrong width and a refused record fail where they are |
| RoundTrip.WrittenIsRead | src/parser/dfa/table.rs:240-378 | What a writer writes, fields quoted with quotes and escapes escaped, delimiters between and terminators behind, is read back record by record, for each quote handling, either terminator and an escape that is absent, doubled or distinct |
| Validation.Validate | src/config.rs:122-152 | The pairwise comparison accepts exactly the valid dialects |
| Validation.ValidateAsciiControlBytes | src/config.rs:157-174 | Accepts exactly the dialects with ASCII control bytes |
| FieldText.FieldsAreText | src/parser/output.rs:11-25 | With ASCII control bytes, if the input is text up to byte `v` then every field of every record handed out before `v` is well-formed UTF-8, whatever follows and whether the walk fails or not |
| Handed.Landed | src/parser/dfa/stepper.rs:237-250 | Where the walk stands on a record start, the records that complete the rest from there to the whole are those handed out before it, whatever fails later |
| Handed.ClosedInTime | src/parser/output.rs:6-18 | A pass that breaks off behind some of the scan's records has handed them out before byte `v`, a refused one included, if at least as many records close before `v` |
| Utf8.ValidateChunk | src/parser/output.rs:36-48 | The accepted prefix is well-formed, an accepted remainder is the start of one character, and a refused byte neither begins a character nor can |
| Encoding.WellFormedIffEncoded | src/parser/output.rs:36-48 | Bytes are well-formed iff they are the concatenation of the encodings of some scalar values, in the shift-and-tag form of section 3 of RFC 3629 |
| Encoding.TruncatedIffPrefix | src/parser/output.rs:41-47 | A remainder is kept iff it is a proper prefix of some scalar value's encoding |
| Utf8.StuckOnce | src/parser/driver.rs:107-112 | At most one byte has text before it and begins no character, so the offset that the parsers report for ill-formed text is determined |
| Utf8.StuckForever | src/parser/output.rs:46 | What is refused stays ill-formed, and begins no character, whatever follows (section 4 of RFC 3629) |
| ChunkParser.DfaChunkParser.Parse | src/parser/chunk.rs:128-161 | Find, blank lines, records, over any refill schedule: the answer is the reference's; text may only make it a failure behind some of the reference's records, and only if it is ill-formed, reported at the first byte that begins no character; every record handed out as text is text, whether the pass then succeeds or not |
| ChunkParser.FindRecordStart | src/parser/dfa/mod.rs:65-141 | The table's search with its bulk skips finds what the byte-wise search finds, whatever the refills |
| ChunkParser.SkipEmptyLines | src/parser/chunk.rs:167-193 | Consumes exactly the run of bare terminators, and reports whether it reached the chunk boundary |
| Chunk.BodyIsScan | src/parser/chunk.rs:139-160 | Skipping blank lines before the records changes nothing |
| Driver.ChunkDriver.Run | src/parser/driver.rs:119-202 | For every refill schedule the driver with the table's stepper returns what one scan of the whole input returns, the records before a failure included; validation fails only on ill-formed text, at the first byte that begins no character, behind some of those records. Everything handed out as text is text, for failing runs too, and a success vouches for the bytes it came from |
| Driver.ChunkDriver.ValidateFresh | src/parser/driver.rs:97-114 | Windowed validation refuses only ill-formed text, at the absolute offset of the first byte that begins no character, and stalls only in the middle of a character |
| Stepper.DfaStepper.Step | src/parser/dfa/stepper.rs:265-358 | The hot loop over a buffer: emitted records followed by what remains are what remained before, also where the scan fails later, with the record in flight suspended; what a call hands out closes within the bytes it was shown; no unread byte is altered |
| Stepper.DfaStepper.Consume | src/parser/dfa/stepper.rs:360-368 | Shifting the cursors with the buffer changes nothing that remains |
| Stepper.DfaStepper.Finalize | src/parser/dfa/stepper.rs:370-411 | At the end of the input: the open record, or the open quote's failure |
| Stepper.DfaStepper.ScanRun | src/parser/dfa/stepper.rs:135-155 | Skips a maximal run of content bytes and moves it down to the write cursor |
| InPlace.MoveRun | src/parser/dfa/stepper.rs:135-155 | Moving a run down extends the open field by it, and leaves unread bytes and the closed fields alone |
| Runs.ContentRun | src/parser/dfa/stepper.rs:283-348 | The needle fast path over a run is the byte-wise table over that run |
| Compiled.Build | src/parser/dfa/table.rs:240-378 | The two passes over the rows build the table that `Reading.ReadingUndoesWriting` and `Handoff.UntaggedIffWellQuoted` speak of, cell by cell, with needles that cover exactly the bytes ending a run |
| Compiled.FromMask | src/parser/dfa/table.rs:119-143 | The needles of a mask are all the bytes it sets, when no more than four are set |
| Needles.Find | src/parser/dfa/table.rs:168-204 | Word-wise search with an overlapping tail word returns the first match of a naive scan |
| Needles.MatchLanes | src/parser/dfa/table.rs:150-164 | In one word the lowest tagged lane of up to four needles is the first match: a borrow tags false lanes only above a true one |
| SimdParser.SimdChunkParser.Parse | src/parser/simd/mod.rs:98-139 | Find, blank lines, records, over any refill schedule and alignment: a success is the table's outcome, a failure occurs only where the table fails by the end of the input or text is ill-formed, and behind some of the table's records; every record handed out as text is text, in failing passes too; an arity failure is placed on the first record with another number of fields, an open quote on the field it is in, and ill-formed text on the first byte that begins no character |
| SimdParser.LocatesAgree | src/parser/simd/mod.rs:98-118 | The vector search ends where the table's does in every mode, but for a strict one without an escape, which finds whatever the table finds and ends alike iff every pair of adjacent quotes has a hit before it |
| SimdParser.StrictSearchesDiffer | src/parser/simd/findstart.rs:131-182 | Seven bytes on which the table's strict search refuses the second of two quotes and the vector search goes on to the line's end |
| Refinement.MasksRefineTable | src/parser/simd/index_stepper.rs:287-555 | For every input that does not begin with a blank line, every arity from 1 to 63 and every supported dialect: boundaries aligned, quotes even and records accepted is exactly when the reference scan succeeds, and striding the begin and end positions gives its records |
| Refinement.MisalignedFails | src/parser/simd/fieldcount.rs:43-99 | Boundaries the verifier refuses make the reference scan fail |
| Refinement.OddFails | src/parser/simd/index_stepper.rs:422-555 | A stream that ends inside quotes makes the reference scan fail |
| VectorScanner.Scanner.Step | src/parser/simd/scan.rs:122-141 | With one vector of lag and carries across the seam, each output is the byte-level definition of field begins, ends, removed quotes and run-collapsed boundaries over the whole stream |
| VectorScanner.Scanner.Finalize | src/parser/simd/scan.rs:248-251 | The last vector out is exact as well |
| VectorScanner.UnquotedIsGeneral | src/parser/simd/scan.rs:211-238 | Wherever its guard holds, the shortcut computes what the general form computes |
| Bitmask.ComputeInQuotes | src/parser/simd/bitmask.rs:127-139 | Bit `i` is the carry XOR the parity of all quotes up to and including byte `i`; the carry out is bit 63 |
| Masks.XorPrefixSum | src/parser/simd/bitmask.rs:278-286 | Six doubling shifts are the prefix XOR of all 64 bits |
| Padding.PadShifts | src/parser/simd/bitmask.rs:82-106 | Bytes in front that are neutral shift every begin, end, removal and boundary and change none |
| IndexStepper.HeadPaddedPrologue | src/parser/simd/bitmask.rs:94-106 | The head vector holds the padding and the bytes up to the first aligned address, for every misalignment |
| FieldCount.FieldCounter.Verify | src/parser/simd/fieldcount.rs:43-99 | Over any sequence of vectors a vector is accepted iff all boundaries so far have terminators at exactly the indices `n-1` modulo `n`, by either form |
| FieldCount.VerifyPext | src/parser/simd/fieldcount.rs:81-99 | The extracting form: verdict and next phase |
| FieldCount.VerifyByTerminators | src/parser/simd/fieldcount.rs:55-78 | The form that walks the terminators: the same verdict and next phase |
| FieldCount.ExpectedPattern | src/parser/simd/fieldcount.rs:168-181 | The pattern sets exactly the lanes that complete a record from the phase |
| FieldCount.PextScalar | src/parser/simd/bitops.rs:32-45 | Bit extraction packs the selected bits in order |
| BadRecord.LocateBadRecord | src/parser/simd/fieldcount.rs:116-162 | Stops on the first record with another number of fields, all before it whole, or runs out of buffer |
| BadRecord.RejectedIsBad | src/parser/simd/fieldcount.rs:116-162 | After a rejection the record it stops on does have another number of fields, also past the buffer and at the end of the input |
| BadRecord.ArityError | src/parser/simd/index_stepper.rs:107-126 | The reported failure is an arity failure that names the first bad record's start and a count that is not the arity |
| Index.ExtendOffsets | src/parser/simd/index.rs:131-167 | Appends the offsets of the set bits in order, also over a base that wrapped below zero |
| Index.AssembleRecordsFixed | src/parser/simd/index.rs:14-117 | In place: every record is the bytes between its begins and ends without the removed ones, in order, up to the first refused; nothing behind the last end is touched |
| LiveIndex.OffsetsArePositions | src/parser/simd/index.rs:131-167 | The offsets of a mask are the positions of its kind in the stream |
| Batch.BatchScan | src/parser/simd/index_stepper.rs:142-246 | A batch assembled from the pending offsets is what the reference scan yields there, stopping where it stops and refused where it is refused, behind the same records; each of its records closes by the last one's terminator |
| Endings.StateFollows | src/parser/simd/bitmask.rs:127-139 | At every byte of the stream the table is in quotes iff the parity of quotes says so, and at a record start exactly behind out-of-quotes terminators |
| Select.SelectBatch | src/parser/simd/index_stepper.rs:142-246 | Picks the complete records to emit, and stops at exactly the first whose run crosses the chunk boundary |
| Ledger.RejectedVector | src/parser/simd/index_stepper.rs:287-419 | When the verifier refuses a vector, the reference scan fails on what is still to be emitted |
| IndexStepper.SimdIndexStepper.FlushRecords | src/parser/simd/index_stepper.rs:142-246 | Emitted records followed by what remains are what remained, also where the scan fails later; or the scan's own end, at the run's first byte or at the boundary inside it; or its own rejection, behind the same records. As many records close in the resolved vectors as were handed out |
| IndexStepper.SimdIndexStepper.Step | src/parser/simd/index_stepper.rs:287-419 | Over the vectors of a buffer, emitted records followed by what remains are what remained, also where the scan fails later; a failure only where the scan fails by the end of the input, behind some of the scan's records. What a call hands out closes within the bytes it was shown |
| IndexStepper.SimdIndexStepper.Consume | src/parser/simd/index_stepper.rs:258-269 | All pending offsets shift with the buffer |
| IndexStepper.SimdIndexStepper.Finalize | src/parser/simd/index_stepper.rs:422-555 | At the end of the input: exactly the records and end of the scan, or a failure where it fails, behind some of its records; a refused record is the scan's own, and an open quote is placed on the start of the input's last field |
| Ledger.OpenerAt | src/parser/simd/index_stepper.rs:487-500 | From the last begin found, stepping back over an opening quote leads to the start of the field that the input's end leaves open |
| CellWalk.RecordScanned | src/parser/simd/cursor_stepper.rs:118-197 | Without quotes a record cut at its bounds is the record the reference scan closes |
| CursorStepper.SimdCursorStepper.EmitRecords | src/parser/simd/cursor_stepper.rs:118-197 | Striding over the bounds emits the scan's records, stops where it stops and is refused where the accumulator refuses, behind the records emitted before |
| CursorStepper.SimdCursorStepper.Step | src/parser/simd/cursor_stepper.rs:289-391 | As for the quoted stepper |
| CursorStepper.SimdCursorStepper.Finalize | src/parser/simd/cursor_stepper.rs:394-478 | As for the quoted stepper |
| SimdStepper.Choose | src/parser/simd/mod.rs:42-57 | Without a quote character the cheaper stepper runs, with one the indexing one; either starts at rest on the run's first record |
| SimdDriver.Run | src/parser/driver.rs:119-202 | For every refill schedule and alignment the driver with either vector stepper settles the scan: its outcome, or a failure where it fails by the end of the input, or ill-formed text, at the first byte that begins no character, behind some of the scan's records. Everything handed out as text is text, for failing runs too |
| FindStart.SearchesAgree | src/parser/simd/findstart.rs:25-187 | Vector search and table search agree for every supported dialect and assumption: lenient always, strict whenever quotes are doubled or absent, offsets of refusals included |
| FindStart.StrictWithoutEscape | src/parser/simd/findstart.rs:131-182 | Without an escape the strict searches agree iff every pair of adjacent quotes within reach has a terminator or a contradicting quote before it |
| FindStart.FindRecordStart | src/parser/simd/findstart.rs:25-100 | Across vectors, seams and refills the search returns the first terminator out of quotes, or the first contradicting quote, including a closer in lane 63 that the next vector decides |
| Capacity.GrantedCapacity | src/io/ringbuf/buf/mod.rs:32-46 | A granted capacity is the least power of two that holds the request and the granularity, and it is refused only when none fits the limit |
| Capacity.NoneSuffices | src/io/ringbuf/buf/mod.rs:48-59 | Where doubling is refused, no power of two within the limits holds more than the buffer does |
| Capacity.MaskIsRemainder | src/io/ringbuf/buf/mirrored.rs:209-235 | Masking a counter with the capacity less one is its remainder, for every power of two |
| Capacity.WrapKeepsIndex | src/io/ringbuf/buf/mirrored.rs:238-247 | Wrapping a counter at the word size does not move it in the ring |
| MirroredBuf.MirroredBuf.Data | src/io/ringbuf/buf/mirrored.rs:209-213 | The contiguous slice of the double mapping shows the queue, within the two mappings |
| MirroredBuf.MirroredBuf.Produce | src/io/ringbuf/buf/mirrored.rs:231-241 | Appends what lies at the front of the free slice, also across the wrap of ring and counter |
| MirroredBuf.MirroredBuf.Grow | src/io/ringbuf/buf/mirrored.rs:258-268 | Twice the capacity and the same queue, exactly if twice the capacity is within the limits; otherwise refused and unchanged |
| LinearBuf.LinearBuf.Grow | src/io/ringbuf/buf/linear.rs:90-97 | The same for the buffer without mirroring |
| LinearBuf.LinearBuf.Offer | src/io/ringbuf/buf/linear.rs:59-66 | Moves the leftover to the front, keeps the queue, and hands out as many bytes as are writable |
| LinearBuf.LinearBuf.Consume | src/io/ringbuf/buf/linear.rs:75-82 | Drops from the front of the queue |
| RingReader.MatchesModel | src/io/ringbuf/buf/mod.rs:178-215 | Any sequence of appends, drops, overwrites, growths and resets that fits leaves either buffer holding what a plain queue holds |
| RingReader.NewBuf | src/io/ringbuf/buf/mirrored.rs:22-35 | A new buffer has the granted capacity, or is refused exactly when none is granted |
| RingReader.RingBufChunkReader.Fill | src/io/ringbuf/reader.rs:77-95 | Bytes arrive in the source's order without loss; a short answer means that nothing more comes; it fails only when no capacity within the limits holds what was asked for |
| RingReader.RingBufChunkReader.Consume | src/io/ringbuf/reader.rs:97-104 | Drops from the queue and counts down to the chunk boundary, stopping at zero |
| ReaderLink.Fill | src/io/ringbuf/reader.rs:77-95 | A fill of the ring buffer that the buffer limit does not refuse is one that the drivers' reader may make, and afterwards both show the same bytes and have the same to come |
| ReaderLink.Consume | src/io/ringbuf/reader.rs:97-104 | Consuming from both keeps them showing the same bytes and the same distance to the chunk boundary |
| ReaderLink.Put | src/io/ringbuf/reader.rs:73-75 | A byte moved in the visible buffer of both keeps them showing the same bytes |
| ReaderLink.SeesTheSame | src/io/ringbuf/reader.rs:68-104 | Linked readers show the same bytes and the same distance to the chunk boundary, and end together |

## Left out

- Comments in the merge theorems for either parser and for text; the vector parser supports none, and
  the table's merge theorems over bytes cover them.
- A header that ends behind chunk 0: no statement about the run is made for it.
- Which failure the vector parser reports, and how many of the table's records it handed out before
  it: it may fail earlier than the table and on another record. Where it places a failure is proved.
- Offsets are absolute in the input; the source counts from the chunk's start and adds that.
- RingReader.RingBufChunkReader.Fill: the source's reads deliver bytes or end, they do not fail, and the read size is the resolved one, at least one byte.
- Driver.ChunkDriver.Run: it runs over a reader with the whole input behind it, which `ReaderLink` ties to the ring buffer's reader step by step; a fill that the buffer limit refuses, an I/O failure, is not threaded through it.
- Capacity.GrantedCapacity: an allocation over 2^62 bytes is refused as an allocator would refuse it; the rounding of larger requests, which overflows in the source, is not modelled.
- MirroredBuf.MirroredBuf.Data: the double mapping is an array indexed modulo its length; memory mapping, file handles and seeks are calls into the operating system.
- SimdParser.SimdChunkParser.Parse: vectors are sequences of 64 booleans and the instruction-set kernels are their scalar definitions; a flag stands for the processor's fast bit extraction.
- CursorStepper.SimdCursorStepper.EmitRecords: the source writes the loop twice, with and without terminator runs; here one loop asks per record.
- Needles.Find: the little-endian arm; the big-endian one takes the highest lane.
- ChunkDriver is generic over its stepper in the source and written twice here, for the table and for the vectors.
- Raw pointers are offsets, and a record is handed out as a sequence of byte sequences.
- Field trimming, user errors, worker panics, tracing, sizing policy (src/scheduler/resolve.rs) and
  the public builder, which would add easy members only. That there are at most as many threads as
  chunks is a hypothesis of the interleaving theorems.
