# The incremental parsing runtime of Spicy, verified

This project models the part of the HILTI and Spicy runtime libraries that makes generated parsers incremental, and
proves that it does what it is for. `dafny verify dfyconfig.toml` checks everything.

* **Sink reassembler** (`Chunks`, `Reassembly`, `KeepMode`, `AutoTrim`, `Hooks`, `Sink`, `Wrapping`): a sink gets segments out of order,
  overlapping and repeated, and delivers contiguous data. The reference is the map from each sequence number to the first
  byte ever written there. A sink that keeps everything delivers the longest prefix of that map after every run of
  writes, whatever the order. The default mode, auto-trimming, does so exactly as long as no write is a *damaging* one.
  What the hooks are told, of overlaps and of data that is erased undelivered, is true and complete.
* **Streams** (`Layout`, `Chain`, `Views`, `Reading`, `Extraction`, `Search`): a linked list of chunks, appended at its
  tail and trimmed at its head, with iterators that remember chunks. The reference is the history of everything appended.
  Block-wise, byte-wise and chunk-wise readers, chunk lookup with any hint, and the searches all refine it.
* **Incremental parsing** (`Waiting`, `Parsing`, `Driver`, `Grounding`): feeder and parser as coroutines, on input that
  may have gaps. How an input is cut into calls, and where the chunks of the stream end, does not matter to a parser that
  waits for what it takes and takes no more than its views have. That condition is exact: any other parser is told
  something else on some part of the input, or with some chunks, than on all of it, without being made to wait
  (`Parsing.DisciplinedExactly`). `Grounding` proves that views and operations as parsers see them are those of streams,
  the shortcut of `View::extract` included.
* **Fibers** (`Fibers`, `FiberOrder`, `FiberResults`, `FiberEffects`, `FiberContext`, `Stacks`): the control transfers between fibers as a
  state machine with callers, reuse through a cache, and resumables; and the swapping of many fibers on one stack.
* **Codecs** (`Integers`, `Addresses`, `Unpacking`, `Escapes`, `Splitting`): packing and unpacking, network prefixes,
  escape sequences expanded in place, splitting and joining.

Classes hold what the source updates in place, and each of their methods is tied to a function on values; the lemmas about
those functions are the results. `Fibers.Step` is one transfer of control, which no single method of a program without
coroutines can express; `FiberContext.Context` has the methods that run between two transfers.

Where the code does not do what its documentation says, the model follows the code, and a lemma says exactly when it does
what was meant:

* In the default mode a retransmission that starts before the sink's cursor and reaches beyond it loses its new bytes: the
  fast path (`sink.cc:173-177`) leaves the trim point behind, so the segment is buffered whole and erased by
  `sink.cc:276-277`. With an empty buffer, `sink.cc:198` also claims more sequence numbers than there are bytes. Exact
  condition: `AutoTrim.SimulationExactly`. Examples: `AutoTrim.RetransmissionIsLost`, `AutoTrim.ReversedIsDelivered`.
* The second kind of damage can be latent: a write of old data only leaves a chunk that lacks bytes, and it is a later
  write that fails, with an out-of-range error from `sink.cc:72-75` (`AutoTrim.LatentFailsExactly`; some write does so
  exactly if the trim point was two bytes or more into the data, `AutoTrim.LatentCanFailExactly`). Four writes lead there
  (`AutoTrim.LatentIsReachable`).
* A write whose end wraps around in 64 bits, such as two bytes written just before the initial sequence number, is stored
  as a chunk that ends before it begins (exact condition `Wrapping.WrapsExactly`). Trimming never gets past it
  (`Wrapping.TrimStopsAt`), so that data delivered later stays in the buffer (`Wrapping.EarlyStays`).
* Trimming a stream inside a gap keeps the gap's length (`stream.cc:52-54`), which shifts all that follows; exactly then
  the layout breaks (`Layout.TrimExact`). A byte behind the gap cannot be found any more (`Layout.GapHidesByte`).
* Trimming to a point before the head never ends if there are chunks (`Layout.TrimEndsExactly`). If there are none, the
  head moves back, and the next chunk gets offsets that were already used (`Layout.TrimPointExactly`,
  `Chain.TrimmedBack`).
* A safe iterator checks the range of its offset only after moving it (`stream.h:614-619`): one that trimming has overtaken
  and that is moved back into the stream, or one from `end()` whose chunk is gone, consults a deleted chunk
  (`Chain.OvertakenIsUnsafe`, `Chain.OldEndIsUnsafe`; exact condition `Chain.SafeConstIterator.SafeExactly`).
* The shortcut of `View::extract` ignores the view's end, and looks for a gap even if no bytes are asked for. So what a
  parser gets that takes more than its view has depends on the chunks of the stream (`Driver.ChunksMatterToOverreaching`,
  `Extraction.PastTheEnd`; exact conditions `Extraction.PathsAgreeExactly`, `Parsing.TakeFixedExactly`).
* `dataForPrint` prints a gap for an empty view inside one, which has no data (`Reading.DataForPrint`,
  `Reading.GapIsPrinted`). For a view that ends before its begin, in one chunk of data, it is an arithmetic error
  (`Reading.PrintedInverted`).
* `driver.h:51-52` says that changing the parser has no effect once a stream has begun. That holds for another parser
  (`Driver.ExchangeHasNoEffect`), but not for none: what comes then is ignored (`Driver.WithdrawalExactly`).
* `escapeBytes` promises that `expandEscapes` reverts it; with octal numbers that holds exactly for printable strings
  (`Escapes.OctalRevertedExactly`).
* `atoi_n` takes the characters following `9` for digits in bases above ten (`util.h:433`), so `\x1?` is accepted
  (`Escapes.DigitIsUsualExactly`, `Escapes.AcceptsNoDigit`).
* `join` reverts `split` exactly for delimiters that cannot overlap themselves (`Splitting.JoinRevertsSplitExactly`).
* A payload that yields while it is being aborted fails an assertion exactly if the context has a handle at that time
  (`FiberResults.YieldSafeExactly`). Four allowed steps lead there (`FiberResults.AbortedPayloadYields`).

## Model

| member | source | states |
|---|---|---|
| `Chunks.AddKeepsWf` | spicy/runtime/src/sink.cc:25-97 | Adding a segment keeps the list sorted and disjoint, with as many bytes in each chunk as it spans numbers, and never reads a chunk out of range |
| `Chunks.AddLookup` | spicy/runtime/src/sink.cc:25-97 | Policy "First": afterwards each byte is the one stored before, or else the segment's; so no stored byte changes and the covered set is the union |
| `Chunks.AddReturns` | spicy/runtime/src/sink.cc:25-97 | The returned chunk fills the first hole that the segment meets; if it meets none, the list is unchanged and the chunk is the one holding its last byte |
| `Chunks.AddConserves` | spicy/runtime/src/sink.cc:25-97 | Bytes newly stored plus bytes reported as overlap are the size of the segment |
| `Chunks.AddReports` | spicy/runtime/src/sink.cc:69-83 | Every overlap report gives the true old and new bytes of a stretch that was stored; reports come in order and do not repeat |
| `Reassembly.DeliverAllDelivers` | spicy/runtime/src/sink.cc:253-274 | The delivery loop hands over exactly the contiguous run of bytes from the cursor on, and moves all cursors to its end |
| `Reassembly.TryDeliverAdvances` | spicy/runtime/src/sink.cc:253-278 | The same with trimming afterwards: what was not delivered stays buffered, and the trim point is the cursor |
| `Reassembly.KeptKeeps` | spicy/runtime/src/sink.cc:234-251 | Trimming to a number that is not buffered loses nothing from there on |
| `Reassembly.EnterAdvances` | spicy/runtime/src/sink.cc:166-217 | Data entered into a sink in order, with all bytes between its start and the cursor still buffered, leaves it in order, delivering exactly what has become contiguous |
| `Reassembly.AdvanceUnique` | spicy/runtime/src/sink.cc:166-278 | Delivering all that has become contiguous, and no more, determines the output and what remains |
| `KeepMode.WriteKeeps` | spicy/runtime/src/sink.cc:166-217 | With auto-trimming off, every write succeeds, overlays the contents and keeps the sink in order |
| `KeepMode.RunBuffersFirstWrites` | spicy/runtime/src/sink.cc:25-97 | After any run of writes the buffer is the "first write wins" map |
| `KeepMode.DeliversFirstWrites` | spicy/runtime/src/sink.cc:166-278 | After any run: size and both cursors agree, the delivered bytes are the first writes below the cursor, and the byte at the cursor was never written |
| `KeepMode.DeliversCoveredPrefix` | spicy/runtime/src/sink.cc:166-278 | Segments cut from one text, in any order and with any overlaps, deliver the longest prefix of it that they cover |
| `KeepMode.OrderIndependent` | spicy/runtime/src/sink.cc:166-278 | Reordering, repeating or re-cutting segments of one text changes nothing in the output |
| `AutoTrim.SimulationStep` | spicy/runtime/src/sink.cc:171-278 | A harmless write succeeds and keeps the default mode in step with keeping everything, and in good order; any other breaks one or the other |
| `AutoTrim.SimulationExactly` | spicy/runtime/src/sink.cc:171-278 | After a write, the default mode has the output, cursor and undelivered content of keeping everything if and only if the write was not a damaging one (straddling the cursor without its bytes still buffered, or overclaiming), or its damage is latent (overclaiming with old data only) |
| `AutoTrim.SimulatesKeeping` | spicy/runtime/src/sink.cc:171-278 | Over every run of harmless writes both modes, fast path included, have the same output, cursor and undelivered content |
| `AutoTrim.HarmlessExactly` | spicy/runtime/src/sink.cc:171-278 | For whole runs without latent damage: the default mode is in step with keeping everything after each write if and only if no write was a damaging one |
| `AutoTrim.DeliversFirstWrites` | spicy/runtime/src/sink.cc:171-278 | Such runs deliver the first writes, as far as possible |
| `AutoTrim.StraddlingDamages` | spicy/runtime/src/sink.cc:173-177 | A straddling write delivers nothing where keeping everything would |
| `AutoTrim.OverclaimingDamages` | spicy/runtime/src/sink.cc:188-199 | An overclaiming write leaves a chunk of delivered numbers that lacks bytes, if all of it is old; otherwise a cursor that is ahead of the data by as many bytes as were trimmed |
| `AutoTrim.LatentFailsExactly` | spicy/runtime/src/sink.cc:69-83 | After latent damage a write raises an out-of-range error if and only if it has data and begins past the bytes of the chunk left behind, before the end that this chunk claims |
| `AutoTrim.LatentCanFailExactly` | spicy/runtime/src/sink.cc:69-83 | Some write fails after latent damage if and only if the trim point was at least two bytes into the data |
| `AutoTrim.LatentIsReachable` | spicy/runtime/src/sink.cc:188-199 | The first two bytes in reverse order, more of the stream, and a repetition of its beginning lead to latent damage, after which writing one delivered byte again fails |
| `AutoTrim.RetransmissionIsLost` | spicy/runtime/src/sink.cc:173-177 | After the first segment, an overlapping retransmission delivers nothing and leaves nothing buffered, for all such pairs |
| `AutoTrim.ReversedIsDelivered` | spicy/runtime/src/sink.cc:171-278 | The same two segments in the other order are delivered in full |
| `Hooks.NoneUndelivered` | spicy/runtime/src/sink.cc:166-278 | No run of writes, in either mode, harmless or not, reports undelivered data |
| `Hooks.TrimReports` | spicy/runtime/src/sink.cc:234-251 | Trimming a sink to any number reports as undelivered only stored bytes beyond the cursor that it erases, in order and without repetition; and all of those, if the sink is in order |
| `Hooks.OverlapReports` | spicy/runtime/src/sink.cc:166-217 | A write adds to the overlap reports exactly the true ones: in order, without repetition, with the old and new bytes, and every stored byte of the segment from the trim point on is in one |
| `Sink.Sink.AddAndCheck` | spicy/runtime/src/sink.cc:25-97 | The recursive method over indices, with the shortcut for appending, does to list and reports what `Chunks.Add` says, from any starting chunk that does not lie behind the data |
| `Sink.Sink.Overlap` | spicy/runtime/src/sink.cc:69-94 | Its last part: one report, then recursion with the remainder |
| `Sink.Sink.TryDeliver` | spicy/runtime/src/sink.cc:253-278 | The loop over the list is `Reassembly.TryDeliver` |
| `Sink.Sink.NewData` | spicy/runtime/src/sink.cc:166-217 | The entry point is `Reassembly.NewData`, errors included |
| `Sink.Sink.Write` | spicy/runtime/src/sink.cc:440-450 | A write extends a run: a sink that is in the state after some writes is then in the state after one more, for both modes |
| `Sink.Sink.RSeq` | spicy/runtime/include/sink.h:301-313 | Relative and absolute sequence numbers are inverse to each other modulo 2^64 |
| `Sink.Sink.SetInitialSequenceNumber` | spicy/runtime/include/sink.h:234-241 | Refused, and the sink closed, exactly after input; otherwise the given number becomes relative number 0 |
| `Wrapping.Agrees` | spicy/runtime/src/sink.cc:166-217 | As long as ends fit into 64 bits, a write does what it does with unbounded numbers |
| `Wrapping.WrapsExactly` | spicy/runtime/src/sink.cc:166-217 | In 64-bit arithmetic a write leaves behind a chunk that ends before it begins if and only if it is not on the fast path, does not end at the trim point or before, and the end of what is stored wraps around |
| `Wrapping.TrimStopsAt` | spicy/runtime/src/sink.cc:234-251 | Trimming does not get past a chunk that begins at the trim point or later, wherever that chunk ends; everything behind it stays too |
| `Wrapping.EarlyStays` | spicy/runtime/src/sink.cc:166-278 | Two bytes written just before the initial sequence number to a new sink stay in the buffer for good, and with them whatever is delivered later than the data that comes next |
| `Waiting.AnswerIsFixed` | spicy/runtime/src/parser.cc:33-143 | Whatever the cuts, waiting for some bytes ends, and succeeds if and only if the whole input has that many in the view |
| `Waiting.AwaitMore` | spicy/runtime/src/parser.cc:106-143 | Waiting in two steps ends where waiting at once does |
| `Waiting.SizeGrows` | hilti/runtime/include/types/stream.h:1458-1477 | A view's size never shrinks while data arrives, and is final once its end has been seen |
| `Waiting.EodBlocksExactly` | spicy/runtime/src/parser.cc:84-143 | Waiting for the end of data goes on exactly as long as the view's end is not in sight, and a view without an end has fewer than 2^64 - 1 bytes |
| `Waiting.Input.WaitForMoreOrEod` | spicy/runtime/src/parser.cc:118-143 | Returns at the first moment when the view has grown or its end is in sight, and says which |
| `Waiting.Input.WaitForInputOrEod` | spicy/runtime/src/parser.cc:106-116 | True if and only if the whole input will have the bytes; returns at the first moment when that is known |
| `Waiting.Input.WaitForInput` | spicy/runtime/src/parser.cc:94-104 | The parse error is raised exactly if the whole input lacks the bytes |
| `Waiting.Input.WaitForEod` | spicy/runtime/src/parser.cc:84-92 | Afterwards the view has all the bytes that it will ever have, unless the input has 2^64 - 1 bytes or more and the view no end; an arithmetic error exactly if the view ends before its begin |
| `Waiting.Input.AtEod` | spicy/runtime/src/parser.cc:155-167 | True if and only if the view stays empty in the whole input |
| `Parsing.FrozenNeverSuspends` | spicy/runtime/src/driver.cc:342-343 | On a frozen stream no wait yields, so the internal error cannot be reached |
| `Parsing.YieldsUntilAwaited` | spicy/runtime/src/parser.cc:84-167 | Starting an operation over after each suspension is the same as looping inside the wait function |
| `Parsing.Await` | spicy/runtime/src/parser.cc:84-167 | Each wait function, with all its suspensions, does what parsers are told for the whole input |
| `Parsing.RepliesExactly` | spicy/runtime/src/parser.cc:84-167 | On a complete stream the flags of the wait functions say whether the bytes are there, and whether none is; waiting for the end of data fails exactly for views that end before their begin |
| `Parsing.WaitFails` | spicy/runtime/src/parser.cc:94-104 | If the input lacks the bytes that a parser waits for, its run fails with the message that it gave; else it goes on |
| `Parsing.EndsRun` | spicy/runtime/src/driver.cc:252-356 | A parser that throws fails with just that error; one that finishes has just its result, at its position |
| `Parsing.EntitledExactly` | spicy/runtime/src/parser.cc:84-167 | An operation gives the same reply on every sufficient part of the input, with the shortcut and without, if and only if it takes only bytes that were waited for, no more than the view has unless the stream ends before them, and does not take none from a gap |
| `Parsing.TakeFixedExactly` | hilti/runtime/include/types/stream.h:1337-1354 | Taking bytes comes to the same with the shortcut and without if and only if the view has them or the stream does not reach beyond them; and for no bytes, if the view does not begin in a gap |
| `Parsing.RunOnPart` | spicy/runtime/src/parser.cc:84-167 | A disciplined parser does on a part of the input what it does on all of it, or stops at a point of that run, whatever the chunks of either stream |
| `Parsing.DisciplinedExactly` | spicy/runtime/src/parser.cc:84-167 | For whole runs: a parser is disciplined if and only if there are no part of the input, chunks, and configuration of the run on all of it to which a run on that part comes, where it does not wait and is answered differently |
| `Parsing.GuardedIsDisciplined` | spicy/runtime/src/parser.cc:84-167 | A parser that counts what it has waited for, and takes no more, is disciplined on every input of less than 2^64 - 1 bytes; on inputs with gaps, if it never takes no bytes |
| `Driver.CutsDoNotMatter` | spicy/runtime/src/driver.cc:219-356 | For every way of cutting the input, and whatever the chunks of the stream and the chunks that views remember, a disciplined parser ends with the same result and offset or the same single error as when given all of it |
| `Driver.SameForAllCuts` | spicy/runtime/src/driver.cc:219-356 | Any two ways of cutting an input, on any streams, give the same report |
| `Driver.NeverCrashes` | spicy/runtime/src/driver.cc:219-356 | No parser whatsoever, on no input, comes to the internal error; an exception is the only one and leaves no result |
| `Driver.CutsDoNotMatterToGuarded` | spicy/runtime/src/driver.cc:219-356 | In particular for parsers built from counted waits, on suitable inputs |
| `Driver.LengthPrefixedForAllCuts` | spicy/runtime/src/driver.cc:219-356 | An instance: a length byte and a body of that length, on inputs without gaps |
| `Driver.LengthPrefixedParses` | spicy/runtime/src/driver.cc:219-356 | That parser parses its format: for all cuts of an input without gaps, the body, which ends where its length says, or the message of the wait that failed |
| `Driver.CutsMatterToEager` | spicy/runtime/src/driver.cc:219-356 | A parser that takes a byte without waiting succeeds or fails depending on the cuts |
| `Driver.ChunksMatterToOverreaching` | hilti/runtime/include/types/stream.h:1340-1347 | A parser that takes two bytes of a view of one succeeds or fails depending on whether the data came at once or byte by byte |
| `Driver.FeedDone` | spicy/runtime/src/driver.cc:282-289 | Calls after parsing is over change nothing |
| `Driver.BlockIsWholeInput` | spicy/runtime/src/driver.cc:252-279 | Parsing a block gives the report of a stream that comes in one piece |
| `Grounding.SizeAgrees` | hilti/runtime/include/types/stream.h:1458-1477 | The size of a view of a stream is the size that waiting goes by, for every view whose begin the stream has, even one that ends before its begin |
| `Grounding.HaveEod` | spicy/runtime/src/parser.cc:33-45 | The end of data is in sight of a stream exactly if it is for the coroutine model |
| `Grounding.EntriesAgree` | hilti/runtime/include/types/stream.h:1458-1477 | What parsers see of the input in a view is the view's text, with the same gaps |
| `Grounding.ExtractAgrees` | hilti/runtime/include/types/stream.h:1337-1354 | Extracting from any view of a stream gives the bytes or the error that parsers are told, with the shortcut and without |
| `Grounding.CopyAgrees` | hilti/runtime/include/types/stream.h:1480-1484 | Copying a view gives the bytes or the error that parsers are told |
| `Grounding.RemembersExactly` | hilti/runtime/include/types/stream.h:1340-1347 | For views that remember the chunk that they begin in, the shortcut applies exactly if the bytes and the one behind them came in one piece |
| `Driver.ParsingState.ProcessData` | spicy/runtime/src/driver.cc:233-356 | One call, with data or a gap, updates the fields as `Driver.Process` says, with its return value or exception, `InvalidUnitType` included; the parser may have been exchanged |
| `Driver.ExchangeHasNoEffect` | spicy/runtime/include/driver.h:50-64 | Once a stream has begun, exchanging the parser for another makes no difference to it |
| `Driver.WithdrawalExactly` | spicy/runtime/include/driver.h:50-64 | With the parser taken away a call changes nothing, which makes a difference if and only if the stream was not over and not to be skipped |
| `Driver.ReturnExactly` | spicy/runtime/src/driver.cc:281-346 | A call on a live stream returns `Over` if and only if there is a result now, and `Continue` if and only if parsing is not over |
| `Driver.BlockReturnExactly` | spicy/runtime/src/driver.cc:252-279 | A block is over at once, with a result exactly if no exception is thrown |
| `Driver.NeedsNoArguments` | spicy/runtime/src/driver.cc:252-318 | A unit that needs arguments is refused with `InvalidUnitType`, for streams and blocks |
| `Driver.ParsingState.FinishInput` | spicy/runtime/src/driver.cc:219-231 | Finishing processes the end of data, and returns the offset of the result exactly if there is one |
| `Driver.FeedAll` | spicy/runtime/src/driver.cc:219-356 | A host that feeds an input and then finishes gets the report of `Driver.Feed`, and the offset of its result |
| `Driver.FinishGivesOffset` | spicy/runtime/src/driver.cc:219-231 | What `finish` returns is where the run on the whole input ends, for all cuts |
| `Driver.ParsingState.Reset` | spicy/runtime/include/driver.h:118-123 | Back to the state before any input, with the same parser |
| `Driver.ParsingState.SetParser` | spicy/runtime/include/driver.h:61-64 | Sets the parser and leaves the stream as it is |
| `Layout.PieceIsHistory` | hilti/runtime/include/types/stream.h:88-190 | The byte at absolute offset o is the o-th entry ever appended |
| `Layout.FindExact` | hilti/runtime/include/types/stream.h:972-995 | An offset is held by exactly one chunk if it lies between head and end, and by none otherwise |
| `Layout.LaidAppend` | hilti/runtime/include/types/stream.h:217-229 | Appending keeps offsets contiguous and appends to the history |
| `Layout.TrimExact` | hilti/runtime/src/types/stream.cc:40-110 | Trimming forgets what comes before the point and nothing else if and only if the point does not lie inside a gap |
| `Layout.GapHidesByte` | hilti/runtime/src/types/stream.cc:40-55 | A gap of two bytes with a byte behind it, trimmed to its middle: the gap now covers the byte's offset |
| `Layout.TrimPointExactly` | hilti/runtime/src/types/stream.cc:87-110 | For every point that trimming ends for: the layout is right afterwards if and only if there are chunks and the point is neither beyond the end nor inside a gap, or there are none and the point is the end |
| `Layout.TrimEndsExactly` | hilti/runtime/src/types/stream.cc:93-106 | The trimming loop ends if and only if there are no chunks or the point does not lie before the first |
| `Layout.TrimmedEnd` | hilti/runtime/src/types/stream.cc:87-110 | Chunks that survive trimming keep their ends |
| `Chain.Chunk.Trim` | hilti/runtime/src/types/stream.cc:40-55 | Cuts off the front of a chunk; a gap only moves |
| `Chain.Chain.Append` | hilti/runtime/src/types/stream.cc:57-72 | Links a chunk at the tail with its offset, extending the history; refused for invalid or frozen streams |
| `Chain.Chain.Advance` | hilti/runtime/src/types/stream.cc:93-106 | One pass of the trimming loop, for every point: before the head it changes nothing and goes on |
| `Chain.Chain.Cutoff` | hilti/runtime/src/types/stream.cc:93-106 | The loop drops exactly the chunks that end at the point or before, cuts the next, and keeps the tail right |
| `Chain.Chain.Trim` | hilti/runtime/src/types/stream.cc:87-110 | The list is well linked again and the head offset is the point, without chunks for every point; the layout is right if and only if `Layout.TrimPoint` says so |
| `Chain.TrimmedBack` | hilti/runtime/src/types/stream.cc:87-110 | A stream that was trimmed to its end and then back holds its second byte at the offset of its first |
| `Chain.Chain.DeepCopy` | hilti/runtime/src/types/stream.cc:112-124 | A new stream with the remaining content and no chunk in common; its offsets begin at zero; refused for invalidated streams |
| `Chain.Chain.Invalidate` | hilti/runtime/include/types/stream.h:317-322 | Nothing of the stream is left |
| `Chain.Chain.FindChunk` | hilti/runtime/include/types/stream.h:972-995 | The same answer for every current chunk as hint, or none: the one chunk that holds the offset, or null; an error for invalidated streams |
| `Chain.Chain.Begin` | hilti/runtime/include/types/stream.h:931-934 | An iterator at the beginning, which remembers the first chunk; an error for invalidated streams |
| `Chain.Chain.At` | hilti/runtime/include/types/stream.h:941-943 | An iterator at any offset, which remembers the chunk that holds it; an error for invalidated streams |
| `Chain.Chain.AtEnd` | hilti/runtime/include/types/stream.h:936-939 | An iterator at the end, which remembers the last chunk; an error for invalidated streams |
| `Chain.Chain.EndIsHistory` | hilti/runtime/include/types/stream.h:284 | The end offset is the number of bytes ever appended |
| `Chain.TrimKeepsTrack` | hilti/runtime/src/types/stream.cc:87-110 | A remembered chunk is alive exactly until the stream is trimmed up to its end |
| `Chain.AppendKeepsTrack` | hilti/runtime/src/types/stream.cc:57-72 | Appending does not affect remembered chunks |
| `Chain.SafeConstIterator.Increment` | hilti/runtime/include/types/stream.h:607-621 | Moves by n and remembers the chunk that holds the new offset, consulting only chunks that are alive |
| `Chain.SafeConstIterator.Dereference` | hilti/runtime/include/types/stream.h:645-661 | The byte of the history at the offset; fails exactly if the offset is outside head and end, or in a gap |
| `Chain.SafeConstIterator.SafeExactly` | hilti/runtime/include/types/stream.h:576-621 | Moving to an in-range offset is safe if and only if the stream was not trimmed up to the end of the remembered chunk |
| `Chain.SafeConstIterator.NotOvertaken` | hilti/runtime/include/types/stream.h:607-621 | Iterators from `begin()` or `at()`, or moved forward, are safe as long as trimming has not overtaken them |
| `Chain.InvalidateUnder` | hilti/runtime/include/types/stream.h:587-661 | Iterators into an invalidated stream look at no chunk when moved, and fail when dereferenced |
| `Chain.OvertakenIsUnsafe` | hilti/runtime/include/types/stream.h:607-621 | Two appends and a trim lead to an iterator that must not be moved |
| `Chain.OldEndIsUnsafe` | hilti/runtime/include/types/stream.h:936-939 | And to an iterator from `end()` that must not be dereferenced although it is in range |
| `Views.View.Size` | hilti/runtime/include/types/stream.h:1458-1477 | The number of bytes available between the view's begin and its end; 0 if it ends before its begin, or if trimming has overtaken it and nothing is left of the stream |
| `Views.StopsAtLimit` | hilti/runtime/include/types/stream.h:1371-1374 | Comparing an iterator with the view's end stops iteration exactly at the limit of the available bytes, for ends before or beyond the stream's |
| `Views.StaysWithin` | hilti/runtime/include/types/stream.h:872-880 | The shortcut of the internal iterator: the remembered chunk still holds the next offset |
| `Views.CopyRaw` | hilti/runtime/src/types/stream.cc:320-323 | The byte loop copies exactly the view's text up to the first gap, and fails if and only if there is one |
| `Reading.FirstBlock` | hilti/runtime/src/types/stream.cc:325-356 | None exactly for a view that is empty or begins beyond the stream; `MissingData` exactly if it begins in a gap; else the text of its first chunk, of which a view that ends before its begin covers nothing |
| `Reading.NextBlock` | hilti/runtime/src/types/stream.cc:358-384 | Blocks follow each other without gap or overlap until the view's limit, with `MissingData` exactly if the next chunk is a gap |
| `Reading.AppendView` | hilti/runtime/src/types/bytes.cc:214-217 | Block iteration collects exactly the view's text up to the first gap, and fails if and only if there is one, or the view ends before its begin and begins in one |
| `Reading.DataForPrint` | hilti/runtime/src/types/stream.cc:414-449 | The walk over chunks gives the part of each chunk that the view covers, and a placeholder for each gap; without missing data that is the view's text, except exactly for an empty view inside a gap, past its beginning, for which it is the placeholder |
| `Reading.PrintedIsText` | hilti/runtime/src/types/stream.cc:414-449 | However a stretch of data is cut into chunks, what is printed for it is its text |
| `Reading.Placeholder` | hilti/runtime/src/types/stream.cc:425-426 | The placeholder is `<gap>` |
| `Reading.PrintedInverted` | hilti/runtime/src/types/stream.cc:414-449 | For a view that ends before its begin: nothing, unless the end lies in the same chunk as the begin, past its beginning; then the placeholder for a gap, and an arithmetic error for data |
| `Reading.GapIsPrinted` | hilti/runtime/src/types/stream.cc:414-449 | A stream that is one gap and an empty view inside it: block iteration gives nothing, printing gives the gap |
| `Extraction.Extract` | hilti/runtime/include/types/stream.h:1337-1354 | Gives the next n bytes and the view behind them; raises `WouldBlock` exactly if the view has fewer and the shortcut does not apply, and `MissingData` exactly if one of them is missing, or the shortcut applies in a gap. The view may end before its begin, as the one behind the bytes does after a shortcut past the end |
| `Extraction.PathsAgreeExactly` | hilti/runtime/include/types/stream.h:1340-1347 | The shortcut and the byte loop come to the same if and only if the view does not end before the bytes, or, for no bytes, does not begin in a gap |
| `Extraction.PastTheEnd` | hilti/runtime/include/types/stream.h:1340-1350 | The same view of one byte, of the same three bytes: asked for two, it gives them if they came at once, and raises `WouldBlock` if they came one by one |
| `Extraction.RestOfText` | hilti/runtime/include/types/stream.h:1337-1354 | The remaining view has the rest of the text |
| `Search.FoundExactly` | hilti/runtime/src/types/stream.cc:218-248 | Found if and only if the needle occurs, then at its first occurrence; else the first position whose remaining bytes are a prefix of the needle |
| `Search.SearchGoesOn` | hilti/runtime/src/types/stream.cc:218-248 | After more data, searching on from there gives the same as searching again |
| `Search.FindBytes` | hilti/runtime/src/types/bytes.cc:14-41 | The nested loops over bytes compute that result |
| `Search.FindForward` | hilti/runtime/src/types/stream.cc:218-248 | So do the loops over a view of any chunking; they fail exactly if they come to a gap before the needle was found |
| `Search.AppendUnderView` | hilti/runtime/src/types/stream.cc:57-72 | Appending data or a gap continues the text of a view that remembers current chunks, up to its limit, and keeps it valid |
| `Search.SearchOn` | hilti/runtime/src/types/stream.cc:218-248 | The same for a view whose stream is appended to, with data or a gap: restarting the search from the old result gives what searching from the view's begin gives, or fails just as that does |
| `Search.FindBothWays` | hilti/runtime/src/types/stream.cc:218-248 | The two agree on the same text |
| `FiberOrder.StepKeeps` | hilti/runtime/src/fiber.cc:377-510 | Every step of fibers and resumables that are used as told succeeds and keeps the world in order: in particular, when control returns to `run`, the callee is yielded or idle |
| `FiberOrder.FinishExecuteKeeps` | hilti/runtime/src/fiber.cc:94-626 | The end of a payload settles its resumable and recycles the fiber |
| `FiberResults.NoInternalError` | hilti/runtime/src/fiber.cc:377-510 | No run comes to a failing assertion or to the internal error at line 483 |
| `FiberResults.CallersLeadToMain` | hilti/runtime/src/fiber.cc:377-444 | The caller links lead from the current fiber to main without a repeat, and exactly the fibers on that path are running or aborting |
| `FiberResults.CacheIsClean` | hilti/runtime/src/fiber.cc:512-547 | The cache holds only fibers in state init or idle, each once and none in use, and its counter is its size |
| `FiberResults.PrimeCacheFills` | hilti/runtime/src/fiber.cc:549-560 | Priming fills the cache up to its limit |
| `FiberResults.OwnResultOnly` | hilti/runtime/src/fiber.cc:607-626 | A resumable has no result before it is done, and never that of another payload of a reused fiber |
| `FiberResults.OutcomeDelivered` | hilti/runtime/src/fiber.cc:572-626 | After its payload ended, a resumable is done, without a fiber, and with just that payload's result, or none after an exception |
| `FiberResults.YieldSuspends` | hilti/runtime/src/fiber.cc:487-636 | After a yield, the resumable that ran the payload is not done and has a yielded fiber; the context's handle was the current fiber |
| `FiberResults.AbortDelivered` | hilti/runtime/src/fiber.cc:594-605 | An aborted resumable is done and has no result |
| `FiberResults.DiscardDelivered` | hilti/runtime/src/fiber.cc:526-547 | A suspended fiber that is destroyed goes to the cache once its payload was aborted |
| `FiberResults.YieldSafeExactly` | hilti/runtime/src/fiber.cc:410-636 | Yielding fails an assertion if and only if the payload is being aborted and the context has a handle |
| `FiberResults.AbortedPayloadYields` | hilti/runtime/src/fiber.cc:487-636 | A new resumable that is run, yields and is aborted comes there |
| `FiberEffects.RunEffect` | hilti/runtime/src/fiber.cc:487-592 | Running or resuming a resumable: its fiber is current, running its own function, and the handle; the old one waits; nothing else changes |
| `FiberEffects.AbortEffect` | hilti/runtime/src/fiber.cc:594-605 | Aborting a suspended resumable: its fiber is current, aborting, and the handle; the old one waits; nothing else changes. Without a fiber nothing happens |
| `FiberEffects.DestroyEffect` | hilti/runtime/src/fiber.cc:526-547 | Destroying a resumable takes its fiber: a suspended one gets control, aborting, and any other goes to the cache if there is room; nothing else changes |
| `FiberEffects.NewEffect` | hilti/runtime/src/fiber.cc:512-524 | A new resumable has the fiber put into the cache last, or else a new one, with its own function and no outcome; nothing else changes |
| `FiberEffects.YieldEffect` | hilti/runtime/src/fiber.cc:410-636 | Yielding: control goes to the fiber's caller, with the handle as before the call; the fiber is yielded; nothing else changes |
| `FiberEffects.FinishEffect` | hilti/runtime/src/fiber.cc:94-626 | The end of a payload function: control goes to the fiber's caller, with the handle as before the call; the fiber is idle with its outcome; the resumable is settled as the call asks for; nothing else changes |
| `FiberEffects.RunThenYield` | hilti/runtime/src/fiber.cc:487-626 | Running or resuming a resumable whose function then yields: control and handle are back, its fiber is yielded, and nothing else has changed |
| `FiberEffects.RunThenFinish` | hilti/runtime/src/fiber.cc:572-626 | Running or resuming a resumable whose function then ends: control and handle are back, it is done with just that outcome and has no fiber, and nothing else has changed |
| `FiberEffects.AbortThenFinish` | hilti/runtime/src/fiber.cc:594-605 | Aborting a suspended resumable, whose function then ends in whatever way: control and handle are back, it is done without a result, its fiber is idle, and nothing else has changed |
| `FiberContext.Context.Run` | hilti/runtime/src/fiber.cc:377-478 | Activating a fiber updates state, caller and current fiber as `Fibers.Run` says |
| `FiberContext.Context.GiveBack` | hilti/runtime/src/fiber.cc:410-484 | Giving back control, and what the caller does then |
| `FiberContext.Context.Settle` | hilti/runtime/src/fiber.cc:607-626 | What a resumable does when its fiber is back |
| `FiberContext.Context.Execute` | hilti/runtime/src/fiber.cc:572-592 | Running and resuming a resumable; in a context in order and used as told it succeeds and keeps the context in order |
| `FiberContext.Context.Cancel` | hilti/runtime/src/fiber.cc:594-605 | Aborting a resumable; the same |
| `FiberContext.Context.Discard` | hilti/runtime/src/fiber.cc:526-547 | Destroying a resumable; the same |
| `FiberContext.Context.YieldControl` | hilti/runtime/src/fiber.cc:487-636 | Yielding; the same |
| `FiberContext.Context.FinishPayload` | hilti/runtime/src/fiber.cc:94-104 | The end of a payload function; the same |
| `FiberContext.Context.MakeResumable` | hilti/runtime/include/fiber.h:175-306 | A new resumable gets a fiber without result, exception or function of an earlier payload, and the context stays in order |
| `Stacks.BufferSize` | hilti/runtime/src/fiber.cc:294-298 | The swap space is a multiple of 1024 bytes, larger than what it has to hold, by at most 1024 |
| `Stacks.StackBuffer.Save` | hilti/runtime/src/fiber.cc:294-320 | Saves the active region, in a buffer of the computed size |
| `Stacks.StackBuffer.Restore` | hilti/runtime/src/fiber.cc:322-330 | Restores the active region, and touches nothing else |
| `Stacks.SwitchStacks` | hilti/runtime/src/fiber.cc:121-407 | A switch, direct or through the trampoline, saves the one and restores the other as far as they share the stack |
| `Stacks.SwitchFibers` | hilti/runtime/src/fiber.cc:121-407 | On fibers as objects with their own swap spaces, a switch is the step from one to the other that the results about runs speak of, for all fibers there are |
| `Stacks.NextKeepsValid` | hilti/runtime/src/fiber.cc:294-330 | In every run, swap spaces are large enough for what is restored from them |
| `Stacks.FindsItsBytes` | hilti/runtime/src/fiber.cc:121-444 | In every interleaving, a fiber on the shared stack that becomes current again finds in its active region exactly the bytes it left |
| `Integers.UnpackPacked` | hilti/runtime/include/types/integer.h:76-213 | Unpacking what was packed gives the value and the rest of the input, for all widths, signs and byte orders |
| `Integers.PackUnpacked` | hilti/runtime/include/types/integer.h:76-213 | Packing what was unpacked gives the input |
| `Integers.ValueOfBigEndian` | hilti/runtime/include/types/integer.h:76-82 | The bytes denote the number modulo what fits |
| `Integers.PackedDigits` | hilti/runtime/include/types/integer.h:76-150 | In network order the k-th byte is the base-256 digit of the k-th highest weight, in little-endian order that of the k-th lowest; the host's order is that of the system |
| `Integers.PackRaw` | hilti/runtime/include/types/integer.h:76-82 | The shifting loop writes the bytes in the order asked for |
| `Integers.UnpackRaw` | hilti/runtime/include/types/integer.h:84-93 | The accumulating loop, storing in the integer's type at each step, reads the number that the bytes denote in that type |
| `Integers.PackInteger` | hilti/runtime/include/types/integer.h:97-150 | Packing by byte order, with the host's order resolved first |
| `Integers.UnpackInteger` | hilti/runtime/include/types/integer.h:152-213 | Unpacking by byte order, with its two errors |
| `Unpacking.UnpackInteger` | hilti/runtime/include/types/integer.h:152-213 | Unpacking from a view, however it is cut into chunks, is unpacking from its text, and leaves a view with the rest; `MissingData` exactly if the view has enough bytes and one that is needed lies in a gap |
| `Unpacking.UnpackAddress` | hilti/runtime/src/types/address.cc:147-188 | The same for addresses, of which only the first word matters if the byte order is undefined |
| `Unpacking.RestOfAddress` | hilti/runtime/src/types/address.cc:147-188 | What is left of the text after unpacking an address is all but the 0, 4 or 16 bytes of its family |
| `Addresses.UnpackPacked` | hilti/runtime/src/types/address.cc:127-186 | Unpacking a packed address gives it and the rest of the input; an IPv4 address loses what does not belong to its 32 bits |
| `Addresses.PackUnpacked` | hilti/runtime/src/types/address.cc:127-186 | Packing an unpacked address gives the input |
| `Addresses.PackDenotes` | hilti/runtime/src/types/address.cc:127-146 | The bytes of a packed address denote all its 128 bits in network order, or the lower 32 for IPv4; the other order is the reverse |
| `Addresses.MaskIsPrefix` | hilti/runtime/src/types/address.cc:55-73 | The masked address is the prefix followed by zeros, across the 64-bit boundary |
| `Addresses.MaskedEqual` | hilti/runtime/src/types/address.cc:55-101 | Masked addresses are equal if and only if the prefixes are |
| `Addresses.MaskTwice` | hilti/runtime/src/types/address.cc:55-73 | Masking twice is masking to the smaller width |
| `Addresses.ContainsExactly` | hilti/runtime/include/types/network.h:31-105 | A network has the length it was made with, and contains exactly the addresses with its prefix |
| `Addresses.MadeExactly` | hilti/runtime/include/types/network.h:31-105 | A network is made exactly from lengths up to 32 for IPv4 and 128 for IPv6, and never without a family |
| `Addresses.ContainsIPv4Exactly` | hilti/runtime/include/types/network.h:80-105 | An IPv4 network of length k contains exactly the addresses that have the same k high-order bits of 32 |
| `Addresses.ContainsIPv6Exactly` | hilti/runtime/include/types/network.h:80-105 | The same for the 128 bits of IPv6 |
| `Addresses.NestedOrDisjoint` | hilti/runtime/include/types/network.h:80 | Any two networks are nested or disjoint |
| `Escapes.ReadNumber` | hilti/runtime/include/util.h:408-456 | The loop reads the longest signed number, as far as the result type holds it, modulo its width, and returns its start if there is none |
| `Escapes.AtoiDenotes` | hilti/runtime/include/util.h:408-456 | A string of digits is read as the number that it denotes, and with a sign in front as that or its negative |
| `Escapes.DigitIsUsualExactly` | hilti/runtime/include/util.h:432-440 | Characters count as digits as usual, except exactly those between `9` and `'0' + base` |
| `Escapes.AcceptsNoDigit` | hilti/runtime/src/util.cc:255-266 | An escape sequence like `\x1?`, with any of the six characters that follow `9`, is expanded |
| `Escapes.EscapeBytes` | hilti/runtime/src/util.cc:341-366 | The loop escapes byte by byte |
| `Escapes.EscapedIsPrintable` | hilti/runtime/src/util.cc:341-366 | The result is printable |
| `Escapes.UnescapedExactly` | hilti/runtime/src/util.cc:341-366 | A byte is left alone exactly if it is printable and neither a backslash nor a quote to be escaped |
| `Escapes.EscapedDenotes` | hilti/runtime/src/util.cc:341-366 | As a number, a byte is written with two lower-case hexadecimal digits, or three octal ones, that denote it |
| `Escapes.ExpandEscaped` | hilti/runtime/src/util.cc:177-366 | Expanding reverts escaping, for every byte string, with or without quotes escaped |
| `Escapes.OctalRevertedExactly` | hilti/runtime/include/util.h:292-303 | With octal numbers, exactly for printable strings |
| `Escapes.Expand` | hilti/runtime/src/util.cc:175-177 | An expanded string is never longer than the original |
| `Escapes.ExpandEscapes` | hilti/runtime/src/util.cc:177-273 | Expanding in place gives, on every input, what expanding into another string gives: writing never overtakes reading |
| `Escapes.ExpandUnicode` | hilti/runtime/src/util.cc:214-253 | One Unicode escape, with its three errors |
| `Escapes.ExpandHex` | hilti/runtime/src/util.cc:255-266 | One hexadecimal escape, with its two errors |
| `Escapes.Characters` | hilti/runtime/src/util.cc:177-269 | The bytes that introduce sequences, and signs, are these characters |
| `Escapes.LettersExpand` | hilti/runtime/src/util.cc:191-212 | Each of the eleven letters expands to its code, whatever follows it |
| `Escapes.OthersRefused` | hilti/runtime/src/util.cc:189-269 | Any other letter is refused |
| `Escapes.BackslashAlone` | hilti/runtime/src/util.cc:188-189 | A backslash at the end is refused |
| `Escapes.UnicodeExpands` | hilti/runtime/src/util.cc:214-253 | `\u` with four hexadecimal digits, and `\U` with eight, is the encoding of the number that they denote, or refused if there is none |
| `Escapes.UnicodeIncomplete` | hilti/runtime/src/util.cc:214-253 | With fewer characters it is incomplete |
| `Escapes.HexExpands` | hilti/runtime/src/util.cc:255-266 | `\x` with two hexadecimal digits, or one at the end, is the byte that they denote |
| `Splitting.Split` | hilti/runtime/src/util.cc:103-127 | The loop yields the pieces between delimiters, and an empty last one if the string ends in one |
| `Splitting.Join` | hilti/runtime/include/util.h:324-337 | The loop puts delimiters between the pieces |
| `Splitting.JoinSplitExactly` | hilti/runtime/src/util.cc:103-127 | Joining the pieces gives the string, or the string with a delimiter too many exactly if it ends in one that the scan does not come to |
| `Splitting.JoinRevertsSplitExactly` | hilti/runtime/src/util.cc:103-127 | Joining reverts splitting for all strings if and only if the delimiter does not overlap itself |
| `Splitting.SplitsAreFree` | hilti/runtime/src/util.cc:103-127 | No piece contains the delimiter |
| `Splitting.SplitRevertsJoin` | hilti/runtime/src/util.cc:103-127 | Splitting finds any pieces again that do not contain a delimiter that does not overlap itself |

## Left out

- Sink.Sink.Write: the optional `len` argument is always the size of the data. Numbers are unbounded and relative sequence numbers plus lengths stay below 2^64; `Wrapping.Agrees` says when 64 bits do the same, and `Wrapping.WrapsExactly` what happens otherwise, to the first such write.
- Sink gaps, `skip`, explicit `trim`, filters and hook dispatch: connected units are an append-only log of delivered data, overlap reports and undelivered data; gaps and skips have cursor rules of their own.
- Chain.Chain.Trim: with chunks, the trim point does not lie before the head, because the loop does not end then (`Layout.TrimEndsExactly`).
- Chain.Chain.Append: one chunk at a time and never an empty one, as `Stream::append` does it; appending another chain, or a list of chunks, is not modelled.
- Chain.SafeConstIterator.Increment: moving backwards, unbound iterators and comparing iterators of different streams are not modelled.
- The two representations of a chunk's bytes (inline array or vector) are one sequence; stream offsets are unbounded.
- `View::_findBackward` and `View::find` with another view as needle: the former has no clean contract at the view's end, the latter is the forward search again.
- Parsing.RunOnPart: a run has a step budget, and the results hold for every budget; a parser that never ends in either is not told from one that is cut off. Parsers are deterministic machines without look at offsets or the stream's frozen flag.
- Driver.CutsDoNotMatter: parsers do not trim the stream, which makes no difference to them at the points of `Layout.TrimPointExactly`.
- Driver.ParsingState.ProcessData: a parser comes with its context, which is part of what the datatype of parsers stands for.
- Driver.CutsDoNotMatterToGuarded: inputs have fewer than 2^64 - 1 bytes, since waiting for the end of data waits for that many; and no gaps, if the parser may take no bytes, since that fails in a gap or not depending on the chunks (`Parsing.TakeFixedExactly`).
- FiberOrder.StepKeeps: resumables are run once, resumed and aborted only when they have yielded, and not destroyed while they execute; nothing checks that in the source. The destructor of a context, `Fiber::reset` and thread safety of the counters are not modelled.
- Stacks.FindsItsBytes: the initial frame of a fiber is given; the third-party switching primitives, guard pages and address sanitizer bookkeeping are not modelled, and a fiber writes to the shared stack only while it executes on it.
- Escapes.ExpandUnicode: UTF-8 encoding is an arbitrary function that gives at most four bytes for the number read.
- Escapes.ReadNumber: signed overflow, which C++ leaves undefined, is taken to wrap around.
- Escapes.EscapeBytes: `isprint` is that of the "C" locale.
- Addresses.Mask: clearing low-order bits is written as arithmetic; the family is kept as in the source.
- Parsing and printing of addresses and networks, and networks made from text, which skip the length check.
- `Bytes::toInt`, regular expressions, base64, zlib, `escapeUTF8`, white-space splitting: third-party engines, or easy members.
- Configuration, files, console, logging, profiling, JSON, dynamic libraries, option parsing, and type information.
