# TDITRACE: a verified model

TDITRACE lets many threads log into one memory-mapped buffer, and later turns the buffers of
all processes into a stream of timeline events. This project models that pipeline in Dafny and
proves what it is meant to keep.

| module | what it models |
|---|---|
| Words, Numerals, Records | the 32-bit words of a record: the packed marker, the padded text, the numerals printed into it; `parse` and the length walk over chains of records |
| TraceBuffer | the buffer as one caller sees it: creation, append, wrap or disabling, rewind, statistics |
| SharedLog | the same buffer under any number of threads, one step and one dword store at a time |
| Sweeping | what a wrap leaves in memory, in every reachable state |
| Linearization | the shared log against the single caller's appends, done one after the other |
| LogLimits | runs that show where the guarantees of the shared log end |
| Merge, PlayoutOrder | the playout of all buffers by timestamp, and its order as a whole |
| Format | the format string of a trace call |
| Filters | the sample filters `OUT1`, `OUT1base`, `OUT2`, `OUT3`, `dovalue` and the delta codecs `doqueue`, `doqueue_base` |
| TextLine, Timelines, Translator, TimelineRuns, TimelineEvents | the translator: rebuilding a line, choosing its timeline, the name tables and what whole runs emit |
| TracedLines | from the characters of a traced text to the lines emitted for it, written out |
| RecordItems | which records reach the translator's text path, and as what line |
| QueuePipeline, MergedQueues | queue samples from suppression to the emitted deltas, end to end, in one buffer and through the playout of many |
| TextureList | the linked list of captured textures, on the heap |
| ClockUnwrap | time-of-day stamps continued over midnight |
| Smaps, SmapsFields | the fixed-offset scan of memory-map text, and the labelled fields it is to add up |

## How to read the model

- A word is a 32-bit unsigned number; wrap-around, `%d` printing and the 64-bit exit stamp are
  written out. Bitwise packing is modelled with its own recursive `Or`, and shown to be a sum.
- `SharedLog` has these steps for each thread: read the flag without the lock, read the clock,
  take the lock, store one dword (as often as the record needs), store the terminator, settle
  (wrap or disable), release. A rewind is one step with no call in flight. Stores take effect
  in program order. `Reachable` states are those of every run, of any length and any number of
  threads. `Linearizable` ties every interleaving to `TraceBuffer.Append`, the function the
  imperative `Buffer.Trace` is proved against.
- The code does not enforce that records fit what is left of the buffer. Where that matters it
  is a condition on the state: `InBuffer` says that no store of the current generation has missed
  the buffer (without wrap: the cursor, which only a rewind sets back, is inside it; with wrap: a
  record and its terminator fit the 1024-byte reserve as well). It holds for any number of
  threads and records of any size as long as the cursor is inside. `Fits` is the stronger condition on the configuration under which
  no store can ever miss the buffer: with wrap, one record and a terminator fit the reserve;
  without, one record for each thread and a terminator do. Only `StoresInBounds`,
  `AlwaysInBuffer` and the results of `LogLimits` about missed stores speak of it.
  `CapacityBound` needs neither.
- `current` and `previous` of `TraceBuffer` (and `base`, `prevBase` of `SharedLog`) split the
  appended records into generations, separated by wraps and rewinds.
- Records with the identifiers 128 to 138 go to the translator's tables, whose lines use numbers
  below 10000 or from 58000 on; the timelines of this model are those of the text path, which
  numbers them from 10000 on and, within the table limits, below 28000.
- In the translator a line starts with its `[pid:process]` prefix, a parameter here.

## What the proofs found

- With two threads or more a buffer need not be sorted by time: the clock is read before the
  lock is taken (`Overtaking`, `SortedIffOneThread`). The merge gives sorted output if and only if
  every buffer is sorted (`SortedIffBuffersSorted`).
- The reserve is too small as soon as one record for each thread and a terminator do not fit it:
  then, without wrap, a run stores behind the end of the buffer (`StoresInBoundsIffFits`).
- A reader without the lock is safe after every single store of a record that ends inside the
  buffer, as long as the buffer never wrapped or was rewound (`UnlockedReader`). Afterwards it
  still is while no dword of a record in progress is stored (`UnlockedReaderBetween`), but during
  the stores the dword behind the record may be stale. `UnlockedReaderExactly` gives the exact
  condition, and `StaleAfterWrap` a run that violates it, in every wrapping buffer that takes
  records of four dwords.
- Take the first buffer, in table order, that has the latest timestamp of all. The closing entry
  is later than every other exactly if that buffer's final timestamp plus 0.1 s does not wrap 64
  bits and is later than the latest timestamp (`ExitComesLast`). One unsorted buffer is enough for
  it to fail (`ExitBeforeUnsorted`); with sorted buffers only the wrap matters.
- A queue sample is read as a level of its queue exactly if prefix and name hold no space, tilde
  or line break and the name does not look like a mark (`SampleEntry`). A process name can hold a
  space, since it is the base name of the command: then all its samples become notes on a single
  timeline (`SpaceHidesQueues`, `SpacedProcess`).
- A queue, value or cycle name is free of spaces exactly when the line's first word holds its
  separator once (`SplitNameSpaceFree`, `NamesSpaceFree`); `TwoSeparators` is a line that fails.
- A record without text is followed directly by the next record's marker. That marker reads as
  an `@X+` or `@X-` tag exactly if the next record's size is 64 modulo 256 and it carries 43 or
  45 numbers (`EmptyTextMisread`), and then the line is not what was traced (`EmptyTextExactly`).
- `doqueue` and `doqueue_base` add up to the level they follow, also below the base, exactly as
  long as every step of the level can be shown by `%d` (`IntegralIsLevel`); a first sample of
  2^31 cannot (`LargeStepIsMisprinted`).
- Unwrapped stamps are true time minus whole days exactly if no two neighbouring stamps lie 24
  hours or more apart (`UnwrapIsExact`, `FullDayIsLost`).

## Model

| member | source | states |
|---|---|---|
| Words.OrDisjoint | minimal-tdi/libtdim.cpp:3632-3634 | or-ing a number into the zero low bits of another adds them |
| Words.PackedMarkerIsMarker | minimal-tdi/libtdim.cpp:3632-3634 | the three shifted and or-ed fields of a marker do not overlap when the length fits 16 bits |
| Words.MarkerFields | minimal-tdi/libtdim.cpp:1277-1286 | length, number count and identifier are read back from a marker exactly |
| Words.LengthSurvives | minimal-tdi/libtdim.cpp:3632-3634 | the length is read back if and only if it is below 2^16 |
| Words.BytesOfDwordsOf | minimal-tdi/libtdim.cpp:3614-3617 | text stored as dwords is read back as the same bytes |
| Numerals.PrintUnsigned | minimal-tdi/libtdim.cpp:3427-3466 | the divisor loops for %u and %x stay within 32 bits, terminate and print the canonical numeral of every 32-bit number |
| Numerals.TopDivisor | minimal-tdi/libtdim.cpp:3432-3433 | the first loop finds the largest power of the base not above the number, without overflow |
| Numerals.PrintSigned | minimal-tdi/libtdim.cpp:3404-3426 | %d prints every signed 32-bit number, INT_MIN included, as its canonical numeral with a sign |
| Numerals.CanonicalIsShortest | minimal-tdi/libtdim.cpp:3416-3424 | no numeral of the same value is shorter than the one printed |
| Numerals.CanonicalIsUnique | minimal-tdi/libtdim.cpp:3416-3424 | different numbers print differently, and each has one canonical numeral |
| Numerals.AtoiReadsBack | minimal-tdi/libtdim.cpp:1007 | atoi of a printed number, followed by anything but a digit, is the number |
| Numerals.AtoiSkips | minimal-tdi/libtdim.cpp:1007 | white space in front and a plus sign change nothing |
| Records.ParseStored | minimal-tdi/libtdim.cpp:1271-1296 | parse of a stored record gives its identifier, timestamp, numbers and text region and moves behind it |
| Records.ChainRoundTrip | minimal-tdi/libtdim.cpp:1271-1296 | parsing a chain again and again yields exactly its records in order, then reports invalid and stays |
| Records.ChainAt | minimal-tdi/libtdim.cpp:1278 | following the lengths visits every record's start and ends at the terminator, within bounds |
| Records.StoredIsChain | minimal-tdi/libtdim.cpp:3632-3652 | records stored one behind the other with a final zero form a readable chain |
| Records.ChainIsStored | minimal-tdi/libtdim.cpp:3632-3652 | and every readable chain is such a store, byte for byte |
| Records.ChainDetermines | minimal-tdi/libtdim.cpp:1271-1296 | memory holds at most one chain at a place: records and end are determined |
| Records.ChainWalks | minimal-tdi/tdim.cpp:172-178 | the length walk meets exactly the sizes of the records and ends at the terminator |
| Records.TimestampOfClock | minimal-tdi/libtdim.cpp:1280-1284 | for non-negative clock words the 64-bit timestamp is sec times 10^9 plus nsec |
| Records.TimestampOfInts | minimal-tdi/libtdim.cpp:1280-1284 | for all pairs of ints, negative ones included, the timestamp is their sum modulo 2^64 |
| TraceBuffer.Buffer.constructor | minimal-tdi/libtdim.cpp:2618-2662 | a new buffer is zero behind its six header words, enabled, with an empty chain |
| TraceBuffer.Buffer.Trace | minimal-tdi/libtdim.cpp:3356-3675 | for any record that fits what is left, dword by dword: an enabled buffer keeps what is before the cursor and gets the record and a zero; if that ends less than 1024 bytes before the end, a wrap zeroes everything behind and goes back to the first record, otherwise the flag drops; a disabled buffer is untouched; the chain stays readable |
| TraceBuffer.AppendDwords | minimal-tdi/libtdim.cpp:3632-3672 | the same of one append, for any memory |
| TraceBuffer.HeaderReadsBack | minimal-tdi/libtdim.cpp:2632-2641 | the six header words are the eight letters and both clocks, and read back as such |
| TraceBuffer.Buffer.StoreRecord | minimal-tdi/libtdim.cpp:3632-3652 | the advancing stores overwrite exactly the record's dwords and the zero behind them |
| TraceBuffer.Buffer.SettleCursor | minimal-tdi/libtdim.cpp:3654-3672 | above the reserve, wrap clears the rest and goes back to the first record, otherwise the flag drops; below it nothing changes |
| TraceBuffer.Buffer.ClearRest | minimal-tdi/libtdim.cpp:3660-3664 | exactly the dwords from the cursor to the end become zero |
| TraceBuffer.Buffer.Rewind | minimal-tdi/libtdim.cpp:3067-3095 | header rewritten, empty chain, enabled; everything behind the first marker stays |
| TraceBuffer.AppendKeepsQuiet | minimal-tdi/libtdim.cpp:3622-3674 | after an append the readable chain is the current generation plus the record, or right after a wrap the whole finished generation; stale dwords are never reachable |
| TraceBuffer.SettleKeepsQuiet | minimal-tdi/libtdim.cpp:3654-3672 | wrapping or disabling keeps the chain that was complete before |
| TraceBuffer.Stat | tdistat/src/tdistat.c:80-88 | the walk counts the records, its offset is the end of the chain, the percentage is the number of started hundredths and in 1..100 |
| TraceBuffer.ReadersAgree | minimal-tdi/tdim.cpp:172-181 | length walk and parse meet the same records and stop at the writer's cursor, except right after a wrap |
| SharedLog.RunInv | minimal-tdi/libtdim.cpp:3356-3675 | every reachable state keeps the locking, capacity and thread-order invariants and, as long as no store missed the buffer, the memory invariant, for any interleaving |
| SharedLog.ConsistentStep | minimal-tdi/libtdim.cpp:3622-3674 | every single step whose store hits the buffer keeps memory equal to the completed records plus the stored part of the one in progress |
| SharedLog.BoundedStep | minimal-tdi/libtdim.cpp:3356-3359 | every single step keeps the cursor within what the calls past the unlocked check may still use |
| SharedLog.OrderedStep | minimal-tdi/libtdim.cpp:3371-3372 | every single step keeps each thread's records in its own order and sorted by time |
| SharedLog.QuiescentChain | minimal-tdi/libtdim.cpp:3622-3674 | whenever the lock is free and no store has missed the buffer, the chain from the first record decodes to the completed appends in lock order, for any number of threads |
| SharedLog.ProgramOrder | minimal-tdi/libtdim.cpp:3356-3372 | a thread's records in the log are its calls that passed the check, unchanged and in order, all but a pending one |
| SharedLog.CapacityBound | minimal-tdi/libtdim.cpp:3654-3671 | the cursor never passes size minus reserve by more than one record per thread, and with wrap by more than one record |
| SharedLog.StoresInBounds | minimal-tdi/libtdim.cpp:3632-3652 | if the reserve holds one record for each thread (with wrap: one record) and a terminator, every store of every run lands behind the header and inside the buffer |
| Sweeping.SettleUpDwords | minimal-tdi/libtdim.cpp:3654-3672 | dword by dword, the step that finds the buffer nearly full: a wrap zeroes everything from the end of the generation on and nothing before it |
| Sweeping.NothingStaleBehind | minimal-tdi/libtdim.cpp:3657-3665 | in every reachable state whose stores hit the buffer, every dword behind the generation that the last wrap closed, and not reached since, is zero |
| Sweeping.RewindDwords | minimal-tdi/libtdim.cpp:3067-3095 | a rewind rewrites the header and the first marker, nothing else, and enables the buffer |
| SharedLog.AlwaysInBuffer | minimal-tdi/libtdim.cpp:3654-3671 | and then the condition of the other results holds in every reachable state |
| LogLimits.StoresInBoundsIffFits | minimal-tdi/libtdim.cpp:3654-3671 | no store of any run misses the buffer if and only if the reserve is that large, for record bounds of 5 to 770 dwords (the longest record) and every buffer three dwords above the smallest |
| LogLimits.SomeStoreMisses | minimal-tdi/libtdim.cpp:3357-3359 | with a smaller reserve, the run that fills the buffer, lets all threads pass the check and then overflows |
| SharedLog.LateAppends | minimal-tdi/libtdim.cpp:3357-3359 | once the flag is down, completed plus in-flight calls stay constant: each such call appends one record and no other does |
| SharedLog.LateAppendsPerThread | minimal-tdi/libtdim.cpp:3669-3674 | after the thread that disabled the buffer, at most one record for each other thread follows |
| SharedLog.UnlockedReader | minimal-tdi/tdim.cpp:172-178 | in a buffer never wrapped or rewound, after every dword store of a record that ends inside it, the unlocked walk ends in bounds after n records, or n+1 with the final length |
| SharedLog.UnlockedReaderBetween | minimal-tdi/tdim.cpp:172-178 | in any run, while no dword of a record in progress is stored, the walk meets exactly the visible generation |
| SharedLog.UnlockedReaderExactly | minimal-tdi/tdim.cpp:172-178 | while a record that ends inside the buffer is stored, in any run, the walk is right if and only if the dword behind it is zero |
| LogLimits.StaleAfterWrap | minimal-tdi/libtdim.cpp:3658-3665 | in every wrapping buffer that takes records of four dwords, whatever its size, record bound and number of threads, a run after which the unlocked walk goes wrong |
| SharedLog.AppendIsAtomic | minimal-tdi/libtdim.cpp:3622-3674 | the steps of one call under the lock, when no other step comes between them, have the effect of one append |
| Linearization.LinearStep | minimal-tdi/libtdim.cpp:3622-3674 | every single step of any thread keeps the buffer equal to the completed appends, done one after the other, plus the stored part of the one in progress |
| Linearization.Linearizable | minimal-tdi/libtdim.cpp:3356-3675 | in every run without rewinds whose stores hit the buffer, whenever the lock is free the whole buffer, cursor and flag are what the completed appends make of a new buffer in lock order, and each of them found room |
| LogLimits.Overtaking | minimal-tdi/libtdim.cpp:3371-3372 | for two threads or more, a run that leaves the log unsorted by time |
| LogLimits.SortedIffOneThread | minimal-tdi/libtdim.cpp:3371-3372 | the log is sorted by time in all runs if and only if there is one thread |
| Merge.Reader.Parse | minimal-tdi/libtdim.cpp:1271-1296 | the reader takes the header at its cursor and the cursor moves past the record |
| Merge.Select | minimal-tdi/libtdim.cpp:3244-3268 | a least timestamp is picked; a tie goes to the last valid buffer if it is minimal, else to the lowest index |
| Merge.PickIsUnique | minimal-tdi/libtdim.cpp:3261-3268 | this selection rule leaves no choice |
| Merge.PlayNext | minimal-tdi/libtdim.cpp:3270-3284 | the picked reader's record is emitted unchanged, and only that reader moves on |
| Merge.ViewShowsRecord | minimal-tdi/libtdim.cpp:3270-3274 | what is played of a record is its identifier, timestamp, numbers and text, zero bytes behind it |
| Merge.PlayOut | minimal-tdi/libtdim.cpp:3223-3299 | the loop terminates with every buffer played to its end by that rule, and stamps the exit entry |
| Merge.Interleaving | minimal-tdi/libtdim.cpp:3239-3295 | at every point, what was played of a buffer followed by its rest is the buffer: nothing lost, doubled or reordered |
| Merge.CompleteInterleaving | minimal-tdi/libtdim.cpp:3239-3295 | at the end every buffer's records were played, in order |
| Merge.SourceExists | minimal-tdi/libtdim.cpp:3239-3295 | nothing else was played |
| Merge.SortedPlayout | minimal-tdi/libtdim.cpp:3258-3268 | sorted buffers give sorted output that is never ahead of a current head |
| Merge.PlayoutIsDetermined | minimal-tdi/libtdim.cpp:3244-3268 | the output is a function of the buffers |
| PlayoutOrder.SortedIffBuffersSorted | minimal-tdi/libtdim.cpp:3258-3268 | the complete output is sorted by time if and only if every buffer is |
| PlayoutOrder.BoundedByLast | minimal-tdi/libtdim.cpp:3244-3268 | no record played is later than every record of the buffer played last |
| PlayoutOrder.PlayedLast | minimal-tdi/libtdim.cpp:3244-3268 | the buffer played last is the first one that has the latest timestamp of all |
| PlayoutOrder.ExitComesLast | minimal-tdi/libtdim.cpp:3297-3299 | in terms of the buffers: the exit entry is strictly last if and only if the final timestamp of that buffer plus 0.1 s does not wrap 64 bits and is later than the latest timestamp |
| PlayoutOrder.ExitComesLastIfSorted | minimal-tdi/libtdim.cpp:3297-3299 | for sorted buffers that is if and only if the stamp does not wrap |
| PlayoutOrder.ExitBeforeUnsorted | minimal-tdi/libtdim.cpp:3297-3299 | one buffer with two unsorted records for which the exit entry is not last |
| Format.FormatMessage | minimal-tdi/libtdim.cpp:3376-3612 | the numbers are the arguments of %n in argument order, the identifier is the low byte of the last %m, and the text is the literal characters with, for each conversion, the numeral or string of its own argument |
| Format.FormattedAsAsked | minimal-tdi/libtdim.cpp:3382-3612 | the loop that extends a message gives what the format asks for, behind what was there before |
| Format.CopyString | minimal-tdi/libtdim.cpp:3385-3403 | %s copies at most 513 characters |
| Format.FormatConcat | minimal-tdi/libtdim.cpp:3382-3612 | formatting two formats in a row is formatting their concatenation |
| Format.FormatLiteral | minimal-tdi/libtdim.cpp:3609-3611 | a format without conversions is copied as it is |
| Filters.Filter.Sample | minimal-tdi/tdim.h:51-134 | one use of the macro: new static variables and the value sent |
| Filters.Out1Sends | minimal-tdi/tdim.h:51-64 | sent are exactly the first non-zero sample and every sample that differs from the one before |
| Filters.Out1BaseSends | minimal-tdi/tdim.h:66-81 | the same samples, minus the first non-zero one modulo 2^32 |
| Filters.Out2Sends | minimal-tdi/tdim.h:89-107 | sent are exactly the first non-zero sample, the one behind it, and every later one that differs from one of the two before |
| Filters.Out3Sends | minimal-tdi/libtdim.cpp:179-202 | OUT3 and dovalue send exactly the sample before the first change, and later the one before every sample that differs from one of the two before |
| Filters.Out1HoldsCurrent | minimal-tdi/tdim.h:51-64 | holding the last value sent reproduces the current sample, from the first non-zero one on |
| Filters.Out1BaseHoldsRelative | minimal-tdi/tdim.h:66-81 | likewise for the sample minus the first non-zero one, modulo 2^32 |
| Filters.Out2HoldsCurrent | minimal-tdi/tdim.h:89-107 | OUT2 reproduces the current sample as well |
| Filters.Out2CoversOut1 | minimal-tdi/tdim.h:89-107 | wherever OUT1 sends, OUT2 sends the same |
| Filters.Out3HoldsDelayed | minimal-tdi/libtdim.cpp:179-202 | from the first change after a non-zero sample, holding the last value sent is the sample sequence delayed by exactly one |
| Filters.Slots.DoQueue | minimal-tdi/libtdim.cpp:125-148 | one use of the macro on one process slot; all other slots stay |
| Filters.Slots.DoQueueBase | minimal-tdi/libtdim.cpp:150-177 | likewise, relative to the first non-zero sample of the slot |
| Filters.QueuePrints | minimal-tdi/libtdim.cpp:125-177 | over whole runs, a line is printed exactly for the first non-zero sample and for every change of the level: STA or STO with the 32-bit difference as %d shows it |
| Filters.PlainQueuePrints | minimal-tdi/libtdim.cpp:125-148 | for doqueue that is every sample that is not the one before |
| Filters.Slots.DoValue | minimal-tdi/libtdim.cpp:179-202 | the array form of OUT3, whether it prints or not |
| Filters.IntegralIsLevel | minimal-tdi/libtdim.cpp:125-177 | STA minus STO equals the sample, or the sample minus the first non-zero one, after every step, if and only if every step can be shown by %d |
| Filters.LowSamplesAreShowable | minimal-tdi/libtdim.cpp:125-177 | samples below 2^31 always satisfy that condition |
| Filters.LargeStepIsMisprinted | minimal-tdi/libtdim.cpp:129-137 | a first sample of 2^31 violates it, and the sum is 2^32 off |
| Filters.LowSamplesPrintForward | minimal-tdi/libtdim.cpp:125-148 | and then every amount printed is non-negative |
| TextLine.TextRecovered | minimal-tdi/libtdim.cpp:560-580 | prefix plus exactly the original text is rebuilt, plain or tagged, also when the stored text has no terminator |
| TextLine.EmptyTextShown | minimal-tdi/libtdim.cpp:576-579 | a record without text shows its identifier in hexadecimal |
| TextLine.IdentifierShown | minimal-tdi/libtdim.cpp:578-579 | as two upper-case hexadecimal digits, the high one first |
| TextLine.EmptyTextMisread | minimal-tdi/libtdim.cpp:563-564 | exactly which following record makes an empty text look tagged |
| TextLine.EmptyTextExactly | minimal-tdi/libtdim.cpp:563-580 | an empty text in front of another record shows its identifier if and only if that record is not such a one; such records exist |
| TextLine.ReplaceBreaks | minimal-tdi/libtdim.cpp:587-592 | line breaks become underscores, nothing else changes |
| TextLine.AppendNumbers | minimal-tdi/libtdim.cpp:594-598 | the loop appends the tail of all numbers |
| TextLine.NumberTailShows | minimal-tdi/libtdim.cpp:594-598 | one more number appends its index in decimal and its value in hexadecimal digits |
| TextLine.NumberTailSetOff | minimal-tdi/libtdim.cpp:596 | appended numbers are set off by a space |
| Timelines.TailKeepsTimeline | minimal-tdi/libtdim.cpp:600-1226 | words behind the first one never change the timeline of a line, of whatever kind |
| Timelines.SplitNameSpaceFree | minimal-tdi/libtdim.cpp:997-1010 | a split name is free of spaces if and only if the first word holds the separator once |
| Timelines.TwoSeparators | minimal-tdi/libtdim.cpp:999-1010 | a line whose name contains a space, with the value behind the last separator |
| Translator.Find | minimal-tdi/libtdim.cpp:1014-1022 | the search gives the first index with the name, or -1 if there is none |
| Translator.SplitLoop | minimal-tdi/libtdim.cpp:999-1010 | the in-place splitting loop ends with name and value of the last separator in the first word, all separators up to there overwritten |
| Translator.TrySplit | minimal-tdi/libtdim.cpp:995-1012 | the line is split as specified, or handed on, with a lone separator in front overwritten |
| Translator.Classify | minimal-tdi/libtdim.cpp:600-1226 | the chain of tests sorts a line into its kind, name and action |
| TracedLines.FirstNumbers | minimal-tdi/tdim.h:24-32 | the number each kind starts at |
| TracedLines.TaskIsTraced | minimal-tdi/libtdim.cpp:605-682 | a text @T+ emits, on the task of its first word, STA, and @T- STO, after a NAM if the task is new, then the description; nothing for a new task beyond the limit |
| TracedLines.InterruptIsTraced | minimal-tdi/libtdim.cpp:761-830 | @I+ emits STA and @I- STO of an interrupt |
| TracedLines.SemaphoreIsTraced | minimal-tdi/libtdim.cpp:688-755 | @S+ emits OCC of a semaphore |
| TracedLines.EventIsTraced | minimal-tdi/libtdim.cpp:836-905 | @E+ emits OCC of an event |
| TracedLines.AgentIsTraced | minimal-tdi/libtdim.cpp:912-985 | every other tag, and @S- and @E-, emits STA or STO of an agent, and its color for a starting tag 0 to 7 |
| TracedLines.QueueIsTraced | minimal-tdi/libtdim.cpp:995-1050 | name~value emits STA by what the queue rose or STO by what it fell |
| TracedLines.ValueIsTraced | minimal-tdi/libtdim.cpp:1061-1162 | name#value emits TIM and VAL, name^value the same with ten million times the value |
| TracedLines.NoteIsTraced | minimal-tdi/libtdim.cpp:1168-1226 | a first word that no separator splits emits OCC of a note and its description |
| TracedLines.LoneSeparatorIsBlanked | minimal-tdi/libtdim.cpp:997-1012 | a line that starts with a separator and a digit becomes a note without a name |
| Translator.Context.Intern | minimal-tdi/libtdim.cpp:1013-1036 | a known name keeps its slot; a new one gets the next, a NAM and a zero level |
| Translator.Context.Put | minimal-tdi/libtdim.cpp:1013-1050 | tables and output after one entry; a task beyond the limit changes nothing |
| Translator.Context.AddEntry | minimal-tdi/libtdim.cpp:600-1227 | one item changes tables and output as specified, earlier output stays |
| TimelineRuns.RunIsGood | minimal-tdi/libtdim.cpp:600-1227 | over whole runs tables and output stay consistent: counts of NAM, sums of deltas, distinct names |
| TimelineRuns.NamBeforeUse | minimal-tdi/libtdim.cpp:663-671 | every STA, STO, OCC or VAL is preceded by exactly one NAM of its timeline, and no other follows |
| TimelineRuns.NamesAreTheTables | minimal-tdi/libtdim.cpp:657-666 | every NAM carries the name its slot holds at the end, and all names of a kind differ |
| TimelineRuns.IdsAreStable | minimal-tdi/libtdim.cpp:1024-1036 | later items never rename or renumber a timeline |
| TimelineRuns.IdsTellKindsApart | minimal-tdi/tdim.h:12-33 | within the table limits, an id belongs to one kind |
| TimelineRuns.LinesTellKindsApart | minimal-tdi/tdim.h:12-33 | in the output of any run within the limits, two lines with the same id are of the same kind |
| TimelineRuns.OverLimitIsSilent | minimal-tdi/libtdim.cpp:647-649 | a line emits nothing if and only if it is about a task that is not in the table while the table holds the limit or more, and then changes nothing |
| TimelineRuns.TasksWithinLimit | minimal-tdi/libtdim.cpp:647-649 | the task table never outgrows the limit |
| TimelineRuns.QueueIntegral | minimal-tdi/libtdim.cpp:1038-1047 | per queue, STA minus STO of a whole interleaved run is the queue's last value |
| TimelineRuns.QueueShowsLevel | minimal-tdi/libtdim.cpp:1038-1047 | the same by queue name |
| TimelineRuns.DeltasAreForward | minimal-tdi/libtdim.cpp:1041-1046 | every amount emitted is non-negative |
| TimelineRuns.NamesSpaceFree | minimal-tdi/libtdim.cpp:630-658 | all names of a run are free of spaces if and only if every split line had one separator |
| TimelineEvents.EventsAreConserved | minimal-tdi/libtdim.cpp:600-1227 | the lines on a timeline are, in order, exactly the run's entries for it with their stamps and values |
| QueuePipeline.SampleIsFormatted | tdi/src/tdimain.c:1249-1258 | NAME~%u is formatted as the name, the separator and the numeral |
| RecordItems.ItemIsFaithful | minimal-tdi/libtdim.cpp:560-598 | the line made of a parsed text record is what was traced, text, numbers or identifier, unless an empty text is followed by bytes that look tagged |
| RecordItems.NextIsNotMarked | minimal-tdi/libtdim.cpp:563-564 | in a chain in which no empty text is followed by such a record, they never do |
| RecordItems.ReadBack | minimal-tdi/libtdim.cpp:512-598 | then every record is dispatched, or made a line, as it was traced |
| RecordItems.TablesTake | minimal-tdi/libtdim.cpp:512-558 | exactly the identifiers 128 to 138 never reach the text path |
| QueuePipeline.SampleEntry | tdi/src/tdimain.c:591-607 | a sample's record is read as its level of its queue if and only if prefix and name are free of spaces, tildes and line breaks and the name is not a mark |
| QueuePipeline.SpaceHidesQueues | minimal-tdi/libtdim.cpp:995-1011 | behind a space in the prefix every sample becomes a note on the timeline named by what stands before the space |
| QueuePipeline.SpacedProcess | minimal-tdi/libtdim.cpp:1344-1358 | such a process name |
| QueuePipeline.SamplesKeepOff | tdi/src/tdimain.c:591-607 | samples that can be read keep off each other's queues |
| QueuePipeline.Sampler.Take | tdi/src/tdimain.c:1249-1259 | a sample is sent if and only if it is the first of its name or differs from the last one |
| QueuePipeline.SentKeepsLast | tdi/src/tdimain.c:1249-1259 | suppression never changes the last value of a name |
| QueuePipeline.SentIsDeduped | tdi/src/tdimain.c:1249-1259 | of every queue, what is sent is the sequence of its values without the repeats |
| QueuePipeline.DedupedHasNoRepeats | tdi/src/tdimain.c:1249-1259 | in which no two neighbours are equal |
| QueuePipeline.LevelsOfCalls | tdi/src/tdimain.c:636-646 | the level the translator sees of a readable queue is its last sample, sent or suppressed, whatever else is traced in between that does not set the queue |
| QueuePipeline.QueueFidelity | tdi/src/tdimain.c:591-650 | samples below 2^31, suppressed, printed, stored among other records that do not set the queue, parsed, split and delta-coded, integrate after the records of any number of calls to the last sample of those calls, with every amount non-negative |
| MergedQueues.PlayedInput | minimal-tdi/libtdim.cpp:3270-3274 | every record played is handed to the translator as it was traced by its process |
| MergedQueues.MergedFidelity | minimal-tdi/libtdim.cpp:3239-3295 | the same through the merge, at every point of the playout of any number of processes |
| MergedQueues.CompleteFidelity | minimal-tdi/libtdim.cpp:3239-3295 | and at its end, for the last sample of every process and queue |
| MergedQueues.PidsTellApart | minimal-tdi/libtdim.cpp:560 | queues of processes with different numbers never share a name |
| MergedQueues.ForeignSampleKeepsOff | minimal-tdi/libtdim.cpp:560 | so readable samples keep off the queues of every other process |
| TextureList.List.CreateList | tditracer/src/texturelinkedlist.c:13-38 | the list has the one node, or stays empty without memory |
| TextureList.List.Add | tditracer/src/texturelinkedlist.c:40-82 | contents grow at the chosen end; the heap list stays acyclic with the right tail |
| TextureList.List.Link | tditracer/src/texturelinkedlist.c:74-80 | exactly the one node joins at the chosen end |
| TextureList.List.Search | tditracer/src/texturelinkedlist.c:84-108 | the first node with the id and its predecessor, or null |
| TextureList.List.Unlink | tditracer/src/texturelinkedlist.c:122-135 | exactly the one node leaves; head and tail follow |
| TextureList.List.Remove | tditracer/src/texturelinkedlist.c:120-138 | the node that leaves the list is the one that is freed, with its image |
| TextureList.List.Delete | tditracer/src/texturelinkedlist.c:110-141 | removes exactly the first texture with the id, frees its node and image, and reports whether there was one; no node is freed twice |
| TextureList.Captures.Capture | tditracer/src/texturecapture.c:57-62 | captures get consecutive ids in order; without memory the number is used up |
| TextureList.Captures.DeleteAll | tditracer/src/texturecapture.c:216-222 | the list is empty afterwards, and every captured texture was freed exactly once, in order |
| TextureList.WithoutLowest | tditracer/src/texturecapture.c:218-220 | deleting the lowest id leaves ascending ids above it |
| TextureList.ReleasedLowest | tditracer/src/texturecapture.c:218-220 | what it frees is the front of the list or nothing |
| TextureList.FullIdsAreConsecutive | tditracer/src/texturecapture.c:57-61 | if no capture failed, ids are 0..n-1 in list order |
| ClockUnwrap.Stamper.Stamp | minimal-tdi/tdim.cpp:847-863 | one stamp: a decrease adds 86400 seconds, in nanoseconds, from here on |
| ClockUnwrap.StampAll | minimal-tdi/tdim.cpp:847-863 | the stamps of a run are those of its prefixes |
| ClockUnwrap.UnwrappedTime | minimal-tdi/tdim.cpp:847-863 | the output is true time minus the first day and the whole days lost in gaps |
| ClockUnwrap.UnwrapIsExact | minimal-tdi/tdim.cpp:847-863 | the output is true time minus a fixed number of days if and only if all gaps are under 24 hours |
| ClockUnwrap.FullDayIsLost | minimal-tdi/tdim.cpp:847-863 | two stamps exactly 24 hours apart, of which the output loses the day, and two a nanosecond less apart, of which it does not |
| Smaps.EarlyExitAgrees | minimal-tdi/libtdim.cpp:1744-1767 | on right-aligned fields the early exit, the plain sum and the number shown agree |
| Smaps.SkipLine | minimal-tdi/libtdim.cpp:1797-1798 | the cursor ends right behind the next line feed |
| Smaps.FieldReadsLine | minimal-tdi/libtdim.cpp:1725-1734 | a fixed offset behind the header reads the field of its line |
| Smaps.ScanBlock | minimal-tdi/libtdim.cpp:1793-1831 | one pass ends at the block boundary and adds the mapping's share |
| Smaps.Scan | minimal-tdi/libtdim.cpp:1776-1836 | the scan stops exactly at the end with the totals summed over all mappings, in both layouts |
| SmapsFields.ScanRendered | minimal-tdi/libtdim.cpp:1688-1836 | on any file of labelled 28-character lines, in both layouts, the totals are the sums of the fields labelled Rss and Referenced over r-xp mappings, and of those labelled Rss, Referenced and Swap over the other readable private ones |
| SmapsFields.ShareByLabels | minimal-tdi/libtdim.cpp:1725-1734 | the fixed offsets are those of the labels |
| SmapsFields.FieldLineShows | minimal-tdi/libtdim.cpp:1693-1706 | the five characters before the unit show the number of the line |

## Left out

- TraceBuffer.Buffer.Rewind: only with no call in flight; the source resets its pointers outside the lock, so a concurrent rewind is not modelled.
- TraceBuffer.Buffer.Trace: requires that the record and its terminator fit what is left of the buffer; the source stores unchecked.
- Format.FormatMessage: the bulk conversions, and a percent sign at the end of the format, behind which the source reads on.
- RecordItems.ItemIsFaithful: speaks of the line a record is made into; records with the identifiers 128 to 138 never get that far (`ReadBack`), and what the tables emit for them is not modelled.
- Merge.PlayOut: requires two dwords behind the end marker, because `parse` reads them even there.
- Merge.Select: only the buffers that were accepted take part; rejecting malformed files is not modelled.
- TimelineRuns.IdsTellKindsApart: takes the table limits as a hypothesis; the source enforces only the task limit.
- Filters.Slots.DoQueue: requires that the slot's base is 0, only because one class serves all three macros.
- QueuePipeline.QueueFidelity: uses the translator's `[pid:process]` prefix and id bases; the older pipeline's prefix also names the thread and its ids are kind times 1000 plus entry. Queue names hold no percent sign, since the name is part of the format, and no NUL.
- TextLine.AppendNumbers: the 1024-byte line buffers and overflow of fixed arrays are not modelled; lines are unbounded.
- Numerals.AtoiReadsBack: `atoi` on numbers outside the C `int` range is undefined there and unbounded here.
- Smaps.Scan: totals are unbounded sums; the wrap of the unsigned totals is not modelled.
- Smaps: blocks that do not have the fixed layout; their scan has no useful property.
- The bulk formats of a trace call (`%C`, `%M`, `%S`, `%D`, `%N`, `%I`, `%P`, `%K`, `%E`, `%0` to `%9`) and the table, marker and environment entries of the translator.
- The older pipeline's cumulative values, and the entry counters printed as statistics.
- File creation, mapping, sockets, options, threads and delays; the offload thread; the kernel module's ON and OFF requests; byte-swapped buffers.
- The percentage and progress lines that the playout prints with floating point.
- Matching and converting a log line's time of day by regular expression.
- The frame and shader lists, and all graphics wrappers.
