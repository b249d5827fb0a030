# Verified model of the core of LibOVR

The engine bundles LibOVR, and the hard logic of the repository is there. This project models five parts of it in Dafny and
proves what they promise.

* **The thread command queue** (`CommandBuffer`, `CommandQueue`, `CommandQueueSafety`, `CommandQueueRuns`,
  `CommandQueueWaits`, `CommandQueueProgress`, `CommandQueueShutdown`, `CommandQueueImpl`). `CommandBuffer` refines the circular byte buffer, with its
  wrap marker `End`, to a queue of blocks. `CommandQueue` is the protocol as a state machine over any number of producer calls
  and one consumer: each lock scope, each return from a wait and each signal is one step, so a run is an interleaving.
  `CommandQueueImpl` is the class with its fields updated in place, proved to do what the steps do. Safety, absence of lost
  wake-ups, termination and the exact outcome of shutdown are then proved for every run.
* **In-place sorting** (`Sorting.dfy`): the iterative quicksort with sentinels and an 80-slot stack, the variant that
  survives any comparison, insertion sort, and the two bound searches.
* **The JSON reader and writer** (`JsonText`, `JsonGrammar`, `JsonParser`; `JsonLexis`, `JsonNumbers`, `JsonSyntax`,
  `JsonRejects`, `JsonBounds`, `JsonErrors`; `JsonPrint`, `JsonPrinter`, `JsonLayout`, `JsonRoundTrip`, `JsonUnicode`). What
  the parser reads and what the printer writes are functions; the parser and the printer are methods with the loops and buffers
  of the original, proved against them. A derivation relation over the text says, without those functions, exactly what is
  accepted and as what, and what is rejected and why. Parsing undoes printing, and a scanner that knows nothing of trees
  gives the layout.
* **Device and descriptor lifetime** (`DeviceLifetime`, `DeviceSafety`, `DeviceRuns`, `DeviceClients`, `DeviceProgress`,
  `DeviceUnlocked`, `DeviceUnlockedRuns`): reference counts, compare-and-set loops, releases handed to the manager thread, and mark-and-sweep enumeration as a state machine over any number of threads. A
  token stands for one counted reference and for how far the thread that owns it has come in giving it up.
* **Sensor history and statistics** (`SensorFilters`, `SensorStatistics`, `SensorMoments`, `SavitzkyGolay`, `MagReferences`): the ring buffer
  with its cached total, median, covariance, derivative, and the table of magnetometer references.

`Wrappers` holds what the modules share. `dafny verify dfyconfig.toml` checks everything.

## What the code does not keep

Where a promise turned out false the model follows the code, and the exact condition is proved.

* `PushExitCommand` promises that exit is processed after prior commands. A producer woken after exit was enqueued returns false
  without waking the next one, so the exit call can stay blocked for good: `ExitCanHang` gives a run, `ExitDecided` the
  condition at the exit command's first attempt, `ShutdownOutcome` the same for any moment after it.
* `PrintObject` asks for one character too few for an object without members, formatted, at depth 0 (`CapacityExact`).
* `parseString` reads past the terminator after a dangling backslash (`LoneBackslashOverruns`; `StringOverruns` and
  `DocumentOverruns` are exact).
* `parseArray` reports a malformed element after the first as a failed allocation (`MalformedElementBlamesMemory`;
  `AllocationError` is exact).
* `DeviceHandle::GetDevice_AddRef` takes no lock between reading the pointer and adding the reference
  (`UnguardedCallRevives` gives a run). A call is safe in every run if and only if its caller keeps a reference of its own, or
  the lock, until it is done (`SafeIffGuarded`).
* The quicksort's stack of 80 slots is enough for every slice shorter than 11 * 2^40 - 1, and for no strictly increasing slice
  from there on (`QuickSortSliced`).
* `SavitzkyGolayDerivativeN` accepts any n but gives the slope only for odd n (`SlopeIffOdd`).

## Model

| member | source | states |
|---|---|---|
| CommandBuffer.RoundUp | dependencies/LibOVR/Src/OVR_ThreadCommandQueue.cpp:52-53 | the least multiple of 16 that is not smaller |
| CommandBuffer.WriteAppends | dependencies/LibOVR/Src/OVR_ThreadCommandQueue.cpp:85-123 | a `Write` that succeeds appends exactly one block to what the offsets hold; the block lies inside the buffer and overlaps no unread one, whether it goes behind the others, wraps, or follows the wrapped ones; the assertions on `End` and on `Head != Tail` hold |
| CommandBuffer.ReadDropsOldest | dependencies/LibOVR/Src/OVR_ThreadCommandQueue.cpp:125-140 | `ReadEnd` with the size of the oldest block leaves the other blocks, in order; when the old blocks run out the wrapped ones take their place, and its assertion on `End` holds |
| CommandBuffer.EmptyExactly | dependencies/LibOVR/Src/OVR_ThreadCommandQueue.cpp:69 | `Head == Tail` exactly when there is no unread block, and exactly when both are 0 |
| CommandBuffer.UnreadBytes | dependencies/LibOVR/Src/OVR_ThreadCommandQueue.cpp:46-50 | the offsets account for every unread byte |
| CommandBuffer.FillsDisjoint | dependencies/LibOVR/Src/OVR_ThreadCommandQueue.cpp:35-37 | unread blocks are in range and pairwise disjoint, in order |
| CommandBuffer.RefusalMeansNearlyFull | dependencies/LibOVR/Src/OVR_ThreadCommandQueue.cpp:85-123 | if no rounded block exceeds `most`, a refused `Write` means more than Size - 2 * `most` unread bytes, and never an empty buffer; needs the history fact that the block at offset 0 did not fit after `End` |
| CommandBuffer.ReserveExact | dependencies/LibOVR/Src/OVR_ThreadCommandQueue.cpp:85-123 | a `Write` succeeds exactly if its bytes fit after the youngest unread block or, failing that, at the start of the buffer, and takes that place; said of the unread blocks alone |
| CommandBuffer.CircularBuffer.constructor | dependencies/LibOVR/Src/OVR_ThreadCommandQueue.cpp:57-61 | an empty buffer of the given size |
| CommandBuffer.CircularBuffer.IsEmpty | dependencies/LibOVR/Src/OVR_ThreadCommandQueue.cpp:69 | true exactly when no command is unread |
| CommandBuffer.CircularBuffer.Write | dependencies/LibOVR/Src/OVR_ThreadCommandQueue.cpp:85-123 | the in-place method takes the place that the unread blocks leave for it, and refuses if and only if there is none; it adds one block and moves or touches no unread byte |
| CommandBuffer.CircularBuffer.Fill | dependencies/LibOVR/Src/OVR_ThreadCommandQueue.cpp:281 | constructing a command in the claimed block appends its bytes to the contents and leaves all older commands intact |
| CommandBuffer.CircularBuffer.ReadBegin | dependencies/LibOVR/Src/OVR_ThreadCommandQueue.cpp:76-77 | the oldest unread command, or none exactly when there is none |
| CommandBuffer.CircularBuffer.ReadEnd | dependencies/LibOVR/Src/OVR_ThreadCommandQueue.cpp:125-140 | removes the oldest command and keeps the bytes and the order of the others: FIFO |
| CommandQueueImpl.ThreadCommandQueueImpl.constructor | dependencies/LibOVR/Src/OVR_ThreadCommandQueue.cpp:181-185 | starts in the initial shared state of the state machine |
| CommandQueueImpl.ThreadCommandQueueImpl.AllocNotifyEvent | dependencies/LibOVR/Src/OVR_ThreadCommandQueue.cpp:211-220 | takes the first free event, or makes one |
| CommandQueueImpl.ThreadCommandQueueImpl.CopyConstruct | dependencies/LibOVR/Src/OVR_ThreadCommandQueue.cpp:281 | an object constructed in the buffer ends exactly the objects its bytes overlap; the queued ones survive |
| CommandQueueImpl.ThreadCommandQueueImpl.WriteCommand | dependencies/LibOVR/Src/OVR_ThreadCommandQueue.cpp:278-284 | writes and copies the command if there is room, and changes nothing if there is not |
| CommandQueueImpl.ThreadCommandQueueImpl.PushScope | dependencies/LibOVR/Src/OVR_ThreadCommandQueue.cpp:263-292 | the lock scope of `PushCommand`, in place over the circular buffer, does to all shared fields what the step of the state machine does |
| CommandQueueImpl.ThreadCommandQueueImpl.ReadCommand | dependencies/LibOVR/Src/OVR_ThreadCommandQueue.cpp:315-324 | the command read is the one that was written first, unharmed by later writes |
| CommandQueueImpl.ThreadCommandQueueImpl.PopCommand | dependencies/LibOVR/Src/OVR_ThreadCommandQueue.cpp:311-334 | the same for the lock scope of `PopCommand` |
| CommandQueueImpl.ThreadCommandQueueImpl.EnqueueExit | dependencies/LibOVR/Src/OVR_ThreadCommandQueue.cpp:365-370 | only the first exit push goes on; `ExitEnqueued` is set and nothing else changes |
| CommandQueueSafety.RefusalNeedsBytes | dependencies/LibOVR/Src/OVR_ThreadCommandQueue.cpp:278-292 | with commands of at most 256 bytes, a push finds no room only while more than 1536 of the 2048 bytes are unread |
| CommandQueueSafety.OwnerAttempt | dependencies/LibOVR/Src/OVR_ThreadCommandQueue.cpp:211-225 | one pass through the lock scope of `PushCommand` keeps every event free or owned by exactly one call |
| CommandQueueSafety.PoolIsQuiet | dependencies/LibOVR/Src/OVR_ThreadCommandQueue.cpp:211-225 | an event taken from the pool is neither signalled nor blocked on, and no signalled event enters the pool |
| CommandQueueRuns.StepKeeps | dependencies/LibOVR/Src/OVR_ThreadCommandQueue.cpp:255-378 | every step of any number of producers and the consumer keeps all invariants |
| CommandQueueRuns.ReachableInv | dependencies/LibOVR/Src/OVR_ThreadCommandQueue.cpp:255-378 | so they hold in every reachable state |
| CommandQueueRuns.ExecutionIsFifo | dependencies/LibOVR/Src/OVR_ThreadCommandQueue.cpp:255-334 | the executed commands are a prefix of the accepted ones in the order of acceptance, none runs twice, and a push that returned false is never executed |
| CommandQueueRuns.ExitFlushes | dependencies/LibOVR/Src/OVR_ThreadCommandQueue.cpp:358-378 | once exit is processed the buffer is empty and every accepted command has run exactly once before the single exit command |
| CommandQueueRuns.ExitIsLast | dependencies/LibOVR/Src/OVR_ThreadCommandQueue.cpp:272-274 | once the exit command has been accepted, no run accepts anything more |
| CommandQueueRuns.LogsGrow | dependencies/LibOVR/Src/OVR_ThreadCommandQueue.cpp:255-334 | over any run acceptance and execution are never undone or reordered, and a returned call stays returned |
| CommandQueueRuns.NothingAfterExit | dependencies/LibOVR/Src/OVR_ThreadCommandQueue.cpp:372-378 | after exit is processed no run accepts or executes anything more |
| CommandQueueRuns.EventsAreOwned | dependencies/LibOVR/Src/OVR_ThreadCommandQueue.cpp:211-225 | every event is free or belongs to exactly one call; free events are not signalled; a waiting push that returned true has had its command executed |
| CommandQueueRuns.EventInOnePlace | dependencies/LibOVR/Src/OVR_ThreadCommandQueue.cpp:255-334 | every event is in exactly one of five places: the pool, the blocked list, with a woken producer, carried by a command in flight, or with a push whose command has run |
| CommandQueueRuns.NoLostWakeUp | dependencies/LibOVR/Src/OVR_Win32_DeviceManager.h:81-82 | an unread command keeps the command event signalled; until exit is enqueued a blocked producer has an unread command or a woken producer ahead of it |
| CommandQueueRuns.RefusedOnlyWhenNearlyFull | dependencies/LibOVR/Src/OVR_ThreadCommandQueue.cpp:278-294 | in every reachable state a push that is refused room sees more than 1536 unread bytes |
| CommandQueueRuns.PlacedExactly | dependencies/LibOVR/Src/OVR_ThreadCommandQueue.cpp:278-292 | in every reachable state a push is refused room if and only if its bytes fit neither behind the youngest queued command nor at the start of the buffer, and otherwise goes there |
| CommandQueueRuns.BeginStarts | dependencies/LibOVR/Src/OVR_ThreadCommandQueue.cpp:255-263 | a call pushes the command it was started with, at once or waiting for it |
| CommandQueueRuns.EventsAreReused | dependencies/LibOVR/Src/OVR_ThreadCommandQueue.cpp:211-220 | an event is made only when the pool is empty, and for the call that needs it |
| CommandQueueWaits.WokenInOrder | dependencies/LibOVR/Src/OVR_ThreadCommandQueue.cpp:286-331 | producers that found no room are woken in the order in which they were turned away, one by each command taken out, over any run |
| CommandQueueWaits.SignalsExactly | dependencies/LibOVR/Src/OVR_ThreadCommandQueue.cpp:326-331 | which steps signal an event, and which clear it: the pop for the producer that has been blocked longest, the end of the command that carries it, and the waits of its owner |
| CommandQueueWaits.CommandEventExactly | dependencies/LibOVR/Src/OVR_Win32_DeviceManager.h:81-82 | the command event is set exactly by a push into an empty queue, and cleared exactly by a look at one |
| CommandQueueWaits.RejectsExactly | dependencies/LibOVR/Src/OVR_ThreadCommandQueue.cpp:272-274 | a push returns false exactly when exit was enqueued and its command is another |
| CommandQueueProgress.StepDecreases | dependencies/LibOVR/Src/OVR_Win32_DeviceManager.cpp:183-248 | every step the queue takes on its own decreases a measure |
| CommandQueueProgress.InternalRunsEnd | dependencies/LibOVR/Src/OVR_Win32_DeviceManager.cpp:183-248 | so under any scheduling those steps run out, within a bound known beforehand |
| CommandQueueProgress.QuietState | dependencies/LibOVR/Src/OVR_ThreadCommandQueue.cpp:255-334 | when they have, nothing is in flight, and unless exit was enqueued every push has returned |
| CommandQueueProgress.Settles | dependencies/LibOVR/Src/OVR_ThreadCommandQueue.cpp:255-334 | from every state within the invariant such a state is reached |
| CommandQueueShutdown.StrandedThroughout | dependencies/LibOVR/Src/OVR_ThreadCommandQueue.cpp:272-331 | once the exit command has been tried, whether more calls are blocked than commands are queued never changes |
| CommandQueueShutdown.ShutdownOutcome | dependencies/LibOVR/Src/OVR_ThreadCommandQueue.cpp:358-373 | exactly when shutdown succeeds: all calls return if and only if no more calls were blocked than commands queued at that moment, and exit is processed if and only if the exit call was not blocked in a list that is too long |
| CommandQueueShutdown.ExitDecided | dependencies/LibOVR/Src/OVR_ThreadCommandQueue.cpp:272-294 | the same condition read before the first attempt of the exit command: exit hangs if and only if the buffer has no room for it and at least as many calls are blocked as commands are queued |
| CommandQueueShutdown.ExitCanHang | dependencies/LibOVR/Src/OVR_ThreadCommandQueue.cpp:360-372 | a reachable state from which no run whatever, with new calls or without, ever processes exit, contrary to the promise in the comment |
| SortingTheory.Refine | dependencies/LibOVR/Src/Kernel/OVR_Alg.h:116-193 | rearranging one open segment so that it is in order outside its parts leaves only the parts open |
| SortingTheory.StackHasRoom | dependencies/LibOVR/Src/Kernel/OVR_Alg.h:111-112 | given that the segment at depth k is at most (n + 1) / 2^k - 1 long, a segment that is split stands at a depth for which the stack has room |
| SortingTheory.DeepGoesOn | dependencies/LibOVR/Src/Kernel/OVR_Alg.h:124-163 | a long increasing slice, split in the middle, leaves in hand a segment that is still too long one level deeper |
| SortingTheory.IncreasingExists | dependencies/LibOVR/Src/Kernel/OVR_Alg.h:98-101 | there is an increasing slice of every length, and a strict weak order for it |
| Sorting.Insert | dependencies/LibOVR/Src/Kernel/OVR_Alg.h:173-180 | the inner loop of the insertion sort moves one element to its place |
| Sorting.InsertionSort | dependencies/LibOVR/Src/Kernel/OVR_Alg.h:167-181 | a short segment ends up sorted and permuted, the rest of the array untouched |
| Sorting.ChoosePivot | dependencies/LibOVR/Src/Kernel/OVR_Alg.h:124-133 | after the three exchanges the pivot and two sentinels are in place; of an increasing slice only the middle element has moved |
| Sorting.ScanUp | dependencies/LibOVR/Src/Kernel/OVR_Alg.h:137 | the scan without bounds test stops at or before a sentinel, and at the first element that is not less than the pivot |
| Sorting.ScanDown | dependencies/LibOVR/Src/Kernel/OVR_Alg.h:138 | the same downwards |
| Sorting.ScansMeet | dependencies/LibOVR/Src/Kernel/OVR_Alg.h:124-146 | in a strictly increasing slice the two scans meet at the middle element |
| Sorting.Partition | dependencies/LibOVR/Src/Kernel/OVR_Alg.h:135-148 | nothing before the split is above the pivot and nothing after it below; an increasing slice is left as it was and split in the middle |
| Sorting.ScanUpSafe | dependencies/LibOVR/Src/Kernel/OVR_Alg.h:248-253 | the guarded scan stays inside `[0, end)` with any comparison at all |
| Sorting.ScanDownSafe | dependencies/LibOVR/Src/Kernel/OVR_Alg.h:254-259 | the same downwards |
| Sorting.PartitionSafe | dependencies/LibOVR/Src/Kernel/OVR_Alg.h:246-269 | with any comparison the partition stays in `[0, limit)` or gives up; with a strict weak order it never gives up and does what the other does |
| Sorting.PushLarger | dependencies/LibOVR/Src/Kernel/OVR_Alg.h:150-163 | pushes the larger part on the explicit stack and returns the smaller |
| Sorting.PartitionStep | dependencies/LibOVR/Src/Kernel/OVR_Alg.h:121-163 | one round on a long segment: the open segments shrink and stay disjoint, the measure decreases; it fits the stack exactly while fewer than 40 pairs are on it |
| Sorting.SortShort | dependencies/LibOVR/Src/Kernel/OVR_Alg.h:167-191 | a short segment is closed |
| Sorting.QuickSortSliced | dependencies/LibOVR/Src/Kernel/OVR_Alg.h:101-194 | terminates; the slice is a permutation of what it was, the rest of the array unchanged, and if the stack was large enough it is sorted. The stack is large enough for every slice shorter than 11 * 2^40 - 1, and is not for any strictly increasing slice from there on |
| Sorting.QuickSortSlicedSafe | dependencies/LibOVR/Src/Kernel/OVR_Alg.h:210-316 | with any comparison terminates in `[0, end)` and loses no element; with a strict weak order returns true and sorts; its stack is large enough for the same lengths |
| Sorting.InsertionSortSliced | dependencies/LibOVR/Src/Kernel/OVR_Alg.h:376-394 | sorted, permuted, nothing outside changed |
| Sorting.LowerBoundSliced | dependencies/LibOVR/Src/Kernel/OVR_Alg.h:441-464 | on a sorted slice the first position whose element is not less than the value |
| Sorting.UpperBoundSliced | dependencies/LibOVR/Src/Kernel/OVR_Alg.h:509-532 | on a sorted slice the first position whose element the value is less than |
| JsonText.SkipSpace | dependencies/LibOVR/Src/OVR_JSON.cpp:403-408 | stops at the first character that is not white space |
| JsonText.ParseHex | dependencies/LibOVR/Src/OVR_JSON.cpp:202-223 | reads up to the given number of hexadecimal digits |
| JsonText.WriteUtf8 | dependencies/LibOVR/Src/OVR_JSON.cpp:299-317 | the backward, falling-through writes give the octets of section 3 of RFC 3629 |
| JsonText.Utf8AllDecodes | dependencies/LibOVR/Src/OVR_JSON.cpp:299-317 | that encoding can be read back: no code point is lost |
| JsonLexis.SkipExact | dependencies/LibOVR/Src/OVR_JSON.cpp:403-408 | where white space ends |
| JsonLexis.HexDigitExact | dependencies/LibOVR/Src/OVR_JSON.cpp:206-217 | a hexadecimal digit stands for v exactly if it is what is printed for v in either case |
| JsonLexis.HexExact | dependencies/LibOVR/Src/OVR_JSON.cpp:202-223 | `ParseHex` reads all the hexadecimal digits there are, but no more than four, and gives their value |
| JsonLexis.UnicodeExact | dependencies/LibOVR/Src/OVR_JSON.cpp:275-297 | exactly what a `\u` escape stands for and where it ends: one unit, or two that are a surrogate pair; a lone or reversed surrogate and zero stand for nothing |
| JsonLexis.StringExact | dependencies/LibOVR/Src/OVR_JSON.cpp:228-338 | exactly which texts `parseString` accepts, as which string: a quote, characters and escapes, each standing for what it says, and a quote or the end of the text |
| JsonLexis.EscapesAreShort | dependencies/LibOVR/Src/OVR_JSON.cpp:366-396 | printed strings have no control characters in them, and no text without one that reads as the same character is shorter, if `\u` is followed by four digits |
| JsonNumbers.Pow10Adds | dependencies/LibOVR/Src/OVR_JSON.cpp:191-195 | the powers of ten multiply as they should |
| JsonNumbers.DigitExact | dependencies/LibOVR/Src/OVR_JSON.cpp:154-181 | the ten digits |
| JsonNumbers.NumberExact | dependencies/LibOVR/Src/OVR_JSON.cpp:141-198 | exactly which texts `parseNumber` reads as which number, and where it stops: (the digits of the integer part, then those of the fraction) times ten to the exponent, over ten to the number of fraction digits, with the sign |
| JsonParser.ParseNumber | dependencies/LibOVR/Src/OVR_JSON.cpp:141-198 | the loops give the number of the text at that position and its end, as NumberExact says what that is |
| JsonParser.MeasureString | dependencies/LibOVR/Src/OVR_JSON.cpp:242-245 | the first pass, with where it stops and what it counts |
| JsonParser.ReadUnicode | dependencies/LibOVR/Src/OVR_JSON.cpp:275-297 | one escape or surrogate pair: where it ends and its code point, or none |
| JsonParser.ParseString | dependencies/LibOVR/Src/OVR_JSON.cpp:228-338 | the two passes with their buffer write exactly the unescaped string, inside the allocated block |
| JsonParser.ParseValue | dependencies/LibOVR/Src/OVR_JSON.cpp:436-481 | the branches, errors and positions of the grammar |
| JsonParser.ParseArray | dependencies/LibOVR/Src/OVR_JSON.cpp:511-551 | the same for arrays, including the failed element that is reported as a failed allocation and the missing bracket |
| JsonParser.ParseMember | dependencies/LibOVR/Src/OVR_JSON.cpp:655-668 | name, colon and value of one member, or the error, as MemberExact and MemberFailsExact say what they are |
| JsonParser.ParseObject | dependencies/LibOVR/Src/OVR_JSON.cpp:640-700 | the members, or the error, as ObjectExact and ObjectFailsExact say what they are |
| JsonParser.Parse | dependencies/LibOVR/Src/OVR_JSON.cpp:413-432 | the whole document |
| JsonPrinter.PrintString | dependencies/LibOVR/Src/OVR_JSON.cpp:342-399 | the text it writes, inside the block it measured |
| JsonPrinter.PrintArray | dependencies/LibOVR/Src/OVR_JSON.cpp:555-635 | the same for arrays, empty or not, in both formats |
| JsonPrinter.PrintObject | dependencies/LibOVR/Src/OVR_JSON.cpp:734-841 | the same for objects with members, at every depth |
| JsonPrinter.PrintEmptyObject | dependencies/LibOVR/Src/OVR_JSON.cpp:715-733 | an object without members: the block is large enough at every depth except, formatted, at depth 0 |
| JsonPrinter.PrintNumber | dependencies/LibOVR/Src/OVR_JSON.cpp:81-106 | a 32-bit integer, or another whole number below 10^60, as decimal digits in the block of its size |
| JsonPrinter.PrintValue | dependencies/LibOVR/Src/OVR_JSON.cpp:486-506 | the text of the whole tree; everything it writes fits exactly when no bare object is printed formatted at depth 0 |
| JsonPrint.EscapedLengthExact | dependencies/LibOVR/Src/OVR_JSON.cpp:353-364 | the measuring pass counts exactly what the writing pass of `PrintString` writes |
| JsonPrint.ElementsFit | dependencies/LibOVR/Src/OVR_JSON.cpp:580-593 | the length added up by `PrintArray` bounds what it writes |
| JsonPrint.MembersFit | dependencies/LibOVR/Src/OVR_JSON.cpp:749-770 | the same for `PrintObject` |
| JsonPrint.CapacityExact | dependencies/LibOVR/Src/OVR_JSON.cpp:555-841 | text and terminator fit the block at every depth, if and only if it is not the bare object at depth 0 |
| JsonPrint.WholeFits | dependencies/LibOVR/Src/OVR_JSON.cpp:86-101 | the 21 characters suffice for 32-bit integers and the 64 for every whole number below 10^60 |
| JsonRoundTrip.StringRead | dependencies/LibOVR/Src/OVR_JSON.cpp:228-399 | `parseString` undoes `PrintString` and stops after the closing quote |
| JsonRoundTrip.NumberRead | dependencies/LibOVR/Src/OVR_JSON.cpp:81-198 | over the reals, `parseNumber` undoes `PrintNumber` on every whole number and stops after its last digit |
| JsonRoundTrip.AccumulatorBounded | dependencies/LibOVR/Src/OVR_JSON.cpp:154-161 | reading digits never holds a number above the one read |
| JsonRoundTrip.TreeRead | dependencies/LibOVR/Src/OVR_JSON.cpp:436-506 | in any surrounding text, the parser reads a printed tree whose numbers are whole and below 10^60 back, over the reals, and stops exactly where its text ends |
| JsonRoundTrip.ArrayRead | dependencies/LibOVR/Src/OVR_JSON.cpp:511-635 | the same for arrays |
| JsonRoundTrip.ObjectRead | dependencies/LibOVR/Src/OVR_JSON.cpp:640-841 | the same for objects |
| JsonRoundTrip.ParseUndoesPrint | dependencies/LibOVR/Src/OVR_JSON.cpp:413-506 | `Parse(PrintValue(t))` is `t`, for every tree whose numbers are whole and below 10^60, over the reals, at every depth and in both formats |
| JsonRoundTrip.ParseUndoesPrintExactly | dependencies/LibOVR/Src/OVR_JSON.cpp:413-506 | the same for whole numbers up to 2^53, with every value that the number parser accumulates at most 2^53, so that double precision rounds none of them |
| JsonRoundTrip.PrintIsInjective | dependencies/LibOVR/Src/OVR_JSON.cpp:486-506 | two trees that print the same, in whatever formats, are the same |
| JsonLayout.LayoutIsKnown | dependencies/LibOVR/Src/OVR_JSON.cpp:555-841 | the formatted and the unformatted text of a tree are rewritten into each other, and into themselves, by a left-to-right scanner that sees only brackets, quotes, commas and colons: white space, new lines and tabs stand exactly where it puts them |
| JsonSyntax.ValueExact | dependencies/LibOVR/Src/OVR_JSON.cpp:436-481 | exactly which texts the parser accepts at a position, as which tree, and where it stops: there is a derivation of the tree from the characters |
| JsonSyntax.ArrayExact | dependencies/LibOVR/Src/OVR_JSON.cpp:511-551 | the same for arrays |
| JsonSyntax.MemberExact | dependencies/LibOVR/Src/OVR_JSON.cpp:655-668 | the same for members: a string, white space, a colon, white space and a value |
| JsonSyntax.ObjectExact | dependencies/LibOVR/Src/OVR_JSON.cpp:640-700 | the same for objects |
| JsonRejects.FailsExact | dependencies/LibOVR/Src/OVR_JSON.cpp:436-481 | exactly which texts are rejected, and with which error, by what stands where |
| JsonRejects.ArrayFailsExact | dependencies/LibOVR/Src/OVR_JSON.cpp:511-551 | the same for arrays |
| JsonRejects.MemberFailsExact | dependencies/LibOVR/Src/OVR_JSON.cpp:655-668 | a member is rejected exactly if there is no quote, after the name no colon, or after that no value, each with its own error |
| JsonRejects.ObjectFailsExact | dependencies/LibOVR/Src/OVR_JSON.cpp:640-700 | an object is rejected exactly if some member is, or if after some members there is neither a comma nor a brace |
| JsonRejects.DocumentExact | dependencies/LibOVR/Src/OVR_JSON.cpp:413-432 | the same for a whole document: what is accepted, and as what |
| JsonRejects.DocumentFails | dependencies/LibOVR/Src/OVR_JSON.cpp:413-432 | and what is rejected, and why |
| JsonUnicode.ScalarRead | dependencies/LibOVR/Src/OVR_JSON.cpp:272-318 | an escape, or a surrogate pair as in section 2.2 of RFC 2781, becomes the octets of its code point |
| JsonUnicode.EscapesBecomeUtf8 | dependencies/LibOVR/Src/OVR_JSON.cpp:228-338 | a string of such escapes is read as the concatenated UTF-8 encodings, from which the code points can be recovered |
| JsonUnicode.EscapeMeasured | dependencies/LibOVR/Src/OVR_JSON.cpp:242-318 | an escape never writes more than the first pass counted |
| JsonUnicode.PassesAgree | dependencies/LibOVR/Src/OVR_JSON.cpp:242-326 | both passes of `parseString` stop at the same quote or terminator, and what the second writes fits what the first counted |
| JsonBounds.DocumentInBounds | dependencies/LibOVR/Src/OVR_JSON.cpp:413-432 | a guard that needs no parsing: a text that does not end in a backslash is never read past its terminator |
| JsonBounds.StringOverruns | dependencies/LibOVR/Src/OVR_JSON.cpp:242-263 | exactly which strings are: those that no quote closes, with an odd number of backslashes at the end of the text |
| JsonBounds.DocumentOverruns | dependencies/LibOVR/Src/OVR_JSON.cpp:413-481 | exactly which texts are read past their terminator: those in which the parser comes to such a string |
| JsonBounds.LoneBackslashOverruns | dependencies/LibOVR/Src/OVR_JSON.cpp:242-263 | a concrete text that is read past its terminator |
| JsonErrors.ArrayError | dependencies/LibOVR/Src/OVR_JSON.cpp:511-551 | exactly when and with which error an array is rejected: with that of its first element, or, after some elements that are read, for a missing bracket or a malformed element |
| JsonErrors.AllocationError | dependencies/LibOVR/Src/OVR_JSON.cpp:540-544 | a failed allocation is reported if and only if the first element reports one, or some elements are read, a comma follows and the value after it is malformed in any way |
| JsonErrors.OtherErrorsPass | dependencies/LibOVR/Src/OVR_JSON.cpp:525-532 | every other error is passed on from the first element |
| JsonErrors.MalformedElementBlamesMemory | dependencies/LibOVR/Src/OVR_JSON.cpp:540-544 | a text with a syntax error that is reported as a failed allocation |
| DeviceSafety.StepKeeps | dependencies/LibOVR/Src/OVR_DeviceImpl.cpp:348-752 | every step of any number of threads keeps counts, links, manager and list invariants; what a step hands out is said by the lemmas of DeviceClients |
| DeviceSafety.ReachableInv | dependencies/LibOVR/Src/OVR_DeviceImpl.cpp:348-752 | so they hold in every reachable state |
| DeviceSafety.MoveKeeps | dependencies/LibOVR/Src/OVR_DeviceImpl.cpp:662-694 | reading a count, queueing a release or retrying changes nothing that is counted |
| DeviceSafety.LastHandleHasNoDevice | dependencies/LibOVR/Src/OVR_DeviceImpl.cpp:726 | the assertion in `DeviceCreateDesc::Release`: the last handle to go is not that of a device |
| DeviceRuns.CountsAreReferences | dependencies/LibOVR/Src/OVR_DeviceImpl.cpp:657-752 | `RefCount` is the number of references held, being given up, queued or with the manager thread; `HandleCount` that of handles, of devices and of releases in progress |
| DeviceRuns.DestroyedOnce | dependencies/LibOVR/Src/OVR_DeviceImpl.cpp:657-694 | a device is destroyed at most once, and has been exactly when nothing refers to it |
| DeviceRuns.DestroysExactly | dependencies/LibOVR/Src/OVR_DeviceImpl.cpp:414-452 | the one step that destroys it: the manager thread read 1 and its reference is still the only one, so no client holds the device and no other release is pending, even if it was taken again in between |
| DeviceRuns.NeverReadsZero | dependencies/LibOVR/Src/OVR_DeviceImpl.cpp:664-715 | the assertions that a reference being released is counted |
| DeviceRuns.OwnHandleInPlace | dependencies/LibOVR/Src/OVR_DeviceImpl.cpp:447-450 | what destruction reads is always there |
| DeviceRuns.DeviceKeepsDescriptor | dependencies/LibOVR/Src/OVR_DeviceImpl.h:202-209 | a device with references has a descriptor that exists, points to it and is held by it |
| DeviceRuns.DeletedOnce | dependencies/LibOVR/Src/OVR_DeviceImpl.cpp:709-752 | a descriptor is deleted at most once, and nothing refers to a deleted one |
| DeviceRuns.DeletesExactly | dependencies/LibOVR/Src/OVR_DeviceImpl.cpp:709-752 | the only steps that delete a descriptor: its last release when nobody can find it any more, or the shutdown of the manager when nobody holds it; it has no device then |
| DeviceClients.CreateHandsOut | dependencies/LibOVR/Src/OVR_DeviceImpl.cpp:376-412 | after `CreateDevice` the client holds exactly one more reference, to the device that the descriptor has then and that is not destroyed: the one it had, or else a new one that nothing else refers to and that has a handle on the descriptor |
| DeviceClients.HandedOutRefs | dependencies/LibOVR/Src/OVR_DeviceImpl.cpp:386-391 | the references to that device are the old ones and the one handed out |
| DeviceClients.HolderMay | dependencies/LibOVR/Src/OVR_DeviceImpl.cpp:657-660 | a holder of a device may add a reference, and gets exactly one more, or start to give its own up, in every state |
| DeviceClients.HandleMay | dependencies/LibOVR/Src/OVR_DeviceHandle.cpp:36-52 | the same for handles: a copy is one more handle on the same descriptor |
| DeviceClients.FinderMay | dependencies/LibOVR/Src/OVR_DeviceImpl.cpp:558-573 | whoever has the lock finds exactly the descriptors that are not deleted while the manager lives, and gets a handle on the one found |
| DeviceClients.ManagerMay | dependencies/LibOVR/Src/OVR_DeviceImpl.cpp:456-470 | enumeration and detection may begin whenever the lock is free |
| DeviceClients.HandlerGets | dependencies/LibOVR/Src/OVR_DeviceImpl.cpp:513-556 | what a factory finds is an existing descriptor or a new one; it is then available, and the handler has a handle on it and keeps one of its own if it wants to |
| DeviceRuns.SurvivorsAreReferenced | dependencies/LibOVR/Src/OVR_DeviceImpl.cpp:348-372 | after shutdown a descriptor lives exactly as long as its references, so its last release frees it |
| DeviceRuns.MarksFollowFinds | dependencies/LibOVR/Src/OVR_DeviceImpl.cpp:469-537 | during an enumeration a descriptor is marked exactly when it has been found or is new |
| DeviceRuns.SweepKeepsExactly | dependencies/LibOVR/Src/OVR_DeviceImpl.cpp:456-556 | from mark to sweep, with any other threads running: the list ends up with exactly the descriptors found, new or still referenced, and all others are deleted |
| DeviceProgress.StepDecreases | dependencies/LibOVR/Src/OVR_DeviceImpl.cpp:414-752 | every step that finishes a release, a queued command, a dropped handle or an enumeration decreases a measure, retries after a failed compare-and-set included |
| DeviceProgress.StartedWorkEnds | dependencies/LibOVR/Src/OVR_DeviceImpl.cpp:414-752 | so under any scheduling those steps run out, within a bound known beforehand |
| DeviceProgress.NothingGetsStuck | dependencies/LibOVR/Src/OVR_DeviceImpl.cpp:414-752 | no deadlock: while the manager is at work or any release is in progress, one of those steps can be taken |
| DeviceProgress.Settles | dependencies/LibOVR/Src/OVR_DeviceImpl.cpp:414-752 | from every state within the invariant a run of those steps reaches a state in which nothing is in progress |
| DeviceProgress.OnlyHeldIsLeft | dependencies/LibOVR/Src/OVR_DeviceImpl.cpp:414-752 | and then the devices left are exactly those a client held at the start, and the descriptors left exactly those that were available, that a client had a handle on, or whose device a client held |
| DeviceUnlocked.GuardedRunsAreSafe | dependencies/LibOVR/Src/OVR_DeviceHandle.cpp:63-71 | in every run in which each caller of it keeps a reference of its own, or the lock, until it is done, all invariants hold |
| DeviceUnlockedRuns.SoundStep | dependencies/LibOVR/Src/OVR_DeviceHandle.cpp:63-71 | guards and invariants are kept by every action until a reference is added to a destroyed device |
| DeviceUnlockedRuns.SafeIffGuarded | dependencies/LibOVR/Src/OVR_DeviceHandle.cpp:63-71 | over all runs that respect the guards, with any number of such calls, guarded or not: the device is alive whenever a pending call adds its reference if and only if that call is guarded, by a reference of its own or by the lock |
| DeviceUnlockedRuns.AliveIffShielded | dependencies/LibOVR/Src/OVR_DeviceHandle.cpp:63-71 | while no pending call completes, the device stays alive in every run if and only if some pending call holds it or holds the lock |
| DeviceUnlockedRuns.UnguardedRevives | dependencies/LibOVR/Src/OVR_DeviceHandle.cpp:63-71 | from every sound state with a pending call that is not guarded, some run that respects all other guards makes it add a reference to a destroyed device |
| DeviceUnlockedRuns.Doomed | dependencies/LibOVR/Src/OVR_DeviceImpl.cpp:414-452 | from every state within the invariant some run destroys a given device: clients release it, and what they started is finished |
| DeviceUnlocked.UnguardedCallRevives | dependencies/LibOVR/Src/OVR_DeviceHandle.cpp:63-71 | a run in which it adds a reference to a device that has been destroyed |
| SensorFilters.StoreKeepsLayout | dependencies/LibOVR/Src/OVR_SensorFilter.h:71-77 | one `AddElement`, before and after a wrap: where every kept sample lies, and what the overwritten slot held |
| SensorFilters.InPlace | dependencies/LibOVR/Src/OVR_SensorFilter.h:71-90 | as it lies in the array the window is a rotation of the last samples |
| SensorFilters.TotalAfter | dependencies/LibOVR/Src/OVR_SensorFilter.h:110-111 | adding the new sample and subtracting what its slot held gives the sum of the new window |
| SensorFilters.SensorFilter.constructor | dependencies/LibOVR/Src/OVR_SensorFilter.h:46-52 | an empty history |
| SensorFilters.SensorFilter.Store | dependencies/LibOVR/Src/OVR_SensorFilter.h:71-77 | appends to the history |
| SensorFilters.SensorFilter.AddElement | dependencies/LibOVR/Src/OVR_SensorFilter.h:107-119 | appends to the history; the cached total stays the sum of the kept samples across wraps and recomputations |
| SensorFilters.SensorFilter.Recompute | dependencies/LibOVR/Src/OVR_SensorFilter.h:113-118 | the recomputed total is that same sum |
| SensorFilters.SensorFilter.GetPrev | dependencies/LibOVR/Src/OVR_SensorFilter.h:80-90 | the i-th most recent of all samples ever added, or zero |
| SensorFilters.SensorFilter.Total | dependencies/LibOVR/Src/OVR_SensorFilter.h:122-125 | the sum of the kept samples |
| SensorFilters.SensorFilter.Mean | dependencies/LibOVR/Src/OVR_SensorFilter.h:127-130 | the point from which the deviations of the kept samples add up to 0, as MeanBalances says of it; zero for an empty window |
| SensorMoments.MeanBalances | dependencies/LibOVR/Src/OVR_SensorFilter.h:127-130 | for every window that is not empty the deviations from the mean add up to 0 in each coordinate, and from no other point do they |
| SensorMoments.MeanMinimises | dependencies/LibOVR/Src/OVR_SensorFilter.cpp:81-92 | the squares of the deviations add up to the least about the mean, and about no other point to as little |
| SensorMoments.SquaresAbout | dependencies/LibOVR/Src/OVR_SensorFilter.cpp:81-92 | about any point they add up to those about the mean and Count times the square of its distance from it |
| SensorMoments.CovIsMoments | dependencies/LibOVR/Src/OVR_SensorFilter.cpp:95-115 | Count times the covariance is the sum of the products of the samples less Count times the product of the means |
| SensorFilters.SensorFilter.SavitzkyGolayDerivativeN | dependencies/LibOVR/Src/OVR_SensorFilter.h:180-194 | the weighted differences of the last n samples; for n below 3 no number where the original divides by 0, and otherwise zero |
| SavitzkyGolay.DerivativeExact | dependencies/LibOVR/Src/OVR_SensorFilter.h:180-194 | for odd n the derivative is exact in the middle of the window, on every line and every parabola |
| SavitzkyGolay.DerivativeEven | dependencies/LibOVR/Src/OVR_SensorFilter.h:180-194 | for even n it is the slope times (2n + 1) / (2n - 2) |
| SavitzkyGolay.SlopeIffOdd | dependencies/LibOVR/Src/OVR_SensorFilter.h:180-194 | so the slope of a line is right if and only if n is odd or the line is level |
| SavitzkyGolay.ResidualsBalance | dependencies/LibOVR/Src/OVR_SensorFilter.h:180-194 | for odd n, about any level, what the derivative leaves of the signal has no moment about the middle |
| SavitzkyGolay.LeastSquares | dependencies/LibOVR/Src/OVR_SensorFilter.h:180-194 | so for odd n it is the slope of least squares of every signal: no other slope leaves squares that add up to as little |
| SensorFilters.SelectPlace | dependencies/LibOVR/Src/OVR_SensorFilter.cpp:48-67 | one round of the selection on three arrays at once |
| SensorFilters.SensorFilter.Median | dependencies/LibOVR/Src/OVR_SensorFilter.cpp:32-78 | in each coordinate the value of rank Count / 2 in the window; nothing for an empty window |
| SensorStatistics.SelectedRank | dependencies/LibOVR/Src/OVR_SensorFilter.cpp:46-71 | a selection stopped after the middle has found the right rank |
| SensorStatistics.RankIsUnique | dependencies/LibOVR/Src/OVR_SensorFilter.cpp:32-78 | a rank names one value |
| SensorStatistics.CountsOfPermutation | dependencies/LibOVR/Src/OVR_SensorFilter.cpp:40-68 | and does not depend on the order of the samples |
| SensorFilters.SensorFilter.Variance | dependencies/LibOVR/Src/OVR_SensorFilter.cpp:81-92 | the diagonal of the covariance, as CovIsMoments and MeanMinimises say what that is; no number exactly for an empty window |
| SensorFilters.SensorFilter.Covariance | dependencies/LibOVR/Src/OVR_SensorFilter.cpp:95-115 | sums below the diagonal, mirrored and scaled, are the covariances of the window, as CovIsMoments says what they are; the fourth row and column are untouched; no number exactly for an empty window |
| SensorFilters.SensorFilter.PearsonCoefficient | dependencies/LibOVR/Src/OVR_SensorFilter.cpp:117-126 | every coefficient lies in [-1, 1], and is no number exactly for an empty window or when one of its variances is 0 |
| SensorStatistics.CovarianceLaws | dependencies/LibOVR/Src/OVR_SensorFilter.cpp:95-115 | symmetric, a diagonal that is not negative, and cov(a,b)^2 <= cov(a,a) * cov(b,b), for every window |
| SensorStatistics.CauchySchwarz | dependencies/LibOVR/Src/OVR_SensorFilter.cpp:99-107 | the inequality for the sums |
| SensorStatistics.VarianceZero | dependencies/LibOVR/Src/OVR_SensorFilter.cpp:117-126 | a variance is 0, and the coefficient undefined, exactly when the coordinate never changes in the window |
| SensorStatistics.PearsonInRange | dependencies/LibOVR/Src/OVR_SensorFilter.cpp:117-126 | a correlation lies in [-1, 1] |
| MagReferences.MagTable.constructor | dependencies/LibOVR/Src/OVR_SensorFusion.cpp:40-50 | an empty table |
| MagReferences.MagTable.Reset | dependencies/LibOVR/Src/OVR_SensorFusion.cpp:108-118 | empties the table |
| MagReferences.MagTable.Remove | dependencies/LibOVR/Src/OVR_SensorFusion.cpp:217-222 | swap-delete takes off exactly the reference in use |
| MagReferences.MagTable.FindNearest | dependencies/LibOVR/Src/OVR_SensorFusion.cpp:224-235 | the first of the nearest references within the radius, or none |
| MagReferences.MagTable.Add | dependencies/LibOVR/Src/OVR_SensorFusion.cpp:237-243 | a new reference where none is near keeps all of them apart |
| MagReferences.MagTable.Choose | dependencies/LibOVR/Src/OVR_SensorFusion.cpp:213-244 | the whole table after a message, in terms of the one before |
| MagReferences.MagTable.HandleMessage | dependencies/LibOVR/Src/OVR_SensorFusion.cpp:206-263 | the same with the score; the index stays in range and the table separated, and the score is 1000 + 2 * good - bad since the reference was chosen |
| MagReferences.RemovedRest | dependencies/LibOVR/Src/OVR_SensorFusion.cpp:219-221 | swap-delete loses nothing else and keeps the separation |
| MagReferences.AddedIsSeparate | dependencies/LibOVR/Src/OVR_SensorFusion.cpp:236-243 | the separation of the new reference |
| MagReferences.ChosenKeeps | dependencies/LibOVR/Src/OVR_SensorFusion.cpp:213-244 | range, capacity and separation over one message; the reference in use is within reach, and there is none only if the table is full and nothing is near |
| MagReferences.TableChangesExactly | dependencies/LibOVR/Src/OVR_SensorFusion.cpp:213-244 | what the table holds after a message: a reference leaves exactly when it was in use, is out of reach and has a negative score, and the new one comes exactly when none of the others is near and there is room |
| MagReferences.DistIsEuclidean | dependencies/LibOVR/Src/OVR_SensorFusion.cpp:229 | distances: 0 only to the point itself, the difference along an axis, and the squares add up |

## Left out

Threads and time:

- Memory ordering: a compare-and-set is one atomic step, `Lock` is a recursive mutex and an event a sticky auto-reset flag, which is how `PulseEvent` and `Wait` are used here.
- Pushes made by the consumer thread itself: covered by the safety results, but as calls of their own they are not modelled as blocking the consumer.
- The bodies of commands: executing one is one step. Only the exit command has an effect, on `ExitProcessed`.
- Window messages, ticks and device notifiers in `DeviceManagerThread::Run`; a failing wait is a step of its own. The event hooks of the Linux and OSX managers, which differ from the Windows ones, are not part of this model.
- The size of the exit command: any size up to 256 bytes.
- `SharedLock` and the handler lock; handlers called during enumeration may keep a handle or not, and do nothing else.
- Devices and descriptors are steps of a state machine, not classes, because the counts change outside any lock; list links are a flag, so the order of the list is not modelled.
- `MatchDevice` and `UpdateMatchedCandidate` are the choice of which descriptor a factory finds.
- Failures of `NewDeviceInstance`, `Initialize` and `PushCall`: a creation that fails is no step.
- The manager as a device: that it does not shut down while a device exists, through the `pParent` chain, is a condition of its shutdown step.
- Profile manager, `FindHIDDevice` and `enumerateNext`, which add and drop handles under the lock by the same steps. One temporary handle stands for each that an addition makes: the one given to the handler, then the one returned.
- DeviceProgress.StartedWorkEnds: counts steps that finish started work; while clients keep starting more, a compare-and-set loop may retry for as long as they change the count.

Values:

- Comparisons and elements in the sorts are pure functions and values; the overloads without a comparison and `ReverseArray`, `Min`, `Max` and the bit helpers would only add easy members.
- JsonRoundTrip.ParseUndoesPrint: numbers are whole numbers below 10^60, which `%d` and `%.0f` print exactly; what `%f` and `%e` print depends on floating-point formatting, and above 2^53 the original's parser rounds while the model does not. The same holds of JsonRoundTrip.PrintIsInjective, JsonPrinter.PrintValue and JsonPrint.CapacityExact.
- JsonParser.ParseNumber: over the reals, without rounding and without overflow of the exponent.
- JSON nodes are values: the intrusive list, its item accessors and `Load` and `Save` are not modelled. Allocation always succeeds.
- JsonBounds.DocumentInBounds: one direction, because a text that ends in a backslash is harmless when parsing stops before it; `DocumentOverruns` is the exact statement.
- SensorFilters.SensorFilter.PearsonCoefficient: the square roots of the variances are given to it.
- Filters and the reference table are over the reals, and distances in the table are compared by their squares.
- Sorting.QuickSortSliced: when the stack is too small the original writes past its end; the method returns false instead, and what that write does is not modelled. Likewise Sorting.QuickSortSlicedSafe.
- The filter with scalar samples (`SensorFilterBase<float>`) is one coordinate of the vector filter.
- SensorFilters.SensorFilter.Median: of an empty window the original reads outside its scratch arrays; the result is then none, as it is where a filter divides by 0.
- The filters with fixed coefficients, the rotation and integration of the orientation, and `ClearMagReferences`, which resets the count but not the index, are not modelled.
- Overflow of `MagRefScore` and of `Stage`.
- Bit operations are written as arithmetic.
