# Verified models of the portfolio backend's native code

This project models the parts of the repository whose state is hardest to reason about, and proves what they
promise: the libcurl components that are built into the FX module, the FX rate parser and cache, the number
printers of the Unity test framework, the risk figures, and the holding spread of the front end.
`dafny verify dfyconfig.toml` checks everything.

* `Chunks`, `BufQueue`, `BufTransfers`, `BufRuns`: libcurl's chunked byte queue. Memory is explicit: pointers are
  addresses, `calloc` may refuse, `free` removes a chunk, and following a pointer carries the obligation that its
  chunk is allocated. Every operation ensures `Rest() == old(Rest())`: the memory outside the queue, its spares and
  its pool is untouched, so that nothing is leaked, freed twice or shared. What a queue holds is one sequence of
  bytes, `Contents()`, and what it can still take is `Room()`. Readers and writers are arbitrary callbacks.
* `AttemptLog`, `RaceTrace`, `HappyEyeballs`: libcurl's race of connection attempts (RFC 8305). The racing loop keeps
  a ghost trace of all that happens: answers of the network, addresses tried, attempts started over. The list of
  attempts is a function of the trace (`Replay`), and every decision records the state it was taken in truthfully
  (`TraceOk`, `TrueTo`); `LogOk` says when a decision was right and `Ended` why a call ended, and the theorems about
  whole races rest on these.
  The network decides how every attempt goes; the clock never goes back and moves finitely often within one call.
* `Common`: what several modules share.
* `DecimalText`, `DecimalReader`: decimal digits, powers of ten, and `stod` on decimal literals.
* `FxParser`, `FxCursor`, `FxCache`: the grammar of the rate list, the cursor that is proved to follow it, and the
  rate cache with its two age limits. A fetch is "failed" or "returned this text"; clock readings are parameters.
* `UnityPrint`, `UnityFloat`, `UnityFloatText`: the integer printer, and the floating-point printer over exact reals:
  choosing the significant digits, then laying them out.
* `AltSvc`, `AltSvcRuns`: libcurl's cache of alternative services (RFC 7838), from parsed alternatives on.
* `ApiGuard`, `ApiSessions`: libcurl's guards around API calls and callbacks, and whole trees of nested calls on any
  number of handles. `Plays` says what takes place of a tree; `FramesOk` says that each call in progress was admitted.
* `Risk`, `HoldingSpread`: one-pass loops and their algebraic meaning, over exact reals.

Where the code and what is said about it disagree, the model follows the code:

* `native/README.md` says old rates are used for up to seven days. A fetch that succeeds with an empty list leaves
  rates of any age in use (`FxCache.AnyAgeIsServed`); `FxCache.SevenDaysExactly` gives the exact condition.
* `native/README.md` says the Sharpe ratio is `NaN` for a flat series. It is `NaN` exactly when all returns are
  equal, which steady growth also satisfies (`Risk.RiskCompute`, `Risk.NotOnlyFlat`).
* The float printer's comment says that ties are rounded to even. They are, except for a number whose integer part
  has all the digits, is odd, and is followed by an exact half, which is dropped
  (`UnityFloatText.TiesToEvenExactly`, `UnityFloatText.HalfIsDropped`).
* `Curl_bufq_sipn` reports a refused chunk as "would block" instead of out of memory exactly when the queue is at its
  maximum number of chunks, which with a refusal means that its limit is soft (`BufTransfers.Sipn`);
  `BufTransfers.RefusedAtSoftLimit` reaches that state.
* `bufq.h` says that a queue with a soft limit reports that it is full when its chunks are used, even if it takes more.
  It does not while it has a spare chunk (`BufQueues.BufQueue.FullIffNoRoom`): after a reset it can hold twice its limit
  without reporting it (`BufQueues.PastLimitNotFull`).

## Model

| member | source | states |
|---|---|---|
| Chunks.Chunk.Append | native/libs/curl-8.22.0/lib/bufq.c:49-61 | the unread bytes grow by as much of the buffer as fits behind the write offset |
| Chunks.Chunk.Take | native/libs/curl-8.22.0/lib/bufq.c:63-82 | exactly the first bytes are gone, and a chunk read empty is rewound |
| Chunks.Chunk.Fill | native/libs/curl-8.22.0/lib/bufq.c:84-104 | only the bytes the reader reports are added, whatever else it wrote into the free space |
| Chunks.FreeList | native/libs/curl-8.22.0/lib/bufq.c:136-144 | frees every chunk of an acyclic list once and nothing else |
| Chunks.Pool.Take | native/libs/curl-8.22.0/lib/bufq.c:156-184 | a blank chunk that is nobody's: the first spare or new memory; NULL only when memory is refused |
| Chunks.Pool.Put | native/libs/curl-8.22.0/lib/bufq.c:186-198 | the chunk becomes a spare, or is freed if there are enough spares |
| BufQueues.BufQueue.constructor | native/libs/curl-8.22.0/lib/bufq.c:206-233 | an empty queue that satisfies the invariant, with or without a pool |
| BufQueues.BufQueue.GetSpare | native/libs/curl-8.22.0/lib/bufq.c:283-316 | a blank chunk outside all lists with the count kept; NULL exactly at the hard limit without spares or on refusal |
| BufQueues.BufQueue.Link | native/libs/curl-8.22.0/lib/bufq.c:353-363 | linking a loose chunk behind a full tail keeps lists, content and foreign memory |
| BufQueues.BufQueue.GetNonFullTail | native/libs/curl-8.22.0/lib/bufq.c:346-365 | a tail with room, changing neither content nor capacity; otherwise no spare is left and the tail is full |
| BufQueues.BufQueue.Write | native/libs/curl-8.22.0/lib/bufq.c:367-392 | appends min(length, tail room + chunk size * missing chunks) bytes under a hard limit and everything under a soft one; AGAIN exactly when nothing fits; OUT_OF_MEMORY exactly on a refusal, which ends the write with bytes left that would have fitted |
| BufQueues.BufQueue.DropHead | native/libs/curl-8.22.0/lib/bufq.c:323-342 | an unlinked chunk ends in the spares, the pool or the free memory, and count and lists stay consistent |
| BufQueues.BufQueue.PruneHead | native/libs/curl-8.22.0/lib/bufq.c:318-344 | restores the invariant after a read and changes no content |
| BufQueues.BufQueue.Read | native/libs/curl-8.22.0/lib/bufq.c:401-415 | copies and removes the first min(len, length) bytes, touches no other part of the buffer, AGAIN exactly when none |
| BufQueues.BufQueue.Skip | native/libs/curl-8.22.0/lib/bufq.c:461-470 | removes exactly the first min(amount, length) bytes, and costs no room |
| BufQueues.BufQueue.Peek | native/libs/curl-8.22.0/lib/bufq.c:423-436 | finds a non-empty prefix of the content exactly if there is any, up to the write offset of its chunk, and changes no content although it may prune |
| BufQueues.BufQueue.PeekAt | native/libs/curl-8.22.0/lib/bufq.c:438-459 | succeeds exactly if the offset is below the length, with the slice from there to the write offset of its chunk |
| BufQueues.BufQueue.Len | native/libs/curl-8.22.0/lib/bufq.c:255-264 | the number of queued bytes |
| BufQueues.BufQueue.Reset | native/libs/curl-8.22.0/lib/bufq.c:243-253 | all content gone, every chunk kept as a spare, and room for all chunks |
| BufQueues.BufQueue.Free | native/libs/curl-8.22.0/lib/bufq.c:235-241 | frees exactly the chunks of the queue |
| BufQueues.BufQueue.EmptyIffNoContents | native/libs/curl-8.22.0/lib/bufq.c:266-269 | the test of the first chunk alone decides whether the whole queue is empty |
| BufQueues.BufQueue.FullIffNoRoom | native/libs/curl-8.22.0/lib/bufq.c:271-281 | a hard-limited queue is full exactly if a write would accept nothing; any queue, exactly if it has no spare and either all its chunks in use and a full tail, or more than its maximum in use |
| BufQueues.PastLimitNotFull | native/libs/curl-8.22.0/lib/bufq.h:79-82 | unless an allocation is refused, a soft-limited queue ends up holding twice its limit without reporting that it is full |
| BufQueues.BufQueue.EmptyHasRoom | native/libs/curl-8.22.0/lib/bufq.c:271-281 | a queue without content has room: its only chunk, if any, has been rewound |
| BufQueues.BufQueue.Capacity | native/libs/curl-8.22.0/lib/bufq.c:283-316 | a hard-limited queue never holds more than max_chunks * chunk_size bytes, its room included |
| BufTransfers.Pass | native/libs/curl-8.22.0/lib/bufq.c:472-502 | sink and queue together hold what they held, also on a real error; terminates for every writer and stops only when it blocks or fails or the queue is empty |
| BufTransfers.WritePass | native/libs/curl-8.22.0/lib/bufq.c:504-551 | on every result but OUT_OF_MEMORY, sink ++ queue is the old one ++ the reported part of the buffer; the writer is offered data only when the queue is full, so a buffer that fits is queued whole without a call of it; it stops short only when the writer blocks, fails, or memory is refused |
| BufTransfers.PassAndWrite | native/libs/curl-8.22.0/lib/bufq.c:512-546 | one turn: data is passed on exactly if the queue is full, with no other call of the writer, and what is then written is accounted for |
| BufTransfers.Sipn | native/libs/curl-8.22.0/lib/bufq.c:553-569 | appends exactly what one reader call produced, at most max_len bytes, with its result, and nothing when it reports an error, whatever number it leaves; the reader is offered the room of the tail, or of a new chunk if the tail is full, cut to max_len; no call only without room or on a refusal, which is OUT_OF_MEMORY below the maximum number of chunks and AGAIN at it |
| BufTransfers.RefusedAtSoftLimit | native/libs/curl-8.22.0/lib/bufq.c:553-569 | a queue at its soft limit with a full tail and no spare is reached, and a chunk refused there is reported as AGAIN without a call of the reader |
| BufTransfers.Slurpn | native/libs/curl-8.22.0/lib/bufq.c:579-613 | appends the concatenation of all that was read and reports its length, within max_len; reads again only after a success that used all the space offered; says exactly when it is OUT_OF_MEMORY, AGAIN or an error; terminates on a hard limit even against an endless reader |
| BufRuns.FifoOverRuns | native/libs/curl-8.22.0/lib/bufq.c:367-470 | first in, first out: over any run, what left ++ what is queued is what was queued ++ what entered |
| BufRuns.PerformAll | native/libs/curl-8.22.0/lib/bufq.c:243-569 | any interleaving of operations is a run of the FIFO specification on bytes and room: exact amounts and codes of writes and sips, hard limit kept at every point; OUT_OF_MEMORY only for a refused allocation, and what the sips add and answer is, in order, all that the reader has produced and said |
| BufRuns.PerformBeside | native/libs/curl-8.22.0/lib/bufq.c:156-198 | an operation on one queue follows the specification, with the refusals and reader answers that there really were, and leaves bytes and room of the other queue on the pool as they are |
| BufRuns.RunBoth | native/libs/curl-8.22.0/lib/bufq.c:156-569 | any interleaving of operations on two queues that share a pool is for each of them a run of its own specification, with the bytes and answers of its own reader; the refusals of the shared memory are those of the two runs |
| BufRuns.RunBeside | native/libs/curl-8.22.0/lib/bufq.c:156-198 | of two queues on one pool, whatever runs on one leaves the other one's content and invariant alone |
| AttemptLog.LogInOrder | native/libs/curl-8.22.0/lib/cf-ip-happy.c:137-150 | each family's addresses are started in index order, none skipped, none twice |
| AttemptLog.LogPaced | native/libs/curl-8.22.0/lib/cf-ip-happy.c:440-515 | starts beside an ongoing attempt wait for the delay, the cap holds, families switch when they can, restarts happen alone |
| AttemptLog.StartsInterlaced | native/libs/curl-8.22.0/lib/cf-ip-happy.c:465-479 | decisions taken with fixed answers follow RFC 8305 section 4: IPv6 first, one by one, then the rest of the longer list |
| AttemptLog.MarkedConstant | native/libs/curl-8.22.0/lib/cf-ip-happy.c:137-158 | when every call of a race finds the same answers, all its decisions were taken with them |
| RaceTrace.CapAlways | native/libs/curl-8.22.0/lib/cf-ip-happy.c:360-387 | at every point of every race at most max_concurrent attempts are ongoing |
| RaceTrace.OldestAreDropped | native/libs/curl-8.22.0/lib/cf-ip-happy.c:360-387 | the attempts dropped over the limit are the ongoing ones before some point of the list, and everything else stays in its place |
| RaceTrace.CallsGivenUpLate | native/libs/curl-8.22.0/lib/cf-ip-happy.c:548-559 | a race of calls that ended as they say is given up only after every address at hand was tried |
| RaceTrace.NobodyMissed | native/libs/curl-8.22.0/lib/cf-ip-happy.c:406-435 | in the list that a trace makes there is a connected attempt exactly if some answer in the trace said so |
| RaceTrace.WonIsByAnswer | native/libs/curl-8.22.0/lib/cf-ip-happy.c:406-435 | a race is won by the last answer of the last round, the only one in it that says connected, or by the answer to the start of an attempt started over just before |
| RaceTrace.LastFailureSaid | native/libs/curl-8.22.0/lib/cf-ip-happy.c:551-557 | the code of a failed race is an error that the network gave, or COULDNT_CONNECT if no attempt is left |
| RaceTrace.WaitsFor | native/libs/curl-8.22.0/lib/cf-ip-happy.c:438-593 | with an address left, a race waits beside a pending attempt until the delay since the last start is over, or the deadline if that is earlier; without one, for a pending attempt, for the delay before an inconclusive attempt is started over, or for DNS |
| RaceTrace.WokenInTime | native/libs/curl-8.22.0/lib/cf-ip-happy.c:561-593 | nothing becomes due before the time to wake, and before the deadline something is due from then on; without such a time nothing ever is |
| RaceTrace.GivenUpWhen | native/libs/curl-8.22.0/lib/cf-ip-happy.c:548-559 | a call gives up with no attempt pending or inconclusive, no address left, and DNS resolved |
| HappyEyeballs.Ballers.constructor | native/libs/curl-8.22.0/lib/cf-ip-happy.c:332-358 | a race without attempts satisfies the invariant |
| HappyEyeballs.Ballers.ConnectAttempt | native/libs/curl-8.22.0/lib/cf-ip-happy.c:244-266 | an undecided attempt asks the network once: it is connected exactly if the answer is a success that says so, pending after any other success, and failed with the code of an error; a decided one stays, and no other is touched |
| HappyEyeballs.Ballers.Poll | native/libs/curl-8.22.0/lib/cf-ip-happy.c:406-435 | every ongoing attempt is asked once, in order, up to the first that is through, which wins; else the counts are those of the list |
| HappyEyeballs.Ballers.Evaluate | native/libs/curl-8.22.0/lib/cf-ip-happy.c:406-435 | a round of answers, recorded in the trace, and the winner or the list that it makes |
| HappyEyeballs.Ballers.Prune | native/libs/curl-8.22.0/lib/cf-ip-happy.c:360-387 | removes exactly the oldest ongoing attempts beyond the limit |
| HappyEyeballs.Ballers.StartNext | native/libs/curl-8.22.0/lib/cf-ip-happy.c:459-515 | takes the next address of the other family if it has one, makes room, appends one attempt, and records the decision with the numbers it was based on |
| HappyEyeballs.Ballers.RestartFirst | native/libs/curl-8.22.0/lib/cf-ip-happy.c:517-536 | restarts the first inconclusive attempt and no other, alone, after the delay and with no address left, and records it |
| HappyEyeballs.Ballers.NextCall | native/libs/curl-8.22.0/lib/cf-ip-happy.c:561-593 | out of time, due again, or the earlier of deadline and next attempt |
| HappyEyeballs.Ballers.DoMore | native/libs/curl-8.22.0/lib/cf-ip-happy.c:438-559 | right after all were asked: an address is tried or an attempt started over at this time, the race is given up because it is spent or because setting up failed, or nothing is due at this time |
| HappyEyeballs.Ballers.Round | native/libs/curl-8.22.0/lib/cf-ip-happy.c:406-593 | one evaluation and what follows, its decisions at times of the clock during the call; it repeats only after an address was tried, the clock moved, or a restart was used up, and ends as `Ended` says |
| HappyEyeballs.Ballers.Failure | native/libs/curl-8.22.0/lib/cf-ip-happy.c:551-557 | the result of the last failed attempt |
| HappyEyeballs.Ballers.WonIfSaid | native/libs/curl-8.22.0/lib/cf-ip-happy.c:244-266 | in every reachable state there is a winner exactly if some answer of the network said connected |
| HappyEyeballs.Ballers.Run | native/libs/curl-8.22.0/lib/cf-ip-happy.c:389-595 | always returns, after asking every ongoing attempt; there is a winner afterwards exactly if some answer said connected, and a win is by the last answer; with a set-up error only if the last step was a set-up that failed with it; with failure only, and with a code that the network gave if an attempt is left, with nothing ongoing, inconclusive or untried and DNS resolved; else with nothing left due at some time during the call, and until exactly when it waits; every decision was taken with the given answers, in order, at times of the clock during the call |
| HappyEyeballs.Race | native/libs/curl-8.22.0/lib/cf-ip-happy.c:389-595 | over many calls with growing answers: at most one winner, which ends the race, exactly if some answer said connected, and then by the last answer; the order, pace and cap of RFC 8305 section 5 with decision times in order and within the race's own span of the clock, each decision true to its call's answers, every call ended as `Ended` says of the trace so far, giving up only after every address at hand was tried, and section 4's interlacing if the answers stay |
| DecimalReader.StodReads | native/fx/src/fx.cpp:51 | a printed decimal, signed and with an exponent or not, is read back as exactly its value |
| DecimalReader.ThrowsExactly | native/fx/src/fx.cpp:51 | `stod` throws exactly on texts that do not start with blanks, a sign or none, a point or none, and a digit |
| FxParser.EntriesUnderTheirNames | native/fx/src/fx.cpp:59-71 | on any text: an exception, or valid entries whose three-letter name is their key |
| FxParser.ObjectReadsPrinted | native/fx/src/fx.cpp:27-55 | an object printed in the API's field order is read back, leaving what follows |
| FxParser.ObjectChecksDate | native/fx/src/currency.cpp:7-20 | an object whose fields have the right lengths is read if its date has both dashes, and throws if not |
| FxParser.MalformedThrows | native/fx/src/fx.cpp:29-49 | a text without a colon or without a closing brace throws |
| FxParser.ListReadsPrinted | native/fx/src/fx.cpp:59-71 | parsing inverts printing, for every list of well-shaped objects |
| FxParser.FirstOfIsFirst | native/fx/src/fx.cpp:67 | each name has the rate of its first occurrence |
| FxCursor.Cursor.ReadQuoted | native/fx/src/fx.cpp:36-41 | follows the grammar and advances the cursor, or throws |
| FxCursor.Cursor.ParseObject | native/fx/src/fx.cpp:27-55 | reads exactly the object the grammar reads and advances, or throws exactly when it does |
| FxCursor.ParseList | native/fx/src/fx.cpp:59-71 | terminates on every text with what the grammar says, keeping the first entry of a name |
| FxCache.FxModule.FxConvert | native/fx/src/fx.cpp:80-152 | every path of a call, as one step of the cache; on success the amount times the rate of the target is the result times the rate of the source, both at the names in capitals, not finite exactly if the rate of the source is 0; nothing is written on an error |
| FxCache.ErrorsExactly | native/fx/src/fx.cpp:82-137 | which error is reported when: for codes that are not three letters, a failed fetch over rates older than seven days, a list that throws, no rates at all, and names that are not listed |
| FxCache.RecentRatesServe | native/fx/src/fx.cpp:105 | with rates at most 600 s old, nothing is fetched: no response would make a difference |
| FxCache.FreshConversion | native/fx/src/fx.cpp:105-143 | a call that fetches a printed list exchanges exactly at the rates printed first for the two names, as fractions of their mantissas and decimal places |
| FxCache.Freshness | native/fx/src/fx.cpp:105-126 | a conversion uses rates at most 600 s old, those of this call, at most 168 h old ones after a failed fetch, or old ones after an empty answer |
| FxCache.SevenDaysExactly | native/fx/src/fx.cpp:110-125 | no conversion uses rates older than seven days when they are used, if and only if it is not the case of an empty answer over old rates |
| FxCache.AnyAgeIsServed | native/fx/src/fx.cpp:110-118 | two concrete calls from an empty cache, the second of which is served rates older than any given age |
| FxCache.ThrowingParseChangesNothing | native/fx/src/fx.cpp:112-117 | neither rates nor time change when the parser throws |
| FxCache.ThrowingCallsLeaveNoTrace | native/fx/src/fx.cpp:105-151 | over any run, calls whose response makes the parser throw might as well not have happened |
| FxCache.CacheOverRuns | native/fx/src/fx.cpp:105-126 | over all runs the cache is the parse of one response, with that call's time, and never becomes empty again |
| FxCache.EveryConversion | native/fx/src/fx.cpp:95-151 | over any run from an empty cache, every conversion exchanges at two rates that one call fetched together: this one, or an earlier one at most 600 s old, at most 168 h after a failed fetch, or any after an empty answer |
| FxCache.ByWayOf | native/fx/src/fx.cpp:141 | converting by way of a third currency, or there and back, agrees with converting directly |
| UnityPrint.Printer.PrintNumberUnsigned | native/libs/unity/unity.c:276-292 | prints the digits without leading zeros; the divisor never overflows 64 bits |
| UnityPrint.Printer.PrintNumber | native/libs/unity/unity.c:261-272 | prints sign and magnitude of every 64-bit integer, the least one included |
| UnityPrint.SignedReadsBack | native/libs/unity/unity.c:261-292 | the printed text is read back as the number and has no leading zero |
| UnityFloat.ScaleSmall | native/libs/unity/unity.c:413-421 | terminates with the same value scaled into [min_scaled, max_scaled) |
| UnityFloat.ScaleLarge | native/libs/unity/unity.c:422-430 | terminates with the same value scaled into (min_scaled, max_scaled] |
| UnityFloat.ScaleMiddle | native/libs/unity/unity.c:431-445 | integer part and scaled fraction still add up to the value and stay within max_scaled |
| UnityFloat.Round | native/libs/unity/unity.c:448-458 | the nearest integer, ties to even, within 32 bits |
| UnityFloat.RoundedOnce | native/libs/unity/unity.c:448-458 | rounding is determined by its specification |
| UnityFloat.RoundedExactly | native/libs/unity/unity.c:448-458 | of an integer and a fraction: the integer below a half, the next one above, and at a half the even one, or the lower one where the half is dropped |
| UnityFloat.Significant | native/libs/unity/unity.c:413-460 | the digits and exponent of any number: within half a unit, all digits present |
| UnityFloatText.TiesToEvenExactly | native/libs/unity/unity.c:431-460 | what a number is rounded to is nearest with ties to even if and only if it is not an odd integer with all the digits plus an exact half |
| UnityFloatText.HalfIsDropped | native/libs/unity/unity.c:431-460 | for every such number the half is dropped although the even neighbour is as near |
| UnityFloatText.TrimmedKeeps | native/libs/unity/unity.c:473-477 | trimming keeps the value and leaves no zero at the end of the fraction |
| UnityFloatText.FillBuffer | native/libs/unity/unity.c:480-485 | the padded digits, reversed, without passing the end of the buffer |
| UnityFloatText.PrintBackwards | native/libs/unity/unity.c:488-495 | prints the buffer in reading order with the point before the last decimals |
| UnityFloatText.PrintExponent | native/libs/unity/unity.c:498-522 | nothing for 0, else e, a sign and at least two digits |
| UnityFloatText.PrintFloat | native/libs/unity/unity.c:356-524 | every input class has its text; a number shows the digits that are chosen for it; the printed text reads back within the error bound, has an exponent exactly outside [0.0001, 10^sig_digits), then with one digit other than 0 before the point, and never a superfluous 0 |
| UnityFloatText.ShownReads | native/libs/unity/unity.c:356-524 | the text denotes a value within 5 * 10^-sig_digits of the number, relatively |
| UnityFloatText.ShownTidy | native/libs/unity/unity.c:462-522 | of every choice of digits and exponent: sign, digits, point and exponent of the text are determined by the value that it denotes: no exponent exactly for values in [0.0001, 10^sig_digits), else one digit other than 0 before the point, and no 0 in front or at the end of the fraction |
| UnityFloatText.ExponentShows | native/libs/unity/unity.c:468-471 | the letter e is in the text exactly if the value is outside that range |
| UnityFloatText.ShownOnce | native/libs/unity/unity.c:413-466 | the text is a function of the number, also where rounding carries into another digit |
| AltSvc.FoundAgain | native/libs/curl-8.22.0/lib/altsvc.c:99-107 | a host name matches what it is filed under |
| AltSvc.NamesAre | native/libs/curl-8.22.0/lib/altsvc.c:99-114 | names are filed without brackets, the origin's also without a dot at the end, and otherwise as they are |
| AltSvc.HostCompare | native/libs/curl-8.22.0/lib/altsvc.c:441-452 | equality up to ASCII case and one trailing dot of the host |
| AltSvc.CaseDoesNotMatter | native/libs/curl-8.22.0/lib/altsvc.c:441-452 | texts match exactly if they have one length and each two characters are equal or one ASCII letter in both cases |
| AltSvc.CreateEntry | native/libs/curl-8.22.0/lib/altsvc.c:89-134 | the entry with the host, port and protocol of the alternative as destination, those of the origin as source, and its persistence, expiring at min(now + maxage, TIME_T_MAX) without overflow; none exactly without a name or memory |
| AltSvc.Cache.Append | native/libs/curl-8.22.0/lib/altsvc.c:155-165 | the last 5000 of the list and the new entry, which is the last |
| AltSvc.Cache.Flush | native/libs/curl-8.22.0/lib/altsvc.c:456-472 | exactly the origin's entries are gone, the others are in order |
| AltSvc.Cache.Store | native/libs/curl-8.22.0/lib/altsvc.c:618-674 | the last 5000 of the entries of others ++ the new ones, for every header; out of memory exactly if one cannot be stored |
| AltSvc.Cache.Lookup | native/libs/curl-8.22.0/lib/altsvc.c:680-720 | the first unexpired match, dropping only the expired entries before it |
| AltSvcRuns.OwnEntry | native/libs/curl-8.22.0/lib/altsvc.c:89-134 | a filed entry answers for its origin and for exactly those that differ in case or a trailing dot only |
| AltSvcRuns.LookupsDoNotInterfere | native/libs/curl-8.22.0/lib/altsvc.c:697-705 | a lookup changes no later lookup of any origin |
| AltSvcRuns.KeptByLookup | native/libs/curl-8.22.0/lib/altsvc.c:697-705 | a lookup leaves, in their order, exactly the entries that have not expired or come after its answer |
| AltSvcRuns.ClearForgets | native/libs/curl-8.22.0/lib/altsvc.c:605-615 | after "clear" the origin is answered nothing and all others as before |
| AltSvcRuns.HeaderReplaces | native/libs/curl-8.22.0/lib/altsvc.c:640-667 | after a header its origin is answered from that header alone |
| AltSvcRuns.LookupAfterHeader | native/libs/curl-8.22.0/lib/altsvc.c:640-720 | the answer is the first alternative of the header in a wanted protocol within its age, among those that the header itself does not evict |
| AltSvcRuns.HeaderLeavesOthers | native/libs/curl-8.22.0/lib/altsvc.c:640-667 | a header changes other origins' answers only by evicting the oldest entries, and not at all while there is room |
| AltSvcRuns.OneHeaderOnly | native/libs/curl-8.22.0/lib/altsvc.c:618-674 | over all runs, what is cached for an origin is part of its latest header, in order: two headers never mix |
| AltSvcRuns.AnswerIsLatest | native/libs/curl-8.22.0/lib/altsvc.c:680-720 | over all runs, an answer is from the origin's latest header and unexpired |
| ApiGuard.EapiInEventCb | native/libs/curl-8.22.0/lib/api.c:131-146 | whether an event callback is anywhere on the multi handle's stack |
| ApiGuard.MapiInNotifyCb | native/libs/curl-8.22.0/lib/api.c:148-158 | whether the notify callback is anywhere on the stack |
| ApiGuard.EapiEnter | native/libs/curl-8.22.0/lib/api.c:180-287 | admits a call exactly under the table's conditions, pushes only then, and names the error otherwise |
| ApiGuard.EapiLeave | native/libs/curl-8.22.0/lib/api.c:289-306 | cuts the stack back to the depth of entry |
| ApiGuard.MapiEnter | native/libs/curl-8.22.0/lib/api.c:326-388 | as for easy handles, with the exception during notify callbacks |
| ApiGuard.MapiLeave | native/libs/curl-8.22.0/lib/api.c:390-407 | cuts the stack back to the depth of entry |
| ApiGuard.CbapiEnter | native/libs/curl-8.22.0/lib/api.c:409-446 | records a callback unless it is recorded already or the stack is full |
| ApiGuard.EasyAdmittedExactly | native/libs/curl-8.22.0/lib/api.c:41-70 | what the table of easy calls comes to: by itself on both stacks unless it is one of the nine that may be made during others, pausing not during socket and timer callbacks, within seven calls |
| ApiGuard.MultiAdmittedExactly | native/libs/curl-8.22.0/lib/api.c:72-97 | what the table of multi calls comes to: by itself, one of the six that may be made during others, or under a notify callback unless it is one of five, within fifteen calls |
| ApiSessions.Session.Play | native/libs/curl-8.22.0/lib/api.c:180-451 | for every tree of nested calls on any handles that ends no handle's life: all stacks are restored exactly, and what takes place is what `Plays` says, every callback and admitted call down the tree, in order, and nothing inside refused ones |
| ApiSessions.PlayedSoundly | native/libs/curl-8.22.0/lib/api.c:180-451 | wherever a tree is played, every state inside it is one in which each call was admitted among the earlier ones, and no outer call is lost |
| ApiSessions.Session.Run | native/libs/curl-8.22.0/lib/api.c:180-451 | over a whole program from idle handles, at every point each call in progress was admitted among those before it, and at the end nothing is in progress |
| ApiSessions.CallbackOnce | native/libs/curl-8.22.0/lib/api.c:425-445 | in every reachable state no callback is recorded twice on a multi handle and all stacks are within bounds |
| ApiSessions.EasyAboveBottom | native/libs/curl-8.22.0/lib/api.c:229-250 | every easy entry above the bottom is one of the nine calls that may be made during others |
| ApiSessions.MultiAboveBottom | native/libs/curl-8.22.0/lib/api.c:349-361 | every multi entry above the bottom is a callback, one of the six calls that may be made during others, or a call other than cleanup, perform and the socket actions with a notify callback below it |
| ApiSessions.CleanupAdmitted | native/libs/curl-8.22.0/lib/api.c:41-97 | in any state, a sound handle's life can be ended exactly when its own stack is empty, for an easy handle also its multi handle's, and for a multi handle the TLS session cache is not held |
| ApiSessions.MultiCleanupBesideEasyCall | native/libs/curl-8.22.0/lib/api.c:72-97 | so a multi handle's cleanup inside a call on an easy handle of it takes place |
| ApiSessions.OutermostCalls | native/libs/curl-8.22.0/lib/api.c:41-97 | every easy call but those nine, so every transfer and cleanup, is the outermost on its handle and on that handle's multi handle; every multi call but those six is the outermost on its multi handle, or is allowed under a notify callback that is below it |
| ApiSessions.PerformInPerform | native/libs/curl-8.22.0/lib/api.c:180-287 | but not the outermost of all: a transfer on one easy handle takes place inside a transfer on another one |
| ApiSessions.NoPauseInEventCb | native/libs/curl-8.22.0/lib/api.c:131-146 | nothing is paused while an event callback of its multi handle is in progress |
| ApiSessions.CallbackRecorded | native/libs/curl-8.22.0/lib/api.c:409-446 | inside a callback its id is on the stack of its multi handle, or that of its easy handle, exactly if it was there before or there was a place for it |
| ApiSessions.NeverPausedInEventCb | native/libs/curl-8.22.0/lib/api.c:131-146 | however deep inside a recorded socket or timer callback of a tree, no pause of a handle that belongs to its multi handle takes place |
| Risk.Validate | native/risk/src/risk.c:5-20 | the first failing check, in the code's order, each with its exact condition |
| Risk.MeanReturn | native/risk/src/risk.c:33-40 | the mean of the period returns |
| Risk.VarianceOfReturns | native/risk/src/risk.c:42-50 | the sample variance of the period returns |
| Risk.ReturnsAre | native/risk/src/risk.c:36-38 | a return times the earlier price is the change of the price |
| Risk.VarianceIs | native/risk/src/risk.c:33-50 | (n - 1) times the variance is the sum of the squares less n times the squared mean, and n times the mean is the sum |
| Risk.Drawdown | native/risk/src/risk.c:66-82 | the one-pass value is the maximum over all i <= j of (v[i] - v[j]) / v[i] |
| Risk.WorstDropIs | native/risk/src/risk.c:66-82 | no price falls by more than the drawdown's share of an earlier one, and some price falls by just that much |
| Risk.RiskCompute | native/risk/src/risk.c:22-85 | the squared volatility, the Sharpe ratio, NaN exactly when all returns are equal, and the worst drop; nothing is written on an error |
| Risk.NoVariance | native/risk/src/risk.c:42-59 | the variance is zero if and only if all returns are equal |
| Risk.NotOnlyFlat | native/risk/src/risk.c:55-59 | a series that doubles has zero variance without being flat |
| Risk.TwoPasses | native/risk/src/risk.c:33-49 | the two-pass sum equals the sum of squares minus n times the squared mean |
| Risk.ScaledReturns | native/risk/src/risk.c:33-50 | scaling all prices changes no return |
| Risk.ScaledDrop | native/risk/src/risk.c:66-82 | scaling all prices changes no drawdown |
| Risk.WorstDropOnce | native/risk/src/risk.c:66-82 | a series has one drawdown |
| Risk.DrawdownRange | native/risk/src/risk.c:66-82 | it is in [0, 1), and 0 if and only if the series never falls |
| Risk.DrawdownGrows | native/risk/src/risk.c:66-82 | it never decreases when the series is extended |
| HoldingSpread.CalculateHoldingSpread | frontend/src/utils/calculateHoldingSpread.ts:7-35 | the integer nearest, ties up, to 100 * (1 - the sum of the squared shares of the tickers in the total), 0 without a positive total |
| HoldingSpread.SpreadIs | frontend/src/utils/calculateHoldingSpread.ts:7-35 | the same of every listing of the tickers, from the totals of the holdings alone |
| HoldingSpread.EqualShares | frontend/src/utils/calculateHoldingSpread.ts:27-34 | equal shares in n tickers score the integer nearest to 100 * (n - 1) / n |
| HoldingSpread.GroupingConserves | frontend/src/utils/calculateHoldingSpread.ts:10-25 | grouping conserves the total value |
| HoldingSpread.OrderDoesNotMatter | frontend/src/utils/calculateHoldingSpread.ts:7-35 | permuting the holdings does not change the score |
| HoldingSpread.ScoreRange | frontend/src/utils/calculateHoldingSpread.ts:22-34 | the score is in 0..round(100 * (1 - 1/n)) for n tickers |
| HoldingSpread.MergingNeverRaises | frontend/src/utils/calculateHoldingSpread.ts:7-35 | counting two tickers as one never raises the score |

## Left out

- BufTransfers.WritePass: on OUT_OF_MEMORY the bytes queued by the failing write are not reported by the code either; how many they are is stated only as "at least the reported ones".
- BufTransfers.Slurpn: requires a bound (`max_len`, a hard limit, or a reader that runs dry), because the code need not return from an endless reader on a soft-limited queue otherwise.
- HappyEyeballs.Ballers.Run: requires a positive attempt delay and a deadline; with a delay of 0, or without any connect timeout (a time left of 0), the code can re-evaluate without a bound while addresses remain.
- HappyEyeballs.Ballers.StartNext: preparing the socket address and creating the filter are one arbitrary outcome; the filters themselves, shutdown and data-pending queries are not modelled.
- ApiSessions.Session.Play: each easy handle belongs to one multi handle, or to none, for the whole tree, so adding and removing handles inside it is not modelled; all multi handles are alive, and calls that end a handle's life are not part of a tree.
- UnityFloatText.PrintFloat: numbers are exact reals; the rounding of the intermediate doubles is not modelled.
- Risk.RiskCompute: over exact reals; `sqrt` is any exact square root and `pow` any function.
- The byte queue's SIZE_MAX check before allocation is one more way for an allocation to be refused; a writer that reports an error is taken to have accepted nothing, and a reader that does to have produced nothing, whatever numbers they leave.
- Linked lists of attempts and of alternative services are sequences; object lifetimes in those two components are not modelled (the byte queue's are).
- The DNS answers of a race are two counts, fixed during one call and arbitrary between calls.
- `stod`: hexadecimal, infinite, not-a-number and out-of-range literals; rates are exact decimals.
- The mutex around the FX cache, the HTTP client and the steady clock: calls are atomic steps with given responses and clock readings.
- Origins' host names carry no brackets, as `Curl_peer` strips them (lib/peer.h:46-54, lib/peer.c:190-202); how peers are made is not modelled.
- Parsing the Alt-Svc header text, the cache file, and the `h1`/`h2`/`h3` name tables.
- The TLS session cache lock and the check that a multi handle knows an easy handle are inputs of the API guards.
- `Curl_eapi_hcode`, `Curl_api_is_in_callback`: simple mappings and queries.
- Unity's hexadecimal, mask and style printers and its assertions; platform variants of rounding.
- React components, fetch services and the other small front-end helpers: user interface or simple formulas.
