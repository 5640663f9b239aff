# A verified model of the message board benchmark

The repository is a micro-benchmark for fbthrift: a client drives a message board made of three chained RPC
services, every service logs when it started and finished each query, and a script turns the logs back into spans.
It also carries a windowed load generator, a chat room example and a CMake argument parser.

The project models these parts and proves what they are for. `dafny verify dfyconfig.toml` checks all of it.

| module | what it models |
|---|---|
| `Board`, `Filter` | the board as one plain map, and the sanitizer's regular expression as a backtracking matcher |
| `Pipeline` | client, message service, sanitizer and database as a step system: every request in flight has one program counter per handler, workers are limited, and a list of actions is one interleaving. `sync` selects the blocking or the overlapping build |
| `Linearizability`, `Progress`, `Spans` | the three invariants of that system and their theorems about all runs |
| `Handlers` | the same handlers as classes that change their fields, one request at a time and in both builds, logging to the ring |
| `Latency` | how long a chain of handlers takes in the two builds |
| `ServerStats`, `Csv`, `Text`, `Arithmetic`, `Wrappers` | the paged ring of log entries, its dump as text, and the reader of that text |
| `AddEntryRace`, `AddEntryPage` | several threads inside `add_entry`, one step per shared access: which rows they write, and what they leave in memory while all calls fit one page |
| `QueryUid`, `TraceReader` | the 64-bit query identifiers, and the offline reconstruction of spans from the dumped logs |
| `LoadEvents`, `LoadWindow` | the load generator as a step system over the deliveries of the event loop |
| `LoadRunner`, `QpsStats` | its classes, which move exactly like that; counters and the reporting loop |
| `ClientLoop` | the client's send loop and its two success counters |
| `ChatRoom` | token-based paging over a growing list |
| `ParseArgs` | `fb_cmake_parse_args` with its string-encoded lists |

Assumptions. Each access to the database's map, each read of the clock and each log append of the pipeline is one step;
for the appends this is justified, as long as the calls fit one page, by `AddEntryPage.CallsOnOnePage`.
Every RPC delivers exactly one reply. One non-decreasing clock is shared by all processes. Each load generator
callback gets one terminal event, delivered by the event loop and not from inside the call that issues it.
Random draws, address octets, the random nibble and times are inputs.

## What the code turns out not to do

- The slot bound for concurrent `add_entry` calls needs `entry_cursor += 1` to be a single step. As a load and a store
  it lets the cursor grow to any 32-bit number, because the reset of the cursor is outside the lock
  (`AddEntryRace.SlotBoundHoldsExactly`, `AddEntryRace.NoBoundForTornIncrement`). With two callers or more a write past
  the page is always possible (`AddEntryRace.InBoundsExactlyForOneCaller`), though not before the calls outnumber the
  rows of a page (`AddEntryPage.CallsOnOnePage`).
- A line terminator anywhere in a message lets it through the filter (`Filter.RegexMatchMeaning`).
- Client identifiers ignore the two middle octets of the address (`QueryUid.LocalUidsCollideExactly`).
- `treat_data` drops the result of its sort. The spans still come out right, because each log is in order query by query.
- A value name `VALUES_x` next to a keyword `x` corrupts the values of `x` (`ParseArgs.FaithfulExactly`,
  `ParseArgs.ClashMisreads`) and defeats the arity checks in both directions (`ParseArgs.ArityIsCheckedExactly`): a
  correct call `x v` is refused, or sets `VALUES_x`, although nobody mentioned that (`ParseArgs.ClashInventsMention`), and
  a one-value `x` without a value passes after a mention of a multi-value `VALUES_x` (`ParseArgs.ClashHidesMissingValue`).
- The text of unrecognized arguments loses leading empty ones (`ParseArgs.UnparsedFaithfulExactly`), although the
  file's header says empty arguments are handled; a call whose only argument is empty looks like a call without
  arguments (`ParseArgs.ArgumentsArriveExactly`).
- A stream that ends gives its slot back but nothing refills it, and an operation outside the build keeps its slot for
  good. So the load generator can stop for ever, exactly when the random draws yield as many such operations
  as the window is wide (`LoadWindow.RestsExactlyWhenHeld`).
- The reporting loop never ends for an interval of zero or less, unless the running time is negative and not above it
  (`QpsStats.ReportingEndsExactly`).
- An asynchronous dump without a file name writes nothing (`ServerStats.ServerStatsManager.DumpServerStats`).

## Model

| member | source | states |
|---|---|---|
| Filter.RegexMatchMeaning | src/SanitizationService/SanitizationService.cpp:15-18 | matching the whole message against the expression holds exactly for single-line messages that contain one of the four characters |
| Board.BoardHoldsAcceptedSends | src/MockDatabase/MockDatabase.cpp:32 | a sequential board holds for a user only what that user sent and the filter accepted |
| Board.BoardHoldsLastSend | src/MockDatabase/MockDatabase.cpp:14-32 | after any order of operations the board holds exactly the last accepted message of each user that has one |
| Board.FindReadsLastSend | src/MockDatabase/MockDatabase.cpp:14-18 | a find is answered with the last accepted message of its user before it, and with the warning text if there is none |
| Board.FindRepliesAreAcceptedSends | src/MockDatabase/MockDatabase.cpp:14-18 | a find answers with the warning text or an accepted message of that user |
| Board.SendRepliesAreVerdicts | src/SanitizationService/SanitizationService.cpp:15-18 | a send is told whether the filter let it through |
| Linearizability.StepMovesOneRequest | src/MessageService/MessageService.cpp:8-90 | each step keeps callers and callees joined: called above means begun below, an answer above is the finished callee's answer |
| Linearizability.StepAppliesAtMostOne | src/MockDatabase/MockDatabase.cpp:14-32 | each step applies at most one query to the board, exactly as if it ran alone |
| Linearizability.StepKeepsFound | src/MockDatabase/MockDatabase.cpp:14-18 | between the two map accesses of a find the user cannot disappear, so the index operator never inserts |
| Linearizability.StepKeepsHistory | src/Client/Client.cpp:36-48 | each step keeps the client-visible history well formed and in real-time order with the effects |
| Linearizability.EveryRunIsLinearizable | src/MessageService/MessageService.cpp:8-90 | every interleaving, in both builds and for all pool sizes, is explained by a sequential order of the queries that gives the same answers and respects real time |
| Linearizability.DatabaseHoldsAcceptedMessages | src/MockDatabase/MockDatabase.cpp:32 | at every moment of every run the database holds only accepted messages of the user they are stored under |
| Linearizability.AnswersAreSound | src/Client/Client.cpp:36-48 | every answer a client gets is the filter's verdict, the warning text or an accepted message of that user |
| Linearizability.FindsReadCurrentMessages | src/MockDatabase/MockDatabase.cpp:14-18 | in any linearizable history a find is answered with an accepted message of its user that no answered send had replaced before the find began; with the warning only if no accepted send of the user had been answered by then |
| Linearizability.FindsAreAnsweredRight | src/MessageService/MessageService.cpp:8-48 | the same of every answer in every run |
| Linearizability.DatabaseKeepsUp | src/MockDatabase/MockDatabase.cpp:32 | at every moment of every run the database has a message for each user with an answered accepted send, and no answered send came after that message's |
| Progress.PoolsAreRespected | src/MessageService/MessageServiceServer.cpp:40-43 | in no run are more handlers of a service between entry and return, blocked or not, than it has workers |
| Progress.UnfinishedMoves | src/MessageService/MessageService.cpp:73-80 | with one worker or more per service some handler or client can always move while a request is unfinished |
| Progress.StepLowersRank | src/MessageService/MessageService.cpp:8-90 | every step other than the passing of time uses up a well-founded rank |
| Progress.EveryRunEndsAnswered | src/SanitizationService/SanitizationService.cpp:36-44 | a run makes at most 36 moves per request, and one that can go no further has delivered every answer |
| Progress.EveryRunCanBeCompleted | src/SanitizationService/SanitizationService.cpp:36-44 | every run can be continued until all requests are answered |
| Progress.BuildsDiffer | src/MessageService/MessageService.cpp:14-39 | the blocking build never does a fake task while a call is open; in the other build a handler that has called never has to wait before its fake task |
| Spans.StepKeepsSpans | src/MessageService/MessageService.cpp:9-51 | each step keeps the clock values of every query nested |
| Spans.LoggedSpansAreNested | src/SanitizationService/SanitizationService.cpp:10-49 | in every run the logged times of a query lie inside one another from client to database, with the number of entries each kind of query leaves |
| Spans.LoggedTimesAreTrue | src/MessageService/MessageService.cpp:9-47 | the times logged for a query are clock values between any moment before the client began it and now |
| Spans.ClockCountsTicks | src/shared/Utils.cpp:31-33 | only the passing of time moves the shared clock |
| Handlers.MockDatabase.FindLastMessage | src/MockDatabase/MockDatabase.cpp:7-23 | answers with the user's message or the warning, as the plain board does, changes nothing, logs a start and an end at least the fake task apart |
| Handlers.MockDatabase.StoreMessage | src/MockDatabase/MockDatabase.cpp:25-38 | stores the message under the user and nothing else, logs twice, answers true |
| Handlers.Sanitizer.SanitizeMessage | src/SanitizationService/SanitizationService.cpp:9-51 | acts as a send on the plain board; a rejected message is logged once and never reaches the database, an accepted one is logged around the database's span |
| Handlers.MessageService.FindLastMessage | src/MessageService/MessageService.cpp:8-48 | acts as a find on the plain board in either build with the database's span inside its own, which lasts at least the fake task and in the blocking build ends that much after the database; returns the identifier it was given |
| Handlers.MessageService.SendMessage | src/MessageService/MessageService.cpp:50-90 | acts as a send on the plain board in either build, with the sanitizer's entries inside its own span and the database's inside those; in the blocking build it ends at least the fake task after the sanitizer |
| Latency.AsyncTakesLongest | src/MessageService/MessageService.cpp:30-38 | without queueing, overlapping calls take as long as the slowest service of any chain |
| Latency.SyncTakesTotal | src/MessageService/MessageService.cpp:16-28 | blocking calls take as long as all services of the chain together |
| Latency.AsyncAgainstSync | src/MessageService/MessageService.cpp:14-39 | overlapping is never slower, and at most as many times faster as there are services |
| Latency.MessageBoardLatencies | src/SanitizationService/SanitizationService.cpp:21-45 | for the board: maximum against sum of the three tasks, hence at most a factor of three; a rejected send costs the message service's task in both |
| ServerStats.LastPagesAreKept | src/shared/ServerStats.cpp:135-148 | the ring holds the current page and the buffers before it, entry by entry of the plain log |
| ServerStats.ActivePageIsCurrent | src/shared/ServerStats.cpp:135-148 | the first rows of the active buffer are the log from the start of the current page |
| ServerStats.ServerStatsManager.constructor | src/shared/ServerStats.h:54-75 | starts with an empty log and zeroed pages, and erases the file when asked to |
| ServerStats.ServerStatsManager.AddEntry | src/shared/ServerStats.cpp:135-148 | appends to the log while cursor, active buffer and every row stay the stated functions of the log |
| ServerStats.ServerStatsManager.DumpServerStats | src/shared/ServerStats.cpp:122-133 | writes the first rows of the active buffer, to the manager's file only in a synchronous dump without a name, and nowhere in an asynchronous one |
| ServerStats.ServerStatsManager.Close | src/shared/ServerStats.h:76-78 | the destructor writes exactly the log from the start of the current page |
| ServerStats.DumpedFileReadsAsLog | src/shared/ServerStats.h:69-78 | that file reads back as the current page, and as the whole log if it fits one page |
| ServerStats.Lifetime | src/shared/ServerStats.h:54-78 | from a constructor that erases to the destructor: the named file reads as query and time of every entry from the start of the last page, and no other file changes |
| Csv.DumpMatrix | src/shared/ServerStats.cpp:97-119 | the named file is its old text, or nothing if overwritten or new, followed by the lines of the first rows, cut to the columns of the first one; other files stay, and an empty matrix or file name changes none |
| Csv.LineAppend | src/shared/ServerStats.cpp:113-116 | a line is its numbers with commas in between |
| Csv.DecimalDigits | src/shared/ServerStats.cpp:114 | a number is written in decimal without leading zeros |
| Csv.RoundTrip | src/shared/ServerStats.cpp:112-117 | reading a printed matrix gives the matrix back |
| Csv.AppendedTextsConcatenate | src/shared/ServerStats.cpp:110-111 | appended dumps read as the concatenation of their rows |
| Csv.DumpReadsBack | src/shared/ServerStats.cpp:105-117 | a dump of a rectangular matrix appended to a file reads as its first rows, all of them for a negative or large limit |
| AddEntryRace.BoundHolds | src/shared/ServerStats.cpp:135-148 | cursor plus threads past the check stay within a page plus the other threads, under every schedule, when the increment is one step or there is one caller |
| AddEntryRace.TornIncrementReachesAnyRow | src/shared/ServerStats.cpp:138-146 | with the increment as a load and a store and two callers, schedules write every 32-bit row number past the page |
| AddEntryRace.SlotBoundHoldsExactly | src/shared/ServerStats.cpp:135-148 | rows stay below page size plus callers minus one exactly when the increment is one step, there is one caller, or no 32-bit number is beyond |
| AddEntryRace.SlotBoundIsReached | src/shared/ServerStats.cpp:135-148 | for every number of callers some schedule writes the last row below that bound |
| AddEntryRace.InBoundsExactlyForOneCaller | src/shared/ServerStats.cpp:136-147 | all writes are in bounds under every schedule exactly for one caller |
| AddEntryRace.NoBoundForTornIncrement | src/shared/ServerStats.cpp:138-146 | with two callers and a torn increment only the width of the cursor bounds the rows |
| AddEntryPage.CallsOnOnePage | src/shared/ServerStats.cpp:135-148 | calls of all threads that fit one page, under every schedule and either increment, stay in it, are logged once each, in turn within a thread, and leave the ring as the same calls made in lock order |
| AddEntryPage.OneCallerKeepsTheRing | src/shared/ServerStats.cpp:135-148 | with one caller, any number of calls leaves cursor, active buffer and every row as the plain log says, page after page |
| QueryUid.LocalUidsCollideExactly | src/shared/Utils.cpp:18-25 | client identifiers agree exactly when first octet, last octet and nibble agree |
| QueryUid.LocalUidBits | src/shared/Utils.cpp:19-24 | from the top the identifier is the first octet three times, the last octet, the nibble and 28 zeros |
| QueryUid.LocalUidLeavesLowBitsFree | src/shared/Utils.cpp:24 | a client identifier leaves the low 28 bits to the query number |
| QueryUid.DecodeEncode | data_analysis/plot_utils.py:28-29 | shift and mask give back the client part and the query number modulo 2^28 |
| QueryUid.QueryUidsCollideExactly | src/shared/Utils.cpp:28-30 | query identifiers agree exactly when client and query number modulo 2^28 agree |
| QueryUid.FirstQueriesAreUnique | src/shared/Utils.cpp:28-30 | the first 2^28 queries of all clients have distinct identifiers |
| QueryUid.DifferentAddressesAreDisjoint | src/shared/Utils.cpp:19-30 | clients whose first or last octet differ never share an identifier, whatever the nibbles |
| QueryUid.WireRoundTrip | src/dep/if/mock_message_board.thrift:3-13 | the signed 64-bit cast on the wire loses nothing |
| TraceReader.QueriesOccur | data_analysis/plot_utils.py:32-33 | a query has a group exactly when the log names it |
| TraceReader.IssuedIdsAreInjective | src/Client/Client.cpp:96-99 | identifiers issued by clients that count below 2^28 are distinct |
| TraceReader.TableRecoversTimes | data_analysis/plot_utils.py:19-36 | through ring, file, reader and grouping the first and second logged time of a query arrive as start and end, in milliseconds after the start of the axis, under its client part and number |
| TraceReader.LeaveFile | src/shared/ServerStats.h:54-78 | the file a service leaves is the one the reader is given, and reads as the whole log when it fits a page |
| TraceReader.EarliestIsEarliest | data_analysis/plot_utils.py:22-24 | the start of the time axis is the time of some client entry, and none is before it |
| TraceReader.AxisStartsAtFirstTrace | data_analysis/plot_utils.py:22-26 | in every run in which the client has logged, some client trace starts at exactly zero |
| TraceReader.FinishedQueriesAreReconstructed | data_analysis/plot_utils.py:19-47 | for every finished query of every run the tables show nested spans of exactly the services it went through, with non-negative times |
| TraceReader.AllQueriesArePartlyReconstructed | data_analysis/plot_utils.py:19-47 | whatever the tables show of any query, finished or not, does not run backwards or below zero and lies inside the trace of the caller |
| LoadWindow.WindowIsKept | src/dep/perf/cpp2/util/Runner.h:50-58 | over every list of deliveries the outstanding counter is the live callbacks, open streams and operations outside the build, never above the window and below it only by the streams ended since the last refill; every draw is outstanding or was ended once |
| LoadWindow.RestsExactlyWhenHeld | src/dep/perf/cpp2/util/StreamOps.h:186-196 | some list of deliveries leads from the start to a state in which nothing can happen any more exactly when, sooner or later, the draws hold a window full of streams and operations outside the build |
| LoadWindow.StreamsOnlyComeToRest | src/dep/perf/cpp2/util/StreamOps.h:191-196 | with streams only, each completion takes one stream out of the window for good, and after a window of completions nothing is left |
| LoadWindow.CountersAccountForDraws | src/dep/perf/cpp2/util/SimpleOps.h:55-83 | over every run the counters together show each drawn operation that is no longer outstanding, except completed streams and failed oneway calls, and each stream item |
| LoadWindow.CountersShowTheirEvents | src/dep/perf/cpp2/util/SimpleOps.h:55-83 | over every run each counter equals the number of events it stands for, listed name by name: good replies of its operations, time-outs, errors, fatal failures, oneway calls sent, stream items |
| LoadRunner.Operation.constructor | src/dep/perf/cpp2/util/Operation.h:50-63 | registers every name it will count, keeping counters that exist |
| LoadRunner.Operation.Async | src/dep/perf/cpp2/util/Operation.h:68-104 | takes one slot, for a live callback, an open stream, or an operation outside the build |
| LoadRunner.Operation.StreamEvent | src/dep/perf/cpp2/util/StreamOps.h:183-197 | counts items and failures; an end gives back its slot and refills nothing |
| LoadRunner.LoadCallback.RequestSent | src/dep/perf/cpp2/util/Runner.h:83-88 | ends and counts a oneway call, refills, and does nothing to any other; the runner is then where the step system says |
| LoadRunner.LoadCallback.ReplyReceived | src/dep/perf/cpp2/util/Runner.h:89-95 | is one delivery of the step system: the call ends, the one counter that stands for its outcome grows by one and the window is refilled |
| LoadRunner.LoadCallback.RequestError | src/dep/perf/cpp2/util/Runner.h:96-99 | is one delivery of the step system: the call ends, an error is counted unless it was a oneway call, and the window is refilled |
| LoadRunner.LoadCallback.FutureReady | src/dep/perf/cpp2/util/SimpleOps.h:240-267 | is one delivery of the step system, counted once, by the counter that stands for it, although the callback is made as well |
| LoadRunner.Runner.Run | src/dep/perf/cpp2/util/Runner.h:50-58 | terminates, issues exactly what the window lacks, and leaves it full |
| LoadRunner.Runner.OnStream | src/dep/perf/cpp2/util/StreamOps.h:186-196 | is one delivery of the step system that refills nothing |
| LoadRunner.CounterIsTrue | src/dep/perf/cpp2/util/Operation.h:68-174 | between events the counter field is the live callbacks, open streams and operations outside the build, within the window |
| LoadRunner.TotalsShowTheirEvents | src/dep/perf/cpp2/util/SimpleOps.h:57-73 | between events the statistics show under every name exactly the deliveries that name stands for |
| LoadRunner.CountersAddUpToDraws | src/dep/perf/cpp2/util/SimpleOps.h:55-83 | between events the counters of the statistics add up to what was drawn and is not outstanding, but for the silent ends and the stream items; exactly so without oneway calls and streams |
| LoadRunner.RestingRunnerDrewHolders | src/dep/perf/cpp2/util/Operation.h:101-102 | a runner with no callback and no stream left has drawn a window full of operations that no refill follows |
| LoadRunner.Start | src/dep/perf/cpp2/client/Client.cpp:82-108 | a client thread enters its event loop with a full window |
| QpsStats.Counter.Print | src/dep/perf/cpp2/util/Counter.h:43-54 | rates times seconds add up to the count, and the stored maximum is the largest rate printed |
| QpsStats.HighestIsMaximum | src/dep/perf/cpp2/util/Counter.h:47 | that value is one of the rates, or zero, and none is above it |
| QpsStats.QPSStats.RegisterCounter | src/dep/perf/cpp2/util/QPSStats.h:41-49 | registering again never resets a count |
| QpsStats.QPSStats.Add | src/dep/perf/cpp2/util/QPSStats.h:51-53 | only a registered name may be counted, and only its count changes |
| QpsStats.QPSStats.PrintStats | src/dep/perf/cpp2/util/QPSStats.h:33-39 | prints every counter once for the same number of seconds, and sums up the rates printed |
| QpsStats.ReportLoop | src/dep/perf/cpp2/client/Client.cpp:117-133 | goes on to its last round and no further; each round's reports cover the seconds slept; every counter ends at its start plus what arrived in these rounds, and its rates account for that |
| QpsStats.SleepsFillRunningTime | src/dep/perf/cpp2/client/Client.cpp:123-131 | the sleeps up to the last round add up to the running time exactly, none longer than the interval |
| QpsStats.RoundsAreLeast | src/dep/perf/cpp2/client/Client.cpp:123-131 | there are as many rounds as the running time divided by the interval, rounded up |
| QpsStats.ReportingEndsExactly | src/dep/perf/cpp2/client/Client.cpp:122-133 | the loop has a last round exactly for a positive interval, or one not below a negative running time |
| ClientLoop.KindsAddUp | src/Client/Client.cpp:152-160 | of n calls n / 2 are finds and the rest sends, each pending, answered or failed |
| ClientLoop.Client.OnReply | src/Client/Client.cpp:36-48 | counts one success of the call's kind |
| ClientLoop.Client.Run | src/Client/Client.cpp:96-139 | each call ends as it was first told to; when all are complete, successes and errors of each kind add up to the calls issued |
| ChatRoom.ChatRoomService.GetMessages | src/old/example/server/ChatRoomService.cpp:26-46 | delivers the next batch from the token and the token after it; nothing from a token outside the list |
| ChatRoom.ChatRoomService.SendMessage | src/old/example/server/ChatRoomService.cpp:48-59 | appends the message |
| ChatRoom.ExactlyOnceInOrder | src/old/example/server/ChatRoomService.cpp:26-59 | in every interleaving the poller has received exactly the messages sent, in order, up to its token |
| ChatRoom.PollsToTheEnd | src/old/example/server/ChatRoomService.cpp:32-41 | once sends stop, n polls have delivered everything exactly when n reaches remaining / limit rounded up and the list is shorter than 2^31 |
| ChatRoom.CastWraps | src/old/example/server/ChatRoomService.cpp:34 | the size read as a 32-bit int is the number in its range that differs by a multiple of 2^32 |
| ChatRoom.NoLimitNoDelivery | src/old/example/server/ChatRoomService.cpp:21-36 | a limit below one never delivers anything |
| ParseArgs.OwnerIsNearest | src/cmake_module/FBCMakeParseArgs.cmake:59-90 | the owner of a value is the nearest keyword before it with no option in between |
| ParseArgs.PlacesPartition | src/cmake_module/FBCMakeParseArgs.cmake:59-90 | every value argument belongs to exactly one owner or to the unrecognized ones, in call order |
| ParseArgs.ValuesStandAtPlaces | src/cmake_module/FBCMakeParseArgs.cmake:66-79 | a group lists the arguments at its places |
| ParseArgs.FoldEncodes | src/cmake_module/FBCMakeParseArgs.cmake:73-83 | after any arguments the variables of a keyword hold its joined values and both flags |
| ParseArgs.FaithfulExactly | src/cmake_module/FBCMakeParseArgs.cmake:55-90 | the text of every keyword, read with its flag, denotes its values for all arguments exactly when no keyword is VALUES_ followed by another |
| ParseArgs.ClashMisreads | src/cmake_module/FBCMakeParseArgs.cmake:78-83 | with such a pair a keyword nobody mentioned seems to have an empty value |
| ParseArgs.ClashInventsMention | src/cmake_module/FBCMakeParseArgs.cmake:83-116 | with a value name VALUES_x, the correct call of a keyword x with one value fails if that is a one-value name, and otherwise sets it although it was not mentioned |
| ParseArgs.ClashHidesMissingValue | src/cmake_module/FBCMakeParseArgs.cmake:92-109 | the call VALUES_x, x returns with x set to an empty value it was never given, exactly when VALUES_x is not itself a one-value keyword |
| ParseArgs.UnparsedFaithfulExactly | src/cmake_module/FBCMakeParseArgs.cmake:66-67 | the text of the unrecognized arguments denotes them exactly unless the first of several is empty |
| ParseArgs.FbCmakeParseArgs | src/cmake_module/FBCMakeParseArgs.cmake:32-141 | the loops over local variables compute the outcome that the lemmas are about |
| ParseArgs.CallsAreDecidedExactly | src/cmake_module/FBCMakeParseArgs.cmake:32-141 | every call returns exactly when it has no unknown extra argument, its arities pass and unrecognized arguments are absent or allowed, and then reports every declared name and the unrecognized arguments, if and only if no declared value name is VALUES_ followed by a keyword |
| ParseArgs.UnknownExtraFails | src/cmake_module/FBCMakeParseArgs.cmake:33-42 | an extra argument other than ALLOW_UNPARSED_ARGS fails the call and the first one is named |
| ParseArgs.UnrecognizedFails | src/cmake_module/FBCMakeParseArgs.cmake:134-140 | unrecognized arguments that are not allowed fail the call, whatever was declared |
| ParseArgs.ArityFailureIsNamed | src/cmake_module/FBCMakeParseArgs.cmake:92-118 | a failed arity is reported for the first one-value name without exactly one value, and says which way it failed |
| ParseArgs.ArityIsCheckedExactly | src/cmake_module/FBCMakeParseArgs.cmake:92-130 | every call without unrecognized arguments fails exactly when a one-value keyword is mentioned without exactly one value, and otherwise reports every keyword and option, if and only if no declared value name is VALUES_ followed by a keyword |
| ParseArgs.ArgumentsArriveExactly | src/cmake_module/FBCMakeParseArgs.cmake:59 | a list passed as one string arrives as it was, except a single empty element |

## Left out

- ServerStats.ServerStatsManager.AddEntry: one caller at a time; concurrent callers are the subject of AddEntryRace and AddEntryPage.
- AddEntryPage.CallsOnOnePage: nothing is said about memory once the calls outnumber the rows of a page, when writes can leave it.
- Csv.DumpMatrix: rows shorter than the first one, and a first row without a column, for which the original reads past the end of a row.
- ChatRoom.ChatRoomService.GetMessages: a negative token from which something would be delivered; the original then reads before the list.
- QpsStats.QPSStats.PrintStats: rates are reals, 32-bit counts do not wrap, and the order of printing is left open.
- QpsStats.ReportLoop: intervals for which the loop never ends; ReportingEndsExactly says which they are. The 32-bit elapsed time does not wrap.
- ParseArgs.CallsAreDecidedExactly: the other declared names of a call with unrecognized arguments when UNPARSED_ARGUMENTS is itself a declared name, which is then overwritten.
- ParseArgs.FbCmakeParseArgs: what the calling scope already holds under the names VALUES_x, SEEN_x, all_args or ALLOW_UNPARSED_ARGS, and CMake's rules for brackets and backslashes inside lists.
- LoadRunner.Start: one client thread with statistics of its own; several threads share them in the original and each adds its own events.
- LoadRunner.LoadCallback.ReplyReceived: the check of the sum's value, which aborts the process; callbacks delivered from inside the issuing call.
- Latency.AsyncTakesLongest: queueing and transport time.
- The message board's RPC failures and timeouts; the timeouts are set to zero, that is off, in the original.
- The per-thread client caches of the blocking build, event bases, sockets, serialization, logging and server start-up.
- The benchmark server's handlers, chunk contents, weights and transports.
- The LOCALHOST form of the client identifier, plotting, and the merge of the four tables into one.
- Older copies and examples: src/old apart from the chat room, old clients, and the build-system lookups.
