# jkit, modelled in Dafny

jkit is a C++ library of fiber utilities, an HTTP server and an HTTP client. This project models the
parts of it where the difficulty lies and proves what they promise, for all inputs and all runs:

- **Join and race of fibers** (`FiberChannel`, `WaitProtocol`, `WaitInvariant`, `WaitTheorems`,
  `WaitProgress`, `WaitPrompt`, `WaitReplay`, `DoneProtocol`, `BarrierProtocol`). N producer fibers and the
  calling fiber share a bounded channel, the `nchannel` facade, a barrier or a flag with a condition
  variable. Each is a labelled transition
  system: a label is one atomic step of one fiber, a run is any sequence of labels each enabled where it
  is taken, so every interleaving of every number of tasks is covered. A push on the facade is three
  steps (push, count down, close), and fibers are launched one by one while earlier ones already run.
  The channel, the facade, the flag and the call itself are also classes with fields updated in place;
  running any schedule on those objects leads where the transition system says.
- **Keep-alive connections** (`ConnPool`, `PoolProtocol`, `PoolTheorems`, `PoolHistory`). `HttpCache` is a class whose
  loops are proved equal to functions on lists of entries; requests then run over those functions as a
  transition system with a clock, in which every lock-guarded block and every read of the clock is one
  step and the network is nondeterministic. The http and the https list are the same code up to TLS
  settings, which the request arguments carry.
- **Server shutdown** (`ServerShutdown`, `ServerAccept`). The accept fiber, the session fibers and `stop()` over one
  start/stop cycle, as a transition system and as a class replayed against it.
- **URL and query text** (`UrlText`, `UrlParser`, `Percent`, `QueryString`). The cursor-moving parsers are
  methods proved against specifications that cut text at delimiters; of these an exact grammar, round
  trips, exact error conditions and exact failure conditions are proved. `SeqFacts` holds shared facts.

In each transition system `Enabled` says when a step can be taken, `Apply` what it does, `Exec` where a
sequence of labels leads, and `Legal` that it is a run. Theorems are stated of `Exec(ls)` for every legal
`ls`; history such as the order of pushes or the reading of a clock is read off `ls` itself. `Alone(ls, run)`
says that `run` continues `ls` with steps of one fiber only: what a fiber can reach alone, it need not wait
for anybody else to reach.

## Assumptions

- The channel is first-in first-out; push waits while the buffer is full and reports closed once the
  channel is closed; pop drains the buffer before it reports closed. The capacity is any number from 1 on,
  because how many of the 64 slots the ring buffer really offers is the fiber library's decision.
- The facade's decrement and test is one step (the counter is not atomic in the source). Tasks whose
  exceptions are not captured do not throw.
- A condition variable may wake its waiter spuriously; testing the predicate and going to sleep is one
  step under the mutex.
- The clock of the client does not run backwards.
- Closing the server's acceptor aborts the accept that is pending on it and nothing else; an accept issued
  on a closed acceptor fails with another error
  (`third_party/include/boost/asio/detail/impl/epoll_reactor.ipp:232-243` and `:346-391`).
- Scheme characters are ASCII, and a port fits in an int.

## Where the code and its comments differ

The model follows the code.

- `wait_first_simple` with no functions is said to return at once; the caller sleeps for ever, and only
  then (`DoneProtocol.CallerSleepsIff`). `wait_first_value_c` and `wait_first_outcome_c` on an empty vector
  wait for an item that cannot come, and nothing else makes a caller wait for ever
  (`WaitProgress.CallerWaitsIff`); `wait_first_success_c` then throws an empty list.
- After `wait_all_until_error` throws, nobody pops and the channel stays open, so producers may wait for
  ever. Some schedule does this to a producer iff a task fails and N > cap + 1 (`WaitProgress.StrandsIff`),
  every schedule does iff more than cap + 1 tasks fail (`WaitProgress.AlwaysStrandsIff`), and the possible
  numbers of such producers are exact (`WaitProgress.StrandedCounts`).
- `stop()` completes only if an accept is pending when it closes the acceptor
  (`ServerShutdown.StopCompletesIff`). If the acceptor is not open yet, the close is lost and the join never
  returns. If the accept fiber is between two accepts, it issues the next one on a closed acceptor, and the
  exception it throws ends the process (`ServerShutdown.CloseCanBeMistimed`).
- The scheme is documented as one or more characters; an empty one is accepted. A port of 0 is documented
  as valid; `GetPort` rejects it (`UrlParser.GetPortIff`).
- `Percent::encode` does not escape `%`, so decoding does not always undo it; `Percent.RoundTrip` says
  exactly when it does.

## Model

| member | source | states |
|---|---|---|
| FiberChannel.NChannel.constructor | common/fiber/wait_stuff.hpp:485-493 | A facade over zero items closes the channel at construction and otherwise leaves it alone. |
| FiberChannel.NChannel.Push | common/fiber/wait_stuff.hpp:495-504 | An uninterrupted push: a refused one changes nothing; a successful one appends, counts, and closes the channel exactly when the counter reaches zero. |
| WaitInvariant.CountStep | common/fiber/wait_stuff.hpp:495-504 | Every step keeps: the counter is N minus the counted pushes, at most one producer is about to close, the channel is closed only at zero, and at zero it is closed or about to be. |
| WaitInvariant.ClosedMeansAllTallied | common/fiber/wait_stuff.hpp:498-502 | Once the counter is zero, every producer's push has been accepted and counted. |
| WaitInvariant.InvRun | common/fiber/wait_stuff.hpp:482-509 | In every state of every run, for every N, capacity and interleaving: the pushed tasks are the popped ones followed by the buffered ones, without repetition, and are exactly the accepted producers; the counter and the closing of the channel agree; and results, exceptions and verdict agree with what was popped. |
| WaitTheorems.HistoryIsPushOrder | common/fiber/wait_stuff.hpp:495-504 | The channel's history is the order of the successful pushes in the run. |
| WaitTheorems.CountedPushesAllSucceed | common/fiber/wait_stuff.hpp:482-509 | Behind the facade no push ever returns closed, the counter never wraps, and a closed channel means all N pushes succeeded, all N were counted, and every producer has ended. |
| WaitTheorems.EveryRunEnds | common/fiber/wait_stuff.hpp:561-624 | No run of N tasks is longer than 6N + 2 steps, whatever the schedule. |
| WaitTheorems.MaximalRuns | common/fiber/wait_stuff.hpp:99-809 | A run that cannot go on has the caller returned or thrown, except the first-value and first-outcome variants on zero functions, and every producer ended or waiting in push; after wait_all_until_error has thrown, those waiting are exactly max(0, N - popped - cap), and otherwise there are none. |
| WaitProgress.EveryRunGoesOn | common/fiber/wait_stuff.hpp:99-809 | Every run, of any variant, goes on to one in which nobody can move. |
| WaitProgress.CallerWaitsIff | common/fiber/wait_stuff.hpp:239-260 | Some schedule leaves the caller waiting for ever iff the variant is first-value or first-outcome and there are no functions. |
| WaitProgress.StrandsIff | common/fiber/wait_stuff.hpp:662-731 | Some schedule leaves a producer waiting for ever iff the variant is wait_all_until_error, some task fails, and N > cap + 1. |
| WaitProgress.AlwaysStrandsIff | common/fiber/wait_stuff.hpp:662-731 | For wait_all_until_error with a failing task, every schedule leaves a producer waiting for ever iff more than cap + 1 tasks fail. |
| WaitProgress.StrandedCounts | common/fiber/wait_stuff.hpp:662-731 | The numbers of producers that can be left waiting are exactly max(0, N - p - cap) for p from 1 to the number of succeeding tasks plus 1. |
| WaitProgress.RunThatPops | common/fiber/wait_stuff.hpp:662-731 | For each such p there is a maximal run of wait_all_until_error that pops exactly p outcomes, the last one a failure. |
| WaitProgress.PossibleOrders | common/fiber/wait_stuff.hpp:99-809 | The outcomes the caller pops can be those of any tasks in any order, for every N, iff the variant goes on popping after all but the last: every task can win the race. |
| WaitPrompt.CallerEndsAloneIff | common/fiber/wait_stuff.hpp:139-809 | The caller can end its call by its own steps alone iff what it waits for has been pushed: for a race the first outcome, whatever the other tasks are doing; for the first success a success or all N failures; for until_error a failure or the closing of the channel; for collect_errors the closing. |
| WaitPrompt.LaunchesAlone | common/fiber/wait_stuff.hpp:99-125 | The caller launches all N tasks without waiting for any of them. |
| WaitPrompt.TaskEndsAloneIff | common/fiber/wait_stuff.hpp:495-504 | A producer can end by its own steps alone iff it has been launched and its push has succeeded, or the channel is closed, or fewer than cap outcomes are in it. |
| WaitTheorems.VerdictIsFinal | common/fiber/wait_stuff.hpp:139-143 | Once the call has ended, no continuation changes its result. |
| WaitTheorems.WaitFirstOutcome | common/fiber/wait_stuff.hpp:219-260 | wait_first_value and wait_first_outcome end with the outcome of the first successful push. |
| WaitTheorems.WaitFirstSuccess | common/fiber/wait_stuff.hpp:310-385 | The call throws iff every task failed, then with all N errors in push order; otherwise it returns the first success in push order. |
| WaitTheorems.WaitAllUntilError | common/fiber/wait_stuff.hpp:662-731 | The call throws iff some task failed, then the first failure in push order with only successes popped before it; otherwise it returns all N tasks in push order. |
| WaitTheorems.WaitAllCollectErrors | common/fiber/wait_stuff.hpp:744-809 | Every task lands exactly once on exactly one side, successes plus errors are N, both in push order, and the call throws iff some task failed. |
| WaitTheorems.ReturnedValues | common/fiber/wait_stuff.hpp:605-624 | A returned vector holds exactly the tasks' values as a multiset, in push order. |
| WaitReplay.Call.Attempt | common/fiber/wait_stuff.hpp:495-504 | One push attempt on the channel object is the push, the refusal, or no step of the transition system, as the channel's status decides. |
| WaitReplay.Call.Take | common/fiber/wait_stuff.hpp:605-624 | One pop attempt of the caller on the channel object, with what the caller then does with the outcome, is the pop, the closed step, or no step, as the channel's status decides. |
| WaitReplay.Replay | common/fiber/wait_stuff.hpp:482-809 | Any run, of any variant, carried out on the channel, the facade and the call's variables in place ends in the state the transition system gives it. |
| DoneProtocol.InvStep | common/fiber/wait_stuff.hpp:25-46 | Every step keeps: the flag is set iff some fiber has written it, and a waiter asleep with the flag set has a notify pending. |
| DoneProtocol.NoLostWakeup | common/fiber/wait_stuff.hpp:25-91 | The caller returns only after some function completed, and is not asleep once the flag is set and no notify is pending. |
| DoneProtocol.MaximalRuns | common/fiber/wait_stuff.hpp:60-91 | A run that cannot go on has all fibers ended and the caller returned iff there is a function; with none it sleeps for ever. |
| DoneProtocol.EveryRunEnds | common/fiber/wait_stuff.hpp:60-91 | At most 5N + 2 steps, plus two per spurious wakeup. |
| DoneProtocol.EveryRunGoesOn | common/fiber/wait_stuff.hpp:60-91 | Every run goes on to one that cannot go on. |
| DoneProtocol.CallerSleepsIff | common/fiber/wait_stuff.hpp:49-91 | Some schedule leaves the caller asleep for ever iff there are no functions. |
| DoneProtocol.CallerReturnsIff | common/fiber/wait_stuff.hpp:25-91 | The caller can return by its own steps and pending notifies, with no further function completing, iff some fiber has written the flag. |
| DoneProtocol.LaunchesAlone | common/fiber/wait_stuff.hpp:49-66 | The caller launches all functions without waiting for any of them. |
| DoneProtocol.TaskEndsAlone | common/fiber/wait_stuff.hpp:60-66 | A launched fiber runs to its end by its own steps alone. |
| DoneProtocol.Replay | common/fiber/wait_stuff.hpp:25-46 | Any run carried out on the flag object, critical section by critical section, ends in the state the transition system gives it; the notify wakes the caller exactly when it is queued. |
| BarrierProtocol.InvStep | common/fiber/wait_stuff.hpp:428-457 | Every step keeps: missing arrivals plus arrivals are N + 1, and nobody has passed unless everybody is inside. |
| BarrierProtocol.BarrierJoins | common/fiber/wait_stuff.hpp:428-472 | Whoever is past the barrier, the caller included, is there only after all N + 1 parties completed their functions and arrived. |
| BarrierProtocol.MaximalRuns | common/fiber/wait_stuff.hpp:461-472 | A run that cannot go on has released the caller and all N fibers. |
| BarrierProtocol.EveryRunEnds | common/fiber/wait_stuff.hpp:461-472 | No run is longer than 4(N + 1) steps. |
| BarrierProtocol.EveryRunGoesOn | common/fiber/wait_stuff.hpp:428-472 | Every run goes on to one in which the caller and all N fibers are past the barrier. |
| BarrierProtocol.ArrivesAlone | common/fiber/wait_stuff.hpp:428-457 | A launched party comes to the barrier by its own steps alone, and the caller launches all others alone. |
| BarrierProtocol.PassesAloneIff | common/fiber/wait_stuff.hpp:428-472 | A party gets past the barrier by its own steps alone iff all the others have arrived. |
| ConnPool.FindIdle | http/multi_client_http.cpp:110-113 | The first entry that is idle and has the same host and port, or none. |
| ConnPool.FindConn | http/multi_client_http.cpp:161-164 | The first entry for a connection, or none. |
| ConnPool.SweepKeeps | http/multi_client_http.cpp:192-211 | A sweep keeps exactly the entries in use or idle for at most 55 seconds. |
| ConnPool.SweepEach | http/multi_client_http.cpp:192-211 | A sweep decides about each entry alone and leaves the others in their order. |
| ConnPool.HttpCache.DeleteTimeout | http/multi_client_http.cpp:188-212 | The erase-while-iterating loop leaves the order-preserving filter of the list. |
| ConnPool.HttpCache.LeaseIdle | http/multi_client_http.cpp:108-123 | Leases the first connection that was idle and open to this host and this port, with the new settings and time, changes no other, and returns null iff there is none. |
| ConnPool.HttpCache.Insert | http/multi_client_http.cpp:147-155 | Appends the new connection, in use and stamped. |
| ConnPool.HttpCache.ReleaseConnect | http/multi_client_http.cpp:158-172 | Marks the connection idle and stamps it with the time, and changes nothing else of it and no other connection. |
| ConnPool.HttpCache.DeleteInvalid | http/multi_client_http.cpp:174-186 | Removes the connection and keeps the others in order. |
| PoolProtocol.InvRun | http/multi_client_http.cpp:105-212 | In every state of every run connections are distinct, entries in use and holders correspond one to one, and what a swept request can find idle is fresh. |
| PoolProtocol.GrantLease | http/multi_client_http.cpp:113-120 | Leasing or inserting a free connection keeps leases exclusive. |
| PoolProtocol.EndLease | http/multi_client_http.cpp:595-605 | Releasing or deleting a connection keeps leases exclusive. |
| PoolTheorems.ExclusiveLeases | http/multi_client_http.cpp:541-607 | Each entry in use has exactly one holder; each holder's connection is on the list where release and delete find it; with no request in flight no entry is in use. |
| PoolTheorems.StalenessBound | http/multi_client_http.cpp:107-122 | Every idle entry a request can find after its sweep was last used at most 55 seconds before its own, latest reading of the clock, whatever happened in between. |
| PoolTheorems.BoundedByDemand | http/multi_client_http.cpp:109-155 | For each host and port, entries plus connections being opened never exceed the number of requests in flight to it at some earlier or present moment of the run. |
| PoolHistory.HolderLeadsTo | http/multi_client_http.cpp:105-156 | Whoever holds a connection has the arguments it arrived with, and the connection was opened for a request that arrived with the same host and the same port. |
| PoolHistory.SearchReusesIff | http/multi_client_http.cpp:109-125 | A search leases an idle connection to the same host and port if there is one, and only otherwise opens one, under a fresh number. |
| PoolHistory.IdleSinceRelease | http/multi_client_http.cpp:158-172 | The time in an idle entry is the clock at the step that released it, and it has lain on the list unchanged since. |
| PoolHistory.FreshReuse | http/multi_client_http.cpp:107-122 | A connection a search can lease was released at most 55 seconds before the reading of the clock with which the request swept. |
| PoolHistory.LeavesIff | http/multi_client_http.cpp:174-212 | A connection leaves the list iff its holder deletes it or a sweep finds it idle for more than 55 seconds. |
| PoolHistory.ServedAlone | http/multi_client_http.cpp:105-156 | From every point of every run a request can get a connection by its own steps, whatever the other requests are doing. |
| PoolTheorems.MissIsDemand | http/multi_client_http.cpp:109-125 | Right after a search misses, entries plus openings for its host and port are at most the requests in flight to it. |
| PoolTheorems.LoadStep | http/multi_client_http.cpp:125-212 | No step other than such a miss raises entries plus openings for any host and port. |
| ServerShutdown.CounterIsBalance | http/http_api_server.cpp:219-229 | The counter is increments minus decrements along every run. |
| ServerShutdown.ShutdownSafety | http/http_api_server.cpp:209-273 | The counter is at least -1, and -1 exactly while the uncounted session has ended and no other lives; after the join it is the number of live sessions; the io context is stopped only when every accepted session has ended; stop() sleeps only while a session lives. |
| ServerShutdown.LastSessionWakesStop | http/http_api_server.cpp:219-224 | A session that ends wakes a sleeping stop() iff it is the last one alive. |
| ServerShutdown.CounterCanBeNegative | http/http_api_server.cpp:209-229 | A concrete run in which the counter is -1. |
| ServerShutdown.StopCompletesIff | http/http_api_server.cpp:182-277 | After stop() closes the acceptor, some continuation gets past the join, and some continuation stops the io context, iff an accept was pending at the close. |
| ServerShutdown.CloseCanBeMistimed | http/http_api_server.cpp:182-264 | Four concrete runs after which no continuation gets past the join: the close before the open, at the loop head, after an accept succeeded, and before the launched session is counted. |
| ServerShutdown.MaximalRuns | http/http_api_server.cpp:182-277 | A run that cannot go on has ended the process or has the accept fiber exited, every session ended and the io context stopped. |
| ServerAccept.ThrowsIff | http/http_api_server.cpp:170-206 | The process ends iff opening failed, or the accept fiber resumed from an accept that failed with an unexpected error or was issued on a closed acceptor. |
| ServerAccept.AcceptsAgainIff | http/http_api_server.cpp:182-231 | Some continuation has one more session iff the accept fiber alone can accept, launch and count one and come back to the head of its loop, in exactly the states listed. |
| ServerAccept.AcceptsUntilClosed | http/http_api_server.cpp:182-231 | Until the acceptor is closed that is possible at every point of every run, also after out-of-descriptor errors, unless opening or an accept has failed fatally. |
| ServerAccept.EndInAnyOrder | http/http_api_server.cpp:209-226 | Live sessions end in any order at any point of any run, each end removing that session only. |
| ServerAccept.StopAtAnyTime | http/http_api_server.cpp:256-277 | stop() may be called at any point, comes to the close at once, and can complete iff an accept is pending then. |
| ServerShutdown.FinishWitness | http/http_api_server.cpp:265-277 | From stop()'s test of the counter after the join, some continuation completes the shutdown, however many sessions still live. |
| ServerShutdown.Replay | http/http_api_server.cpp:182-277 | Any run carried out on the server object, each fiber in its own critical sections, ends in the state the transition system gives it; a session's end wakes stop() exactly when it notifies a sleeper. |
| UrlParser.IsSchemeValid | common/LUrlParser.cpp:35-43 | True iff every character is a letter, '+', '-' or '.'. |
| UrlText.SchemeTextIs | common/LUrlParser.cpp:35-43 | The class is exactly the letters of the two written-out alphabets, '+', '-' and '.'. |
| UrlText.LoweredIs | common/LUrlParser.cpp:88-89 | Lower-casing replaces each letter of the written-out upper-case alphabet by the one at the same place of the lower-case alphabet, and nothing else. |
| UrlText.CStringCuts | common/LUrlParser.cpp:63 | The text parsed is what comes before the first NUL character. |
| UrlParser.SkipTo | common/LUrlParser.cpp:133-148 | A scanning loop stops at the first delimiter or at the terminator, never behind it. |
| UrlParser.SkipHost | common/LUrlParser.cpp:164-184 | The host loop stops behind the first ']' of a bracketed host and before ':' or '/' of a plain one. |
| UrlParser.ReadUserInfo | common/LUrlParser.cpp:127-162 | The two scans yield the text before '@' split at its first ':'; the NoAtSign branch is unreachable. |
| UrlParser.ParseURL | common/LUrlParser.cpp:59-265 | The cursor-moving parser computes the delimiter-cutting specification on the text before the first NUL and reads nothing behind it; without a NUL it returns Ok(u) iff the text is a rendering of u. |
| UrlText.ParseExactly | common/LUrlParser.cpp:59-265 | The parser accepts exactly the texts of a grammar with optional delimiters, and returns exactly the parts the text was written from: Ok(u) iff the text is a rendering of u. |
| UrlText.RenderThenParse | common/LUrlParser.cpp:59-265 | Whichever optional delimiters are written, the written parts are read back. |
| UrlText.PrintThenParse | common/LUrlParser.cpp:59-265 | Parsing a well-formed URL printed with all its delimiters returns exactly its parts. |
| UrlText.ParseThenPrint | common/LUrlParser.cpp:59-265 | Every Ok result is well formed, or has an unterminated bracket host and nothing after it, and parse-print-parse equals parse. |
| UrlText.ParseErrors | common/LUrlParser.cpp:71-217 | Exactly when a text with a ':' gives InvalidSchemeName, NoDoubleSlash or NoSlash; NoAtSign never occurs, and NoSlash means a closed bracket host followed by something other than ':', '/' or the end. |
| UrlText.NoColonError | common/LUrlParser.cpp:73-78 | NoUrlCharacter iff there is no ':'. |
| UrlParser.UrlRoundTrip | common/LUrlParser.cpp:59-265 | The round trip from the string handed to ParseURL, when no part contains a NUL. |
| UrlParser.PortRoundTrip | common/LUrlParser.cpp:45-56 | A port printed in decimal is returned iff it lies in 1..65535. |
| UrlParser.GetPortIff | common/LUrlParser.cpp:45-56 | p is returned iff the URL is valid, p lies in 1..65535, and the port's text is blanks, an optional '+', zeros and p in decimal with anything but a digit behind. |
| Percent.EncodeLoop | common/web_utility.hpp:48-64 | The encoding loop computes the specification. |
| Percent.EncodeCharIs | common/web_utility.hpp:54-61 | A blank becomes '+', each of the 28 listed characters becomes '%' and its two upper-case hex digits, every other character stays. |
| Percent.EncodeConcat | common/web_utility.hpp:54-61 | Each character is encoded by itself. |
| Percent.DecodeLoop | common/web_utility.hpp:67-86 | The decoding loop computes the specification. |
| Percent.DecodePlain | common/web_utility.hpp:79-82 | In text without '%' a '+' is a blank and every other character stands for itself. |
| Percent.DecodePrefix | common/web_utility.hpp:71-82 | What comes before the first '%' is decoded on its own. |
| Percent.DecodeBlock | common/web_utility.hpp:73-77 | A '%' with two hex digits in any mix of cases is the byte they write, whatever comes before and after. |
| Percent.DecodeEnd | common/web_utility.hpp:73-82 | A '%' with fewer than two characters behind it is left as it is. |
| Percent.OneDigit | common/web_utility.hpp:74-75 | A hex digit followed by something else is the value of the digit. |
| Percent.SignedDigit | common/web_utility.hpp:74-75 | A digit may stand behind a blank or a sign; a minus wraps around in eight bits. |
| Percent.NoDigit | common/web_utility.hpp:74-75 | Two characters that strtol cannot read give the NUL character. |
| Percent.RoundTrip | common/web_utility.hpp:48-86 | Decoding undoes encoding iff at most one encoded character follows each '%'. |
| Percent.EscapeAllRoundTrip | common/web_utility.hpp:67-86 | Decoding undoes full percent encoding of any byte string, with hex digits in either case. |
| Percent.OnlyTwoFive | common/web_utility.hpp:73-76 | Of all pairs of characters, signs and blanks included, only "25" decodes to '%'. |
| Percent.EncodedIsDelimiterFree | common/web_utility.hpp:54-61 | Encoded text contains neither '&' nor '='. |
| Percent.PercentBreaks | common/web_utility.hpp:57-60 | A concrete value that does not survive. |
| QueryString.AtAmpersand | common/web_utility.hpp:154-163 | The block run at '&' yields the piece's name and decoded value, or nothing when the name is empty. |
| QueryString.AtEnd | common/web_utility.hpp:169-175 | The block run after the loop yields the parameters of the last piece, sentinels included. |
| QueryString.ParseQueryString | common/web_utility.hpp:143-178 | The one-pass scan with npos sentinels equals splitting on '&' and on the last '=', dropping empty names and decoding values; on any pieces joined by '&' it yields what the pieces stand for. |
| QueryString.QueryExactly | common/web_utility.hpp:143-178 | Every query is pieces joined by '&'; the result is what they stand for in order: a piece without '=' is a name with an empty value, one cut at its last '=' a name with the decoded rest, and one without a name is dropped. |
| QueryString.RawRoundTrip | common/web_utility.hpp:143-178 | Joined name=value pairs whose values contain no '%', '+', '&' or '=' come back unchanged. |
| QueryString.JoinThenParse | common/web_utility.hpp:143-178 | Parsing joined name=encode(value) pairs with good names returns the names with their values recoded. |
| QueryString.QueryRoundTrip | common/web_utility.hpp:143-178 | It returns exactly those pairs iff every name is non-empty and free of '&' and every value survives percent encoding. |
| QueryString.ParseTarget | common/web_utility.hpp:127-140 | The target is path, '?' and query, cut at the first '?'; without one the query variable keeps its value. |

## Left out

- Sockets, TLS, DNS, timers and the HTTP library: only as nondeterministic success or failure between steps.
- The HTTP status that `h1_req` reports for each failure: one assignment per branch.
- HTTP/2 pooling and `h2_req`: decided by callbacks of a library that is not part of this model.
- A second start/stop cycle of the server; of the exceptions `accept()` throws, only that they end the process.
- Eventual completion of a session blocked in a read: it depends on the peer.
- `wait_first_value_het` and `wait_all_members`: the first is wait_first_value over a variant, the second a sequence of future gets.
- `fiber_frame_context.hpp`, `use_fiber_future.hpp`, the database, JSON, logging and routing code: easy or library-bound.
- The hash and case-insensitive equality of the multimap that holds query parameters; parameters are listed in insertion order.
- `atoi` on numbers that do not fit in an int, and locales in which `isalpha` accepts more than ASCII letters.
- The layout of the one function that parses a URL: its loops are spread over one method per part of the URL.
