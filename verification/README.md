# A verified model of the key-value store, its fuzz tester and its benchmark

The repository holds a key-value store served over RPC, clients that speak a line-based
text protocol on their standard input and output, a fuzz tester that drives several such
clients at once and checks their answers online, and a YCSB benchmark driver. This project
models those programs in Dafny and proves what they promise.

The centre is the fuzz tester's consistency checker. It keeps a queue of responses, for
every key and client a list of update spans that it trims at the head, and one watermark
per client; it decides a response as soon as every client has moved past it. `Offline`
proves that this early, trimmed checker gives the verdicts of a checker that reads the
complete log of the whole run. `Linear` proves that a run which some total order explains
is never failed, and `OneClient` that with one client the checker is exact. `SystemModule`
closes the loop: fuzzer, channels, driver threads, client processes, text pipes, RPC
handlers and the mutex-protected store form one transition system, in which every
interleaving keeps an invariant, no run fails a check, calls and responses stay paired,
and (`Liveness`) no run deadlocks or goes on forever.

How the modules follow the program:

| module | models |
|---|---|
| `KvTypes`, `Lex` | calls, responses, the sequential map, the order of keys |
| `Spans`, `Online`, `HistoryModule` | the checks on spans, the online checker on values, and the class that updates it in place |
| `Offline`, `OneClient`, `Linear`, `Gaps`, `Meaning` | the complete-log checker, and what a verdict means and does not mean |
| `StoreModule`, `Server`, `Recorder`, `ServerRuns` | the sorted store, the handlers at the grain of single store operations under one mutex, and their linearization |
| `Text`, `Protocol`, `ClientModule` | words and lines, the printers and parsers, the client's dispatch loop |
| `Random`, `FuzzLoop`, `SystemModule`, `Liveness` | the fuzzer's choices and loop, the closed system, progress and termination |
| `Ycsb`, `StatsModule`, `RefCli` | the benchmark's translator and statistics, the reference client |

Conventions. Timestamps and counters are natural numbers. Strings are sequences of
characters, compared lexicographically; a token is a non-empty word without white space.
Random numbers are inputs: a scenario (`FuzzLoop.Scenario`) fixes what is drawn in every turn
and what a harvest would be answered, so one scenario has one run, and results for all
scenarios are results for all choices. In the closed system a choice is nondeterministic. A harvest happens at the logical time its timestamp
names. A total order of operations (`lin`) explains a list of harvested events when
replaying it on a plain map gives exactly the responses, it respects real time, and
whatever else took effect is still in flight (`Linear.Explains`).

Where the code and its comments differ, the model follows the code:

- `history.rs` calls itself an approximate causal checker. It rejects only what no total
  order explains, and it accepts more than that: `Gaps` gives the families it lets through
  and a run of four events that passes although no order explains it. `Meaning` gives a
  condition on one-client responses under which passing and being explained are the same.
- Scan includes its end key in the C++ store and leaves it out in the reference client;
  `RefCli.ScansAgreeIff` says exactly when the two agree. The reference client panics on a
  range whose start lies after its end; the store answers with an empty list.
- A response whose value is the word `null`, or a Scan with the entry `SCAN END`, does not
  survive printing and parsing; `Protocol.RoundTripIff` shows that these are the only ones
  among responses made of words.

## Model

| member | source | states |
|---|---|---|
| `Lex.FirstDifferenceDecides` | kvstore/in_memory_kvstore/in_memory_kvstore.cc:38-38 | two keys are ordered by the first character in which they differ |
| `Lex.ProperPrefixIsLess` | runner/src/bin/fuzzer/history.rs:282-282 | a proper prefix comes before the longer key, never after it |
| `KvTypes.RangeUnique` | kvstore/in_memory_kvstore/in_memory_kvstore.cc:35-42 | a map and a range have exactly one correct Scan answer |
| `KvTypes.RangeLookup` | runner/src/bin/fuzzer/history.rs:291-302 | a correct Scan answer, read as a map, agrees with the store on every key of the range, present or absent |
| `Spans.CheckClaim` | runner/src/bin/fuzzer/history.rs:199-268 | the reverse scans with early exit return true exactly when some client has a matching span called before the response with no later span of that client completed before the call |
| `Spans.CheckScan` | runner/src/bin/fuzzer/history.rs:272-304 | accepts exactly when the entries are in range and distinct and every tracked key of the range is justified, whatever order the table is visited in |
| `Spans.CheckCall` | runner/src/bin/fuzzer/history.rs:152-196 | one queue entry is accepted exactly when its response is justified; an untracked key or a Stop is rejected |
| `HistoryModule.History.constructor` | runner/src/bin/fuzzer/history.rs:39-64 | every pool key starts with one dummy deletion per client, an empty queue and zero watermarks |
| `HistoryModule.History.AddToQueue` | runner/src/bin/fuzzer/history.rs:67-76 | under the code's assertions the response joins the end of the queue and nothing else changes |
| `HistoryModule.History.QueueLen` | runner/src/bin/fuzzer/history.rs:79-81 | the number of responses not yet checked |
| `HistoryModule.TrimHeads` | runner/src/bin/fuzzer/history.rs:119-133 | the two loops over one client's list compute the trimmed list that the safety and tightness lemmas are about |
| `HistoryModule.History.ApplyUpdate` | runner/src/bin/fuzzer/history.rs:89-149 | the in-place update, trim and pop loops realise the online checker's step, verdict included |
| `Offline.SuffixSameVerdict` | runner/src/bin/fuzzer/history.rs:210-217 | spans cut off in front of a head that completed before the call cannot change any reverse scan |
| `Offline.TrimIsSafeAndTight` | runner/src/bin/fuzzer/history.rs:118-133 | trimming leaves a non-empty suffix whose head, if anything was cut, lies behind both horizons, and at most its head does |
| `Offline.NoQueueNoHorizon` | runner/src/bin/fuzzer/history.rs:111-116 | with an empty queue the second horizon holds nothing back |
| `Offline.TrimmingAlongRuns` | runner/src/bin/fuzzer/history.rs:110-133 | along every passing run each list is a safe suffix of that client's true log, and after an update tight for its key |
| `Offline.LaterCallsAreLater` | runner/src/bin/fuzzer/history.rs:109-143 | once a response is behind every watermark, whatever a client reports later was called after that response |
| `Offline.DecisionIsFinal` | runner/src/bin/fuzzer/history.rs:109-143 | a response decided on the log so far has the same verdict on the log of the whole run |
| `Offline.SafeTableDecides` | runner/src/bin/fuzzer/history.rs:138-142 | on every queued response the trimmed table and the complete log give the same verdict |
| `Offline.OnlineRefinesOffline` | runner/src/bin/fuzzer/history.rs:89-149 | for every well-formed run, honest or not: passed exactly when all update keys are tracked and the complete log accepts every response behind the watermark; the queue is the rest, in order; a violation names the first rejected response |
| `Offline.QueueAfterRun` | runner/src/bin/fuzzer/history.rs:135-145 | after a passing harvest the queue ends with the newest response and holds none that every client has moved past |
| `Offline.OneClientRemainder` | runner/src/bin/fuzzer/main.rs:185-189 | with one client the final queue is the last update and the reads after it, or everything when nothing was updated |
| `OneClient.KeyVerdict` | runner/src/bin/fuzzer/history.rs:247-268 | with one client a claim about a key is accepted exactly when it fits the sequential map just before or just after the operation |
| `OneClient.ExactVerdict` | runner/src/bin/fuzzer/history.rs:152-196 | with one client the complete log accepts a response exactly when it fits the map before or after the operation |
| `OneClient.OnlineIsExact` | runner/src/bin/fuzzer/history.rs:89-149 | the trimmed checker passes a one-client run exactly when every response behind the watermark fits |
| `OneClient.ExactByKind` | runner/src/bin/fuzzer/history.rs:152-328 | the same kind by kind: Get equals the map, Scan lists it over tracked keys, and Put, Swap and Delete match the earlier state or their own update |
| `Linear.TruthJustified` | runner/src/bin/fuzzer/history.rs:209-218 | the true value of a key when an operation took effect is always visible: its last writer has been applied and is reached by the reverse scan |
| `Linear.TrueAnswerAccepted` | runner/src/bin/fuzzer/history.rs:152-196 | a response that the explaining order gives is accepted once it is behind the watermark |
| `Linear.NoFalseAlarms` | runner/src/bin/fuzzer/history.rs:89-149 | a run that some total order explains, on a store that starts without pool keys, passes the online checker |
| `Linear.RejectedIsNotLinearizable` | runner/src/bin/fuzzer/main.rs:136-159 | what the checker fails no total order on any such store explains |
| `Gaps.BlindSpot` | runner/src/bin/fuzzer/history.rs:209-218 | a Put that reports an earlier value, a Delete that reports none and a Swap that returns the value it wrote are accepted in every run |
| `Gaps.AcceptedIff` | runner/src/bin/fuzzer/history.rs:152-328 | with any number of clients and for every kind of response: what it claims of a key is accepted exactly when some client wrote a matching value by an update called before the response and completed none of its later ones before the call or, where absence fits the claim, completed no update of the key before the call; a Scan when its keys are distinct and in range and this holds of every pool key there |
| `Gaps.IdleClientExcusesAbsence` | runner/src/bin/fuzzer/history.rs:47-51 | for a key nobody deletes an absent answer is accepted exactly when one client has completed no update of it before the call |
| `Gaps.AcceptanceIsNotLinearizability` | runner/src/bin/fuzzer/history.rs:1-1 | a concrete two-client run passes although no total order explains it |
| `Meaning.AcceptedIffTrue` | runner/src/bin/fuzzer/history.rs:152-328 | with one client a response that the operation's own update cannot excuse (a Put not found, a Delete found, a Swap not echoing its value, any Get, a sorted Scan of pool keys) is accepted exactly when it is the sequential map's answer |
| `Meaning.TellingIff` | runner/src/bin/fuzzer/history.rs:199-244 | those responses on one key are exactly the ones the operation's own update does not match |
| `Meaning.PassesIffLinearizable` | runner/src/bin/fuzzer/history.rs:89-149 | a one-client run of such responses passes the trimmed checker exactly when some total order on an empty store explains every response behind the watermark |
| `StoreModule.LowerBound` | kvstore/in_memory_kvstore/in_memory_kvstore.cc:38-38 | everything before the position is less than the key, the entry there is not |
| `StoreModule.FindAgrees` | kvstore/in_memory_kvstore/in_memory_kvstore.cc:29-33 | the sorted entries find a key exactly when the map holds it, with the map's value |
| `StoreModule.AssignAgrees` | kvstore/in_memory_kvstore/in_memory_kvstore.cc:10-10 | assignment keeps the entries sorted and is the map update |
| `StoreModule.EraseAgrees` | kvstore/in_memory_kvstore/in_memory_kvstore.cc:48-48 | erasing keeps the entries sorted and removes exactly that key |
| `StoreModule.WriteThroughAgrees` | kvstore/in_memory_kvstore/in_memory_kvstore.cc:23-25 | writing through a valid iterator is the map update of its key |
| `StoreModule.SliceIsRange` | kvstore/in_memory_kvstore/in_memory_kvstore.cc:38-41 | the entries from the lower bound up to the first key past the end are exactly the map's inclusive range, in increasing order |
| `StoreModule.InMemoryKVStore.Put` | kvstore/in_memory_kvstore/in_memory_kvstore.cc:3-12 | updates the map and says whether the key was there |
| `StoreModule.InMemoryKVStore.Swap` | kvstore/in_memory_kvstore/in_memory_kvstore.cc:14-26 | updates the map and returns the earlier value, if any |
| `StoreModule.InMemoryKVStore.Get` | kvstore/in_memory_kvstore/in_memory_kvstore.cc:28-33 | returns the map's value, if any |
| `StoreModule.InMemoryKVStore.Scan` | kvstore/in_memory_kvstore/in_memory_kvstore.cc:35-42 | the iterator loop returns exactly the inclusive range, empty when the start exceeds the end |
| `StoreModule.InMemoryKVStore.Delete` | kvstore/in_memory_kvstore/in_memory_kvstore.cc:44-49 | removes the key and says whether it was there |
| `Server.AdvanceProgresses` | kvstore/in_memory_kvstore/server.cc:23-72 | a handler left alone in the critical section goes from stage to stage, never through a dangling iterator, until its reply answers the request on the map it found |
| `Server.StepExclusive` | kvstore/in_memory_kvstore/server.cc:23-72 | a step of the lock holder keeps mutual exclusion and its progress |
| `Server.UnlockExclusive` | kvstore/in_memory_kvstore/server.cc:30-65 | when the mutex is released the reply is the map's answer and the store is the map after the call |
| `ServerRuns.RepliesRecorded` | kvstore/in_memory_kvstore/server.cc:23-72 | the bookkeeping invents and misses nothing: its events are the replies that leave the service, one for every Respond with that handler's request and reply, and its order is that of the mutex releases |
| `ServerRuns.Linearizable` | kvstore/in_memory_kvstore/server.cc:23-72 | in every interleaving of lock, single store steps, each Scan iteration and unlock, the order of releases explains the list of all replies sent: it respects real time and its replay on a plain map gives exactly those replies, so a Scan is a snapshot |
| `ServerRuns.RepliesInOrder` | kvstore/in_memory_kvstore/server.cc:23-72 | in every interleaving all replies sent carry increasing times and no client has two calls open at once |
| `ServerRuns.StoreIsReplay` | kvstore/in_memory_kvstore/server.cc:23-72 | while the mutex is free the store holds exactly the map that this order of operations leaves |
| `ServerRuns.MutualExclusion` | kvstore/in_memory_kvstore/server.cc:24-24 | two handlers are never inside at once and no invalidated iterator is used |
| `ServerRuns.EveryThreadMoves` | kvstore/in_memory_kvstore/server.cc:23-72 | nothing but the mutex serialises the threads: in every reachable state each can receive, go on, reply or, with the mutex free, enter |
| `Text.WordsOfLine` | kvstore/in_memory_kvstore/client.cc:15-23 | splitting a printed line gives back its tokens |
| `Text.AnySpacesSeparate` | runner/src/ioapi.rs:94-97 | any run of the six ASCII white-space characters, and no other character, ends a word |
| `Text.NextLinePadded` | runner/src/ioapi.rs:79-92 | blank lines in front of a line are skipped and nothing after it is consumed |
| `ClientModule.SplitBySpace` | kvstore/in_memory_kvstore/client.cc:15-23 | the extraction loop yields the words of the line |
| `ClientModule.ReadNextLine` | runner/src/ioapi.rs:79-92 | the loop ends whenever a non-blank line remains and returns what was read up to it |
| `ClientModule.ReadEntries` | runner/src/ioapi.rs:165-177 | the entry loop yields the parsed Scan, or fails where the parser does, at the same place in the input |
| `ClientModule.FromRead` | runner/src/ioapi.rs:108-207 | reading one response realises the response parser, errors and remaining input included |
| `Protocol.CallRoundTrip` | kvstore/in_memory_kvstore/client.cc:41-193 | a printed call made of tokens is one line that the client dispatches as the request for that very call |
| `Protocol.CommandIff` | kvstore/in_memory_kvstore/client.cc:42-192 | a line is a request exactly when its words are those of the call, skipped exactly when blank, STOP exactly when that is its only word, unknown exactly when its first word is no command, and otherwise invalid |
| `Protocol.ResponseRead` | runner/src/ioapi.rs:108-207 | a printed response with blank lines before any of its lines is read back whole and nothing more |
| `Protocol.StreamRoundTrip` | runner/src/ioapi.rs:79-207 | any list of unambiguous token responses, printed with blank lines anywhere between lines, is read back as exactly that list and consumes the stream |
| `Protocol.RoundTripIff` | runner/src/ioapi.rs:133-177 | a token response survives exactly when no value is `null` and no entry is `SCAN END` |
| `Protocol.ReplyPrintsAsResponse` | kvstore/in_memory_kvstore/client.cc:67-181 | the client prints an RPC reply as the response the reply stands for |
| `Protocol.Transparent` | kvstore/in_memory_kvstore/client.cc:41-193 | printing a call, dispatching it, encoding the map's answer as a reply, printing and parsing it gives that answer |
| `Protocol.AnswerReadable` | runner/src/ioapi.rs:133-184 | answers of a map whose keys and values can be read back can themselves be read back |
| `Protocol.ReadableIffGetsSurvive` | runner/src/ioapi.rs:145-176 | a map is readable exactly when every Get of a stored key, and every Scan line, survives the trip |
| `ClientModule.ReadCommand` | kvstore/in_memory_kvstore/client.cc:42-192 | splitting a line and branching on its words realises the command parser that the round trips are about |
| `ClientModule.Serve` | kvstore/in_memory_kvstore/server.cc:23-72 | one RPC leaves the map after the call and a reply that means the map's answer |
| `ClientModule.ClientMain` | kvstore/in_memory_kvstore/client.cc:41-194 | the dispatch loop makes exactly the requests its input spells, prints replies that answer them in turn, and stops at end of input, at STOP or at a malformed command with status 1 |
| `ClientModule.CallsReadBack` | runner/src/ioapi.rs:23-34 | what a driver writes for a list of calls is dispatched as exactly those calls |
| `ClientModule.RepliesReadBack` | runner/src/ioapi.rs:108-207 | the printed replies of any run of requests are read back as the answers they stand for |
| `ClientModule.Conversation` | kvstore/in_memory_kvstore/client.cc:41-193 | over any list of calls with readable words, a reader of the output gets exactly the sequential map's answers |
| `Random.GenRandClient` | runner/src/bin/fuzzer/random.rs:38-47 | whenever some drawn client has the wanted flying bit the retry loop returns the first such one, and the code's assertions hold |
| `Random.FairDrawsPick` | runner/src/bin/fuzzer/random.rs:38-47 | under the code's assertions draws in which every client comes up contain one with the wanted bit |
| `Random.EveryClientPicked` | runner/src/bin/fuzzer/random.rs:38-47 | any client with the wanted bit is the one picked for some draws |
| `Random.GenRandString` | runner/src/bin/fuzzer/random.rs:20-23 | an alphanumeric string of the wanted length, determined by the draws |
| `Random.GenRandKvCall` | runner/src/bin/fuzzer/random.rs:50-111 | a call on the client's own keys, with a random value of fixed length and Scan bounds in order, determined by the draws |
| `Random.EveryCallDrawn` | runner/src/bin/fuzzer/random.rs:50-111 | and every such call is drawn for some draws |
| `Random.ChoiceFollowsCoin` | runner/src/bin/fuzzer/random.rs:26-34 | with operations left, some client idle and some flying the random bit alone decides; otherwise the only possible branch is taken |
| `Random.CallWeights` | runner/src/bin/fuzzer/random.rs:50-111 | of ten equally likely picks two are Puts, two Swaps, three Gets, two Scans and one a Delete |
| `FuzzLoop.ChoiceAllowed` | runner/src/bin/fuzzer/random.rs:26-40 | whichever branch is chosen, the client picker's assertion holds |
| `FuzzLoop.HistoryAssertionsHold` | runner/src/bin/fuzzer/history.rs:67-102 | the debug assertions of the history hold at every harvest of every run |
| `FuzzLoop.TracedTracked` | runner/src/bin/fuzzer/main.rs:148-157 | generated updates only touch pool keys, so the unexpected-key branch is never taken |
| `FuzzLoop.RecordResponse` | runner/src/bin/fuzzer/main.rs:128-160 | queueing a response and applying its update is one step of the online checker |
| `FuzzLoop.MakeCall` | runner/src/bin/fuzzer/main.rs:97-109 | calling sets the memo and the bit of the drawn idle client, and of no other, to the drawn call at this time |
| `FuzzLoop.HarvestOne` | runner/src/bin/fuzzer/main.rs:110-163 | a harvest feeds the checker exactly one event, built from the drawn client's memo, this time and its response, and goes on, or breaks off at a Stop or a failed check |
| `FuzzLoop.FailsIffRejected` | runner/src/bin/fuzzer/main.rs:135-159 | where all update keys are tracked the online checker fails exactly the runs whose log rejects a response behind the watermark |
| `FuzzLoop.LoopAt` | runner/src/bin/fuzzer/main.rs:94-177 | after any number of turns the state agrees with the log of generated calls and their answers, or the loop has broken off at a Stop or a failed check |
| `FuzzLoop.TurnFollowsCoin` | runner/src/bin/fuzzer/main.rs:94-112 | a turn with the coin set makes a call while operations are left and some client is idle, in flight or not; one without it harvests while some client is flying |
| `FuzzLoop.PlayableDraws` | runner/src/bin/fuzzer/random.rs:38-47 | whatever the clients answer there are draws the loop can run on |
| `FuzzLoop.RunEnds` | runner/src/bin/fuzzer/main.rs:94-177 | a loop that has harvested everything stands at time 2 * total and reports the responses still unchecked |
| `FuzzLoop.FinalVerdict` | runner/src/bin/fuzzer/main.rs:94-190 | whatever is drawn and answered, the run breaks off exactly when it meets a Stop or a response that the log it harvested rejects; otherwise every call is made and harvested in 2 * total turns |
| `FuzzLoop.FuzzTest` | runner/src/bin/fuzzer/main.rs:69-190 | against clients that may answer anything the loop ends, and passes exactly when the run that the draws and answers determine meets neither a Stop nor a response rejected by its own log; it has then harvested numOps * numClis responses and reports how many are not behind the watermark |
| `FuzzLoop.Judge` | runner/src/bin/fuzzer/main.rs:254-275 | FAILED exactly when that run meets a Stop or a rejected response; otherwise numOps * numClis responses were harvested, and UNFAIR exactly when at least 1000 of them are not behind the slowest client |
| `SystemModule.TurnsAreFree` | runner/src/bin/fuzzer/main.rs:97-116 | between turns any idle client can be given any generated call while operations are left, and any flying client's response can be waited for |
| `SystemModule.StepsAreLocal` | runner/src/proc.rs:115-132 | whether a driver, client process or handler can step depends on its own client and the mutex only |
| `SystemModule.EmptyStoreSetsUp` | runner/src/bin/fuzzer/main.rs:224-237 | word keys and an empty store are enough for all results about the closed system |
| `SystemModule.InvKept` | runner/src/bin/fuzzer/main.rs:94-177 | each action of fuzzer, driver, client, handler and mutex keeps the invariant of the closed system |
| `SystemModule.RecordIsRun` | runner/src/bin/fuzzer/main.rs:110-163 | in every reachable state the bookkeeping holds exactly the responses harvested so far, and its order is that of the mutex releases |
| `SystemModule.NoRunFails` | runner/src/bin/fuzzer/main.rs:94-160 | in every interleaving with any number of clients no check ever fails, the checker holds what the list of all harvested responses leaves, and the order of all mutex releases explains that list |
| `SystemModule.RunAccounts` | runner/src/bin/fuzzer/main.rs:88-177 | called is waited plus the flying clients and time is called plus waited, in every reachable state |
| `SystemModule.CallsStayPaired` | runner/src/proc.rs:88-131 | a client is flying exactly when one call of it is somewhere in its pipeline, no driver dies, and an arrived response answers the remembered call |
| `Liveness.CanMove` | runner/src/bin/fuzzer/main.rs:94-177 | no reachable state short of the end is a deadlock |
| `Liveness.PipelineMoves` | runner/src/proc.rs:115-132 | the call of a flying client can make its next hop until its response has arrived, whatever the fuzzer does; only at the mutex may it be another's turn |
| `Liveness.AllCanFly` | runner/src/bin/fuzzer/main.rs:94-109 | any number of clients, all included, can have calls in flight at once |
| `Liveness.EveryActionGetsNearer` | runner/src/proc.rs:115-132 | every action of every process lowers one well-founded measure |
| `Liveness.NoRunIsInfinite` | runner/src/bin/fuzzer/main.rs:94-177 | every schedule comes to a halt |
| `Liveness.RunsHaltOnlyPassed` | runner/src/bin/fuzzer/main.rs:179-189 | a run that cannot go on has made and answered every call and passed |
| `Ycsb.Translator.InterpretLine` | runner/src/bin/bencher/ycsb.rs:97-176 | taking segments off the front of the line and walking the index realises the translation and the index update, malformed lines and a scan count of zero included |
| `Ycsb.InsertTranslated` | runner/src/bin/bencher/ycsb.rs:140-145 | an INSERT line puts the joined fields under table and number, and adds exactly that key to the index |
| `Ycsb.UpdateTranslated` | runner/src/bin/bencher/ycsb.rs:147-151 | an UPDATE line swaps the joined fields in under table and number and leaves the index alone |
| `Ycsb.ReadTranslated` | runner/src/bin/bencher/ycsb.rs:153-156 | a READ line gets the key of table and number |
| `Ycsb.ScanTranslated` | runner/src/bin/bencher/ycsb.rs:158-171 | with keys indexed, a SCAN line with a count in decimal asks for the range up to the key that many places on, and a count of zero underflows |
| `Ycsb.JoinConcat` | runner/src/bin/bencher/ycsb.rs:111-121 | the value is every segment in order, each with an underscore in front |
| `Ycsb.NumeralRoundTrip` | runner/src/bin/bencher/ycsb.rs:124-130 | a count printed in decimal, signed or not, is read as that number if it fits 64 bits and refused otherwise |
| `Ycsb.NotANumeral` | runner/src/bin/bencher/ycsb.rs:124-130 | a word with any other character, an empty word and a lone plus sign are refused |
| `Ycsb.NthOrLast` | runner/src/bin/bencher/ycsb.rs:164-168 | advancing from the start key n times reaches the computed end key, or falls back to the last key |
| `Ycsb.FirstKeysAreTheRange` | runner/src/bin/bencher/ycsb.rs:158-170 | with an index of exactly the stored keys, the inclusive range up to the computed end key is the first min(scnt, available) keys |
| `Ycsb.IndexAlwaysAgrees` | runner/src/bin/bencher/ycsb.rs:134-176 | over a one-client run that starts empty and updates only inserted keys, the index equals the store's keys at every line |
| `Ycsb.NoUpdatesToFollow` | runner/src/bin/bencher/ycsb.rs:140-171 | runs of lines other than UPDATE lines need nothing further for the index to agree |
| `Ycsb.ScanIsExact` | runner/src/bin/bencher/ycsb.rs:158-170 | a SCAN line anywhere in such a run is answered by the store with exactly the first min(scnt, available) keys; with nothing inserted yet it needs no count and is answered with none |
| `StatsModule.PercentileMeans` | runner/src/bin/bencher/main.rs:50-66 | the reported p99 is a sample with at least 99% at or below it and fewer than 99% strictly below |
| `StatsModule.AverageIsAverage` | runner/src/bin/bencher/main.rs:57-58 | the reported average times the number of samples is their sum |
| `StatsModule.SumConcat` | runner/src/bin/bencher/main.rs:57-57 | sums of joined lists add up, and a single sample is its own sum |
| `StatsModule.ExtremesBound` | runner/src/bin/bencher/main.rs:58-61 | minimum and maximum are samples that bound all others and the average lies between them |
| `StatsModule.LargestBoundsPooled` | sumgen/proj1.py:197-197 | the largest p99 of the operations bounds the p99 of all their samples |
| `StatsModule.Stats.RecordOp` | runner/src/bin/bencher/main.rs:39-44 | one sample is appended to its operation and no other operation changes |
| `StatsModule.Stats.Merge` | runner/src/bin/bencher/main.rs:106-118 | the counts add up, the longer run time is kept, and every operation's samples are joined, in whatever order the map is visited |
| `StatsModule.YcsbBench` | runner/src/bin/bencher/main.rs:140-152 | waiting for the drivers merges all their samples and key sets and keeps the longest run time, and fails exactly when one of them failed |
| `StatsModule.MergeOrderIrrelevant` | runner/src/bin/bencher/main.rs:106-118 | merging keeps each operation's multiset of samples whatever the order of the clients |
| `RefCli.ParsersAgree` | refcli/src/main.rs:53-87 | both clients read a printed call made of tokens as the same call |
| `RefCli.InputCallIff` | refcli/src/main.rs:53-87 | a line is a call exactly when its words start with those of the call; further words are ignored |
| `RefCli.RefState.HandleKvCall` | refcli/src/main.rs:90-127 | updates the map, answers all but Scan like the sequential map, for Scan lists exactly the map's entries from the start key up to but without the end key, and panics exactly on a range whose start lies after its end |
| `RefCli.HalfOpenIsRange` | refcli/src/main.rs:108-112 | the slice between the two bounds is that listing, in key order, whether or not the end key is stored |
| `RefCli.ScansAgreeIff` | refcli/src/main.rs:108-118 | on a range in order its Scan is the store's inclusive Scan exactly when the end key is not stored |

## Left out

- RPC transport, message encoding and error status: a request or a reply is handed over atomically, so a client's exit with status 2 does not occur.
- Processes, timeouts, kill, sleeps and the stop of the clients after a passed test: only the loop, the drivers' iterations and the verdict are modelled. A response that a driver cannot parse leaves it dead; the fuzzer's error return on a closed channel is not modelled.
- Error kinds and messages: every parse or I/O error of a reader is one failure outcome.
- White space is one fixed set of ASCII characters; other Unicode white space and encodings are not modelled.
- Partial reads of a response: a driver parses a response in one step once all its lines have been printed, and a client prints one in one step.
- `ClientModule.ReadNextLine`: its contract asks for a remaining non-blank line, because the loop in `ioapi.rs` never ends without one; the parser's `Hangs` outcome stands for that.
- `std::map`, `BTreeMap` and `BTreeSet` are sorted sequences, and an iterator is an index into one.
- The four span checks of `history.rs` are one method, `Spans.CheckClaim`, since they differ only in the comparison of values.
- 64-bit wrap-around of timestamps and counters; `u64::MAX` occurs only as the default minimum of an empty queue, which `apply_update` never meets after `add_to_queue`.
- Random distributions; operation and key frequency counters, progress printing, and the generation of the key pool.
- Floating-point rounding and NaN: samples are real numbers. Run-time measurement and the throughput printout.
- YCSB runs with several clients, where each client's index misses keys the others insert. The feeder stops at the first malformed line; the run model continues past it, which covers more runs.
- `RefCli.RefState.HandleKvCall`: the reference client's read and print loop around it, and its response printer, are not modelled; the printer has the format of `Protocol.RespLines`.
- `Random.GenRandClient`: asks that some drawn client has the wanted bit, because the retry loop in `random.rs` does not end otherwise.
- `FuzzLoop.FuzzTest`: asks, as `FuzzLoop.Judge` does, that every client comes up sooner or later in the draws of every turn; a random source does so with probability one.
- `Linear.NoFalseAlarms`: pool keys must be absent at the start, because the checker's dummy deletions assume it.
- `Meaning.PassesIffLinearizable`: for one client only. With two or more a run can pass that no order explains (`Gaps.AcceptanceIsNotLinearizability`).
- Plotting and report scripts, the service launcher, build files, and argument parsing.
