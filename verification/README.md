# Verified models of the concurrency and serialisation components

A Dafny 4.11 model of the repository's concurrent structures, its distributed lock, its
parsers and printers, its deadlock detector and its timer set, with proofs of what each of
them is for. `dafny verify dfyconfig.toml` checks everything.

| file | component |
|---|---|
| `Redlock.dfy` | the Redlock client over N Redis servers: one step per request, reply, expiry and clock tick |
| `RedlockCalls.dfy` | whole calls of Lock, ContinueLock and Unlock, for any requests that arrive and replies that come back |
| `RedlockRenewal.dfy` | what callers of Redlock are told, and what renewing a running call does to it |
| `SkipList.dfy` | the RocksDB skip list: one writer whose every store is a step, any number of readers whose every load is one, and the list itself as a class |
| `SkipListIterator.dfy` | its iterator under way while the writer inserts |
| `MpscIntrusive.dfy`, `MpscNonIntrusive.dfy` | the two multi-producer single-consumer queues, one step per atomic operation |
| `MsgQueue.dfy`, `MsgQueueSteps.dfy`, `MsgQueueRuns.dfy`, `MsgQueueCalls.dfy` | the two-list message queue, one step per lock, wait, signal and shared access, and whole undisturbed calls |
| `Deadlock.dfy` | the wait-for graph and its cycle search |
| `Timers.dfy`, `TimerRuns.dfy` | the ordered timer set with callbacks that add and delete timers, and runs of calls on it |
| `Options.dfy`, `Bytes.dfy` | missing values, bytes and small sequence facts |
| `Sds.dfy`, `SdsTokens.dfy` | sds buffers, `sdscatrepr` and `sdssplitargs`, and the grammar of the lines it splits |
| `JsonCppIntegers.dfy`, `JsonCppStrings.dfy`, `JsonCppText.dfy` | jsoncpp's integer decoder and printer, its string quoting and unquoting, and the grammar of the strings it reads |
| `CJson.dfy` | cJSON trees, their rendering and the parser as functions |
| `CJsonString.dfy` | `parse_string` with its two scans and its buffer |
| `CJsonText.dfy` | the texts cJSON accepts as a grammar over bytes: string units, tokens and blanks, nothing that scans |
| `CJsonStringText.dfy`, `CJsonRfc.dfy` | `parse_string` against that grammar, and that grammar against RFC 8259 |
| `CJsonSteps.dfy`, `CJsonLeaves.dfy`, `CJsonParsed.dfy`, `CJsonComplete.dfy`, `CJsonGrammar.dfy` | the parser against the grammar: its steps, its scalars, soundness, completeness, both |
| `CJsonDocument.dfy` | whole documents and the round trip |
| `CJsonParse.dfy` | the parse buffer: the recursive-descent parser that moves an offset and a depth |
| `CJsonLayout.dfy` | the text cJSON prints, byte by byte |
| `CJsonPrint.dfy` | the print buffer: growing, reallocated or preallocated |
| `CJsonRoundTrip.dfy` | what is printed is a text of the grammar |
| `CJsonInterop.dfy` | cJSON reading the strings jsoncpp writes |
| `CJsonCompare.dfy` | `cJSON_Compare` and `cJSON_Duplicate` |

Concurrent code is modelled as a step relation under sequential consistency; a run is any
finite sequence of enabled steps by any number of threads, and the theorems hold in every
state of every run. Code that updates objects or buffers in place is a class or a method
over an array, proved against a specification function, about which the theorems are
stated.

## What the proofs found

- `AddServerUrl` is what makes the quorum a majority. Before the first call it is 0, every
  `Lock` succeeds, and nothing is excluded (`Redlock.ExclusionIffConfigured`).
- A `ContinueLock` that runs while the call it renews is still valid replaces that call's
  keys. If its own majority then fails, the keys are gone, but the caller still holds the
  earlier validity and another client may lock. Clients that have not renewed a running call
  since their latest success never overlap, whatever others do
  (`RedlockRenewal.AnnouncedExclusion`), and such a renewal is exactly what can make such a
  client overlap with another (`RedlockRenewal.EarlyRenewalExactly`). What the servers still
  back always excludes.
- Timers fire in strict order of expiry and id over every run in which the times given to
  `HandleTimer` have come (`TimerRuns.FiredInStrictOrder`). Given a time still to come it can
  pass over a timer its own callback adds, which then fires late and out of order
  (`TimerRuns.EarlyHandlingBreaksOrder`); both the order of all later runs and that nothing
  due remains hold exactly for times that have come (`TimerRuns.OrderSafeExactly`,
  `TimerRuns.NothingDueRemainsExactly`). No timer fires twice in any case
  (`TimerRuns.FiredAtMostOnce`).
- The intrusive queue's `Dequeue` can fail although two elements are queued and linked: one
  that comes in whole between its two loads makes it give up
  (`MpscIntrusive.LinkedYetRefused`, `MpscIntrusive.FailsExactly`).
- The deadlock search does not unmark a vertex when it backtracks, so it reports graphs
  without a cycle in which two waits meet again (`Deadlock.DiamondIsReported`); it reports
  exactly the graphs with a cycle or such a meeting (`Deadlock.FlaggedExactly`).
- jsoncpp's quoted form with `emitUTF8` false is pure ASCII only where `char` is signed;
  where it is not, a non-empty string without any ASCII byte is copied through unescaped
  (`JsonCppStrings.QuotedAsciiExactly`). Where it is, exactly the well-formed UTF-8 strings
  survive quoting and unquoting (`JsonCppStrings.DecodeInvertsQuoted`).
- jsoncpp reads every string of section 7 of RFC 8259 as it is meant, and beyond these raw
  control bytes, a low surrogate on its own, and a high surrogate in front of any other
  escaped code point (`JsonCppText.DecodesExactlyUnits`).
- `sdssplitargs` separates bare words at space, tab, newline and return only; a vertical tab
  or form feed is skipped in front of a word and belongs to it inside
  (`SdsTokens.SplitsExactly`).
- `cJSON_PrintPreallocated` succeeds exactly if the buffer has two bytes more than the text,
  terminator included; cJSON.h advises five.
- A successful `cJSON_PrintBuffered` has copied a byte from behind its first buffer exactly if
  it was given size 0 and there is no `realloc` hook (`CJsonPrint.PrintBuffered`).
- cJSON strings go beyond section 7 of RFC 8259 in two ways and no other: raw control bytes
  are taken, and so is a `\u` without four hexadecimal digits (`CJsonRfc.DepartsExactly`). The
  latter reads as NUL, so the C string ends there (`CJsonRfc.BadDigitsTruncate`), and may
  swallow a backslash, which puts the second scan out of step with the first
  (`CJsonRfc.OutOfStep`). Of a standard string `parse_string` returns all exactly if `\u0000`
  does not occur in it (`CJsonRfc.ReadsRfcExactly`). Escaped surrogates out of pairs are
  refused (`CJsonRfc.LoneSurrogateRefused`).
- `cJSON_Compare` is reflexive exactly on trees without NaN in which members of one name
  agree; an object with one name twice and different values is not equal to its own
  duplicate (`CJsonCompare.RepeatedNameNotReflexive`).

## Model

| member | source | states |
|---|---|---|
| `Redlock.ValidityIsSafe` | Distributed_Lock/redlock-cpp/redlock.cpp:138-149 | whatever second boundaries the two clock reads fall on, return time plus validity less one second ends before any server may drop a key, even one that expires it early by ttl/100 + 1 ms |
| `Redlock.StepInv` | Distributed_Lock/redlock-cpp/redlock.cpp:127-224 | every step of a client, a server or the clock keeps the invariant: the servers that granted a claim hold one of its values until the claim ends |
| `Redlock.RunInv` | Distributed_Lock/redlock-cpp/redlock.cpp:127-224 | so does every run of any length |
| `Redlock.MajoritiesMeet` | Distributed_Lock/redlock-cpp/redlock.cpp:112 | two sets of servers that both reach the quorum share a server |
| `Redlock.HoldersAgree` | Distributed_Lock/redlock-cpp/redlock.cpp:152-153 | two clients holding claims at the same instant are the same client |
| `Redlock.MutualExclusion` | Distributed_Lock/redlock-cpp/redlock.cpp:86-224 | in every run of any number of clients mixing Lock, ContinueLock and Unlock with lost requests and replies, at most one client holds the lock at any instant |
| `Redlock.NoServersNoExclusion` | Distributed_Lock/redlock-cpp/redlock.cpp:90 | with the initial quorum 0 two clients lock at once |
| `Redlock.ExclusionIffConfigured` | Distributed_Lock/redlock-cpp/redlock.cpp:105-114 | every run is exclusive if and only if AddServerUrl was called |
| `RedlockCalls.SucceedsExactly` | Distributed_Lock/redlock-cpp/redlock.cpp:112-157 | in every run of a configured lock an attempt succeeds if and only if more than half of the servers granted it and ttl less the whole seconds passed, a hundredth and two is positive; that rest is announced, and otherwise nothing and the release begins |
| `RedlockCalls.LockExactly` | Distributed_Lock/redlock-cpp/redlock.cpp:127-157 | the first attempt of Lock, for any requests that arrive and replies that come back: the key is set at exactly the servers reached that have none, and it succeeds if and only if more than half of all servers are of these and answer and the ttl covers the drift |
| `RedlockCalls.ContinueExactly` | Distributed_Lock/redlock-cpp/redlock.cpp:169-206 | the same for ContinueLock, which also replaces the key of the client's last ContinueLock and remembers the new one |
| `RedlockCalls.UnlockExactly` | Distributed_Lock/redlock-cpp/redlock.cpp:218-224 | Unlock deletes the key with its value at every server reached, touches no other key, and ends the caller's claim |
| `RedlockCalls.ReleaseExactly` | Distributed_Lock/redlock-cpp/redlock.cpp:155-162 | a lost attempt is released and tried again exactly while more than one try is left |
| `RedlockCalls.GivesUp` | Distributed_Lock/redlock-cpp/redlock.cpp:135-163 | a call none of whose requests arrive is tried max(1, count) times and changes nothing |
| `RedlockCalls.AvailableAgain` | Distributed_Lock/redlock-cpp/redlock.cpp:229-245 | when every key is past its time to live an idle client can lock, whatever became of the holder |
| `RedlockRenewal.BackedStep` | Distributed_Lock/redlock-cpp/redlock.cpp:127-224 | every step keeps, for each client that has not renewed a running call since its latest success, that what it was told is what the servers back or has run out |
| `RedlockRenewal.AnnouncedExclusion` | Distributed_Lock/redlock-cpp/redlock.cpp:127-224 | in every run of a configured lock, two clients whose announced validity is running, neither of which has renewed a running call since its latest success, are the same client, whatever all others did |
| `RedlockRenewal.HarmlessAction` | Distributed_Lock/redlock-cpp/redlock.cpp:127-224 | nothing but its own early renewal puts such a client in danger: after any other action of anybody, and any run in which it renews no running call, it shares its interval with no such client |
| `RedlockRenewal.LockEmpty` | Distributed_Lock/redlock-cpp/redlock.cpp:127-154 | a Lock that reaches and hears from any strict majority of servers without a key succeeds, whatever becomes of its requests to the others |
| `RedlockRenewal.RenewalEndangers` | Distributed_Lock/redlock-cpp/redlock.cpp:191-206 | from every reachable state, an early renewal by such a client can be followed by a run in which its requests arrive, its replies are lost, its Unlock arrives and any other client locks during the validity first announced |
| `RedlockRenewal.EarlyRenewalExactly` | Distributed_Lock/redlock-cpp/redlock.cpp:169-213 | an action that such a client could take or suffer can lead to overlap with another if and only if it is its own renewal of a running call |
| `RedlockRenewal.EarlyRenewalBreaksExclusion` | Distributed_Lock/redlock-cpp/redlock.cpp:191-206 | one such run, with one server and two clients |
| `SkipList.SearchStepOk` | Atomic & Lock/skiplist.h:327-346 | one load of a search keeps the reader's invariant, and a search that ends with it returns the first entry at or after the target |
| `SkipList.PublishValid` | Atomic & Lock/skiplist.h:491-496 | the store that publishes a node on a level keeps every level a sorted sublist of the one below and adds exactly its key |
| `SkipList.ApplyValid` | Atomic & Lock/skiplist.h:473-498 | every store of Insert, in any memory where it is due, keeps the list valid and loses no entry |
| `SkipList.ReaderNeverStuck` | Atomic & Lock/skiplist.h:316-347 | in every interleaving a reader under way can take its next load: it never follows an unpublished or missing link, even after a raised max_height_ |
| `SkipList.SearchIsLinearizable` | Atomic & Lock/skiplist.h:316-347 | in every interleaving of searches with the stores of Insert, a search returns exactly the first entry at or after the target as of its last load, and misses no entry present when it began |
| `SkipList.PredUnique` | Atomic & Lock/skiplist.h:350-377 | a key has one predecessor on a level |
| `SkipList.FastPathIsPred` | Atomic & Lock/skiplist.h:451-462 | on the fast path the cached splice leads to the key's predecessor on every level |
| `SkipList.FastPathAgrees` | Atomic & Lock/skiplist.h:451-468 | the vector of the fast path equals the one a full search fills in |
| `SkipList.LevelSorted` | Atomic & Lock/skiplist.h:331 | following a level's links visits exactly its published nodes, in strict key order |
| `SkipList.LevelsNest` | Atomic & Lock/skiplist.h:148-153 | each level is a strictly sorted sublist of the level below, and level 0 holds exactly the entries |
| `SkipList.List.constructor` | Atomic & Lock/skiplist.h:424-447 | the empty list with its splice |
| `SkipList.List.FindGreaterOrEqual` | Atomic & Lock/skiplist.h:316-347 | returns the first entry at or after the key, or none when there is none |
| `SkipList.List.FindLessThan` | Atomic & Lock/skiplist.h:350-377 | fills prev with the key's predecessor on each level in use, leaves the rest, and returns the one of level 0 |
| `SkipList.List.FindLast` | Atomic & Lock/skiplist.h:380-397 | returns the entry with the greatest key, or head_ |
| `SkipList.List.SeekForPrev` | Atomic & Lock/skiplist.h:274-283 | with no insertion under way, positions at the last entry at or before the target, or nowhere; `SkipListIterator.SeekForPrevMissesNothing` is the concurrent statement |
| `SkipList.List.FindSplice` | Atomic & Lock/skiplist.h:451-468 | on either path prev becomes the predecessors of the key |
| `SkipList.List.RaiseHeight` | Atomic & Lock/skiplist.h:474-488 | raising max_height_ keeps prev the predecessors, head_ on the new levels |
| `SkipList.List.SetOwnLink` | Atomic & Lock/skiplist.h:491-494 | the first store of a level, x's own link, is a safe write and changes nothing readers see |
| `SkipList.List.LinkLevel` | Atomic & Lock/skiplist.h:494-495 | the two stores of a level are safe writes and publish the key |
| `SkipList.List.Insert` | Atomic & Lock/skiplist.h:450-499 | for any height, the set afterwards is the old set and the key, its node is linked on exactly that many levels, max_height_ is the greater of the two, the splice invariant holds again, and the stores done are a sequence of safe writes |
| `SkipList.List.Contains` | Atomic & Lock/skiplist.h:502-509 | true exactly for the inserted keys |
| `SkipListIterator.WalkMissesNothing` | Atomic & Lock/skiplist.h:253-256 | in every interleaving of Next with the stores of Insert the iterator can always go on, visits entries in strictly increasing order, and at the end has missed none that was there when it started |
| `SkipListIterator.SeekForPrevMissesNothing` | Atomic & Lock/skiplist.h:258-299 | in every interleaving of its loads with the stores of Insert SeekForPrev can always take the next one, and ends on an entry at or before the target with none present at its start between the two, or nowhere if none was at or before it |
| `MpscIntrusive.StepInv` | Queue_Design/MPSCQueue.h:92-132 | every atomic step of any producer or the consumer keeps the chain invariant |
| `MpscIntrusive.FifoInExchangeOrder` | Queue_Design/MPSCQueue.h:92-132 | in every run, what was returned followed by what is chained is the arguments of Enqueue in exchange order, read off the actions alone; the dummy is never returned and chained at most once |
| `MpscIntrusive.HandedOutAfterLinkStore` | Queue_Design/MPSCQueue.h:112-116 | a node is handed out only after the link behind it was stored, and no producer will write it again |
| `MpscIntrusive.QuietDequeue` | Queue_Design/MPSCQueue.h:98-132 | with no producer between exchange and link store, a Dequeue run on its own returns the first element if there is one and fails otherwise |
| `MpscIntrusive.FailsExactly` | Queue_Design/MPSCQueue.h:98-132 | in every run Dequeue fails exactly at the dummy with nothing queued or an unlinked exchange behind it, at the load of _head with anything exchanged in behind the only node, and behind the dummy it put in itself with an unlinked exchange between |
| `MpscIntrusive.LinkedYetRefused` | Queue_Design/MPSCQueue.h:109-121 | from every reachable state about to load _head with one element, an Enqueue that completes before makes Dequeue fail with both elements linked |
| `MpscIntrusive.LoadHeadReached` | Queue_Design/MPSCQueue.h:98-118 | such a state is reached with one producer |
| `MpscNonIntrusive.StepInv` | Queue_Design/MPSCQueue.h:30-49 | every step keeps the chain, data and deletion invariants |
| `MpscNonIntrusive.OutputsFollowExchangeOrder` | Queue_Design/MPSCQueue.h:30-49 | in every run the data returned are a prefix of the arguments of Enqueue in exchange order, read off the actions alone, and what is missing is exactly what is still chained |
| `MpscNonIntrusive.NoUseAfterDelete` | Queue_Design/MPSCQueue.h:30-49 | no step of any run touches a deleted node |
| `MpscNonIntrusive.NeverStuck` | Queue_Design/MPSCQueue.h:30-49 | in every run the data of a node about to be exchanged in or handed out is there, so the guards of the step relation hide no bad read |
| `MpscNonIntrusive.DeletedAfterLinkStore` | Queue_Design/MPSCQueue.h:46-47 | a node is deleted only after the producer holding it as prevHead stored its link |
| `MpscNonIntrusive.FalseOnlyWhenEmptyOrUnlinked` | Queue_Design/MPSCQueue.h:38-49 | at any step of any run, Dequeue leaves with nothing if and only if it loads the link with nothing queued or the next producer in exchange order yet to link |
| `MpscNonIntrusive.QuietDequeue` | Queue_Design/MPSCQueue.h:38-49 | with no producer between exchange and link store, a Dequeue run on its own returns the oldest argument not yet returned, and fails on an empty queue only |
| `MsgQueueSteps.StepInv` | Queue_Design/msgqueue.c:72-145 | every step of any putter, getter or set_nonblock caller keeps the invariant |
| `MsgQueueSteps.StepRefinesFifo` | Queue_Design/msgqueue.c:86-145 | each step keeps the abstract queue, appends the message put, or hands out the oldest |
| `MsgQueueRuns.FifoInPutOrder` | Queue_Design/msgqueue.c:86-145 | in every run the messages handed out followed by those held are the messages in put-lock order, and memory links the two lists just so |
| `MsgQueueRuns.SidesNeverShareACell` | Queue_Design/msgqueue.c:121-138 | the cell a putter stores through in its critical section is never one the popping getter reads or writes, nor the other way round |
| `MsgQueueRuns.ClearTouchesNoList` | Queue_Design/msgqueue.c:110-115 | a putter's NULL store outside put_mutex falls on no cell of either list, nor on the heads and tail others use |
| `MsgQueueRuns.PopIsSafe` | Queue_Design/msgqueue.c:136-138 | a getter that decided to pop never follows NULL |
| `MsgQueueRuns.NoLostWakeup` | Queue_Design/msgqueue.c:93-126 | putters sleep only on a full put list, a getter only on an empty queue or with a putter still to signal, and nobody through set_nonblock without a notification to come |
| `MsgQueueRuns.AtMostTwiceTheLimit` | Queue_Design/msgqueue.c:98-119 | with a positive limit and no set_nonblock at most 2*msg_max messages are held |
| `MsgQueueRuns.NullOnlyWhenEmpty` | Queue_Design/msgqueue.c:93-145 | at any step of any run, a getter leaves without a message only if both lists are empty and the queue has been non-blocking |
| `MsgQueueCalls.QuietGet` | Queue_Design/msgqueue.c:86-145 | an undisturbed msgqueue_get from any reachable state hands out the oldest message, waits if there is none and the queue blocks, and returns nothing if there is none and it does not |
| `MsgQueueCalls.QuietPut` | Queue_Design/msgqueue.c:110-128 | an undisturbed msgqueue_put appends its message and leaves a wake-up to send, and waits if and only if the queue blocks and its put list holds the positive limit |
| `MsgQueueCalls.SleeperServed` | Queue_Design/msgqueue.c:93-145 | a getter asleep on an empty queue is woken by the next put and comes away with its message |
| `MsgQueueCalls.NonblockWakesAll` | Queue_Design/msgqueue.c:72-83 | after msgqueue_set_nonblock nobody waits |
| `Deadlock.DfsExact` | Deadlock/deadlock.c:162-184 | the search through an edge sets the flag exactly if the edge leads back to the start or into a part that is no tree |
| `Deadlock.CycleIsFlagged` | Deadlock/deadlock.c:305-312 | every directed cycle is reported |
| `Deadlock.FlaggedExactly` | Deadlock/deadlock.c:162-211 | the graphs reported are exactly those with a cycle or with two waits that meet again |
| `Deadlock.SingleWaitFlagIsCycle` | Deadlock/deadlock.c:162-211 | with at most one outgoing edge per vertex the flag means a cycle and nothing else |
| `Deadlock.DiamondIsReported` | Deadlock/deadlock.c:165-170 | a graph without a cycle that is reported |
| `Deadlock.Detector.AddVertex` | Deadlock/deadlock.c:79-86 | a new label is appended without edges, a known one changes nothing |
| `Deadlock.Detector.AddEdge` | Deadlock/deadlock.c:90-102 | both labels are vertices afterwards and exactly one edge was appended |
| `Deadlock.Detector.DFS` | Deadlock/deadlock.c:162-184 | terminates, marks and flags as the specification search does, pushes its vertex on the path, and prints only paths along edges, with the path index bounded by the marks |
| `Deadlock.Detector.SearchForCycle` | Deadlock/deadlock.c:187-211 | the flag is set exactly if some outgoing edge's search sets it |
| `Deadlock.Detector.CheckDeadLock` | Deadlock/deadlock.c:305-317 | deadlock is set exactly on the graphs characterised by `FlaggedExactly`, and every path printed is one along edges |
| `Timers.InsertSorted` | Timers/timers.cc:28-33 | insertion keeps the set strictly sorted by expiry and id |
| `Timers.InsertAdds` | Timers/timers.cc:53-62 | insertion adds exactly the node |
| `Timers.InsertAtEnd` | Timers/timers.cc:60-61 | the hint at the end is right for a node later than all |
| `Timers.AddSound` | Timers/timers.cc:53-62 | adding keeps the set sorted and every id handed out exactly one of pending, fired and deleted, and at one place of the fired sequence at most |
| `Timers.DelSound` | Timers/timers.cc:64-71 | so does deleting |
| `Timers.FireSound` | Timers/timers.cc:76-77 | so does firing |
| `Timers.OpsMove` | Timers/timers.cc:76 | a callback that adds and deletes timers and takes time keeps all that, fires nothing, and leaves its own node and every node it does not delete |
| `Timers.OneOpMeans` | Timers/timers.cc:53-71 | which nodes, ids and time each operation of a callback adds, takes away and leaves |
| `Timers.OpsInOrder` | Timers/timers.cc:76 | a callback does its operations one after the other |
| `Timers.HandleReaches` | Timers/timers.cc:73-79 | every due node at or behind the iterator is fired or deleted in the end, whatever callbacks do |
| `Timers.HandledExactlyOnce` | Timers/timers.cc:73-79 | for any time given, the nodes fired are due, in strict order, not among those fired before and not deleted, every node due at the call is fired or deleted, and all ids stay accounted for |
| `Timers.HandlePrompt` | Timers/timers.cc:73-79 | for a time that has come no due timer remains, also none that a callback added, and everything fired still is due, in order and before everything pending |
| `Timers.Timer.AddTimer` | Timers/timers.cc:53-62 | the new node expires at the tick plus the delay, has a fresh id and is inserted in order; ids stay accounted for, and what fired stays before what is pending |
| `Timers.Timer.DelTimer` | Timers/timers.cc:64-71 | removes the node with that expiry and id if there is one, says so, and nothing else; both invariants are kept |
| `Timers.Timer.RunCallback` | Timers/timers.cc:76 | the operations of a callback in order, its own node in the set throughout |
| `Timers.Timer.HandleTimer` | Timers/timers.cc:73-79 | for any time given fires due timers only, in strict order, none fired before, and all due at the call unless deleted; for a time that has come the firing order over all calls is kept and nothing due remains |
| `Timers.Timer.TimeToSleep` | Timers/timers.cc:81-88 | -1 without timers, 0 if one is due, and otherwise the time to the first expiry |
| `TimerRuns.CallKeeps` | Timers/timers.cc:53-79 | every call keeps the account of ids, and every call but a HandleTimer with a time still to come keeps what fired in order, due and before what is pending |
| `TimerRuns.FiredAtMostOnce` | Timers/timers.cc:53-79 | in every run of calls, whatever times are given, no id fires twice, none fires and is deleted, and none is lost |
| `TimerRuns.FiredInStrictOrder` | Timers/timers.cc:53-79 | in every run whose times had come, all timers fired so far are in strict order of expiry and id and due, the next HandleTimer fires only what is due at the call and behind all these, and nothing due remains |
| `TimerRuns.PromptExactly` | Timers/timers.cc:53-79 | from any state of any run, all runs that go on with times that have come stay in strict order if and only if what fired is in order, due by the clock and before what is pending |
| `TimerRuns.EarlyHandlingBreaksOrder` | Timers/timers.cc:73-79 | for any time still to come a reachable set in which a timer due remains and the next HandleTimer fires it out of order |
| `TimerRuns.NothingDueRemainsExactly` | Timers/timers.cc:73-79 | over all reachable sets nothing due remains if and only if the time given has come |
| `TimerRuns.OrderSafeExactly` | Timers/timers.cc:73-79 | over all reachable sets every later run stays in strict order if and only if the time given has come |
| `Sds.Str.MakeRoomFor` | Distributed_Lock/redlock-cpp/sds.c:129-147 | room for addlen more bytes and a terminator, content unchanged, doubling up to a megabyte and adding one beyond |
| `Sds.Str.CatLen` | Distributed_Lock/redlock-cpp/sds.c:237-249 | content is the old content and the bytes, terminated |
| `Sds.Str.CatRepr` | Distributed_Lock/redlock-cpp/sds.c:552-575 | appends the quoted representation |
| `Sds.SplitInvertsRepr` | Distributed_Lock/redlock-cpp/sds.c:619-620 | for every list of byte strings, splitting their representations joined by single spaces gives back that list |
| `Sds.SplitOneMore` | Distributed_Lock/redlock-cpp/sds.c:668-672 | a representation in front of anything is read back exactly if a space or the end follows its closing quote, otherwise the whole line is refused |
| `Sds.UnterminatedIsRefused` | Distributed_Lock/redlock-cpp/sds.c:673-675 | a representation without its closing quote is refused |
| `Sds.SplitArgs` | Distributed_Lock/redlock-cpp/sds.c:627-735 | the loops compute the specified splitting, None on unbalanced quotes |
| `SdsTokens.SplitsExactly` | Distributed_Lock/redlock-cpp/sds.c:627-735 | a line is split into these arguments if and only if, up to its NUL, it is blanks and words that spell them: bare bytes and at most one part in double or single quotes with its escapes, a separator or the end behind each |
| `SdsTokens.ReprIsWritten` | Distributed_Lock/redlock-cpp/sds.c:552-575 | the representation of any bytes, unit by unit: printable bytes as themselves, seven short escapes, lower-case hexadecimal otherwise |
| `JsonCppIntegers.TooLarge` | ProtoBuf/jsoncpp_test/json_reader.cpp:569-578 | the overflow test is exact: when it trips the whole number exceeds the limit of its sign |
| `JsonCppIntegers.DecodeNumber` | ProtoBuf/jsoncpp_test/json_reader.cpp:549-590 | for digit strings of any length the integer path is taken exactly if the value fits, the accumulator never exceeds its limit, and the value stored is that integer |
| `JsonCppIntegers.DecodesExactly` | ProtoBuf/jsoncpp_test/json_reader.cpp:549-590 | every token that is an optional minus and digits whose place-value sum lies in the 64-bit range is that integer, of the signed kind up to the greatest int, and every other token, and only such, is left to the double decoder |
| `JsonCppIntegers.LargestHasTwentyDigits` | ProtoBuf/jsoncpp_test/json_tool.h:67-74 | every 64-bit number fits the text buffer |
| `JsonCppIntegers.UintToString` | ProtoBuf/jsoncpp_test/json_tool.h:81-87 | writes the decimal digits and a terminator below the given place and nothing else |
| `JsonCppIntegers.ValueToString` | ProtoBuf/jsoncpp_test/json_writer.cpp:92-114 | the text of every integer of either type, within its buffer |
| `JsonCppIntegers.DecodeInvertsText` | ProtoBuf/jsoncpp_test/json_reader.cpp:581-588 | decoding that text gives back the integer |
| `JsonCppStrings.ValueToQuotedStringN` | ProtoBuf/jsoncpp_test/json_writer.cpp:267-345 | for any value, null included, either kind of char and either setting of emitUTF8, the loop computes the specified quoted form |
| `JsonCppStrings.QuotedAsEscaped` | ProtoBuf/jsoncpp_test/json_writer.cpp:267-345 | without emitUTF8 that form is the one the decoding theorems speak of |
| `JsonCppStrings.IsAnyCharRequiredQuoting` | ProtoBuf/jsoncpp_test/json_writer.cpp:176-186 | whether any byte needs quoting, on either kind of char |
| `JsonCppStrings.CodepointInverts` | ProtoBuf/jsoncpp_test/json_writer.cpp:188-237 | the code point computed for a well-formed multi-byte character is no surrogate and encodes back to it |
| `JsonCppStrings.PairInverts` | ProtoBuf/jsoncpp_test/json_reader.cpp:1699-1722 | a surrogate pair written for a code point beyond the basic plane is read back |
| `JsonCppStrings.TurnInvertsEmit` | ProtoBuf/jsoncpp_test/json_reader.cpp:1650-1695 | one turn of the reader undoes one turn of the writer on every well-formed character |
| `JsonCppStrings.BrokenTurn` | ProtoBuf/jsoncpp_test/json_writer.cpp:188-237 | where no well-formed character starts, what the writer emits is read back as something else than the bytes there |
| `JsonCppStrings.DecodeStringLoop` | ProtoBuf/jsoncpp_test/json_reader.cpp:1646-1697 | the loop computes the specified decoding, None on any bad escape |
| `JsonCppText.DecodesExactlyUnits` | ProtoBuf/jsoncpp_test/json_reader.cpp:1646-1748 | a text is decoded to these bytes if and only if up to its end or a bare quote it is units that stand for them: raw bytes, the eight short escapes, code points but no high surrogate alone, and a high surrogate with any second escape |
| `JsonCppText.ReadsRfc` | ProtoBuf/jsoncpp_test/json_reader.cpp:1646-1748 | every string of section 7 of RFC 8259 with surrogates in pairs is decoded to what it denotes |
| `JsonCppStrings.DecodeInvertsQuoted` | ProtoBuf/jsoncpp_test/json_writer.cpp:267-345 | for every byte string, decoding the quoted form gives back the same bytes if and only if they are well-formed by section 3 of RFC 3629 or were copied without escaping; where char is signed, if and only if they are well formed |
| `JsonCppStrings.DecodeInvertsCopiedQuoted` | ProtoBuf/jsoncpp_test/json_writer.cpp:267-345 | with emitUTF8 decoding the quoted form gives back the same bytes for every byte string |
| `JsonCppText.CopiesExactly` | ProtoBuf/jsoncpp_test/json_writer.cpp:267-345 | with emitUTF8 every byte is written as itself but for the seven with short escapes |
| `JsonCppStrings.QuotedAsciiExactly` | ProtoBuf/jsoncpp_test/json_writer.cpp:176-186 | the quoted form is ASCII if and only if char is signed, the string is empty or it has an ASCII byte |
| `CJsonString.WrittenWithinCount` | ProtoBuf/cjson_test/cJSON.c:585-703 | from wherever the second scan stands, in step with the first or inside one of its escapes, it writes no more than the first counted |
| `CJsonString.EstimateCovers` | ProtoBuf/cjson_test/cJSON.c:719-761 | for every input the size estimated by the first scan covers all bytes written and the terminator |
| `CJsonString.EstimateTight` | ProtoBuf/cjson_test/cJSON.c:743-745 | without code points the estimate is what is written, the terminator and one byte more |
| `CJsonString.ScanLength` | ProtoBuf/cjson_test/cJSON.c:719-743 | finds the closing quote and counts the escapes passed |
| `CJsonString.FillOutput` | ProtoBuf/cjson_test/cJSON.c:745-810 | fills the buffer with the decoded text, every store inside it, or fails on a bad escape |
| `CJsonString.ParseStringBuffered` | ProtoBuf/cjson_test/cJSON.c:706-832 | both scans together are the specified parse_string |
| `Bytes.HexPlaceIs` | ProtoBuf/cjson_test/cJSON.c:548-581 | a hexadecimal digit of either case counts for its place in the row of digits, and no other byte is one |
| `CJsonText.ShortEscapes` | ProtoBuf/cjson_test/cJSON.c:769-790 | the eight short escapes by their codes |
| `CJsonText.NumberBytes` | ProtoBuf/cjson_test/cJSON.c:290-317 | the fifteen bytes copied for strtod |
| `CJsonStringText.ParsesExactlyStrings` | ProtoBuf/cjson_test/cJSON.c:706-832 | parse_string returns a C string and an end exactly if a quoted text stands there whose units, raw bytes, escapes and surrogate pairs, denote that string up to its first NUL |
| `CJsonRfc.DepartsExactly` | ProtoBuf/cjson_test/cJSON.c:548-810 | the strings of section 7 of RFC 8259 with surrogates in pairs are exactly those cJSON reads in which no control byte stands raw and every \u has four hexadecimal digits, and what they denote is decoded the same, before it is cut at a NUL |
| `CJsonRfc.ReadsRfcExactly` | ProtoBuf/cjson_test/cJSON.c:706-832 | of a string of that section parse_string returns what it denotes up to the first NUL, so the whole if and only if no \u0000 occurs |
| `CJsonRfc.BadDigitsTruncate` | ProtoBuf/cjson_test/cJSON.c:550-580 | a \u without four hexadecimal digits ends the string read, whatever follows it |
| `CJsonRfc.OutOfStep` | ProtoBuf/cjson_test/cJSON.c:719-810 | a family of texts the first scan takes to end where the second reads an escaped quote, accepted as the empty string |
| `CJsonRfc.LoneSurrogateRefused` | ProtoBuf/cjson_test/cJSON.c:600-641 | a text with an escaped surrogate out of a pair is read as no string |
| `CJsonLeaves.AtomParsed` | ProtoBuf/cjson_test/cJSON.c:1220-1263 | a literal, string or number parsed has its text there |
| `CJsonLeaves.AtomParses` | ProtoBuf/cjson_test/cJSON.c:1220-1263 | such a text is parsed to its value |
| `CJsonParsed.ParsedValue` | ProtoBuf/cjson_test/cJSON.c:1349-1611 | soundness: where a tree is parsed a text of it stands, its blanks, commas and colons included, and it nests within the limit |
| `CJsonComplete.TextParses` | ProtoBuf/cjson_test/cJSON.c:1349-1611 | completeness: a text of a tree that nests within the limit is parsed to it |
| `CJsonGrammar.ParsesExactlyTheGrammar` | ProtoBuf/cjson_test/cJSON.c:1220-1611 | at any place of any buffer and any depth the parser returns a tree and an end if and only if a text of that tree stands between and its nesting fits the limit |
| `CJsonParse.ParseBuffer.SkipWhitespace` | ProtoBuf/cjson_test/cJSON.c:971-989 | moves to the next byte above 32 and never off the buffer |
| `CJsonParse.ParseBuffer.ReadNumber` | ProtoBuf/cjson_test/cJSON.c:274-348 | hands at most 63 number bytes to strtod and advances by what it used |
| `CJsonParse.ParseBuffer.ReadValue` | ProtoBuf/cjson_test/cJSON.c:1220-1272 | value, new offset, restored depth and failure are those of the parsing functions |
| `CJsonParse.ParseBuffer.ReadItems` | ProtoBuf/cjson_test/cJSON.c:1382-1417 | the same for the loop of parse_array |
| `CJsonParse.ParseBuffer.ReadMembers` | ProtoBuf/cjson_test/cJSON.c:1538-1589 | the same for the loop of parse_object |
| `CJsonParse.ParseWithOpts` | ProtoBuf/cjson_test/cJSON.c:1008-1085 | the whole of cJSON_ParseWithOpts, byte order mark and required end included |
| `CJsonLayout.StringShown` | ProtoBuf/cjson_test/cJSON.c:835-954 | a string is printed unit by unit: bytes from 32 on as themselves but for quote and backslash, seven short escapes, four lower-case digits otherwise |
| `CJsonLayout.TreeShown` | ProtoBuf/cjson_test/cJSON.c:1275-1725 | the printed text of any tree at any depth is exactly the one written down without regard to how it is composed: compact, or with a space behind the commas of arrays, and every member on a line with as many tabs as its depth and a tab behind its colon |
| `CJsonRoundTrip.PrintsRfcStrings` | ProtoBuf/cjson_test/cJSON.c:835-954 | every string is printed as section 7 of RFC 8259 has it, and denotes itself |
| `CJsonRoundTrip.RenderIsText` | ProtoBuf/cjson_test/cJSON.c:1275-1346 | a tree printed at any depth, formatted or not, is a text of it in the grammar, in front of anything its last number does not run into |
| `CJsonDocument.AcceptsExactlyDocuments` | ProtoBuf/cjson_test/cJSON.c:1008-1085 | cJSON_ParseWithOpts accepts a C string with a tree if and only if it is a byte order mark perhaps, blanks, a text of that tree within the nesting limit and, where the end is required, blanks |
| `CJsonDocument.ParsedNests` | ProtoBuf/cjson_test/cJSON.c:1510-1514 | no parsed tree nests deeper than the limit |
| `CJsonDocument.RoundTrip` | ProtoBuf/cjson_test/cJSON.c:706-1725 | for trees with NUL-free strings and faithfully printed numbers, parsing the formatted or unformatted text gives back the tree, member order included, if and only if it nests no deeper than 1000 |
| `CJsonInterop.SameUtf8` | ProtoBuf/cjson_test/cJSON.c:648-697 | cJSON's encoder of code points agrees with jsoncpp's on every code point |
| `CJsonInterop.EmitIsUnit` | ProtoBuf/jsoncpp_test/json_writer.cpp:267-345 | what jsoncpp writes for a well-formed character is one unit of the grammar, stands for that character, and is the one it chooses: itself, a short escape, or lower-case digits |
| `CJsonInterop.WritesRfcStrings` | ProtoBuf/jsoncpp_test/json_writer.cpp:267-345 | jsoncpp's escaped form of well-formed UTF-8 is a string of section 7 of RFC 8259 that denotes it, in these units |
| `CJsonInterop.ReadsQuoted` | ProtoBuf/cjson_test/cJSON.c:706-832 | wherever the escaped form jsoncpp writes for a well-formed UTF-8 text stands between quotes, parse_string gives back that text, up to its first NUL |
| `CJsonPrint.PrintBuffer.Ensure` | ProtoBuf/cjson_test/cJSON.c:381-466 | room for the bytes and a terminator exactly if the buffer has it or can grow to it, by doubling up to INT_MAX; the text so far is kept on every reallocation path, and only an allocator that refuses makes it refuse |
| `CJsonPrint.PrintBuffer.UpdateOffset` | ProtoBuf/cjson_test/cJSON.c:469-479 | lands on the true end of the text |
| `CJsonPrint.PrintBuffer.PrintNumber` | ProtoBuf/cjson_test/cJSON.c:482-545 | writes the number's text, or fails if it does not fit the 26-byte buffer or the output |
| `CJsonPrint.CountEscapes` | ProtoBuf/cjson_test/cJSON.c:862-887 | the first pass counts exactly what escaping adds |
| `CJsonPrint.PrintBuffer.StoreEscaped` | ProtoBuf/cjson_test/cJSON.c:906-948 | the second pass writes exactly the escaped text, the terminators of its sprintf included in bounds |
| `CJsonPrint.PrintBuffer.PrintString` | ProtoBuf/cjson_test/cJSON.c:835-954 | the text is extended by the rendered string, exactly if it fits |
| `CJsonPrint.PrintBuffer.PrintArray` | ProtoBuf/cjson_test/cJSON.c:1443-1502 | the text is extended by the rendered array, exactly if it fits |
| `CJsonPrint.PrintBuffer.PrintObject` | ProtoBuf/cjson_test/cJSON.c:1614-1725 | the text is extended by the rendered object, exactly if it fits |
| `CJsonPrint.PrintBuffer.PrintValue` | ProtoBuf/cjson_test/cJSON.c:1275-1346 | the buffer holds the old text, the rendering and a terminator exactly if two bytes more than the text fit, no allocation is refused and every number fits its buffer; every write is in bounds |
| `CJsonPrint.PrintPreallocated` | ProtoBuf/cjson_test/cJSON.c:1200-1217 | succeeds if and only if the layout's text and two more bytes fit the given length; then the buffer begins with it, terminated |
| `CJsonPrint.PrintBuffered` | ProtoBuf/cjson_test/cJSON.c:1170-1198 | the text is that of the layout whatever the initial size and whichever reallocation path is used, only a refusing allocator or the size make it fail, and on success a byte behind the first buffer was copied if and only if its size was 0 and there is no realloc hook |
| `CJsonPrint.Print` | ProtoBuf/cjson_test/cJSON.c:1095-1157 | the block returned is the layout's text and its terminator and nothing more |
| `CJsonPrint.RenderWithoutNul` | ProtoBuf/cjson_test/cJSON.c:469-479 | a rendered tree has no NUL, so strlen measures it |
| `CJsonCompare.CompareMeans` | ProtoBuf/cjson_test/cJSON.c:2838-2961 | Compare holds exactly between sound trees with equal canonical forms, where an object is a map from its names |
| `CJsonCompare.CompareIsEquivalence` | ProtoBuf/cjson_test/cJSON.c:2838-2961 | Compare is symmetric and transitive on all trees, and reflexive exactly on the sound ones |
| `CJsonCompare.CompareIffAlike` | ProtoBuf/cjson_test/cJSON.c:2838-2961 | without NaN and repeated names Compare holds exactly between trees equal up to member order |
| `CJsonCompare.FindMeans` | ProtoBuf/cjson_test/cJSON.c:1780-1810 | get_object_item finds the first member of a name exactly if there is one |
| `CJsonCompare.SameKey` | ProtoBuf/cjson_test/cJSON.c:102-121 | names agree if and only if they are as long and agree byte by byte after folding |
| `CJsonCompare.Duplicate` | ProtoBuf/cjson_test/cJSON.c:2562-2639 | a recursive duplicate is the same tree, any other has no children |
| `CJsonCompare.DuplicateAndCompare` | ProtoBuf/cjson_test/cJSON.c:2562-2961 | a recursive duplicate compares equal to its source exactly if the source is sound, so always without NaN and repeated names |
| `CJsonCompare.RepeatedNameNotReflexive` | ProtoBuf/cjson_test/cJSON.c:2913-2926 | an object with one name twice and different values is not equal to its duplicate |

## Left out

- Weak memory ordering: all concurrent models are sequentially consistent.
- Redlock: overflow of `time * 1000` in an int, rounding of the floating-point drift, requests executed after the client gave up on them, more than one resource, Unlock with another client's value; retry delays are clock ticks of any length.
- Skip list: `EstimateCount`, the iterator's Prev on its own, and the choice of random heights (any height up to the maximum is allowed); keys are integers in their usual order.
- MPSC queues: destructors; the order of operations is that of the source.
- Message queue: creation and destruction; errors of the pthread calls. A limit of 0 is modelled as the source has it, where the bound wraps around and the queue is never full.
- Deadlock detector: the bookkeeping of edges across lock hand-over, `remove_edge`, the pthread hooks and the printed format; the capacity of 100 vertices is a precondition of adding, since the source does not check it.
- Timers: negative delays, and a callback deleting its own timer, which is undefined in the source and skipped here; callbacks are finite lists of additions, deletions and passing time.
- sds: failing allocations and overflow of the length fields; `isprint` and `isspace` are those of the C locale.
- jsoncpp: decoding to double, error messages and positions, comments, styled writers and `Path`; the bytes quoted are taken to end where their length says.
- cJSON numbers: `strtod`, `sprintf`, the locale's decimal point and `valueint` are behind an abstract codec; NaN and infinities print as null and are not faithful in its sense.
- cJSON strings: whether raw bytes are UTF-8, which cJSON does not look at and the grammar of strings leaves open.
- cJSON parser: failing allocations, the error position, `return_parse_end`.
- cJSON printer: raw items and NULL strings; the preallocated buffer is an array of exactly the given length.
- cJSON trees: the links between siblings, references and constant keys; `cJSON_Compare` of a node with itself, which is true whatever it holds; `cJSON_Minify`, and the functions that build and edit trees.
- Thin wrappers over one atomic or one mutex (spinlock.h, atomic.h, LockedQueue.h, ProducerConsumerQueue.h), the network buffers, the memory pools and leak detector, and clients of libraries that are not part of this model.
