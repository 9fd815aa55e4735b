# A model of WinterWind's stateful core

WinterWind is a C++ library of clients, servers and utilities. This project models the parts of it that hold state, loops
and arithmetic, and proves what they keep over every input, every run and every interleaving.

`dafny verify dfyconfig.toml` checks everything.

| file | models |
|---|---|
| `JsonModel.dfy`, `LuaMachine.dfy` | JSON values as jsoncpp keeps them; the Lua stack, the heap of tables, `lua_next` in an arbitrary order |
| `LuaPush.dfy`, `LuaRead.dfy`, `LuaBridge.dfy` | the two recursive walkers between JSON and Lua, each as methods on the Lua state, and the two together |
| `LuaOrder.dfy` | what of a Lua value that is read depends on the order in which `lua_next` goes through its tables |
| `Handshake.dfy` | start, wait and kill of a worker thread: one controller, one worker, two mutexes, three flags |
| `SafeQueue.dfy`, `WorkPool.dfy`, `LockedPool.dfy` | the queue with its lock steps for any number of threads, the pool of workers between two queues, and the pool over the queues with their lock steps |
| `Base64.dfy`, `Strings.dfy` | both Base64 alphabets, splitting, joining, deleting, counting words |
| `JsonWebToken.dfy` | reading and verifying a compact token |
| `Form.dfy` | form parameters from the client's body builder to the server's parser |
| `Amqp.dfy`, `InOutExchange.dfy` | channels of a connection, acknowledgements; the answering event loop that reconnects |
| `RequestHandler.dfy`, `BulkQueue.dfy` | the HTTP request callback; the Elasticsearch bulk queue |

Code that changes things in place is a method of a class, or a method over arrays, proved against a function; what the
code promises is proved about that function. Concurrent code is a state machine over its accesses to shared memory, with
inductive invariants over every interleaving. What lies outside is a parameter: the order in which `lua_next` or an
`unordered_map` iterates, the JSON parser and writer, the keyed hash, the broker's answers, the query handler.

Results that are not what one might expect of the code:

- **A second start ends the process.** `start()` after a worker has ended by itself, without `wait()` or `kill()` in
  between, destroys a joinable `std::thread`. `Handshake.AbortsExactly` says at which step, `Handshake.StartTwiceAborts`
  reaches it, and `Handshake.DisciplinedExactly` says which runs avoid it: those in which no `start()` finds the thread
  not running and not reaped. A `start()` on a running thread does no harm.
- **Testing for emptiness and taking are two critical sections.** With two workers a `pop_front` can throw out of
  `run()`; with one it cannot (`WorkPool.ThrowsExactlyWithTwo`, and `LockedPool.ThrowsExactlyWithTwo` down to the locks).
- **The URL decoder does not know its own alphabet.** It stops at the first '-' or '_', so it gives back everything
  exactly when no sextet is 62 or 63 (`Base64.UrlRoundTrip`); of a byte 255 it gives back nothing
  (`Base64.UrlLosesAByte`).
- **Tokens that get() makes are signed with their padding and verified without it.** They are accepted exactly when
  header and payload need no padding and the signature avoids the two characters the alphabets differ in
  (`JsonWebToken.GeneratedAcceptedExactly`). The header of HS256 has 28 bytes and needs padding, so such a token is
  refused whatever its payload (`JsonWebToken.GeneratedIsRefused`).
- **Names with an embedded NUL make reading a Lua table depend on the order of traversal**
  (`LuaOrder.EmbeddedNulDependsOnOrder`). `LuaOrder.OrderFreeExactly` says for which values it does not: those whose
  tables have, under names that agree up to a NUL, only values that are read alike.
- **A connection attempt that stops after the channel was created leaves a queue that is not there**, which the next
  iteration of the event loop uses (`InOutExchange.HalfALinkCrashes`). `InOutExchange.CrashesExactly` says for every
  link, and `InOutExchange.RunCrashesExactly` for every run, when a pointer that was never set is used.
- **The comment on the stack reservation over-counts by one**: two slots for each level but the last, one for that
  (`LuaPush.SlotsBound`, reached by `LuaPush.SlotsBoundTight`).
- **Form values added with escaping are escaped twice and unescaped nowhere**: a space is read as "%2520"
  (`Form.SpaceIsEscapedTwice`). The server reads what was given exactly when nothing given is empty or needs escaping
  (`Form.ReadsAsGivenExactly`).

## Model

| member | source | states |
|---|---|---|
| LuaPush.GetDepth | src/core/lua/luahelper.cpp:198-210 | the loop over the children computes the nesting depth of the value, whatever the order of iteration |
| LuaPush.PathsAreShort | src/core/lua/luahelper.cpp:198-210 | every path of member keys in a value is shorter than the depth the loop computes |
| LuaPush.LongestPath | src/core/lua/luahelper.cpp:198-210 | and some path is shorter by one only |
| LuaPush.PushHelper | src/core/lua/luahelper.cpp:215-259 | pushes exactly one slot that stands for the value, without touching a lower slot or an existing table, with the exact peak of slots in use; throws exactly when an integer does not fit 32 bits |
| LuaPush.NullIsTheSlot | src/core/lua/luahelper.cpp:253-256 | pushing a null copies what is in the null slot, whatever that is |
| LuaPush.NullsInTable | src/core/lua/luahelper.cpp:235-256 | with a null slot that is not nil the table has an entry for every child, null children included, and each null child's entry is the value of the null slot; with nil exactly the null children have none |
| LuaPush.FitsAtEveryPath | src/core/lua/luahelper.cpp:218-223 | the walk can be finished if and only if every signed number, at the end of whatever path, is from -2147483648 to 2147483647 and every unsigned one at most 4294967295 |
| LuaPush.PushContainer | src/core/lua/luahelper.cpp:235-252 | the table built has one entry for every child, under its index plus one or its name, in whatever order the children are met |
| LuaPush.PushKid | src/core/lua/luahelper.cpp:237-251 | one round of either loop: the child is pushed above the table (and its key) and stored under the key |
| LuaPush.PushJson | src/core/lua/luahelper.cpp:269-282 | if the stack could be reserved, every slot the walk uses lies within the reservation, for every JSON value; a negative null index counts from the top |
| LuaPush.SlotsBound | src/core/lua/luahelper.cpp:277-279 | at most 2 * depth - 1 slots are in use above the start |
| LuaPush.SlotsBoundTight | src/core/lua/luahelper.cpp:277-278 | nested objects need exactly 2 * depth - 1 slots at every depth, so no smaller bound holds |
| LuaPush.ReservationHolds | src/core/lua/luahelper.cpp:277-280 | a walk that pushes the value stays within 2 * depth slots of where it started |
| LuaPush.RepresentsFrame | src/core/lua/luahelper.cpp:235-252 | a table already built keeps standing for its value while tables are added and older ones change |
| LuaRead.ReadJson | src/core/lua/luahelper.cpp:299-369 | the recursive walker on the stack gives what the order-dependent specification gives, an undefined conversion of a key included; on success it pops exactly its own slot and the peak is exactly the slots the value needs above where it started, at most two for each level left; the slots below are never touched |
| LuaRead.ReadTable | src/core/lua/luahelper.cpp:319-359 | the table is gone through with lua_next from a nil key, with the exact peak, and the entries read add up to what the specification gives |
| LuaRead.ReadLoop | src/core/lua/luahelper.cpp:321-357 | the lua_next loop visits every entry once and stops at the first that cannot be stored |
| LuaRead.ReadNext | src/core/lua/luahelper.cpp:321-356 | one call of lua_next moves the cursor to the next entry, or ends the loop with the key popped |
| LuaRead.ReadEntry | src/core/lua/luahelper.cpp:322-356 | the loop body: the value is read and popped, the key stays for lua_next, and the entry is stored or refused |
| LuaRead.ReadSucceedsExactly | src/core/lua/luahelper.cpp:299-365 | reading into a null root succeeds if and only if at most 16 levels are visited, every value has a JSON counterpart, and each table's keys are all names or all indexes from 1 |
| LuaRead.FittingIsDefined | src/core/lua/luahelper.cpp:346 | the cast of a key to a 32-bit index is undefined only if some table that is visited has a numeric key from 2 to the 32 on |
| LuaRead.CyclesAreRefused | src/core/lua/luahelper.cpp:301-303 | a table from which the walk could go on for ever is refused |
| LuaOrder.ReadableIsOrderFree | src/core/lua/luahelper.cpp:321 | whether a value can be read does not depend on the traversal order |
| LuaOrder.OrderFreeExactly | src/core/lua/luahelper.cpp:321-356 | all heaps with the same tables in whatever order read a value alike if and only if it cannot be read, or in every table visited names that agree up to a NUL have values that are alike |
| LuaOrder.ReadIsOrderFree | src/core/lua/luahelper.cpp:321-356 | such values are read alike in every two orders |
| LuaOrder.ReadDiffers | src/core/lua/luahelper.cpp:321-356 | any other value that can be read has an order in which it is read differently |
| LuaOrder.AlikeReads | src/core/lua/luahelper.cpp:305-365 | two values of which that holds are read alike if and only if they are alike: equal scalars, or tables with alike values under keys that agree up to a NUL |
| LuaOrder.LastEntryStays | src/core/lua/luahelper.cpp:346-352 | the entry enumerated last is the one found under its key in the result |
| LuaOrder.OneTableIsOrderFreeExactly | src/core/lua/luahelper.cpp:321-356 | a table that can be read gives the same in every order if and only if names that agree up to a NUL have equal values |
| LuaOrder.EmbeddedNulDependsOnOrder | src/core/lua/luahelper.cpp:352 | a table and two orders of it that are read differently |
| LuaBridge.ReadBack | src/core/lua/luahelper.cpp:215-369 | reading what stands for a value pushed with a null slot that is nil, a boolean, a number or a text, in any traversal order, succeeds if and only if the levels visited are at most 16, and then gives the normal form: reals for numbers, for a null what the null slot reads as, no null children if that is nil, null for containers without children |
| LuaBridge.OpaqueNullIsRefused | src/core/lua/luahelper.cpp:253-365 | with a function, userdata or thread in the null slot, a value with a null at the end of some path is refused on reading |
| LuaBridge.SlotDoesNotMatter | src/core/lua/luahelper.cpp:253-256 | a value without a null is pushed the same whatever is in the null slot |
| LuaBridge.NormalFormAt | src/core/lua/luahelper.cpp:235-256 | the normal form has exactly the paths of the value, but for those to a null when the null slot is nil, with the normal form of what the path leads to at its end |
| LuaBridge.NormalFormOfScalar | src/core/lua/luahelper.cpp:217-256 | at the end of a path stands the number as a real, the text up to its first NUL, or for a null the null slot's boolean, number or text |
| LuaBridge.CapIsSixteen | src/core/lua/luahelper.cpp:301-303 | fifteen objects around a scalar are read, sixteen are refused |
| LuaBridge.PushedMirrors | src/core/lua/luahelper.cpp:235-256 | with a nil null slot the table has an entry for each child that is not null and no other, with any other null slot for each child |
| LuaBridge.NormalFormAssembles | src/core/lua/luahelper.cpp:346-352 | the normal form is what storing those entries adds up to |
| LuaBridge.VisitedDepthAtMostDepth | src/core/lua/luahelper.cpp:198-210 | the read walker visits at most as many levels as the depth the push walker computed |
| LuaBridge.PushThenRead | src/core/lua/luahelper.cpp:269-375 | pushing and reading back, with any null slot that holds no table, leaves the stack as it was and gives the normal form, for every value of depth at most 16 and exactly when at most 16 levels are visited |
| Handshake.RunKeepsInv | src/core/utils/threads.cpp:41-115 | mutex owners, program places and flags stay consistent over every interleaving of controller and worker |
| Handshake.HandshakeIsSafe | src/core/utils/threads.cpp:52-78 | run() is entered only with started set, m_running once set is not cleared under the spin loop, and start() returns true only after ThreadStarted() |
| Handshake.WholeStart | src/core/utils/threads.cpp:52-78 | from its call to its return, however the threads interleave, start() returns true if and only if it has created a worker, which has then called ThreadStarted() with the stop flag taken back; it returns false only on a thread that was running |
| Handshake.StartAnswers | src/core/utils/threads.cpp:54-58 | and false exactly if it finds m_running set, when it changes nothing |
| Handshake.WholeKill | src/core/utils/threads.cpp:80-97 | kill() returns true if and only if it has sent a cancellation, once, to a thread that was running, and leaves nothing of the worker either way |
| Handshake.KillAnswers | src/core/utils/threads.cpp:82-96 | and true exactly if it finds m_running set |
| Handshake.KillNeedsNoHelp | src/core/utils/threads.cpp:87-93 | kill() can return without a step of a worker that would never return from run() |
| Handshake.WholeWait | src/core/utils/threads.cpp:41-50 | wait() returns when nothing is left of the worker, cancels nobody and touches no flag but its own |
| Handshake.StopFlag | src/core/utils/threads.cpp:58 | the stop flag is set by stop(), taken back by start() and touched by nothing else |
| Handshake.CancelFlag | src/core/utils/threads.cpp:87-91 | a cancellation is sent by kill() of a running thread alone, and a worker ends early only of one |
| Handshake.IdleIsClean | src/core/utils/threads.cpp:41-97 | between calls both mutexes are free, started says whether there is a thread to join, and m_running is set only while run() is going on |
| Handshake.ReapedWhenWaitOrKillReturns | src/core/utils/threads.cpp:41-97 | when wait() or kill() returns there is no worker, no thread handle, and neither m_running nor started is set |
| Handshake.AbortsExactly | src/core/utils/threads.cpp:61 | a step ends the process if and only if it is the creation of the thread over a handle that has not been reaped, whose worker has then ended |
| Handshake.StartOutcomeIsDecided | src/core/utils/threads.cpp:54-61 | whether a start() that found the thread not running ends the process is decided by the handle it found |
| Handshake.DisciplinedExactly | src/core/utils/threads.cpp:52-61 | a run ends the process, or leaves a start() nothing but to end it, if and only if some start() in it finds the thread not running and its handle not reaped |
| Handshake.DisciplinedRunsNeverAbort | src/core/utils/threads.cpp:52-61 | a run in which no start() finds that never ends the process |
| Handshake.StartTwiceAborts | src/core/utils/threads.cpp:52-61 | start, the worker returning by itself, and start again is a run that ends the process |
| Handshake.CallsMakeProgress | src/core/utils/threads.cpp:41-115 | no call in progress is deadlocked, and every step but an idle spin brings it nearer to its end |
| Handshake.CallsAreBounded | src/core/utils/threads.cpp:41-115 | however the threads interleave, a call takes a bounded number of steps that are not idle spins |
| SafeQueue.ThreadSafeQueue.PushBack | include/core/utils/threadsafequeue.h:49-53 | the item goes to the end |
| SafeQueue.ThreadSafeQueue.PopFront | include/core/utils/threadsafequeue.h:55-65 | the oldest item is returned and removed; an empty queue throws and stays as it is |
| SafeQueue.RefinesAtomicQueue | include/core/utils/threadsafequeue.h:43-71 | over every interleaving of any number of threads, cut at every access to the mutex and the deque, the history of calls, effects and returns is one of an atomic FIFO queue, and a thread that is about to read or remove the front finds the deque not empty |
| SafeQueue.PopsArePrefixOfPushes | include/core/utils/threadsafequeue.h:49-65 | in every such history what was pushed is what was popped, in order, followed by what is left |
| SafeQueue.AnswersAreDue | include/core/utils/threadsafequeue.h:43-71 | every answer is the one the pushes and pops before it call for: the oldest item not yet popped, an exception exactly when there is none, and the true size and emptiness |
| SafeQueue.ReturnsTookEffect | include/core/utils/threadsafequeue.h:43-71 | every return gives the answer of exactly one effect of that call, between the call and the return |
| SafeQueue.NobodyIsStuck | include/core/utils/threadsafequeue.h:43-71 | while a call is in progress some thread can step, and each call takes at most six steps of its own |
| WorkPool.RunOnce | include/core/utils/threadpool.h:118-158 | a step of a worker on the two queues is the step of the pool's state machine |
| WorkPool.NothingIsLost | include/core/utils/threadpool.h:118-160 | for any number of workers and any interleaving, the inputs written are those queued, those held and those answered, as multisets, and the outputs are the images of the answered items in the order of answering |
| WorkPool.RunsFromStart | include/core/utils/threadpool.h:118-160 | over every run, inputs are taken in the order they were written, each worker answers what it took in the order it took it, and taken items are answered or in a worker's hands |
| WorkPool.LoneWorkerKeepsOrder | include/core/utils/threadpool.h:118-160 | with one worker the outputs are the images of the inputs in their order, and no read of the input queue throws |
| WorkPool.EndsWhenStopped | src/unittests/test_threads.cpp:58-70 | a worker ends if and only if it looks at its stop flag and finds it set, and only stop() sets it |
| WorkPool.WorkerDrains | include/core/utils/threadpool.h:118-160 | a worker can, by itself, answer everything that is queued, in order |
| WorkPool.ThrowsExactlyWithTwo | src/unittests/test_threads.cpp:63-66 | a worker's read after a test for emptiness can throw if and only if the pool has at least two workers |
| LockedPool.RefinesPool | include/core/utils/threadpool.h:118-160 | every run of the pool down to the accesses to mutexes and deques, with any other threads writing inputs and reading outputs, is a run of the pool whose queues are atomic, with the same queues, workers, inputs written and outputs read |
| LockedPool.PoolIsRefined | include/core/utils/threadpool.h:118-160 | conversely every run of the pool whose queues are atomic can be made down to the locks |
| LockedPool.QueueStep | include/core/utils/threadsafequeue.h:43-71 | a step of a call either makes the call take effect as if it were made at once, or nothing of it can be seen |
| LockedPool.Finish | include/core/utils/threadsafequeue.h:43-71 | a call that runs alone comes to its end and has had its effect once |
| LockedPool.NothingIsLost | include/core/utils/threadpool.h:118-160 | down to the locks, what was pushed to the input queue is what is queued, held and answered, and what was popped from the output queue and is left there is the images of the answered items in order |
| LockedPool.LoneWorkerKeepsOrder | include/core/utils/threadpool.h:118-160 | down to the locks, one worker answers the inputs in their order |
| LockedPool.ThrowsExactlyWithTwo | src/unittests/test_threads.cpp:63-66 | down to the locks, a worker's read can throw if and only if there are at least two workers |
| Base64.Encode | src/core/utils/base64.cpp:36-77 | the loop over the three-byte buffer gives the characters of all sextets and the padding |
| Base64.EncodeRest | src/core/utils/base64.cpp:59-74 | the last group is completed with zero bytes and padded with '=' to four characters |
| Base64.Decode | src/core/utils/base64.cpp:93-136 | the loop over the four-character buffer gives the bytes of the longest prefix of characters it accepts |
| Base64.DecodeRest | src/core/utils/base64.cpp:119-133 | the value 255 of an unfilled slot reaches none of the bytes emitted |
| Base64.AlphabetFacts | src/core/utils/base64.cpp:138-142 | every value has its own character in either alphabet, find gives the value back, and the shared character test accepts it unless it is '-' or '_' |
| Base64.SharedTestIsStandard | src/core/utils/base64.cpp:138-142 | the shared character test accepts the 64 characters of the standard alphabet and no other |
| Base64.EncodesBits | src/core/utils/base64.cpp:46-54 | the sextets are the bits of the input cut into sixes and followed by zeros, as section 4 of RFC 4648 says |
| Base64.EncodedLength | src/core/utils/base64.cpp:59-74 | fewer than six zero bits are added and the padding completes the text to groups of four |
| Base64.BytesOfPrefix | src/core/utils/base64.cpp:105-133 | the first n sextets of an encoding give back a prefix of the bytes, everything exactly when they are all there |
| Base64.DecodesEncoded | src/core/utils/base64.cpp:93-163 | what either decoder makes of what its encoder wrote, with or without padding: the bytes completed by the sextets before the first it cannot read |
| Base64.RoundTrip | src/core/utils/base64.cpp:145-158 | base64_decode(base64_encode(b)) == b for every byte string, also after deleting every '=' |
| Base64.UrlRoundTrip | src/core/utils/base64.cpp:30-163 | base64_urldecode(base64_urlencode(b)) is a prefix of b, and b itself if and only if no sextet of b is 62 or 63 |
| Base64.UrlLosesAByte | src/core/utils/base64.cpp:138-163 | the byte 255 does not come back from the URL alphabet |
| Base64.PaddingDeleted | src/core/utils/base64.cpp:72-73 | deleting every '=' of an encoding deletes the padding and nothing else |
| Base64.AlphabetsMeet | src/core/utils/base64.cpp:138-142 | texts in the two alphabets are equal if and only if they stand for the same sextets, none of them 62 or 63 |
| Strings.StrSplit | src/core/utils/stringutils.cpp:36-44 | appends the lines std::getline reads |
| Strings.GetLine | src/core/utils/stringutils.cpp:41 | a line up to the delimiter, and none once the text is used up |
| Strings.Join | include/core/utils/stringutils.h:43-51 | appends each piece, and the separator only after a result that is not empty |
| Strings.SplitUndoesJoin | src/core/utils/stringutils.cpp:36-44 | splitting undoes joining if and only if no piece has the delimiter in it and neither the first nor the last is empty |
| Strings.SplitsInto | src/core/utils/stringutils.cpp:36-44 | a text splits into given pieces if and only if they are free of the delimiter and the text is the pieces with delimiters between them, the last not empty, or that and one more delimiter |
| Strings.StrRemoveSubstr | src/core/utils/stringutils.cpp:46-52 | the loop terminates for every non-empty pattern and deletes the first occurrence until there is none |
| Strings.RemovedHasNone | src/core/utils/stringutils.cpp:46-52 | the result is a subsequence of the text without any occurrence of the pattern, and the text itself if and only if it had none |
| Strings.RemovedCharacter | src/core/utils/stringutils.cpp:46-52 | deleting a single character deletes each of its occurrences and nothing else |
| Strings.SplitStringToWords | src/core/utils/stringutils.cpp:72-95 | the loop gives the words of the text |
| Strings.CountWords | src/core/utils/stringutils.cpp:54-70 | the count is the number of words, plus one if the text ends in a separator |
| Strings.WordsAreRuns | src/core/utils/stringutils.cpp:72-95 | the words hold every character that is no separator, in order, and only the first can be empty, exactly when the text is empty or starts with a separator |
| Strings.WordsAreSpaced | src/core/utils/stringutils.cpp:72-95 | the text is its words with gaps of one or more separators between them, perhaps with one more at the end: no word is cut and no two are run together |
| Strings.SeparatorsAre | src/core/utils/stringutils.cpp:31-33 | the twelve characters that end a word |
| JsonWebToken.ReadAndVerify | src/core/utils/jsonwebtokens.cpp:182-232 | stripping, splitting, decoding, the header and algorithm checks and the signature comparison give the specified verdict and leave the specified fields in the token object |
| JsonWebToken.FindAlgorithm | src/core/utils/jsonwebtokens.cpp:206-219 | the search finds exactly the three names and the algorithm of each |
| JsonWebToken.PaddingIsIgnored | src/core/utils/jsonwebtokens.cpp:185-186 | inserting '=' anywhere changes neither the verdict nor the fields |
| JsonWebToken.AcceptsExactly | src/core/utils/jsonwebtokens.cpp:182-232 | a token is accepted if and only if, '=' aside, it is two readable parts and the signature that fits them, possibly followed by one more dot |
| JsonWebToken.VerdictExactly | src/core/utils/jsonwebtokens.cpp:188-232 | three plain parts get each of the verdicts if and only if what it stands for is the case, in the order of the checks: unreadable JSON, a header that is no object, no object with alg and typ JWT, an algorithm not among the three, another signature, none of these |
| JsonWebToken.FieldsExactly | src/core/utils/jsonwebtokens.cpp:188-226 | which of header, algorithm and payload each verdict leaves in the token object |
| JsonWebToken.InvalidStringExactly | src/core/utils/jsonwebtokens.cpp:185-191 | STATUS_INVALID_STRING is for the tokens that are not three parts without a dot in them, '=' aside and one trailing dot allowed |
| JsonWebToken.AcceptsSigned | src/core/utils/jsonwebtokens.cpp:182-232 | a token of the compact form (section 7.1 of RFC 7515) whose header and payload encodings avoid sextets 62 and 63 is accepted with the right third part and read as it was written, and gets STATUS_INVALID_SIGNATURE with any other |
| JsonWebToken.GeneratedAccepted | src/core/utils/jsonwebtokens.cpp:71-104 | for any signing function, what get() makes is accepted if and only if its parts are readable, the hash it signed with, of the padded text, is the HMAC-SHA256 of the unpadded text, and none of its sextets is 62 or 63 |
| JsonWebToken.GeneratedAcceptedExactly | src/core/utils/jsonwebtokens.cpp:71-104 | when get() signs with the decoder's hash and key, and the hash tells the padded text from the unpadded one: accepted if and only if the parts are readable, the lengths of header and payload are multiples of three, and none of the signature's sextets is 62 or 63 |
| JsonWebToken.GeneratedIsRefused | src/core/utils/jsonwebtokens.cpp:66-104 | so what get() makes for HS256, whose header has 28 bytes, is refused whatever the payload |
| Form.UnescapeUndoesEscape | src/core/httpclient.cpp:342-353 | percent-escaping (sections 2.1 and 2.3 of RFC 3986) can be undone, and leaves no '&' and no '=' |
| Form.UnreservedAre | src/core/httpclient.cpp:347 | what is not escaped are the letters, the digits and four more characters, as section 2.3 of RFC 3986 has them |
| Form.EscapeKeeps | src/core/httpclient.cpp:342-353 | escaping leaves a text as it is if and only if all its octets are unreserved, and makes any other longer |
| Form.BuildBody | src/core/httpclient.cpp:156-179 | parameters replace a given body by their escaped fields with '&' between them, in the map's iteration order |
| Form.HTTPClient.AddFormParam | src/core/httpclient.cpp:367-377 | the value is the one given for the name, replacing an earlier one, and can be got back from what is stored: itself, or by unescaping if it was added with escaping |
| Form.HTTPClient.Request | src/core/httpclient.cpp:156-211 | the body goes out and the parameters are forgotten |
| Form.ParsePostData | src/core/httpserver.cpp:199-222 | succeeds if and only if every field is a pair, and then gives the map of the fields, a later one replacing an earlier one of the same name |
| Form.LastFieldStays | src/core/httpserver.cpp:210-219 | a name of the map is the name of a field, and its value that of the last field of that name |
| Form.FieldGrammar | src/core/httpserver.cpp:210-216 | a field is accepted if and only if it is k=v or k=v= with k and v not empty and free of '=' |
| Form.BodyGrammar | src/core/httpserver.cpp:201-216 | a body is accepted if and only if it is empty or such fields with '&' between them, one trailing '&' allowed |
| Form.RoundTrip | src/core/httpserver.cpp:199-222 | in any iteration order the server accepts the client's body if and only if no name and no value is empty, and then reads exactly the parameters with names and values escaped |
| Form.ReadsAsGivenExactly | src/core/httpserver.cpp:199-222 | whichever were added with escaping, the server reads exactly the names and values given if and only if none is empty and all their octets are unreserved |
| Form.SpaceIsEscapedTwice | src/core/httpclient.cpp:156-179 | a space added with escaping is read as %2520 |
| Amqp.EveryRunKeepsInv | src/core/amqp/connection.cpp:153-187 | over every run, ids are distinct and between 1 and the last given out, every valid channel is in the map of a live connection, no channel is closed twice, and the acknowledgements sent are the earned ones, one each and in order |
| Amqp.CreateKeepsTableExactly | src/core/amqp/connection.cpp:160-166 | creating a channel keeps ids nonzero and new if and only if the 16-bit counter has not reached 65535 |
| Amqp.RunIsLater | src/core/amqp/channel.cpp:344-369 | validity never returns once lost, and a registered consumer tag keeps its callback |
| Amqp.ForgottenIsClosed | src/core/amqp/channel.cpp:59-98 | a channel that is not in the map is invalid, so that its destructor sends nothing |
| Amqp.EveryEndIsAccounted | src/core/amqp/channel.cpp:59-98 | over every run, a channel that was created and is not valid was ended by one call, and a close was sent for it, exactly once, if and only if that call closed or destroyed it |
| Amqp.StepEndsExactly | src/core/amqp/channel.cpp:88-369 | a valid channel is ended exactly by closing or destroying it, by the end of the connection, by a consume that fails, or by an exchange bind or unbind, queue bind or unbind, or qos that fails |
| Amqp.JudgedWhenDistributed | src/core/amqp/connection.cpp:302-312 | every distributed envelope earned its acknowledgement if and only if, at that moment, the channel it names was known and valid and the callback registered for its tag took it |
| Amqp.Channel.Close | src/core/amqp/channel.cpp:88-98 | a valid channel, which is on a live connection, is closed on the broker by one close and invalidated; an invalid one sends nothing |
| Amqp.Channel.Ask | src/core/amqp/channel.cpp:197-231 | a valid channel sends its request and an invalid one nothing; a failed bind, unbind or qos invalidates, other failures do not |
| Amqp.Channel.BasicConsume | src/core/amqp/channel.cpp:344-369 | a registered tag is refused without a request, a success registers the callback, a failure invalidates |
| Amqp.Channel.OnEnvelopeReceived | src/core/amqp/channel.cpp:402-426 | acknowledges once, and only if the channel is valid and a callback registered for the tag returns true |
| Amqp.Connection.CreateChannel | src/core/amqp/connection.cpp:153-168 | a full map gives nothing, the id is used up even if opening throws, and a new channel is valid and known under a new id |
| Amqp.Connection.DestroyChannel | src/core/amqp/connection.cpp:170-177 | the channel leaves the map and, if it was valid, one close is sent |
| Amqp.Connection.DistributeEnvelope | src/core/amqp/connection.cpp:302-312 | the envelope is acknowledged, once, if and only if the map has its channel, which is valid and has a callback for the tag that takes it |
| Amqp.Connection.Drop | src/core/amqp/connection.cpp:68-79 | in whatever order the map is met, every known channel is invalid afterwards, none is closed by itself and the connection is |
| InOutExchange.CrashesExactly | src/core/amqp/inoutexchange.cpp:40-130 | from every link, get_valid_exchange calls something through a pointer that is not set if and only if an attempt it makes to connect gets no channel or no queue and goes on, the exchange can be declared while the queue is not there, or a reconnection succeeds and the exchange still cannot be declared; and it gives an exchange if and only if it does not and every attempt to connect that it has to make succeeds |
| InOutExchange.ConnectFacts | src/core/amqp/inoutexchange.cpp:40-67 | when an attempt to connect succeeds, fails or crashes, and which channel and queue each outcome leaves |
| InOutExchange.RunCrashesExactly | src/core/amqp/inoutexchange.cpp:69-130 | over every run and interleaving, the process is gone if and only if the attempt on construction broke or some request for an exchange met a pointer that was not set |
| InOutExchange.HalfALinkCrashes | src/core/amqp/inoutexchange.cpp:46-51 | an attempt that stops at the exchange returns false, and the next successful declaration binds a queue that is not there |
| InOutExchange.KindBrokerNeverCrashes | src/core/amqp/inoutexchange.cpp:69-130 | no run crashes as long as no attempt stops between the channel and the bind and a reconnection is good for the declaration after it |
| InOutExchange.ResponsesAreConserved | src/core/amqp/inoutexchange.cpp:78-102 | under every interleaving with any number of pushing threads and whatever the broker answers, the responses pushed are those handed to basic_publish, in order, followed by those queued, at most one an iteration |
| InOutExchange.WholeTurn | src/core/amqp/inoutexchange.cpp:78-102 | a whole iteration, whatever the pushing threads do in between, asks for everything its answers let it ask for and hands over exactly the response in front when there was an exchange, consuming succeeded, the lock was got and the queue was not empty |
| InOutExchange.PushAppendsOnce | include/core/amqp/inoutexchange.h:90-94 | push_response, cut at every access to the mutex and the queue, has appended its response once when it returns |
| InOutExchange.StopsExactly | src/core/amqp/inoutexchange.cpp:78 | the loop ends if and only if it finds at the beginning of an iteration that it was told to |
| InOutExchange.InOut.PushResponse | include/core/amqp/inoutexchange.h:90-94 | the response goes to the end of the queue |
| InOutExchange.InOut.ConnectToRabbitmq | src/core/amqp/inoutexchange.cpp:40-67 | the attempt on the object leaves the link and gives the outcome of the specification |
| InOutExchange.InOut.GetExchange | src/core/amqp/inoutexchange.cpp:107-130 | so does the request for an exchange |
| InOutExchange.InOut.Turn | src/core/amqp/inoutexchange.cpp:78-102 | one iteration hands over the oldest response exactly when there is an exchange, consuming succeeded, the lock was got and the queue is not empty, and nothing otherwise |
| RequestHandler.Server.RequestHandler | src/core/httpserver.cpp:56-119 | one call of the callback: an unsupported method changes nothing, the first call allocates, a chunk is consumed, the call without data responds and frees |
| RequestHandler.NamesAreExact | src/core/httpserver.cpp:65-81 | each of the seven methods is known by its own name and by no other |
| RequestHandler.FailedQueryIsBadRequest | src/core/httpserver.cpp:93-99 | a query that cannot be handled is answered with code 400 and the page that says so |
| RequestHandler.LaterChunksAreIgnored | src/core/httpserver.cpp:92-107 | once a chunk was handled, later ones change nothing before the response |
| RequestHandler.OneRequest | src/core/httpserver.cpp:56-119 | for a supported method and any chunks, the query is handled once, on the first chunk or on the last call if there is none, its outcome is the one response queued, and one session is allocated and freed |
| RequestHandler.EveryRequestIsAnswered | src/core/httpserver.cpp:56-119 | any number of requests on a connection get one response each, in order, and leave no session |
| RequestHandler.AbandonedSessionStays | src/core/httpserver.cpp:121-124 | a request given up before its last call leaves its session allocated |
| BulkQueue.ToJson | src/extras/elasticsearchclient.cpp:178-207 | appends the action line with the fields that are not empty, and the document for all but a deletion |
| BulkQueue.LinesOfFullAction | src/extras/elasticsearchclient.cpp:172-207 | the lines of an action with all fields given, literally, for each of the four kinds |
| BulkQueue.HeaderHasGivenFields | src/extras/elasticsearchclient.cpp:184-192 | the action line has exactly the fields that are not empty, and null for none |
| BulkQueue.ElasticsearchClient.ProcessBulkactionQueue | src/extras/elasticsearchclient.cpp:209-227 | sends the lines of the first min(limit, size) actions, or of all when the limit is 0, and removes those actions |
| BulkQueue.EachActionIsSentOnce | src/extras/elasticsearchclient.cpp:209-227 | over every run of additions and calls, what was sent is the lines of the oldest actions, each once and in order, and the rest is queued |
| BulkQueue.RepeatedCallsDrain | src/extras/elasticsearchclient.cpp:209-227 | k calls with one limit take k times as many actions, or all there are |

## Left out

- The Lua virtual machine, libcurl, libmicrohttpd, librabbitmq, OpenSSL and jsoncpp's text parser and writer: parameters,
  or the small part of them the modelled code uses.
- LuaRead.ReadJson: nothing is promised after the cast of a key from 2 to the 32 on, which is undefined; an index
  counted from the top, which moves under lua_next, is left out.
- LuaRead.ReadJson: the Lua stack is not limited while reading, where the code reserves nothing; the contract says how
  far it grows, so it is overrun exactly when fewer slots are free.
- LuaBridge.ReadBack: a null slot that holds a table; pushing with such a slot is modelled (LuaPush.NullsInTable),
  reading the result back is not.
- Lua numbers and JSON reals are real numbers: rounding and not-a-number are not modelled.
- A worker whose `run()` never calls `ThreadStarted()`, or calls it twice; several controllers of one thread; failure to
  create a thread; `pthread_cancel` before `ThreadStarted()`.
- WorkPool.NothingIsLost: the loops that start and stop all workers, and the wiring loop with its 8-bit counter, which
  does not end for more than 255 workers; whether the queue is drained when the workers stop is not decided by the code.
- Base64.Encode, Base64.Decode: lengths beyond what the C++ integer types hold.
- Strings.StrRemoveSubstr: an empty pattern, for which the original loops for ever.
- Strings.CountWords: the count is not cut to 32 bits.
- JsonWebToken.ReadAndVerify: the claim checks and validators, which look into a value nothing was stored in and never
  find a claim; building the JSON texts that get() encodes, with its reserved claims.
- Form.BuildBody: request headers, URL parameters and the transfer itself.
- Amqp.EveryRunKeepsInv: runs end where the 16-bit channel id would wrap, which the code marks as open
  (Amqp.CreateKeepsTableExactly); callbacks that use the channel while it distributes, and channels of another connection handed to destroy_channel.
- The frame loop of consume_one, message returns, publisher confirms, message and header setters.
- InOutExchange.ResponsesAreConserved: whether a response handed to basic_publish is sent; its result is ignored there.
- RequestHandler.Server.RequestHandler: routing by URL and content type inside handle_query, a parameter here.
- BulkQueue.ElasticsearchClient.ProcessBulkactionQueue: node discovery and the request itself.
- REST and chat clients, databases, XML, logging, UUIDs, console, time and Redis: wrappers that would only add easy members.
