# Verification of the RabbitMQ client library

A Dafny model of the client's own logic, with proofs. It covers the peer-to-peer
request/response/timeout protocol, the topic-pattern compiler and dispatch, subscription
bookkeeping with reconnect, the duplicate-log limiter, the message-header codec and the order in
which the mutexes are taken. `dafny verify dfyconfig.toml` checks all of it.

## What is modelled

**Peer-to-peer protocol** (`Messages`, `TimerTasks`, `PeerModel`, `PeerInvariant`, `PeerSystem`,
`PeerTheorems`, `PeerDeadlines`, `PeerCallbacks`, `PeerExample`, `MidClient`). A system has any number of modules with distinct names.
Each module has any number of application threads inside `rmRequestMake`/`rmNotifyMake`, one receive
thread and one timer thread. A step is one critical section of `timer_mutex`, one callback, or one
publish, so every interleaving at lock granularity is a run. The handler of a response is three steps
(look up, call back, restart or remove); a sweep with its timeout callbacks is one, because the lock
is held throughout. The network holds every message ever handed to the broker and may deliver it to
the module its routing key names at any time, any number of times or never. The theorems quantify
over all runs from any initial set of modules. `MidClient.Client` is the object itself: the vector
with its loops, the two-pass sweep, the handler and the request calls, each tied to the functions
the step system uses. Times are clock ticks of a nanosecond.

Assumptions of the step system: looking a task up and reading the fields of the record found are one
step (the code returns the address of a vector element); the clock is monotone; the id counter does
not overflow; an application answers with the source and id its request callback was given; the
handlers are set once, before the run, although `rmSetMidMsgHandler` may replace them at any time
(`src/rmMidLib.cpp`, lines 292-299). Handlers may be null; every theorem holds for every choice of
handlers, with the conditions written out.

**Topic patterns** (`TopicPattern`, `AmqpTopics`, `TopicDispatch`). The two rewrite loops, a parser
and a backtracking matcher for the fragment of regular expressions they generate, and the meaning of
a pattern read directly. Patterns are over dot, `*`, `#` and every character that stands for itself in a
regular expression: letters, digits, dashes and so on. The comparison with
section 3.1.3.3 of AMQP 0-9-1 is stated on lists of words; `WordsAndJoin` says that such lists and
strings are the same thing.

**Where the code departs from that section.** The dot of a pattern is not escaped in the generated
expression, so it matches any character, and a `#` beside a dot cannot stand for no word. The code is
kept as it is. `Disagreements` gives a key for each, and two equivalences say exactly which patterns each
affects: the expression accepts no key the standard refuses exactly for patterns of at most one word and
patterns of wildcards with at most one `*` (such as `#.*`), and misses no key the standard matches exactly
when no `#` stands beside another word. Together it agrees with the standard on every key exactly for
patterns of at most one word.

**A request can be both answered and timed out.** A sweep may take a timer out while the handler of its
final response is between lookup and removal. `RequestCanBeAnsweredAndTimeOut` is such a run, and
`BothExactlyByOverlap` says that this is the only way and that it always has this effect.

**Two paths stop a thread.** A sweep holds `timer_mutex` while it calls back, and a request made from that
callback needs it. The receive loop holds `conn_mutex` when it reconnects over a heartbeat error, and
`ReconnectProc` takes it again. `ReentryStopsExactly` and `ClientStopsExactly` say that either leads to a stop
in some schedule, whatever else the threads do, and that no other modelled path does.

**Subscriptions** (`Subscriptions`). Two key sets, the ordered callback map, the queue names and the
bindings the broker holds. Bind and unbind calls may be lost; connection attempts may stop at the
socket, the login or the channel. One client; the broker drops its auto-delete queues with the
connection. A topic held in both sets loses its callback at the first unsubscribe although it stays
bound once; `DoubleTopicLosesCallback` is such a run, and `CoveredExactlyWithoutDouble` says that nothing
else separates held topics from callbacks. Bindings are followed both across reconnects
(`ReconnectHealsExactly`) and between them, call by call (`HealedExactlyWithoutMisses`). A point-to-point or
broadcast client has one queue and one key; its bind is sent once on connecting and twice on reconnecting.

**Log limiter** (`RateLimiter`). `Log` reads the clock twice, once itself and once in the cleanup. The
bound is proved for two reads at most `skew` apart; with equal reads the spacing of windows is
window + 1 seconds.

**Header codec** (`HeaderCodec`). Encoding fills ten slots by a running index. Decoding walks the
entries, updates the record and stops at the first ill-typed entry.

**Lock order** (`LockOrder`). Code paths as nested lock scopes, threads running them in any schedule.

## Model

| member | source | states |
|---|---|---|
| TimerTasks.AddRefinesInsert | src/rabbitmqclient.cpp:1039-1047 | Appending a timer with an unused id keeps ids distinct and inserts exactly that key into the id map. |
| TimerTasks.RemoveRefinesDelete | src/rabbitmqclient.cpp:1050-1062 | Erasing the first entry with an id deletes exactly that key. |
| TimerTasks.RestartRefinesUpdate | src/rabbitmqclient.cpp:1064-1076 | Restarting sets the deadline of the entry with that id to its interval in seconds from now and changes nothing else; an absent id changes nothing. |
| TimerTasks.TimersRunTheirInterval | include/rabbitmqclient.h:85-88 | A new timer holds what it was given and, like a restarted one, runs out its interval in seconds from now. |
| TimerTasks.FindRefinesLookup | src/rabbitmqclient.cpp:1078-1089 | The linear search returns what the map holds for the id, and nothing for an absent id. |
| TimerTasks.SweepTakesExactlyTheDue | src/rabbitmqclient.cpp:571-593 | The two passes take out exactly the due timers and keep the rest, both in order, if and only if no two entries share an id with different dueness; distinct ids suffice. |
| TimerTasks.SweepRefinesDelete | src/rabbitmqclient.cpp:565-594 | On the map a sweep deletes exactly the due keys. |
| MidClient.Client.ReqTimerId | src/rabbitmqclient.cpp:1030-1037 | Returns the counter and advances it; -1 without change for another exchange type. |
| MidClient.Client.AddTimerTask | src/rabbitmqclient.cpp:1039-1047 | Appends one timer whose deadline is now plus its interval in seconds; a fresh id keeps the object valid and is inserted in the map. |
| MidClient.Client.FindTask | src/rabbitmqclient.cpp:1055-1057 | The loop stops at the first entry with the id, or at the end. |
| MidClient.Client.RemoveTimerTask | src/rabbitmqclient.cpp:1050-1062 | The list becomes the list without its first entry of that id; a valid object stays valid and its map loses exactly that key. |
| MidClient.Client.RestartTimerTask | src/rabbitmqclient.cpp:1064-1076 | Only the first entry of that id changes, and only its deadline; a valid object stays valid and its map changes at that key only. |
| MidClient.Client.GetTimerTaskInfo | src/rabbitmqclient.cpp:1078-1089 | Returns the first entry of that id, if any, which is what the map holds for it. |
| MidClient.Client.TimeoutProc | src/rabbitmqclient.cpp:1091-1126 | Exactly the callback of the timer's kind is made if its handler is set, with the timer's own arguments. |
| MidClient.Client.TimerSweep | src/rabbitmqclient.cpp:568-593 | For every exchange type the sweep ends, leaves exactly the kept entries and, point to point, calls back once per removed entry in list order; it is the step system's sweep, and the map of a valid object loses exactly the due keys. |
| MidClient.Client.EraseTasks | src/rabbitmqclient.cpp:583-593 | The erasing walk removes every entry with a collected id and no other, calling back in order; a valid object stays valid. |
| MidClient.Client.SendMessage | src/rabbitmqclient.cpp:894-924 | An empty key or missing connection sends nothing and fails; otherwise success is what the reply says. |
| MidClient.Client.CallMake | src/rmMidLib.cpp:6-118 | A null argument changes nothing; otherwise an id is used up, and the timer stays, in list and map, exactly if sending succeeded; a failed send leaves the list as before. |
| MidClient.Client.Response | src/rmMidLib.cpp:170-271 | Sends one response with the given id to the named module, or fails on null arguments. |
| MidClient.Client.HandleTemp | src/rabbitmqclient.cpp:458-474 | The temporary-response branch is lookup, callback and restart of the step system; it calls back with the stored receiver, name and argument and the delivered code, description and body, exactly if the id is listed. |
| MidClient.Client.HandleFinal | src/rabbitmqclient.cpp:475-498 | The final-response branch is lookup, callback and removal of the step system; it calls back in the same way, for requests only, exactly if the id is listed. |
| MidClient.Client.HandleMessage | src/rabbitmqclient.cpp:436-499 | Run without interference, the handler calls back once with the sender, name, id and body of a delivered request, notification or report, changes the list as its steps do, and answers a notification once. |
| MidClient.CallMakeIsItsSteps | src/rmMidLib.cpp:27-60 | Allocate, register, publish and undo, run in the step system, leave the list and counter as the call does. |
| MidClient.CallMessage | src/rmMidLib.cpp:27-51 | The message and the timer of a call, field by field. |
| PeerInvariant.LocalKeeps | src/rabbitmqclient.cpp:436-499 | Every step of a module keeps the invariant tying ids, list entries, threads, handler, callbacks made and deadlines together. |
| PeerSystem.NextKeeps | src/rmMidLib.cpp:49-58 | Every step of the system keeps what the network and the callbacks say about other modules' ids. |
| PeerTheorems.IdConservation | src/rabbitmqclient.cpp:1030-1062 | In every reachable state the ids below the counter are the disjoint union of unregistered (one thread each), listed (one entry each) and ended. |
| PeerTheorems.IdsOnlyMoveForward | src/rabbitmqclient.cpp:583-592 | Over any continuation an id only moves from unused to unregistered to listed to ended. |
| PeerTheorems.AtMostOneFinalAndOneTimeout | src/rabbitmqclient.cpp:475-497 | Over every run each id gets at most one final-response callback and at most one timeout callback. |
| PeerDeadlines.EndedRequestsHaveAnOutcome | src/rabbitmqclient.cpp:475-497 | Over every run, a request that has ended, with a timeout callback set, was answered or timed out, or its own call took it out of the list after a failed send. |
| PeerTheorems.BothExactlyByOverlap | src/rabbitmqclient.cpp:475-493 | A request gets both callbacks if and only if a sweep took its timer out between a final handler's lookup and removal. |
| PeerExample.RequestCanBeAnsweredAndTimeOut | src/rabbitmqclient.cpp:479-493 | A concrete run in which one request is answered and timed out. |
| PeerTheorems.EndedIdsStaySilent | src/rabbitmqclient.cpp:1050-1062 | Once an id has ended and no handler is about to call back for it, no response or timeout callback ever names it again. |
| PeerTheorems.ResponsesNameRegisteredIds | src/rmMidLib.cpp:49-53 | Registration precedes sending: every response in the network names an id its addressee has listed or ended, and comes from the module that call was addressed to. |
| PeerTheorems.LookupFailsExactlyWhenEnded | src/rabbitmqclient.cpp:471-497 | The branches that find no timer for a response are taken exactly for ended ids. |
| PeerTheorems.CallbacksAreCorrelated | src/rabbitmqclient.cpp:459-487 | Every response and timeout callback carries the receiver, message name and argument of the very call in which this module handed out the id. |
| PeerCallbacks.ResponsesComeFromResponders | src/rmMidLib.cpp:170-271 | Across modules: the code, description and body of every response callback are those of a response that the module the request was addressed to published for this module and this id, temporary or final as the callback is. |
| PeerCallbacks.RequestsComeFromCalls | src/rabbitmqclient.cpp:437-447 | Across modules: every request or notification callback carries the name and body, and for a request the id and argument, of a call that the module it names made to the module called back. |
| PeerCallbacks.ReportsComeFromReports | src/rabbitmqclient.cpp:453-457 | Across modules: every report callback carries the name and body of a report that the module it names published to the module called back. |
| PeerCallbacks.EveryDeliveryCallsBack | src/rabbitmqclient.cpp:436-499 | Over every run the callbacks of a module, timeouts apart, are exactly those its deliveries call for, in order, each once, except the one in hand. |
| PeerCallbacks.PublishedIsSent | src/rmMidLib.cpp:120-271 | What a published response, automatic answer or report puts into the network, field by field. |
| PeerDeadlines.TasksLeaveOnlyBy | src/rabbitmqclient.cpp:583-592 | A timer leaves the list only by its own failed send, its handled final response, or a sweep that finds it due. |
| PeerDeadlines.SweepFiresAtDeadline | src/rabbitmqclient.cpp:575-589 | A sweep removes an active id and makes its one timeout callback exactly when the clock has reached the latest registration or handled temporary response in the run plus the whole seconds of the timeout its call was given. |
| PeerDeadlines.StartHistory | src/rabbitmqclient.cpp:1064-1076 | The start time of every listed timer is the clock of the latest step that registered it or finished a temporary response to it. |
| PeerDeadlines.TimesOutExactly | src/rabbitmqclient.cpp:575-589 | Over every run, an id has its one timeout callback if and only if the handler is set and some sweep of the run found it listed at or after its deadline. |
| PeerDeadlines.TimeoutBound | src/rabbitmqclient.cpp:566-597 | For a timeout of T >= 0 ms the firing comes later than T - 1000 ms after the latest start or restart in the run and at most one sweep gap after the deadline. |
| PeerDeadlines.QuietSweepEmptiesList | src/rabbitmqclient.cpp:566-597 | Once registrations and temporary responses stop, the first sweep past all deadlines empties the list. |
| PeerDeadlines.EveryNotificationAnsweredOnce | src/rabbitmqclient.cpp:445-452 | The automatic answers tried are, in order, exactly the notifications delivered, with the same id and to the sender, except the one in hand. |
| PeerDeadlines.AnsweredNotificationEndsQuietly | src/rabbitmqclient.cpp:488-493 | Over every run, a notification whose final response has been handled has ended without a response callback, and with a timeout callback exactly if a sweep had reached its deadline before that; if none had, neither is ever made. |
| TopicPattern.ReplaceStars | src/rabbitmqclient.cpp:394-399 | The first loop ends and substitutes every star of the pattern, and nothing it inserted. |
| TopicPattern.ReplaceHashes | src/rabbitmqclient.cpp:401-406 | The second loop ends and substitutes every hash. |
| TopicPattern.CompilePattern | src/rabbitmqclient.cpp:390-409 | The two loops together give the character-wise substitution of the original pattern, between anchors. |
| TopicPattern.TwoPassesAreOne | src/rabbitmqclient.cpp:394-406 | Stars first and hashes second equals substituting each character once. |
| TopicPattern.OrderMatters | src/rabbitmqclient.cpp:394-406 | The other order is right if and only if the pattern holds no hash. |
| TopicPattern.BodyParses | src/rabbitmqclient.cpp:392-409 | The generated expression parses to exactly one node per pattern character, also for adjacent wildcards. |
| TopicPattern.MatchMeans | src/rabbitmqclient.cpp:411-412 | Backtracking over those nodes accepts exactly the keys the pattern means, read character by character. |
| TopicPattern.OneCharacterMeans | src/rabbitmqclient.cpp:392-412 | The keys a one-character pattern matches, in terms of the key alone: a star a non-empty run without dots, a hash any run and a dot any character without line terminators, any other character itself. |
| TopicPattern.PatternsConcatenate | src/rabbitmqclient.cpp:409-412 | A key matches a concatenation of patterns if and only if it splits into keys that match them. |
| TopicPattern.MatchRoutingKey | src/rabbitmqclient.cpp:390-413 | Compile, parse and match decides exactly what the pattern means. |
| AmqpTopics.AmqpMatchIsFound | src/rabbitmqclient.cpp:390-413 | Every key that matches by words with each `#` taking at least one word matches the generated expression. |
| AmqpTopics.HashFreeIsAmqp | src/rabbitmqclient.cpp:394-399 | Without `#`, the standard's match is the expression's match together with equal numbers of dots. |
| AmqpTopics.AgreesExactlyWithoutDots | src/rabbitmqclient.cpp:390-413 | The expression agrees with the standard on every key if and only if the pattern has at most one word. |
| AmqpTopics.AcceptsNothingMoreExactly | src/rabbitmqclient.cpp:409-412 | The expression accepts no key the standard refuses if and only if the pattern has at most one word, or only wildcards of which at most one is a star. |
| AmqpTopics.MissesNothingExactly | src/rabbitmqclient.cpp:401-406 | The expression misses no key of the standard if and only if no `#` stands beside another word. |
| AmqpTopics.Disagreements | src/rabbitmqclient.cpp:409-412 | Two concrete keys on which the expression and the standard differ. |
| AmqpTopics.WordsAndJoin | src/rabbitmqclient.cpp:390 | Keys and patterns as strings and as word lists are the same thing. |
| TopicDispatch.PutMembers | src/rabbitmqclient.cpp:415-417 | Registering keeps the map ordered and changes exactly the entry of its pattern. |
| TopicDispatch.EraseMembers | src/rabbitmqclient.cpp:419-421 | Unregistering keeps the map ordered and drops exactly the entry of its pattern. |
| TopicDispatch.Dispatch | src/rabbitmqclient.cpp:423-434 | No callback if no registered pattern matches; otherwise exactly one, that of the lexicographically least matching pattern. |
| TopicDispatch.LessIsLexicographic | src/rabbitmqclient.cpp:415-417 | The order of the map is the lexicographic one: a proper prefix comes first, else the first difference decides by the smaller character. |
| TopicDispatch.ChosenIsUnique | src/rabbitmqclient.cpp:415-417 | No two registrations can both be the one a key is dispatched to. |
| TopicDispatch.AmqpKeysHaveCallbacks | src/rabbitmqclient.cpp:423-434 | A key matching a registered pattern by words, each `#` taking a word, always has a callback. |
| Subscriptions.TopicClient.SubscribeTopic | src/rabbitmqclient.cpp:827-854 | Adds the topic to one set, registers the callback and tries to bind; refuses an empty topic or another mode. |
| Subscriptions.TopicClient.UnsubscribeTopic | src/rabbitmqclient.cpp:856-892 | Takes the topic from the shared set if it is there, else from the self set, with its callback. |
| Subscriptions.TopicClient.SetupQueues | src/rabbitmqclient.cpp:507-562 | Names, declares and binds by exchange type; the self queue is named only once. |
| Subscriptions.TopicClient.ConnectInit | src/rabbitmqclient.cpp:962-987 | Refuses while a connection object exists; otherwise goes as far as the environment lets it. |
| Subscriptions.TopicClient.RebindKeys | src/rabbitmqclient.cpp:1005-1010 | The loop binds every key of the set, in any order, except lost calls. |
| Subscriptions.TopicClient.ReconnectProc | src/rabbitmqclient.cpp:989-1018 | Closes, connects and rebinds as the transition function says. |
| Subscriptions.ReconnectHealsExactly | src/rabbitmqclient.cpp:989-1018 | After any run a reconnect makes the broker's bindings equal the two key sets, under the same queue names, if and only if for each non-empty set the connection opened and neither its queue nor a bind of its keys was lost. |
| Subscriptions.ReconnectMakesLive | src/rabbitmqclient.cpp:962-1018 | After any run, a reconnect in which nothing is lost, or a first connection, leaves both queues declared and rightly bound. |
| Subscriptions.HealedExactlyWithoutMisses | src/rabbitmqclient.cpp:827-892 | From then on, while topics come and go, the bindings of both queues equal the key sets at every moment if and only if the broker misses no bind or unbind call that had something to change. |
| Subscriptions.TopicCallWhileLive | src/rabbitmqclient.cpp:837-889 | A missed call leaves the bindings wrong for its own topic only. |
| Subscriptions.OwnQueueIsBound | src/rabbitmqclient.cpp:511-559 | After any run, connecting or reconnecting a point-to-point or broadcast client leaves exactly its own queue bound to exactly its own key, if and only if the connection opened, the queue was declared and one of its bind calls got through. |
| Subscriptions.ConnectOnlyOnce | src/rabbitmqclient.cpp:962-987 | Connecting succeeds if and only if there is no connection object and the attempt opens; with one it changes nothing. |
| Subscriptions.SelfQueueIsOwn | src/rabbitmqclient.cpp:788-802 | The self queue's name never equals the shared queue's. |
| Subscriptions.CallbacksAreHeld | src/rabbitmqclient.cpp:827-892 | Over every run callbacks are registered only for held topics. |
| Subscriptions.CoveredExactlyWithoutDouble | src/rabbitmqclient.cpp:868-888 | Every held topic has its callback at every moment of a run if and only if the run never unsubscribes a topic held in both sets. |
| Subscriptions.HeldTopicsAreDispatched | src/rabbitmqclient.cpp:423-434 | Over every run that unsubscribes no doubly held topic, a key that a held topic matches has a callback: the one of the least matching pattern. |
| Subscriptions.DoubleTopicLosesCallback | src/rabbitmqclient.cpp:868-878 | A concrete run that leaves a topic held and bound without its callback. |
| Subscriptions.UnsubscribeSucceeds | src/rabbitmqclient.cpp:282-288 | After any run unsubscribing succeeds exactly for a non-empty topic held in either set. |
| Subscriptions.SubscribeHolds | src/rabbitmqclient.cpp:827-854 | After any run a subscription succeeds exactly for a non-empty topic, which is then held in the set asked for under the new callback, all else as before. |
| Subscriptions.UnsubscribeUndoes | src/rabbitmqclient.cpp:827-892 | Unsubscribing undoes subscribing to a topic not held before. |
| RateLimiter.RbmqLogger.SetThreshold | src/rbloger.cpp:10-13 | Sets both limits. |
| RateLimiter.RbmqLogger.CleanupExpiredLogs | src/rbloger.cpp:27-36 | The erasing loop drops exactly the expired entries. |
| RateLimiter.RbmqLogger.Log | src/rbloger.cpp:39-70 | Updates the map and writes as the transition function says. |
| RateLimiter.ResetBranchIsDead | src/rbloger.cpp:52-62 | For a monotone clock the branch that restarts a live window is never taken. |
| RateLimiter.SuppressedExactlyWhenFull | src/rbloger.cpp:48-57 | A call is suppressed if and only if less than window + 1 seconds have gone by since its window began and that window already holds max(1, T - 1) writes. |
| RateLimiter.ContinuesExactlyInOpenWindow | src/rbloger.cpp:27-36 | The map holds a live entry for a call exactly if its window, read off the calls alone, has not run out. |
| RateLimiter.RateBound | src/rbloger.cpp:27-70 | Any interval of length L sees at most (floor(L / spacing) + 2) * max(1, T - 1) writes of one hash; the spacing is window + 1 seconds when both clock reads agree. |
| RateLimiter.NegativeWindowWritesAll | src/rbloger.cpp:30 | With a negative window every call writes. |
| HeaderCodec.IntPropsToTable | src/rabbitmqclient.cpp:123-190 | Every write stays inside the ten slots, which end up holding the encoding. |
| HeaderCodec.WireFormat | include/rabbitmqclient.h:32-42 | Keys, kinds, contents and order of the ten entries. |
| HeaderCodec.WireCodes | include/rabbitmqclient.h:21-30 | The number each message type travels as, and the type each number is read as. |
| HeaderCodec.StopsAtIllTyped | src/rabbitmqclient.cpp:42-116 | The first entry with an unknown key or the wrong kind stops the reading and fails; what was read before it stays. |
| HeaderCodec.TableToIntProps | src/rabbitmqclient.cpp:37-120 | The loop decodes in order, with the partly updated record on failure. |
| HeaderCodec.RoundTrip | src/rabbitmqclient.cpp:37-190 | Decoding an encoding into any record gives the encoded record with each string cut at its first NUL. |
| HeaderCodec.ExactRoundTrip | include/amqp.h:928-951 | The record comes back unchanged if and only if no string holds a NUL. |
| HeaderCodec.RoundTripInAnyOrder | src/rabbitmqclient.cpp:38-117 | The ten entries decode the same in every order. |
| HeaderCodec.OrderDoesNotMatter | src/rabbitmqclient.cpp:38-117 | So does any table of well-typed entries with distinct keys. |
| HeaderCodec.AcceptsExactlyWellTyped | src/rabbitmqclient.cpp:42-116 | Decoding succeeds if and only if every entry has one of the ten keys and its kind. |
| HeaderCodec.DecodeAppend | src/rabbitmqclient.cpp:38-119 | Decoding two tables in a row is decoding the second into what the first left, unless the first failed. |
| HeaderCodec.LastEntryWins | src/rabbitmqclient.cpp:38-117 | An earlier entry for a key has no effect when a later one follows. |
| LockOrder.PathsAreOrdered | src/rabbitmqclient.cpp:894-924 | Every code path, with its early returns and not-found branches, takes the mutexes in rank order, except exactly a sweep whose timeout callbacks enter the timer list and the heartbeat-error branch. |
| LockOrder.NestingIs | src/rabbitmqclient.cpp:764-777 | A mutex is taken inside another only in the listed pairs: under the handler mutex or the timer mutex, for logging, and the connection mutex inside itself over a heartbeat error. |
| LockOrder.CallbacksRunInside | src/rabbitmqclient.cpp:568-589 | Whatever mutex a call takes is taken under the handler mutex when a response callback makes it and under the timer mutex when a timeout callback does. |
| LockOrder.ClientNeverDeadlocks | src/rabbitmqclient.cpp:764-777 | With any number of threads on the other paths no reachable state has a circle of waiting threads, and some unfinished thread can always step. |
| LockOrder.ClientStopsExactly | src/rabbitmqclient.cpp:697-704 | Some schedule brings a process to a stop, and some schedule has threads waiting in a circle, if and only if some thread takes one of those two paths. |
| LockOrder.ReentryStopsExactly | src/rabbitmqclient.cpp:568-587 | In any process, some schedule makes a thread wait for a mutex it holds itself if and only if its work holds one of those two paths. |

## Left out

- The AMQP library behind `include/amqp.h` is declarations only. The broker is a set of queues and bindings and a network of published messages; the library's pools, tables and frames are not part of this model.
- Sockets, login, sleeping and joining of threads, and re-initialisation after `rabbitmq_free`.
- In the step system, the heartbeat-error branch of the receive loop; the lock model has it.
- In the lock model, the joins of `rabbitmq_free`, which wait for threads and not for mutexes.
- Memory-level effects of the task address that outlives its lock, and of the callback map being read and written under different mutexes.
- Overflow of the id counter: ids are unbounded numbers. Header fields are unbounded too, since each is written to and read from a field of its own width.
- Calls made before the first `rabbitmq_init`, which hand the library a null connection.
- TopicPattern.BodyParses: patterns with operators of regular expressions other than the dot, or with line terminators, are not covered, because their meaning belongs to the C++ regular-expression library.
- TopicPattern.MatchRoutingKey: covers the same patterns, for the same reason.
- TopicDispatch.Dispatch: covers callback maps of such patterns only, for the same reason.
- Header records whose message type is outside the enumeration are not covered by the round trip; the conversion back is unspecified there.
- `writeLog`'s file handling and rotation, time formatting, version strings and fanout printing.
