# com_ipc: a verified model

com_ipc connects processes through POSIX shared memory and UDP. Publishers put payloads in one
100 MB pool that all topics share; a topic is a ring of twenty headers pointing into it. Services
use a one-slot mailbox in shared memory, or UDP. A recorder, a TCP gateway and an action layer are
built on top. Nothing in the code tracks who still reads a block, which slot is half written or
whose answer lies in the mailbox: correctness rests on arithmetic and on the order of steps.
This project models that behaviour in Dafny and proves what can be relied on, and exactly when.

`dafny verify dfyconfig.toml` checks everything.

## How it is built

| file | what it models |
|---|---|
| `Words.dfy`, `Outcomes.dfy`, `Sequences.dfy` | C integer types, little-endian byte images, short reads, optional values and exceptions, sequence facts |
| `PoolLayout.dfy`, `MemoryPool.dfy` | the wrapping bump allocator: its layout as functions, its class on an array |
| `TopicRing.dfy`, `Topic.dfy` | the header ring and its unbounded log; topic, publisher and subscriber as classes on arrays |
| `PubSub.dfy` | zero-copy publish/subscribe as interleaved steps: one per critical section, separate ones for every unlocked read or write of the pool |
| `Publishing.dfy` | what a publish, from its first step to its last, adds to its topic |
| `ExactWindow.dfy` | what happens outside the survival window: runs that tear a message |
| `CrashRing.dfy` | the same ring, store by store, with participants that die holding the lock |
| `ServiceProtocol.dfy`, `Service.dfy`, `ServiceTrace.dfy` | the shared-memory service call: the protocol as steps of any number of clients and one server, the code of both halves, and every interleaving of that code as a run of the protocol |
| `QosEnvelope.dfy`, `UdpTopic.dfy`, `UdpRpc.dfy` | the datagram envelope, UDP topics and UDP calls over a network that loses, repeats and reorders |
| `QosReceiver.dfy` | the script that filters and counts on top of a UDP topic |
| `Bag.dfy` | recording a topic to a file and playing it back |
| `Router.dfy` | the TCP gateway: send and receive loops, export and import framing |
| `Registry.dfy`, `SystemManager.dfy` | the registry of topics and nodes: over whole runs, and as linear searches over arrays |
| `ActionWire.dfy`, `ActionServer.dfy`, `ActionClient.dfy` | goals, feedback and results as nested messages, and the state both ends keep |

Code that changes state is a class or a method with loops. Its contract ties the new state to a
function of the old one, and the same functions are the steps of the state machines, so the theorems
about runs speak of the code. A wait, a network or a peer is a script: a sequence of what happens next,
over which every theorem quantifies.

## Findings

Several promises hold only under a condition. Each is proved as an equivalence, with the input that
breaks it.

- A block survives the allocations that follow it exactly if its size, theirs and the largest of theirs
  once more stay within the pool size plus 8 (`PoolLayout.BudgetIsTight`). Beyond that there is a run
  in which a subscriber is handed bytes that were never published (`ExactWindow.IntactExactlyInBudget`).
- The ring holds the last twenty messages exactly while none of them straddles a wrap of the 32-bit
  index, 2^32 not being a multiple of 20 (`TopicRing.RingHoldsLastTwenty`). The slot that subscribers
  read always shows the newest message (`TopicRing.NewestIsLast`), but a subscriber may look only while
  the topic's number is above its cursor: it gets at most 2^32 - 1 messages, and none after number
  2^32 - 1 (`PubSub.DeliveriesAreFew`, `PubSub.ShutOutUntilPassed`, `PubSub.DeafAfterLastNumber`).
- A reader is handed a message it already had, or one from before it joined, or zeros nobody published,
  exactly if the newest header's number is not above its cursor (`CrashRing.StaleIffNotAboveCursor`).
  It takes a publisher that died after taking a number, and then every receive repeats that header
  until a publish completes (`CrashRing.RepeatsWhileLost`). One death is enough on any topic, at any
  time, for any reader (`CrashRing.EveryTopicCanRepeat`, `CrashRing.NewReaderGetsOldMessages`,
  `CrashRing.ZerosFromANewTopic`).
- Service calls get the answers to their own requests in every run exactly if no request id is posted
  twice (`ServiceProtocol.DistinctIdsAreEnough`). Two client objects of one service both number their
  requests from 1.
- UDP calls get the answers to their own requests in every run exactly if no address sends two different
  requests under one id (`UdpRpc.ClashFreeScriptsAreSafe`). A client that starts over at its old address
  does (`UdpRpc.RestartClashes`), if the system gives it the same port again; one that stays up does
  after 2^32 calls (`UdpRpc.LongLifeClashes`).
- A UDP subscriber receives everything from a faithful network exactly up to 2^32 - 1 messages
  (`UdpTopic.FaithfulNetworkDeliversAll`). After number 2^32 - 1 it is deaf
  (`UdpTopic.DeafAfterLastNumber`).
- One object per topic name holds in every run exactly if no name exceeds 63 bytes and no two become the
  same file name once '/' is '_' (`Registry.CompatibleNamesAreEnough`).
- Action data of up to 256 bytes is accepted for sending, but goals arrive exactly up to 240 bytes and
  feedback and results up to 236; a larger one also blocks the topic until a newer message replaces it
  (`ActionWire.GoalArrives`, `ActionWire.ReportArrives`, `ActionWire.ReceiveMessage`).
- As nothing starts the cancel service, no goal is ever preempted (`ActionServer.NoCancelsNoPreemption`).
  Were it started, of two goals of one id the second would be preempted from the start exactly if the
  first was cancelled (`ActionServer.NamesakeIsPreempted`).
- `send_all` and `recv_all` return true when shutdown cuts them short. The importer nevertheless never
  publishes a torn frame, because the same signal disables publishing (`Router.ImportFrames`).
- A bag file cut inside a payload plays one last message of full size of which only the first bytes are
  recorded ones (`Bag.CutRoundTrip`).

## Model

| member | source | states |
|---|---|---|
| PoolLayout.SurvivalWindow | src/memory_pool.cpp:67-85 | For all sizes: a block is untouched by the requests after it, wherever the cursor stood, iff size + sum + max of the later ones is at most POOL_SIZE + 8; and then the cursor wraps at most once |
| PoolLayout.BudgetIsTight | src/memory_pool.cpp:67-85 | The same window over real allocation histories from an empty pool, both directions |
| PoolLayout.StaysAbove | src/memory_pool.cpp:75-81 | Within the budget, before the wrap: no placement touches the block, and at most one wrap follows |
| PoolLayout.UnluckyOffset | src/memory_pool.cpp:75-81 | For every run of sizes over budget, a position in the pool at which the block is overwritten |
| PoolLayout.LostInHistory | src/memory_pool.cpp:75-81 | For every run of sizes over budget, a history from an empty pool that overwrites the block |
| PoolLayout.BudgetMeansLive | src/memory_pool.cpp:67-85 | In any history, a block within budget overlaps none of the later blocks |
| PoolLayout.ChainGrows | src/memory_pool.cpp:75-81 | Each allocation keeps all blocks 8-aligned, inside the pool and placed by the rule |
| MemoryPool.MemoryPool.Allocate | src/memory_pool.cpp:67-85 | Throws iff the request exceeds the pool; otherwise extends the history by one block of the rounded size at the returned offset, where the invariant says it must be |
| MemoryPool.MemoryPool.LoanedPointerRoundTrip | src/memory_pool.cpp:87-98 | A loaned pointer maps back to its offset, except iff it is an empty loan made with the cursor at the end of the pool |
| TopicRing.StoresInOrder | src/publisher.cpp:29-36 | After any number of the seven stores of a publish, only one slot is changed, the counter first and the write index last |
| TopicRing.AllStoresArePush | src/publisher.cpp:29-36 | All seven stores together append one stamped header |
| TopicRing.ReplayStep | src/publisher.cpp:29-36 | After any log, both counters are its length in 32 bits and each publish changes only its slot |
| TopicRing.SlotShowsLastWriter | src/publisher.cpp:29-36 | A slot shows the last publish that wrote it |
| TopicRing.NewestIsLast | src/subscriber.cpp:94-98 | Across any number of 32-bit wraps, the slot before the write index holds the last message with the type, stamp, size and offset it was published with, under the topic's own number |
| TopicRing.SlotsCollide | src/publisher.cpp:29 | When two of twenty consecutive publishes share a slot: only sixteen apart across a wrap of the index |
| TopicRing.RingHoldsLastTwenty | inc/com_ipc_types.h:145-157 | The ring refines the log: it holds the last twenty headers iff the index has not wrapped within them |
| TopicRing.RingBeforeWrap | src/publisher.cpp:29-36 | Below 2^32 publishes, seq and write_index equal the number of publishes and slot i mod 20 holds header i |
| Topic.TopicShm.Append | src/publisher.cpp:26-38 | The critical section, store by store on the array, appends one entry to the log the ring stands for |
| Topic.Publisher.PublishRaw | src/publisher.cpp:18-41 | Refused on shutdown, throws iff too large; otherwise one block, its bytes in the pool and nothing else changed, one log entry pointing at it |
| Topic.Publisher.LoanRaw | src/publisher.cpp:44-47 | A pointer to a fresh block of the rounded size, or an exception iff too large |
| Topic.Publisher.PublishLoaned | src/publisher.cpp:50-71 | Throws iff the pointer is not from the pool; otherwise one log entry with the pointer's offset and the caller's size in 32 bits, whatever that is |
| Topic.Subscriber.constructor | src/subscriber.cpp:5-18 | A new subscriber's cursor is the topic's current number |
| Topic.Subscriber.AwaitMessage | src/subscriber.cpp:58-91 | Waits exactly as long as it must, over every script of wake-ups, publishes, expiries and shutdown, and may read iff the cursor is behind, nothing expired and no shutdown |
| Topic.WaitRules | src/subscriber.cpp:58-91 | What that means: shutdown and a message already there end it at once; without a time-out nothing is waited for; a first wait that expires ends a timed receive with nothing and is nothing to an unlimited one; one that brings a message is the last; one that brings nothing is not |
| Topic.Subscriber.ReadNewest | src/subscriber.cpp:94-98 | The header read is that of the last publish |
| Topic.Subscriber.ReceiveRaw | src/subscriber.cpp:55-114 | For headers that describe pool memory: succeeds iff it may read and the message fits; then the buffer holds the newest header and its pool bytes, the rest of it unchanged, and the cursor is that message; otherwise nothing changes |
| Topic.HeaderRoundTrip | inc/com_ipc_types.h:74-80 | The 24 bytes put before a received message read back as the header |
| Topic.HeaderBytes | inc/com_ipc_types.h:74-80 | The 24 bytes one by one: type, number, stamp, size, offset, each least significant byte first |
| Topic.Subscriber.ReceiveLoaned | src/subscriber.cpp:116-159 | Succeeds iff it may read; then pointer, size and number are those of the newest message |
| PubSub.PayloadIntegrity | src/subscriber.cpp:93-159 | In every interleaving in which each pool access is to a block not given out again, all bytes copied, and all bytes viewed while the block is live, are those the publisher put there |
| PubSub.BudgetIntegrity | src/memory_pool.cpp:67-85 | The same for copies from arithmetic alone: it suffices that every access falls within the block's survival budget |
| ExactWindow.IntactExactlyInBudget | src/memory_pool.cpp:67-85 | End to end: with all other accesses in time, a message whose block is followed by these allocations reaches every reader intact in every run iff they are within its budget |
| ExactWindow.InBudgetIsNeverTorn | src/subscriber.cpp:93-112 | Within the budget no run hands out other bytes, even if only reads of that block are not known to be in time |
| ExactWindow.EarlyReuseTears | src/subscriber.cpp:93-112 | For every history that reuses a block early, a run in which a subscriber returns bytes its publisher never wrote |
| ExactWindow.TearingRun | src/publisher.cpp:44-71 | Builds that run: publish, look, reuse, overwrite, copy |
| PubSub.StepKeepsShape | src/publisher.cpp:18-71 | Every step of every participant keeps the structural invariant, timely or not |
| PubSub.StepKeepsData | src/publisher.cpp:18-71 | Every timely step keeps the invariant that live blocks hold their owners' bytes |
| PubSub.RunKeepsData | src/publisher.cpp:18-71 | Both invariants hold in every state of every timely run |
| PubSub.WriteKeepsUndisturbed | src/publisher.cpp:22-24 | Writing into one live block disturbs no other |
| PubSub.BudgetIsTimely | src/memory_pool.cpp:67-85 | Within its budget a block may be accessed |
| PubSub.DeliveryOrder | src/subscriber.cpp:62-109 | In every run and across 32-bit wraps, deliveries strictly increase in the log and in their numbers, and none precedes joining; the messages whose bytes `receiveRaw` returned are among them and strictly increase too |
| PubSub.DeliveriesAreFew | src/subscriber.cpp:62 | A subscriber gets at most 2^32 - 1 messages, fewer the higher the number stood when it joined, and no more copies than that |
| PubSub.ShutOutUntilPassed | src/subscriber.cpp:62 | It may look iff the number of publishes, in 32 bits, is above its cursor |
| PubSub.DeafAfterLastNumber | src/subscriber.cpp:62 | After number 2^32 - 1 it never receives anything again, by copy or by pointer, in any run |
| PubSub.LookTakesNewest | src/subscriber.cpp:94-105 | What a receive takes is the newest message, never seen before; `receiveRaw` takes nothing iff it does not fit the buffer, and then nothing changes |
| PubSub.CopyReturns | src/subscriber.cpp:104-110 | The copy that ends is returned, as long as what was published; its message was not delivered before, and the cursor is then its number |
| PubSub.ReceiveInOneGo | src/subscriber.cpp:55-114 | A `receiveRaw` nobody interferes with returns the newest message's pool bytes, and the guard is closed afterwards |
| PubSub.LoanReturns | src/subscriber.cpp:116-159 | `receiveLoaned` delivers the newest message, once, and moves the cursor to its number |
| PubSub.JoinStartsFresh | src/subscriber.cpp:12-17 | A subscriber that has just joined may not look: what was published before is not for it |
| PubSub.LookFindsNewest | src/subscriber.cpp:62-98 | When the guard passes there is an unseen message, and the slot read is the newest |
| PubSub.AtMostOneMore | src/subscriber.cpp:62-110 | Once publishing stops, a subscriber gets at most one more message, the last one, and returns at most one more copy, of that; and then its guard is closed |
| Publishing.RawPublishAppends | src/publisher.cpp:18-41 | In every run, whatever comes between: a `publishRaw` puts exactly one message on its topic when it ends, with the type and the bytes it was begun with, in a block of their rounded size; other topics stay as they are |
| Publishing.LoanPublishAppends | src/publisher.cpp:44-71 | The same for a loan: the message is the first bytes, as many as the publisher says, of what was written to the block it was given |
| Publishing.OnlyPublishingAppends | src/publisher.cpp:26-36 | No other step touches a topic |
| Publishing.FillWrites | src/publisher.cpp:44-47 | Bytes written to a loan are in its block and in the pool, and nothing else in the block changes |
| CrashRing.StepKeepsInv | src/system_manager.cpp:34-46 | Below 2^32 attempted publishes it also keeps the order of the numbers |
| CrashRing.StepKeepsWhole | src/system_manager.cpp:34-46 | Every store, death and recovery keeps what readers see whole, for any number of publishes |
| CrashRing.RunKeepsWhole | src/publisher.cpp:26-38 | The newest slot holds the last complete header in every state of every run |
| CrashRing.RunKeepsInv | src/publisher.cpp:26-38 | The order of the numbers holds in every run up to 2^32 attempted publishes |
| CrashRing.ReadersGetWholeHeaders | src/subscriber.cpp:94-109 | Wherever publishers die and however many publishes there are, a receive takes the newest complete header |
| CrashRing.DeliveriesNeverFall | src/subscriber.cpp:94-109 | The numbers a reader gets never fall |
| CrashRing.CompletionRestores | src/publisher.cpp:29-36 | The next completed publish makes the newest header carry the topic's number again |
| CrashRing.GuardOpensIff | src/subscriber.cpp:62 | For every reader: the guard is open iff its cursor is below the newest number plus the publishes lost since |
| CrashRing.StaleIffNotAboveCursor | src/subscriber.cpp:62-109 | A receive takes a header the reader had, or one from before it joined, or zeros, iff the header's number is not above the cursor; and only with a publish lost |
| CrashRing.ReceiveAgain | src/subscriber.cpp:109 | After a receive the guard is open again iff a publish is lost |
| CrashRing.RepeatsWhileLost | src/subscriber.cpp:62-109 | While a publish is lost, any number of receives all take the same header |
| CrashRing.EveryTopicCanRepeat | src/publisher.cpp:26-38 | Every run can be continued by one death and any number of receives of any reader that all take the same header |
| CrashRing.NewReaderGetsOldMessages | src/subscriber.cpp:12-17 | Every run can be continued so that a reader that just joined gets a message from before it joined, any number of times |
| CrashRing.ZerosFromANewTopic | src/subscriber.cpp:94-109 | The same on a new topic, where the reader gets zeros nobody published |
| ServiceProtocol.StepKeepsInv | inc/service_client.h:34-84 | Every section of clients and server keeps the mailbox invariant, if posted ids are new |
| ServiceProtocol.RunKeepsInv | src/service_server.cpp:28-101 | The mailbox invariant holds in every run |
| ServiceProtocol.SuccessfulCallsGetTheirAnswer | inc/service_client.h:66-87 | Over all time-outs, resets, failed and slow callbacks: a successful call returns the callback's result for exactly its own request, and no two share one execution |
| ServiceProtocol.ExecutedAtMostOnce | src/service_server.cpp:53-72 | Each submitted request is executed at most once, nothing else is, and the flags are never both up when the lock is free |
| ServiceProtocol.CounterNumbersRequests | inc/service_client.h:50 | One client's counter numbers its requests 1, 2, 3 and so on |
| ServiceProtocol.OneCounterIsFresh | inc/service_client.h:93 | So one client object never reuses an id |
| ServiceProtocol.UndisturbedCall | inc/service_client.h:16-88 | From any state with a free mailbox and a ready server: a call nobody interferes with is executed once and returns the callback's result iff that has the expected size; the mailbox is free afterwards |
| ServiceProtocol.CallEnds | inc/service_client.h:36-87 | A client that gives up frees the mailbox, one that quits leaves it, and one that collects takes the answer iff it has its id and size |
| ServiceProtocol.DistinctIdsAreEnough | inc/service_client.h:78 | For every sequence of ids: all calls get the answers to their own requests in every run that posts under them iff no id repeats |
| ServiceProtocol.DistinctIdsAreFresh | inc/service_client.h:50 | Runs that post under distinct ids never post under a used one |
| ServiceProtocol.RepeatedIdMixesAnswers | inc/service_client.h:66-87 | For every sequence with a repeated id, a run in which a client is handed the answer to another's request |
| Service.ServiceClient.AwaitSlot | inc/service_client.h:24-46 | Ends with the first wake-up that failed, came with shutdown or found the slot free, and gets the slot iff that wake-up neither failed nor came with shutdown; every section is a protocol step |
| Service.ServiceClient.PostRequest | inc/service_client.h:48-57 | Puts the request under the next id in the free mailbox, takes back any old answer, and is a protocol step |
| Service.ServiceClient.AwaitAnswer | inc/service_client.h:59-87 | Ends with the first wake-up that failed, came with shutdown or found a response, and succeeds iff the wait did not fail, there was no shutdown, and the response has this id and size; then the bytes are the response's and it is taken out; every section is a protocol step |
| Service.ServiceClient.Call | inc/service_client.h:16-88 | For every script of wake-ups: how long both waits take, the request goes out under the next id iff the slot was got, success iff the last wake-up brought the own answer, and the mailbox left in every case; the sections chain into protocol steps |
| Service.TurnFollowsProtocol | src/service_server.cpp:28-74 | A turn of the server executes iff the protocol lets it take, and leaves what replying or clearing leaves |
| Service.ServiceServer.SpinOnce | src/service_server.cpp:76-101 | Runs the callback iff a request is due, and replies to the mailbox as it is after the callback |
| Service.ServiceServer.ServiceLoop | src/service_server.cpp:28-74 | Executes exactly the requests due in its turns, in order, up to the first stop |
| Service.ExecutedAre | src/service_server.cpp:53-72 | Those requests are, each once and in order, those of the turns that found a request and no answer, after no crash and before any stop |
| ServiceTrace.SectionSteps | inc/service_client.h:22-86 | A section of a client's code is the same protocol step in the midst of all other participants |
| ServiceTrace.TraceIsRun | src/service_server.cpp:28-101 | Every interleaving of client sections and server turns is a run of the protocol, with the same mailbox, places, posted requests and callback results |
| ServiceTrace.CallsGetTheirOwnAnswer | inc/service_client.h:16-88 | In every interleaving of the code in which no id is posted twice, a section that succeeds returns what the callback made of exactly its own request |
| QosEnvelope.EnvelopeRoundTrip | inc/protocol.h:21-33 | Envelope and payload are read back from the packet they were written to |
| QosEnvelope.PacketBytes | inc/protocol.h:21-33 | The packet byte by byte: number, stamp, type, flags, payload |
| UdpTopic.UDPPublisher.Publish | src/udp_node.cpp:26-48 | Sends nothing for no data; otherwise one packet under the next number, and reports whether all of it was sent |
| UdpTopic.UDPSubscriber.Receive | src/udp_node.cpp:82-116 | Returns and moves the cursor by one rule for every datagram, failed or short ones included |
| UdpTopic.WhatIsDelivered | src/udp_node.cpp:90-115 | In the sender's terms: a packet is delivered iff the cursor stands at 0 or its number is above it; failed and short receives deliver nothing |
| UdpTopic.DeliversExactlyTheRecords | src/udp_node.cpp:100-115 | Over every arrival sequence, exactly the left-to-right maxima are delivered, each with its own bytes |
| UdpTopic.CursorIsNewest | src/udp_node.cpp:101-107 | The cursor is always the highest number that has arrived |
| UdpTopic.DeliveredInOrder | src/udp_node.cpp:82-116 | Deliveries are a duplicate-free, in-order selection of what was published and arrived |
| UdpTopic.FaithfulNetworkDeliversAll | src/udp_node.cpp:26-48 | A network that delivers everything once and in order makes every receive return its message iff fewer than 2^32 were sent; from the 2^32-th on nothing is delivered |
| UdpTopic.DeafAfterLastNumber | src/udp_node.cpp:101-107 | After number 2^32 - 1 has arrived nothing is ever delivered again, whatever arrives |
| UdpRpc.UDPServiceClient.Call | src/udp_node.cpp:131-180 | Skips everything that is no reply to this id; returns the first reply's payload, or empty on a time-out |
| UdpRpc.UDPServiceServer.ReceiveRequest | src/udp_node.cpp:201-219 | Lets through exactly the requests, with their id and sender |
| UdpRpc.UDPServiceServer.SendResponse | src/udp_node.cpp:221-239 | Answers under the id it was given; sends nothing for empty data |
| UdpRpc.WhatPasses | src/udp_node.cpp:174-176 | A call accepts exactly packets of type 2 under its id, the server those of type 1, and neither anything shorter than the envelope |
| UdpRpc.UndisturbedCall | src/udp_node.cpp:131-239 | From any state, a call nothing interferes with reaches the server as it is and returns the server's answer |
| UdpRpc.StepKeepsWire | src/udp_node.cpp:131-239 | Every send, delivery, repetition, time-out and restart keeps: whatever is on its way was sent by a call or by send_response |
| UdpRpc.StepKeepsInv | src/udp_node.cpp:131-239 | Every step under a fresh id keeps all returns backed by answers |
| UdpRpc.RunKeepsInv | src/udp_node.cpp:131-239 | It holds in every run of any number of clients |
| UdpRpc.LastingIsFresh | src/udp_node.cpp:136 | A client that never starts over and makes fewer than 2^32 calls never reuses an id |
| UdpRpc.ReplyHasThisId | src/udp_node.cpp:174-176 | A reply that passes the checks is never empty and answers a request that went out under this call's id |
| UdpRpc.ReplyIsForThisCall | src/udp_node.cpp:174-176 | If no address used an id twice, it answers this call's bytes, however late |
| UdpRpc.ClashFreeScriptsAreSafe | src/udp_node.cpp:131-180 | For every script of clients that come up, start over and call: in every run that follows it, all non-empty returns are answers to their own calls iff no address sends two different requests under one id, the earlier one small enough to arrive |
| UdpRpc.NoClashJustifies | src/udp_node.cpp:131-239 | Without such a clash every return in every run is justified |
| UdpRpc.ClashMixesAnswers | src/udp_node.cpp:161-179 | For every script with such a clash, a run in which a late answer is handed to another call |
| UdpRpc.RestartClashes | src/udp_node.cpp:136 | A client that calls, starts over and calls again is safe iff it makes the same request |
| UdpRpc.LongLifeClashes | src/udp_node.cpp:136 | One that stays up is safe iff calls a multiple of 2^32 apart make the same request; so up to 2^32 calls always |
| UdpRpc.NonEmptyReturnsAreAnswers | src/udp_node.cpp:131-180 | With fresh ids, a non-empty return is what the server passed to send_response for a request with this call's id and bytes |
| UdpRpc.EmptyMeansTimedOut | src/udp_node.cpp:164-168 | In every run, a call returns the empty string iff it timed out |
| QosReceiver.ReceiveLoop | scripts/qos_receiver.py:14-36 | Executed are exactly the left-to-right maxima, each gap between two of them is reported, and executed plus reported lost is the span from the first to the last number executed |
| QosReceiver.MaximaAreNewer | scripts/qos_receiver.py:20-36 | The commands executed are all those newer than every one before them, each once and in order |
| QosReceiver.CommandIsRead | scripts/qos_receiver.py:12-21 | A command packed as number, stamp, speed, steering and gear stands there byte by byte and is read under its number |
| QosReceiver.ExecutedAreNewest | scripts/qos_receiver.py:20-36 | In the sender's terms: a command is executed iff its number is above 0 and above that of every command received before; anything of another size is ignored |
| QosReceiver.HighestMoves | scripts/qos_receiver.py:26-36 | The stored number decides membership among the maxima |
| QosReceiver.SecondFilterIsIdle | scripts/qos_receiver.py:17-36 | On top of the topic's own filter, packed commands numbered upwards by the sender are executed iff the topic delivers them |
| Bag.RecordFrames | tools/com_bag.cpp:59-81 | The loop writes one frame per message received, in order, and nothing for a receive that timed out |
| Bag.DoRecord | tools/com_bag.cpp:35-86 | The file is magic, topic, then the frames |
| Sequences.PresentPicks | tools/com_bag.cpp:59-62 | Of the receives, exactly those that yielded something are kept, each once and in order |
| Bag.FileBytes | tools/com_bag.cpp:42-49 | The file begins "CBAG", length of the topic, topic, byte by byte |
| Bag.FrameBytes | tools/com_bag.cpp:65-70 | A frame is stamp, size and data, byte by byte |
| Bag.FramesInOrder | tools/com_bag.cpp:59-81 | Frame k stands after the frames before it and before those after it |
| Bag.InStream.Read | tools/com_bag.cpp:97-124 | What a file stream gives: the bytes asked for, or what is left and the end flag |
| Bag.ReadTopic | tools/com_bag.cpp:96-108 | Reads magic and topic as the file specification says, including a file that ends within them and leaves variables partly unset |
| Bag.PlayStream | tools/com_bag.cpp:115-152 | The play loop publishes, sleeps and throws exactly as the frame section specifies |
| Bag.DoPlay | tools/com_bag.cpp:89-156 | The player's result is a function of the file's bytes and, for a file cut within its magic or topic, of what the variables held before |
| Bag.RejectsOtherFiles | tools/com_bag.cpp:97-102 | Of files of four bytes or more, exactly those that do not begin "CBAG" are rejected |
| Bag.OversizeThrows | tools/com_bag.cpp:118-141 | A frame that claims more than the pool size ends playback with an exception, after everything before it was played and its own pause slept |
| Bag.CutInTopic | tools/com_bag.cpp:96-118 | A file that ends within its length or topic plays nothing, under what there is of the topic filled up with zeros |
| Bag.RoundTrip | tools/com_bag.cpp:42-152 | Playing what was recorded gives the same topic and the same frames with the same bytes |
| Bag.CutPlaysWholeFrames | tools/com_bag.cpp:118-152 | A frame section cut anywhere plays every whole frame, then at most the one the cut fell in |
| Bag.CutRoundTrip | tools/com_bag.cpp:96-152 | The same for a whole file cut anywhere after its topic; no further frame if the cut falls in a frame header |
| Bag.WholeIsMost | tools/com_bag.cpp:118-126 | The whole frames counted are exactly those that end at or before the cut |
| Bag.PausesTelescope | tools/com_bag.cpp:128-136 | Over non-decreasing positive stamps the pauses add up to the last stamp minus the previous one |
| Bag.PlaybackTakesRecordedTime | tools/com_bag.cpp:115-136 | Playback sleeps exactly from the first recorded stamp to the last |
| Bag.PlaySleeps | tools/com_bag.cpp:128-136 | The player's total sleep is the sum of the pauses between the frames it plays |
| Bag.NoPauseWithoutProgress | tools/com_bag.cpp:128-136 | Stamps that never rise cost no pause at all |
| Router.Connection.SendAll | tools/com_router.cpp:37-46 | What goes out is a prefix of the data; true iff all went out or shutdown came; all goes out whatever positive pieces it takes |
| Router.Connection.RecvAll | tools/com_router.cpp:48-57 | What comes in is a prefix of the stream; true iff complete or shutdown came; the result does not depend on the pieces |
| Router.SendFrame | tools/com_router.cpp:98-103 | Five sends put out the frame, or a prefix of it once shutdown or a failure came, and never anything beyond |
| Router.HybridBytes | tools/com_router.cpp:99-103 | A frame byte by byte: "HYBR", both lengths, metadata, payload |
| Router.DoExport | tools/com_router.cpp:82-106 | What went out is the frames of all messages taken, or a prefix of that after a failure or shutdown |
| Router.CutParses | doc/README.md:127-128 | The documented header parse of any cut of the export stream reads every message sent whole, and nothing else |
| Router.ExportedIsParsed | doc/README.md:127-128 | A receiver reads a prefix of the exported messages, and all of them if all bytes were sent |
| Router.ImportFrame | tools/com_router.cpp:158-165 | One frame, or a fragment that shutdown passed off as one, which holds no whole frame |
| Router.ImportFrames | tools/com_router.cpp:158-169 | Published are exactly the frames received whole, for every chunking; after shutdown at most the last of them is missing, and nothing torn is published |
| Router.ReadHandshake | tools/com_router.cpp:141-150 | Reads magic, topic length and topic; a stream that ends early leaves the length partly unset and the topic padded with zeros |
| Router.DoImport | tools/com_router.cpp:142-169 | Topic and frames are those of the bytes received for them, for every chunking, failure and shutdown; on a connection that delivers, the result is a function of the peer's bytes alone |
| Router.HandshakeBytes | tools/com_router.cpp:142-150 | The import format begins "CIPC", length of the topic, topic, byte by byte |
| Router.FrameBytes | tools/com_router.cpp:159-165 | A frame is its size and its data |
| Router.RejectsOtherStreams | tools/com_router.cpp:143-145 | A stream is rejected iff it does not begin "CIPC" |
| Router.OversizeEndsImport | tools/com_router.cpp:158-165 | A frame that claims more than the pool size ends the import with an exception, after everything before it was published |
| Router.FramesComeBack | tools/com_router.cpp:161-167 | Frames that fit the pool, sent in the import format, are taken in as they were |
| Router.ImportComesBack | tools/com_router.cpp:142-167 | A whole stream in the import format is taken in with its topic and frames |
| Registry.StepKeepsInv | src/system_manager.cpp:119-222 | With compatible names every attach and detach keeps the registry invariant |
| Registry.RunKeepsInv | src/system_manager.cpp:119-222 | It holds in every run |
| Registry.RegistryIsAMap | src/system_manager.cpp:119-222 | With compatible names: participants share an object iff they asked for the same name, entries are unique and at most MAX_TOPICS, and each subscriber count is the number of live subscribers that have counted themselves |
| Registry.AttachFinds | src/system_manager.cpp:119-222 | In every run with compatible names: an attempt gets in iff the name is registered, or it is a publisher and there is room; it gets the object everybody of the name has, a new name is registered, and any other attempt changes nothing |
| Registry.RegisteredByPublishers | src/system_manager.cpp:156-219 | Registered are exactly the names under which a publisher got in |
| Registry.CountsMove | src/system_manager.cpp:148-153 | A subscriber raises its object's count by one when it counts itself and lowers it by one when it leaves; publishers never change it |
| Registry.SubscriberFinds | src/system_manager.cpp:128-154 | From any state: what a publisher of a name that fits has just opened or created, the next subscriber of the name gets |
| Registry.SameFileIff | src/system_manager.cpp:120-124 | Two names share a file iff they differ only in slashes against underscores |
| Registry.CompatibleNamesAreEnough | src/system_manager.cpp:120-130 | One object per name in every run over a set of names iff the names are compatible |
| Registry.LongNameIsLost | src/system_manager.cpp:217 | A name of more than 63 bytes is never found again: a run in which two publishers of it get two objects |
| Registry.SharedFileSplits | src/system_manager.cpp:170-179 | Two names with one file: a run in which participants of the first name end up on two objects |
| SystemManager.MatchIsEquality | src/system_manager.cpp:130 | The 64-byte comparison with a 63-byte entry is equality of names, and fails for a longer name's own entry |
| SystemManager.SystemManager.FindTopic | src/system_manager.cpp:129-130 | The linear search finds a name iff it is registered |
| SystemManager.SystemManager.CreateTopic | src/system_manager.cpp:169-218 | Creates the object, unlinking a file that is in the way, and one entry |
| SystemManager.SystemManager.CreateOrGetTopic | src/system_manager.cpp:119-222 | Changes the tables and answers exactly as the registry step, including full table, missing file and left-over file |
| SystemManager.SystemManager.Leave | src/subscriber.cpp:20-31 | Lowers the count of the subscriber's own object, not below zero |
| SystemManager.SystemManager.RegisterNode | src/system_manager.cpp:337-355 | The lowest free slot, never a live node's id, or -1 iff all are taken; node_count stays the number of live nodes |
| SystemManager.SystemManager.UnregisterNode | src/system_manager.cpp:358-366 | Frees exactly that node, ignores other numbers, keeps node_count exact |
| SystemManager.SystemManager.GetNodePid | src/system_manager.cpp:382-394 | The process of the first live node of that name, or -1 iff there is none |
| ActionWire.GoalArrives | inc/action_client.h:17-30 | A goal comes out of the message byte for byte iff its data is at most 240 bytes |
| ActionWire.ReportArrives | inc/action_server.h:20-42 | Feedback or a result comes out with id, status and bytes iff its data is at most 236 bytes |
| ActionWire.GoalBytes | inc/com_ipc_types.h:83-88 | A goal message byte by byte: id, stamp, size, data |
| ActionWire.ReportBytes | inc/com_ipc_types.h:91-106 | A report message byte by byte: id, status, stamp, size, data |
| ActionWire.OnlyGoalsAreGoals | src/action_server.cpp:84-89 | For every header and payload received: a goal comes out iff the type is MSG_CUSTOM and there are at least 16 bytes, with the id and data that stand there |
| ActionWire.OnlyReportsAreReports | src/action_client.cpp:41-51 | The same for feedback and results, with at least 20 bytes |
| ActionWire.PublishedGoalArrives | src/action_server.cpp:84-89 | The same from the topic's newest message, if its block is live |
| ActionWire.PublishedReportArrives | src/action_client.cpp:40-50 | The same for feedback and results |
| ActionWire.ReceiveMessage | src/action_server.cpp:80-84 | The loops' receive yields the newest message iff it fits 280 bytes; one that does not fit leaves the cursor where it was |
| ActionWire.PublishMessage | inc/action_server.h:29 | Publishes the encoded bytes as the topic's newest message, unless shut down |
| ActionServer.ActionServer.CancelCallback | src/action_server.cpp:59-71 | Preempts the id iff a goal of it was taken in; always returns true |
| ActionServer.ActionServer.TakeIn | src/action_server.cpp:85-95 | Queues and activates exactly the goal in the message, and changes nothing without one |
| ActionServer.ActionServer.TakeOut | src/action_server.cpp:99-108 | Takes the goal with the least id, or -1 from an empty queue |
| ActionServer.ActionServer.ProcessTurn | src/action_server.cpp:81-115 | One round runs at most the goal that came in, and tells whether its callback finds it preempted; a message that is no goal runs nothing and leaves the sets alone |
| ActionServer.ActionServer.PublishFeedback | inc/action_server.h:21-30 | The report becomes the newest message of its topic |
| ActionServer.ActionServer.ProcessLoop | src/action_server.cpp:79-116 | Queue empty at every loop head; the callback log is the well-formed goals received, in order and with their data, except id -1; a goal is active iff taken in, preempted iff cancelled after that, and each callback finds its goal preempted exactly so, whenever the cancels come |
| ActionServer.CallsAre | src/action_server.cpp:79-116 | The goals run are those of the rounds whose message holds one with another id than -1, and by Sequences.PresentPicks each of them once and in order |
| ActionServer.OtherMessagesAreIgnored | src/action_server.cpp:86 | A message sent under another type than MSG_CUSTOM, or with less than 16 bytes, is no goal |
| ActionServer.ActionServer.PreemptedAreActive | src/action_server.cpp:59-71 | The preempted goals are a subset of the active ones |
| ActionServer.NoCancelsNoPreemption | src/action_server.cpp:73-77 | Without cancel requests, which nothing delivers in the program as it is, no callback ever finds its goal preempted |
| ActionServer.NamesakeIsPreempted | src/action_server.cpp:59-77 | With them: of two goals of one id, processed one after the other, the second is preempted at the start of its callback iff the first was cancelled |
| ActionClient.ActionClient.SendGoal | inc/action_client.h:17-36 | The goal goes out under the next id and is pending, even if its result came in before it was put down as pending; -1 if publishing is refused |
| ActionClient.ActionClient.OnResult | src/action_client.cpp:86-108 | A received result becomes its goal's entry and ends its being pending; nothing else changes, and without one nothing does |
| ActionClient.ActionClient.OnFeedback | src/action_client.cpp:35-55 | Received feedback becomes its goal's entry |
| ActionClient.WhatArrives | src/action_client.cpp:91-104 | A message arrives as a report iff it fits, was sent under MSG_CUSTOM and has at least 20 bytes, with the goal, status, size and bytes that stand in it |
| ActionClient.PendingAfter | inc/action_client.h:29-33 | A goal is pending from when it was sent until its result comes in or is taken, and the events of other goals do not matter |
| ActionClient.ActionClient.IsFinished | src/action_client.cpp:57-60 | True iff a result came in and was not taken since |
| ActionClient.ActionClient.GetResult | inc/action_client.h:69-79 | Takes the latest untaken result if its size fits; otherwise leaves it |
| ActionClient.ActionClient.GetFeedback | inc/action_client.h:82-91 | The same for feedback |
| ActionClient.LatestIsNotYetTaken | src/action_client.cpp:86-108 | A table entry is a report iff it arrived for the goal and nothing happened to that goal's entry since |
| ActionClient.SentReportIsTaken | inc/action_client.h:69-91 | What arrived as sent is handed over as sent, to a caller of the right size only |

## Left out

- POSIX calls, their failures other than a missing or existing file, sockets, threads and real time: shared objects start zero-filled, a critical section is atomic, a timed wait is a free choice between waking and expiring.
- Liveness: nothing says that a message, answer or wake-up ever comes. The UDP call loop has no bound on noise packets.
- Crashes in the subscriber's condition waits: those paths do not repair the mutex, so recovery is modelled for participants that enter through `lockRobust` only.
- CrashRing.RunKeepsInv: numbers wrap at 2^32 attempted publishes, so their order is claimed up to there; that headers are whole is claimed without bound. The stores of a publish are taken in program order.
- PubSub.PayloadIntegrity: for runs in which every pool access is in time; `ExactWindow.dfy` shows what happens otherwise. Publishing one loan twice is not modelled.
- Topic.Subscriber.ReceiveLoaned: the pointer and size handed out may lie outside the pool if a publisher named a size that runs past its end, which nothing checks.
- Topic.Subscriber.ReceiveRaw: headers must describe pool memory, or the copy would run out of the mapping. In the class the two copies run undisturbed; interleaved copying is modelled in `PubSub.dfy`.
- Service.ServiceClient.Call: shutdown is seen at the start and at wake-ups; one that comes right after posting is a wake-up that finds the mailbox as posted.
- QosReceiver.CommandIsRead: the two floats of a command are opaque bytes; what the vehicle does with a command is not modelled.
- ServiceProtocol.SuccessfulCallsGetTheirAnswer: for requests whose ids never coincide; `ServiceProtocol.DistinctIdsAreEnough` says what holds otherwise. One client object guarantees that below the overflow of an `int`.
- UdpRpc.NonEmptyReturnsAreAnswers: for calls whose ids never repeat at one address; `UdpRpc.ClashFreeScriptsAreSafe` says what holds otherwise. Whether a client that starts over gets its old port is up to the system.
- UdpTopic.DeliversExactlyTheRecords: for arrivals among the first 2^32 - 1 messages of one publisher.
- Bag.DoPlay: a topic length too large for a string throws. The stop signal of recorder and player, and an empty frame met with the pool cursor at its very end, are not modelled.
- Router.DoImport: a topic length too large for a string throws. MessagePack metadata is opaque bytes below 4 GiB, and the payload is not overwritten while it is sent.
- Export followed by import: the exporter writes HYBR frames and the importer expects a CIPC handshake, so the two are not inverses.
- Registry.RegistryIsAMap: names hold no zero byte, and files are removed by nobody else.
- ActionServer.ActionServer.ProcessLoop: a goal that declares more data than its message holds is completed with arbitrary stale bytes; one beyond the 256-byte area reads out of bounds in the source.
- Success reporting of a cancel: the callback's return value overwrites it, and the cancel service is never started.
- Waiting for a result on the local condition variable, the unused `goalCallback`, and services being wiped when a server restarts.
- Strings: `publish(std::string)` sends a trailing zero that `receive` keeps.
- Python bindings, command-line tools, demos, logging and deployment.
