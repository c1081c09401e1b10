# Verified model of the IOCP server, its object pool, its wire format and its profiler

This project models the concurrent and the byte-level core of a Windows game-server library, and proves what that core
relies on. It has four parts.

* **The session life cycle** of `CLanServer`. A slot carries a reference count whose bit 47 is a "released" flag, a
  generation ID, a one-bit send token and a live bit. `SessionStep` gives the next atomic action of everything that can
  happen to a slot: each Interlocked call, each plain access to a shared field, each queue operation and each post is one
  step. `SlotProof` proves the slot invariant step by step, and `Frames` what steps leave alone. `Server` adds the slots
  together, the index stack, the accept thread and any number of callers, and lets all of them interleave. `ServerInv`,
  `ServerMove` and `ServerRun` prove one inductive invariant; `CountGuarantees`, `SessionGuarantees`, `MessageGuarantees`
  and `DeadGuarantees` draw the results from it. `StrandedRun` gives a schedule that shows what is not promised, and
  `Rescue` how long that lasts and what ends it. `SessionCalls` says what whole calls do to a session that nothing else
  touches meanwhile, and that the steps of one activity alone do just that; `ReceiveCalls` says so of the receive path and
  of ReleaseComplete, and `AcceptOrder` which session an accept takes and what it makes of it. `SessionObject` and
  `LanServer` are the same code as classes that update their fields in place, call by call and step by step.
* **The lock-free object pool** `CObjectPool`. `Pool` is a step machine of any number of threads in `Alloc` and `Release`
  over the packed head word; `PoolInv` and `PoolRun` prove that it is an atomic stack; `PoolAba` proves that the 17 tag
  bits suffice for exactly 2^17 tickets; `PoolObject` is the pool as a class, with its destructor.
* **The byte stream.** `Cipher` is `EnCoding` and `DeCoding`, over the byte arithmetic of `Bytes`; `RingBuffer` the receive ring; `Framing` and `FramingRun`
  cut a stream that arrives in any pieces; `Receiver` is the session's receiving side over both; `Delivery` and
  `EndToEnd` follow messages, and then whole remote calls, from sender to handler. `Wire` and `WireTrip` model what the
  IDL compiler emits for a signature and what the emitted code does; `Defaults` and `CustomTypes` are the compiler's
  two in-place text edits.
* **The profiler.** `Samples` says what the three smallest and three largest samples are and what trimming by them
  computes; `Profiler` is the manager and its entries as classes.

Fields that the code does not have are history, and are marked so where they are declared: they record what was pushed,
handed over, accepted or issued, and no step reads them to decide anything.

## Where the code falls short of what it promises

* **A session can be stranded.** `Disconnect` with an ID of an earlier generation increments the count, finds the
  mismatch, decrements, and does not attempt the release (CNetworkLib.cpp:396-400). If that was the last reference and
  nobody else is about to attempt the release, the session is left without references and without a release.
  `StrandsExactly` says that this is the only way, `NeverStranded` that runs without that branch are free of it,
  `SomeRunStrands` gives a run that ends so. It lasts until a later call happens to touch the slot: `StrandedLasts` proves
  that nothing is posted or returned along any run in which no SessionLock begins on the slot and no Disconnect reaches
  its exchange; `LockRescues` and `DisconnectRescues` that an undisturbed SessionLock under any ID, or Disconnect under
  the current one and no other, posts the release.
* **The pool's tag wraps.** A free node can be handed out twice when an `Alloc` is overtaken by 2^17 or more tickets and
  its node is pushed again meanwhile; `BoundIsExact` proves that 2^17 is the exact bound.
* **The receive ring can be too small.** With `max_MsgLen` above the ring's size less 5 (5000 against 2048 by default) a
  stream exists that fills the ring with one unfinished message and ends the connection; `ClogsExactly` gives the
  condition, in both directions and for rings of every size.
* **The message buffer can be overrun.** `CreateMessage` takes a whole message out of the ring into the 2000 bytes of a
  `CMessage`, and neither the limit of 5000 nor the ring of 2048 bytes keeps larger ones out: a header that states 1996
  to 2042 bytes is enough. `OverrunsExactly` proves that this happens if and only if `max_MsgLen` exceeds 1996 and the
  ring has more than 2001 bytes. Everything said here about received streams is said up to the first such message.
* **Many small messages at once end a connection.** One completion with 149 whole messages followed by another header is
  given up, so that there alone chunking matters; `Framing.DrainIsParse` states the condition for one completion.
  `SomeGivesUpExactly` proves that some connection is given up so if and only if `max_MsgLen` is above 0 and the ring
  above 750 bytes, and `GivesUpExactly` that one whose messages all have at least `l` bytes is if and only if the limit
  lets them through and the ring has more than 149 `l` + 5 bytes. So a sender whose messages all have 14 bytes or more
  is safe with the ring of 2048: `LongMessagesArrive`, `LongEncodedArrive` and `LongCallsArrive` make no exception.
* **Messages over 1004 bytes are encoded but never decoded.** `LongIsRefused` proves the limit in both directions.
* **Trimming is exact** only if the third smallest sample is at most INT_MAX and the third largest is not negative;
  `TrimmedIsMiddle` proves both directions.
* **A target without a closing quote** in `Replace_CustomeType` loses everything behind it, whatever closed ones stand
  before it; where nothing stands before it, the replacement then stands there twice. `UnclosedLosesTheRest` proves both,
  `EveryTextIs` that a text either has such a target or is one of those that `SwapKeepsOutside` speaks of.
  `ParametersAreLost`, `StartIsDoubled` and `OneOfTwoIsLost` show signatures to which it happens. The loop still ends,
  and leaves no target: `SwapLeavesNone`.
* **A default without a `,` or `)` behind it** makes the stripping loop read on behind the text; `StripInPlace` proves
  that this is exactly when.
* **A null tag** given to the profiler matches the first entry not in use, and its samples are counted for the next new
  tag; `UpdateEntry` says so.

## Model

| member | source | states |
|---|---|---|
| Pool.ValIsInjective | _Lib/CObjectPoolLib/CObjectPoolLib.h:55-67 | comparing the packed 64-bit word compares address and tag, which are its low 47 and high 17 bits |
| PoolInv.TagsTellApart | _Lib/CObjectPoolLib/CObjectPoolLib.h:55-67 | among fewer than 2^17 consecutive tickets equal 17-bit tags mean equal tickets |
| PoolInv.NoAba | _Lib/CObjectPoolLib/CObjectPoolLib.h:222-253 | a winning Alloc CAS finds the head it read never pushed again, and its copies of `_next` and of the next node's word still right |
| PoolInv.PushStep | _Lib/CObjectPoolLib/CObjectPoolLib.h:297-337 | a winning Release CAS keeps the whole invariant: chain, words, owners, and every other thread's copies |
| PoolInv.StepKeepsInv | _Lib/CObjectPoolLib/CObjectPoolLib.h:213-339 | every step of every thread keeps the invariant, in every timely interleaving |
| PoolRun.TheChain | _Lib/CObjectPoolLib/CObjectPoolLib.h:145-168 | following `_next` from `_top` reaches the dummy along exactly one path, the abstract stack |
| PoolRun.RefinesStack | _Lib/CObjectPoolLib/CObjectPoolLib.h:222-253 | in every reachable state a winning Alloc CAS takes exactly the head it returns and leaves the rest, a winning Release CAS pushes its node, and nothing else changes the stack in memory |
| PoolRun.SomeoneWon | _Lib/CObjectPoolLib/CObjectPoolLib.h:220-253 | a CAS loop repeats only because another CAS has won since the head was read |
| PoolRun.NewNodeMeansEmpty | _Lib/CObjectPoolLib/CObjectPoolLib.h:222-244 | Alloc makes a node if and only if it saw the stack empty |
| PoolRun.OneOwner | _Lib/CObjectPoolLib/CObjectPoolLib.h:213-339 | the free chain is acyclic, and every node is in exactly one of chain, callers' hands and one thread |
| PoolRun.NeverFollowsNull | _Lib/CObjectPoolLib/CObjectPoolLib.h:246-251 | every thread can always take its next step; a stale Alloc follows no null and reads no word of a non-node |
| PoolRun.CountersAreRight | _Lib/CObjectPoolLib/CObjectPoolLib.h:226-244 | both counters equal nodes made and nodes out, up to pending updates, and never go negative |
| PoolRun.ReadyToDestroy | _Lib/CObjectPoolLib/CObjectPoolLib.h:145-168 | after all releases the destructor finds zero active nodes and a chain of all nodes |
| PoolAba.BoundIsExact | _Lib/CObjectPoolLib/CObjectPoolLib.h:222-253 | a free node can reach a caller's hands if and only if more than 2^17 tickets are allowed in between |
| PoolObject.CObjectPool.PopCas | _Lib/CObjectPoolLib/CObjectPoolLib.h:253-253 | the CAS of Alloc in place is the machine's step, and wins exactly when the word is unchanged |
| PoolObject.CObjectPool.PushCas | _Lib/CObjectPoolLib/CObjectPoolLib.h:336-337 | the CAS of Release in place is the machine's step, and wins exactly when the word is unchanged |
| PoolObject.CObjectPool.Alloc | _Lib/CObjectPoolLib/CObjectPoolLib.h:213-287 | undisturbed, Alloc leaves the popped or the extended pool and returns that node |
| PoolObject.CObjectPool.Release | _Lib/CObjectPoolLib/CObjectPoolLib.h:289-339 | undisturbed, Release leaves the node on top under the next ticket |
| PoolObject.AllocIsPop | _Lib/CObjectPoolLib/CObjectPoolLib.h:213-287 | under the invariant that pop takes the head of the free nodes, and the stack is empty exactly when the head is the dummy |
| PoolObject.ReleaseThenAlloc | _Lib/CObjectPoolLib/CObjectPoolLib.h:213-339 | an Alloc after a Release gives out the released node and restores stack and callers |
| PoolObject.CObjectPool.Destroy | _Lib/CObjectPoolLib/CObjectPoolLib.h:145-168 | deletes each chained node once, in order, and traps exactly on a nonzero counter |
| PoolObject.DestroyBreaks | _Lib/CObjectPoolLib/CObjectPoolLib.h:145-168 | of a reachable pool that no thread uses, the traps fire if and only if a node is still out |
| SlotProof.LockKeepsCount | LoginServer_Project/CNetworkLib/CNetworkLib.cpp:667-718 | SessionLock and the head of Disconnect keep the count equal to the references while bit 47 is clear, and add none once it is set |
| SlotProof.DropKeepsRelease | LoginServer_Project/CNetworkLib/CNetworkLib.cpp:522-534 | the decrement, the 0-to-flag CAS and the post keep at most one release per accept under way |
| SlotProof.PushKeepsFlag | LoginServer_Project/CNetworkLib/CNetworkLib.cpp:766-785 | the push, its CAS on the send flag and its post keep one sender and no sleeping queue |
| SlotProof.RecvKeepsCount | LoginServer_Project/CNetworkLib/CNetworkLib.cpp:882-890 | posting a receive, its failure and its completion keep the count equal to the references |
| SlotProof.SendKeepsFlag | LoginServer_Project/CNetworkLib/CNetworkLib.cpp:586-611 | dropping the flag, the second look and regaining it keep one sender and no sleeping queue |
| SlotProof.BatchKeepsQueue | LoginServer_Project/CNetworkLib/CNetworkLib.cpp:612-655 | the pop loop and WSASend keep the order of pushed, popped, handed and queued messages |
| SlotProof.TeardownKeepsRelease | LoginServer_Project/CNetworkLib/CNetworkLib.cpp:656-666 | the drain and the index push keep posts, returns and accepts in step |
| SlotProof.StepKeepsSlot | LoginServer_Project/CNetworkLib/CNetworkLib.cpp:522-891 | every step on a slot keeps its count, flag, queue and release invariants, whatever else is in flight |
| ServerRun.StepKeepsInv | LoginServer_Project/CNetworkLib/CNetworkLib.cpp:62-891 | every action of the server keeps the invariant of all slots and activities |
| CountGuarantees.CountIsReferences | LoginServer_Project/CNetworkLib/CNetworkLib.cpp:636-654 | while bit 47 is clear the count is the number of references and no release is under way; when it is set there are none |
| CountGuarantees.ReleaseRunsAlone | LoginServer_Project/CNetworkLib/CNetworkLib.cpp:656-666 | from a won release CAS to the index push no other activity holds a reference or releases |
| CountGuarantees.DecrementsAreSafe | LoginServer_Project/CNetworkLib/CNetworkLib.cpp:931-1000 | decrements never wrap, and those of WSARecvError and WSASendError never reach zero |
| CountGuarantees.OneReader | LoginServer_Project/CNetworkLib/CNetworkLib.cpp:882-890 | a session's receive buffer has one user at a time |
| CountGuarantees.LockPins | LoginServer_Project/CNetworkLib/CNetworkLib.cpp:667-730 | after a true SessionLock the slot has the caller's ID, and no release is posted or running |
| CountGuarantees.PinLasts | LoginServer_Project/CNetworkLib/CNetworkLib.cpp:667-730 | through any run in which the call has not unlocked the slot keeps ID, accept, post and push counts |
| SessionGuarantees.StaleIdNeverLocks | LoginServer_Project/CNetworkLib/CNetworkLib.cpp:208-219 | an ID names its slot, and once the slot is accepted again no call with the old ID locks it |
| SessionGuarantees.ReleasedOnce | LoginServer_Project/CNetworkLib/CNetworkLib.cpp:136-148 | per accept at most one release post and at most one index push, in this order |
| SessionGuarantees.StrandsExactly | LoginServer_Project/CNetworkLib/CNetworkLib.cpp:396-400 | a session becomes stranded if and only if Disconnect's mismatch branch drops the last reference with nobody due |
| SessionGuarantees.NeverStranded | LoginServer_Project/CNetworkLib/CNetworkLib.cpp:692-730 | runs without that decrement never strand a session |
| SessionGuarantees.Quiescent | LoginServer_Project/CNetworkLib/CNetworkLib.cpp:136-148 | at quiescence every accepted session that is not stranded is referenced, or its release is posted, or its index is back |
| DeadGuarantees.DeadStays | LoginServer_Project/CNetworkLib/CNetworkLib.cpp:882-890 | until its index is returned a dead session stays dead, and only what had passed the test of the live bit still starts I/O |
| DeadGuarantees.DisconnectKills | LoginServer_Project/CNetworkLib/CNetworkLib.cpp:402-411 | Disconnect of the current ID makes the session dead until its index is returned |
| StrandedRun.SomeRunStrands | LoginServer_Project/CNetworkLib/CNetworkLib.cpp:381-415 | a complete run from Start ends with a stranded session and no running call that could free it |
| Rescue.StrandedLasts | LoginServer_Project/CNetworkLib/CNetworkLib.cpp:396-400 | a stranded session stays so, with nothing posted and nothing returned, along every run without a first step of SessionLock or an exchange of Disconnect on it |
| Rescue.LockRescues | LoginServer_Project/CNetworkLib/CNetworkLib.cpp:667-718 | a SessionLock that runs undisturbed on a stranded session posts its release, under any ID |
| Rescue.DisconnectRescues | LoginServer_Project/CNetworkLib/CNetworkLib.cpp:381-415 | a Disconnect that does so posts it if and only if it has the current ID |
| MessageGuarantees.OneSender | LoginServer_Project/CNetworkLib/CNetworkLib.cpp:586-609 | at most one activity per session is posting, posted, collecting or in WSASend |
| MessageGuarantees.NoLostWakeup | LoginServer_Project/CNetworkLib/CNetworkLib.cpp:770-777 | a queued message of an open session has a pusher before its CAS, a SendComplete before its second look, or a sender, which only a dead session may lack |
| MessageGuarantees.SendsInOrder | LoginServer_Project/CNetworkLib/CNetworkLib.cpp:612-655 | what is handed to WSASend, over all batches of at most 500, is a prefix of what was pushed, with nothing doubled |
| MessageGuarantees.NothingLostOrDoubled | LoginServer_Project/CNetworkLib/CNetworkLib.cpp:748-766 | each delivery's message is in exactly one place until it is released, and is released at most once |
| MessageGuarantees.ReleasedWithTheSession | LoginServer_Project/CNetworkLib/utility/clsSession.cpp:19-38 | when the index is back, queue and batch are empty and every delivery was released exactly once |
| MessageGuarantees.ReleasedForGood | LoginServer_Project/CNetworkLib/utility/clsSession.cpp:19-38 | in every later state each delivery to that connection has been released exactly once and is in no queue and no batch |
| MessageGuarantees.UseCountIsShares | LoginServer_Project/CNetworkLib/CNetworkLib.cpp:788-807 | the use count is the number of shares not released, never negative, and zero if and only if all are |
| MessageGuarantees.IndicesAreConserved | LoginServer_Project/CNetworkLib/CNetworkLib.cpp:198-221 | the stack holds no duplicates, stacked and used indices partition all, and stack plus session count differ from the maximum only inside the two windows |
| AcceptOrder.TakesTop | LoginServer_Project/CNetworkLib/CNetworkLib.cpp:196-206 | a waiting accept takes the top of the index stack |
| AcceptOrder.AcceptAlone | LoginServer_Project/CNetworkLib/CNetworkLib.cpp:207-222 | a whole accept makes the session of that index live, with its flag down, the ID index * 2^47 + count, one reference, and its first receive about to be posted |
| AcceptOrder.PushesIndex | LoginServer_Project/CNetworkLib/CNetworkLib.cpp:656-666 | ReleaseComplete puts the session's own index on top |
| AcceptOrder.StackRests | LoginServer_Project/CNetworkLib/CNetworkLib.cpp:196-206 | what is on the index stack stays there, in order, along every run that does not take it off |
| AcceptOrder.LastReturnedFirst | LoginServer_Project/CNetworkLib/CNetworkLib.cpp:196-206 | the index returned last is the one taken next, whatever runs in between |
| AcceptOrder.FirstAccepts | LoginServer_Project/CNetworkLib/CNetworkLib.cpp:292-293 | from Start with n sessions accept number k takes index n - 1 - k until one is returned, and none once all are taken |
| ServerMove.StartsOne | LoginServer_Project/CNetworkLib/CNetworkLib.cpp:62-151 | what a call posts or starts runs on its own session and under its own ID, and no other activity moves |
| SessionObject.Session.SessionLock | LoginServer_Project/CNetworkLib/CNetworkLib.cpp:667-718 | answers true if and only if the session has the ID, is referenced and shows no released bit; a session without references is released on the way, a released one keeps the increment, any other refusal changes nothing |
| SessionObject.Session.SessionUnLock | LoginServer_Project/CNetworkLib/CNetworkLib.cpp:720-730 | gives one reference up, and posts the release if and only if it was the last |
| SessionObject.Session.DecrementAndMaybeDelete | LoginServer_Project/CNetworkLib/CNetworkLib.cpp:522-534 | the same, with the count looked at before the CAS |
| SessionObject.Session.Disconnect | LoginServer_Project/CNetworkLib/CNetworkLib.cpp:381-415 | kills the session if and only if it has the ID and no released bit; posts the release only then, if there was no reference; under another ID it changes nothing and posts nothing |
| SessionObject.Session.Unicast | LoginServer_Project/CNetworkLib/CNetworkLib.cpp:746-786 | frees the message if and only if SessionLock refuses; otherwise queues it last, posts a send exactly if the flag was down, kills the session exactly at the limit, and keeps the references |
| SessionObject.Session.SendComplete | LoginServer_Project/CNetworkLib/CNetworkLib.cpp:562-655 | releases the last batch; sends the first 500 messages queued if the session lives; or drops the flag, and posts again exactly if a message came before it fell |
| SessionCalls.LockThenUnLock | LoginServer_Project/CNetworkLib/CNetworkLib.cpp:667-730 | a lock given back leaves the session as it was; a refused one does too, or posts the release of a session without references, or marks a released one |
| SessionCalls.OnlyDisconnectLeaves | LoginServer_Project/CNetworkLib/CNetworkLib.cpp:381-718 | a session without references is released by SessionLock under any ID, and by Disconnect under its own only |
| SessionCalls.LockAlone | LoginServer_Project/CNetworkLib/CNetworkLib.cpp:667-718 | the atomic steps of a SessionLock that nothing disturbs are the call |
| SessionCalls.UnlockAlone | LoginServer_Project/CNetworkLib/CNetworkLib.cpp:720-730 | the same of SessionUnLock |
| SessionCalls.DisconnectAlone | LoginServer_Project/CNetworkLib/CNetworkLib.cpp:381-415 | the same of Disconnect |
| SessionCalls.UnicastAlone | LoginServer_Project/CNetworkLib/CNetworkLib.cpp:746-786 | the same of Unicast, with the Disconnect that it calls at the limit behind it |
| SessionCalls.SendsAlone | LoginServer_Project/CNetworkLib/CNetworkLib.cpp:612-655 | the same of SendComplete when it finds messages: both loops, WSASend and its failure |
| SessionCalls.DropsFlagAlone | LoginServer_Project/CNetworkLib/CNetworkLib.cpp:586-611 | the same of SendComplete when it finds none, whatever others push before the flag falls |
| SessionCalls.SendBegins | LoginServer_Project/CNetworkLib/CNetworkLib.cpp:562-585 | a posted send and a completed one both begin by giving the last batch back |
| ReceiveCalls.PacketAlone | LoginServer_Project/CNetworkLib/CNetworkLib.cpp:830-891 | the atomic steps of a RecvPacket that nothing disturbs are the call: a receive is pending and counted if and only if the session lives, the ring has room and WSARecv does not fail; otherwise the session is dead and its count as before |
| ReceiveCalls.CompletesAlone | LoginServer_Project/CNetworkLib/CNetworkLib.cpp:116-148 | the steps of a completed receive are RecvComplete and the decrement behind it: one without bytes kills the session before anything else, and nothing is posted after a bad checksum or a Disconnect |
| ReceiveCalls.EntersAlone | LoginServer_Project/CNetworkLib/CNetworkLib.cpp:222-254 | the accept thread's steps behind `m_ioCount = 1` are OnAccept, RecvPacket if it agrees, and the decrement |
| ReceiveCalls.FirstReceive | LoginServer_Project/CNetworkLib/CNetworkLib.cpp:244-254 | a connection just let in lives with one receive pending exactly if OnAccept agrees, the ring has room and WSARecv does not fail; otherwise its release is posted |
| ReceiveCalls.LastReceive | LoginServer_Project/CNetworkLib/CNetworkLib.cpp:119-128 | a completion without a further receive leaves the session dead, and posts its release exactly if nobody else holds it |
| ReceiveCalls.PacketsOfRing | LoginServer_Project/CNetworkLib/CNetworkLib.cpp:849-890 | the session's side and the ring's side of RecvPacket agree on when a receive is pending |
| ReceiveCalls.ReturnsAlone | LoginServer_Project/CNetworkLib/CNetworkLib.cpp:656-666 | the steps of a posted release are ReleaseComplete: queue, then batch, are released in order and the index is returned |
| SessionObject.Session.RecvPacket | LoginServer_Project/CNetworkLib/CNetworkLib.cpp:830-891 | in place, what `ReceiveCalls.Packets` says: a counted receive or a dead session |
| SessionObject.Session.RecvComplete | LoginServer_Project/CNetworkLib/CNetworkLib.cpp:116-148 | in place, the completion with or without bytes, the end of the loop, and the reference given up |
| SessionObject.Session.Enter | LoginServer_Project/CNetworkLib/CNetworkLib.cpp:244-254 | in place, the accept thread from OnAccept to its decrement |
| SessionObject.Session.ReleaseComplete | LoginServer_Project/CNetworkLib/CNetworkLib.cpp:656-666 | in place, every message left is released and the index returned |
| SessionStep.FlagIsBit47 | LoginServer_Project/CNetworkLib/CNetworkLib.cpp:527-530 | the released flag is bit 47 of the count |
| SessionObject.Session.Release | LoginServer_Project/CNetworkLib/utility/clsSession.cpp:19-38 | releases the whole queue and then the batch, in order, and leaves both empty |
| SessionObject.DrainIsRelease | LoginServer_Project/CNetworkLib/utility/clsSession.cpp:19-38 | the single steps of ReleaseComplete release the same messages in the same order |
| LanServer.LanServer.Move | LoginServer_Project/CNetworkLib/CNetworkLib.cpp:62-151 | one action of an activity, in place, changes the server as the machine says, so it keeps the invariant |
| LanServer.LanServer.AcceptMove | LoginServer_Project/CNetworkLib/CNetworkLib.cpp:196-221 | one action of the accept thread, in place, changes the server as the machine says; a waiting one takes the top of the stack |
| LanServer.LanServer.Send | LoginServer_Project/CNetworkLib/CNetworkLib.cpp:788-829 | sets the use count to the number of targets and starts one delivery per target, in order |
| LanServer.LanServer.constructor | LoginServer_Project/CNetworkLib/CNetworkLib.cpp:280-293 | Start leaves the initial state of all runs: every index pushed, in order, nothing in flight |
| Cipher.DecodeEncode | LoginServer_Project/CNetworkLib/utility/SerializeBuffer_exception/SerializeBuffer_exception.cpp:113-172 | decoding an encoded message of at most 1004 bytes accepts it and gives it back, under every key |
| Cipher.LongIsRefused | LoginServer_Project/CNetworkLib/utility/SerializeBuffer_exception/SerializeBuffer_exception.cpp:137-140 | an encoded message is accepted if and only if it has at most 1004 bytes |
| Cipher.EncodeBytes | LoginServer_Project/CNetworkLib/utility/SerializeBuffer_exception/SerializeBuffer_exception.cpp:61-111 | three bytes as they were, the random key, and then every byte determined by the two encoded bytes before it, the fixed key 0x32, its place, the random key and the plain byte; the first plain byte is the payload's sum, cut to a byte |
| Cipher.DecodeBytes | LoginServer_Project/CNetworkLib/utility/SerializeBuffer_exception/SerializeBuffer_exception.cpp:113-172 | above 1004 bytes nothing; otherwise the plain bytes that fit the same equations, and a verdict that is whether the first is the sum of the others |
| Cipher.EncodeExample | LoginServer_Project/CNetworkLib/utility/SerializeBuffer_exception/SerializeBuffer_exception.cpp:61-111 | a message of one byte, byte by byte |
| Cipher.SumIsAdded | LoginServer_Project/CNetworkLib/utility/SerializeBuffer_exception/SerializeBuffer_exception.cpp:93-97 | the checksum is the sum of the bytes modulo 256 |
| Bytes.ThreeWraps | LoginServer_Project/CNetworkLib/utility/SerializeBuffer_exception/SerializeBuffer_exception.cpp:101-108 | adding in a byte is adding modulo 256 |
| Cipher.EnCoding | LoginServer_Project/CNetworkLib/utility/SerializeBuffer_exception/SerializeBuffer_exception.cpp:61-111 | the loops in place leave the encoded message, whose bytes fit the cipher's equations, and nothing else changed |
| Cipher.DeCoding | LoginServer_Project/CNetworkLib/utility/SerializeBuffer_exception/SerializeBuffer_exception.cpp:113-172 | the loops in place give the decoded message, whose bytes fit the same equations, and the verdict on its checksum; above 1004 bytes they change nothing |
| RingBuffer.Shared | LoginServer_Project/CNetworkLib/utility/MT_CRingBuffer/MT_CRingBuffer.cpp:39-56 | used and free bytes are all but one, and the direct parts are the contiguous ones |
| RingBuffer.WrittenIsHeld | LoginServer_Project/CNetworkLib/utility/MT_CRingBuffer/MT_CRingBuffer.cpp:187-214 | bytes written into the free segments are held last once the rear has moved over them |
| RingBuffer.CRingBuffer.Receive | LoginServer_Project/CNetworkLib/CNetworkLib.cpp:849-880 | a receive into the two posted segments lands behind the held bytes and spares them |
| RingBuffer.CRingBuffer.Peek | LoginServer_Project/CNetworkLib/utility/MT_CRingBuffer/MT_CRingBuffer.cpp:128-152 | copies the oldest bytes without taking them, or nothing, returning what is held |
| RingBuffer.CRingBuffer.Dequeue | LoginServer_Project/CNetworkLib/utility/MT_CRingBuffer/MT_CRingBuffer.cpp:95-126 | takes exactly the oldest bytes, across the wrap, or nothing |
| RingBuffer.CRingBuffer.MoveFront | LoginServer_Project/CNetworkLib/utility/MT_CRingBuffer/MT_CRingBuffer.cpp:216-230 | drops the oldest bytes |
| RingBuffer.CRingBuffer.MoveRear | LoginServer_Project/CNetworkLib/utility/MT_CRingBuffer/MT_CRingBuffer.cpp:187-200 | holds the received bytes behind those held before |
| RingBuffer.CRingBuffer.ClearBuffer | LoginServer_Project/CNetworkLib/utility/MT_CRingBuffer/MT_CRingBuffer.cpp:153-157 | holds nothing |
| Framing.ParseConserves | LoginServer_Project/CNetworkLib/CNetworkLib.cpp:454-518 | messages cut, the one refused and the bytes left are the stream |
| Framing.ParseIsExact | LoginServer_Project/CNetworkLib/CNetworkLib.cpp:468-508 | each message delivered is as long as its header says, fits its buffer and passes; the cutting stops at the first that does not |
| Framing.ParseSplit | LoginServer_Project/CNetworkLib/CNetworkLib.cpp:454-480 | cutting a stream in two parts is cutting it whole |
| Framing.DrainIsParse | LoginServer_Project/CNetworkLib/CNetworkLib.cpp:454-466 | one completion cuts as the greedy parse does, except that it gives up exactly on a header behind 149 messages |
| FramingRun.ChunksDoNotMatter | LoginServer_Project/CNetworkLib/CNetworkLib.cpp:438-520 | for every split into completions the result is the greedy parse of the stream, up to the first message larger than its buffer, or a prefix of its messages once too many came at once |
| FramingRun.RunConserves | LoginServer_Project/CNetworkLib/CNetworkLib.cpp:438-520 | over all completions every byte received is delivered, refused or still in the ring, which never overflows |
| FramingRun.SameStreamSameMessages | LoginServer_Project/CNetworkLib/CNetworkLib.cpp:438-520 | two splits of one stream deliver the same, unless one is given up for too many messages at once |
| FramingRun.MessagesArrive | LoginServer_Project/CNetworkLib/CNetworkLib.cpp:438-520 | well-formed messages sent back to back arrive as sent, with nothing left over |
| FramingRun.NeverFull | LoginServer_Project/CNetworkLib/CNetworkLib.cpp:849-860 | a receive is posted again unless the pending message exceeds the ring |
| FramingRun.NeverGivenUp | LoginServer_Project/CNetworkLib/CNetworkLib.cpp:454-466 | when every message is so long that the ring does not hold 149 and a header, no completion is given up and every split gives the greedy parse |
| FramingRun.LongMessagesArrive | LoginServer_Project/CNetworkLib/CNetworkLib.cpp:438-520 | well-formed messages of such a length arrive as sent, without exception |
| Receiver.Session.CreateMessage | LoginServer_Project/CNetworkLib/CNetworkLib.cpp:536-560 | into 2000 bytes: null if the ring holds less than the header promised, and then nothing is taken; an overrun exactly if it holds all of more than 2000 |
| Receiver.Session.RecvPacket | LoginServer_Project/CNetworkLib/CNetworkLib.cpp:830-891 | posts the next receive if and only if the session lives, the ring has room and WSARecv does not fail; otherwise the session is dead |
| Receiver.Session.TakeMessage | LoginServer_Project/CNetworkLib/CNetworkLib.cpp:481-518 | a whole message overruns its buffer exactly above 2000 bytes; otherwise CreateMessage is not null, and the message is decoded and delivered, or ends the session |
| Receiver.Session.RecvComplete | LoginServer_Project/CNetworkLib/CNetworkLib.cpp:438-520 | the loop over the ring delivers and leaves exactly what Drain says of the bytes held and received, and overruns a message buffer exactly when Drain says so |
| Delivery.EncodedIsExact | LoginServer_Project/CNetworkLib/CNetworkLib.cpp:487-510 | an encoded message is cut where it ends, passes, and yields its payload |
| Delivery.EncodedArrive | LoginServer_Project/CNetworkLib/CNetworkLib.cpp:438-520 | messages encoded under any keys are delivered once each, in order, however the stream is split |
| Delivery.LongEncodedArrive | LoginServer_Project/CNetworkLib/CNetworkLib.cpp:438-520 | encoded messages of such a length are all delivered, once each and in order, however the stream is split |
| Delivery.GivesUpExactly | LoginServer_Project/CNetworkLib/CNetworkLib.cpp:454-466 | a connection with messages of at least `l` bytes can be given up for too many at once if and only if the limit lets them through and the ring holds 149 of them with another header |
| Delivery.SomeGivesUpExactly | LoginServer_Project/CNetworkLib/CNetworkLib.cpp:454-466 | some connection is given up so if and only if the limit is above 0 and the ring above 750 bytes |
| Delivery.ClogsExactly | LoginServer_Project/CNetworkLib/CNetworkLib.cpp:849-860 | a stream exists that ends the connection by filling the ring if and only if the length limit, and what the length field can state, reach beyond the ring less the header |
| Delivery.OverrunsExactly | LoginServer_Project/CNetworkLib/CNetworkLib.cpp:536-560 | a stream exists that writes a message past its 2000 bytes if and only if the length limit exceeds 1996 and the ring 2001 |
| Wire.EmitProxy | IDL_Complier/IDL_Complier.cpp:617-655 | the loop emits the type word's put and then, in place k - 1, the put of word k for every k from 2 up to TypeOffset before the end |
| Wire.EmitStub | IDL_Complier/IDL_Complier.cpp:885-974 | the three loops emit, in place k - 2, the local and the get of word k for every k from 2 up to TypeOffset before the end, and all these words as the handler's arguments |
| Wire.PutsInOrder | IDL_Complier/IDL_Complier.cpp:628-654 | one put per parameter from the third word on, in order, of the kind that its type calls for |
| Wire.GetsInOrder | IDL_Complier/IDL_Complier.cpp:919-943 | the same of the gets |
| Wire.LocalsInOrder | IDL_Complier/IDL_Complier.cpp:885-918 | the same of the locals, a dynamic one of 4000 bytes |
| WireTrip.WritesData | IDL_Complier/IDL_Complier.cpp:628-654 | the puts append the arguments' bytes in order, and throw exactly when they do not fit |
| WireTrip.RoundTrip | IDL_Complier/IDL_Complier.cpp:919-943 | from what the puts wrote the gets take exactly that and hand over every argument from the third word on; the puts succeed if and only if the arguments fit |
| WireTrip.CutShortThrows | IDL_Complier/IDL_Complier.cpp:690-705 | a payload cut short anywhere throws HasNotData before the handler is called |
| WireTrip.NeverOverruns | IDL_Complier/IDL_Complier.cpp:687-687 | no get writes past a local in a message of at most 4000 bytes |
| WireTrip.ReadsWhatWrites | IDL_Complier/IDL_Complier.cpp:919-943 | what the Stub accepts is what a Proxy would have written of the values handed over |
| EndToEnd.MessageIs | IDL_Complier/IDL_Complier.cpp:30-54 | the Proxy's message is the header with the payload's length patched in, its low byte first, then type and arguments; it exists if and only if these fit |
| EndToEnd.DwordIs | IDL_Complier/IDL_Complier.cpp:628-654 | a length argument counts by its first four bytes, the first least |
| Receiver.LengthExample | LoginServer_Project/CNetworkLib/CNetworkLib.cpp:438-520 | a header whose length field reads 34 02 states 0x234 bytes |
| EndToEnd.CallsArrive | IDL_Complier/IDL_Complier.cpp:49-53 | calls encoded and sent back to back reach their handlers with type and arguments, once and in order, for every split of the stream |
| EndToEnd.LongCallsArrive | IDL_Complier/IDL_Complier.cpp:49-53 | calls whose payloads are long enough all reach their handlers, without exception |
| Defaults.StripInPlace | IDL_Complier/IDL_Complier.cpp:523-545 | the loop in place leaves the stripped text, no longer than before, ended by a NUL; it leaves the text if and only if some `=` has no `,` or `)` behind it |
| Defaults.StripLeavesNone | IDL_Complier/IDL_Complier.cpp:523-545 | no `=` is left |
| Defaults.StripTwice | IDL_Complier/IDL_Complier.cpp:826-843 | stripping stripped text changes nothing |
| Defaults.StripIsBare | IDL_Complier/IDL_Complier.cpp:826-843 | of a written parameter list exactly the declarations and separators stay, with a space for each default |
| Defaults.StripExample | IDL_Complier/IDL_Complier.cpp:826-843 | a signature with two defaults |
| CustomTypes.ReplaceCustomType | IDL_Complier/IDL_Complier.cpp:84-104 | the loop ends, with the text that its iterations make and no target left in it |
| CustomTypes.SwapLeavesNone | IDL_Complier/IDL_Complier.cpp:84-104 | replacing leaves no target, with or without closing quotes |
| CustomTypes.UnclosedLosesTheRest | IDL_Complier/IDL_Complier.cpp:84-104 | from the first target without a closing quote on the text is lost, behind any closed ones, which are replaced; with nothing at all before it the replacement stands twice |
| CustomTypes.EveryTextIs | IDL_Complier/IDL_Complier.cpp:84-104 | every text consists of closed targets and text between them, to its end or to a target that is not closed |
| CustomTypes.OneOfTwoIsLost | IDL_Complier/IDL_Complier.cpp:84-104 | a signature whose second target is not closed, so that the rest is lost behind the first |
| CustomTypes.ParametersAreLost | IDL_Complier/IDL_Complier.cpp:84-104 | a signature whose parameters are lost so |
| CustomTypes.StartIsDoubled | IDL_Complier/IDL_Complier.cpp:84-104 | a text that becomes the replacement twice |
| CustomTypes.SwapKeepsOutside | IDL_Complier/IDL_Complier.cpp:84-104 | with closed quotes the text outside the quoted parts stays as it is |
| CustomTypes.RealOnesFit | IDL_Complier/IDL_Complier.cpp:372-376 | both replacements made by FuncMaker are of the kind that these results need |
| Samples.LowsSnoc | _Lib/MTProfiler_Lib/MTProfiler_Lib.h:76-91 | one insertion into the three smallest is one more sample in the sorted whole |
| Samples.HighsSnoc | _Lib/MTProfiler_Lib/MTProfiler_Lib.h:94-108 | the same of the three largest |
| Samples.TrimmedIsMiddle | _Lib/MTProfiler_Lib/MTProfiler_Lib.cpp:118-131 | the trimmed total is that of the sorted middle samples if and only if the initial values have been displaced |
| Samples.MeanIsBetween | _Lib/MTProfiler_Lib/MTProfiler_Lib.cpp:118-133 | the trimmed mean lies between the third smallest and the third largest sample |
| Samples.OrdinaryTrims | _Lib/MTProfiler_Lib/MTProfiler_Lib.cpp:118-131 | for samples from 0 to INT_MAX trimming is exact and never negative, so the trap is unreachable |
| Profiler.KeepLow | _Lib/MTProfiler_Lib/MTProfiler_Lib.h:76-91 | the nested loops in place are insertion into the ascending three, the largest dropping out |
| Profiler.KeepHigh | _Lib/MTProfiler_Lib/MTProfiler_Lib.h:94-108 | the nested loops in place are insertion into the descending three, the smallest dropping out |
| Profiler.Entry.Add | _Lib/MTProfiler_Lib/MTProfiler_Lib.h:73-108 | keeps total, count, three smallest and three largest of all samples since the reset |
| Profiler.Entry.InitEntry | _Lib/MTProfiler_Lib/MTProfiler_Lib.h:137-148 | no samples, the tag kept |
| Profiler.Entry.Average | _Lib/MTProfiler_Lib/MTProfiler_Lib.cpp:118-133 | the mean of the trimmed total, breaking exactly when that is negative |
| Profiler.Manager.constructor | _Lib/MTProfiler_Lib/MTProfiler_Lib.cpp:91-102 | 30 free entries, the first on top |
| Profiler.Manager.UpdateEntry | _Lib/MTProfiler_Lib/MTProfiler_Lib.h:47-109 | a known tag gains one sample and no other changes; a new tag starts with the samples that came under a null tag; it breaks exactly on any other tag when 30 are known |
| Profiler.Manager.ResetEntry | _Lib/MTProfiler_Lib/MTProfiler_Lib.cpp:144-150 | every known tag has no samples, and stays known; nothing is kept from null tags |

## Left out

- Sockets, thread creation, logging, configuration files and crash dumps: the operating system is only "an outstanding operation completes at most once, and may succeed or fail".
- The accept thread's failure branches for `accept` and `CreateIoCompletionPort`, and `CLanServer::Stop`: a slot abandoned there is outside the protocol.
- The lock-free index stack and send queue inside the server: they are an atomic stack and an atomic queue with an exact size. The pool's own stack is modelled down to its words.
- Cancelling I/O has no modelled effect; a completion may come at any time anyway.
- The accept thread's first receive runs as an activity of its own, beside the next accept, and the targets of one `BroadCast` start together: both allow more interleavings than the code has.
- Callers pass session IDs whose index names a slot that has been accepted before; other IDs index outside or before the protocol.
- Counters stay within their widths (`Server.Fits`): fewer than 2^47 accepts, at most 2^17 slots, fewer activities than the count's low bits.
- A `BroadCast` to no targets sets the use count to 0 and releases nothing, so its message never returns to the pool; no delivery of it exists.
- TPS counters and `getAcceptTPS`, `getRecvMessageTPS`, `getSendMessageTPS`: plain statistics.
- `MonitorServer/CNetworkLib`: the same code as the LoginServer copy. `CGameServer_Echo` and the two `CLanClient.cpp`: altered protocols.
- The server without encoding: `headerSize` is then `offsetof(stHeader, sDataLen)`, so the length read by RecvComplete was never filled in.
- What happens once a message buffer is overrun: `Receiver` stops there and reports it.
- Receiver.Session.RecvComplete: `Disconnect` and the failures show there only as the cleared live bit; their counting is in `SessionStep`, where a call of `Disconnect` from the loop is an activity of its own.
- The error codes of WSARecv and WSASend: a call succeeds, pending or not, or fails, as `SessionStep.Choice` decides; so do OnRecv, OnAccept and the send limit.
- CRingBuffer's `Enqueue`: the server receives straight into the ring, so only the posted segments are modelled.
- A signed or 64-bit length argument of a dynamic field: `EndToEnd.Dword` reads lengths as unsigned and cut to 32 bits.
- `CMessage::ReSize` is reachable only through a comparison of an address with 2000, so puts that do not fit throw.
- The compiler skips the Proxy of a signature whose text contains "REQ", and the Stub of one whose type word contains "RES": `WireTrip.RoundTrip` and `EndToEnd.CallsArrive` speak of signatures that get both halves.
- WordSplit, IDL file scanning, `GetSize_ForSizeArray` and file output: the compiler model starts from the lists of types and words.
- An empty signature text: the stripping loop reads its first character before it looks at the length.
- Profiler.Entry.Average: the mean is a real number, so the rounding of the source's double is not modelled; nor is the 64-bit wrap-around of the totals.
- `Single_Profiler_lib` and `Profiler_lib`: near copies of the profiler. `CDB.h`, cpp_redis and tacopie: not part of this model.
- PoolObject.CObjectPool.Alloc: states the call when no other thread moves during it; the interleaved call is `Pool.Step`, and the theorems about it are in `PoolRun`.
- PoolObject.CObjectPool.Release: the same.
- SessionObject.Session.SessionLock: states the call when nothing else touches the session during it; the interleaved calls are the steps of `SessionStep`, and the theorems about them are in the modules of guarantees.
- SessionObject.Session.SessionUnLock: the same.
- SessionObject.Session.DecrementAndMaybeDelete: the same.
- SessionObject.Session.Disconnect: the same.
- SessionObject.Session.Unicast: the same; its message is named by the delivery.
- SessionObject.Session.RecvPacket: the same; the ring is full or not as the caller is told.
- SessionObject.Session.RecvComplete: the same; the loop over the ring, which is `Receiver.Session.RecvComplete`, shows only in how it ends.
- SessionObject.Session.Enter: the same; OnAccept is its answer.
- SessionObject.Session.ReleaseComplete: the same; the index stack and the session count are those of `LanServer`.
- SessionObject.Session.SendComplete: the same, but for what others push before the flag falls.
- Defaults.StripInPlace: what the loop writes once it has left the text is not modelled.
- The pool's trace and test macros, and `SetCapacity`, which only they read.
