# The device gateway, modelled and verified in Dafny

The gateway accepts TCP connections from devices. A thread pool runs a handler for each
connection. A handler authenticates the device, registers its services in a table of one-byte
ids shared by all devices, and announces them to a second process over a message queue. Later
connections from the same address exchange values. A timer walks the registry of addresses and
removes devices that have gone quiet.

The files follow that structure.

| file | what it models |
|---|---|
| `ThreadPool.dfy`, `ThreadPoolInvariants.dfy`, `ThreadPoolTheorems.dfy` | the thread pool as a transition system: one atomic action of one thread a step, any number of pushers, spurious wakeups; its inductive invariants; what it promises |
| `JobQueue.dfy` | the locked queue of the pool and `clear_queue`, and the steps of the pool as calls of it |
| `ServiceTable.dfy` | the allocator of ids: a class with a vector and two lists, refining a map, a set and a high-water mark |
| `Ownership.dfy` | many clients using the allocator at once |
| `Server.dfy` | table operations and the messages that mirror them, atomic and interleaved |
| `Services.dfy`, `Connection.dfy`, `Wrappers.dfy` | services, packets, the receiver's one-packet cursor and the results of `send` |
| `Registration.dfy`, `Session.dfy` | registering and unregistering services; the handshake of one connection |
| `Handshake.dfy` | all handler threads and everything that removes addresses, with a log of events |
| `Values.dfy`, `Exchange.dfy` | inputs and outputs; one exchange of values |
| `Registry.dfy` | the address registry, its ageing walk, and runs of events between walks |
| `Locks.dfy` | the lock operations of every path, and deadlock freedom |
| `Wire.dfy`, `Sesskey.dfy`, `Socket.dfy` | packet buffers, the layout of encrypted text, frames, and the socket loops |
| `Translation.dfy` | packets of the message queue; from the description a device sends to the one the second process reads |

What a device does is an arbitrary sequence of packets, the result of a `send` an arbitrary number,
the size of a `read` or `write` arbitrary. `std::map` iterates in the order of its keys. C strings
are the bytes up to the first 0. `time_t` has four bytes, which is what the packets of ten bytes
leave for it.

## Where the code departs from its intent

Except in the last bullet, the model does what the code does. Where that is not what the code is
for, the exact condition under which it is, or a concrete run on which it is not, is proved.

* `stop(true)` promises that all queued functions run (CTPL/ctpl_stl.h:141). A job whose `push` has
  not yet notified when `stop` begins can be discarded, and so can the jobs of a pool shrunk to no
  threads. `StopDrainsExactly` gives the exact condition on the state in which `stop` is called,
  `WhenStopDrains` two conditions that imply it and `StopMayDropPendingPush` a reachable state in
  which it fails.
* The index in ServiceTable.cpp:22-29 is an `unsigned char`. With 255 ids in use the next
  reservation resizes the vector to one entry, forgets every service and reserves id 0.
  `Table.Reserve` breaks the invariant exactly then, `OverflowIsReachable` shows that one client
  can bring it about and that it breaks ownership, and `OverflowKeepsMirrorExactly` that the second
  process keeps what it was told. From then on the other ids that are still reserved lie behind the end
  of the vector, and ServiceTable.cpp:56 would write there; `Push` is modelled on valid tables only.
* client.cpp:109 returns without the rollback. The ids taken so far stay reserved, and `LostForGood`
  shows that they are never free again. `AllOrNothingExactly` says for which dialogues a registration
  is all or nothing, `NothingLostExactly` on which runs no id is lost.
* Server.cpp:112-126 changes the table and sends the message in two steps. `MirrorAgreesExactly` says
  on which runs the second process agrees; `LateExitBreaksMirror` is one on which it does not.
* Service.cpp:22-25 yields a null pointer for an unknown class, which registration stores and
  dereferences later; the constructor of `Q_DESC` throws for a unit of more than three bytes after
  the table has been changed, which leaves a service that no client owns and the second process
  does not know, and the ids behind it reserved for good. Both are outcomes of `RegisterServices`.
* Service.cpp:83-89 clears `change` even if a request landed while the SET was under way.
  `ConfirmationLosesExactly` says when the request is lost, `LostUpdate` gives a run on which it is.
* client.cpp:214 and 229 take a failed `send` (-1) for success. `SucceedsExactly` says when an
  exchange succeeds, `DeliversExactly` when a successful one has delivered what it should, and
  `DeadConnectionSucceeds` is an input on which it has not.
* The walk of ConHandler.cpp:154-172 visits addresses, not clients, and can take the services of a
  client that was used. `KeepsServicesExactly` says when it does not; with two addresses it does
  (`SecondAddressLosesServices`).
* ConHandler.cpp:159-160 reads the flag and clears it under two locks. An exchange that succeeds in
  between is forgotten: `KeptExactly` says when the next walk keeps the client,
  `ExchangeBetweenIsLost` is a run on which it does not.
* An entry of the registry is always younger than the last removal of its address, but the handshake
  behind it need not be: `WholeExactly` says when it is, `OverlapBreaksIt` is a run on which it is not.
* ConHandler.cpp:75 erases an address without unregistering the services of its client, and
  ConHandler.cpp:98 can overwrite the address of another client. `StrandsExactly` shows that these are
  the only ways to leave services in the table that no walk can reach, and `StrandedForGood` that they
  stay there until the client registers again.
* ConHandler.cpp:71 reads the iterator after the shared lock has been given back, and ConHandler.cpp:75
  erases from the registry with no lock at all. What is proved about the locks says nothing of these
  two accesses, nor of ServiceTable.cpp:71-77, which reads the table without its lock; elsewhere each
  of them is modelled as one step.
* client.cpp:22-31 and ConHandler.cpp:158-170 erase an element and then step the iterator that pointed
  to it. Both loops are modelled as visiting every entry once.

## Model

| member | source | states |
|---|---|---|
| `ThreadPoolInvariants.InvStep` | CTPL/ctpl_stl.h:93-234 | every atomic step of every thread keeps the six invariants of the pool: mutual exclusion, which threads the pool still lists, phases of `resize` and `stop`, the wakeup count, nobody asleep after shutdown, and the whereabouts of every job |
| `ThreadPoolInvariants.ReachableInv` | CTPL/ctpl_stl.h:93-234 | they hold in every reachable state |
| `ThreadPoolInvariants.ReachableFresh` | CTPL/ctpl_stl.h:93-117 | in every reachable state the pool lists its threads in the order of their creation, and until `stop(false)` is called the listed ones were not told to stop, save those that a shrink under way has flagged |
| `ThreadPoolInvariants.WakeupWorker` | CTPL/ctpl_stl.h:209-231 | whatever a worker does, the jobs in the queue stay covered by pending notifications and notified workers while anyone sleeps |
| `ThreadPoolTheorems.NoLostWakeup` | CTPL/ctpl_stl.h:172-231 | whenever a worker sleeps unnotified, or holds the mutex with its predicate just failed, the queue is no longer than the pushers still to notify plus the notified workers |
| `ThreadPoolTheorems.NeverStuckWithWork` | CTPL/ctpl_stl.h:172-231 | no reachable state has a queued job, nobody about to notify, and every live worker asleep |
| `ThreadPoolTheorems.FifoAndConservation` | CTPL/ctpl_stl.h:122-137 | jobs leave the queue in push order under every interleaving, and each pushed job is in exactly one place |
| `ThreadPoolTheorems.FateIsFinal` | CTPL/ctpl_stl.h:214-223 | a job that has finished, been handed out or discarded stays so: nothing runs twice |
| `ThreadPoolTheorems.FateExactly` | CTPL/ctpl_stl.h:122-137 | `pop` hands a job out, `clear_queue` and the clearing of `stop` discard it, a worker that takes it holds it, and only the worker that runs it finishes it |
| `ThreadPoolTheorems.ResizeShrinks` | CTPL/ctpl_stl.h:105-117 | `resize(n)` to fewer threads: in every run up to its return, whatever the others do, the first n threads stay listed and are not told to stop, exactly the others are told and dropped, and no other flag changes |
| `ThreadPoolTheorems.ResizeGrows` | CTPL/ctpl_stl.h:96-104 | each thread added is new, unflagged and last in the vector, and the others stay as they are |
| `ThreadPoolTheorems.StopNowClears` | CTPL/ctpl_stl.h:143-150 | `stop(false)` tells every listed thread to stop, and when its first `clear_queue` is over no job pushed before is left in the queue |
| `ThreadPoolTheorems.StopDrains` | CTPL/ctpl_stl.h:142-170 | if `stop(true)` begins in a state that meets the condition of the next row, then when its joins are over, whatever was pushed meanwhile, every job pushed before has left the queue and has run to completion unless a user removed it or a thread detached by an earlier shrink still runs it |
| `ThreadPoolTheorems.StopDrainsExactly` | CTPL/ctpl_stl.h:139-170 | in every reachable state, no continuation of `stop(true)` discards an earlier job if and only if the queue is empty, or some thread of the pool is not between a failed pop and its read of `isDone`, or one job is left and a thread is about to pop it inside the wait predicate |
| `ThreadPoolTheorems.WhenStopDrains` | CTPL/ctpl_stl.h:139-170 | that is so if every push has returned and the pool has a thread, or if it has two threads |
| `ThreadPoolTheorems.DropsJobs` | CTPL/ctpl_stl.h:214-231 | otherwise there is a continuation on which the last `clear_queue` discards a job |
| `ThreadPoolTheorems.StopMayDropPendingPush` | CTPL/ctpl_stl.h:172-198 | and such a state is reachable, with one thread and one push under way |
| `ThreadPoolTheorems.NobodySleepsWhenDown` | CTPL/ctpl_stl.h:157-160 | once a `stop` has called `notify_all` no worker is ever asleep again |
| `ThreadPoolTheorems.DownProgress` | CTPL/ctpl_stl.h:142-170 | from then on every step of a worker, of a returning push or of the caller of `stop` lowers a bound on the work left |
| `ThreadPoolTheorems.OnlyStopsAtTheEnd` | CTPL/ctpl_stl.h:161-169 | and where no step is left every thread has exited and `stop` has returned |
| `ThreadPoolTheorems.ShutdownEnds` | CTPL/ctpl_stl.h:142-170 | so every run after `notify_all` is bounded and ends with all threads joined: shutdown cannot hang |
| `ThreadPoolTheorems.FlaggedWorkerLeaves` | CTPL/ctpl_stl.h:105-117 | from the moment a shrinking `resize` has notified, over every run of any actions, a worker told to stop is never asleep, takes at most nine more steps of its own, and until it has exited it can take the next one or the holder of the pool mutex can move |
| `JobQueue.Queue.Push` | CTPL/ctpl_stl.h:47-51 | the value becomes the last of all that were ever pushed, and what waits is still everything pushed and not yet popped, in order |
| `JobQueue.Queue.Pop` | CTPL/ctpl_stl.h:53-60 | takes the oldest value pushed and not yet popped, or reports exactly that there is none |
| `JobQueue.ClearQueue` | CTPL/ctpl_stl.h:122-126 | afterwards everything pushed has been popped, and exactly what waited was discarded, in order |
| `PoolQueue.PoolUsesQueue` | CTPL/ctpl_stl.h:122-231 | every step of every thread of the pool is one push or one successful pop of that queue, or leaves it alone |
| `ServiceIds.Partition` | ServiceTable.cpp:11-70 | free, reserved and occupied ids partition 1 up to the largest id given out |
| `ServiceIds.ReservedIsNew` | ServiceTable.cpp:11-34 | nobody holds the id that `reserve` hands out, and it is not 0 |
| `ServiceIds.ApplyValid` | ServiceTable.cpp:11-70 | every operation keeps the abstract table valid |
| `ServiceIds.TopIsPeak` | ServiceTable.cpp:16-27 | after every run of operations in which ids do not run out the table is as large as the largest number of ids that were ever in use at once: it grows only when it must |
| `ServiceTable.Table.constructor` | ServiceTable.cpp:7-9 | a new table holds only the unused slot 0 |
| `ServiceTable.Table.Reserve` | ServiceTable.cpp:11-34 | hands out an id given back before, or the next one if there is none, and reserves it; exactly with 255 ids in use the table is ruined instead |
| `ServiceTable.Table.Unreserve` | ServiceTable.cpp:36-48 | frees the id if and only if it was reserved |
| `ServiceTable.Table.Push` | ServiceTable.cpp:49-61 | occupies the id if and only if it was reserved |
| `ServiceTable.Table.Remove` | ServiceTable.cpp:62-70 | frees the id if and only if it was occupied |
| `ServiceTable.Table.GetService` | ServiceTable.cpp:71-77 | finds exactly the occupied ids |
| `ServiceTable.IdsOfValid` | ServiceTable.cpp:7-77 | the vector and the lists always spell a valid abstract table, whose free ids are the free list |
| `ServiceTable.Wrapped` | ServiceTable.cpp:22-31 | what is left after the wrap is no valid table |
| `Ownership.OwnedStep` | client.cpp:20-124 | each operation of each client on the table or on its own maps keeps ownership |
| `Ownership.OwnershipHolds` | client.cpp:20-124 | in every interleaving in which ids do not run out, every reserved id is pending with exactly one client or lost, every occupied id is a service of exactly one client or left over by an exception, and clients hold nothing else |
| `Ownership.OverflowBreaks` | ServiceTable.cpp:22-31 | the reservation that follows 255 ids in use always breaks ownership |
| `Ownership.OverflowIsReachable` | ServiceTable.cpp:11-34 | from every start one client can use up all 255 ids, and its next description breaks ownership |
| `Ownership.LostForGood` | client.cpp:99-110 | ids taken by a registration that ended without rollback stay reserved in every continuation, and those that an exception left in the table stay occupied |
| `Ownership.NothingLostExactly` | client.cpp:83-124 | over every interleaving in which ids do not run out, every id is reserved only while the registration of a client has it pending and occupied only while it is a service of a client, if and only if every ACK could be sent and every unit fitted |
| `ServerMirror.AddKeepsMirrorExactly` | Server.cpp:112-119 | `addService` keeps the two processes in agreement if and only if it announces what it put into the table |
| `ServerMirror.OthersKeepMirror` | Server.cpp:106-126 | the other operations always do, save a reservation with all 255 ids in use |
| `ServerMirror.OverflowKeepsMirrorExactly` | Server.cpp:106-108 | that reservation keeps them in agreement if and only if no id was occupied |
| `ServerMirror.MirrorAgrees` | Server.cpp:106-126 | over every run of atomic operations in which services are added under their reserved ids with units that fit and ids do not run out, replaying the messages rebuilds exactly the occupied part of the table |
| `MirrorInterleaving.MirrorAgreesExactly` | Server.cpp:112-126 | with table change and message as two steps, over every run, the second process agrees with the table if and only if for every id the last message sent about it says the same as the last change of the table under it |
| `MirrorInterleaving.TableReplays` | Server.cpp:106-126 | the changes of the table, announced in their own order, rebuild it |
| `MirrorInterleaving.MirrorAgreesWhenQuiet` | Server.cpp:112-126 | so they agree whenever no message is pending, if no id changes hands while a message about it is |
| `MirrorInterleaving.LateExitBreaksMirror` | Server.cpp:112-126 | there is a run that ends with a service the second process does not know |
| `Server.Server.ReserveId` | Server.cpp:106-108 | as the table, and sends nothing; with all 255 ids in use the second process then agrees with the emptied table exactly if no id was occupied |
| `Server.Server.UnreserveId` | Server.cpp:109-111 | as the table, and sends nothing |
| `Server.Server.AddService` | Server.cpp:112-119 | changes the table and announces the service whether or not its id was reserved; if the unit is too long it throws with the table already changed |
| `Server.Server.UnregisterService` | Server.cpp:120-126 | frees the id and says so whether or not it was occupied |
| `Services.ServiceFactory` | Service.cpp:10-27 | an input or an output with the given id, class, name, unit and range for the four known classes, a null pointer for every other class |
| `Connections.Connection.NextPacket` | Receiver.cpp:28-36 | replaces the current packet by the next one, null once the connection is closed |
| `Registration.RegisteredExactly` | client.cpp:83-124 | the dialogue succeeds if and only if the device sends one or more descriptions, each gets an id and an ACK that can be sent, and then EOT |
| `Registration.CompletesExactly` | client.cpp:83-124 | it runs to its end, accepted or refused with rollback, if and only if every ACK can be sent and ids do not run out |
| `Registration.AllOrNothingExactly` | client.cpp:83-124 | registration is all or nothing if and only if the dialogue runs to its end, all classes are known and, if it succeeds, all units are short enough |
| `Registration.Client.RegisterServices` | client.cpp:83-124 | for every packet trace and every result of the sends: how it ends, which ids are taken, what is sent, and that exactly the described services are occupied, announced and in `inputs` or `outputs` on success, nothing has changed after a refusal, exactly the ids taken stay reserved when an ACK cannot be sent, and what an exception out of `Q_DESC` leaves half done |
| `Registration.RegisteredFields` | client.cpp:89-106 | field by field: each id taken is occupied by what its description says, announced as such, and in `inputs` for the classes 0 and 2 and in `outputs` for 1 and 3 |
| `Registration.ExceptionBreaksMirror` | Server.cpp:112-119 | after that exception the table holds a service that the second process does not know |
| `Registration.Client.Commit` | client.cpp:99-106 | the loop after EOT puts every service into the table, on the queue and into the map of its kind, up to the first null pointer or long unit |
| `Registration.Client.Rollback` | client.cpp:119-122 | the loop after NAK gives back exactly the ids taken |
| `Registration.RegistrationKeepsMirror` | client.cpp:98-107 | a successful registration keeps the second process in agreement with the table |
| `Registration.Client.UnregisterServices` | client.cpp:20-32 | empties both maps, takes exactly their ids out of the table, and keeps the mirror in agreement |
| `Registration.RegisteredKeyedById` | client.cpp:99-105 | registration keeps each service in both maps under its own id |
| `Session.Authenticate` | client.cpp:34-43 | it succeeds exactly if the first packet is a response that verifies against the challenge, the second a challenge, the session key can be encrypted, and the first three sends return more than 0 |
| `Session.AuthenticatesExactly` | client.cpp:34-82 | the same on the positions of the trace and of the results |
| `Session.SaidExactly` | client.cpp:34-82 | a device whose response does not verify is sent the challenge alone; one whose response does gets its own challenge signed, and the key only after that |
| `Session.VerifyClient` | client.cpp:60-82 | true exactly if the challenge was sent and the next packet is a response that verifies against it |
| `Session.VerifyServer` | Server.cpp:82-104 | true exactly if the next packet is a challenge and its signature was sent |
| `Session.Initalize` | client.cpp:34-58 | true, with the `used` flag set, exactly if the device authenticates and its services are registered; a device whose first packet is no verifying response gets the challenge alone and leaves table, queue, maps and flag as they were, and each other way to fail leaves the table and the maps as `RegisterServices` says |
| `Handshake.InvStep` | ConHandler.cpp:62-110 | every step of every thread keeps the record of who has done what |
| `Handshake.RegisteredMeansAuthenticated` | ConHandler.cpp:87-110 | in every run, every registry entry was made since its address was last removed by a thread that did one complete handshake in order, with a response that verifies, and no handshake begins once the exit flag is set |
| `WholeHandshake.WholeExactly` | ConHandler.cpp:62-110 | in every run, the handshake behind a registry entry lies as a whole after the last removal of its address if and only if the thread that made the entry began after it |
| `WholeHandshake.WholeHandshakeSinceRemoval` | ConHandler.cpp:62-110 | so it does if connections from one address do not overlap |
| `WholeHandshake.OverlapBreaksIt` | ConHandler.cpp:62-110 | if they do, there is a run on which nobody has begun a handshake since the removal |
| `WholeHandshake.ReidentifiedMayRegister` | ConHandler.cpp:72-78 | a device that sends ID in place of its values is out of the registry at once, and unless the server is exiting it can go on to register and be in it again |
| `Values.Clamp` | Service.cpp:93-98 | a request within the range is taken as it is, any other is brought to the nearer end |
| `Values.Output.BeginSetting` | Service.cpp:74-82 | copies the expected value and tells whether a change is pending |
| `Values.Output.FinalizeSetting` | Service.cpp:83-90 | a pending change becomes the value |
| `Values.Output.SetVal` | Service.cpp:91-101 | stores the request within the range and marks it pending |
| `OutputHistory.DeviceConfirmed` | Service.cpp:72-101 | under every interleaving of requests with exchanges the value is the minimum or that of the last confirmed SET, every SET and every value lie in the range, and no change is pending only if the value is the last request or a request landed while a SET was under way |
| `OutputHistory.WaitingExactly` | Service.cpp:74-90 | a SET awaits its answer exactly in the histories that end with a `beginSetting` of a pending change and requests only after it |
| `OutputHistory.ConfirmationLosesExactly` | Service.cpp:83-90 | in every such history, when the SET is confirmed the value is the request in force at that `beginSetting`, nothing is pending and nothing more is sent until another request; the last request is lost if and only if it came after that and leaves another value within the range |
| `OutputHistory.LostUpdate` | Service.cpp:83-90 | an input on which it is lost: a second request between a SET and its confirmation |
| `InputExchange.GetValues` | client.cpp:174-206 | for every packet trace each known input ends with the last VAL for it before the first packet that is no VAL, unknown ids are ignored, and the result is true exactly if that packet is EOT, which otherwise stays current for the caller |
| `InputExchange.LastForPrepend` | client.cpp:181-192 | last write wins: taking one VAL and then the rest is the same as taking all of them |
| `InputExchange.LastForExactly` | client.cpp:182-187 | the reading of an input is value and timestamp of the last VAL with its id |
| `InputExchange.StopExactly` | client.cpp:179-203 | the values are the packets before the first that is no VAL, and that one is where reading stops |
| `InputExchange.TimestampExactly` | packet.cpp:288-292 | a timestamp is the signed number whose four bytes lie in the packet, the least significant first |
| `OutputExchange.SuccessfulExchange` | client.cpp:207-234 | a successful exchange has handed one SET for each changed output to `send`, in the order of the ids, and then EOT; each confirmed output ends with the value handed over and no change pending, each refused one keeps its change, and the others are untouched |
| `OutputExchange.SucceedsExactly` | client.cpp:207-234 | an exchange succeeds if and only if every changed output is answered by ACK or NAK and no `send`, that of EOT included, returns 0 |
| `OutputExchange.DeliversExactly` | client.cpp:207-234 | a successful exchange has delivered all its SETs and EOT if and only if each of those sends returned more than 0 |
| `OutputExchange.DeadConnectionSucceeds` | client.cpp:229-233 | with nothing pending, an exchange over a dead connection succeeds and delivers nothing |
| `OutputExchange.RefusedIsSentAgain` | client.cpp:212-222 | a refused value is handed to `send` again by the next successful exchange |
| `OutputExchange.StopsAt` | client.cpp:211-227 | an exchange that fails at an output, because its SET cannot be sent or is answered by neither ACK nor NAK, has settled the outputs before it, leaves it and those behind it as they were, and has handed the SETs up to its own to `send` |
| `OutputExchange.GetsThrough` | client.cpp:207-234 | one that comes to its end has settled all of them, handed over all SETs and EOT, and succeeds unless the `send` of EOT returns 0 |
| `OutputExchange.OnlyConfirmedChange` | client.cpp:217-225 | in every exchange, successful or not, the value of an output changes or its pending change is cleared only if its SET was answered by ACK |
| `OutputExchange.SetValues` | client.cpp:207-234 | the loop over the outputs does exactly the exchange that the rows above describe |
| `DataExchange.TryDataExchange` | client.cpp:128-173 | for every packet trace: KEY is sent first; with the values taken and the server exiting, EXIT follows and no output changes; with the server staying, the SETs and EOT of the exchange follow, never EXIT; otherwise nothing follows and no output changes. The `used` flag is set exactly if the call returns true, and the packet that stopped the values is left for the ID and EXIT paths |
| `DataExchange.ConcludesExactly` | client.cpp:133-162 | which way a connection ends, on the results of its sends and the first packet that is no VAL |
| `Ageing.WalkStep` | ConHandler.cpp:158-171 | one turn of the loop, described by what the whole walk up to there keeps and drops |
| `Ageing.StaysExactly` | ConHandler.cpp:154-172 | over every run, a client with one address stays registered with all its ids if and only if every walk finds that an exchange has succeeded since the walk before; otherwise it ends without address and services, and one of the walks has taken all its ids out of the table |
| `Ageing.StaysInTable` | ConHandler.cpp:154-172 | and the ids of a client that stays are in the table throughout, if no other client has or is given one of them |
| `AgeingInterleaving.KeptExactly` | ConHandler.cpp:159-163 | with `getUsed` and `setUnused` as two steps, over every run, a walk keeps a client if and only if an exchange has succeeded since the flag was last cleared |
| `AgeingInterleaving.ExchangeBetweenIsLost` | ConHandler.cpp:159-163 | so an exchange between the two steps does not save the client from the next walk |
| `Ageing.KeepsServicesExactly` | ConHandler.cpp:158-170 | a walk leaves a registered client its services if and only if it has none, or it was used and has one address only; otherwise all its ids leave the table |
| `Ageing.WalkPresent` | ConHandler.cpp:159-169 | a client with one address is kept by a walk exactly if it was used, and otherwise loses its address and its ids |
| `Ageing.TwoTicks` | ConHandler.cpp:154-172 | a client without an exchange between two consecutive walks is gone after the second, and if it was still used at the first, the second has taken its ids out of the table |
| `Ageing.FreshSurvivesWalk` | client.cpp:45-48 | a registered client is under its address with all its services, and the walk that follows keeps both |
| `Ageing.UnregistersExactly` | ConHandler.cpp:138-153 | unregistering a client removes its smallest address and no other, empties its maps, and takes exactly their ids out of the table |
| `Ageing.SecondAddressLosesServices` | ConHandler.cpp:158-170 | a used client with two addresses keeps the smaller one, and all its services are unregistered |
| `Ageing.StrandsExactly` | ConHandler.cpp:62-172 | of all events exactly two leave the services of a client with one address in the table and the client without an address: the erasure of the address because the device sent ID, and a registration of another client from it |
| `Ageing.StrandedForGood` | ConHandler.cpp:138-172 | such a service stays in the table over every run until its client registers again: no walk and no unregistering reaches it |
| `Registry.ConHandler.ClockWalk` | ConHandler.cpp:154-172 | the walk keeps exactly the smallest address of each client that was used, clears all flags, unregisters exactly the services of the clients it drops, and keeps the mirror in agreement |
| `Registry.ConHandler.UnregisterClient` | ConHandler.cpp:138-153 | removes the first address of the client and its services, or reports that it has none; an id that no client has is entered with a null pointer |
| `Locks.WaitingRises` | ConHandler.cpp:62-172 | a thread waits only for threads that wait for locks of higher rank, or as a reader for a writer of the same lock |
| `Locks.NoCycle` | ConHandler.cpp:62-172 | no reachable state has a cycle of waiting threads |
| `Locks.NoDeadlock` | ConHandler.cpp:62-172 | in every reachable state with unfinished threads one of them can go on, even if waiting writers go first |
| `Locks.NoRace` | ConHandler.cpp:62-172 | in every reachable state, a thread about to change what a lock guards is the only one that holds the lock |
| `LockPaths.PathOrdered` | client.cpp:20-173 | every path takes the registry, then a client, then the table or a service, never a lock it holds already, uses what a lock guards only under it and changes it only under it held exclusively, and ends holding none |
| `LockPaths.ChangesRegistry` | ConHandler.cpp:97-99 | admitting a client, unregistering one and evicting one change the registry, and unregistering services changes the maps of the client and the table |
| `LockPaths.GatewayDeadlockFree` | ConHandler.cpp:62-172 | however many threads run whichever paths in whatever interleaving: locks exclude, nobody changes what another is using under a lock, nobody waits in a circle, someone can go on, and everyone can finish |
| `PacketBytes.PacketLayout` | packet.cpp:181-320 | the bytes of every packet: type code, fields, strings with their 0, and the last fields of DESC at fixed distances from the end |
| `PacketBytes.DecodeEncode` | packet.cpp:99-320 | the getters give back every field of every packet of a type the factory knows, and it makes nothing of the others |
| `PacketBytes.DecodeInBuffer` | packet.cpp:71-135 | the same out of the larger buffer of the factory, whatever lies behind the packet in it |
| `PacketBytes.TailReads` | packet.cpp:247-276 | name, unit, minimum and maximum are read back from a tail of variable length, whatever lies behind the unit |
| `Ciphers.OpenSeal` | sesskey.cpp:32-90 | text, then vector: decryption gives back the plaintext, and the length is that of `encryptedLen` |
| `Ciphers.SealedLayout` | sesskey.cpp:53-72 | the vector is the last sixteen bytes, for encryption and for decryption |
| `SessionKeys.Sesskey.Encrypt` | sesskey.cpp:32-62 | fills exactly the buffer that `send` allocates with the ciphertext and the vector |
| `SessionKeys.Sesskey.Decrypt` | sesskey.cpp:65-90 | writes the plaintext to the front of the buffer, or with wrong padding all blocks but the last and fails; the rest of the buffer stays as it was |
| `SessionKeys.RoundTrip` | sesskey.cpp:32-90 | one undoes the other |
| `Framing.WordRoundTrip` | packet.cpp:157 | a length read back from its four bytes |
| `Framing.FrameLayout` | packet.cpp:150-179 | a frame is the length of the packet, least significant byte first, then 1 in front of the sealed text of ACK, NAK, EOT, DESC, VAL, SET and EXIT, and 0 in front of the plain bytes of CHALL, CHALL_RESP, KEY and ID |
| `Framing.ParseWithoutKey` | packet.cpp:62-66 | before the session key is set exactly CHALL, CHALL_RESP, KEY and ID can be read |
| `Framing.PlaintextIsRefused` | packet.cpp:83-94 | a plaintext frame whose type must be encrypted gives null, with or without a key |
| `Framing.ParseFrame` | packet.cpp:49-136 | every frame of a known type is parsed into its packet and every other into null, whatever follows it and whatever lay in the buffer |
| `Framing.StreamRoundTrip` | packet.cpp:49-179 | a stream of frames is parsed into the same packets with the same fields and no byte left |
| `Sockets.ReadTillDone` | packet.cpp:8-25 | reads exactly the bytes asked for however they arrive, or reports a failure |
| `Sockets.WriteTillDone` | packet.cpp:26-43 | writes all bytes in order however little is taken at a time, or reports how the connection failed after a proper part |
| `Sockets.Send` | packet.cpp:150-179 | a positive result means that exactly the frame described above has been written, any other that only a proper part of it has |
| `Sockets.PacketFactory` | packet.cpp:49-136 | a packet is returned only as the bytes at the front spell it; if no read fails, the call returns exactly the packet or null they spell, text that does not decrypt included, and uses up the frame, or all bytes if they end within it |
| `Sockets.Transfer` | packet.cpp:8-179 | packets written by `send` and read by the factory arrive as the same sequence under any fragmentation in both directions |
| `QueuePackets.QueueLayout` | queuePacket.cpp:70-177 | the bytes of every queue packet |
| `QueuePackets.QueueRoundTrip` | queuePacket.cpp:24-177 | every queue packet is read back with all its fields |
| `Translation.TranslationKeepsMeaning` | packet.cpp:244-262 | whatever bytes were received, if they read as a description it is announced exactly if its class is known and its unit short enough, and the announcement reads as the assigned id with the same class, name, unit, minimum and maximum |
| `Translation.DeviceToQueue` | queuePacket.cpp:83-124 | every description a device can send reaches the second process with all its fields |
| `Translation.BytesRebuildTheTable` | Server.cpp:106-126 | after every run of atomic operations the bytes on the queue alone rebuild the occupied part of the table |

## Left out

- ThreadPool: results through `std::future`, `nWaiting`, jobs that throw, `get_thread`, and two threads that call `resize` and `stop` at once, which the header asks callers not to do.
- Ownership.OwnershipHolds: excludes runs in which all 255 ids are in use and another is asked for; `OverflowBreaks` and `OverflowIsReachable` show what happens then.
- ServerMirror.MirrorAgrees: excludes the same runs, for which see `OverflowKeepsMirrorExactly`.
- Handshake.RegisteredMeansAuthenticated: the mutex that a client holds during the handshake is not modelled, so more interleavings are covered than can happen.
- Registry.ConHandler.ClockWalk: one piece, as are the walks in the runs of `Ageing`; other threads can run while it swaps its shared lock for an exclusive one, and between `getUsed` and `setUnused`, for which see `AgeingInterleaving`.
- SessionKeys.Sesskey.Decrypt: text that is empty or does not consist of whole blocks, which the factory never passes to it.
- Sockets.PacketFactory: a packet whose class is longer than its text and the 16 spare bytes, and strings that run past the packet, count as null; the code would read past the end.
- Framing.StreamRoundTrip: sizes are unbounded below 2^32; the `int` of `encryptedLen`, which overflows from 2^31 - 32 on, is not modelled.
- QueuePackets.QueueRoundTrip: messages of an unknown type, for which the code returns an uninitialised pointer, and the limit of the queue on the length of a message.
- ConHandler::handle as one method: its branches are steps of `Handshake`, paths of `LockPaths` and conclusions of `TryDataExchange`.
- mqReceiveLoop: the answer to Q_GET copies two fields; the path of Q_SET dereferences a null pointer (Server.cpp:59), so requests enter the model at `setVal`.
- Floating point: floats are four opaque bytes on the wire and totally ordered numbers in the exchange of values; NaN is not modelled.
- RSA, SHA-1, AES and the random generator: abstract functions with an inverse and the padded length of section 6.3 of RFC 5652. Failures of the random generator are modelled only in `Encrypt`.
- Timeouts, `close`, signals, the termination handler, logging, option and configuration parsing, and the lifetime of objects.
