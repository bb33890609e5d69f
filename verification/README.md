# Verified model of the VLF gateway's data plane and admission logic

This project models, in Dafny 4.11, the in-memory parts of the VLF gateway and its SOCKS client where
long runs of state changes have to agree with something simple, and proves that they do.  Each stateful
component appears twice: a small value-level machine that says what it is for, with theorems over every
run of it, and a class in the shape of the original whose methods are proved to make exactly that
machine's steps, so that a driver, or the class's own record of its steps, ties it to those theorems.  Concurrency is modelled as step systems in which the steps of different goroutines
interleave arbitrarily; a step is one critical section, one channel operation or one atomic update, except
where a module's comment says that it joins several.  Clocks, sockets, the keyed hash and the outcome of
dials and writes are parameters.  Times that a component reads for itself do not run backwards in the
order the lock is taken; the tick time of a policy evaluation may be older than failures recorded since.

| file | component |
|---|---|
| `Datagram.dfy`, `Reassembly.dfy` | datagram packets, fragmentation, reassembly with lazy expiry |
| `Pipeline.dfy`, `PipelineInvariant.dfy`, `Delivery.dfy`, `DatagramSession.dfy` | reader, sharded worker queues, workers; end-to-end delivery |
| `TtlWheel.dfy`, `WheelCallbacks.dfy` | hashed timing wheel, callbacks called after the lock is released |
| `PolicyCap.dfy`, `PolicyMode.dfy`, `PolicyController.dfy` | flow permits, adaptive cap, transport mode |
| `ReplayCache.dfy`, `Verifier.dfy` | nonce cache, AUTH verification |
| `Limits.dfy`, `RelayManager.dfy` | connection ledger, byte windows, opening and closing relays |
| `Varint.dfy`, `Frame.dfy` | varints, frames, AUTH, OPEN and FAIL payloads |
| `RelayConn.dfy`, `RelayCall.dfy`, `RelayUpstream.dfy` | the upstream side of a relay connection: interleavings, one call, the class |
| `RingBuffer.dfy`, `PendingReplies.dfy` | byte ring, reply channels |
| `Wrappers.dfy`, `Bytes.dfy`, `Seqs.dfy`, `Arith.dfy` | result types, big-endian integers, sequence and arithmetic lemmas |

`dafny verify dfyconfig.toml` checks everything.

## Where the code does not do what one would expect

- **The wheel can fire one revolution early.**  A lifetime of more than one revolution that is not a whole
  number of them, set when the remainder wraps past slot zero, is one revolution short
  (`TtlWheel.LifetimeBounds`, both directions; `TtlWheel.EarlyRun`, a run for each; `TtlWheel.EarlyExample`).
  It is never late.
- **A callback can run after its key was removed, and even after it was set again**, exactly when it was
  collected and not yet called when Remove took the lock (`WheelCallbacks.CalledAfterRemove`,
  `WheelCallbacks.CalledAfterRemoveHappens`).
- **The shipped configuration accepts one AUTH message twice.**  A message is accepted at most once in
  every run if and only if `replay_ttl > 2 * clock_skew` (`Verifier.AtMostOnceExactly`); the defaults are
  sixty seconds for both (`Verifier.DefaultConfiguration`), although the repository's README says that a
  repeated nonce is rejected.
- **Twice the byte limit fits into a minute.**  The bound over a sliding minute is twice the configured
  limit, and it is reached (`Limits.TwiceTheLimitHappens`).  It holds over every run if and only if the limit
  and the largest request together fit in 64 bits (`Limits.BoundExactly`); otherwise a minute admits more
  than any number of bytes (`Limits.NoBoundOnceWrapping`).
- **Overlapping calls can exceed the send window.**  When calls may overlap, the queued bytes stay within the
  window in every run if and only if the window is at least 1,048,576 bytes, which is all the channel can hold
  (`RelayConn.WindowExactly`); the shipped window is 65,536 (`RelayConn.ShippedWindow`).  Calls one at a time stay
  within any window (`RelayConn.WindowHolds`).
- **A relay send panics** exactly when Close begins and closes the channel between the call's look at the
  flags and its send (`RelayConn.SendPanicsExactly`, `RelayConn.SendPanicHappens`).
- **A waiter that registers after the session has ended is not answered by it**
  (`PendingReplies.LateWaiterForgotten`); every earlier one is (`PendingReplies.NobodyForgotten`).
- **The FAIL decoder slices out of range** exactly when a declared length overflows a signed offset
  (`Frame.FailPanicsExactly`, `Frame.FailPanicHappens`).  **Reading a frame, and decoding AUTH or OPEN, panics**
  exactly when a length declared along the way is more than can be allocated (`Frame.FramePanicsExactly`,
  `Frame.AuthPanicsExactly`, `Frame.OpenPanicsExactly`), and inputs for each are given
  (`Frame.FramePanicHappens`, `Frame.AuthPanicHappens`, `Frame.OpenPanicHappens`).

## Model

| member | source | states |
|---|---|---|
| Datagram.DecodeEncode | internal/session/datagram.go:20-41 | decoding a packet inverts encoding it, for every packet |
| Datagram.EncodeDecode | internal/session/datagram.go:29-41 | every byte string of at least 13 bytes is the encoding of what it decodes to, so no two strings decode to one packet |
| Datagram.Decode | internal/session/datagram.go:29-33 | fails exactly on fewer than 13 bytes, and reports the length |
| Datagram.Layout | internal/session/datagram.go:20-27 | the byte offset of every field of an encoded packet, and which bits of the flags mark a fragment and the last one |
| Datagram.LayoutExample | internal/session/datagram.go:20-27 | one packet written out byte by byte |
| Bytes.BigEndian | internal/session/datagram.go:22-24 | every byte of a big-endian integer, the most significant first |
| Datagram.FragmentDatagram | internal/session/datagram.go:43-73 | the loop produces exactly the encoded fragments of the payload; it fails exactly when the limit leaves no room for payload |
| Datagram.FragmentsTrain | internal/session/datagram.go:43-73 | the fragments carry one key, add up to the payload in order, fit the limit, and only the final one of several is marked last; one that fits is a single unmarked packet |
| Datagram.FragmentSizes | internal/session/datagram.go:43-73 | a payload that fits is one packet with flags 0; otherwise every fragment but the final one is full with flags 1, the final one has flags 3, and there are as few as the payload needs |
| Reassembly.RunStart | internal/session/datagram.go:90-141 | finds the latest break in a message's fragments: a completion, or a gap of more than five seconds |
| Reassembly.SweepAgrees | internal/session/datagram.go:90-141 | after every history, the lazily swept map holds a message exactly as the per-message rule says, or the message can no longer be joined to |
| Reassembly.AddMeansJoin | internal/session/datagram.go:90-141 | after every history with a non-decreasing clock, a packet completes exactly its own message's fragments since the last completion or gap over five seconds, whatever other messages did |
| Reassembly.Assembler.CleanupLocked | internal/session/datagram.go:129-141 | the nested deletion loops leave exactly the entries that are not stale, and no empty inner map |
| Reassembly.Assembler.Add | internal/session/datagram.go:90-127 | the nested maps follow the value-level step, no flow keeps an empty inner map, and the result is the completed payload or nothing |
| Pipeline.Sizing | internal/session/session.go:403-414 | at least one worker and 64 places each, and the configured number of workers when positive |
| Pipeline.SizingIsTight | internal/session/session.go:403-414 | with 1024 places for a bad queue size: above 64 each, all places together fit the queue size, and one more for each worker never would |
| Pipeline.Admission | internal/session/session.go:457-475 | a datagram is refused on receipt or queued, and refused as unparsable exactly when it does not decode |
| Pipeline.Outcome | internal/session/session.go:530-560 | absorbed exactly when reassembly completes nothing, over budget exactly when the budget refuses a non-empty payload, forwarded exactly when budget, flow and write all agree; a missing flow and a failed write only for their own cause |
| Delivery.AdmissionLaw | internal/session/session.go:441-476 | under every schedule a datagram is unparsable exactly when shorter than 13 bytes, over budget exactly when refused by it, and otherwise queued at the end of its flow's queue exactly when fewer than the worker's places are taken, and refused as queue full exactly when not |
| Delivery.FinishLaw | internal/session/session.go:528-560 | under every schedule each of the five fates of a finished task holds exactly under its condition on the three answers and on what the packet completes of its own message |
| PipelineInvariant.StepKeeps | internal/session/session.go:433-560 | every step keeps lanes in order, statuses true to location, and reassembly equal to the replay of processed packets |
| PipelineInvariant.AlwaysInv | internal/session/session.go:433-560 | so does every schedule |
| PipelineInvariant.QueuedOnce | internal/session/session.go:468-475 | no datagram is in two places of the queues |
| PipelineInvariant.InOneHand | internal/session/session.go:487-495 | no datagram is in two workers' hands |
| Delivery.ExactlyOneClass | internal/session/session.go:433-560 | under every schedule each received datagram is refused, queued, in a worker's hand, drained or processed, exactly one of them, and its status says which |
| Delivery.QueuesBounded | internal/session/session.go:411-423 | under every schedule no queue outgrows its channel |
| Delivery.DrainingIsForEver | internal/session/session.go:479-525 | under every schedule a worker drains exactly when it has begun to, takes no task afterwards, and throws none away before |
| Delivery.WorkerCatchesUp | internal/session/session.go:479-498 | from every state a schedule reaches, an idle worker that makes one turn for each task of its queue has processed exactly those, in order, and emptied the queue, whatever the outcomes |
| Delivery.DrainEmpties | internal/session/session.go:500-525 | from every such state a draining worker throws away exactly the tasks of its queue, in order, in as many steps, and processes nothing |
| Delivery.ProcessedOnce | internal/session/session.go:479-498 | under every schedule no datagram goes through reassembly twice |
| Delivery.FlowOrder | internal/session/session.go:468-498 | under every schedule what is processed for a flow is, in order, a prefix of what was enqueued for it |
| Delivery.EndToEnd | internal/session/session.go:468-560 | for a message whose packets arrive in order, are neither refused nor drained, and are processed with gaps of at most five seconds, whose last packet finds the budget, the flow and the write willing, and before which no recent message under its key was left unfinished, under every schedule and any other traffic: its packets are processed in order, each but the last is absorbed, and the last forwards exactly the payload; earlier and later messages may use the same key |
| Delivery.DeliveredOnceDrained | internal/session/session.go:468-560 | once such a message has arrived whole, it has been delivered if and only if none of its packets waits in its flow's queue or in that worker's hand |
| Delivery.FragmentedMessageArrives | internal/session/datagram.go:43-127 | the same from the sender's payload, through the fragmenter and the packet codec |
| DatagramSession.NoneUnaccounted | internal/session/session.go:433-576 | under every schedule the datagrams received are exactly those refused, in the queues, in hand, drained and processed |
| DatagramSession.QueuedTally | internal/session/session.go:468-525 | under every schedule as many datagrams are marked queued, in hand, drained and processed as there are in those places |
| DatagramSession.Session.constructor | internal/session/session.go:396-431 | the pipeline starts empty with the computed sizes and its own assembler |
| DatagramSession.Session.ReadOne | internal/session/session.go:441-476 | one turn of the reader makes the receive step, keeps every drop counter equal to the number of datagrams in its class, and counts and queues exactly as length, budget and the flow's queue decide |
| DatagramSession.Session.TakeOne | internal/session/session.go:487-494 | a worker takes the oldest task of its queue into its hand |
| DatagramSession.Session.Forward | internal/session/session.go:535-560 | what is written, and which one counter moves, for every answer of the budget, the flow lookup and the write |
| DatagramSession.Session.FinishOne | internal/session/session.go:528-560 | the rest of the turn makes the finish step, and writes exactly when the packet completes a payload of its own message's fragments and budget, flow and write agree, that payload; otherwise exactly the counter of the first obstacle moves |
| DatagramSession.Session.StartDraining | internal/session/session.go:484-486 | a worker that has seen the end of the session drains from then on |
| DatagramSession.Session.DiscardOne | internal/session/session.go:500-525 | draining throws away one queued task and counts no drop |
| DatagramSession.Drive | internal/session/session.go:433-560 | a session run through any schedule is in exactly the state the step system reaches |
| TtlWheel.StepsIsCeiling | internal/store/ttl_wheel.go:93-108 | a lifetime is the ceiling of its duration in ticks, and one tick if not positive |
| TtlWheel.PlacementLaw | internal/store/ttl_wheel.go:110-118 | the chosen slot and rounds are worth exactly the law's number of ticks, for every lifetime and cursor |
| TtlWheel.LifetimeBounds | internal/store/ttl_wheel.go:110-118 | never late, at most one revolution early, and on time if and only if not in the early family; always on time within one revolution |
| TtlWheel.EarlyRun | internal/store/ttl_wheel.go:66-129 | for every member of the early family there is a run in which the key fires a whole revolution before its lifetime is over |
| TtlWheel.EarlyExample | internal/store/ttl_wheel.go:66-129 | with 512 one-second slots, after 511 ticks, a lifetime of 513 seconds ends at the next tick |
| TtlWheel.CursorCountsTicks | internal/store/ttl_wheel.go:70 | the cursor is the number of ticks so far, modulo the slots |
| TtlWheel.LiveUntilLifetime | internal/store/ttl_wheel.go:66-189 | a key is live exactly while fewer ticks have passed than its lifetime |
| TtlWheel.ExpiresExactly | internal/store/ttl_wheel.go:66-189 | a key fires on precisely the tick its lifetime names, whatever happens to other keys |
| TtlWheel.NeverAfterRemove | internal/store/ttl_wheel.go:176-189 | no tick after a removal collects the key before it is upserted again, and touching it does not revive it |
| TtlWheel.LivesIsLive | internal/store/ttl_wheel.go:66-189 | whether a key is live is told from the run alone, with a Touch counting only while the latest lifetime is not over |
| TtlWheel.ExpiryLaw | internal/store/ttl_wheel.go:66-189 | over every run, a key fires if and only if its latest effective Upsert or Touch, told from the run alone, lies exactly its lifetime of ticks back with nothing on that key since |
| TtlWheel.TickOnCells | internal/store/ttl_wheel.go:66-85 | visiting one slot takes one tick off every key of the wheel and removes exactly the keys with one tick left |
| TtlWheel.Wheel.constructor | internal/store/ttl_wheel.go:27-43 | an empty wheel, with the defaults for a bad interval or slot count |
| TtlWheel.Wheel.Upsert | internal/store/ttl_wheel.go:92-129 | the wheel follows the schedule with a new entry for the key; `entries` and `slots` stay in one-to-one agreement |
| TtlWheel.Wheel.Touch | internal/store/ttl_wheel.go:131-174 | restarts a live key in a new entry with its callback kept, and reports whether the key was live |
| TtlWheel.Wheel.Remove | internal/store/ttl_wheel.go:176-189 | removes the key from both structures |
| TtlWheel.Wheel.Tick | internal/store/ttl_wheel.go:66-90 | the schedule's tick; the callbacks returned are those of the expired keys that have one, each once |
| TtlWheel.Drive | internal/store/ttl_wheel.go:27-189 | a wheel of slots and rounds run through any operations stands for exactly the schedule they lead to, and each hands out the callbacks of exactly the keys the schedule fires |
| WheelCallbacks.CallHasCause | internal/store/ttl_wheel.go:66-90 | every call of a callback belongs to the latest tick, which expired that key; the callbacks of a tick are called in the order collected, each once |
| WheelCallbacks.CalledAfterRemove | internal/store/ttl_wheel.go:80-89 | after a Remove, the callback of an earlier expiry runs if and only if it was collected and not yet called when Remove took the lock, and then at its place in that order, also when the key has been set again; until it is, no other call of its callback happens |
| WheelCallbacks.CalledAfterRemoveHappens | internal/store/ttl_wheel.go:80-89 | a run in which it does, and one in which it does on a key set again |
| PolicyCap.AlwaysWithinCap | cmd/socks_client/main.go:577-654 | in every interleaving the pending count is the number of permits held; with the cap on, flows plus pending permits stay within it, and since it was switched on no second has seen more than two grants |
| PolicyCap.StepKeeps | cmd/socks_client/main.go:577-654 | every step keeps that, and flow ids fresh |
| PolicyCap.GrantedExactly | cmd/socks_client/main.go:614-646 | over every run an attempt in a second succeeds if and only if the cap is off, or flows plus held permits are below what they were at the reading that switched it on, plus four, and fewer than two permits have been granted in that second since |
| PolicyCap.HeldExactly | cmd/socks_client/main.go:577-654 | over every run the permits held are those granted and neither returned nor used since, and the flows are those registered, numbered in order, and not unregistered since |
| PolicyCap.CapFromHistory | cmd/socks_client/main.go:956-1002 | the cap is on if and only if the latest run of two high readings is more recent than the latest run of three low ones |
| PolicyCap.LatestRun | cmd/socks_client/main.go:973-1001 | the last position at which a run of that many equal readings ends, or none |
| PolicyCap.FixedModeNeverCaps | cmd/socks_client/main.go:957-965 | a controller with a fixed mode never caps |
| PolicyMode.PruneTimes | cmd/socks_client/main.go:1015-1028 | drops exactly the stale prefix |
| PolicyMode.DropIsFilter | cmd/socks_client/main.go:1015-1028 | on times in order that is filtering |
| PolicyMode.RecordAndPrune | cmd/socks_client/main.go:656-686 | appending to a pruned window and pruning again gives the window of the full history |
| PolicyMode.PruneOnly | cmd/socks_client/main.go:761-770 | pruning, also for a time older than the last, leaves the window of the latest time pruned for |
| PolicyMode.StepKeeps | cmd/socks_client/main.go:656-819 | every step keeps the windows equal to the filtered histories, and both below their thresholds outside survival, also when an evaluation's tick time is older than failures recorded since |
| PolicyMode.Edges | cmd/socks_client/main.go:656-819 | the only mode edges, each with its exact condition on the full failure histories; survival is left only after the minimum delay with no failure in the last thirty seconds; evaluation never enters survival |
| PolicyMode.RunKeeps | cmd/socks_client/main.go:505-521 | over every run with failures in order and evaluations in order among themselves, all that is kept |
| PolicyMode.SurvivalLasts | cmd/socks_client/main.go:741-795 | over every such run, once entered survival lasts through every event within sixty seconds of entry, and until thirty seconds pass without a failure |
| PolicyController.Controller.constructor | cmd/socks_client/main.go:478-498 | automatic mode starts as normal, a fixed mode as itself |
| PolicyController.Controller.TryAcquireFlowPermit | cmd/socks_client/main.go:614-646 | one attempt makes the acquire step, and succeeds exactly when the cap is off or the controller's own history leaves room under both limits |
| PolicyController.Controller.ReleaseFlowPermit | cmd/socks_client/main.go:648-654 | gives back one held permit |
| PolicyController.Controller.RegisterFlow | cmd/socks_client/main.go:577-606 | turns a held permit into a flow under an id no live flow has |
| PolicyController.Controller.UnregisterFlow | cmd/socks_client/main.go:608-612 | removes the flow and nothing else |
| PolicyController.Controller.UpdateAdaptiveCapLocked | cmd/socks_client/main.go:956-1002 | makes the stats-tick step of the cap machine |
| PolicyController.Controller.SwitchMode | cmd/socks_client/main.go:741-759 | sets the mode, and the earliest end of survival on entering it |
| PolicyController.Controller.RecordQUICFailure | cmd/socks_client/main.go:656-670 | makes the QUIC-failure step of the mode machine |
| PolicyController.Controller.RecordTransportError | cmd/socks_client/main.go:672-686 | makes the transport-error step of the mode machine |
| PolicyController.Controller.FindDeserving | cmd/socks_client/main.go:801-818 | finds a flow that is long, large or quick enough exactly when there is one |
| PolicyController.DeservingExactly | cmd/socks_client/main.go:801-818 | a flow deserves the fast mode exactly from ten seconds, 64 MiB or 20 Mbit/s on |
| PolicyController.Controller.EvaluateAutoPolicy | cmd/socks_client/main.go:761-819 | makes the evaluation step of the mode machine, for any tick time not before the last evaluation's |
| PolicyController.ControllerKeeps | cmd/socks_client/main.go:577-1002 | in every state a controller gets into, its fields keep the permits, the cap and the failure windows as the run theorems say |
| ReplayCache.Cache.CheckAndStore | internal/auth/replay.go:24-47 | with purging, a nonce is refused exactly when its latest acceptance in the full history is less than the retention time ago; exactly the accepted ones are recorded |
| ReplayCache.Cache.Purge | internal/auth/replay.go:34-39 | the loop keeps exactly the entries that are not older than the cutoff |
| ReplayCache.KnowsPurged | internal/auth/replay.go:28-39 | purging one client's nonces loses nothing a later request could need |
| ReplayCache.KnowsAt | internal/auth/replay.go:41-43 | a look-up after the purge answers for the full history |
| Verifier.HexInjective | internal/auth/verifier.go:149 | different nonces have different cache keys |
| Verifier.FirstFailingCheck | internal/auth/verifier.go:120-147 | which error a message gets before the replay check: the first of missing parts, nonce size, clock skew, unknown client and wrong signature that applies, and none exactly when it is genuine |
| Verifier.AcceptsExactly | internal/auth/verifier.go:120-160 | over every run, a message is accepted if and only if it is complete, its nonce has 12 to 32 bytes, its time is within the skew, its client is known, its signature is the keyed hash of what it must sign, and no request with the same nonce of the same client was accepted less than the retention time before |
| Verifier.AcceptedApart | internal/auth/verifier.go:149-157 | two acceptances of one client's nonce are at least the retention time apart |
| Verifier.ReplayHasCause | internal/auth/verifier.go:149-157 | a message refused as a replay was preceded, within the retention time, by an accepted request with the same nonce of the same client |
| Verifier.TwiceNeedsSkew | internal/auth/verifier.go:130-157 | with retention over twice the skew no message is accepted twice in any run |
| Verifier.TwiceWithShortTtl | internal/auth/verifier.go:130-157 | otherwise there is a run that accepts a message at both ends of its skew window |
| Verifier.AtMostOnceExactly | internal/auth/verifier.go:120-160 | at most one acceptance of a message in every run if and only if the retention time exceeds twice the skew |
| Verifier.DefaultConfiguration | internal/config/config.go:117-118 | the default configuration does not have that property |
| Verifier.SessionVerifier.VerifySession | internal/auth/verifier.go:120-160 | accepted exactly when genuine and not replayed; each error exactly when its check is the first to fail; only an accepted message is recorded |
| Verifier.Drive | internal/auth/verifier.go:120-160 | a verifier and the other users of its cache, run through any requests in order of time, accept exactly those the run theorems speak of |
| Limits.ReserveKeeps | internal/limits/manager.go:59-73 | a granted reservation keeps the total equal to the sum of the counts and both limits respected |
| Limits.ReleaseKeeps | internal/limits/manager.go:75-87 | so does a release, which takes exactly one off the total and the client |
| Limits.ReleaseUndoesReserve | internal/limits/manager.go:70-86 | a release undoes a reservation exactly |
| Limits.AtMostTwiceTheLimit | internal/limits/manager.go:100-127 | in every half-open minute a client is admitted at most twice its limit, when no request can wrap the counter |
| Limits.WindowIsExact | internal/limits/manager.go:115-125 | the counter of the open window is exactly the bytes admitted in it, and at most the limit |
| Limits.AdmittedExactly | internal/limits/manager.go:100-127 | over every run a request is admitted if and only if it is not positive or fits with what its window has admitted so far, and the window starts anew exactly after a minute |
| Limits.NoLimit | internal/limits/manager.go:119-121 | without a positive limit everything is admitted |
| Limits.TwiceTheLimitHappens | internal/limits/manager.go:100-127 | for every limit below the 64-bit maximum there is a run that admits twice the limit within a minute |
| Limits.BoundExactly | internal/limits/manager.go:100-127 | for requests up to a given size, the sliding bound and the exactness of the counter hold over every run if and only if limit and size together fit in 64 bits |
| Limits.NoBoundOnceWrapping | internal/limits/manager.go:115-125 | otherwise, for every number of bytes there is a run that admits more within one minute |
| Limits.Manager.ReserveRelayConn | internal/limits/manager.go:59-73 | refuses with the total limit exactly when that is set and reached, with the client's exactly when only that is, and otherwise reserves |
| Limits.Manager.ReleaseRelayConn | internal/limits/manager.go:75-87 | releases in both counters, dropping a client at zero |
| Limits.Manager.AllowRelayBytes | internal/limits/manager.go:100-127 | follows the window step for the client and leaves the others alone |
| RelayManager.StepKeeps | internal/relay/manager.go:89-264 | every step of an open or close keeps ledger and reservations equal and the limits respected |
| RelayManager.Conservation | internal/relay/manager.go:89-264 | in every interleaving the total is the sum of the counts and the number of published connections, opens and releases in flight; each client's count is its own; neither limit is exceeded |
| RelayManager.GrantedExactly | internal/limits/manager.go:59-73 | over every interleaving a reservation is granted if and only if neither the number of reservations held, nor the client's own, has reached a limit that is set; which error is given otherwise; a refusal changes nothing |
| RelayManager.NothingLeaks | internal/relay/manager.go:89-264 | in every interleaving the total is the number of reservations granted less those given back by failed dials and finished closes |
| RelayManager.PublishedExactly | internal/relay/manager.go:133-259 | in every interleaving a connection is published exactly when its id was published and has not been taken out since |
| RelayManager.FreshIdNeeded | internal/relay/manager.go:133-135 | publishing keeps the ledger right if and only if the id is not in use |
| RelayManager.Manager.constructor | internal/relay/manager.go:76-87 | no connections, an empty ledger |
| RelayManager.Manager.BeginOpen | internal/relay/manager.go:89-99 | rejects a bad request before reserving, then makes the reserve step; each refusal exactly when its limit is reached by the reservations held |
| RelayManager.Manager.FailOpen | internal/relay/manager.go:103-114 | a failed dial or id gives the reservation back |
| RelayManager.Manager.PublishConn | internal/relay/manager.go:133-135 | publishes under the id without touching the ledger |
| RelayManager.Manager.TakeConn | internal/relay/manager.go:249-259 | only the first close of an id finds it |
| RelayManager.Manager.FinishClose | internal/relay/manager.go:262 | the close that found it releases its client's reservation |
| RelayManager.ManagerConserves | internal/relay/manager.go:76-264 | in every state a manager gets into, the total is the sum of the counts, the number of its connections, opens and releases in flight, within the limits, and what its own history has granted and not given back; its connections are those published and not taken out |
| Varint.ReadPutUvarint | internal/session/frame.go:39-47 | reading a varint inverts writing it, leaves what follows, and every 64-bit value takes at most ten bytes |
| Varint.ReadFits | internal/session/frame.go:39-47 | what is read fits in 64 bits whatever the input |
| Varint.GroupsOfSeven | internal/session/frame.go:58-69 | a varint is groups of seven bits, the lowest first, with the high bit on all but the last |
| Varint.ReadErrors | internal/session/frame.go:39-47 | which error an unreadable varint gives: end of input exactly on none, unexpected end exactly when all bytes there are continue and the tenth is missing, overflow otherwise |
| Varint.CutShort | internal/session/frame.go:39-47 | a varint cut short is the end of input when nothing is left of it, and an unexpected end otherwise |
| Frame.StreamRoundTrip | internal/session/frame.go:38-76 | any frames written back to back are read back as they were, and the following bytes are untouched |
| Frame.FrameLayout | internal/session/frame.go:58-76 | where type, length and payload of a written frame lie |
| Frame.FrameExample | internal/session/frame.go:58-76 | one frame written out byte by byte |
| Frame.FrameCutShort | internal/session/frame.go:38-55 | a frame cut short is the end of input when cut before its type, its length or its payload, and an unexpected end anywhere else |
| Frame.FramePanicsExactly | internal/session/frame.go:38-52 | reading a frame panics exactly when both varints are read and the declared length is beyond what can be allocated |
| Frame.FramePanicHappens | internal/session/frame.go:38-52 | it does for every type, every such length and every continuation |
| Frame.BytesField | internal/session/frame.go:286-308 | a length-prefixed field is read back whole, and is an error when cut short |
| Frame.BytesPanicsExactly | internal/session/frame.go:295-308 | reading a field panics exactly when its declared length is beyond what can be allocated |
| Frame.BytesPanicHappens | internal/session/frame.go:295-308 | it does for every such length and every continuation |
| Frame.AuthCodec | internal/session/frame.go:86-135 | decoding AUTH inverts encoding it, and rejects every strict extension |
| Frame.AuthPrefix | internal/session/frame.go:96-126 | and every strict prefix |
| Frame.AuthLayout | internal/session/frame.go:86-94 | the byte offset of every field of an AUTH payload |
| Frame.AuthExample | internal/session/frame.go:86-94 | one AUTH payload written out byte by byte |
| Frame.AuthPanicsExactly | internal/session/frame.go:96-135 | decoding AUTH panics if and only if, after whole fields before it, one of its three length fields declares more than can be allocated |
| Frame.AuthPanicHappens | internal/session/frame.go:96-135 | it does at each of the three, for every such length and continuation |
| Frame.OpenCodec | internal/session/frame.go:164-206 | decoding OPEN inverts encoding it, and rejects every strict extension |
| Frame.OpenPrefix | internal/session/frame.go:173-198 | and every strict prefix |
| Frame.OpenLayout | internal/session/frame.go:164-171 | the byte offset of every field of an OPEN payload |
| Frame.OpenExample | internal/session/frame.go:164-171 | one OPEN payload written out byte by byte |
| Frame.OpenPanicsExactly | internal/session/frame.go:173-206 | the same for OPEN and its two length fields |
| Frame.OpenPanicHappens | internal/session/frame.go:173-206 | it does at each of the two |
| Frame.FailRoundTrip | internal/session/frame.go:255-260 | the client's FAIL decoder inverts the encoder |
| Frame.FailMeans | internal/sessionclient/quic_client.go:464-482 | what the FAIL decoder returns whenever it returns: flow zero and the whole input below eight bytes, else the flow, with the text exactly when its length is readable and within the input |
| Frame.FailPanicsExactly | internal/sessionclient/quic_client.go:464-482 | the inputs that decoder cannot slice are exactly those whose declared length overflows a signed offset |
| Frame.FailPanicHappens | internal/sessionclient/quic_client.go:464-482 | for every flow, a bare declared length beyond the signed range is such an input |
| RingBuffer.NothingLostOrReordered | internal/relay/ring_buffer.go:32-96 | after every run, reads so far followed by the live content are the accepted writes in order |
| RingBuffer.EndIsForEver | internal/relay/ring_buffer.go:67-96 | closed and empty is for ever: nothing is accepted or returned afterwards |
| RingBuffer.NothingAcceptedOnceClosed | internal/relay/ring_buffer.go:36-96 | once a run has closed the buffer nothing more is accepted, and what it holds can still be read, in order |
| RingBuffer.RingAppend | internal/relay/ring_buffer.go:55-63 | the two copies of a write append to the live content |
| RingBuffer.RingTake | internal/relay/ring_buffer.go:75-83 | the two copies of a read give its first bytes |
| RingBuffer.Buffer.constructor | internal/relay/ring_buffer.go:15-20 | an empty open buffer of capacity at least one |
| RingBuffer.Buffer.Write | internal/relay/ring_buffer.go:32-65 | takes the longest prefix that fits; overflow is reported exactly when the buffer is open and the input exceeds the free space |
| RingBuffer.Buffer.Read | internal/relay/ring_buffer.go:67-90 | returns and removes the oldest bytes; end of stream exactly when closed and empty |
| RingBuffer.Buffer.Close | internal/relay/ring_buffer.go:92-96 | closes to writes and keeps the content |
| RingBuffer.Drive | internal/relay/ring_buffer.go:15-96 | a buffer run through any operations holds what the fifo holds, and what its reads returned followed by that is what its writes accepted |
| RelayConn.StepKeeps | internal/relay/conn.go:89-261 | every atomic action of a caller, the writer, the end of the stream or Close keeps the slots, the chunk size, the order and the counter |
| RelayConn.AlwaysInOrder | internal/relay/conn.go:89-261 | in every interleaving of any number of callers the target has received a prefix of the bytes sent, in order; until the writer is gone only its chunk in hand and the queue are missing; the counter is off by exactly what is sent or taken and not yet counted |
| RelayConn.WriterDrains | internal/relay/conn.go:234-258 | from every reachable state of a live connection, as many successful turns of the writer as there are chunks, and one for the chunk in hand, bring what the target has received up to everything accepted |
| RelayConn.NothingAfterEnd | internal/relay/conn.go:243-245 | once the stream has ended and no write is under way, nothing more is ever written |
| RelayConn.EndedExactly | internal/relay/conn.go:165-185 | in every interleaving the stream has ended exactly when someone marked it, Close began or a write failed, and the channel is closed exactly when Close has come to that after it began |
| RelayConn.WriterStops | internal/relay/conn.go:231-258 | from every state in which the stream has ended, the writer's own actions end it, and all it still writes is the chunk it was writing |
| RelayConn.WindowHolds | internal/relay/conn.go:100-127 | when calls are serialised the queued bytes stay within the send window in every interleaving, whatever the window |
| RelayConn.WindowExceeded | internal/relay/conn.go:98-127 | for every window below 256 chunks of 4096 bytes, a run with chunks of at most that size in which two overlapping calls exceed it |
| RelayConn.WindowExactly | internal/relay/conn.go:98-127 | with any overlap of calls the queued bytes stay within the window in every run if and only if the window is at least 256 chunks of 4096 bytes |
| RelayConn.ShippedWindow | internal/config/config.go:102 | the shipped window is one that overlapping calls can exceed |
| RelayConn.SendPanicsExactly | internal/relay/conn.go:100-126 | the send of a chunk panics if and only if, since the call saw the stream live with that chunk, Close has begun and has closed the channel |
| RelayConn.SendPanicHappens | internal/relay/conn.go:100-185 | it does, for every chunk the window has room for |
| RelayCall.CallSends | internal/relay/conn.go:89-136 | whatever others do between its actions, a call sends exactly the prefix it reports, in order, and leaves nothing of itself behind |
| RelayCall.AcceptsLongest | internal/relay/conn.go:89-136 | left alone on a live connection, a call does not panic and accepts the longest prefix of whole chunks that window and slots have room for |
| RelayCall.WriterOnlyHelps | internal/relay/conn.go:100-127 | however the writer's actions fall between those of a call, it accepts at least as much as on a connection that is no emptier |
| RelayUpstream.Upstream.constructor | internal/relay/conn.go:46-81 | an empty queue and a window of at least one byte |
| RelayUpstream.Upstream.LookChunk | internal/relay/conn.go:101 | a call goes on with a chunk exactly when neither flag is set |
| RelayUpstream.Upstream.MeasureChunk | internal/relay/conn.go:110-114 | approves a chunk exactly when the counter leaves room for it |
| RelayUpstream.Upstream.SendChunk | internal/relay/conn.go:119-125 | queues an approved chunk exactly when a slot is free, and panics exactly when the channel is closed |
| RelayUpstream.Upstream.CountChunk | internal/relay/conn.go:121 | counts a chunk that was sent |
| RelayUpstream.Upstream.TakeChunk | internal/relay/conn.go:234-237 | the writer takes the oldest chunk |
| RelayUpstream.Upstream.UncountChunk | internal/relay/conn.go:238 | uncounts it |
| RelayUpstream.Upstream.CheckEnded | internal/relay/conn.go:243-245 | gives up with it exactly when a flag is set |
| RelayUpstream.Upstream.WriteChunk | internal/relay/conn.go:247-258 | writes it; a failed write ends the stream and the writer |
| RelayUpstream.Upstream.MarkEOS | internal/relay/conn.go:165-174 | ends the stream |
| RelayUpstream.Upstream.StartClose | internal/relay/conn.go:176-179 | marks the connection closed and ended |
| RelayUpstream.Upstream.CloseQueue | internal/relay/conn.go:185 | closes the channel |
| RelayUpstream.Upstream.OfferChunk | internal/relay/conn.go:100-126 | one turn of the loop, with any actions of others before each of its own |
| RelayUpstream.Upstream.Enqueue | internal/relay/conn.go:89-136 | does what the chunk rule says under any interleaving, returns the counter, and panics exactly when that says so; an ended connection is an error except for an empty call |
| RelayUpstream.Drive | internal/relay/conn.go:46-261 | a connection run through any actions is in exactly the state the machine reaches |
| PendingReplies.StepKeeps | internal/sessionclient/tcp_session_client.go:346-521 | every step keeps each channel with a single owner, in the state that owner expects |
| PendingReplies.NoFaults | internal/sessionclient/tcp_session_client.go:203-521 | in every interleaving no send to a closed channel, no double close, no blocked send and no dropped reply, nor can the next step be one; each channel is sent to and closed at most once and gets only its own slot's reply |
| PendingReplies.RightReply | internal/sessionclient/tcp_session_client.go:203-521 | over every interleaving a channel is taken out by at most one step; what it is sent, and holds, is exactly the reply of that step; it is closed unsent exactly when that step unregistered it |
| PendingReplies.ReceivedOnce | internal/sessionclient/tcp_session_client.go:203-230 | over every interleaving each reply is received at most once, and until then stays in its channel |
| PendingReplies.NobodyForgotten | internal/sessionclient/tcp_session_client.go:203-521 | with unique slots every open channel has an owner; after the end of the session every channel registered before it is closed or about to be closed by a job, and once the jobs are done the channels still open are exactly those left in the table |
| PendingReplies.LateWaiterForgotten | internal/sessionclient/tcp_session_client.go:203-370 | a channel registered after the end is left there |
| PendingReplies.Client.RegisterPending | internal/sessionclient/tcp_session_client.go:204-207 | a fresh channel under the slot |
| PendingReplies.Client.TakePending | internal/sessionclient/tcp_session_client.go:450-502 | takes the channel out under the lock, if there is one |
| PendingReplies.Client.ReceiveReply | internal/sessionclient/tcp_session_client.go:221-230 | a waiter gets the reply in its channel, which is the reply of the step that took the channel out |
| PendingReplies.Client.SendReply | internal/sessionclient/tcp_session_client.go:458 | makes the send step of a reply: the channel then holds exactly it, and no other channel changes |
| PendingReplies.Client.CloseReply | internal/sessionclient/tcp_session_client.go:459 | makes the close step |
| PendingReplies.Client.CloseWithError | internal/sessionclient/tcp_session_client.go:346-370 | once, under the lock, every registered channel is sent the error and closed, and the table is empty |
| PendingReplies.ClientForgetsNobody | internal/sessionclient/tcp_session_client.go:203-521 | in every state a client gets into, each channel is sent to and closed at most once, what it holds is the reply of the step that took it out, and after the end none registered before it is left open once the jobs are done |

## Left out

- Sockets, QUIC, TLS, HTTP handlers, metrics, logging, configuration files, certificates and scripts: input and output, or thin wrappers.
- SHA-256 and HMAC, and the text an AUTH message signs: parameters of `Verifier.Policy`.
- `VerifyHTTP`: only its use of the nonce cache is modelled, as the `Other` requests of `Verifier`.
- The clock of a request is read before the cache's lock is taken; that the times are in lock order is an assumption.
- Delivery.EndToEnd: arrival in order, without loss, and with gaps of at most five seconds are hypotheses about the one message, because datagrams guarantee none of them (section 5 of RFC 9221); so are that the budget, the flow lookup and the socket write let its last packet through, and that, for a message in several packets, an earlier one under the same key is complete or more than five seconds old when the first packet is processed.
- Delivery.ExactlyOneClass: finishing a task is one step, from the locked reassembly to the socket write; a task between the two counts as processed.
- `datagramQLen` and the per-second debug counters: the gauge is updated after the channel operation and clamped, so it is not exact; queue lengths are taken from the queues.
- The packet and byte budgets of a session: inputs of the pipeline's steps.
- PolicyMode.Edges: recording a failure and evaluating are atomic steps with one time; in the code the lock is released between reading the counts and switching the mode.
- Transport switch counting, RTT sampling, percentiles and download-rate sampling of the policy controller: a rate is a field of a flow, a reading is an input.
- The policy controller of the TUN client, which largely repeats this one.
- Limits.AtMostTwiceTheLimit: assumes that no request is so large that limit plus request leaves 64 bits; `Limits.BoundExactly` shows that the assumption is needed.
- Limits.WindowIsExact: the same assumption.
- Limits.AdmittedExactly: the same assumption.
- `AllowSessionBytes` and `AllowUDPPacket`: the former is the relay window again, the latter a simpler one.
- Whether a close of a relay connection ever finishes: it can wait for the goroutine that called it, so only safety is stated.
- `RelayStore` and `SessionStore`: index maps around the wheel.
- RelayUpstream.Upstream.LookChunk: `closed` and `eos` are read in one step, and Close stores them in one; it stores the one right before the other.
- PolicyCap.AlwaysWithinCap: grants are counted since the cap was last switched on; those made earlier in the same second, before it was, are not.
- Frame.StreamRoundTrip: payloads are at most as long as a slice of the Go runtime on a 64-bit system can be, two to the power of 48 bytes; an allocation below that is taken to succeed.
- Non-canonical varints are accepted by the reader, so encoding after decoding is not claimed to be the identity for frames and payloads.
- The remaining payloads (AUTH_OK, OPEN_OK, CLOSE_FLOW, TCP_DATA): fixed layouts that would only add easy members.
- Delivery of TCP flow data on the client: registration and close race with the reader.
