# Verified model of the packet pipeline

This project models a packet analyser in three processes: a C++ capture process that dissects packets and sends fixed-size
records over a connection, a Rust service that rebuilds the records from the stream, and a Go dashboard that keeps a
history and a cache. It proves what the parts promise, in Dafny 4.11. Verify with `dafny verify dfyconfig.toml`.

- **The queue between threads.** `QueueProtocol` is the bounded queue as any number of pushing and popping threads
  execute it. One event is one atomic step of one thread, and a run is any interleaving. The same transition function is
  used with unbounded counters and with the real ones. `QueueWord64` proves that the queue with 64-bit counters, masked
  indices and signed differences has exactly the runs of the unbounded one. `LockFreeQueue` is the class itself, with
  its arrays, refining a bounded sequence. `QueueCapacity` says for which capacities the 64-bit queue works at all:
  exactly the powers of two from 2 on, to which the unbounded queue's theorems carry over. `QueueProgress` says that
  calls end. The numbers that a signed subtraction of two words can give are modelled as two's complement.
- **The pipeline on the queues.** `Pipeline` puts the capture callback, any number of workers, the sender and the flag that
  stops them on two queues, in every interleaving. A queue there may refuse although it is neither full nor empty,
  because another thread's ticket is in flight. `QueueRefinement` shows that the queue's runs are runs of the lists
  assumed there. `PipelineOnQueues` is the same pipeline on two queues of `QueueProtocol`, where other threads step in
  between the atomic steps of a call, and proves that its runs are the pipeline's; `PipelineWord64` does the same with
  64-bit counters.
- **Records and frames.** `WireFormat` is the 1024-byte record as the packed struct lays it out on a little-endian host,
  `RecordDecoder` the service's decoder, and `Framing` both ends of the connection: partial writes and retries on one
  side, reads of any size on the other. The keyed hash is any function to 64 bytes, the same at both ends.
- **Dashboard state.** `LruCache` is the address cache on the heap, a map and a doubly linked ring, refining the list in
  `LruSpec`, where the theorems over whole traces are. `RingBuffer` and `Ingest` are the history and what feeds it, and
  `Backoff` is the reconnection wait in 64-bit arithmetic.
- **Dissectors.** `TlsSni`, `TcpOptions`, `DnsName`, `EthernetTags`, `IpHeader` and `Ipv6Extensions` are the parsers of
  length-prefixed bytes, each proved against a recursive specification, which in turn is proved against an encoder of
  the format; `Layers` puts the last three together. The name parsers get a length that comes from the headers, whatever
  bytes are held. Frames lie in the capture buffer of 256 bytes, whatever their capture length; where the source can
  read beyond the bytes held, every read of the specification is checked, and `Beyond` is the outcome of one that fails.
- **Common ground.** `Words`, `NetworkBytes` and `Sequences` hold word arithmetic, big-endian fields and subsequences.

Where the code and its documentation differ, the code is followed. The repository's README.md names both 128 and 256 bytes
(lines 108 and 109) for the payload that is kept; the code keeps 256.

Some promises do not hold on all inputs. Each is kept as the code has it, with the exact condition and a concrete
counterexample:

- The queue works for powers of two from 2 on only (`WorksExactlyForPowersOfTwo`). With an odd capacity the second push
  overwrites the first value (`OverwritesAtOnce`); with an even one that is no power of two a push is refused although
  there is room (`RefusesTooSoon`).
- The server-name parser reads one byte beyond a payload of exactly 43 bytes that begins like a hello, because its guard
  admits that length (`BeyondOwnLength`). As the source stands nothing calls it with any payload: the dispatcher zeroes
  the record (cpp/packet_capture.cpp line 276) and calls this parser only if a name is already there (line 345).
- The lengths handed to the name parsers come from the UDP or IP header (cpp/protocol_dissectors.cpp lines 96 and 102) and
  are not compared with the bytes that were captured. The walk over a DNS name leaves those bytes exactly if they are the
  beginning of a name that they do not hold in full (`DnsBeyondMeaning`, `DnsLeadsBeyond`), and likewise a hello
  (`BeyondMeaning`).
- The walk over IPv6 extension headers does not compare the offset of a fragment header with the captured length, so a
  preceding header of a large claimed size leads it beyond the buffer (`ChainBeyondMeaning`, `FrameLeadsBeyond`).
- The capture buffer keeps 256 bytes of a frame but the original capture length, which the parsers go by. With more than
  257 bytes captured, tags up to the end of the buffer lead beyond it (`EthernetBeyondMeaning`), as does an IP header that
  crosses its end (`ParseBeyondMeaning`), and the one-byte offset behind the IP header loses values from 256 on
  (`LocateLayers`, `OffsetCanBeLost`). With up to 256 bytes none of this happens (`ShortFramesStayInside`).

The service throws its buffer away when it exceeds 2 MiB. `Overflows` says exactly for which reads this happens, and
`Kept` exactly which bytes are lost. Reads of any size are modelled; whether the socket ever fills that much in one read
depends on the buffer's capacity, which is library behaviour and not part of this model.

## Model

| member | source | states |
|---|---|---|
| QueueProtocol.NothingLostNothingTwice | cpp/packet_types.h:31-69 | In every run of any number of threads: dequeue <= enqueue <= dequeue + capacity; each ticket is claimed by one push and at most one pop; what was returned under a ticket is what was pushed under it; every claimed ticket is in exactly one place (being written, stored, being read, returned) |
| QueueProtocol.PopReturnsItsTicket | cpp/packet_types.h:58-61 | A pop that is about to return holds exactly the value pushed under its ticket, and nobody has returned that ticket before |
| QueueProtocol.RaceFree | cpp/packet_types.h:38-40 | In every reachable state two threads between their claim and their sequence store are never at the same slot |
| QueueProtocol.ClaimIsSafe | cpp/packet_types.h:34-38 | When a compare-exchange succeeds, the sequence number the thread saw earlier is still in the slot, and there was room (push) or a value (pop) |
| QueueProtocol.LoadMeaning | cpp/packet_types.h:35-46 | What the sign of the difference says at the moment of the sequence load: negative means the position is current, positive means the counter has moved on |
| QueueProtocol.RefinesBoundedFifo | cpp/packet_types.h:31-69 | Every step refines a bounded FIFO whose contents change at claims only: a push's claim appends its value with room for it, a pop's claim removes the oldest one |
| QueueProtocol.RefusalMeaning | cpp/packet_types.h:43-44 | When a call returns false its position was current at the load, and the ticket it needed (pos for a pop, pos - capacity for a push) was not yet published or not yet released |
| QueueProtocol.QuietRefusal | cpp/packet_types.h:36-64 | With no other call in flight, push refuses if and only if the queue is full, pop if and only if it is empty |
| QueueProtocol.RetryAdvances | cpp/packet_types.h:46 | A retry that is not a spurious failure goes on with a strictly larger position |
| QueueProtocol.RetriesArePaidByOthers | cpp/packet_types.h:33-48 | In every run the retries of a call are at most the claims on its counter since the call began, and those were all made by other threads |
| QueueProgress.LoadsArePaidByOthers | cpp/packet_types.h:33-48 | In every run, counted from its events: a call loads sequence numbers at most once, and once more for each spurious failure of its own and each ticket that another thread claimed of its counter since the call began |
| QueueProgress.CallsEnd | cpp/packet_types.h:31-69 | From every state that keeps the invariant, so from every reachable one, wherever the other threads have stopped: a call that runs alone, without a spurious failure, has returned after at most six steps of its own |
| QueueProgress.NewCallsEnd | cpp/packet_types.h:31-69 | A call that begins there and runs alone has returned after at most four more |
| QueueProtocol.CapacityOneOverruns | cpp/packet_types.h:40-60 | Why the theorems above ask for at least 2: with one slot, even unbounded counters let two pushes in a row succeed |
| QueueCapacity.WorksExactlyForPowersOfTwo | cpp/packet_types.h:19-69 | For every capacity up to 2^61: run by one thread on the 64-bit queue, pushes are accepted exactly while there is room, pops exactly while there is a value, and never more than the capacity is held, if and only if the capacity is a power of two and at least 2 |
| QueueCapacity.OverwritesAtOnce | cpp/packet_types.h:34-40 | With any odd capacity the second push meets slot 0 like the first, succeeds, and the first value is gone |
| QueueCapacity.RefusesTooSoon | cpp/packet_types.h:34-44 | With any even capacity that is no power of two, let z be the lowest zero bit of the mask: after 2^z pushes the next one is refused although there is room |
| QueueRefinement.QueueRunsAreFifoRuns | cpp/packet_types.h:31-69 | Every run of any number of threads on a queue of the pipeline's size is a run of the bounded list that the pipeline assumes, which changes at claims only |
| QueueRefinement.CallTurns | cpp/packet_types.h:31-69 | What a caller can see of any step of any thread: a call takes effect once, at its claim, which only a call that returns true makes; what a pop took out then is what it returns |
| PipelineOnQueues.RunsAreThePipelines | cpp/packet_capture.cpp:255-427 | Simulation: every run of the capture callback, any number of workers and the sender on two of these queues, with all atomic steps of all calls interleaved, is a run of the pipeline in which each call happens at the step that decides it |
| PipelineOnQueues.PacketsAreConserved | cpp/packet_capture.cpp:255-427 | In every such run each captured packet is being offered, or in exactly one of the pipeline's places |
| PipelineOnQueues.DroppedAtTheStopOnly | cpp/packet_capture.cpp:407-426 | In every such run no worker drops a packet before the stop, or more than one at all |
| PipelineOnQueues.OneWorkerKeepsOrder | cpp/packet_capture.cpp:255-268 | In every such run with a single worker the packets are sent in the order of their capture |
| PipelineOnQueues.BetweenCalls | cpp/packet_capture.cpp:255-427 | While no call is under way, the pipeline's state in this simulation is the contents of the queues and the threads as they are |
| PipelineOnQueues.ThreadsServe | cpp/packet_capture.cpp:255-417 | On the two queues too: while the flag is up, every worker and the sender are in their main loops |
| PipelineOnQueues.EndsOnlyDrained | cpp/packet_capture.cpp:264-427 | On the two queues: the threads that have ended after an atomic step are those that had before, and the one whose pop in the drain returns false by it |
| PipelineOnQueues.NobodyIsStuck | cpp/packet_capture.cpp:406-427 | In every reachable state of the threads and queues every worker that has not ended can take a step, whatever the others are in the middle of |
| PipelineOnQueues.SenderIsNotStuck | cpp/packet_capture.cpp:255-268 | So can the sender |
| PipelineOnQueues.CaptureIsNotStuck | cpp/packet_capture.cpp:389-404 | And the capture callback, for any packet |
| PipelineWord64.PipelineSimulates | cpp/packet_types.h:19-69 | With 64-bit counters in both queues the threads have exactly the same runs and do the same in them, as long as no competing thread lags its counter by 2^61 |
| PipelineWord64.ShortRunsAreSafe | cpp/packet_capture.cpp:255-427 | The pipeline on 64-bit queues, in every interleaving of fewer than 2^61 steps and without any premise about lag: packets are conserved, and kept in order with one worker |
| QueueProtocol.StepInv | cpp/packet_types.h:31-69 | Every atomic step of every thread keeps the protocol's invariant over slots, threads and history |
| QueueWord64.NarrowSlot | cpp/packet_types.h:34 | Masking a 64-bit position with capacity - 1 gives the slot of the unbounded position, for powers of two up to 2^61 |
| QueueWord64.NarrowDiff | cpp/packet_types.h:36 | The signed difference of two words is the difference of the unbounded numbers when that is within half a word |
| QueueWord64.StepSimulates | cpp/packet_types.h:31-69 | One step of the 64-bit queue is enabled when the unbounded one is and has the same effect seen through words |
| QueueWord64.QueueSimulates | cpp/packet_types.h:19-69 | For every power-of-two capacity from 2 to 2^61 the 64-bit queue has exactly the runs of the unbounded queue, with equal states modulo 2^64, as long as no competing thread lags its counter by 2^61 |
| QueueWord64.RunSimulates | cpp/packet_types.h:31-69 | The same from any reachable state on, so also across the wrap-around of the counters |
| QueueWord64.QueueSimulatesShortRuns | cpp/packet_types.h:19-69 | For runs of fewer than 2^61 steps, without any premise about lag |
| QueueWord64.LagMisleads | cpp/packet_types.h:36 | Why lag matters: a slot half a word ahead of a position looks as if it were behind |
| LockFreeQueue.Queue.constructor | cpp/packet_types.h:19-25 | Any capacity is accepted: arrays of that size, counters 0, sequence numbers 0, 1, 2, ...; with a power of two from 2 to 2^61 this is the empty queue |
| LockFreeQueue.Queue.Push | cpp/packet_types.h:31-49 | Called alone: appends the value and returns true, or returns false and changes nothing exactly when the queue holds its capacity; whatever the weak compare-exchange does, and across counter wrap-around |
| LockFreeQueue.Queue.Pop | cpp/packet_types.h:51-69 | Called alone: takes out the oldest value, or returns false and changes nothing exactly when the queue is empty |
| LockFreeQueue.PushSees | cpp/packet_types.h:35-43 | The wrapped difference push computes is 0 when there is room and negative when full |
| LockFreeQueue.PopSees | cpp/packet_types.h:55-63 | The wrapped difference pop computes is 0 when there is a value, which is then in the slot, and negative when empty |
| Pipeline.PacketsAreConserved | cpp/packet_capture.cpp:255-427 | In every reachable state with any number of workers, each captured packet is in exactly one of: rejected, raw queue, a worker's hands, dropped, dissected queue, the sender's hands, sent; nothing is dropped while the flag is up, and a worker drops at most one packet |
| Pipeline.InvStep | cpp/packet_capture.cpp:406-427 | Every step of every thread keeps this partition and the bounds of both queues |
| Pipeline.ThreadsServe | cpp/packet_capture.cpp:255-417 | In every reachable state: while the flag is up, every worker and the sender are in their main loops |
| Pipeline.EndsOnlyDrained | cpp/packet_capture.cpp:264-427 | In every reachable state: a step ends a thread if and only if it is its refused pop in the drain, which comes after the stop |
| Pipeline.MainLoopsEnd | cpp/packet_capture.cpp:255-427 | From the stop on, whatever the others do: after at most four steps of its own a worker has left its main loop for good, and the sender after at most three |
| Pipeline.StopIsFollowed | cpp/packet_capture.cpp:255-427 | After the stop every step of a thread in its main loop brings it nearer to the drain; in the drain a worker offers its packet until it is taken, then goes for the next, and ends when there is none |
| Pipeline.OneWorkerKeepsOrder | cpp/packet_capture.cpp:255-268 | With a single worker the packets are sent in the order of their capture |
| WireFormat.FromLe | rust/packet_service/src/handlers.rs:40-91 | Every byte string is the little-endian layout of the number read from it |
| WireFormat.LeFits | cpp/packet_types.h:91-149 | A number that fits its field is read back from its bytes |
| WireFormat.InfoSplits | cpp/packet_types.h:91-149 | The record's fields, laid out one after the other, take 1024 bytes, as the static assertion demands |
| WireFormat.InfoUnique | cpp/packet_types.h:91-147 | The layout loses nothing: records with the same bytes are the same, field by field, padding included |
| RecordFields.FieldsOnWire | cpp/packet_types.h:91-149 | Every field of the struct, padding included, is at its byte offset, numbers little endian |
| RecordDecoder.DecodeRecord | rust/packet_service/src/handlers.rs:40-122 | Consumes 1024 bytes, whatever they are; each of the packet's 49 fields is what is at its byte offset: numbers little endian, flag bytes as truth values, the payload cut to min(payload_len, 256) |
| RecordDecoder.ViewOnWire | rust/packet_service/src/handlers.rs:40-122 | The same for the packet that the framing theorems call a record's view |
| Framing.Stream.Write | cpp/packet_capture.cpp:234-243 | What a write can do: pass on some bytes, ask for a retry, or fail, after which no byte passes any more |
| Framing.SendPacketInfo | cpp/packet_capture.cpp:217-245 | For every schedule of partial writes and retries: what was written is a beginning of the record and its tag, as long as the writes before the first fatal one let through; the record was sent if and only if that is all of it, and given up if and only if the connection failed before |
| Framing.SendAll | cpp/packet_capture.cpp:255-268 | For all records and schedules the wire carries a beginning of the frames in order, and all of them once all were sent; a record that failed does not keep the sender from the next |
| Framing.FramesUnique | rust/packet_service/src/handlers.rs:32-37 | Whole frames at the front of a stream of frames are its first frames, in order |
| Framing.FrameAt | cpp/packet_capture.cpp:225-228 | The i-th group of 1088 bytes on the wire is the i-th image and the tag of just that |
| Framing.DeliveredOnWire | rust/packet_service/src/handlers.rs:40-122 | Each packet delivered says, field by field at literal byte offsets, what the memory of its record holds, and so does the record |
| Framing.Connection.DrainFrames | rust/packet_service/src/handlers.rs:32-126 | The inner loop keeps the account of received bytes (frames decoded, then bytes left over); it ends with less than a frame left, or in front of a frame whose tag is wrong |
| Framing.Connection.Handle | rust/packet_service/src/handlers.rs:18-128 | For any bytes in any reads, good or bad: the bytes received, without those thrown away, are the authentic frames of the packets delivered and the bytes left over; each of these frames was received in one piece, in order; it goes on until a read is empty; the buffer is thrown away if and only if a read, with the unfinished frame before it, exceeds 2 MiB; the connection fails only in front of a wrong tag |
| Framing.OverflowsMeaning | rust/packet_service/src/handlers.rs:26-30 | That condition in lengths alone: some read j has (bytes received before it) mod 1088 + (its bytes) above 2 MiB |
| Framing.OverflowLoses | rust/packet_service/src/handlers.rs:26-30 | Bytes are lost if and only if a read overflows, and then more than 2 MiB of them |
| Framing.ShortReadsDoNotOverflow | rust/packet_service/src/handlers.rs:23-30 | Reads of at most 2 MiB - 1087 bytes never overflow |
| Framing.LongReadLosesAll | rust/packet_service/src/handlers.rs:26-30 | 1928 good frames received in one read are lost altogether |
| Framing.DeliveredIsPrefixOfSent | rust/packet_service/src/handlers.rs:32-126 | For any beginning of the sent stream: the packets delivered are the views of the first records, the bytes received are theirs plus those left over, and a whole frame in front is authentic |
| Framing.Receive | rust/packet_service/src/handlers.rs:18-128 | For every split of that beginning into reads of which none overflows: no failure; all complete frames are decoded, in order and field by field, and fewer than 1088 bytes are carried over |
| Framing.Session | cpp/packet_capture.cpp:217-268 | Sender, network and receiver together: what comes out are the first records, and all of them if everything was sent and arrived |
| LruCache.LinkedList.MoveToFront | go/dashboard/main.go:263 | On the heap ring, exactly the given element moves to the front |
| LruCache.LinkedList.Unlink | go/dashboard/main.go:280 | On the heap ring, exactly the given element is taken out |
| LruCache.LinkedList.InsertFront | go/dashboard/main.go:285 | On the heap ring, a new element comes in front of all others |
| LruCache.Cache.Get | go/dashboard/main.go:259-267 | Finds the entry in map and list alike, moves it to the front and returns its value; a miss changes nothing |
| LruCache.Cache.Add | go/dashboard/main.go:269-287 | Overwrites and moves to the front, or inserts, after evicting the last entry if there is no room; map and list keep the same keys |
| LruCache.Play | go/dashboard/main.go:259-296 | Any sequence of calls to Get, Add and Remove on the heap leaves the cache with the list that the trace theorems of LruSpec are about |
| LruCache.Cache.Remove | go/dashboard/main.go:289-296 | Takes the entry out of map and list |
| LruCache.Cache.GetAll | go/dashboard/main.go:298-307 | Returns the mapping the cache stands for, whatever the order of iteration |
| LruCache.Cache.Load | go/dashboard/main.go:309-319 | Afterwards the cache stands for exactly the given mapping, whatever the order of iteration and the capacity |
| LruCache.SaveAndRestore | go/dashboard/main.go:298-319 | What GetAll saved, Load restores |
| LruSpec.ListIsLeastRecentlyUsed | go/dashboard/main.go:259-296 | On every trace the list agrees with a map stamped with times of use that evicts the cell used longest ago: same keys, values, order, and answers |
| LruSpec.LastIsOldest | go/dashboard/main.go:278-281 | The entry at the back is the one and only least recently used key |
| LruSpec.StampedAgrees | go/dashboard/main.go:309-319 | The same holds for traces that start from any loaded list |
| LruSpec.SizeBound | go/dashboard/main.go:277-318 | On every trace with loads, the size never exceeds the capacity or else the size of the last load |
| LruSpec.IncludedStep | go/dashboard/main.go:259-296 | Each operation keeps the inclusion between a smaller and a larger cache |
| LruSpec.LargerCacheIncludes | go/dashboard/main.go:259-296 | For capacities 1 <= c1 <= c2 and any trace from empty: the small list is an order-preserving subsequence of the large one with equal values, the sizes differ by at most c2 - c1, and a hit in the small cache is the same hit in the large one |
| RingBuffer.Ring.Add | go/dashboard/main.go:178-186 | The live items become the last `size` of the old ones and the new one |
| RingBuffer.Ring.Clear | go/dashboard/main.go:188-193 | No item is live any more |
| RingBuffer.Ring.GetAll | go/dashboard/main.go:195-213 | Returns the live items oldest first, or reversed |
| RingBuffer.Ring.Update | go/dashboard/main.go:215-221 | Maps exactly the live items, each once, in place |
| RingBuffer.ShowsTheLast | go/dashboard/main.go:163-221 | After any run of Add, Clear and Update the ring shows the last `size` items added since the last clear, each with the updates that came after it |
| RingBuffer.LastNItems | go/dashboard/main.go:178-186 | "The last n" means: min(size, n) items, each as far from the end as before |
| RingBuffer.AddedIsShown | go/dashboard/main.go:178-221 | In any run, whatever came before: an item after which j more were added, fewer than `size`, and none cleared, has exactly j newer ones in the ring, and carries the updates that came after it |
| RingBuffer.ShownSinceClear | go/dashboard/main.go:178-221 | Since the last clear, or the start, the ring holds as many items as were added, and at most `size` |
| RingBuffer.Play | go/dashboard/main.go:163-221 | Any sequence of operations on the ring itself leaves the items these theorems are about |
| Ingest.Dashboard.Arrive | go/dashboard/main.go:569-674 | One packet: ignored when paused; otherwise numbered, its addresses noted, and admitted to the history if the filter lets it |
| Ingest.Dashboard.Clear | go/dashboard/main.go:734 | Empties the history and nothing else; the numbering goes on |
| Ingest.Dashboard.Toggle | go/dashboard/main.go:739 | Pauses or resumes the intake and changes nothing else |
| Ingest.Dashboard.GeoUpdate | go/dashboard/main.go:427-435 | A late lookup changes the location of the packets of that address in the history, and nothing else |
| Ingest.SeenAfter | go/dashboard/main.go:579-583 | At most 10002 addresses are kept, the packet's own two among them |
| Ingest.AddressesAreKept | go/dashboard/main.go:579-583 | In any run, addresses that were seen, before it or in it, are all kept as long as 10000 are enough for them |
| Ingest.HistoryIsOrdered | go/dashboard/main.go:569-674 | Across arrivals, pauses, clears and filter changes the history's indices grow strictly from oldest to newest, it stays within its size, and at most 10002 addresses are kept |
| Ingest.HistoryShowsTheLast | go/dashboard/main.go:569-674 | After any run the history is the last `size` packets admitted since the last clear, with later location updates |
| Ingest.AdmittedIsShown | go/dashboard/main.go:427-674 | From the events alone: a packet that arrives while not paused and that the filter admits is in the history with exactly as many newer ones as were admitted after it (fewer than `size`, no clear), numbered among all that were taken in, with country and code of its lookup, or all four location fields of the last update for one of its addresses |
| Backoff.WaitIsCappedDoubling | go/dashboard/main.go:528-532 | For every failure count the wait is min(2 * 2^(f-1), 60) seconds although the 64-bit shift and product wrap |
| Backoff.WaitIsMonotone | go/dashboard/main.go:528-532 | More failures never shorten the wait, and it is always between 2 and 60 seconds |
| TlsSni.DissectTlsSni | cpp/protocol_dissectors.cpp:150-176 | For any bytes held and any length claimed: ends, and leaves in the output as much of the name found as fits and a NUL, or what was there before; a read beyond the bytes held is made visible |
| TlsSni.BeyondMeaning | cpp/protocol_dissectors.cpp:150-176 | With every read of the walk checked, one leaves the bytes held if and only if they begin like a hello and break off before a field that is there by the length: a type, one of the lengths, or the head or name of the extension that the lengths in front of it lead to |
| TlsSni.BeyondOwnLength | cpp/protocol_dissectors.cpp:151-153 | If the length claims no more than is held, that happens if and only if both are exactly 43 and the bytes begin like a hello, at the read of the session id's length |
| TlsSni.HelloRoundTrip | cpp/protocol_dissectors.cpp:150-176 | For every ClientHello (any session id, ciphers, compression methods and extensions), whatever follows it and whatever more the length claims, the host name of its first server_name extension is found, wherever that sits, and cut to the room for it; nothing is found if there is none |
| TlsSni.HelloOutput | cpp/protocol_dissectors.cpp:165-172 | For every ClientHello the output holds afterwards the host name, or as much of it as there is room for, a NUL, and behind it what it held before; it is unchanged if there is no name |
| TlsSni.CutHelloIsNeverWrong | cpp/protocol_dissectors.cpp:160-175 | From any beginning of a hello, with any length, either the right name is found, or none, or a read leaves the bytes held; the last not if the length claims no more than is held, 43 bytes apart |
| TlsSni.MoreBytes | cpp/protocol_dissectors.cpp:150-176 | As long as no read leaves the bytes held, what lies behind them makes no difference |
| TcpOptions.OptionFields.ParseExtended | cpp/protocol_dissectors.cpp:268-297 | For any bytes the loop stays in bounds, ends, and applies the parsed options to the fields one after the other |
| TcpOptions.OptionFields.Store | cpp/protocol_dissectors.cpp:284-294 | One option of a right length changes its own fields only; SACK edges as whole blocks, at most 32 bytes |
| TcpOptions.TransportFields.ParseBasic | cpp/packet_capture.cpp:188-208 | The other reader applies the same parsed options to MSS, window scale and authentication |
| TcpOptions.ReadersAgree | cpp/packet_capture.cpp:199-205 | From equal values both readers end with the same MSS, window scale and authentication flag |
| TcpOptions.ParseEncoded | cpp/protocol_dissectors.cpp:272-296 | Round trip: any list of options and NOPs, wherever it sits, is read back as its options in order |
| TcpOptions.ParsedIsEncoded | cpp/protocol_dissectors.cpp:272-296 | Conversely, whatever the bytes, what is read are the options encoded in front of where reading stops: the end, an end-of-list mark, or an option of a wrong length |
| TcpOptions.NopChangesNothing | cpp/protocol_dissectors.cpp:277-280 | A NOP put anywhere between options changes nothing |
| TcpOptions.EndOfListEnds | cpp/protocol_dissectors.cpp:274-276 | Bytes behind an end-of-list mark never matter |
| TcpOptions.LaterOptionsOverwrite | cpp/protocol_dissectors.cpp:284-294 | Every field ends up with what the last option about it says, the SACK edges byte by byte, and otherwise keeps its value |
| TcpOptions.SackIsStored | cpp/protocol_dissectors.cpp:287-290 | For every encoded option list with a SACK option and no other behind it: of its whole eight-byte blocks the first four are stored byte by byte, and the edges behind them stay |
| DnsName.DissectDns | cpp/protocol_dissectors.cpp:135-148 | For any bytes held and any length claimed: ends, says whether all reads stayed inside the bytes held, and if so leaves in the output the text of the labels, one dot at its end replaced by NUL; no label, no change |
| DnsName.CopyLabel | cpp/protocol_dissectors.cpp:143-144 | The inner loop copies the label as far as the length and the output go, touches nothing else, and leaves the bytes held exactly if that part of the label is not all in them |
| DnsName.DnsBeyondMeaning | cpp/protocol_dissectors.cpp:139-145 | A read leaves the bytes held if and only if they are a message whose labels lead to a label, there by the length and with room for it, that is not held as far as it would be copied; never if the length claims no more than is held |
| DnsName.DnsLeadsBeyond | cpp/protocol_dissectors.cpp:102-140 | A bare DNS header of 12 bytes in a UDP packet whose length field is 21 instead of 20 leads beyond them |
| DnsName.NameRoundTrip | cpp/protocol_dissectors.cpp:137-146 | For every list of labels of 1 to 63 bytes the text is the labels, each with a dot, cut to out_max - 1 bytes, whatever follows the name and whatever more the length claims |
| DnsName.LabelsThenEnd | cpp/protocol_dissectors.cpp:139-142 | The same for labels behind which the message ends, by its length, or a byte above 63 follows, as in a pointer |
| DnsName.LastLabelIsCut | cpp/protocol_dissectors.cpp:141-145 | A message that ends within a label, by its length, gives the part of it that is there |
| DnsName.NameComesOut | cpp/protocol_dissectors.cpp:135-147 | The output for every name: if it fits, its labels with dots between them, a NUL, and the rest untouched; if not, as much as there is room for, and the NUL behind it, or in place of a dot at its end |
| EthernetTags.ParseEthernetLayer | cpp/protocol_dissectors.cpp:29-41 | The loop over the tags ends and gives what the specification gives, for any capture length |
| EthernetTags.TagStack | cpp/protocol_dissectors.cpp:34-40 | For every stack of k tags and every capture length: header of 14 + 4j bytes for the j captured tags, the type behind them (the inner one if j = k), and the innermost VLAN id |
| EthernetTags.EthernetBeyondMeaning | cpp/protocol_dissectors.cpp:35-38 | The parser reads beyond the 256 bytes of the buffer if and only if more than 257 are said to be captured and every group of four bytes from the ether type on begins like a tag |
| IpHeader.ParseIpLayer | cpp/protocol_dissectors.cpp:43-79 | An accepted IP header lies within the capture length, its fixed part within the buffer; its length is a multiple of four of at least 20, or 40 for IPv6 |
| IpHeader.ParseBeyondMeaning | cpp/protocol_dissectors.cpp:43-76 | The parser reads beyond the buffer if and only if the version byte, or the fixed part of a header that passes the length tests, is not all in it |
| IpHeader.Ipv4RoundTrip | cpp/protocol_dissectors.cpp:48-62 | For every captured IPv4 header: its addresses, protocol, lifetime, service, id and length come out, and it is a fragment if and only if more fragments follow or its offset is not zero |
| IpHeader.Ipv6RoundTrip | cpp/protocol_dissectors.cpp:65-75 | For every captured IPv6 header: its addresses, next header, hop limit and traffic class come out, and the flow label is in the low 20 bits of its first word |
| Ipv6Extensions.SkipExtensions | cpp/packet_capture.cpp:301-317 | The loop ends and gives what the specification gives, reads beyond the buffer included |
| Ipv6Extensions.ChainRoundTrip | cpp/packet_capture.cpp:301-317 | For every captured chain of k headers: with k <= 10 the walk ends with the upper protocol and the count k; it is a fragment if and only if a fragment header was passed; a longer chain stops at its eleventh header |
| Ipv6Extensions.ChainBeyondMeaning | cpp/packet_capture.cpp:306-314 | The walk reads beyond the buffer if and only if fewer than ten headers, whose types and lengths are in the bytes, lead to one announced beyond it: a fragment header, or one to skip that is said to be captured |
| Ipv6Extensions.OnlyFragmentsLeadBeyond | cpp/packet_capture.cpp:311-313 | Of a frame that the buffer holds in full, only the unchecked fragment header can lead there |
| Layers.Ipv6Frame | cpp/packet_capture.cpp:273-317 | An IPv6 packet behind any stack of k tags and with up to ten extension headers, all captured: header length 14 + 4k, the innermost VLAN id, the addresses and fields of the IP header, and the upper protocol, count and fragment flag of the chain |
| Layers.Ipv4Frame | cpp/packet_capture.cpp:273-317 | The same for an IPv4 packet |
| Layers.LocateLayers | cpp/packet_capture.cpp:270-320 | For every frame and capture length: 14 <= l3 < l4 <= caplen, both 2 modulo 4; the stored l3 is the true one, the stored l4 if and only if that is below 256, as it is (at most 254) for up to 256 captured bytes; the protocol is where the extension walk ends |
| Layers.OnlyIpFrames | cpp/packet_capture.cpp:286-289 | Headers are found if and only if the Ethernet type is that of IPv4 or IPv6 and the IP parser accepts |
| Layers.FrameLeadsBeyond | cpp/packet_capture.cpp:306-313 | A whole frame of 256 bytes that leads beyond the buffer |
| Layers.OffsetCanBeLost | cpp/packet_capture.cpp:294 | A frame with 300 captured bytes whose offset behind the IP header is 294 |
| Layers.ShortFramesStayInside | cpp/packet_capture.cpp:273-289 | With up to 256 captured bytes the Ethernet and IP parsers never leave the buffer |

## Left out

- Memory orderings: the atomic steps are interleaved sequentially consistently; slot exclusivity stands for the absence of data races.
- Strict linearizability of refused calls: a pop can return false while a later ticket is already published, so only the meaning of a refusal at its load is stated.
- LockFreeQueue.Queue.Push: the class is run by one thread at a time; concurrent calls are the subject of QueueProtocol. The number of spurious compare-exchange failures is a parameter.
- QueueCapacity.WorksExactlyForPowersOfTwo: capacities above 2^61 are not looked at; the capture context uses 8192.
- QueueWord64.QueueSimulates: the bound on how far a thread may lag is a premise about scheduling; no code enforces it, but only a run of 2^61 steps can break it.
- PipelineOnQueues.RunsAreThePipelines: the threads' own steps (a test of the flag, a send) are atomic, and a packet counts as captured when its push is called.
- Pipeline.PacketsAreConserved: a packet stands for its dissected form, and the queues are FIFOs that may refuse at any time; that the sender's last drain takes everything is not claimed, since it may end before the workers do.
- Pipeline.OneWorkerKeepsOrder: with several workers no order is promised by the source.
- Framing.Stream.Write: stands for the TLS library; after a fatal error it lets nothing more through, as that library does.
- Framing.Connection.Handle: connection errors, the broadcast channel, the packet counter and the capacity of the buffer are not modelled; the packets delivered are a sequence.
- RecordDecoder.DecodeRecord: text fields are compared as raw bytes; lossy UTF-8 conversion, trimming of NULs and the formatting of addresses and protocol names are not modelled. The fields of the record are grouped into five parts.
- LruCache.Cache.Get: the list element and its entry are one object, the library's list is the ring it is built on, and the zero value returned on a miss is a parameter.
- LruSpec.LargerCacheIncludes: traces contain no Load, which ignores the capacity.
- Ingest.Dashboard.Arrive: lookups and the verdict of the filter are parameters; descriptions, vendors and broadcasting are left out. The sizes of counters are unbounded.
- Backoff.WaitIsCappedDoubling: the failure count is unbounded.
- TlsSni.DissectTlsSni: asks for room for at least the terminator; returns what was found, which the source does not. The dispatcher zeroes the record and then calls the parser only if a name is in it (cpp/packet_capture.cpp lines 276 and 345), so never; the statement is about the parser itself.
- DnsName.DissectDns: where the source would read beyond the bytes held, the model stops and says so; what the output holds then is not said.
- TcpOptions.OptionFields.ParseExtended: asks that the header's bytes are held.
- Layers.LocateLayers: ARP, STP and LLDP frames and the transport layer are not modelled. What a read beyond the buffer gives is not said; the model stops there.
- Entropy and byte statistics, ICMP, IGMP, NTP, OSPF, STP, GRE, VXLAN, LLDP, DHCP and HTTP dissection, vendor and protocol names: table lookups and floating point.
- Filter text matching, GeoIP, file persistence, HTTP and WebSocket handlers, signals, pcap and the user interface: library and I/O behaviour.
