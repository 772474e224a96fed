# L1 requests of the NA62 farm: a verified model

The farm asks its detector readouts for L1 data by multi-request packets (MRPs): UDP
frames that carry up to MAX_TRIGGERS_PER_L1MRP trigger elements each. This project
models the path from an accepted event to the bytes on the wire, and proves what that
path guarantees in every interleaving and for every input.

| file | contents |
|---|---|
| `Wrappers.dfy` | `Option` |
| `Bytes.dfy` | integer widths, byte order on a little-endian host, 16-bit fields in packed structs |
| `Checksum.dfy` | `CheckData` as a loop, its exact verdict, and the RFC 1071 laws behind it |
| `Wire.dfy` | trigger elements, frame layout, the interdependent length fields, both checksums, and a receiver's decoder |
| `EthernetUtils.dfy` | header generation in place: `GenerateUDP`, header templates, ARP |
| `MulticastMac.dfy` | the Ethernet address of a multicast group |
| `L1DistributionHandler.dfy` | `Async_SendMRP` on real buffers, in a class with the handler's static state |
| `L1Pipeline.dfy` | producers, the consumer thread and the end-of-burst flag as a state machine, and its invariant |
| `L1Intake.dfy` | what goes in: calls of `Async_RequestL1DataMulticast` against pushed headers |
| `L1Guarantees.dfy` | what the invariant means: fates, ownership, order, counters |
| `L1Draining.dfy` | how the consumer works off its queue on its own |
| `L1Flush.dfy` | what the end-of-burst flag stops and what it does not, exactly |
| `SendSide.dfy` | the bounded send queue and any number of packet handler threads |
| `NetworkHandler.dfy` | padding, the length gate and the retry loop of one send |
| `NetworkingSystem.dfy` | pipeline, send side and ARP thread together: ownership, conservation, wire sizes |
| `SystemDraining.dfy` | draining against the bounded send queue |
| `SystemFlush.dfy` | the exact flush condition in the whole system |
| `Delivery.dfy` | from the wire to the requests that each station takes in |
| `Accounting.dfy` | the balance of the whole system: calls against requests taken in, ARP rounds against announcements |
| `Rendezvous.dfy` | the in-process bind/connect protocol of ZMQHandler |

In the state machines one step is one access to shared state, or one local action
between two of them. A producer's flush check, its allocation and its push are separate
steps, as are the consumer's empty test, the two halves of the flush loop's guard, the
deletion and the retry pop. History fields record what has happened; no step reads them.
Headers and frame buffers are identified by their allocation, so an address that is used
again counts as a new buffer.

## Assumptions

- `GenerateChecksumUnwrapped`, `Wrapsum` and `GenerateChecksum` belong to `DataContainer`,
  which is not part of this model's sources. They are taken to follow section 2 of RFC 1071:
  the unwrapped sum continues a one's-complement sum over network-order words, and is 0 only
  for an empty sum; the other two return its complement in network order.
  `Checksum.FoldIsUnique` shows that this determines every result. `DataContainer.length`
  is taken to hold the value it is given.
- The host is little-endian, `int` has 32 bits, and the big-endian fields of l1/MRP.h are
  active, as its line 19 defines.
- The TBB queues are linearizable FIFOs. There is one consumer thread.
- `new MRP_FRAME_HDR()` and `new TRIGGER_RAW_HDR()` zero the memory, as value
  initialisation of these structs does.
- `AsyncSendFrame` takes `const DataContainer&&`, so `std::move` at its call in the ARP
  thread copies, and the ARP container keeps its buffer for the next round.
- `Event` getters return 32, 8, 16 and 32 bits. Every send goes through the send queue:
  `SendFrameConcurrently` has no other caller.
- `flushBurst()`, the ring's answers and the scheduler are free choices of the environment.

## Code and comments

Where they disagree, the code is modelled.

- l1/MRP.h lines 54 and 80 call the MRP header 8 bytes long; it has 12, and the code uses `sizeof`.
- socket/EthernetUtils.h line 104 speaks of a broadcast destination; a gratuitous ARP is
  sent to the all-zero address (`EthernetUtils.GenerateGratuitousArp`).
- l1/L1DistributionHandler.h line 61 documents a returned byte count; `Async_SendMRP` returns nothing.
- l1/L1DistributionHandler.cpp line 70 announces that no requests are made beyond the end
  of the burst. `L1Flush.RequestSealedDuringFlush` is a run in which nothing has been pushed
  when the flag goes up, the flag stays up, and an MRP is sealed all the same.
  `L1Flush.SealsExactlyWhenSealable` gives the exact condition in every reachable state, and
  `L1Flush.NoRequestsFromQuietState` the case in which the comment holds.
- The comment at line 183 says that a partial batch is not sent while frames are queued; the
  code only sleeps (`continue` is commented out). `SystemDraining.AloneDrainsExactly` covers it:
  with frames in the send queue, the consumer seals every piece, the partial last one too.
- RFC 768 transmits a computed checksum of zero as 0xFFFF, since zero means "no checksum".
  `Wrapsum` returns zero. `Wire.FrameCheckField` and `Wire.ZeroChecksumOfBatch` say exactly for
  which frames, and `EthernetUtils.SampleCarriesZero` is one.

## Model

| member | source | states |
|---|---|---|
| `L1Pipeline.InvStep` | l1/L1DistributionHandler.cpp:68-81 | every step of producers, consumer and flag keeps queue, allocation, batch size, order, ownership, frame and counter invariants (what a header stands for is `L1Intake`) |
| `L1Pipeline.RunInv` | l1/L1DistributionHandler.cpp:147-287 | the invariant holds in every state of every run |
| `L1Intake.CallPushesItsRequest` | l1/L1DistributionHandler.cpp:68-81 | whatever others do in between, a call that finds the flag down can allocate and push, and the one header that joins queue and history carries the event and the zero suppression passed in |
| `L1Intake.RefusedCall` | l1/L1DistributionHandler.cpp:71-74 | a call that finds the flag up changes nothing |
| `L1Intake.PushedAreAcceptedCalls` | l1/L1DistributionHandler.cpp:68-81 | over every schedule from the start, the headers pushed and the calls under way are, as a multiset of events and flags, exactly the calls that found the flag down |
| `L1Guarantees.EveryHeaderHasOneFate` | l1/L1DistributionHandler.cpp:162-179 | popped headers followed by the queue are the push history; each popped header is in exactly one of: dropped, inside one MRP, current batch |
| `L1Guarantees.NothingDroppedWithoutFlush` | l1/L1DistributionHandler.cpp:168-178 | while no test of line 169 has seen the flag up, MRPs, batch and queue in order are everything pushed |
| `L1Guarantees.FlushUnread` | l1/L1DistributionHandler.cpp:169 | a flag that has not been up has not been seen up |
| `L1Guarantees.HeadersDeletedOnce` | l1/L1DistributionHandler.cpp:169-238 | no header is deleted twice or while queued, batched or in hand; at the loop head all popped headers are deleted |
| `L1Guarantees.HeldHeadersNotDeleted` | l1/L1DistributionHandler.cpp:75-80 | a header that a producer still holds has been neither pushed nor deleted |
| `L1Guarantees.RetryBlocksOnlyAfterDrop` | l1/L1DistributionHandler.cpp:168-176 | the retry pop meets an empty queue only if this iteration dropped a header after its empty test; otherwise it succeeds at once |
| `L1Guarantees.CountersAtLoopHead` | l1/L1DistributionHandler.cpp:282-285 | batch empty; counters are MRPs and triggers modulo 2^64; MRPs <= triggers <= MAX * MRPs; frames = MRPs * endpoints; MRPs hold exactly the kept headers in order |
| `L1Guarantees.BatchBounded` | l1/L1DistributionHandler.cpp:159-240 | the consumer never holds more than MAX headers; every MRP has 1 to MAX |
| `L1Guarantees.FrameGivesBatch` | l1/L1DistributionHandler.cpp:231-246 | decoding one frame and reversing its triggers gives the batch in push order |
| `L1Guarantees.EndpointsReceiveKeptTriggers` | l1/L1DistributionHandler.cpp:147-287 | for every endpoint, run and MAX: decoding its frames, reversing each and concatenating gives exactly the triggers of its MRPs of at most 5457, field by field in push order; if none is larger, that is every kept trigger at the loop head |
| `L1Draining.ChunksShape` | l1/L1DistributionHandler.cpp:168-178 | the pieces of a queue are ceil(q / MAX) many, all full but the last, and concatenate to the queue |
| `SystemDraining.SystemDrains` | l1/L1DistributionHandler.cpp:162-287 | from every reachable state with the consumer at its loop head, the flag down and MAX >= 1, consumer and packet handler threads have a schedule that seals the queue in exactly those pieces and leaves no frame queued or with a sender, against the send queue bounded at 1000 |
| `SystemDraining.SimulatePath` | socket/PFringHandler.cpp:144-161 | back pressure only delays: every schedule of producers, flag and consumer can be carried out against the bounded queue, rounds of one sender making room where it is full |
| `SystemDraining.AloneDrainsExactly` | socket/PFringHandler.cpp:94-146 | the consumer alone drains its queue if and only if queued frames plus ceil(q / MAX) * endpoints are at most 1000; otherwise it blocks |
| `L1Draining.ZeroLimitPopsNothing` | l1/L1DistributionHandler.cpp:168 | with MAX = 0 no run ever takes a header out, so draining needs MAX >= 1 |
| `L1Flush.PushesDuringFlush` | l1/L1DistributionHandler.cpp:68-81 | while the flag stays up, in any interleaving, pushes grow by exactly as many as producers past line 71 become fewer |
| `L1Flush.NoRequestsFromQuietState` | l1/L1DistributionHandler.cpp:68-81 | while the flag stays up, nothing is pushed, sealed or sent if no producer is past line 71 and the consumer neither holds a header nor is about to keep one |
| `L1Flush.FlushStopsSealing` | l1/L1DistributionHandler.cpp:162-194 | while the flag stays up, nothing is sealed in any interleaving from a state where `CanSeal` fails, nor sent unless an MRP was being distributed |
| `L1Flush.SealsExactlyWhenSealable` | l1/L1DistributionHandler.cpp:162-194 | from a reachable state with the flag up, some continuation that leaves it up seals an MRP if and only if `CanSeal` holds of the consumer's position, the number of producers past line 71, and the sizes of queue and batch |
| `L1Flush.RequestSealedDuringFlush` | l1/L1DistributionHandler.cpp:70-80 | a run from the start in which the flag goes up before anything is pushed, stays up, and an MRP is sealed |
| `SystemFlush.SealsExactlyWhenSealable` | l1/L1DistributionHandler.cpp:162-279 | the same equivalence in every reachable state of the whole system, with senders, ARP thread and bounded queue |
| `L1Flush.FlushDropsQueue` | l1/L1DistributionHandler.cpp:169-172 | with the flag up and no pushes, the whole queue is dropped and deleted in order and the batch survives |
| `L1DistributionHandler.Handler.AsyncSendMrp` | l1/L1DistributionHandler.cpp:217-287 | the last min(size, MAX) triggers leave the batch; each endpoint gets a fresh frame of its own, unicast first, equal to its template's `MrpFrame` of them last one first; templates and older frames are untouched; counters advance |
| `L1DistributionHandler.Handler.SendToEndpoints` | l1/L1DistributionHandler.cpp:242-279 | one frame per template in order, in pairwise different fresh buffers |
| `L1DistributionHandler.PackTriggers` | l1/L1DistributionHandler.cpp:219-240 | the batch loop takes the last min(size, MAX) triggers, fills the working buffer exactly to its end and leaves the prefix |
| `L1DistributionHandler.PackOne` | l1/L1DistributionHandler.cpp:232-239 | copying the next trigger from the back extends the packed part of the buffer by it |
| `L1DistributionHandler.CopiesFitExactlyBelow32Bits` | l1/L1DistributionHandler.cpp:219-222 | the working buffer has room for the copies if and only if fewer than 357913937 triggers are packed |
| `L1DistributionHandler.MakeFrame` | l1/L1DistributionHandler.cpp:243-254 | header over payload, then counts, lengths and checksums in place, gives `MrpFrame`; every byte is initialised |
| `L1DistributionHandler.WriteNumberOfTriggers` | l1/MRP.h:77-86 | the stores of count, MRP length and both packet lengths, on the array |
| `L1DistributionHandler.SetPayloadSize` | structs/Network.h:32-36 | the two length fields and nothing else are written |
| `L1DistributionHandler.WriteUdpChecksum` | socket/EthernetUtils.h:129-144 | the field is zeroed before the sum, then filled; nothing else changes |
| `Wire.TriggerRoundTrip` | l1/L1DistributionHandler.cpp:48-66 | a trigger element is read back field by field, its event number modulo 2^24; which byte holds what, with the zero suppression byte 0 or 1 and the reserved byte 0 |
| `Wire.SetNumberOfTriggers` | l1/MRP.h:50-60 | the stored fields and their exact values under 16-bit truncation; truncating stepwise is truncating once; no other byte changes |
| `Wire.FrameFields` | l1/MRP.h:71-87 | for every batch size: all length fields modulo 2^16, payload after the header, remaining header bytes from the template |
| `Wire.LengthCoherence` | l1/MRP.h:77-86 | count, MRPLength 12+12n, udp.len 20+12n and tot_len 40+12n are right if and only if n <= 5457 |
| `Wire.ChainIsRfc768Sum` | socket/EthernetUtils.h:129-160 | the chain of partial sums equals the RFC 768 sum over pseudo header, UDP header and payload, for any payload length |
| `Wire.GeneratedUdpChecksumAccepted` | socket/EthernetUtils.h:129-160 | after storing the generated checksum, `CheckUDP` accepts, for any contents and payload length |
| `Wire.CheckUdpExactly` | socket/EthernetUtils.h:146-160 | `CheckUDP` accepts if and only if the words covered by RFC 768 sum up to a positive multiple of 65535 |
| `Wire.UdpHeaderWordError` | socket/EthernetUtils.h:146-160 | of all changes of one word of the addresses or the UDP header of an accepted message, exactly the exchange of 0 and 0xFFFF is accepted (towards 0 only if something nonzero remains) |
| `Wire.UdpPayloadWordError` | socket/EthernetUtils.h:146-160 | the same for any word of the payload |
| `Wire.FrameChecksumsAccepted` | l1/L1DistributionHandler.cpp:251-254 | every frame of any batch size passes `CheckData` on its IP header and `CheckUDP` on its advertised payload |
| `Wire.ZeroChecksumExactly` | socket/EthernetUtils.h:129-144 | the generated checksum is zero if and only if the covered words balance, and is the field of RFC 768 if and only if they do not |
| `Wire.FrameCheckField` | l1/L1DistributionHandler.cpp:253-254 | the same for the check field of every frame of any template and batch |
| `Wire.ZeroChecksumOfBatch` | l1/L1DistributionHandler.cpp:253-254 | for at most 5457 triggers, the frame carries zero if and only if a sum over template, batch size and trigger elements balances |
| `Wire.ZeroChecksumOccurs` | l1/L1DistributionHandler.cpp:253-254 | for every template there is an event whose request carries zero |
| `EthernetUtils.SampleCarriesZero` | l1/L1DistributionHandler.cpp:253-254 | a concrete endpoint and event whose frame carries zero |
| `Wire.FrameRoundTrip` | l1/L1DistributionHandler.cpp:242-257 | a checking decoder accepts the frame if and only if n <= 5457, and then recovers addresses, ports and triggers |
| `Checksum.CheckData` | socket/EthernetUtils.h:162-177 | the loop accepts if and only if the sum of the words is positive and divisible by 65535, for every 16-bit length |
| `Checksum.UnmaskedFold` | socket/EthernetUtils.h:174-176 | the first fold is at most 98302, so the missing mask of the second never changes the verdict |
| `Checksum.ByteOrderIndependence` | socket/EthernetUtils.h:169-173 | the verdict does not depend on the byte order in which words are loaded (section 2 (B) of RFC 1071) |
| `Checksum.WordOrderIndependence` | socket/EthernetUtils.h:162-177 | the verdict is the same for any permutation of the words (section 2 (A) of RFC 1071) |
| `Checksum.CheckDataAgainstRfc1071` | socket/EthernetUtils.h:164-168 | the verdict is the RFC 1071 one on exactly `len` bytes plus, for odd lengths, the next byte |
| `Checksum.SingleWordError` | socket/EthernetUtils.h:162-177 | when one word of an accepted buffer changes, exactly an exchange of 0 and 0xFFFF stays undetected (towards 0 only if another word is nonzero) |
| `Checksum.SingleWordErrorInBuffer` | socket/EthernetUtils.h:162-177 | the same equivalence for overwriting two bytes of the buffer |
| `Checksum.GeneratedChecksumAccepted` | socket/EthernetUtils.h:124-127 | a header with a zeroed field filled by `GenerateChecksum` is accepted |
| `EthernetUtils.GenerateUdp` | socket/EthernetUtils.cpp:99-125 | the headers in place, every other byte of the buffer as before (`TemplateLayout` has the bytes) |
| `EthernetUtils.TemplateLayout` | socket/EthernetUtils.cpp:103-122 | a template byte by byte, in numerals: types, version, no type of service, identification 0, don't fragment, time to live 128, UDP, addresses, ports, zero fields |
| `Wire.FragmentBits` | structs/Network.h:38-43 | a header is a fragment if and only if its offset is not zero or more fragments follow |
| `EthernetUtils.FrameIsNoFragment` | socket/EthernetUtils.cpp:103-122 | every request frame of any batch keeps these bytes and is no fragment for any receiver |
| `EthernetUtils.MakeTemplate` | l1/L1DistributionHandler.cpp:119-134 | a fresh template for any destination MAC: header over zeros, own address, zero word; ports truncated to 16 bits |
| `EthernetUtils.TemplateIdentifiesEndpoint` | socket/EthernetUtils.cpp:103-122 | a template is a valid IPv4/UDP header with exactly the endpoint's addresses and ports |
| `EthernetUtils.EndpointRoundTrip` | l1/L1DistributionHandler.cpp:102-134 | from endpoint and batch to the decoded packet: who asks whom for what |
| `EthernetUtils.MakeMulticastTemplate` | l1/L1DistributionHandler.cpp:102-115 | the template of a group: its RFC 1112 address, the requester's addresses, and the two ports at their places, in numerals |
| `EthernetUtils.MulticastRoundTrip` | l1/L1DistributionHandler.cpp:102-115 | the whole decoded multicast request: RFC 1112 destination of the group, requester's addresses, source and destination port as passed in, packed triggers |
| `EthernetUtils.GenerateArp` | socket/EthernetUtils.h:92-122 | 64 bytes allocated, the announced 42 are the ARP frame (`ArpRoundTrip` has what it says) |
| `EthernetUtils.ArpRoundTrip` | structs/Network.h:71-79 | an ARP frame with or without trailer is read back as generated, and its Ethernet header leads from the sender to the target |
| `EthernetUtils.GenerateGratuitousArp` | socket/EthernetUtils.h:84-90 | the decoded frame announces the sender's own address, with all-zero targets and the sender as Ethernet source |
| `MulticastMac.GenerateMulticastMac` | socket/EthernetUtils.h:60-79 | the fresh buffer holds 01-00-5E and the masked address bytes |
| `MulticastMac.SharedMac` | socket/EthernetUtils.h:71-77 | two groups share a MAC if and only if their low 23 bits agree (section 6.4 of RFC 1112) |
| `MulticastMac.ThirtyTwoGroupsPerMac` | socket/EthernetUtils.h:71-77 | exactly 32 class D groups share each MAC, one per value of the five omitted bits |
| `NetworkHandler.SendPacket` | socket/PFring.cpp:75-95 | refused exactly without a ring or above 1500 bytes, and then not offered; otherwise exactly these bytes are offered until the first non-negative answer, which is returned |
| `NetworkHandler.Sender.SendFrameConcurrently` | socket/PFringHandler.cpp:179-203 | counted once even if refused; what is offered is the frame completed with zeros to 60 bytes, until the first non-negative answer; refused exactly without a ring or above 1500 bytes |
| `SendSide.InvStep` | socket/PFringHandler.cpp:144-203 | every sender step and every admissible enqueue keeps queue, ticket, wire, settlement, freeing and count invariants |
| `SendSide.RingDecides` | socket/PFring.cpp:80-94 | a frame of at most 1500 bytes goes out exactly when the ring accepts and is otherwise kept and offered again; a longer one is given up |
| `SendSide.RoundEffect` | socket/PFringHandler.cpp:148-161 | one sender's round transmits, counts and frees exactly the oldest frame |
| `SendSide.SenderDrains` | socket/PFringHandler.cpp:148-161 | q rounds of one sender put all frames within the limit on the wire, padded and in order, free their buffers by flag and add q to framesSent |
| `NetworkingSystem.RunInv` | socket/PFringHandler.cpp:100-161 | consumer, producers, ARP thread and senders together keep all invariants in every run |
| `Accounting.ArpRound` | socket/PFringHandler.cpp:104-119 | an ARP round is possible exactly while fewer than 1000 frames are queued, and appends the announcement in the one buffer that nobody frees |
| `Accounting.AnnouncementsOnWire` | socket/PFringHandler.cpp:100-122 | over every schedule, as many ARP frames are queued as the thread made rounds; at rest with MAX <= 120, exactly so many padded copies are on the wire |
| `Accounting.ArpOnWire` | socket/PFringHandler.cpp:104-119 | a padded copy has 60 bytes and is read as the requester announcing its own address |
| `NetworkingSystem.BuffersFreedOnceAfterSend` | socket/PFringHandler.cpp:104-158 | no buffer is freed twice or before it was sent or refused, the ARP buffer never; nothing queued or in a sender's hands is freed |
| `NetworkingSystem.FramesConserved` | socket/PFringHandler.cpp:144-181 | framesSent + queued + popped but uncounted = enqueued (modulo 2^64), queue <= 1000; at rest every MRP buffer has been freed |
| `NetworkingSystem.FramesSentAtRest` | socket/PFringHandler.cpp:144-181 | at rest framesSent = MRPs * endpoints + ARP frames (modulo 2^64) |
| `NetworkingSystem.GateOnTriggers` | socket/PFring.cpp:80-81 | an MRP frame is refused if and only if it has more than 120 triggers, and never padded if it has any |
| `NetworkingSystem.WireFrames` | socket/PFringHandler.cpp:185-202 | what reaches the ring is 60 to 1500 bytes, a queued frame followed by zeros only; MRP frames unpadded, ARP frames padded to 60 |
| `NetworkingSystem.NothingRefused` | socket/PFring.cpp:80-81 | with MAX <= 120 no frame is ever refused |
| `Delivery.EveryFrameExactlyOnce` | socket/PFringHandler.cpp:148-203 | any number of senders, MAX <= 120, at rest: every enqueued frame is on the wire exactly once, padded, so that the wire is a permutation of the padded queue history |
| `Delivery.StationsReceiveKeptTriggers` | socket/PFringHandler.cpp:148-203 | any number of senders, MAX <= 120, at rest: decoding the bytes on the wire, a station takes from the frames addressed to it every trigger kept, exactly as often as it was kept |
| `Delivery.SingleSenderDeliversInOrder` | socket/PFringHandler.cpp:148-203 | with one sender, it takes exactly the kept triggers in push order |
| `Accounting.CallsAccountedFor` | l1/L1DistributionHandler.cpp:68-240 | over every schedule of the whole system, each call that found the flag down is kept, dropped by a flush, queued or still with its producer, and these add up |
| `Accounting.StationsReceiveCalls` | l1/L1DistributionHandler.cpp:68-287 | any number of producers and senders, MAX <= 120: when all is sent, no call is under way and no flush was noticed, a station takes in exactly what the calls asked for, each as often as it was asked |
| `Delivery.ReceivedFromItems` | socket/PFringHandler.cpp:185-198 | padding and ARP frames make no difference to what a station takes in |
| `Rendezvous.RunInv` | socket/ZMQHandler.cpp:85-102 | mutex, registration and event order invariants in every schedule |
| `Rendezvous.ConnectAfterBind` | socket/ZMQHandler.cpp:85-102 | every connect follows a completed bind of its address; at most one thread is between lock and unlock; whoever connects holds the mutex |
| `Rendezvous.OnlyAThrowBlocks` | socket/ZMQHandler.cpp:93-101 | the holder is stuck if and only if a connect has thrown; with the mutex free every unfinished thread can move |
| `Rendezvous.BindLetsConnect` | socket/ZMQHandler.cpp:85-102 | a connecting thread waits without effect until the bind is registered, and then connects and frees the mutex |
| `Rendezvous.BindInproc` | socket/ZMQHandler.cpp:85-90 | called with an address and left alone, it binds and registers that address and gives the mutex back |
| `Rendezvous.ConnectInproc` | socket/ZMQHandler.cpp:92-102 | called with an address and left alone, it connects to it if it is registered and is back at its call otherwise |
| `Rendezvous.CallsKeepTheirAddress` | socket/ZMQHandler.cpp:85-102 | in every schedule, what a thread binds or connects is the address it was called with |
| `Rendezvous.ThrowLocksForever` | socket/ZMQHandler.cpp:100-101 | after a connect throws, the mutex stays locked and no thread ever connects again |

## Left out

- AsyncSendMrp: requires fewer than 357913937 triggers, because beyond that the size of the working buffer overflows 32 bits and the copies leave it; the state machine's frames assume the same bound on MAX.
- SystemDrains: producers rest, the flag stays down and the ring accepts. It shows that a schedule exists; nothing is claimed about fairness between threads, nor about consumers that are not at their loop head.
- SealsExactlyWhenSealable: the flag stays up after the state in question; flags that fall and rise again are covered by the invariant only.
- SenderDrains: the ring accepts at once. Whether `send_packet` ever returns depends on `pfring_send`.
- StationsReceiveCalls: the order of calls by different producers is the order of their pushes, which `Delivery.SingleSenderDeliversInOrder` preserves; the statement itself counts.
- StationsReceiveKeptTriggers: requires that no other endpoint has the station's IP address; stations that share one take in each other's frames as well. MAX <= 120, because larger MRPs are refused.
- ConsumerDrains: the consumer's own steps without back pressure, a part of `SystemDraining.SystemDrains`.
- OnlyAThrowBlocks: an address that is never bound keeps its connecting thread polling for ever.
- SendPacket: the polling calls between attempts. The state machines assume that a ring exists.
- The state machines keep the batch and the queues as values and take one endpoint's frame as one step; the stores inside a frame are in `L1DistributionHandler.dfy`.
- The other fragment queries of structs/Network.h (offset, more fragments): expressions over the field of `Wire.IsFragment`.
- Stripping "dna:" and "@" from interface names in socket/EthernetUtils.cpp: two substring calls, nothing to relate.
- `StringToMAC`: its behaviour is that of `sscanf`. `GetMacOfInterface`, `GetIPOfInterface`: ioctl calls.
- `L1_UnicastRequestHdr` (filled, never sent) and `Async_RequestL1DataUnicast` (not implemented).
- The little-endian branch of l1/MRP.h, which is compiled out and computes its UDP length with an 8-byte header.
- socket/PCapHandler.cpp: counts each queued frame twice, so frame conservation does not hold for that build.
- monitoring, dim, the ZMQ socket registry, receiving frames, statistics, logging and sleeps.
