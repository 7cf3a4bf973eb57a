# The sr software router: a Dafny model and its proofs

The repository is an IPv4 router that runs in user space. It answers ARP and ping, forwards datagrams by longest-prefix
match, keeps frames in a queue while it asks for the hardware address of their next hop, and reports failures by ICMP.
A library next to it computes SHA-1. This project models three parts of it and proves what they do:

* **The ARP cache, the request queue and forwarding** as one machine of two threads that share a lock. The timer thread
  expires cache entries, repeats ARP requests, gives up after the fifth, and while it walks the list of requests it
  re-enters the router and changes that list. The packet thread looks up, queues, learns and flushes. The theorems hold
  in every run, that is, for every finite sequence of steps of the two threads.
* **The IP data path over bytes**: checksum arithmetic, header validation, TTL rewriting, ICMP construction, route
  choice, and a network of routers that all run this code, whatever their tables say.
* **The SHA-1 engine**, which takes a message in pieces, against the text of FIPS PUB 180-1.

## How it is organised

| file | content |
|---|---|
| `Bytes.dfy`, `Checksum.dfy`, `IpHeader.dfy`, `Icmp.dfy`, `Arp.dfy`, `Routing.dfy` | frames, checksums, header checks and rewrites, the messages the router builds, interfaces and routes |
| `Wire.dfy` | the same frames, tests and choices a second time, in octets and in the numbers of the RFCs, and that the two descriptions agree |
| `ArpState.dfy`, `Reactions.dfy` | what each critical section does to the shared state, and what the packet thread decides to do with a frame, as functions |
| `ArpCache.dfy`, `Router.dfy` | the same in the form of the C code: an array, a linked list relinked in place, handlers that overwrite buffers; each method is proved to compute its function |
| `History.dfy`, `Order.dfy`, `Invariants.dfy`, `Loss.dfy`, `Sections.dfy`, `System.dfy` | the log of a run, the invariant, its preservation by every critical section, the two-thread machine |
| `Theorems.dfy`, `FlushOrder.dfy`, `Retry.dfy`, `Fate.dfy`, `CacheMap.dfy`, `TimerThread.dfy`, `Provenance.dfy` | what holds in every run |
| `Reception.dfy`, `Sent.dfy` | what comes of every received frame, and what every sent or waiting frame is, in terms of `Wire.dfy`, the routing table and the log |
| `Network.dfy`, `Loop.dfy` | journeys through many routers, a count of all copies in a network, and a journey that loops |
| `Scenario.dfy`, `RateLimit.dfy`, `LostFrame.dfy` | concrete runs |
| `Sha1Spec.dfy`, `Sha1.dfy`, `Sha1Vector.dfy` | the standard, the engine, and the digest of "abc" |

`dafny verify dfyconfig.toml` checks everything.

The log in the shared state belongs to the model: it records every frame that is handed to `sr_send_packet`, whether it
passes the guards or is refused, every frame that is queued, every accepted ARP message and every expiry. It also records
(`Unsent`) each time that a route, a waiting frame, an ARP request or an echo reply ends at a name that no interface has
(`sr_router.c:262`, `365`, `404` and `533`, `sr_arpcache.c:30`). Two places leave no event: an ICMP error that finds no
source interface is not built (`sr_router.c:169`, `458`), and an ARP message from an unknown interface is ignored
(`sr_router.c:234`). The `origin` of a packet, which says what the frame was made from, and the `id` of a request, which
says which allocation it is, belong to the model too.

## Assumptions

* `sr_router.c:557-564` is one step. The C code releases the lock at the end of `sr_arpcache_queuereq` and then reads
  and writes the request's counters; the model does not let the timer thread run in between.
* Each step reads the clock once, and the clock never goes back. Times are whole seconds, as `time` returns them.
* Allocation succeeds. `sr_send_packet` puts a frame on the wire when its two guards let it.
* Interface names are at most 32 characters long, so that `strncmp` with `sr_IFACE_NAMELEN` is equality.
* A frame of 42 bytes or more names an existing interface, which `sr_vns_comm.c:657` asserts. Shorter frames may name
  anything.
* Where a theorem needs that every route names an existing interface it says so (`Consistent`, what
  `sr_verify_routing_table` returning 0 establishes). Interfaces and routes do not change during a run.
* A checksum is the number that its two bytes form on the wire, so that `htons` in `cksum` and the comparisons of stored
  fields agree on any host.

## Where the code and its documents differ

The model follows the code.

* `sr_arpcache.c:271` speaks of kicking out a random entry when the cache is full. Nothing does: the mapping is not
  stored (`StoredRefines`), and that is the only way to break the rate limit for ARP requests (`AsksAreASecondApart`,
  `EarlyAskIffNoSlot`, `RateLimitNeedsSlots`).
* `README.md:16` speaks of exact routing-table matches. The code finds the longest matching prefix.
* `sr_arpcache.h:26-35` would also repeat a request, or give up on it, when a frame is sent. The code sends a request
  from that path only when none was sent for it yet; the rest is left to the sweep.
* Frames leave a queue in the reverse of the order in which they entered it (`FlushesReverseArrivals`).
* A header whose checksum field is 0x0000 is refused even when its words sum to zero, because `cksum` never returns 0
  (`ZeroFieldIsRefused`).
* An ICMP error quotes 28 bytes of the datagram at most, even when its header has options.
* The sweep reports frames that are themselves ICMP errors (`ErrorsAboutErrors` for a run in which it happens).
* A host-unreachable error whose way back leads through the unreachable next hop itself is queued on the request that is
  being destroyed, and is lost with it (`ExpiryLosesReturningErrors`, and `ExpiryCanLose` for a run in which it
  happens).

## Model

| member | source | states |
|---|---|---|
| Checksum.ComputeCksum | sr_utils.c:8-20 | The two loops compute Cksum of the given bytes, odd lengths included, with a 32-bit accumulator; the folding loop is left after two rounds at most. |
| Checksum.FoldInTwoRounds | sr_utils.c:16-17 | From any 32-bit sum the folding loop ends after no, one or two rounds, with the value it folds to. |
| Checksum.AccumulatorNeverOverflows | sr_utils.c:10-15 | For up to 65537 words the unbounded sum is below 2^32. |
| Checksum.CksumCancels | sr_utils.c:8-20 | A number is the checksum if and only if it lies in 1..0xffff and cancels the sum modulo 65535. |
| Checksum.CksumIsRfc1071 | sr_utils.c:8-20 | cksum equals the end-around-carry checksum of section 1 of RFC 1071, zero written as 0xffff, if and only if the sum fits 32 bits, for every length an int can hold. |
| IpHeader.ValidIpPacket | sr_router.c:192-219 | Leaves the buffer as it was and returns whether the frame is well formed and stores the checksum that the router would store; every length is handled. |
| IpHeader.ValidIffSumsToZero | sr_router.c:206-218 | Accepted are exactly the well-formed frames whose header sums to zero modulo 65535 and whose checksum field is not 0x0000. |
| IpHeader.ZeroFieldIsRefused | sr_utils.c:18-19 | A well-formed frame whose header sums to zero modulo 65535 with a checksum field of 0x0000, which is refused. |
| IpHeader.ValidityIgnoresEthernet | sr_router.c:192-219 | Two frames that agree behind the Ethernet header are accepted or refused together. |
| IpHeader.SealedIsValid | sr_router.c:312-313 | Zeroing and recomputing the checksum makes any well-formed frame valid. |
| IpHeader.DecrementTtl | sr_router.c:311-313 | In place, the TTL is one less, the checksum is recomputed, nothing else changes. |
| IpHeader.DecTtlIsIncrementalUpdate | sr_router.c:311-313 | Decrementing the TTL of a valid frame keeps it valid, and the new checksum is the old one plus 0x0100 with end-around carry: equation 3 of RFC 1624, never 0. |
| Routing.GetInterface | sr_if.c:37-55 | The first interface of that name, None exactly when there is none. |
| Routing.GetInterfaceByMac | sr_router.c:132-145 | The first interface with that hardware address, None exactly when there is none. |
| Routing.CheckRouterIp | sr_router.c:118-130 | True exactly when some interface has the address. |
| Routing.FindLpmRoute | sr_router.c:172-190 | The earliest of the matching entries with the numerically greatest mask, whatever the masks; None exactly when nothing matches. |
| Routing.MaskedEqualityIsPrefixEquality | sr_router.c:181-182 | Under a contiguous mask of n ones, masked addresses are equal if and only if their first n bits are. |
| Routing.MaskOrderIsLengthOrder | sr_router.c:179-182 | Contiguous masks compare as numbers the way their prefix lengths compare. |
| Routing.LpmIsLongestMatch | sr_router.c:172-190 | With contiguous masks the loop finds an entry if and only if it is the longest match of section 5.2.4.3 of RFC 1812, the earliest among equals, and finds nothing if and only if no entry covers the address. |
| Routing.LpmIgnoresOrder | sr_router.c:172-190 | When no two entries describe the same network, any permutation of the table gives the same route. |
| Routing.FindIcmpSourceIface | sr_router.c:147-170 | Computes IcmpSourceIface: the interface that sent the frame, else the one it was sent to, else the one on the route to its source (SourcesAreSources). |
| Icmp.BuildEchoReply | sr_router.c:392-430 | Fills a fresh buffer with the echo reply and leaves the request alone. |
| Icmp.EchoReplyIsValid | sr_router.c:416-430 | Every echo reply passes the router's own header check and ICMP checksum test and has type and code 0. |
| Icmp.EchoReplyMirrorsRequest | sr_router.c:416-430 | Identifier, sequence number, payload and all other header bytes are the request's; IP and hardware addresses are turned around, the TTL is 255. |
| Icmp.CheckMessage | sr_router.c:286-299 | The ICMP checksum test; the buffer is as it was afterwards. |
| Icmp.BuildIcmpError | sr_router.c:436-497 | Builds the error exactly when the frame is valid and has a source interface; never reads past the frame and restores it. |
| Icmp.ErrorFrameIsValid | sr_router.c:474-497 | Every ICMP error passes the router's own header check and ICMP checksum test and carries the hardware address of the chosen interface. |
| Icmp.ErrorFrameIsAddressed | sr_router.c:478-489 | It goes from the address of that interface to the source of the offending datagram, 56 bytes long, with TTL 255. |
| Icmp.ErrorFrameQuotes | sr_router.c:491-497 | It has the given type and code and quotes exactly the first min(28, length) bytes of the datagram, zeros around them. |
| Arp.Build | sr_arpcache.c:35-51 | The ARP message with every field in place; sr_router.c:332-348 and 370-386 fill theirs the same way. |
| Wire.MessageIsArp | sr_router.c:370-386 | Octet by octet, the message is Ethernet type 0x0806, hardware type 1, protocol 0x0800, lengths 6 and 4, the operation and the four addresses. |
| Wire.FindIfaceIsFirst | sr_if.c:37-55 | The interface of a name is the first of that name, and there is none exactly when no interface has it. |
| Wire.FindIfaceByMacIsFirst | sr_router.c:132-145 | So is the interface of a hardware address. |
| Wire.AcceptedAreDatagrams | sr_router.c:192-219 | Accepted are exactly the frames of 34 octets or more with version 4, header length at least 20, at most the total length, which fits the frame, and a header checksum other than 0x0000 that cancels modulo 65535. |
| Wire.EchoRequestsArePings | sr_router.c:286-299 | An accepted datagram is taken for an echo request exactly when its protocol is 1, its message has 8 octets or more, its type is 8, and its ICMP checksum is not 0x0000 and cancels. |
| Wire.RepliesAreEchoes | sr_router.c:392-430 | The reply is the request with addresses turned around, TTL 255, type and code 0, both checksums cancelling, and every other octet kept. |
| Wire.ErrorsAreErrors | sr_router.c:463-497 | An error has 70 octets: type 0x0800, version 4 without options, total length 56, identification and fragment fields 0, TTL 255, protocol 1, the addresses, type, code, the first 28 octets of the datagram or all, zeros elsewhere, both checksums cancelling. |
| Wire.SourcesAreSources | sr_router.c:147-170 | The source of an error is the first interface with the frame's source hardware address, else the first with its destination hardware address, else the first with the name on the best route to its IP source; there is none exactly when all three fail. |
| Wire.DecrementedIsOneHopLess | sr_router.c:311-313 | The decremented frame is accepted, has TTL one less, and differs in the header checksum otherwise only. |
| Reactions.ArpExchangeResolves | sr_router.c:221-249 | Sanity check of the two reactions: the ARP request of one router makes the other learn it and answer, and the answer makes the first learn the other. |
| ArpCache.Cache.constructor | sr_arpcache.c:270-284 | One hundred invalid entries and no requests. |
| ArpCache.Cache.LookUp | sr_arpcache.c:93-115 | The scan finds the last valid entry for the address. |
| ArpCache.Cache.FindRequest | sr_arpcache.c:131-136 | The walk finds the first pending request for the address. |
| ArpCache.Cache.FindOrAdd | sr_arpcache.c:131-144 | That request, or else a fresh one linked in at the head; all others stay in place. |
| ArpCache.Cache.PushPacket | sr_arpcache.c:146-157 | A non-empty frame goes to the head of its request's list; no other request changes. |
| ArpCache.Cache.Enqueue | sr_arpcache.c:131-157 | The list of requests becomes that of Queue, relinked at its head only. |
| ArpCache.Cache.QueueReq | sr_arpcache.c:123-162 | The state becomes Queue of the state before, and the request for the address is returned. |
| ArpCache.Cache.Detach | sr_arpcache.c:174-189 | The first request for the address is unlinked, itself unchanged, the others in order; nothing happens when there is none. |
| ArpCache.Cache.FindSlot | sr_arpcache.c:191-200 | The valid entry for the address, else the first invalid one, else none. |
| ArpCache.Cache.InsertMapping | sr_arpcache.c:168-212 | The state becomes Insert of the state before; the request for the address is detached and returned whether or not a slot was found. |
| ArpCache.Cache.ExpireEntries | sr_arpcache.c:304-309 | Invalid become exactly the entries added more than 15 seconds ago. |
| ArpCache.Cache.DestroyRequest | sr_arpcache.c:216-252 | Unlinks the node by identity if it is on the list, and changes nothing when it is not. |
| Router.Instance.SendPacket | sr_vns_comm.c:563-610 | The frame is sent exactly when it has an Ethernet header and the source address of the named interface, and refused otherwise. |
| Router.Instance.SendArpRequest | sr_router.c:354-390 | An ARP request is handed to sr_send_packet for the named interface, or not made when there is none; sr_arpcache.c:19-55 is the same function. That it is a broadcast, and its fields, is AsksAreBroadcasts. |
| Router.Instance.PrepareOutgoing | sr_router.c:519-545 | The outgoing copy with the interface's source address, and the next hop as RoutesAreFollowed states it; when the interface of the route does not exist, its name and no copy. |
| Router.Instance.SendRoutedIpPacket | sr_router.c:516-567 | With nothing in between, the state becomes Routed of the state before; the list of requests grows at its head only, by new nodes. |
| Router.Instance.QueueThenAsk | sr_router.c:557-564 | Queues the frame and asks once, when no ARP request was sent for it yet. |
| Router.Instance.SendIcmpError | sr_router.c:436-501 | Sends the error that ErrorAbout defines along the routed path, and nothing when there is none. |
| Router.Instance.ReportWaiting | sr_arpcache.c:71-76 | Each frame that waited when the loop began is reported once, from the head on, although the list it came from may grow meanwhile. |
| Router.Instance.ExpireRequest | sr_arpcache.c:71-77 | Error generation may prepend requests and frames; the walked node is still found and removed, and the nodes behind it stay as they were. |
| Router.Instance.VisitRequest | sr_arpcache.c:69-83 | One turn of the sweep computes Visit and keeps the nodes that the saved next leads to. By which interface it repeats a request is AsksAreBroadcasts. |
| Router.Instance.SweepRequests | sr_arpcache.c:62-87 | The walk over saved next pointers terminates and computes Sweep. |
| Router.Instance.TimerIteration | sr_arpcache.c:300-313 | One iteration of the timer thread computes Tick and changes no node that was off the list, such as one that the packet thread is flushing. |
| Router.Instance.CacheArpMapping | sr_router.c:251-270 | With nothing in between, the state becomes Learned of the state before; destroying the detached request unlinks nothing. |
| Router.Instance.FlushWaiting | sr_router.c:258-267 | Each waiting frame whose interface exists is sent once, in list order, with the learned address as destination. |
| Router.Instance.SendArpReply | sr_router.c:318-352 | The reply goes to the asker, from the receiving interface. |
| Router.Instance.HandleArp | sr_router.c:221-249 | Does to the state what ArpReaction says: learn, learn and answer, or ignore. |
| Router.Instance.HandleLocal | sr_router.c:285-304 | Does to the state what LocalReaction says about a datagram for the router itself, which PingsAreAnswered and UndeliverableIsReported state in octets. |
| Router.Instance.HandleIp | sr_router.c:272-316 | Does to the state what IpReaction says about the frame as it was received, although the buffer is rewritten on the way. |
| Router.Instance.ForwardIpPacket | sr_router.c:503-514 | Net unreachable exactly when no route matches, the routed path otherwise. |
| Router.Instance.ReadPacket | sr_vns_comm.c:426-448 | The ARP filter and the dispatch by Ethernet type: does to the state what React says. |
| System.RunKeepsInv | sr_arpcache.c:93-317 | The invariant holds after every step of every interleaving of the two threads. |
| System.ReceiveKeeps | sr_router.c:96-116 | The packet thread's first critical section on any frame keeps it, with the thread left between lookup and queue, between lookup and send, or before a flush. |
| System.ProceedKeeps | sr_router.c:546-566 | So does the rest of what the packet thread does, however often the timer thread ran in between. |
| System.TimerKeeps | sr_arpcache.c:293-317 | So does a timer iteration wherever the packet thread stands. |
| System.UninterruptedSteps | sr_router.c:96-116 | The packet thread's steps with no timer iteration between them add up to what ReadPacket computes. |
| System.WaitingFramesAreLong | sr_router.c:258-264 | In every run, every waiting frame has an Ethernet header to write to. |
| Reception.ReceptionIs | sr_vns_comm.c:426-448 | In every run, for every frame: its octets alone decide whether it is answered, reported (type, code, source, next hop), forwarded, learned from or ignored, and what then changes in the cache, the requests, the log and the packet thread's hands, as sr_router.c:96-316 does it. |
| Reception.PingsAreAnswered | sr_router.c:285-299 | In every run, receiving a frame sends an echo reply if and only if it is an accepted datagram for a router address with protocol 1, 8 octets of message or more, type 8 and a cancelling checksum; the reply mirrors it and nothing else happens. |
| Reception.UndeliverableIsReported | sr_router.c:300-310 | In every run, TCP and UDP for the router get an error of type 3 and code 3, other local datagrams but pings nothing, transit without a hop left type 11 and code 0, and transit without a route type 3 and code 0 about the decremented datagram. |
| Reception.OnlyTeachersTeach | sr_router.c:221-249 | In every run, a mapping is accepted if and only if the frame is an ARP request for the address of its interface or a reply for a router address, from a sender other than 0.0.0.0. |
| Reception.RequestsForOthersAreDropped | sr_vns_comm.c:428-430 | In every run, an ARP request for an address other than its interface's changes nothing. |
| Sent.RoutesAreFollowed | sr_router.c:528-545 | In every run, every frame queued or delivered has the source address and name of the interface on the best route to its destination and goes to that route's gateway, or to the destination itself when the gateway is 0.0.0.0. |
| Sent.AsksAreBroadcasts | sr_arpcache.c:79 | In every run, every ARP request, first or repeated, is a broadcast of operation 1 for the address of its request, with the addresses of the interface by which the frame that joined that request last is to leave, and by that interface. |
| Sent.ErrorsComeFromSources | sr_router.c:436-501 | In every run, every ICMP error queued or delivered has the octets of ErrorsAreErrors and comes from the address of the interface of SourcesAreSources. |
| Sent.ExpirySendsHostUnreachable | sr_arpcache.c:70-77 | In every run, an expiry was preceded, for each of its frames whose source has a route, by an error of type 3 and code 1, from the address of the interface by which the frame was to leave when hardware addresses are distinct. |
| Sent.MissedFramesJoin | sr_router.c:557-564 | In every run, a frame without an address for its next hop joins the pending request in front, or opens a new one at the head of the list and a broadcast for it leaves at once. |
| Sent.UnresolvedHopsAreAskedFor | sr_router.c:545-564 | In every run, a forwarded datagram whose next hop is neither cached nor pending is queued, and a broadcast asks for that hop: for its own destination when the gateway is 0.0.0.0. |
| Sent.GuardsMean | sr_vns_comm.c:576-599 | The guards of sr_send_packet let a frame pass if and only if it has an Ethernet header and the source address of the first interface of that name. |
| Sections.ExpireKeeps | sr_arpcache.c:70-77 | After error generation the walked request is still the k-th from the end with its frames behind what was pushed, and destroying it keeps the invariant. |
| Sections.InsertKeeps | sr_arpcache.c:168-212 | Insertion keeps the invariant with the detached frames in the packet thread's hands. |
| Loss.ReportAllPushes | sr_arpcache.c:71-76 | What error generation pushes onto the request being walked is exactly the errors whose next hop is that request's address, the latest in front. |
| Theorems.PendingAndCachedAreExclusive | sr_arpcache.c:93-212 | In every run, at most one pending request per address, at most one valid entry per address, and no address both pending and cached. |
| Theorems.RetriesAreBounded | sr_arpcache.c:69-83 | In every run, every pending request holds a frame, was sent one to five times and counts them correctly, and no request that ever existed was sent more than five times. |
| Theorems.FramesAreConserved | sr_arpcache.c:147-157 | In every run, the multiset of frames ever queued is those waiting, those about to be flushed, those flushed, those reported unreachable and those lost in an expiry. |
| Theorems.ExpiryLosesReturningErrors | sr_arpcache.c:69-77 | In every run, an expiry happens after five requests and loses exactly the errors about its own frames that lead back through the unreachable next hop; nothing is lost if and only if there is no such frame. |
| Theorems.DeliveriesUseLatestMapping | sr_router.c:545-555 | In every run, every frame that leaves, by a hit or by a flush, leaves for the next hop that the table gives it and goes to the sender address of the latest accepted ARP message for its next hop, and is from the IP header on what was routed. |
| Theorems.SendGuardsNeverReject | sr_vns_comm.c:576-599 | In no run is a frame refused by a guard of sr_send_packet, and every frame that was sent meets both guards; sending ends at an unknown interface name only where a route names it, so never when every route names an existing interface. |
| Theorems.FramesAtHandLeave | sr_router.c:548-551 | In every run, the frame of a cache hit, the next frame of a flush and the reply after a flush leave with the packet thread's next step, and nothing else happens in it. |
| Theorems.WaitingFramesAreGood | sr_router.c:516-558 | In every run, every waiting frame is valid, has the source address of its interface, waits for the next hop the table gives it, and is what its origin made. |
| FlushOrder.QueuesHoldArrivals | sr_arpcache.c:147-157 | In every run, the frames that wait for an address are exactly those queued for it since it was last resolved or given up, the latest in front. |
| FlushOrder.FlushesReverseArrivals | sr_router.c:256-268 | In every run, whatever the timer thread does between two deliveries, an accepted mapping sets free what was queued for its address, which leaves in the reverse of the order of queuing, completely before the next mapping is accepted, and nothing else is flushed meanwhile. |
| FlushOrder.LearningFlushesNewestFirst | sr_router.c:251-270 | From the state of any run, with no timer iteration in between: learning the address of a pending request removes that request, sends what was queued for it, once each and the latest first, and sends nothing else. |
| Theorems.NetUnreachableIsBuilt | sr_router.c:508-510 | After the TTL decrement the error's own header check succeeds; the error is built exactly when a source interface exists. |
| Theorems.ReportEmitsIffRoute | sr_router.c:436-460 | For a waiting frame both guards of sr_send_icmp_error let it through, and the error is delivered or queued exactly when the table has a route to the frame's source. |
| Theorems.ExpiryReportsItsFrames | sr_arpcache.c:71-77 | In every run, every expiry was immediately preceded by the delivery or queuing of the error about each of its frames whose source has a route, once each and in list order, with nothing in between but ARP requests and, where the table names unknown interfaces, attempts that end there. |
| Theorems.AsksAreASecondApart | sr_router.c:557-564 | In every run, two ARP requests for one address are at least a second apart, across retries, expiry, re-creation and timeout, unless a mapping that found no slot was accepted in between: section 2.3.2.1 of RFC 1122. |
| FlushOrder.EarlyAskIffNoSlot | sr_arpcache.c:191-207 | Within a second of an ARP request, an accepted mapping, the flush of the frames that waited for it and then another frame for the address cause a second request if and only if all entries are valid and none is for that address. |
| RateLimit.RateLimitNeedsSlots | sr_arpcache.c:202-207 | A run in which a full cache makes the router ask twice for one address in the same second. |
| LostFrame.ExpiryCanLose | sr_arpcache.c:70-77 | A run in which an expiry loses a frame: source and destination lie behind the same silent gateway. |
| LostFrame.ErrorsAboutErrors | sr_arpcache.c:70-77 | A run in which the frame that is given up is a time-exceeded error of the router itself, and the host-unreachable error about it is emitted. |
| LostFrame.UnknownRouteDrops | sr_router.c:532-535 | A table that names an unknown interface, and a run in which a forwarded frame ends there. |
| Retry.SweepIsCorrect | sr_arpcache.c:300-313 | In every run, a timer iteration, whose sweep follows the timeout of cache entries, visits the requests that were pending when it began, once each, destroys exactly those due with five requests sent, and leaves newly created requests followed by the survivors in order. |
| Retry.TickProgress | sr_arpcache.c:69-83 | A timer iteration never undoes progress on a request, and one at a later second makes one step of it, whatever is queued meanwhile. |
| Retry.SixSweepsEndEpisode | sr_arpcache.c:69-83 | Six sweeps at strictly increasing times end every request that was pending before them, whatever else the two threads do. |
| Fate.SixSweepsSettleFrames | sr_arpcache.c:62-87 | Every frame that was queued before six sweeps at strictly increasing times has, after them, been flushed, reported unreachable or lost, or is in the hands of the packet thread, with its multiplicity. |
| CacheMap.LookupRefines | sr_arpcache.c:98-110 | Lookup is map lookup. |
| CacheMap.StoredRefines | sr_arpcache.c:191-207 | Insertion is map update when the address is a key or fewer than 100 keys exist, and leaves the map unchanged otherwise. |
| CacheMap.AgedRefines | sr_arpcache.c:302-309 | The timeout pass removes exactly the keys older than 15 seconds, and changes no other. |
| CacheMap.CacheIsBoundedMap | sr_arpcache.c:93-212 | In every run there are 100 entries, they form a map, and an insert leaves no pending request for its address. |
| TimerThread.TimerUsesFreshMappings | sr_arpcache.c:300-313 | In every run, a timer iteration keeps exactly the mappings at most 15 seconds old, and sends along the routed path by such mappings only. |
| Provenance.ForwardedWasReceived | sr_router.c:272-316 | In every run, a forwarded frame that waits or has left is the outgoing copy of a frame received in that run. |
| Provenance.NoMoreOftenThanReceived | sr_router.c:503-567 | In every run, a received frame leaves as forwarded at most as often as it was received. |
| Provenance.DepartedWereReceived | sr_router.c:503-567 | In every run, the multiset of received frames that left as forwarded is within the multiset of frames received. |
| Network.WaitingForwardedFrame | sr_arpcache.c:147-157 | While it waits, a forwarded frame is valid and is the received datagram but for TTL, one less, and checksum. |
| Network.ForwardingIsOneHop | sr_router.c:306-315 | What one router forwards was received by it, is valid for the next, and differs from it in TTL, by one, and checksum only. |
| Network.JourneyEnds | sr_router.c:306-315 | In any network of such routers, with any tables, a packet injected with TTL t is forwarded at most t - 1 times, and is valid and otherwise unchanged at every hop. |
| Network.ForwardingsAreBounded | sr_router.c:306-315 | In any network of such routers whose links make no frames, with any tables, a datagram injected n times with TTL t leaves all routers together, at all hops and in all copies, at most n * (t - 1) times. |
| Network.PassedWereTaken | sr_router.c:503-567 | In every run, at most as many copies of a datagram with a given TTL are passed on as were received with it. |
| Loop.ShippedTablesLoop | rtables/rtable1:2 | The first shipped table sends 192.168.2.5 by eth2 to 192.168.0.6, the third (rtables/rtable3:2) sends it back to 192.168.0.5. |
| Loop.ShippedRoutersBounce | rtables/rtable3:2 | A packet for that address, received with TTL t, is forwarded t - 1 times between two routers with these tables that do not own the address, each in one run of its own: the bound of JourneyEnds is reached. |
| Loop.Bounces | sr_router.c:503-567 | So it is between any two routers that route an address to each other by eth2. |
| Sha1.Context.Reset | sha1.c:71-85 | On a context with any contents, sets everything but the block. |
| Sha1.Context.Input | sha1.c:143-185 | The loop computes InputCtx on any context and any message that an unsigned length can describe. |
| Sha1.Context.ProcessMessageBlock | sha1.c:207-301 | The five loops compute the compression function of section 7 of FIPS PUB 180-1 and reset the index. |
| Sha1.Context.Schedule | sha1.c:224-235 | The two loops compute the eighty words of a block. |
| Sha1.Context.FourRounds | sha1.c:237-287 | The four loops compute the eighty rounds. |
| Sha1.Context.PadMessage | sha1.c:326-371 | Computes PadCtx: one block or two. |
| Sha1.Context.Result | sha1.c:104-119 | Computes ResultCtx and fails exactly on a corrupted context. |
| Sha1.InputConcat | sha1.c:143-185 | Input(a) then Input(b) reaches the same context as Input(a+b), with no condition on the context. |
| Sha1.FeedTracks | sha1.c:158-184 | While the length fits 64 bits, the length words, the index, the open block and the digest are those of the message so far; at 2^64 bits the context becomes corrupted, and not before. |
| Sha1.PaddingFollowsStandard | sha1.c:326-371 | In both cases, index > 55 and index <= 55, the padding hashes exactly what section 4 of FIPS PUB 180-1 appends. |
| Sha1.DigestIsSha1 | sha1.c:71-185 | Reset of a context with any contents, any calls of Input totalling fewer than 2^61 octets, then Result: the digest of the concatenation, and a second Result changes nothing. |
| Sha1.CorruptedIffTooLong | sha1.c:165-176 | Without a Result, the context is corrupted if and only if 2^64 bits were reached; until then the length words count the bits and the index is in 0..63. |
| Sha1.AnyUse | sha1.c:71-185 | After Reset and any calls of Input and Result in any order, the context is corrupted if and only if 2^64 bits were input before the first Result or something was input after it; otherwise it holds the digest of what was input before the first Result, or, with no Result yet, matches the message so far. |
| Sha1.InputAfterResult | sha1.c:152-156 | After a Result, Input corrupts the context if and only if it brings something, and then no later calls of Input and Result change it. |
| Sha1Vector.DigestOfAbc | sha1.c:207-301 | The digest of "abc" is that of Appendix A of FIPS PUB 180-1, which fixes the constants, functions and rotations. |
| Sha1Vector.EngineOnAbc | sha1.c:71-185 | The engine computes it, whatever pieces the message comes in. |

## Left out

- The socket, the session with the VNS server, authentication, hardware information, template and table download
  (`sr_vns_comm.c`): what `write` does with a frame that passed the guards is not modelled.
- The command line, logging and printing (`sr_main.c`, `sr_dumper.c`, the print functions of `sr_utils.c`).
- Parsing of the routing table and construction of the interface list (`sr_rt.c`, `sr_if.c`): they are fixed sequences.
- Failing allocation, and the layout of memory: headers are offsets into byte sequences.
- Data races and the C memory model, beyond the first assumption above.
- `sr_arpcache_destroy` and the end of the process: the two loops run for as long as a run lasts.
- A waiting buffer and the list of buffers of a request are values, where the C code links allocated nodes and writes the
  hardware addresses into the waiting buffer itself before it sends it.
- ArpCache.Cache.DestroyRequest: does not model the release of memory; a node that is off the list is just unreachable.
- Router.Instance.FlushWaiting: requires frames with an Ethernet header, as CacheArpMapping, HandleArp and ReadPacket do;
  the C code writes without a test, and WaitingFramesAreLong proves that no run has shorter ones.
- Network.JourneyEnds: follows one chain of hops; Network.ForwardingsAreBounded counts all copies. Links are not modelled:
  the count assumes of them (`Fed`) that what arrives was injected or had left some router, and a frame that a link
  duplicates counts as injected again.
- Longest-prefix behaviour for masks that are not contiguous: only what FindLpmRoute states.
- The strength of SHA-1, and messages that are not whole octets.
- The test programs under `tests/`.
