# Verified model of esp-smoltcp

esp-smoltcp runs the Rust smoltcp stack under ESP-IDF behind a BSD-sockets shim. This
project models the parts of it where resources change hands or bytes are interpreted, and
proves for all inputs, all runs or all interleavings what they keep.

- **Socket ownership.** `SocketCore` (ids, slots and packed handles), `SocketCalls` (the BSD
  calls as functions on the whole state), `Ownership`, `OwnershipRuns`, `OwnershipTheorems`,
  `SocketSlots`, `Leaks`, `CallOutcomes`, `AcceptFairness`, and `Shim` (the same calls as methods
  on a table array and context objects, proved equal to the functions and free of panicking
  lookups).
- **Frames.** `RxSlab` (driver callback and poll task as an interleaved protocol),
  `RxConservation`, `RxIntegrity`, `RxFates`, `RxDriver` (eth_input_cb in place), `PollTask`
  (poll_iface as a loop), `TapTable`, `TxPool` and `TxDevice`.
- **DNS.** `DnsWire` (the record grammar), `DnsScan` (the response scanner), `DnsQuery` (the
  query encoder).
- **Tables and state.** `Loopback`, `LoopbackReplies` and `LoopbackTable`, `SelectPoll`,
  `TcpSend`, `IfaceConfig`, `Ipv4Words`, `Ipv4Text`, `StaticConfig`.

Every stateful part comes as functions on values, about which the run theorems are stated, and
as a class whose methods are proved against those functions. What the network, the heap, the
clock and smoltcp decide is an input: which pool sockets are connected in a scan, whether a
port was accepted, how many bytes a send takes, what the DHCP socket reports.

## What the proofs show about the code

- A shim call leaks a socket exactly if it is a TCP `connect` on a descriptor that already holds
  one, or if it opens more sockets on an interface than there are 24-bit ids left (`LeaksIff`).
  Attach, socket, connect, connect leaks (`ConnectTwiceLeaks`).
- Ids are packed into 24 bits: from the 2^24th open on an interface, handles no longer reach
  their sockets (`HandleReachesSocketIff`). Opening and closing datagram sockets one at a time on
  interface 0 gets there, and that open reports failure although the socket exists
  (`FirstLostHandle`).
- A static address set while DHCP runs leaves the DHCP socket in the set for good
  (`StraysIffStatic`, `RestartedDhcpStrays`).
- The comment in `receive()` says that a frame is held in the inbox when no TX buffer is free.
  The code takes the frame out first, so it is lost exactly then (`ReceiveLosesIff`,
  `FrameLostRun`). The model follows the code.
- `smoltcp_glue.h` promises network byte order from `smoltcp_parse_ipv4`; the code builds the
  word with `from_be_bytes`, so on the little-endian target its bytes lie in memory backwards.
  `inet_pton` followed by `inet_ntop` gives a text back exactly if it is written as `inet_ntop`
  writes it and the address is palindromic (`PtonThenNtopIff`, `PtonThenNtopWitness`), and a
  static address and gateway are applied backwards (`StaticAddressIsReversed`).
- A loopback registration outlives its socket if the descriptor is connected or rebound to
  another port in between, and then delivers to whoever gets the entry next
  (`CoherentIffDisciplined`, `StrayRegistration`).
- `poll` can report, for some readiness, events that an entry did not ask for exactly if two
  entries name the same descriptor with different events (`WithinEventsIff`).
- A tap request is a request to a bounded map exactly if its EtherType is not 0, or it clears, or
  the table is full (`FollowsMapIff`). A callback for EtherType 0 goes into a slot that still
  counts as unused; on an empty table the next new EtherType overwrites it
  (`ZeroEtherTypeIsOverwritten`).

## Model

| member | source | states |
|---|---|---|
| `OwnershipTheorems.SingleOwnerInEveryRun` | components/esp_smoltcp_lwip_compat/src/sock_wrap.c:30-189 | in every run of the socket calls, bring-up, DHCP, name queries and polite native use with fewer than 2^24 opens per interface, no valid handle is in two places of the descriptor table, and every held handle is live and of the kind its entry implies |
| `OwnershipTheorems.NoPanicInAnyRun` | components/esp_smoltcp_glue/src/lib.rs:481-660 | in every such run ids map one to one to occupied slots, the DHCP slot is shared by none, and every lookup a call can make by its entry's kind finds nothing or a socket of that kind |
| `Leaks.LeaksIff` | components/esp_smoltcp_lwip_compat/src/sock_wrap.c:30-189 | a shim call makes some live socket one that no descriptor reaches exactly if it is a connect on a TCP descriptor that already holds one or opens more sockets than the interface has 24-bit ids left; the ownership equation survives exactly the other calls |
| `Leaks.StepSpan` | components/esp_smoltcp/src/esp_smoltcp_sock.c:30-44 | from the state before a call, how many opens it makes says whether ids go past 24 bits, listen's pre-arm loop included, and then the socket with id 2^24 exists |
| `Leaks.ConnectTwiceLeaks` | components/esp_smoltcp_lwip_compat/src/sock_wrap.c:165-179 | a run from start-up in which the second connect leaks and nothing had leaked before |
| `OwnershipTheorems.NoLeakInTidyRuns` | components/esp_smoltcp_lwip_compat/src/fd_table.c:84-106 | without such connects, after any run, failed calls included, each handle is held once if its socket is live and nowhere otherwise |
| `OwnershipTheorems.ClosingAllReleasesAll` | components/esp_smoltcp_lwip_compat/src/fd_table.c:84-106 | closing every descriptor leaves live exactly the sockets that the table did not hold |
| `SocketSlots.SlotsAreRegistered` | components/esp_smoltcp_glue/src/lib.rs:584-660 | in every run a slot of the socket set holds a TCP or UDP socket exactly if some id stands for it, so a closed socket and the temporary one of a name query are out of the set |
| `SocketSlots.ClosingAllEmptiesSlots` | components/esp_smoltcp_glue/src/lib.rs:584-592 | after any tidy run, closing every descriptor leaves no TCP or UDP socket in any slot |
| `SocketSlots.StraysIffStatic` | components/esp_smoltcp_glue/src/lib.rs:427-457 | a DHCP socket that nobody polls any more is left in the set exactly by a static address set while DHCP runs; starting DHCP polls a socket in a formerly vacant slot |
| `SocketSlots.RestartedDhcpStrays` | components/esp_smoltcp_glue/src/lib.rs:433-456 | DHCP, static, DHCP again ends with such a socket |
| `SocketSlots.AttachBrings` | components/esp_smoltcp/src/esp_smoltcp.c:456-484 | attaching makes a core without sockets, with DHCP exactly if it is asked for, and only once |
| `OwnershipTheorems.AcceptMovesOne` | components/esp_smoltcp_lwip_compat/src/sock_wrap.c:126-142 | a successful accept puts the picked handle of the listener's pool into a formerly free entry, which is then its only holder in the whole table; the other pool slots and all other entries are unchanged |
| `OwnershipTheorems.HandleReachesSocketIff` | components/esp_smoltcp/src/esp_smoltcp_sock.c:30-44 | the packed handle of a new socket looks up that socket exactly while the id fits 24 bits |
| `Leaks.FirstLostHandle` | components/esp_smoltcp_lwip_compat/src/sock_wrap.c:48-51 | a run from start-up, datagram sockets opened and closed one at a time, after which socket() on interface 0 answers ENOBUFS and leaks the socket with id 2^24 |
| `OwnershipRuns.StepKeeps` | components/esp_smoltcp_lwip_compat/src/sock_wrap.c:30-307 | every call keeps the ownership equation and changes the set of unheld sockets exactly as stated |
| `OwnershipRuns.TransferKeeps` | components/esp_smoltcp_lwip_compat/src/sock_wrap.c:127-142 | handing a pool slot to a new descriptor and refilling the slot keeps single ownership, also if the refill fails |
| `OwnershipRuns.ListenKeeps` | components/esp_smoltcp_lwip_compat/src/sock_wrap.c:84-110 | arming a pool keeps the equation, also when it stops half way |
| `OwnershipRuns.BindKeeps` | components/esp_smoltcp_lwip_compat/src/sock_wrap.c:57-81 | closing and reopening a UDP socket keeps the equation, also when reopening fails |
| `OwnershipRuns.CloseKeeps` | components/esp_smoltcp_lwip_compat/src/fd_table.c:84-106 | closing releases the entry's socket and every valid pool socket and nothing else |
| `SocketCore.OpenOk` | components/esp_smoltcp_glue/src/lib.rs:249-254 | an open that yields a handle adds exactly one live socket under a handle never live before |
| `SocketCore.ShutOk` | components/esp_smoltcp_glue/src/lib.rs:584-592 | a close through a live handle of the right kind removes exactly that socket and vacates its slot |
| `SocketCore.DhcpOk` | components/esp_smoltcp_glue/src/lib.rs:433-457 | starting or forgetting DHCP touches no registered socket |
| `SocketCore.ResolveOk` | components/esp_smoltcp_glue/src/dns.rs:49-75 | the temporary socket of a query shares no slot while it exists, and the registered sockets are the same afterwards |
| `CallOutcomes.SocketSucceedsIff` | components/esp_smoltcp_lwip_compat/src/sock_wrap.c:30-54 | exactly when socket() succeeds, and that it returns a descriptor that was not in use |
| `CallOutcomes.SocketMakes` | components/esp_smoltcp_lwip_compat/src/sock_wrap.c:30-54 | the new entry is blocking, unconnected and unbound on the default interface, and a stream has no socket yet; no other entry changes |
| `CallOutcomes.SocketFailures` | components/esp_smoltcp_lwip_compat/src/sock_wrap.c:32-50 | which error each failure reports, in which order of precedence |
| `CallOutcomes.ListenSucceedsIff` | components/esp_smoltcp_lwip_compat/src/sock_wrap.c:84-110 | exactly when listen() succeeds on a bound TCP entry and which error it gives otherwise, the pool size, the port it listens on, and that success means every slot is armed |
| `CallOutcomes.ListenRefusals` | components/esp_smoltcp_lwip_compat/src/sock_wrap.c:86-95 | exactly when listen() refuses before it opens anything, with which error, changing nothing |
| `CallOutcomes.AcceptSucceedsIff` | components/esp_smoltcp_lwip_compat/src/sock_wrap.c:113-162 | exactly when accept() succeeds and exactly when it reports each of its errors, and that every failure changes nothing |
| `CallOutcomes.AcceptRefills` | components/esp_smoltcp_lwip_compat/src/sock_wrap.c:137-141 | the slot it empties gets a new socket exactly if the interface is up |
| `CallOutcomes.ConnectSucceedsIff` | components/esp_smoltcp_lwip_compat/src/sock_wrap.c:165-179 | connect() on a TCP entry succeeds exactly if the interface is up and the handshake completes; ENOBUFS exactly if it is down, ETIMEDOUT exactly if the handshake does not complete; the connected flag follows |
| `CallOutcomes.ConnectElsewhere` | components/esp_smoltcp_lwip_compat/src/sock_wrap.c:180-188 | on a UDP entry it stores the destination and succeeds, on a listener it reports EBADF and changes nothing |
| `CallOutcomes.BindReopens` | components/esp_smoltcp_lwip_compat/src/sock_wrap.c:57-81 | bind() of a UDP entry stores address and port and gets a new socket exactly if the interface is up and the port is taken; otherwise EADDRINUSE and no socket |
| `CallOutcomes.BindKeepsSocket` | components/esp_smoltcp_lwip_compat/src/sock_wrap.c:57-81 | on a TCP entry and for loopback addresses only address and port change |
| `CallOutcomes.BindThenListen` | components/esp_smoltcp_lwip_compat/src/sock_wrap.c:63-99 | bind then listen listens on the bound port |
| `CallOutcomes.ShutdownDisconnects` | components/esp_smoltcp_lwip_compat/src/sock_wrap.c:294-307 | shutdown() closes the socket of a TCP entry, clears its connected flag and answers 0 |
| `CallOutcomes.UnusedDescriptor` | components/esp_smoltcp_lwip_compat/src/sock_wrap.c:57-307 | what each call reports on a descriptor that is not in use, changing nothing |
| `CallOutcomes.UsedDescriptor` | components/esp_smoltcp_lwip_compat/src/sock_wrap.c:57-292 | malformed addresses report EINVAL and change nothing; close frees that entry and no other |
| `AcceptFairness.ScanVisitsOnce` | components/esp_smoltcp_lwip_compat/src/sock_wrap.c:123-124 | the rotated scan visits each pool slot at exactly one of its turns |
| `AcceptFairness.PickIsNearest` | components/esp_smoltcp_lwip_compat/src/sock_wrap.c:123-126 | the scan stops at the connected slot nearest to `pool_next` |
| `AcceptFairness.NoSlotStarves` | components/esp_smoltcp_lwip_compat/src/sock_wrap.c:122-142 | in any run, a slot that stays connected is handed out by the time its listener has accepted `pool_len` times |
| `AcceptFairness.AcceptedWithinDistance` | components/esp_smoltcp_lwip_compat/src/sock_wrap.c:122-142 | indeed within as many accepts as its cyclic distance from `pool_next`, plus one |
| `Shim.Shim.FdAlloc` | components/esp_smoltcp_lwip_compat/src/fd_table.c:56-74 | the first free entry is reset and returned, or -1 and no change |
| `Shim.Shim.FdFree` | components/esp_smoltcp_lwip_compat/src/fd_table.c:84-106 | the in-place close of the entry's sockets, every typed lookup safe, does to the whole socket state what the close function does |
| `Shim.Shim.Socket` | components/esp_smoltcp_lwip_compat/src/sock_wrap.c:30-54 | the call in place agrees with its function on the whole state and keeps the invariant |
| `Shim.Shim.Bind` | components/esp_smoltcp_lwip_compat/src/sock_wrap.c:57-81 | the call in place agrees with its function, errors included, and keeps the invariant |
| `Shim.Shim.Listen` | components/esp_smoltcp_lwip_compat/src/sock_wrap.c:84-110 | the pre-arm loop agrees with its function, errors included, and keeps the invariant |
| `Shim.Shim.Accept` | components/esp_smoltcp_lwip_compat/src/sock_wrap.c:113-162 | the nested scan loops and the hand-over agree with their function and keep the invariant |
| `Shim.Shim.NetConnect` | components/esp_smoltcp/src/esp_smoltcp_sock.c:46-67 | with safe typed lookups, the polled handshake succeeds exactly if the handle is found, smoltcp takes the connect and some poll sees it active |
| `Shim.Shim.Connect` | components/esp_smoltcp_lwip_compat/src/sock_wrap.c:165-189 | the call in place, typed lookups safe, agrees with its function; the unheld set grows by an overwritten socket |
| `Shim.Shim.Shutdown` | components/esp_smoltcp_lwip_compat/src/sock_wrap.c:294-307 | the call in place agrees with its function and keeps the invariant |
| `Shim.Shim.Close` | components/esp_smoltcp_lwip_compat/src/sock_wrap.c:284-292 | the call in place agrees with its function; foreign descriptors are delegated |
| `Shim.SocketCtx.StartDhcp` | components/esp_smoltcp_glue/src/lib.rs:450-457 | adding the DHCP socket in place agrees with its function |
| `Shim.SocketCtx.Resolve` | components/esp_smoltcp_glue/src/dns.rs:33-81 | the temporary socket is gone afterwards whatever the outcome, its typed lookups are safe in every turn, and the result is what the first reply that the scanner understands says |
| `RxConservation.EveryFrameInOnePlace` | components/esp_smoltcp/src/esp_smoltcp.c:45-120 | after any interleaving of driver callbacks and poll task every slab frame is in exactly one of free list, driver hand, RX queue and poll task's hand, and whoever gives a frame back finds room in the free list |
| `RxConservation.NextConserves` | components/esp_smoltcp/src/esp_smoltcp.c:57-77 | every atomic step of either side conserves the frames |
| `RxIntegrity.FramesKeepOrderAndBytes` | components/esp_smoltcp/src/esp_smoltcp.c:196-208 | after any interleaving the accepted frames are, in order and with the driver's bytes, the drained ones, the one in hand and the queued ones; the stored ones are those smoltcp took and the one in the inbox; rx_frames is drops plus drained plus in hand plus queued plus mid-post, modulo 2^32 |
| `RxIntegrity.NextFaithful` | components/esp_smoltcp/src/esp_smoltcp.c:102-120 | every step keeps order, bytes and counters, since nobody else holds the frame that is written |
| `RxFates.FatesOfOnePoll` | components/esp_smoltcp/src/esp_smoltcp.c:196-208 | between any two moments of one poll, in any run from start-up, whatever drivers and tap registrations do in between: one frame is drained per dispatch, tapped exactly if the table in force had its EtherType; of the others the first is stored if the inbox was empty and is what the inbox holds, and all the rest are dropped |
| `RxFates.EachPollDrainsAll` | components/esp_smoltcp/src/esp_smoltcp.c:196-214 | in any run, when the poll task has left the poll of an interface, every frame accepted before that poll has been drained |
| `RxSlab.TapTakesFrame` | components/esp_smoltcp/src/esp_smoltcp.c:153-162 | twelve address bytes, an EtherType in network byte order and any payload are tapped exactly if that EtherType is registered; a frame under 14 bytes never is |
| `RxDriver.CallbackIs` | components/esp_smoltcp/src/esp_smoltcp.c:423-432 | a callback that nothing interrupts refuses, gives the frame back or queues it with the driver's bytes, and is exactly its six steps of the protocol |
| `RxDriver.CallbackQueuesIff` | components/esp_smoltcp/src/esp_smoltcp.c:423-432 | exactly when an uninterrupted callback gets its frame queued, counts it, counts a drop or counts an allocation failure |
| `RxDriver.FrameStack.constructor` | components/esp_smoltcp/src/esp_smoltcp.c:45-55 | filling the free list in a loop gives an initial state of the protocol, in which frames are conserved and faithful |
| `RxDriver.FrameStack.InputCb` | components/esp_smoltcp/src/esp_smoltcp.c:423-432 | the callback in place is that run of the protocol, so it conserves the frames and keeps order, bytes and counters |
| `RxDriver.FrameStack.PostRx` | components/esp_smoltcp/src/esp_smoltcp.c:102-120 | the frame is queued and counted, or counted as a drop and freed, or freed on a disabled interface, and nothing else changes |
| `PollTask.DrainKeepsOldest` | components/esp_smoltcp/src/esp_smoltcp.c:196-208 | of a drained queue the tap takes what it matches, the first other frame gets into an empty inbox, the rest is dropped |
| `PollTask.DrainRun` | components/esp_smoltcp/src/esp_smoltcp.c:201-208 | draining n frames by the protocol's steps empties the queue, frees the frames in order and gives exactly those fates |
| `PollTask.NetIface.PollIface` | components/esp_smoltcp/src/esp_smoltcp.c:196-232 | for any tap table the drain loop yields those fates and that inbox; ip_up and the event bit end equal to the reported state, and an event is delivered exactly on a change |
| `PollTask.EtherTypeCarried` | components/esp_smoltcp/src/esp_smoltcp.c:156-156 | the EtherType that dispatch computes from bytes 12 and 13 is the one that the frame carries |
| `TapTable.InstallIsMapUpdate` | components/esp_smoltcp/src/esp_smoltcp.c:132-151 | for a non-zero EtherType the four-slot table changes like a map bounded to its slots: refused exactly if full and new |
| `TapTable.FollowsMapIff` | components/esp_smoltcp/src/esp_smoltcp.c:132-151 | after a request table and bounded map agree exactly if its EtherType is not 0, or it clears, or the map is full |
| `TapTable.TracksIffAllFollow` | components/esp_smoltcp/src/esp_smoltcp.c:132-151 | over any run of requests the table equals the bounded map throughout exactly if every request is of that kind |
| `TapTable.NonZeroFollow` | components/esp_smoltcp/src/esp_smoltcp.c:132-151 | any run of requests with non-zero EtherTypes is such a run |
| `TapTable.TableIsBoundedMap` | components/esp_smoltcp/src/esp_smoltcp.c:123-164 | after any such run the table equals the bounded map, and dispatch follows the map for every EtherType |
| `TapTable.ZeroEtherTypeIsOverwritten` | components/esp_smoltcp/src/esp_smoltcp.c:134-149 | on the empty table a registration for EtherType 0 is dispatched to and then lost to the next new EtherType |
| `TapTable.Taps.L2Tap` | components/esp_smoltcp/src/esp_smoltcp.c:132-151 | the two slot searches in place agree with the table function |
| `TapTable.Taps.DispatchTap` | components/esp_smoltcp/src/esp_smoltcp.c:153-164 | the dispatch loop finds the handler the table function names |
| `TxPool.MaskIsComplement` | components/esp_smoltcp_glue/src/lib.rs:62-86 | after any sequence of uses the mask is the complement of the live tokens within 16 bits, no two live tokens share a buffer, and with none live it is the initial mask |
| `TxPool.AllocFailsIff` | components/esp_smoltcp_glue/src/lib.rs:75-81 | allocation fails exactly when sixteen tokens are live |
| `TxPool.ReceiveLosesIff` | components/esp_smoltcp_glue/src/lib.rs:160-172 | receive always empties the inbox, and the frame is lost exactly when sixteen tokens are live |
| `TxPool.PushKeepsOldest` | components/esp_smoltcp_glue/src/lib.rs:98-104 | a pushed frame is stored exactly if the inbox is empty, and nothing else changes |
| `TxPool.TransmitSucceedsIff` | components/esp_smoltcp_glue/src/lib.rs:173-180 | a transmit token is handed out exactly if the link is up and fewer than sixteen are live; an empty inbox costs no buffer |
| `TxPool.LinkDecides` | components/esp_smoltcp_glue/src/lib.rs:173-180 | the link flag set last decides whether the next transmit may have a token |
| `TxPool.TokenFreesItsOwn` | components/esp_smoltcp_glue/src/lib.rs:121-144 | a token, consumed or not, gives back its own buffer and the others keep theirs |
| `TxPool.FrameLostRun` | components/esp_smoltcp_glue/src/lib.rs:160-180 | a run from start-up, sixteen transmissions and one frame, in which that frame is lost |
| `TxDevice.Pool.Alloc` | components/esp_smoltcp_glue/src/lib.rs:75-81 | the in-place allocation takes a buffer no live token has, or fails exactly with sixteen live |
| `TxDevice.EspDevice.Receive` | components/esp_smoltcp_glue/src/lib.rs:160-172 | frame and token come together or not at all, and the inbox is empty afterwards |
| `DnsScan.ScanFindsIff` | components/esp_smoltcp_glue/src/dns.rs:83-117 | on every byte string an address is returned exactly if the packet begins with a message that says so byte for byte: a header with that id, zero RCODE and an answer count, one plain question, well-formed records, no more than announced, that address being the first A record of length 4 |
| `DnsScan.HeaderOver` | components/esp_smoltcp_glue/src/dns.rs:84-89 | id, RCODE and answer count are read where the header has them |
| `DnsScan.ScanIsFirstAnswer` | components/esp_smoltcp_glue/src/dns.rs:83-117 | for a message with exactly the announced well-formed records, and any bytes behind it, the result is the first such address if id and RCODE are right, else none; the 12-byte guard loses nothing |
| `DnsScan.ParseAResponse` | components/esp_smoltcp_glue/src/dns.rs:83-117 | the loops compute the scan with every read in bounds; the cursor stays within 256 of the end and at most (length - 12) / 11 records are passed, whatever the count field says |
| `DnsScan.RecordOver` | components/esp_smoltcp_glue/src/dns.rs:100-114 | one well-formed record with twelve bytes left is either the answer or stepped over exactly |
| `DnsScan.RecordsThere` | components/esp_smoltcp_glue/src/dns.rs:99-115 | whatever the record loop passes over is a well-formed record, byte for byte |
| `DnsQuery.BuildQuery` | components/esp_smoltcp_glue/src/dns.rs:36-47 | the query is built exactly if every label has 1 to 63 bytes, and is the encoding of a header with that id, recursion desired and one question, then labels, root, type A, class IN |
| `DnsQuery.QueryIsMessage` | components/esp_smoltcp_glue/src/dns.rs:36-47 | read back, the query has that header, its question ends where it ends, and its labels join to the hostname |
| `DnsQuery.QuestionSkipLands` | components/esp_smoltcp_glue/src/dns.rs:91-97 | over a packet that echoes the question of an accepted hostname the question skip ends exactly at its end, and the labels read back join to the hostname |
| `DnsQuery.ReplyIsUnderstood` | components/esp_smoltcp_glue/src/dns.rs:36-117 | a reply with the first two bytes of the query, no error, the query's question and the announced well-formed records yields the first address among them |
| `DnsQuery.KnownQuery` | components/esp_smoltcp_glue/src/dns.rs:36-47 | the query for one short name in bytes |
| `DnsQuery.KnownReply` | components/esp_smoltcp_glue/src/dns.rs:83-117 | an ordinary reply in bytes, an alias and then an A record, yields its address |
| `Loopback.EveryDatagramAccountedFor` | components/esp_smoltcp_lwip_compat/src/loopback.c:32-101 | after any run ports are unique, at most eight datagrams are queued per receiver, and its accepted datagrams are in order those received and those queued, or for a closed one those received and those freed |
| `LoopbackReplies.AcceptedOnceReceivedOnce` | components/esp_smoltcp_lwip_compat/src/sock_wrap.c:228-266 | over any run the datagrams that sends reported as accepted for an entry are, each once, those its receives returned, those freed when it was closed and those still queued; what a receive returned is the datagram cut to its buffer |
| `LoopbackReplies.ReceivedInOrder` | components/esp_smoltcp_lwip_compat/src/loopback.c:74-101 | and while the entry is not closed, in order |
| `Loopback.CoherentIffDisciplined` | components/esp_smoltcp_lwip_compat/src/fd_table.c:89-93 | a call keeps every occupied slot pointing at a live entry bound to its port exactly if it does not move a registered descriptor to another port |
| `Loopback.SlotsStayLive` | components/esp_smoltcp_lwip_compat/src/loopback.c:32-72 | hence in every disciplined run all slots point at live entries |
| `Loopback.StrayRegistration` | components/esp_smoltcp_lwip_compat/src/sock_wrap.c:180-186 | a concrete run in which a datagram for a closed socket's port reaches the next socket |
| `Loopback.BindIsMapUpdate` | components/esp_smoltcp_lwip_compat/src/loopback.c:32-54 | registering is a map update bounded to four ports: refused exactly if the port is new and no slot is free |
| `Loopback.SendGoesToReceiver` | components/esp_smoltcp_lwip_compat/src/loopback.c:74-101 | a datagram is accepted exactly if somebody receives on the port with room, and goes to the end of that queue with the sender's address |
| `Loopback.Refusals` | components/esp_smoltcp_lwip_compat/src/loopback.c:32-101 | port 0, more than 65535 bytes and missing memory are refused and leave table and queues as they were |
| `Loopback.AddressStored` | components/esp_smoltcp_lwip_compat/src/sock_wrap.c:180-186 | the address stored by bind or connect is the source that later datagrams carry |
| `Loopback.OpenStartsBlank` | components/esp_smoltcp_lwip_compat/src/fd_table.c:56-74 | a new descriptor starts unbound and without a queue, whatever the entry was used for before |
| `LoopbackTable.LoopbackTable.LoBind` | components/esp_smoltcp_lwip_compat/src/loopback.c:32-54 | the one-pass slot search in place agrees with the function |
| `LoopbackTable.LoopbackTable.LoUnbind` | components/esp_smoltcp_lwip_compat/src/loopback.c:56-72 | clearing the slots and draining the queue in place agrees with the function |
| `LoopbackTable.LoopbackTable.LoDeliver` | components/esp_smoltcp_lwip_compat/src/loopback.c:74-101 | delivery in place agrees with the function |
| `LoopbackTable.LoopbackTable.RecvFrom` | components/esp_smoltcp_lwip_compat/src/sock_wrap.c:254-266 | taking the oldest datagram in place, cut to the buffer, agrees with the function |
| `SelectPoll.Select` | components/esp_smoltcp_lwip_compat/src/select_wrap.c:62-97 | a non-zero return is the size of the two output sets, which are exactly the requested shim descriptors below nfds that probed ready in the last scan, after only idle scans |
| `SelectPoll.Poll` | components/esp_smoltcp_lwip_compat/src/select_wrap.c:99-122 | revents and count follow select's output sets entry by entry |
| `SelectPoll.PollCountsLikeSelect` | components/esp_smoltcp_lwip_compat/src/select_wrap.c:116-121 | for distinct descriptors poll returns the count select returned |
| `SelectPoll.ReportedIff` | components/esp_smoltcp_lwip_compat/src/select_wrap.c:104-121 | an entry is reported exactly if some entry asked for its descriptor, which is the shim's and probes ready; none is missed |
| `SelectPoll.WithinEventsIff` | components/esp_smoltcp_lwip_compat/src/select_wrap.c:105-121 | revents stays within events for every readiness exactly if entries with equal descriptors ask for equal events |
| `SelectPoll.TimeoutSurvives` | components/esp_smoltcp_lwip_compat/src/select_wrap.c:66-68 | a timeout in milliseconds survives the round trip through a timeval |
| `TcpSend.NetTcpSend` | components/esp_smoltcp/src/esp_smoltcp_sock.c:78-102 | the chunks smoltcp accepted concatenate to exactly the first `ret` bytes, and -1 means that none were |
| `TcpSend.TakesAllRoom` | components/esp_smoltcp/src/esp_smoltcp_sock.c:84-100 | the loop gets everything into smoltcp that smoltcp has room for up to the first turn that is late and finds none; a late turn with room counts |
| `IfaceConfig.StepKeepsIff` | components/esp_smoltcp_glue/src/lib.rs:259-297 | every poll, DHCP event, static set and DHCP start keeps the link-local address, one IPv4 address at most, has_ip, netmask and gateway consistent, exactly if there is room for two addresses when one is assigned |
| `IfaceConfig.LeaseTakesEffect` | components/esp_smoltcp_glue/src/lib.rs:267-283 | after a lease the interface has exactly the link-local and the leased address; a router becomes route and gateway with its octets in memory order, without one the gateway is 0 and the route stays |
| `IfaceConfig.LeaseLostTakesEffect` | components/esp_smoltcp_glue/src/lib.rs:284-292 | a lost lease takes address, route, netmask and gateway away |
| `IfaceConfig.StaticTakesEffect` | components/esp_smoltcp_glue/src/lib.rs:427-447 | a static address of any prefix replaces the address and ends DHCP, so that later leases change nothing; a gateway of 0 leaves the route |
| `IfaceConfig.EnabledThenLeased` | components/esp_smoltcp_glue/src/lib.rs:450-457 | starting DHCP keeps the configuration, and the next lease takes effect |
| `IfaceConfig.LastAddressWins` | components/esp_smoltcp_glue/src/lib.rs:259-297 | after any run the interface has the link-local address and the last address given and not taken back |
| `IfaceConfig.EveryRunIsConsistent` | components/esp_smoltcp/src/esp_smoltcp.c:211-231 | after any run that ends in a poll the configuration is consistent, GOT_IP and LOST_IP have alternated starting with GOT_IP, and ip_up and the event bit say whether there is an IPv4 address |
| `IfaceConfig.NetmaskReadsAsPrefix` | components/esp_smoltcp_glue/src/lib.rs:303-321 | the netmask word has in memory the octets of the prefix mask, first octet first |
| `IfaceConfig.AddressCtx.Poll` | components/esp_smoltcp_glue/src/lib.rs:259-297 | the poll in place agrees with the step function |
| `IfaceConfig.AddressCtx.SetStatic` | components/esp_smoltcp_glue/src/lib.rs:427-447 | the static set in place agrees with the step function |
| `Ipv4Words.MaskInMemoryOrder` | components/esp_smoltcp_glue/src/lib.rs:303-305 | the byte-swapped prefix mask reads in memory as its octets in order, for every prefix up to 32 |
| `Ipv4Words.ReadingsSwap` | components/esp_smoltcp_glue/src/lib.rs:315-321 | the big-endian and little-endian readings of the same octets are byte swaps of each other and agree exactly on palindromic addresses |
| `Ipv4Text.PrintedParsesBack` | components/esp_smoltcp_lwip_compat/src/netdb_wrap.c:113-119 | for all four octets the printed dotted quad is accepted by the parser, which recovers the octets in order |
| `Ipv4Text.Print8Canonical` | components/esp_smoltcp_lwip_compat/src/netdb_wrap.c:117-117 | octets are printed without leading zeros |
| `Ipv4Text.ParseOctets` | components/esp_smoltcp_glue/src/lib.rs:669-678 | the parser loop accepts exactly the texts of four parts that each parse as an octet |
| `Ipv4Text.PtonThenNtopIff` | components/esp_smoltcp_lwip_compat/src/netdb_wrap.c:105-119 | for every text that parses, storing the parsed word and printing it gives the text back exactly if the text is as the printer writes it and the address is palindromic |
| `Ipv4Text.PtonThenNtopWitness` | components/esp_smoltcp_lwip_compat/src/netdb_wrap.c:105-119 | the texts of 192.168.1.50 and 01.0.0.1 parse and do not come back |
| `StaticConfig.StaticAddressIsReversed` | components/esp_smoltcp_glue/src/lib.rs:427-447 | every parsed address and gateway is applied with its octets backwards, so the interface gets the address meant exactly if it is palindromic |
| `StaticConfig.AttachStatic` | components/esp_smoltcp/src/esp_smoltcp.c:490-495 | from the configured texts to the interface: the address is the parsed one backwards, 0.0.0.0 for a text that does not parse, and a gateway of 0 leaves the route |

## Left out

- smoltcp itself, FreeRTOS, the Ethernet driver and the heap: they appear as inputs, bounded queues and atomic steps.
- Races between the shim's unlocked lookups and other threads: a BSD call is one step, and a blocking accept one step with a list of scans.
- Real time: a deadline is the end of the list of scans or answers that a call is given; tick-counter overflow is not modelled.
- The UDP readiness probe of `fd_readable`: readiness is an input of each scan.
- send, recv, setsockopt, getsockopt, getsockname, fcntl, ioctl, getaddrinfo: plumbing over the calls modelled here.
- Packed handles are written with `*`, `/` and `%` by 2^24 in place of shifts and masks, and the 32-bit TX mask as its 32 bits.
- rx_bytes, tx counters, link counters and hardware timestamps: plain sums that would add only easy members.
- The writing of frames into TX buffers, including the panic of `consume` on a length above 1536.
- DNS names of labels followed by a pointer, the class and QR fields: the scanner does not look at them; the 512-byte limits of the query and reply buffers.
- The dotted-quad shortcut of `smoltcp_resolve`: it is the parser of Rust's core library.
- net_tcp_send on buffers of 2^31 bytes or more, where the cast of the total to int would wrap.
- ntp.c, ptp.c, esp_netif_shim.c, alloc_shim.rs, panic.rs: clients, stubs and forwarders.
- A second default route or a full route table: the model has the one default route that the glue sets.
- Shim.Shim.FdFree: the loopback half of fd_free, lo_unbind and the queue deletion, is `LoopbackTable.LoUnbind` and not part of this method; the two halves share only the entry.
- Shim.Shim.Close: as for `FdFree`.
- Shim.Shim.Bind: what lo_bind answers is an input; lo_bind itself is `LoopbackTable.LoBind`.
- Shim.SocketCtx.Resolve: starts behind the dotted-quad shortcut, and replies are not cut to 512 bytes.
- SelectPoll.Poll: asks for non-negative descriptors, since FD_SET and FD_ISSET on a negative one are undefined in C.
