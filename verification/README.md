# CoreRAT messaging: a verified model

CoreRAT moves messages between processes and hosts. This project models the parts of it whose correctness is not
visible from any single function, and proves what they promise.

- **Router daemons** (`RouterModel`, `TcpRouter`, `RouterRuns`, `RouterInNetwork`, `Network`, `NetworkTheorems`,
  `NetworkDelivery`, `Convergence`, `NetworkScenarios`, `PeerLoops`, `SecondLink`, `EvlRouter`, `EvlDaemon`, `EvlRuns`,
  `RouterLaws`, `EvlLaws`). A router keeps a first-come mailbox table and a set of local mailboxes, advertises the
  latter to its peers, and forwards data frames. `RouterModel` gives the effect of each step on a router as a value;
  `TcpRouter` is the daemon updating its tables in place, proved step by step against it; `RouterLaws` says what each
  input does to table, local set and queues, with every frame written out, independently of the functions that compute
  it. `RouterRuns` covers every run of one router under any input; `Network` any number of routers with peer links and
  upstream links over FIFO queues; `NetworkScenarios` builds runs of it step by step. `EvlRouter`, `EvlRuns` and
  `EvlLaws` do the same for the EVL daemon with its xbuf devices, `EvlDaemon` is that daemon in place, and the two
  daemons are compared run by run.
- **EVL mailboxes** (`EvlRegistry`, `MailboxLifecycle`, `SlotRing`, `MailboxQueue`, `RingMemory`, `EvlRing`,
  `RemoteCache`): the open-addressing registry against a map, mailbox lifetimes, the priority ring against a bounded
  priority bag, the same ring as raw shared-memory bytes, and the cache of remote handles against a recency list.
- **Real-time logger** (`RtLogger`, `LogRing`): every load, store, field write, field copy and sink call is a step,
  and steps of producers, drain thread and controlling thread interleave freely.
- **Frame stream** (`Bytes`, `Protocol`, `FrameStream`, `TimsMailbox`): frames written and read through sockets that
  transfer any number of bytes per call.
- **Message ids** (`MessageIds`, `Dispatch`): automatic numbering, reply expansion, packing, lookup and dispatch.

## Main results

1. `NetworkTheorems.RoutesLeadHome`, `HopsAreBounded`, `LoopFreedom`, `PeerFrameStopsHere`, `AtMostOneClient`: in every
   run of every network in which the clients of at most one router may register or delete each id and upstream hops
   descend in rank, every route leads home, a client's frame crosses at most one peer link and at most rank-many
   upstream links, and no frame ever exists twice. `PeerLoops.LoopFreeIff` shows that this hypothesis is exact: if some
   id may be registered at two routers, permitted runs take a frame over any number of peer links.
2. `Convergence.AdvertsConverge`: the receiver's routes to a link, updated by the adverts in flight, are the sender's
   local mailboxes, in every reachable state in which no other link between the two routers has overlapped the link at
   the receiver; `SecondLink.OneRunningLinkIsNotEnough` gives a run in which one did and the property fails.
3. `RouterRuns.OwnershipIsInForce`, `NoMisdelivery`, `EntryKeptIff` with `RouterLaws.RegisteredReceives`, `AnsweredIff`:
   exclusive ownership under arbitrary input; a frame reaches a connection if and only if its registration is in force.
   `NetworkDelivery.FrameArrives`: a frame whose route leads over a link is on the holder's queue once read there.
4. `EvlRouter.EvlIsTcp`, `HandleEquivalentIff`: the EVL daemon is the TCP daemon exactly where no device opens and no
   registration is accepted on an open peer connection. `EvlRuns.EvlOwnershipIsInForce`, `EvlNoMisdelivery`,
   `XbufGetsItsOwnFrames`, `EvlLaws.InForceReceives`: ownership and delivery in every run with devices.
5. `RtLogger.AcceptedIsCommitted`, `NothingLostOrReordered`, `StopFlushesEverything`, `StopTerminates`,
   `DrainProgresses`, `WraparoundIsInvisible`,
   `LogRing.NothingLostWith64Bits`, `StopFlushesWith64Bits`.
6. `EvlRegistry.RegistryRefinesMap`, `InsertTakesEffectIff`, `MailboxLifecycle.LookupsNeverDangle`.
7. `MailboxQueue.HoldsTheHighest`, `NothingUnaccounted`, `DrainsInOrder`, `DrainsEverything`,
   `SlotRing.ReceiveDefinedIff`, `RingMemory.LayoutPartitions`, `SlotsDisjointIff`, `EvlRing.Ring.PostToRemote`.
8. `RemoteCache.HoldsMostRecent`, `LargerCacheHits`, `CachedByRecency`.
9. `FrameStream.StreamRoundTrip`, `AlignedIff`, `TimsMailbox.EndToEnd`.
10. `MessageIds.IdsDistinctIff`, `RepliesNegateBack`, `Dispatch.DispatchInvertsLookup`, `MessagesArriveAsSent`,
    `CheckAcceptsCollisionIff`, `CheckRejectsDistinctIff`.

## What turned out not to hold as documented

- The check at `include/corerat/messaging/message_registry.hpp:101` is meant to stop automatic ids above 0x7FFF, but it
  tests a definition that no longer needs an id, so it never fires (`MessageIds.AssertionNeverFires`):
  `MessageIds.OverflowCollides` gives a list that passes and repeats an id.
- Automatic ids can also be repeated by a manual id listed later (`MessageIds.LateManualCollides`).
  `MessageIds.IdsDistinctIff` is the exact condition, for definitions in any order, under which all ids are distinct.
- The collision check sees the list before numbering, through a member nothing uses. It passes lists that collide
  (`Dispatch.CheckPassesCollision`) and fails lists that do not (`Dispatch.CheckSeesUnnumberedIds`);
  `Dispatch.CheckAcceptsCollisionIff` and `CheckRejectsDistinctIff` state exactly which.
- A receive while every held message has priority -128 uses slot index -1: `SlotRing.ReceiveDefinedIff` states exactly
  when, and `MailboxQueue.NeverOutOfBounds` that it cannot happen if nothing is posted at -128.
- A client's disconnect neither clears the id from the local set nor sends a DELETE; `PeerLoops` draws the
  consequence.
- A REGISTER read on a second link while the first still owns the id is ignored, so the end of the first link leaves
  the id without a route (`SecondLink`).
- Payload slots overlap if and only if an offset exceeds 32 bits (`RingMemory.SlotsDisjointIff`).

## Modelling choices

- One `handle_frame` is one atomic step. The code takes separate locks for the table, the local set and each send; races
  within a step, and the window before a new connection is listed, are below this grain.
- Sends are all-or-nothing, and fail once the socket is closed or its reader loop has returned. An oversized frame
  closes the socket while the loop, and so the table entries, stay.
- `Channel.remote` and `Packet.tag` are bookkeeping of the model; no step of a router reads them. The order in which
  the unordered set of local mailboxes is listed is a parameter: every listing is allowed.
- `Plan` holds what the network theorems suppose: `may` says whose clients may register or delete an id, and `rank`
  falls along upstream hops. `OneHome`, that at most one router may serve each id, is a hypothesis of the theorems that
  need it. Clients send no peer frames (`include/corerat/ipc/tims/protocol.hpp:32`), and no router peers with or is
  upstream of itself.
- Convergence of a link supposes `AloneSoFar`: since the link was attached, no other link between the two routers has
  been running at the receiver. Links that had ended there before do no harm.
- The logger runs under sequentially consistent interleaving with one thread controlling start and stop; messages fit
  the entry, so appending is concatenation.
- System calls are oracles or demonic choices: what opens, how many bytes a call transfers, when a stream ends.
  Byte-order conversion and (de)serialisation are arbitrary functions, with a stated round-trip assumption where needed.

## Model

| member | source | states |
|---|---|---|
| Bits.MaskIsMod | include/corerat/logging/rt_logger.hpp:93-93 | `x & (2^k - 1)` is `x mod 2^k` for every x and k: the ring index of the logger and the registry's probe slot |
| Bits.OrIsSum | include/corerat/messaging/message_id.hpp:35-39 | shifting and or-ing disjoint bit fields is a sum |
| Bytes.WordBytes | include/corerat/ipc/tims/protocol.hpp:41-51 | words are written lowest byte first |
| Protocol.HeaderLayout | include/corerat/ipc/tims/protocol.hpp:43-53 | the byte at which each header field lies, and the two's complement of the type |
| Protocol.FrameFields | include/corerat/ipc/tims/protocol.hpp:67-82 | a built header has the little-endian flag, the fields given and a length that counts the header |
| Protocol.HeaderRoundTrip | include/corerat/ipc/tims/protocol.hpp:43-53 | reading the 16-byte little-endian image of a header gives the header back, whatever follows it |
| TcpRouter.TcpRouterDaemon.SendOn | src/router/tcp_router.cpp:573-576 | appends to that connection's queue if the socket is open, changes nothing else, and reports which |
| TcpRouter.TcpRouterDaemon.BroadcastToPeers | src/router/tcp_router.cpp:449-459 | the snapshot-then-send loops tell each peer connection once and no other connection |
| TcpRouter.TcpRouterDaemon.Snapshot | src/router/tcp_router.cpp:288-291 | lists each local mailbox exactly once |
| TcpRouter.TcpRouterDaemon.AdvertiseAsPeer | src/router/tcp_router.cpp:489-499 | HELLO and then one REGISTER per local mailbox go to that connection only |
| TcpRouter.TcpRouterDaemon.ForwardToUpstream | src/router/tcp_router.cpp:302-319 | the two search loops pick the first route of the destination's system, open or not, and only else the default upstream; success exactly if that socket is open |
| TcpRouter.TcpRouterDaemon.OnLocalRegistered | src/router/tcp_router.cpp:266-274 | the id joins the local set and every peer is told |
| TcpRouter.TcpRouterDaemon.OnLocalDeleted | src/router/tcp_router.cpp:277-285 | the id leaves the local set and every peer is told |
| TcpRouter.TcpRouterDaemon.Handle | src/router/tcp_router.cpp:517-618 | the whole new router state is that of the step function `HandleFrame`, for every frame type and error case |
| TcpRouter.TcpRouterDaemon.HandleData | src/router/tcp_router.cpp:597-616 | forwarding, upstream, drop for peers, and MSG_ERROR otherwise |
| TcpRouter.TcpRouterDaemon.ReadFromUpstream | src/router/tcp_router.cpp:405-422 | a frame from upstream is forwarded to the owner of its destination or dropped; an oversized one ends the loop |
| TcpRouter.TcpRouterDaemon.LoopReturns | src/router/tcp_router.cpp:501-515 | exactly the entries of that connection are forgotten; the local set stays |
| RouterLaws.HeldIdIsDelivered | src/router/tcp_router.cpp:597-600 | a data frame for an id in the table is put at the end of its holder's queue, client or peer, and nothing else changes |
| RouterLaws.PeerFrameIsDropped | src/router/tcp_router.cpp:601-615 | a data frame from a peer for an id not in the table changes nothing |
| RouterLaws.UnheldIdGoesUp | src/router/tcp_router.cpp:302-319 | any other data frame goes on the first route for the system in the top byte of its destination, and only if there is none on the first upstream; if that socket is closed, or there is neither, the sender is answered MSG_ERROR |
| RouterLaws.UpOrAnswered | src/router/tcp_router.cpp:601-614 | exactly one queue grows, by exactly one frame: the route's by the frame, or the sender's by the answer |
| RouterLaws.FreeIdIsGranted | src/router/tcp_router.cpp:566-583 | a registration of a free id enters it for the connection and as local, answers MSG_OK to the frame's source with its sequence number, and tells every open peer |
| RouterLaws.TakenIdIsRefused | src/router/tcp_router.cpp:570-576 | a registration of a taken id is answered MSG_ERROR and changes nothing else |
| RouterLaws.DeleteForgets | src/router/tcp_router.cpp:585-594 | a deletion takes the id out of table and local set, whoever holds it, and tells every open peer |
| RouterLaws.HelloIsAnswered | src/router/tcp_router.cpp:532-539 | a first HELLO makes the connection a peer and queues HELLO and one REGISTER per local id; a later one does nothing |
| RouterLaws.RegisterIsLearnt | src/router/tcp_router.cpp:541-549 | a peer's REGISTER enters a free id and does nothing else |
| RouterLaws.PeerDeleteForgets | src/router/tcp_router.cpp:551-559 | a peer's DELETE takes the id out of the table, whoever holds it |
| RouterLaws.OthersChangeNothing | src/router/tcp_router.cpp:562-567 | watchdog frames and frames too short to name an id change nothing |
| RouterLaws.OversizedCloses | src/router/tcp_router.cpp:519-527 | an oversized frame closes its socket and changes nothing else |
| RouterLaws.UpstreamFrame | src/router/tcp_router.cpp:405-422 | a frame of any type from upstream is put on the queue of the holder of its destination, or dropped; an oversized one ends the reader |
| RouterLaws.LoopEnd | src/router/tcp_router.cpp:77-80 | exactly the entries of the connection go; the local set stays |
| RouterLaws.NewConnection | src/router/tcp_router.cpp:65-91 | a new connection holds nothing and has nothing queued |
| RouterLaws.NewPeer | src/router/tcp_router.cpp:424-447 | a dialled peer connection has HELLO and one REGISTER per local id queued |
| RouterLaws.AnsweredIff | src/router/tcp_router.cpp:566-583 | in every run a registration draws exactly one answer: MSG_OK if and only if the id was free, and then the connection holds it; MSG_ERROR otherwise, and then nothing else has changed |
| RouterLaws.HeldUntilReleased | src/router/tcp_router.cpp:65-91 | an entry that is not released is kept over any stretch of a run |
| RouterLaws.RegisteredReceives | src/router/tcp_router.cpp:597-600 | while a registration answered MSG_OK is not released and the socket is open, every data frame for the id that is read goes on that client's queue |
| RouterRuns.StepKeepsInv | src/router/tcp_router.cpp:517-618 | every step keeps: each table entry names a connection whose loop is running |
| RouterRuns.RunKeepsInv | src/router/tcp_router.cpp:501-515 | in every run no entry refers to a connection whose loop has returned |
| RouterRuns.EntryKeptIff | src/router/tcp_router.cpp:65-91 | an entry survives a step if and only if the step neither deletes its id nor ends its owner's loop |
| RouterRuns.EntryGranted | src/router/tcp_router.cpp:541-583 | an entry appears only for an unowned id, by a registration answered MSG_OK or a peer's advert |
| RouterRuns.OwnerChangesOnlyOnRelease | src/router/tcp_router.cpp:65-91 | over any stretch of a run, an owner is replaced only after a delete of the id or the end of its loop |
| RouterRuns.OwnershipIsInForce | src/router/tcp_router.cpp:566-594 | every entry traces back to the step that granted it, with no release since |
| RouterRuns.NoMisdelivery | src/router/tcp_router.cpp:597-616 | a data frame, or any frame from upstream, reaches a connection only under a registration of its destination in force there; otherwise only the sender gets the error answer |
| RouterInNetwork.AdvertRoundTrip | src/router/tcp_router.cpp:541-559 | the id read from an advert is the id it was built for |
| RouterInNetwork.HandleKeeps | src/router/tcp_router.cpp:517-618 | with one home per id, every handled frame keeps routes leading home and queues within the hop limits, and queues only grow |
| RouterInNetwork.ReadUpstreamKeeps | src/router/tcp_router.cpp:405-422 | the same for frames read from upstream |
| RouterInNetwork.EndLoopKeeps | src/router/tcp_router.cpp:501-515 | the same for the end of a reader loop |
| Network.InFlightReadable | src/router/tcp_router.cpp:517-618 | whatever is in flight on a link is something its reader is prepared for |
| Network.PopKeepsLinks | src/router/tcp_router.cpp:532-539 | reading a queue keeps both ends of every link consistent: the HELLO is read before anything else |
| Network.StepKeeps | src/router/tcp_router.cpp:266-618 | every step of every network (connects, sends, deliveries, disconnects) keeps the network invariant |
| NetworkTheorems.RunKeepsInv | src/router/tcp_router.cpp:266-618 | the invariant holds in every reachable state |
| NetworkTheorems.RoutesLeadHome | src/router/tcp_router.cpp:541-583 | every route is a live client of the home router, or a link to the home router itself |
| NetworkTheorems.HopsAreBounded | src/router/tcp_router.cpp:597-616 | a client's frame crosses at most one peer link and at most rank-many upstream links; an answer at most one downstream and one peer link |
| NetworkTheorems.LoopFreedom | src/router/tcp_router.cpp:597-616 | without upstreams a client's frame crosses at most one link in all |
| NetworkTheorems.PeerFrameStopsHere | src/router/tcp_router.cpp:597-616 | a frame read from a peer is handed to a local client of its home or dropped; nothing goes further or back |
| NetworkTheorems.HandleCopies | src/router/tcp_router.cpp:517-618 | handling a frame forwards at most one copy of it |
| NetworkTheorems.StepCopies | src/router/tcp_router.cpp:405-422 | no step of a network adds a copy of a frame, except a client's sending it |
| NetworkTheorems.NeverDuplicated | src/router/tcp_router.cpp:597-616 | at any time at most one copy of a client's frame exists in all queues and at all clients |
| NetworkTheorems.AtMostOneClient | src/router/tcp_router.cpp:597-616 | two different connections never hold the same frame |
| NetworkDelivery.Connected | src/router/tcp_router.cpp:424-447 | connecting brings up pairs of channels that name each other, as client, peer or upstream links |
| NetworkDelivery.StepOnQueue | src/router/tcp_router.cpp:405-420 | a link's queue loses its head when read at the far end and otherwise only grows |
| NetworkDelivery.Fifo | src/router/tcp_router.cpp:505-510 | after k reads at the far end, what was queued from the k-th frame on is what comes first |
| NetworkDelivery.QueuedIsDelivered | src/router/tcp_router.cpp:597-600 | a frame queued on a link is handed to the holder of its destination at the far end once the frames before it have been read |
| NetworkDelivery.LocalFrameArrives | src/router/tcp_router.cpp:597-600 | a client's frame held where it enters is on the holder's queue at once |
| NetworkDelivery.FrameArrives | src/router/tcp_router.cpp:597-616 | a client's frame whose first hop is a peer or upstream link is on the holder's queue at the far end once read there, having crossed that one link; over a peer link the holder is a client |
| Convergence.ReplaySnapshot | src/router/tcp_router.cpp:489-499 | replaying a fresh advertisement onto nothing gives the local set |
| Convergence.ReceiverHandles | src/router/tcp_router.cpp:541-559 | a frame changes the ids routed to a link only if it is an advert read from it, and then as replay says |
| Convergence.OldLinkSynced | src/router/tcp_router.cpp:266-291 | any step of the network keeps a link synchronised that is up and alone at the receiver |
| Convergence.NewLinkSynced | src/router/tcp_router.cpp:424-447 | a new link starts synchronised at both ends |
| Convergence.LinkSynced | src/router/tcp_router.cpp:266-291 | so it is synchronised in every reachable state, if no other link between its routers has overlapped it at the receiver |
| Convergence.AdvertsConverge | src/router/tcp_router.cpp:449-459 | after the snapshot, the receiver's routes to the link replayed with the adverts in flight equal the sender's local mailboxes; an empty link means agreement |
| Convergence.LiveEntriesAreLocal | src/router/tcp_router.cpp:566-583 | every id a live client holds is in the advertised set |
| PeerLoops.AbandonedStillAdvertises | src/router/tcp_router.cpp:501-515 | after a client's disconnect its id is routed nowhere and is still in the advertised set |
| NetworkScenarios.HearsRegister | src/router/tcp_router.cpp:541-549 | an advert is taken over exactly if the id is unowned, whatever its router knows already |
| NetworkScenarios.Joins | src/router/tcp_router.cpp:424-447 | a run in which one router dials another and its advert is read |
| PeerLoops.TwoHomesLoop | src/router/tcp_router.cpp:489-616 | if an id may be registered at two routers then, in every network with them, for every data frame to the id and every n, a permitted run takes the frame over n peer links |
| PeerLoops.LoopFreeIff | src/router/tcp_router.cpp:489-616 | frames of permitted runs cross at most one peer link if and only if no id may be registered at two routers; otherwise there is no bound at all |
| SecondLink.OneRunningLinkIsNotEnough | src/router/tcp_router.cpp:541-549 | a run after which the only running link is up and empty while the receiver lacks the sender's mailbox, because an earlier link overlapped it |
| EvlRouter.TellThenSend | src/router/evl_router.cpp:600-609 | answering and broadcasting commute if and only if the addressee is not an open peer connection |
| EvlRouter.InitEquivalentIff | src/router/evl_router.cpp:715-753 | an accepted registration leaves the TCP router's state if and only if it did not arrive on an open peer connection |
| EvlRouter.HandleEquivalentIff | src/router/evl_router.cpp:666-798 | with no xbuf, the two daemons' handlers agree on every frame except exactly that one |
| EvlRouter.StepEquivalent | src/router/evl_router.cpp:650-798 | the same for every step of a run |
| EvlRouter.EvlIsTcp | src/router/evl_router.cpp:553-798 | every EVL run in which no device opens and no such registration occurs is a run of the TCP router, queue by queue |
| EvlRuns.EvlEntryKeptIff | src/router/evl_router.cpp:111-156 | an entry survives a step if and only if it is neither deleted nor a connection entry whose loop ends: xbuf entries outlive connections |
| EvlRuns.EvlStepKeeps | src/router/evl_router.cpp:666-798 | every step keeps: xbuf entries name a device opened for that id, others a running connection |
| EvlRuns.EvlRunKeepsInv | src/router/evl_router.cpp:650-664 | the same in every run |
| EvlRuns.XbufGetsItsOwnFrames | src/router/evl_router.cpp:767-796 | a device is written only by data frames for its own mailbox; every such frame goes in as far as the device takes it, and its sender is answered MSG_ERROR if and only if the body is empty or did not all go in |
| EvlRuns.EvlEntryGranted | src/router/evl_router.cpp:690-753 | an entry appears only for an unowned id: xbuf or connection by an answered registration, according to the device opening, or a peer's advert |
| EvlRuns.EvlOwnershipIsInForce | src/router/evl_router.cpp:111-156 | every entry of every run, xbuf entries included, traces back to the step that granted it, with no release since |
| EvlRuns.EvlNoMisdelivery | src/router/evl_router.cpp:323-352 | what reaches a connection from a client, a peer, upstream or a device is a message for an id it holds in force, or the error answer to its own frame; data read from a device reaches the holder of the destination in its wire header or no one |
| EvlRuns.WireAddresses | src/router/evl_router.cpp:335-339 | the addresses an EVL mailbox wrote at offsets 20 and 24 become those of the frame |
| EvlRuns.XbufMessageArrives | src/router/evl_router.cpp:351-354 | the bytes read from a device are received whole by a TCP mailbox, with the source and destination of their wire header |
| EvlLaws.HeldByConnection | src/router/evl_router.cpp:785-787 | a data frame for an id a connection holds is put on that queue and nothing else changes |
| EvlLaws.HeldByDevice | src/router/evl_router.cpp:788-795 | a data frame for an id a device holds is written as far as the device takes it, and answered MSG_ERROR exactly if empty or cut short |
| EvlLaws.UnheldFromPeer | src/router/evl_router.cpp:769-784 | a peer's frame for a free id is dropped |
| EvlLaws.UnheldGoesUp | src/router/evl_router.cpp:446-462 | any other frame goes on the route of its system or is answered MSG_ERROR |
| EvlLaws.FreeIdGranted | src/router/evl_router.cpp:715-753 | a registration of a free id enters a new device if that opens and the connection otherwise, tells open peers, then answers MSG_OK |
| EvlLaws.TakenIdRefused | src/router/evl_router.cpp:746-751 | a registration of a taken id is answered MSG_ERROR and changes nothing else |
| EvlLaws.DeletionForgets | src/router/evl_router.cpp:755-764 | a deletion takes the id out of table and local set and tells open peers |
| EvlLaws.SharedFrames | src/router/evl_router.cpp:672-689 | HELLO, watchdog, short and oversized frames do to the connections what they do at the TCP router, and leave table and devices alone |
| EvlLaws.RegisterLearnt | src/router/evl_router.cpp:691-699 | a peer's REGISTER enters a free id as a peer entry |
| EvlLaws.PeerDeletionForgets | src/router/evl_router.cpp:701-709 | a peer's DELETE takes the id out of the table |
| EvlLaws.FromUpstream | src/router/evl_router.cpp:553-574 | a frame from upstream reaches the holding connection; one for a device is dropped |
| EvlLaws.FromDevice | src/router/evl_router.cpp:326-356 | data read from a device with a whole wire header is framed as is, addressed as the header says, and put on the queue of the connection that holds the destination; otherwise nothing changes |
| EvlLaws.ConnectionEnds | src/router/evl_router.cpp:137-144 | exactly the connection's own entries go |
| EvlLaws.ConnectionStarts | src/router/evl_router.cpp:576-598 | new connections are as at the TCP router |
| EvlLaws.EvlAnsweredIff | src/router/evl_router.cpp:746-751 | in every run a registration draws exactly one answer: MSG_OK if and only if the id was free |
| EvlLaws.InForceReceives | src/router/evl_router.cpp:767-796 | while an entry is in force every data frame for the id goes on the holder's queue or into its device |
| EvlDaemon.EvlRouterDaemon.WriteBody | src/router/evl_router.cpp:303-313 | however the device splits the write, success exactly if a nonempty body fits, and the device holds the body or the part that fitted |
| EvlDaemon.EvlRouterDaemon.Handle | src/router/evl_router.cpp:666-798 | the whole new daemon state is that of the step function `EvlHandle` |
| EvlDaemon.EvlRouterDaemon.HandleInit | src/router/evl_router.cpp:715-753 | xbuf entry if the device opens, connection entry otherwise, peers told before the answer, MSG_ERROR for a taken id |
| EvlDaemon.EvlRouterDaemon.HandleData | src/router/evl_router.cpp:767-796 | routing to connection, device, upstream, drop or error answer |
| EvlDaemon.EvlRouterDaemon.ReadFromUpstream | src/router/evl_router.cpp:553-574 | upstream frames reach connections only, never a device |
| EvlDaemon.EvlRouterDaemon.LoopReturns | src/router/evl_router.cpp:137-144 | exactly the connection's own entries are forgotten |
| RtLogger.NoRace | include/corerat/logging/rt_logger.hpp:93-98 | the slot being written is none the drain thread may read |
| RtLogger.StepKeeps | include/corerat/logging/rt_logger.hpp:86-102 | every small step of every interleaving keeps the ring, writer, drain and control invariants |
| RtLogger.RunKeepsInv | include/corerat/logging/rt_logger.hpp:185-206 | they hold in every reachable state |
| RtLogger.AcceptedIsCommitted | include/corerat/logging/rt_logger.hpp:86-102 | in every run the entries accepted are those read off the commit events alone: the caller's level and text, the time of the first field write, in order of publication |
| RtLogger.CommitGoesThrough | include/corerat/logging/rt_logger.hpp:86-102 | a commit on a ring with room publishes exactly its entry in nine steps and gives the lock back |
| RtLogger.NothingLostOrReordered | include/corerat/logging/rt_logger.hpp:185-221 | for every sink: the entries committed are those it was given, the one in hand, and the ring, in order; occupancy never exceeds RingSize |
| RtLogger.DropOnlyWhenFull | include/corerat/logging/rt_logger.hpp:89-91 | a commit is dropped if and only if the ring was full when it read the tail |
| RtLogger.StopFlushesEverything | include/corerat/logging/rt_logger.hpp:146-152 | with no commit during it, stop_drain returns with every entry committed before given to every sink once, in order |
| RtLogger.StartAndStop | include/corerat/logging/rt_logger.hpp:138-152 | start sets the drain thread going, stop makes the caller wait for it; repeated calls do nothing |
| RtLogger.JoinEnds | include/corerat/logging/rt_logger.hpp:149-151 | the wait ends with the logger stopped and ready to start again |
| RtLogger.DrainProgresses | include/corerat/logging/rt_logger.hpp:186-197 | a running drain thread removes an entry or gets closer to it with each step while the ring is not empty |
| RtLogger.StopTerminates | include/corerat/logging/rt_logger.hpp:199-206 | while stop_drain waits the drain thread can step, and each step decreases a lexicographic measure |
| RtLogger.SlotWraps | include/corerat/logging/rt_logger.hpp:54-54 | masking a 64-bit counter selects the same slot as masking the unbounded one |
| RtLogger.StepWraps | include/corerat/logging/rt_logger.hpp:89-100 | a step with 64-bit counters is the wrapped image of the step with unbounded ones |
| RtLogger.WraparoundIsInvisible | include/corerat/logging/rt_logger.hpp:188-204 | every run with wrapping counters is the image of a run with unbounded counters on the same events |
| LogRing.NothingLostWith64Bits | include/corerat/logging/rt_logger.hpp:86-102 | the order and occupancy theorem for the 64-bit counters of the code |
| LogRing.StopFlushesWith64Bits | include/corerat/logging/rt_logger.hpp:146-152 | in every run with 64-bit counters, a stop_drain without commits during it returns with every entry committed before given to every sink once, in order |
| LogRing.WindowWrite | include/corerat/logging/rt_logger.hpp:93-100 | writing the slot after the window extends it by that entry and disturbs none in it |
| LogRing.WindowShift | include/corerat/logging/rt_logger.hpp:193-195 | advancing a wrapping tail removes exactly the oldest entry |
| LogRing.Ring.Commit | include/corerat/logging/rt_logger.hpp:86-102 | the array ring gains the entry at its end, or is unchanged when full |
| LogRing.Ring.Take | include/corerat/logging/rt_logger.hpp:193-195 | the oldest entry is taken and the rest stays in order |
| LogRing.Ring.Flush | include/corerat/logging/rt_logger.hpp:200-205 | the loop hands out the contents in order and leaves the ring empty |
| EvlRegistry.Registry.RegistryInsert | include/corerat/ipc/evl/evl_backend.hpp:101-112 | the probing loop writes the first slot that is empty or has the id, or nothing |
| EvlRegistry.Registry.RegistryRemove | include/corerat/ipc/evl/evl_backend.hpp:115-126 | the probing loop clears the pointer at the id's slot and nothing else |
| EvlRegistry.Registry.RegistryFind | include/corerat/ipc/evl/evl_backend.hpp:129-138 | the probing loop returns the pointer at the id's slot or none |
| EvlRegistry.HashIsTopBits | include/corerat/ipc/evl/evl_backend.hpp:96-98 | the hash is the top nine of the low 32 bits of the product |
| EvlRegistry.InsertKeeps | include/corerat/ipc/evl/evl_backend.hpp:101-112 | an insert keeps the probe invariant and every other id's lookup |
| EvlRegistry.RemoveKeeps | include/corerat/ipc/evl/evl_backend.hpp:115-126 | a remove empties its own lookup, keeps every other and keeps the slot used |
| EvlRegistry.NoRoomIff | include/corerat/ipc/evl/evl_backend.hpp:104-111 | an insert finds no slot if and only if 512 other ids have been used |
| EvlRegistry.RegistryRefinesBook | include/corerat/ipc/evl/evl_backend.hpp:96-138 | after every sequence of operations on any ids, 0 and a full table included, lookups are those of the book of accepted ids |
| EvlRegistry.RegistryRefinesMap | include/corerat/ipc/evl/evl_backend.hpp:96-138 | while at most 512 distinct nonzero ids were ever inserted, the registry is a plain map |
| EvlRegistry.InsertTakesEffectIff | include/corerat/ipc/evl/evl_backend.hpp:101-112 | an insert takes effect if and only if its id is nonzero and known or among the first 512; otherwise no lookup changes |
| MailboxLifecycle.StepKeeps | include/corerat/ipc/evl/evl_backend.hpp:306-368 | construct, initialize, shutdown and destroy keep: a lookup yields nothing or an initialised Local mailbox with that id |
| MailboxLifecycle.BoxesAfter | include/corerat/ipc/evl/evl_backend.hpp:306-368 | which mailboxes are initialised after each operation, in each mode and failure case; no operation touches another mailbox |
| MailboxLifecycle.LookupsNeverDangle | include/corerat/ipc/evl/evl_backend.hpp:306-368 | the same in every run of any set of mailboxes, duplicate ids included |
| MailboxLifecycle.ShutdownTouchesOnlyItself | include/corerat/ipc/evl/evl_backend.hpp:345-368 | a shutdown or destruction unregisters that mailbox and never another |
| MailboxLifecycle.InitializeRegistersIff | include/corerat/ipc/evl/evl_backend.hpp:328-329 | a Local initialisation takes the id over if and only if it is nonzero and the table has room for it |
| MailboxLifecycle.Process.InitializeBox | include/corerat/ipc/evl/evl_backend.hpp:306-343 | new registry and mailbox states in each mode and failure case |
| MailboxLifecycle.Process.ShutdownBox | include/corerat/ipc/evl/evl_backend.hpp:345-368 | new registry and mailbox states |
| SlotRing.FirstFree | include/corerat/ipc/evl/evl_backend.hpp:609-613 | the first slot not in use, or none |
| SlotRing.Highest | include/corerat/ipc/evl/evl_backend.hpp:621-632 | the first slot of highest priority; none only if all held are at -128 |
| SlotRing.Lowest | include/corerat/ipc/evl/evl_backend.hpp:634-643 | the first slot of lowest priority; none only if all held are at 127 |
| SlotRing.PostGoesTo | include/corerat/ipc/evl/evl_backend.hpp:656-681 | a post fills the first free slot, or on a full ring the first of the lowest priority not above its own; it is refused if and only if the ring is full and every message is at 127 or above it |
| SlotRing.ReceiveTakes | include/corerat/ipc/evl/evl_backend.hpp:1157-1182 | a receive takes the first slot of highest priority above -128 if its message fits the buffer; if it does not, the ring is unchanged; never more bytes than the buffer |
| SlotRing.PostFree | include/corerat/ipc/evl/evl_backend.hpp:656-681 | with a free slot a post adds exactly that message |
| SlotRing.PostFull | include/corerat/ipc/evl/evl_backend.hpp:634-681 | on a full ring a post replaces a message of lowest priority not above it, or is refused because nothing held is lower |
| SlotRing.ReceiveDefinedIff | include/corerat/ipc/evl/evl_backend.hpp:1157-1164 | a receive is out of bounds if and only if something is held and all of it is at -128; it waits if and only if nothing is held |
| SlotRing.ReceiveOutcome | include/corerat/ipc/evl/evl_backend.hpp:1157-1182 | the message received is one of highest priority, with its bytes and source, and the rest stays |
| MailboxQueue.HoldsTheHighest | include/corerat/ipc/evl/evl_backend.hpp:609-681 | after any posts without a receive, for all int8 priorities, the ring holds the `capacity` highest of all messages held and posted |
| MailboxQueue.TopKUnique | include/corerat/ipc/evl/evl_backend.hpp:634-649 | that choice is exact up to ties: two such choices differ only in messages of one common priority |
| MailboxQueue.NothingUnaccounted | include/corerat/ipc/evl/evl_backend.hpp:615-681 | over every run, accepted = received + evicted + held as multisets of whole messages |
| MailboxQueue.LedgerFollows | include/corerat/ipc/evl/evl_backend.hpp:656-681 | what counts as accepted, evicted and received, by the rules for slots |
| MailboxQueue.NeverOutOfBounds | include/corerat/ipc/evl/evl_backend.hpp:1157-1158 | if nothing is posted at -128, no receive of the run is out of bounds |
| MailboxQueue.DrainedWereHeld | include/corerat/ipc/evl/evl_backend.hpp:1157-1182 | draining hands out only what was held |
| MailboxQueue.DrainsInOrder | include/corerat/ipc/evl/evl_backend.hpp:1157-1182 | receives without a post in between yield non-increasing priorities |
| MailboxQueue.DrainsEverything | include/corerat/ipc/evl/evl_backend.hpp:1157-1182 | with nothing at -128 they hand out exactly what was held |
| RingMemory.LayoutPartitions | include/corerat/ipc/evl/evl_backend.hpp:423-445 | header, metadata entries and payload slots are pairwise disjoint and fill shm_total exactly |
| RingMemory.SlotsDisjointIff | include/corerat/ipc/evl/evl_backend.hpp:431-439 | payload slots are pairwise disjoint if and only if the largest offset fits in 32 bits |
| RingMemory.SlotLayout | include/corerat/ipc/evl/evl_backend.hpp:412-445 | the byte at which each field of a slot lies |
| RingMemory.MetaRoundTrip | include/corerat/ipc/evl/evl_backend.hpp:412-417 | metadata read back from its bytes is what was written |
| RingMemory.WriteMetaDecodes | include/corerat/ipc/evl/evl_backend.hpp:423-429 | writing one slot's metadata changes that metadata and no other slot |
| RingMemory.WritePayloadDecodes | include/corerat/ipc/evl/evl_backend.hpp:431-439 | copying into one slot changes the front of that payload and no other slot |
| RingMemory.HeapWrite | include/corerat/ipc/evl/evl_backend.hpp:438-438 | the same for a private ring |
| EvlRing.CopyBytes | include/corerat/ipc/evl/evl_backend.hpp:671-671 | memcpy replaces exactly the addressed bytes |
| EvlRing.Ring.constructor | include/corerat/ipc/evl/evl_backend.hpp:451-486 | a new ring has no slot in use and, if public, carries its dimensions |
| EvlRing.Ring.SlotMetaAt | include/corerat/ipc/evl/evl_backend.hpp:423-429 | the accessor shows the slot's metadata in either mode |
| EvlRing.Ring.SetMetaAt | include/corerat/ipc/evl/evl_backend.hpp:423-429 | writing through it changes that slot only |
| EvlRing.Ring.CopyIn | include/corerat/ipc/evl/evl_backend.hpp:431-439 | copying into a slot changes that slot's payload only |
| EvlRing.Ring.CopyOut | include/corerat/ipc/evl/evl_backend.hpp:1166-1166 | copying out gives the front of that slot's payload |
| EvlRing.Ring.FindFreeSlot | include/corerat/ipc/evl/evl_backend.hpp:609-613 | the loop finds the first free slot |
| EvlRing.Ring.HasInUseSlot | include/corerat/ipc/evl/evl_backend.hpp:615-619 | the loop finds whether any slot is in use |
| EvlRing.Ring.FindHighestPrioritySlot | include/corerat/ipc/evl/evl_backend.hpp:621-632 | the loop computes the specified scan |
| EvlRing.Ring.EvictLowest | include/corerat/ipc/evl/evl_backend.hpp:634-649 | the loop frees the lowest slot if the new priority is not below it, and nothing otherwise |
| EvlRing.Ring.PostLocally | include/corerat/ipc/evl/evl_backend.hpp:656-681 | the ring becomes `Post` of it, in either memory mode |
| EvlRing.Ring.ReceiveNow | include/corerat/ipc/evl/evl_backend.hpp:1129-1182 | result and ring are those of `Receive`, in every outcome |
| EvlRing.Ring.RemoteFree | include/corerat/ipc/evl/evl_backend.hpp:960-963 | the scan over shared bytes finds the owner's first free slot |
| EvlRing.Ring.RemoteWorst | include/corerat/ipc/evl/evl_backend.hpp:965-971 | the scan over shared bytes finds the owner's lowest slot |
| EvlRing.Ring.PostToRemote | include/corerat/ipc/evl/evl_backend.hpp:944-994 | writing through the bytes alone has the result and final ring of the owner's post, clipped to the slot size |
| EvlRing.PostInSteps | include/corerat/ipc/evl/evl_backend.hpp:662-672 | free, copy, publish metadata amounts to one `Post` |
| EvlRing.Clipped | include/corerat/ipc/evl/evl_backend.hpp:984-984 | the longest prefix of the data that fits the slot |
| RemoteCache.Cache.constructor | include/corerat/ipc/evl/evl_backend.hpp:287-293 | empty, with max_remote_handles slots or 16 |
| RemoteCache.Cache.FindDest | include/corerat/ipc/evl/evl_backend.hpp:873-878 | the loop hits if and only if the destination is in the recency list |
| RemoteCache.Cache.FindEmpty | include/corerat/ipc/evl/evl_backend.hpp:880-881 | an empty slot, or none exactly if all are valid |
| RemoteCache.Cache.FindLru | include/corerat/ipc/evl/evl_backend.hpp:888-890 | the scan finds the last of the recency list |
| RemoteCache.Cache.Close | include/corerat/ipc/evl/evl_backend.hpp:850-859 | closing the least recently used handle drops the last of the list |
| RemoteCache.Cache.GetOrOpen | include/corerat/ipc/evl/evl_backend.hpp:871-895 | the recency list after every request, hit or miss, open or failed open; a non-null result is a valid handle of that destination |
| RemoteCache.FullIff | include/corerat/ipc/evl/evl_backend.hpp:880-887 | the list is full if and only if every slot is valid |
| RemoteCache.TouchKeeps | include/corerat/ipc/evl/evl_backend.hpp:871-895 | which destinations a request leaves cached: a miss on a full cache gives up the last even if the open fails, and nothing else is lost |
| RemoteCache.TouchTakes | include/corerat/ipc/evl/evl_backend.hpp:871-895 | a request on the n most recent leaves the n most recent |
| RemoteCache.HoldsMostRecent | include/corerat/ipc/evl/evl_backend.hpp:871-895 | when opens succeed the cache holds exactly the n most recently requested distinct destinations |
| RemoteCache.LargerCacheHits | include/corerat/ipc/evl/evl_backend.hpp:287-293 | a larger max_remote_handles hits whenever a smaller one does |
| RemoteCache.CachedByRecency | include/corerat/ipc/evl/evl_backend.hpp:888-895 | whatever opens fail, handles stand in the order of their last requests, so the one given up is the oldest |
| FrameStream.TcpSocket.SendAll | include/corerat/ipc/tims/tcp_socket.hpp:72-80 | however the bytes are split over calls: all sent, or the connection failed after a prefix |
| FrameStream.TcpSocket.RecvAll | include/corerat/ipc/tims/tcp_socket.hpp:83-91 | however the bytes are split over calls: exactly the next bytes of the stream, or it ended first |
| FrameStream.StreamRoundTrip | src/tims_backend.cpp:123-177 | for every sequence of frames, receives return exactly the nonempty non-status bodies in order with metadata, and each probe draws one MSG_OK |
| FrameStream.ReceiveConsumes | src/tims_backend.cpp:133-176 | where the reader goes on after a frame |
| FrameStream.AlignedIff | src/tims_backend.cpp:139-152 | the reader stays aligned with the frames if and only if probes carry no body and bodies fit the buffer |
| TimsMailbox.Mailbox.SendRaw | src/tims_backend.cpp:100-117 | each result, exactly when it occurs, the bytes sent and the counter |
| TimsMailbox.Mailbox.ReadFrame | src/tims_backend.cpp:133-176 | one pass of the loop ends the call or leaves the rest of the stream to be received |
| TimsMailbox.Mailbox.ReceiveRaw | src/tims_backend.cpp:123-177 | outcome, unread bytes and status answers are those of `Receive` on the stream |
| TimsMailbox.SentFrame | src/tims_backend.cpp:107-110 | a sent frame is well formed, little-endian, and carries source, destination and the count modulo 256 |
| TimsMailbox.AllDelivered | src/tims_backend.cpp:139-146 | a stream of nonempty messages is delivered message for message, with no answers |
| TimsMailbox.FramesReceived | src/tims_backend.cpp:123-177 | the frames of a run of sends, of any length, are received message for message with their metadata |
| TimsMailbox.Mailbox.SendMany | src/tims_backend.cpp:100-117 | repeated sends put exactly the frames of the messages on the stream; all succeed if and only if the mailbox is up, the messages are valid and the connection lasts |
| TimsMailbox.Mailbox.ReceiveMany | src/tims_backend.cpp:123-177 | repeated receives return the outcomes that the stream determines |
| TimsMailbox.EndToEnd | src/tims_backend.cpp:100-177 | sends at one mailbox and receives at another, however the sockets split the bytes: if every send succeeds, exactly the messages arrive, in order, with metadata, and nothing is left |
| FrameStream.FrameReceived | src/tims_backend.cpp:146-175 | a frame with a message that fits is received whole with its header's fields as metadata, converted exactly if it has a wire header and no little-endian flag |
| FrameStream.FrameTooBig | src/tims_backend.cpp:150-150 | a message longer than the buffer is reported, its header read and its body not |
| FrameStream.FrameCutShort | src/tims_backend.cpp:134-152 | a stream that ends inside a frame fails; an empty one times out |
| FrameStream.StatusReplyFields | src/tims_backend.cpp:140-141 | the answer to a probe is MSG_OK from this mailbox to the prober with no body |
| MessageIds.RunningIsMax | include/corerat/messaging/message_registry.hpp:72-87 | the running number of a group is the larger of its automatic definitions so far and, over its positive manual ids, the id plus the automatic ones after it |
| MessageIds.AssignedClosed | include/corerat/messaging/message_registry.hpp:61-117 | for definitions in any order the recursive numbering equals a closed form: own id, or one more than the running number, stuck at 0x8000 |
| MessageIds.PackIsSum | include/corerat/messaging/message_id.hpp:35-39 | the packed id is the weighted sum of its fields |
| MessageIds.PackInjective | include/corerat/messaging/message_id.hpp:35-39 | packed ids are equal if and only if group and 16-bit id are |
| MessageIds.ClosedNoClashIff | include/corerat/messaging/message_registry.hpp:61-117 | numbered ids are distinct if and only if manual ids are, no group overflows 0x8000, and no manual id is an automatic number of its group |
| MessageIds.ExpandNoClashIff | include/corerat/messaging/message_registry.hpp:20-45 | adding replies creates a clash if and only if a listed id is the negation of a request's |
| MessageIds.IdsDistinctIff | include/corerat/messaging/message_registry.hpp:20-117 | for definitions in any order, the processed 32-bit ids are distinct if and only if manual ids are, no group overflows 0x8000, and no manual id is the number of an automatic definition or of a reply in its group |
| MessageIds.PositiveIdsDistinctIff | include/corerat/messaging/message_registry.hpp:61-117 | with manual ids of 1..0x7FFF replies never clash, and only an automatic number listed before a manual id can |
| MessageIds.ManualFirstDistinctIff | include/corerat/messaging/message_registry.hpp:61-117 | with distinct manual ids listed first, distinct if and only if no group's highest manual id plus automatic ones exceeds 0x8000 |
| MessageIds.IdsDistinct | include/corerat/messaging/message_registry.hpp:61-117 | in particular when every group stays within 0x7FFF |
| MessageIds.RepliesListed | include/corerat/messaging/message_id.hpp:124-128 | every request is listed with its number and right after it its reply: the reply's payload type, the same group, the negative number, no further reply |
| MessageIds.OthersListed | include/corerat/messaging/message_registry.hpp:34-44 | a definition without a reply is listed with its number |
| MessageIds.NothingElseListed | include/corerat/messaging/message_registry.hpp:20-45 | there are as many processed definitions as given ones and requests, each one of these |
| MessageIds.RepliesNegateBack | include/corerat/messaging/message_id.hpp:129-138 | every reply is recognised as one, and its id negates back to the id of the request listed before it |
| MessageIds.AssertionNeverFires | include/corerat/messaging/message_registry.hpp:101-102 | the overflow assertion holds of every definition the numbering produces |
| MessageIds.OverflowCollides | include/corerat/messaging/message_registry.hpp:89-102 | two automatic ids of 0x8000 that the assertion lets through |
| MessageIds.LateManualCollides | include/corerat/messaging/message_registry.hpp:89-99 | a list in which a manual id repeats the automatic one before it; `IdsDistinctIff` says exactly when such lists are distinct |
| Dispatch.DispatchInvertsLookup | include/corerat/messaging/message_registry.hpp:223-304 | over distinct ids, visiting the id looked up for a type reaches that type exactly once |
| Dispatch.FindDefAt | include/corerat/messaging/message_registry.hpp:223-255 | the lookup by type finds the first definition with it |
| Dispatch.UnregisteredHasNoId | include/corerat/messaging/message_registry.hpp:232-241 | a type with no definition has no id |
| Dispatch.VisitReachesFirst | include/corerat/messaging/message_registry.hpp:398-427 | for every list a visit looks at the first definition with the id and at no other, and calls the visitor at most once |
| Dispatch.ReplyIsDispatched | include/corerat/messaging/message_registry.hpp:398-433 | a reply's type looks up to the packed negative id, and visiting that id reaches the type |
| Dispatch.UnknownIdReachesNothing | include/corerat/messaging/message_registry.hpp:398-433 | an id no definition has reaches nothing and returns false |
| Dispatch.VisitIsTypeById | include/corerat/messaging/message_registry.hpp:276-304 | the run-time visitor and the compile-time lookup by id agree on every id |
| Dispatch.MessagesArriveAsSent | include/corerat/messaging/message_registry.hpp:358-361 | a message written for a type is visited as that type by a receiver built from the same definitions |
| Dispatch.CheckIsComplete | include/corerat/messaging/message_registry.hpp:123-150 | the pairwise check passes a list if and only if its ids are distinct |
| Dispatch.CheckPassesIff | include/corerat/messaging/message_registry.hpp:182-182 | applied before numbering, the check passes if and only if manual ids are distinct and no group asks for two ids |
| Dispatch.CheckAcceptsCollisionIff | include/corerat/messaging/message_registry.hpp:182-182 | it passes a list whose ids collide if and only if its only faults are manual ids that are the number of an automatic definition or a reply |
| Dispatch.CheckRejectsDistinctIff | include/corerat/messaging/message_registry.hpp:182-182 | it fails a list whose ids are distinct if and only if some group asks for two ids and nothing is wrong |
| Dispatch.CheckRightIffManualFirst | include/corerat/messaging/message_registry.hpp:123-182 | with manual ids first it never passes a collision, and is right if and only if every group asks for at most one id or one lacks room |
| Dispatch.CheckPassesCollision | include/corerat/messaging/message_registry.hpp:182-182 | a list that passes the check and collides once numbered |
| Dispatch.CheckSeesUnnumberedIds | include/corerat/messaging/message_registry.hpp:182-182 | two automatic definitions of one group fail it although their numbered ids differ |

## Left out

- Races inside one `handle_frame`, partial sends on router sockets, and the window before a new connection is listed.
- C++ relaxed, acquire and release ordering in the logger: steps are sequentially consistent.
- A logger with RingSize 0, which the static assertion admits and which drops everything.
- Truncation in `sertial::rt::append`, `fixed_string` and float formatting: library code that is not part of this model.
- SeRTial (de)serialisation and the endianness swap: parameters of the lemmas that need them.
- Wrap-around of the 64-bit `lru_counter_` and of the message statistics.
- Blocking, timeouts and wake-ups of mailbox receives: a receive on an empty ring is an outcome of its own.
- Stale bytes in a shared-memory object that existed before `allocate_ring` opened it.
- EvlRing.Ring.PostLocally: asks that the data fits a slot, because `post` itself does not clip and its callers must ensure it.
- EvlRing.Ring.constructor: asks that payload offsets fit in 32 bits; `RingMemory.SlotsDisjointIff` says what happens otherwise.
- The xbuf reader loop's polling and its end on deletion; `EvlDaemon.EvlRouterDaemon.ReadFromXbuf` performs one read of it.
- TypeIndex, `registry_utils.hpp` and the result plumbing of `Mailbox<>`: easy members.
- `Duration`, `Timestamp`, `File`, threading wrappers, log sinks and stream formatting: thin wrappers and output.
- Mode::Network's UDP sockets, `has_message`, connection set-up and command-line parsing: system calls and start-up code.
