# olympus-relayer core, modelled in Dafny

This project models the relay core of olympus-relayer, a libp2p node that relays the
Olympus chain's gossip. It covers three sources:

- `relayer/relayer.go`, modelled in `relaying.dfy`. This holds the `Relayer` and its topic table:
  - `processMessages`, the read-and-dispatch loop over a peer stream;
  - the relay handler that `receiveMessages` gives to that loop;
  - `Subscribe`, `Advertise` and `handleNewPeer`;
  - the loop that `FindPeers` runs for each rendezvous string.
- `relayer/sync.go`, modelled in `notifier.dfy`. This is the connection notifier `SyncHandler`.
- The start-up helpers of `main.go`, modelled in `startup.dfy`:
  - the network switch;
  - the boot-node filter;
  - `retrieveIPAddrs`, `SortAddresses` and `multiAddressBuilder`.

`wrappers.dfy` holds `Option`, `Result` and `Error`. `externals.dfy` holds the value types of libp2p and ogen that the core only passes along: peer ids, multiaddrs, `AddrInfo`, streams, connections and chain parameters.

Library calls are handled in four ways:

- **Answers as inputs.** What a library answers is given to the model as an input:
  - a function parameter such as `Topic.Publish`, `PubSub.Join`, `Topic.Relay`, `net.ParseIP`, `ma.NewMultiaddr` or `peer.AddrInfoFromP2pAddr`;
  - or a value such as the sequence of `p2p.ReadMessage` outcomes, the responses of `discovery.FindPeers`, or what `iface.Addrs()` returns.
- **Calls as a trace.** The `Relayer` records every call it makes into the pubsub and discovery libraries in its `trace` field, in the order it makes them.
- **Answers per read.** The message handler and `Topic.Publish` are also given the number of the read they serve, so a frame and its retransmission can get different answers.
- **Cancellation as a read number.** Cancellation of the context is given as the number of the first read before which `ctx.Done()` is seen closed.

Two behaviours of the code are easy to miss, and the model keeps them:

- `handleNewPeer` never dials a discovered peer. It skips the host's own identity and only logs any other peer.
- `Subscribe` joins topics but never stores them in the topic table. As a result, a relayer built by `NewRelayer` and then subscribed publishes nothing.

## Model

| member | source | states |
|---|---|---|
| Relaying.ProcessReadsInOrder | relayer/relayer.go:136-153 | the handler receives the frames in the order they are read, with none skipped and none read after `ctx.Done()` is closed |
| Relaying.ProcessStopsAtHandlerError | relayer/relayer.go:149-151 | the handler, called with each message's read number, accepted every message except the last; the loop stopped for a handler error exactly when the handler rejected the last message, and it returns that error unchanged |
| Relaying.ProcessStopsBeforeNextRead | relayer/relayer.go:137-147 | when no handler error ended the loop, it ended just before the next read: with nil if `ctx.Done()` was closed by then, otherwise with that read's error (EOF at the end of the stream) |
| Relaying.RetransmissionCanFail | relayer/relayer.go:149-150 | a frame and its retransmission can get different answers: if the first copy is accepted and the second rejected, the loop ends on the second copy with both handled |
| Relaying.CancelledFirstReadsNothing | relayer/relayer.go:138-140 | a context already cancelled makes the loop return nil with nothing read |
| Relaying.ProcessMessages | relayer/relayer.go:136-153 | the loop returns the error that the specification run gives, and its handler calls are exactly those for the handled messages, in order |
| Relaying.EffectsSnoc | relayer/relayer.go:149 | handling one more message appends that message's calls to the effects |
| Relaying.HandleFrame | relayer/relayer.go:149-151 | one handler call returns the handler's error for that read number and appends its calls |
| Relaying.RelayStep | relayer/relayer.go:117-133 | an unknown command or a failed Marshal is dropped with nil; otherwise exactly one publish on the command's topic, returning what Publish returns for that read |
| Relaying.RelayPublishesOnlyKnownTopics | relayer/relayer.go:122-133 | the relay handler publishes at most once per message and only on topics of the table; with an empty table it publishes nothing |
| Relaying.BlockUnknownVoteScenario | relayer/relayer.go:124-132 | requires a topic table holding "block" and "vote" but not "unknown-cmd", which a relayer built by NewRelayer never has; then a block, an unknown command and a vote produce exactly the block and vote publishes, in that order |
| Relaying.SubscribeJoinsInOrder | relayer/relayer.go:96-109 | Subscribe only joins and relays; it completes exactly when no join or relay fails, and then it has joined and relayed each command once, in list order |
| Relaying.SubscribeAll | relayer/relayer.go:97-107 | the loop's calls and fatal error equal those of the specification run: the first failing join or relay ends it |
| Relaying.AdvertiseCalls | relayer/relayer.go:83-86 | one advertisement per rendezvous string, in order |
| Relaying.Relayer.constructor | relayer/relayer.go:161-174 | the new relayer has the host's id, the given parameters, an empty topic table and no calls |
| Relaying.Relayer.HandleNewPeer | relayer/relayer.go:89-94 | a peer is skipped exactly when it is the host itself; no peer is ever dialled |
| Relaying.Relayer.Decisions | relayer/relayer.go:62-74 | one handleNewPeer decision per delivered peer, in delivery order |
| Relaying.Relayer.HandleEach | relayer/relayer.go:62-74 | the channel-draining loop makes exactly the decisions `Decisions` gives |
| Relaying.Relayer.DiscoveryNeverDials | relayer/relayer.go:56-76 | the discovery loop only requests peers and backs off for 10 seconds; it never dials; it runs out of responses only if every channel was closed |
| Relaying.Relayer.ErrorEndsDiscovery | relayer/relayer.go:57-60 | a FindPeers error ends the loop for good: later responses are never requested, and the calls are one request and back-off per closed channel before it, then one request |
| Relaying.Relayer.ClosedChannelsAreRerequested | relayer/relayer.go:64-69 | every closed channel is followed by the 10-second back-off and a new request |
| Relaying.Relayer.Discover | relayer/relayer.go:56-76 | the per-rendezvous loop makes exactly the calls and decisions of the specification run, and ends as it does |
| Relaying.Relayer.FindPeersOn | relayer/relayer.go:51-80 | the trace grows by the discovery loop's calls for one rendezvous string |
| Relaying.Relayer.ReceiveMessages | relayer/relayer.go:116-134 | the trace grows by the relay handler's publishes for the handled messages, in order; the result is the error processMessages returns |
| Relaying.Relayer.Subscribe | relayer/relayer.go:96-109 | the trace grows by the joins and relays of the subscription run; the topic table is not touched |
| Relaying.Relayer.Advertise | relayer/relayer.go:82-87 | the trace grows by one advertisement per rendezvous string of the chain parameters |
| Relaying.SubscribedRelayerNeverPublishes | relayer/relayer.go:96-133 | a relayer fresh from NewRelayer and Subscribe makes no publish, whatever the stream |
| Notifier.SyncHandler.constructor | relayer/sync.go:42-44 | the handler's fields are the arguments |
| Notifier.SyncHandler.Listen | relayer/sync.go:19 | no effect |
| Notifier.SyncHandler.ListenClose | relayer/sync.go:21 | no effect |
| Notifier.SyncHandler.Connected | relayer/sync.go:23-34 | no call for a connection that is not outbound; for an outbound one, a sync-protocol NewStream to the remote peer and then HandleStream with the stream, or with the nil stream when opening failed |
| Notifier.SyncHandler.Disconnected | relayer/sync.go:36 | no effect |
| Notifier.SyncHandler.OpenedStream | relayer/sync.go:38 | no effect |
| Notifier.SyncHandler.ClosedStream | relayer/sync.go:40 | no effect |
| Notifier.NewSyncHandler | relayer/sync.go:42-44 | a fresh handler whose fields are exactly the arguments |
| Startup.SelectNetwork | main.go:119-125 | the test network exactly for "testnet", the main network for any other string |
| Startup.UsableIPsExact | main.go:232-244 | an IP is kept exactly when it is non-nil, neither loopback nor link-local unicast, and found by the type switch in some address |
| Startup.CollectErrorIsFinal | main.go:228-231 | after an address-listing error, later interfaces change nothing |
| Startup.CollectIPsExact | main.go:221-245 | the collection fails exactly when some up, non-loopback interface cannot list its addresses, with the first such error; otherwise it holds exactly the usable addresses of those interfaces |
| Startup.RetrieveIPAddrs | main.go:215-247 | an interface-list error or listing error is returned with no partial list; otherwise the result is a permutation of the collected addresses with IPv4 first |
| Startup.SwapPermutes | main.go:252-254 | exchanging two entries keeps the multiset of addresses |
| Startup.SortAddresses | main.go:249-256 | in place, the same array ends up holding a permutation of its addresses in which every IPv4 address precedes every other address |
| Startup.MultiAddressBuilder | main.go:258-267 | a string that does not parse is rejected with "invalid ip address provided"; an IPv4 address gets the ip4 TCP multiaddr and any other address the ip6 one |
| Startup.MultiaddrComponents | main.go:264-266 | the multiaddr text splits into the empty root, the family, the IP, "tcp" and the port |
| Startup.MultiaddrRoundTrip | main.go:264-266 | family, IP and port read back unchanged from the built multiaddr text |
| Startup.ComponentsJoin | main.go:264-266 | splitting on '/' undoes joining with '/' when no part holds a '/' |
| Startup.BootNodeListExact | main.go:127-142 | a peer is a boot node exactly when some configured relayer parses to it and it is not the host; there are never more boot nodes than relayers |
| Startup.BootNodes | main.go:127-142 | the loop keeps exactly the boot nodes of `BootNodeList`, in configuration order |

## Left out

- Key loading and creation, the peerstore, libp2p host construction, the DHT, and the wiring of the start-up command (main.go:1-118 and 143-213): these are I/O and library set-up.
- Concurrency:
  - `FindPeers` starts one goroutine per rendezvous string. `Relayer.FindPeersOn` models the body for one string, and the interleaving of several is not modelled.
  - `HandleStream` starts `receiveMessages` in a goroutine; that hand-off is not modelled.
  - The `select` on `ctx.Done()` is an input: the number of the first read (or response) at which cancellation is seen.
- `topicsLock` is not modelled. The mutual exclusion it gives has no counterpart in a sequential model.
- `time.Sleep` is recorded as a `BackedOff(10)` call rather than waited for.
- Logging, the `fmt.Println` of each delivered peer, and the `Infof` calls are not modelled: they are output only.
- `relayer/discovery.go` declares `DiscoveryHandler`, a field-for-field copy of `SyncHandler` (relayer/discovery.go:12-44). Nothing registers it: only the sync handler is passed to `Notify` (relayer/relayer.go:176-177). Its logic is the same as what `notifier.dfy` models, so it has no separate model.
- NewRelayer's calls into the host are not modelled: `pubsub.NewGossipSub` and its `log.Fatal` on error (relayer/relayer.go:156-159), the `Notify` registration of the sync handler, and the two `SetStreamHandler` calls (relayer/relayer.go:176-181). `Relaying.Relayer.constructor` covers only the fields it sets (relayer/relayer.go:161-174).
- The p2p command strings `p2p.Msg*Cmd` live in the ogen library, which is not part of this model. `TopicsSubs` uses descriptive stand-ins, in the same order and equally distinct.
- Library answers are inputs rather than computed:
  - the frame decoding of `p2p.ReadMessage`;
  - `Message.Marshal`;
  - `Topic.Publish`, `PubSub.Join`, `Topic.Relay`, `discovery.Advertise` and `discovery.FindPeers`;
  - `net.Interfaces`, `net.ParseIP` and the IP classification methods;
  - `ma.NewMultiaddr` and `peer.AddrInfoFromP2pAddr`.
- Relaying.ReadAt: a read past the end of the given outcomes fails with `Error("EOF")`. This assumes that `p2p.ReadMessage` reports end of stream with an error, whose exact value is not known here.
- Notifier.SyncHandler.Connected: when `NewStream` fails, the source passes its nil stream to `HandleStream`. That call runs `s.Conn().RemotePeer()` on it (relayer/relayer.go:112) and so crashes the process. The model records the `HandleStream(NilStream)` call and does not model the crash.
- Relaying.Relayer.ReceiveMessages: returns the error of processMessages, which the source discards. Nothing else depends on it.
- Relaying.Relayer.Subscribe: `log.Fatal` ends the process; the model returns the fatal error instead and makes no further call.
- Relaying.Relayer.ReceiveMessages, Relaying.Relayer.Subscribe and Relaying.Relayer.FindPeersOn append their library calls to `trace` when the operation returns. The source issues them one at a time. The calls and their order are the same.
- Relaying.Relayer.Discover: a finite list of FindPeers responses stands for the unbounded loop. Running out of responses is a separate ending, `ResponsesExhausted`.
- Startup.SortAddresses: the order within the IPv4 addresses and within the others is left open, as `sort.Slice` is not stable. It is proved by a two-pointer partition rather than by the library's sort.
- Startup.MultiAddressBuilder: the multiaddr parser is an input; `MultiaddrRoundTrip` states the text round trip for IP and port strings without '/'.
