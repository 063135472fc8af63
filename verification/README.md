# A verified model of ergo-proxy

ergo-proxy is a relay between Ergo nodes. It accepts inbound peers, keeps outbound ones, and
forwards gossip, modifier requests and responses, and SyncInfo between the two sides. This
project models that relay in Dafny and proves what every run of it keeps. `dafny verify
dfyconfig.toml` checks all of it.

## How the model is laid out

The wire stack, bottom up:

- `bytes.dfy`, `bits.dfy`: a cursor over bytes, a growing buffer, and bitwise operators on numbers.
- `vlq.dfy`: variable-length quantities, ZigZag, short strings.
- `frame.dfy`: frames with magic, length and checksum.
- `messages.dfy`: typed messages and their bodies.
- `handshake.dfy`, `handshake_laws.dfy`: building, parsing, measuring and validating handshakes.
- `wire_layout.dfy`: the same formats byte by byte, with every code, size and limit written out;
  parsing is proved to succeed exactly on them.
- `connection.dfy`: the buffered handshake read and the frames behind it.

Each parser is a method that advances a cursor, as in the source. It is proved against a function
from a position to a value and the next position. The laws are about those functions.

Routing:

- `tables.dfy`: the contents of the routing tables, one function per table operation.
- `inv_table.dfy`, `tracker.dfy`, `latency.dfy`, `router.dfy`: the objects that update them in place.
- `router_machine.dfy`: the router as a machine over single-item operations (one announcement, one
  request, one response, ...). An event is the sequence of operations it amounts to, and
  `Router.HandleEvent` is proved to run exactly that sequence.
- `router_effects.dfy`: what handling each kind of event changes in which table and sends to whom,
  said without the operations, and that running them does exactly that.
- `router_log.dfy`: legal runs, what they keep, and that every event continues a legal run.
- `router_sync.dfy`: SyncInfo pairing, fan-out and direction rules.
- `router_history.dfy`: registry, Inv table, request and latency tables as functions of the history
  of the run, conservation of requests, latency averages.
- `sync_history.dfy`: both sync maps as functions of the history of the run.
- `router_claims.dfy`: what is written about GetPeers and Light mode, against the code.
- `relay.dfy`: what is emitted for a received frame can be sent and is understood.
- `proxy_system.dfy`: peer tasks, keepalive and main loop as interleaved steps over the shared
  router, the sender map with its mutex, the event channel and the id counter.
- `proxy_history.dfy`: tasks, events, router history and pings as functions of the steps taken.
- `proxy_progress.dfy`: what can still happen from every reachable state.

What the code leaves open is an input that the theorems quantify over: the order in which a
`HashMap` is iterated (any sequence that lists every key once), clock readings, the session id,
how much of a stream the first read delivers, the interleaving of tasks, BLAKE2b-256 (any function
from bytes to 32 bytes) and UTF-8 validity (any predicate on bytes). Latencies are exact reals.
The model has release-build semantics: debug assertions are not part of it.

## Where the code is weaker than what is written about it

The model follows the code. Each item names the theorem with the exact condition under which the
written claim holds, or, where it never does, the theorem that says so, and the input or run that
shows it fails.

- Sync pairings are said to agree in both directions (src/routing/tracker.rs:14). They do until
  an already paired inbound peer sends SyncInfo while some outbound peer is free, and only that
  breaks it: `TwoWayStep` for one operation, `TwoWayThroughout` for a run. `StaleRun` is such a run.
- Purging a peer is said to remove any pairing involving this peer (src/routing/tracker.rs:13). A
  record of it stays exactly with the outbound peers that are not its current partner:
  `StaleAfterLeave`. It can also cost a peer that stays its pairing with a third one:
  `SyncMapsAreHistory` says when, and `PairingLost` is such a run.
- Actions are said to target only registered peers (contracts/routing.md:41). They do except for
  the SyncInfo of an outbound peer whose recorded partner has left: `TargetsRegistered`, with
  `StaleRun` again. The main loop never sends such an action, because an unregistered peer has no
  sender: `SendersRegistered`.
- A validated peer is said to have a matching session magic (contracts/transport.md:31). That
  holds exactly when it sent a session feature of at least four bytes (or is rejected for its
  version anyway): `AcceptedMeansMatching`. `SessionlessAccepted` is a handshake accepted on both
  networks.
- Light mode is said to drop block-related requests (contracts/routing.md:42). The code filters
  only SyncInfo. A Light peer's request is dropped exactly when nobody else is the last announcer:
  `LightRequestDropped`. `LightRun` has one that is forwarded.
- GetPeers is said to be answered from the registry (contracts/routing.md:43). The code answers
  with an empty body, which lists as many peers as are registered exactly when nobody but the
  asking peer is: `GetPeersAnswer`. In `LightRun` somebody else is.
- `read_vlq` is said to reject more than 63 useful bits (src/transport/vlq.rs:5). It accepts ten
  groups and cuts the sum to 64 bits: `ReadsExactlyCodes`. It keeps the promise exactly on codes
  without a tenth byte or with a zero one, and reads the number meant exactly if that byte is at
  most one: `OverflowRejectedIff`. `OverflowReadAsZero` is 2^64, read as zero.
- Feature lengths are said to be 16-bit big-endian (contracts/transport.md:24). The code writes
  them as VLQ, which never gives those two bytes: `FeatureLengthNeverBigEndian`.

## Model

| member | source | states |
|---|---|---|
| ProxySystem.SendersRegistered | src/main.rs:364-424 | In every interleaving each peer with a write sender is registered, and every frame the main loop or the keepalive task ever handed to a sender went to a peer registered at that moment. |
| ProxySystem.DrainedMeansEmpty | src/main.rs:414-421 | Once all started tasks have ended and the queue is drained, the registry, Inv table, request tracker, both sync maps, both latency maps and the sender map are empty, whatever happened before. |
| ProxySystem.RegisteredIsAccountedFor | src/main.rs:364-421 | In every run each registered peer has a live task or a queued PeerDisconnected. |
| ProxySystem.EventsFromRegisteredPeers | src/main.rs:173-177 | Every event the main loop handles comes from a peer registered at that moment, which is the router's written precondition. |
| ProxySystem.ActionsTakenInOrder | src/main.rs:173-191 | The main loop takes up every router action exactly once, in the order emitted; those taken up plus those in hand are all that were ever emitted. |
| ProxySystem.SentIffActive | src/main.rs:179-189 | In every run the next action taken up is sent if and only if its target's task is in its reader loop just then, and its fate is recorded. |
| ProxySystem.SentFramesUnderstood | src/main.rs:179-187 | Every action ever taken up or still to be sent in any run gives a frame within 256 KiB that the receiver decodes to the same frame and parses to the same message. |
| ProxySystem.LogsAreLegal | src/main.rs:364-372 | The router's history in any interleaving is a legal run with no id registered twice, so every theorem about legal runs holds of the running proxy. |
| ProxySystem.Invariant | src/main.rs:345-424 | After every possible sequence of steps live tasks are registered as they were started, senders belong to active tasks, queued events come from registered peers with the disconnect last, everything queued or outgoing fits a frame, and actions are taken up in order. |
| ProxyHistory.EventsConserved | src/main.rs:173-177 | In every run the events taken up followed by those queued are, in order, exactly those sent: a connect, a message for each received frame that parses, a disconnect. |
| ProxyHistory.PeerEventsInOrder | src/main.rs:374-421 | In every run the events sent for a peer are its connect, then the messages received from it in order, then its disconnect, as far as it has come. |
| ProxyHistory.LogIsHistory | src/main.rs:173-177 | In every run the router's history is the joins plus the operations of exactly the events taken up. |
| ProxyHistory.OldestEventHandled | src/main.rs:175-178 | The main loop takes up the oldest event not yet taken up, the router does with it exactly what `RouterEffects.Handled` says, and the actions returned are what the main loop then has in hand. |
| ProxyHistory.RouterOtherwiseKept | src/main.rs:364-372 | No other step touches the router, except that a registration enters the peer with the direction and mode its task was started with. |
| ProxyHistory.TasksAreHistory | src/main.rs:345-424 | In every run the tasks are those started, with ids counted from one, each in the phase of its last move; each goes through its phases in order or gives up in the handshake; the peers with a sender are exactly the active ones. |
| ProxyHistory.TickPingsOutbound | src/main.rs:87-98 | A keepalive tick takes in hand one GetPeers for every registered outbound peer, whatever the iteration order, and nothing else. |
| ProxyHistory.PingsTakenInOrder | src/main.rs:89-97 | What the keepalive task took up followed by what it has in hand is, in order, all it ever took in hand. |
| ProxyHistory.SenderMapLocked | src/main.rs:178-191 | While the main loop or the keepalive task holds the sender map, the other does not and no step changes the map. |
| ProxyProgress.CanFinishSending | src/main.rs:178-191 | From every reachable state everything in hand can be dealt with in order, sent exactly to the targets with a sender, with nothing else happening. |
| ProxyProgress.CanDrainTo | src/main.rs:173-197 | From every reachable state the queue can be drained to any length, oldest first, while no task moves. |
| ProxyProgress.GossipCanBeDelivered | src/main.rs:389-399 | From every reachable state an Inv or unknown message received from an active peer can still be sent, unchanged, to any active peer of the other direction. |
| ProxyProgress.PingCanBeDelivered | src/main.rs:87-98 | From every reachable state a keepalive GetPeers can be sent to any active outbound peer. |
| ProxyProgress.CanConnect | src/main.rs:345-385 | From every reachable state a new peer of any direction and mode can get to its reader loop with the next id, while no other task moves. |
| ProxyProgress.CanWindDown | src/main.rs:414-421 | From every reachable state, without a new peer, all tasks can end, the queue can be drained, and the router and the sender map are then empty. |
| RouterEffects.EventHandled | src/routing/router.rs:56-206 | In any state and iteration order, running an event's operations does exactly what `Handled` says: per kind of event, which entries of which table change and to what, and what is sent to whom. |
| RouterEffects.InvEffect | src/routing/router.rs:86-106 | Every listed id names the sender, every other entry is as before, and the message itself goes once to each peer of the other direction. |
| RouterEffects.RequestEffect | src/routing/router.rs:108-126 | In order, one request for each listed id somebody else announced goes to its announcer; exactly those ids are then requested by the sender and timed for that announcer, and every other entry is as before. |
| RouterEffects.ResponseEffect | src/routing/router.rs:128-143 | Exactly the listed ids leave both pending maps; in order, the first mention of each requested id goes to its requester with type and bytes unchanged; each timed peer's average takes in the times of its requests answered, at weight 0.3, and no other entry changes. |
| RouterEffects.SyncEffect | src/routing/router.rs:145-178 | A Light peer's SyncInfo is dropped; a Full inbound peer's goes to an unpaired outbound peer, which is then paired with it, unless there is none; a Full outbound peer's goes to the peer recorded for it, if any. |
| RouterEffects.LeaveEffect | src/routing/router.rs:62-69 | A disconnect removes the peer from the registry, exactly the entries that name it from the Inv table and both pending maps, and its latency entry; of the sync maps, exactly its own pairing, the record of its current partner, its own record, and the pairing of the peer it records. |
| Routers.Router.HandleEvent | src/routing/router.rs:56-75 | The in-place event handler ends in exactly the state, and returns exactly the actions, of the operations the event amounts to, for some iteration order of the registry; and it does exactly what `RouterEffects.Handled` says of the event. |
| Routers.Router.RouteMessage | src/routing/router.rs:77-206 | The same for each kind of message, including messages from unregistered peers, which change and emit nothing; `Handled` included. |
| Routers.Router.RouteInv | src/routing/router.rs:86-106 | Recording every id and then fanning out is the run of one announcement per id followed by one relay, with the effect of `InvEffect`. |
| Routers.Router.RouteRequest | src/routing/router.rs:108-126 | The loop over requested ids is the run of one request per id, with its actions in order and the effect of `RequestEffect`. |
| Routers.Router.RouteResponse | src/routing/router.rs:128-143 | The loop over delivered modifiers is the run of one response per modifier, with its actions in order and the effect of `ResponseEffect`. |
| Routers.Router.RouteSyncInfo | src/routing/router.rs:145-178 | Mode filter, partner search and pairing are the run of one SyncInfo operation, with the effect of `SyncEffect`. |
| Routers.Router.FindPartner | src/routing/router.rs:152-157 | The search returns the first outbound peer in iteration order that nobody is paired with, or none. |
| Routers.Router.RegisterPeer | src/routing/router.rs:52-54 | The peer is entered with its direction and mode; no other entry and no table changes. |
| RouterLog.RunConsistent | src/routing/router.rs:6-9 | In every run the Inv table, request tracker and latency maps name only registered peers; every forward sync pairing has its reverse, joins a registered Full inbound with a registered outbound peer, and the keys of both sync maps stay registered. |
| RouterLog.EventExtendsRun | src/routing/router.rs:56-75 | Handling any event in a reachable state continues a legal run, with the state and emissions composed. |
| RouterLog.EmptyRegistry | src/routing/router.rs:62-69 | A consistent router without peers has no routing state at all. |
| RouterSync.TwoWayStep | src/routing/tracker.rs:14-60 | From a two-way-consistent reachable state an operation keeps two-way agreement if and only if it is not the SyncInfo of an already paired inbound peer while some outbound peer is free. |
| RouterSync.TwoWayThroughout | src/routing/tracker.rs:14-60 | A run is two-way consistent throughout if and only if no already paired inbound peer ever sends SyncInfo while some outbound peer is free. |
| RouterSync.TargetsRegisteredThroughout | src/routing/router.rs:145-178 | Until that first happens, every action a run emits targets a peer registered at that moment. |
| RouterSync.StaleRun | src/routing/tracker.rs:58-84 | A concrete run in which two-way agreement is broken and an outbound peer's recorded partner has left. |
| RouterSync.StaleAfterLeave | src/routing/tracker.rs:74-84 | After a peer leaves, an outbound peer still names it exactly when it named it before without being its current partner. |
| RouterSync.TargetsRegistered | src/routing/router.rs:145-178 | An operation in a reachable state targets only registered peers if and only if it is not the SyncInfo of an outbound peer whose partner has left. |
| RouterSync.Crossing | src/routing/router.rs:91-178 | In every reachable state Inv, unknown and SyncInfo messages are passed on unchanged and cross direction, and SyncInfo neither comes from a Light peer nor goes to a registered Light inbound peer. |
| RouterSync.FanOutOnce | src/routing/router.rs:96-105 | Whatever the iteration order, the targets of an Inv or unknown message are, as a multiset, exactly the registered peers of the other direction. |
| RouterSync.SyncForwarded | src/routing/router.rs:150-166 | A Full inbound peer's SyncInfo is forwarded if and only if some outbound peer is free, and the two are then partners in both maps. |
| RouterSync.SyncForwardsBounded | src/routing/router.rs:150-165 | While nobody disconnects, inbound SyncInfos go to pairwise distinct peers, at most as many as outbound peers free at the start plus outbound peers joining since, whatever `find` picks. |
| SyncHistory.SyncMapsAreHistory | src/routing/tracker.rs:58-84 | In every run o records i if and only if a SyncInfo of i was once forwarded to o, o has not left since, and o was not the current partner of i if i left; o is the current partner of i if and only if the last forwarded SyncInfo of i went to o and since then neither i nor any partner of i still there at that time has left. |
| SyncHistory.OldPartnerLeaves | src/routing/tracker.rs:74-84 | When an earlier partner of a paired peer leaves, that peer loses its current pairing while the current partner goes on recording it, even after the peer itself has left. |
| SyncHistory.PairingLost | src/routing/tracker.rs:74-84 | A concrete run in which two registered peers lose their pairing in one direction because a third one left. |
| RouterClaims.GetPeersAnswer | src/routing/router.rs:180-185 | In every run a registered peer's GetPeers is answered to it alone with a body without a count, which lists as many peers as the registry holds besides it if and only if it is the only one, that is, every other peer that ever joined has left. |
| RouterClaims.LightRequestDropped | src/routing/router.rs:108-126 | In every run a Light peer's request is dropped if and only if no other peer is the last announcer of the modifier, as for a Full peer. |
| RouterClaims.LightRun | src/routing/router.rs:108-185 | A concrete run in which a Light peer's request, for any modifier type, is forwarded and its GetPeers is not answered from the registry. |
| RouterHistory.RegistryIsHistory | src/routing/router.rs:52-69 | A peer is registered if and only if it joined at some point and has not left since. |
| RouterHistory.InvTableIsHistory | src/routing/inv_table.rs:24-37 | The table names p for an id if and only if the last announcement of the id by a then-registered peer came from p and p has not disconnected since. |
| RouterHistory.RequestGoesToAnnouncer | src/routing/router.rs:108-125 | A forwarded request goes to that last announcer, who is registered and not the requester; a registered peer's request is dropped only if there is no such peer. |
| RouterHistory.OutstandingIsHistory | src/routing/router.rs:108-143 | The outstanding flight of an id is the latest forward that neither another forward nor a response has followed. |
| RouterHistory.TrackersAreProjections | src/routing/tracker.rs:28-42 | In every run the request tracker holds id to requester exactly when the requester of the outstanding flight is registered, and the latency tracker holds id to target and time exactly when its target is. |
| RouterHistory.RequestsConserved | src/routing/router.rs:108-143 | Per id and over every run: requests forwarded equal responses delivered plus superseded plus dropped with their requester plus one if pending. |
| RouterHistory.DeliveryGoesToRequester | src/routing/router.rs:128-142 | A response is delivered if and only if its sender is registered and a registered peer waits for it, to the peer whose forwarded request is the latest unanswered one, with the data unchanged. |
| RouterHistory.LatencyIsHistory | src/routing/latency.rs:61-89 | In every run each latency entry is the moving average and the number of that peer's round-trip samples since it registered, and there are no other entries. |
| RouterHistory.RoundTripTime | src/routing/latency.rs:61-78 | In every run a response measures the time since the latest unanswered forward of the id, or zero if the clock went back; it becomes the newest sample of the peer asked, weighs 0.3 against 0.7 in its average, and changes no other entry. |
| RouterHistory.NothingMeasured | src/routing/latency.rs:61-63 | A response to no unanswered forward, or to one whose target has left, changes no latency entry. |
| RouterHistory.EmaOfTwo | src/routing/latency.rs:70-74 | One sample is its own average; a then b average to 0.3 b + 0.7 a. |
| RouterHistory.LatencyWithinSamples | src/routing/latency.rs:70-75 | In every run a peer's average lies between any bounds on its samples, of which there is at least one, and is not negative. |
| RouterHistory.EveryEntryMeasured | src/routing/latency.rs:93-114 | In every run all latency entries have a sample, so the statistics cover the whole map. |
| LatencyTrackers.LatencyTracker.Stats | src/routing/latency.rs:93-122 | None exactly when no peer has a sample; otherwise the number of measured peers, their attained minimum and maximum, and their mean, which lies between the two, whatever the iteration order. |
| LatencyTrackers.FastestPeer | src/routing/latency.rs:125-130 | None exactly when no candidate has data; otherwise a candidate with data that is minimal and strictly below every earlier one. |
| LatencyTrackers.LatencyTracker.RecordResponse | src/routing/latency.rs:61-78 | The timing is removed, the time since the request (zero if the clock went back) is returned, and the target's entry becomes that time, or 0.3 of it plus 0.7 of the old average, with one more sample. |
| LatencyTrackers.LatencyTracker.RecordRequest | src/routing/latency.rs:53-58 | The timing of the id is replaced and nothing else changes. |
| LatencyTrackers.LatencyTracker.PurgePeer | src/routing/latency.rs:86-89 | The peer's timings and entry are removed and nothing else changes. |
| InvTables.InvTable.Record | src/routing/inv_table.rs:24-26 | The id now names the peer; every other entry is as before. |
| InvTables.InvTable.PurgePeer | src/routing/inv_table.rs:32-37 | Exactly the entries naming the peer are removed. |
| Trackers.RequestTracker.Fulfill | src/routing/tracker.rs:36-38 | Returns the requester if there is one and removes exactly that entry. |
| Trackers.SyncTracker.Pair | src/routing/tracker.rs:58-64 | Both maps record the pair; an earlier pairing of the same inbound peer is not cleared. |
| Trackers.SyncTracker.PurgePeer | src/routing/tracker.rs:74-84 | The two removals in sequence, each with its partner's entry. |
| Relaying.ForwardingNeverGrows | src/routing/router.rs:77-206 | In any state, everything emitted for a message parsed from an accepted frame has a body no longer than that frame's, is accepted by `decode`, and parses to the emitted message. |
| Messages.MessageRoundTrip | src/protocol/messages.rs:44-97 | Parsing a printed message gives it back if and only if counts and data lengths are at most 262144 and no known code is carried as unknown. |
| WireLayout.ParsedIffMeans | src/protocol/messages.rs:44-139 | A frame parses to a message if and only if its code is that message's (1, 2, 22, 33, 55, 65 or any other) and its body is laid out as that message, field by field. |
| WireLayout.PrintedMeans | src/protocol/messages.rs:78-151 | The frame printed for a message that survives the wire means it, and no frame that does is shorter. |
| Messages.NormalForm | src/protocol/messages.rs:44-97 | Reprinting any accepted frame keeps code and message, never lengthens the body, and gives a fixed point. |
| Messages.InvRoundTrip | src/protocol/messages.rs:100-122 | A printed id list parses back if and only if it has at most 262144 ids. |
| Messages.ResponseRoundTrip | src/protocol/messages.rs:124-151 | A printed response parses back if and only if it has at most 262144 modifiers of at most 262144 bytes. |
| Messages.IdsIff | src/protocol/messages.rs:106-110 | Reading a list of ids succeeds with exactly the ids whose encoding stands at that position. |
| Messages.ParseInvBody | src/protocol/messages.rs:100-112 | The cursor loop returns what the positional parser returns, errors included. |
| Messages.EncodeInvBody | src/protocol/messages.rs:114-122 | The appending loop produces the specified body. |
| Messages.ParseModifierResponseBody | src/protocol/messages.rs:124-139 | The cursor loop returns what the positional parser returns, errors included. |
| Messages.EncodeModifierResponseBody | src/protocol/messages.rs:141-151 | The appending loop produces the specified body. |
| Messages.FromFrame | src/protocol/messages.rs:44-75 | Dispatch on the code agrees with the parsing function the round trips are about. |
| Messages.ToFrame | src/protocol/messages.rs:78-97 | Dispatch on the message agrees with the printing function the round trips are about. |
| Frames.DecodeIffEncoded | src/transport/frame.rs:28-85 | `decode` returns a frame if and only if its body is within 256 KiB and its encoding is a prefix of the input. |
| Frames.DecodeIffLaidOut | src/transport/frame.rs:39-85 | `decode` returns a frame if and only if magic, code, big-endian length of at most 262144, checksum and body stand at their byte positions; anything else is invalid data. |
| Frames.ReadIffLaidOut | src/transport/frame.rs:92-129 | The same at any position of a stream, with the position behind; input runs out exactly when the header, or the body of a header in order, is cut off. |
| Frames.ReadIffDecode | src/transport/frame.rs:92-129 | Reading at a position succeeds with a frame, consuming 13 plus the body length, if and only if decoding the rest does. |
| Frames.StreamRoundTrip | src/transport/frame.rs:92-143 | A stream of encoded frames is read back frame by frame, in order and to its end. |
| Frames.Encode | src/transport/frame.rs:28-37 | The bytes are magic, code, the length modulo 2^32 as four big-endian bytes, checksum and body, each at its position, and no more. |
| Frames.ReadFrame | src/transport/frame.rs:92-129 | The reader returns a frame if and only if one of at most 262144 bytes is laid out at its position, and stops right behind it. |
| Connections.StreamAligned | src/transport/connection.rs:118-138 | On a built handshake followed by any encoded frames, a first buffer yields the handshake if and only if it holds all of it; then exactly the frames are left and are read back in order. |
| Connections.WindowIndependent | src/transport/connection.rs:118-138 | For any stream, a first buffer that yields a handshake and any larger one yield the same specification and length. |
| Connections.ReadHandshake | src/transport/connection.rs:118-138 | The buffered read returns the specification and consumes exactly the measured bytes, or fails and consumes nothing. |
| HandshakeLaws.MeasuredIsParsed | src/transport/handshake.rs:292-333 | If a handshake can be measured, parsing gives all declared features, neither result depends on later bytes, and every shorter prefix runs out of input. |
| HandshakeLaws.TruncatedParse | src/transport/handshake.rs:151-253 | A truncated handshake parses if and only if the cut is behind the header, and then with the same header and a prefix of the features. |
| HandshakeLaws.SpecRoundTrip | src/transport/handshake.rs:52-181 | Any specification with short UTF-8 names, at most 255 features and bodies within the limit parses back in full and is measured to its exact length. |
| HandshakeLaws.BuildRoundTrip | src/transport/handshake.rs:52-108 | A built handshake parses to exactly its configuration if and only if both names are at most 255 bytes. |
| HandshakeLaws.BuiltHandshakeAccepted | src/transport/handshake.rs:260-288 | A built handshake, parsed, is recognised as a proxy, its session id decodes back, and it is accepted for a network if and only if the version is at least 4.0.100 and the network is the configured one. |
| HandshakeLaws.AcceptedIff | src/transport/handshake.rs:260-283 | For every specification and network: accepted if and only if 65536 major + 256 minor + patch is at least that of 4.0.100 and the first feature with id 3, if it has four bytes, starts with the literal magic. |
| HandshakeLaws.ProxyIff | src/transport/handshake.rs:286-288 | A peer is a proxy if and only if it has a feature with id 64. |
| WireLayout.MeasuredIffStands | src/transport/handshake.rs:292-333 | A handshake is measured to n bytes and parsed to a specification if and only if time, names, version bytes, address, count byte and exactly that many features stand in the first n bytes at their positions. |
| WireLayout.ParsedIffHeaderStands | src/transport/handshake.rs:151-253 | Parsing succeeds if and only if a header stands at the start, with that header and all features that stand behind it up to the count byte. |
| WireLayout.BuiltFields | src/transport/handshake.rs:52-132 | A built handshake parses to its configuration, with the time first and three features: id 16 with the literal mode bytes, id 3 with literal magic and ZigZag session id, id 64 with one byte. |
| HandshakeLaws.AcceptedMeansMatching | src/transport/handshake.rs:260-283 | Being accepted implies having sent the network's magic if and only if the peer sent a session feature of at least four bytes or is too old to be accepted at all. |
| HandshakeLaws.SessionlessAccepted | src/transport/handshake.rs:260-283 | A concrete handshake without a session feature that is parsed and accepted on both networks. |
| HandshakeLaws.FeatureLengthNeverBigEndian | src/transport/handshake.rs:92-105 | For no feature are the written bytes those with a 16-bit big-endian length. |
| Handshake.Build | src/transport/handshake.rs:52-108 | The appended bytes are the specified ones for the configuration, time and session id. |
| Handshake.ParseHandshake | src/transport/handshake.rs:151-181 | The cursor parser returns what the positional parser returns, errors included. |
| Handshake.ParseFeatures | src/transport/handshake.rs:230-253 | The lenient loop returns the features of the longest successful strict read. |
| Handshake.MeasureSize | src/transport/handshake.rs:292-333 | The strict walk returns the position behind the last declared feature, or the first error. |
| Handshake.ParseAddress | src/transport/handshake.rs:207-228 | Any address length is consumed with its port; only 4 and 16 bytes give an address. |
| Vlq.RoundTrip | src/transport/vlq.rs:16-56 | Every u64 is written in at most ten bytes and read back from them at any position with anything behind. |
| Vlq.ReadsExactlyCodes | src/transport/vlq.rs:40-56 | Reading succeeds exactly on one to ten bytes of which only the last lacks the continuation bit, consumes exactly them, and yields the sum of the seven-bit groups modulo 2^64. |
| Vlq.ReadErrors | src/transport/vlq.rs:40-56 | Reading is invalid exactly on ten bytes in a row with the continuation bit, and runs out of input exactly on fewer that all have it. |
| Bits.BitByBit | src/transport/vlq.rs:16-95 | The modelled or and exclusive or are those of the bits, at every position. |
| Vlq.OverflowRejectedIff | src/transport/vlq.rs:40-56 | On every code at every position: a number of more than 63 bits is an error if and only if there is no tenth byte or it is zero, and the number meant is read if and only if that byte is absent or at most one. |
| Vlq.OverflowReadAsZero | src/transport/vlq.rs:40-56 | The ten-byte code of 2^64 is read as zero. |
| Vlq.Shortest | src/transport/vlq.rs:16-56 | No accepted encoding of a value is shorter than the written one. |
| Vlq.PrefixFree | src/transport/vlq.rs:16-27 | No written number is a prefix of another. |
| Vlq.WriteVlq | src/transport/vlq.rs:16-27 | The shift-and-or loop appends the seven-bit groups of the value. |
| Vlq.ReadVlq | src/transport/vlq.rs:40-56 | The shift-and-or loop over 64-bit words returns the group sum cut to 64 bits, with the same errors. |
| Vlq.ReadVlqLength | src/transport/vlq.rs:64-73 | The same for lengths, with an error above 262144. |
| Vlq.ZigZagBijection | src/transport/vlq.rs:78-95 | At every width the bit expressions compute the numbering 0, -1, 1, -2, ... and are inverse to each other. |
| Vlq.ShortStringRoundTrip | src/transport/vlq.rs:104-121 | A written string is read back if and only if it is at most 255 bytes long. |
| Vlq.ShortStringErrors | src/transport/vlq.rs:114-121 | A string runs out of input exactly when it is cut off, and is invalid exactly when it is complete and not UTF-8. |
| Vlq.ReadShortString | src/transport/vlq.rs:114-121 | The reader returns the bytes of the declared length, or an error at the end of input or on invalid UTF-8. |

## Left out

- TCP, timeouts, channel capacities and back-pressure: I/O; a channel is an unbounded FIFO queue here.
- Accept loop and outbound manager beyond "a task with a fresh id starts": connection limits are checked before the handshake finishes, so they are no invariant.
- Wrap-around of the 64-bit id counter: ids are unbounded numbers.
- f64 rounding, and the f64 extremes that start the minimum and maximum in `stats`: latencies are exact reals.
- BLAKE2b, UTF-8 decoding, the clock and the random source: arbitrary functions or inputs.
- Reads that deliver the handshake in several pieces: the code parses only what the first read delivers, and so does the model.
- `parse_peer_entry` and the contents of Peers messages: the router neither reads nor writes them.
- The lifecycle object in src/protocol/peer.rs: the running proxy does not use it.
- Configuration loading, logging, round-robin database export, dashboard, packaging: no protocol behaviour.
- Fairness: what can happen is proved from every reachable state, not that a scheduler lets it happen; an action for a peer without a sender is dropped by design.
