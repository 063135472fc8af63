/** Routing as a state machine over single-item operations (src/routing/router.rs).

    `handle_event` works through a message item by item: one announcement, one request or one
    response at a time. An event is therefore the sequence of operations `Operations(...)`, and
    handling it is running that sequence. Two things the code leaves open are inputs: the order
    in which a `HashMap` is iterated, and the readings of the clock. */
module RouterMachine {
  import opened Types
  import opened Messages
  import opened Tables

  datatype Action = Send(target: PeerId, message: ProtocolMessage)

  datatype Event =
    | PeerConnected(peer: PeerId, direction: Direction)
    | PeerDisconnected(peer: PeerId)
    | Message(peer: PeerId, message: ProtocolMessage)

  datatype PeerEntry = PeerEntry(direction: Direction, mode: ProxyMode)

  datatype RouterState = RouterState(
    peers: map<PeerId, PeerEntry>,
    inv: map<ModifierId, PeerId>,
    requests: map<ModifierId, PeerId>,
    sync: SyncPairs,
    latency: Latencies)

  const EMPTY: RouterState := RouterState(map[], map[], map[], SyncPairs(map[], map[]), Latencies(map[], map[]))

  datatype Op =
    | Join(peer: PeerId, direction: Direction, mode: ProxyMode)
    | Leave(peer: PeerId)
    | Announce(peer: PeerId, id: ModifierId)
    | Relay(peer: PeerId, message: ProtocolMessage, order: seq<PeerId>)
    | Ask(peer: PeerId, modifierType: byte, id: ModifierId, now: real)
    | Answer(peer: PeerId, modifierType: byte, id: ModifierId, data: Bytes, now: real)
    | Sync(peer: PeerId, body: Bytes, order: seq<PeerId>)
    | AskPeers(peer: PeerId)

  /** `order` lists every key once: one possible iteration order of a HashMap with these keys. */
  ghost predicate Enumerates(order: seq<PeerId>, keys: set<PeerId>) {
    multiset(order) == multiset(keys)
  }

  function Opposite(d: Direction): Direction {
    match d
    case Outbound => Inbound
    case Inbound => Outbound
  }

  /** The filter of the Inv and Unknown fan-out. */
  predicate Hears(peers: map<PeerId, PeerEntry>, source: PeerId, pid: PeerId) {
    && source in peers
    && pid in peers
    && pid != source
    && peers[pid].direction == Opposite(peers[source].direction)
  }

  function FanOut(peers: map<PeerId, PeerEntry>, source: PeerId, message: ProtocolMessage, order: seq<PeerId>): seq<Action> {
    if order == [] then []
    else
      (if Hears(peers, source, order[0]) then [Send(order[0], message)] else [])
      + FanOut(peers, source, message, order[1..])
  }

  /** The filter of `find` for an inbound SyncInfo: an outbound peer nobody is paired with. */
  predicate IsFree(s: RouterState, pid: PeerId) {
    pid in s.peers && s.peers[pid].direction == Outbound && pid !in s.sync.inboundFor
  }

  function FindFree(s: RouterState, order: seq<PeerId>): Option<PeerId> {
    if order == [] then None
    else if IsFree(s, order[0]) then Some(order[0])
    else FindFree(s, order[1..])
  }

  /** A peer for whose SyncInfo a partner is looked for. */
  predicate IsFullInbound(s: RouterState, p: PeerId) {
    p in s.peers && s.peers[p] == PeerEntry(Inbound, Full)
  }

  /** A peer whose SyncInfo goes back to its recorded partner. */
  predicate IsFullOutbound(s: RouterState, p: PeerId) {
    p in s.peers && s.peers[p] == PeerEntry(Outbound, Full)
  }

  /** A request is forwarded when somebody else announced the modifier. */
  predicate Forwards(s: RouterState, p: PeerId, id: ModifierId) {
    p in s.peers && id in s.inv && s.inv[id] != p
  }

  function StepState(s: RouterState, op: Op): RouterState {
    match op
    case Join(p, direction, mode) => s.(peers := s.peers[p := PeerEntry(direction, mode)])
    case Leave(p) =>
      RouterState(
        s.peers - {p},
        WithoutPeer(s.inv, p),
        WithoutPeer(s.requests, p),
        s.sync.Purge(p),
        s.latency.Purge(p))
    case Announce(p, id) => if p in s.peers then s.(inv := s.inv[id := p]) else s
    case Ask(p, _, id, now) =>
      if Forwards(s, p, id) then
        s.(requests := s.requests[id := p], latency := s.latency.RecordRequest(id, s.inv[id], now))
      else s
    case Answer(p, _, id, _, now) =>
      if p in s.peers then
        s.(requests := s.requests - {id}, latency := s.latency.RecordResponse(id, now))
      else s
    case Sync(p, _, order) =>
      if IsFullInbound(s, p) && FindFree(s, order).Some? then
        s.(sync := s.sync.Pair(p, FindFree(s, order).value))
      else s
    case Relay(_, _, _) => s
    case AskPeers(_) => s
  }

  function StepActions(s: RouterState, op: Op): seq<Action> {
    match op
    case Join(_, _, _) => []
    case Leave(_) => []
    case Announce(_, _) => []
    case Relay(p, message, order) => FanOut(s.peers, p, message, order)
    case Ask(p, modifierType, id, _) =>
      if Forwards(s, p, id) then [Send(s.inv[id], ModifierRequest(modifierType, [id]))] else []
    case Answer(p, modifierType, id, data, _) =>
      if p in s.peers && id in s.requests then
        [Send(s.requests[id], ModifierResponse(modifierType, [(id, data)]))]
      else []
    case Sync(p, body, order) =>
      if IsFullInbound(s, p) && FindFree(s, order).Some? then
        [Send(FindFree(s, order).value, SyncInfo(body))]
      else if IsFullOutbound(s, p) && p in s.sync.inboundFor then
        [Send(s.sync.inboundFor[p], SyncInfo(body))]
      else []
    case AskPeers(p) => if p in s.peers then [Send(p, Peers([]))] else []
  }

  function Run(s: RouterState, ops: seq<Op>): RouterState {
    if ops == [] then s else StepState(Run(s, ops[..|ops| - 1]), ops[|ops| - 1])
  }

  function Emitted(s: RouterState, ops: seq<Op>): seq<Action> {
    if ops == [] then []
    else Emitted(s, ops[..|ops| - 1]) + StepActions(Run(s, ops[..|ops| - 1]), ops[|ops| - 1])
  }

  /** The operations an event amounts to. `clock(k)` is the clock at the k-th item. */
  function Operations(e: Event, order: seq<PeerId>, clock: nat -> real): seq<Op> {
    match e
    case PeerConnected(_, _) => []
    case PeerDisconnected(p) => [Leave(p)]
    case Message(p, m) =>
      match m
      case Inv(_, ids) => seq(|ids|, i requires 0 <= i < |ids| => Announce(p, ids[i])) + [Relay(p, m, order)]
      case ModifierRequest(t, ids) => seq(|ids|, i requires 0 <= i < |ids| => Ask(p, t, ids[i], clock(i)))
      case ModifierResponse(t, mods) =>
        seq(|mods|, i requires 0 <= i < |mods| => Answer(p, t, mods[i].0, mods[i].1, clock(i)))
      case SyncInfo(body) => [Sync(p, body, order)]
      case GetPeers => [AskPeers(p)]
      case Peers(_) => []
      case Unknown(_, _) => [Relay(p, m, order)]
  }
}
