/** The router object of src/routing/router.rs, proved against the routing machine. */
module Routers {
  import opened Types
  import opened Messages
  import opened Tables
  import opened RouterMachine
  import opened RouterEffects
  import opened InvTables
  import opened Trackers
  import opened LatencyTrackers

  /** One iteration order of a HashMap with the given keys; nothing else is known about it. */
  method IterationOrder(keys: set<PeerId>) returns (order: seq<PeerId>)
    ensures Enumerates(order, keys)
  {
    order := [];
    var todo := keys;
    while todo != {}
      invariant todo <= keys
      invariant multiset(order) == multiset(keys - todo)
      decreases todo
    {
      var p :| p in todo;
      assert keys - (todo - {p}) == keys - todo + {p};
      order := order + [p];
      todo := todo - {p};
    }
    assert keys - todo == keys;
  }

  lemma RunNext(s: RouterState, ops: seq<Op>, k: nat)
    requires k < |ops|
    ensures Run(s, ops[..k + 1]) == StepState(Run(s, ops[..k]), ops[k])
    ensures Emitted(s, ops[..k + 1]) == Emitted(s, ops[..k]) + StepActions(Run(s, ops[..k]), ops[k])
  {
    assert ops[..k + 1][..k] == ops[..k];
  }

  class Router {
    var peers: map<PeerId, PeerEntry>
    const invTable: InvTable
    const requestTracker: RequestTracker
    const syncTracker: SyncTracker
    const latencyTracker: LatencyTracker

    function State(): RouterState
      reads this, invTable, requestTracker, syncTracker, latencyTracker
    {
      RouterState(peers, invTable.entries, requestTracker.pending, syncTracker.Pairs(), latencyTracker.Contents())
    }

    constructor ()
      ensures State() == EMPTY
      ensures fresh(invTable) && fresh(requestTracker) && fresh(syncTracker) && fresh(latencyTracker)
    {
      peers := map[];
      invTable := new InvTable();
      requestTracker := new RequestTracker();
      syncTracker := new SyncTracker();
      latencyTracker := new LatencyTracker();
    }

    method RegisterPeer(peer: PeerId, direction: Direction, mode: ProxyMode)
      modifies this
      ensures State() == StepState(old(State()), Join(peer, direction, mode))
      ensures State() == old(State()).(peers := old(peers)[peer := PeerEntry(direction, mode)])
    {
      peers := peers[peer := PeerEntry(direction, mode)];
    }

    method HandleEvent(event: Event, clock: nat -> real) returns (actions: seq<Action>, ghost order: seq<PeerId>)
      modifies this, invTable, requestTracker, syncTracker, latencyTracker
      ensures Enumerates(order, old(peers).Keys)
      ensures State() == Run(old(State()), Operations(event, order, clock))
      ensures actions == Emitted(old(State()), Operations(event, order, clock))
      ensures Handled(old(State()), event, clock, State(), actions)
    {
      hide Handled;
      ghost var s0 := State();
      match event {
        case PeerConnected(_, _) =>
          order := IterationOrder(peers.Keys);
          actions := [];
        case PeerDisconnected(p) =>
          order := IterationOrder(peers.Keys);
          RunSingle(State(), Leave(p));
          invTable.PurgePeer(p);
          requestTracker.PurgePeer(p);
          syncTracker.PurgePeer(p);
          latencyTracker.PurgePeer(p);
          peers := peers - {p};
          actions := [];
        case Message(p, m) =>
          actions, order := RouteMessage(p, m, clock);
      }
      EventHandled(s0, event, order, clock);
    }

    method RouteMessage(source: PeerId, message: ProtocolMessage, clock: nat -> real)
      returns (actions: seq<Action>, ghost order: seq<PeerId>)
      modifies this, invTable, requestTracker, syncTracker, latencyTracker
      ensures Enumerates(order, old(peers).Keys)
      ensures State() == Run(old(State()), Operations(Message(source, message), order, clock))
      ensures actions == Emitted(old(State()), Operations(Message(source, message), order, clock))
      ensures Handled(old(State()), Message(source, message), clock, State(), actions)
    {
      hide Handled, Run, Emitted;
      var iteration := IterationOrder(peers.Keys);
      order := iteration;
      EventHandled(State(), Message(source, message), order, clock);
      if source !in peers {
        MessageIgnored(State(), source, message, order, clock);
        return [], order;
      }
      match message
      case Inv(_, _) => actions := RouteInv(source, message, iteration, clock);
      case ModifierRequest(_, _) => actions := RouteRequest(source, message, iteration, clock);
      case ModifierResponse(_, _) => actions := RouteResponse(source, message, iteration, clock);
      case SyncInfo(_) => actions := RouteSyncInfo(source, message, iteration, clock);
      case GetPeers =>
        RunSingle(State(), AskPeers(source));
        actions := [Send(source, Peers([]))];
      case Peers(_) =>
        RunNothing(State());
        actions := [];
      case Unknown(_, _) =>
        RunSingle(State(), Relay(source, message, iteration));
        actions := FanOut(peers, source, message, iteration);
    }

    method RouteInv(source: PeerId, message: ProtocolMessage, iteration: seq<PeerId>, ghost clock: nat -> real)
      returns (actions: seq<Action>)
      requires message.Inv? && source in peers
      modifies invTable
      ensures State() == Run(old(State()), Operations(Message(source, message), iteration, clock))
      ensures actions == Emitted(old(State()), Operations(Message(source, message), iteration, clock))
      ensures Enumerates(iteration, old(peers).Keys) ==>
                Announced(old(State()), source, message.ids, State()) && Reaches(old(peers), source, message, actions)
    {
      hide Announced, Reaches, Run, Emitted;
      if Enumerates(iteration, peers.Keys) {
        InvEffect(State(), source, message.modifierType, message.ids, iteration, clock);
      }
      var ids := message.ids;
      ghost var s0, ops := State(), Operations(Message(source, message), iteration, clock);
      RunNothing(s0);
      assert ops[..0] == [];
      for k := 0 to |ids|
        invariant State() == Run(s0, ops[..k]) && Emitted(s0, ops[..k]) == []
      {
        RunNext(s0, ops, k);
        invTable.Record(ids[k], source);
      }
      RunNext(s0, ops, |ids|);
      assert ops[..|ids| + 1] == ops;
      actions := FanOut(peers, source, message, iteration);
    }

    method RouteRequest(source: PeerId, message: ProtocolMessage, ghost iteration: seq<PeerId>, clock: nat -> real)
      returns (actions: seq<Action>)
      requires message.ModifierRequest? && source in peers
      modifies requestTracker, latencyTracker
      ensures State() == Run(old(State()), Operations(Message(source, message), iteration, clock))
      ensures actions == Emitted(old(State()), Operations(Message(source, message), iteration, clock))
      ensures Requested(old(State()), source, message.ids, clock, State())
      ensures exists ks: seq<nat> :: RequestSends(old(State()), source, message.modifierType, message.ids, ks, actions)
    {
      hide Requested, RequestSends, Run, Emitted;
      RequestEffect(State(), source, message.modifierType, message.ids, iteration, clock);
      var ids := message.ids;
      ghost var s0, ops := State(), Operations(Message(source, message), iteration, clock);
      actions := [];
      RunNothing(s0);
      assert ops[..0] == [];
      for k := 0 to |ids|
        invariant State() == Run(s0, ops[..k]) && actions == Emitted(s0, ops[..k])
      {
        RunNext(s0, ops, k);
        var announcer := invTable.Lookup(ids[k]);
        if announcer.Some? && announcer.value != source {
          requestTracker.Record(ids[k], source);
          latencyTracker.RecordRequest(ids[k], announcer.value, clock(k));
          actions := actions + [Send(announcer.value, ModifierRequest(message.modifierType, [ids[k]]))];
        }
      }
      assert ops[..|ids|] == ops;
    }

    method RouteResponse(source: PeerId, message: ProtocolMessage, ghost iteration: seq<PeerId>, clock: nat -> real)
      returns (actions: seq<Action>)
      requires message.ModifierResponse? && source in peers
      modifies requestTracker, latencyTracker
      ensures State() == Run(old(State()), Operations(Message(source, message), iteration, clock))
      ensures actions == Emitted(old(State()), Operations(Message(source, message), iteration, clock))
      ensures Settled(old(State()), message.modifiers, State())
      ensures AllMeasured(old(State()), message.modifiers, clock, State().latency.peers)
      ensures exists ks: seq<nat> :: ResponseSends(old(State()), message.modifierType, message.modifiers, ks, actions)
    {
      hide Settled, AllMeasured, ResponseSends, Run, Emitted;
      ResponseEffect(State(), source, message.modifierType, message.modifiers, iteration, clock);
      var mods := message.modifiers;
      ghost var s0, ops := State(), Operations(Message(source, message), iteration, clock);
      actions := [];
      RunNothing(s0);
      assert ops[..0] == [];
      for k := 0 to |mods|
        invariant State() == Run(s0, ops[..k]) && actions == Emitted(s0, ops[..k])
      {
        RunNext(s0, ops, k);
        var (id, data) := mods[k];
        var _ := latencyTracker.RecordResponse(id, clock(k));
        var requester := requestTracker.Fulfill(id);
        if requester.Some? {
          actions := actions + [Send(requester.value, ModifierResponse(message.modifierType, [(id, data)]))];
        }
      }
      assert ops[..|mods|] == ops;
    }

    method RouteSyncInfo(source: PeerId, message: ProtocolMessage, iteration: seq<PeerId>, ghost clock: nat -> real)
      returns (actions: seq<Action>)
      requires message.SyncInfo? && source in peers
      modifies syncTracker
      ensures State() == Run(old(State()), Operations(Message(source, message), iteration, clock))
      ensures actions == Emitted(old(State()), Operations(Message(source, message), iteration, clock))
      ensures Enumerates(iteration, old(peers).Keys) ==>
                SyncHandled(old(State()), source, message.body, State(), actions)
    {
      hide SyncHandled, Run, Emitted, FindFree;
      if Enumerates(iteration, peers.Keys) {
        SyncEffect(State(), source, message.body, iteration);
      }
      RunSingle(State(), Sync(source, message.body, iteration));
      actions := [];
      if peers[source].mode == Light {
        return;
      }
      if peers[source].direction == Inbound {
        var found := FindPartner(iteration);
        if found.Some? {
          syncTracker.Pair(source, found.value);
          actions := [Send(found.value, message)];
        }
      } else if source in syncTracker.inboundFor {
        actions := [Send(syncTracker.inboundFor[source], message)];
      }
    }

    /** An outbound peer that nobody is paired with. */
    predicate Free(p: PeerId)
      reads this, syncTracker
    {
      p in peers && peers[p].direction == Outbound && p !in syncTracker.inboundFor
    }

    /** `find` over the registry: the first outbound peer in iteration order without a partner. */
    method FindPartner(order: seq<PeerId>) returns (r: Option<PeerId>)
      ensures r == FindFree(State(), order)
      ensures match r
              case None => forall k :: 0 <= k < |order| ==> !Free(order[k])
              case Some(o) =>
                exists k :: 0 <= k < |order| && order[k] == o && Free(o) && forall j :: 0 <= j < k ==> !Free(order[j])
    {
      for k := 0 to |order|
        invariant FindFree(State(), order) == FindFree(State(), order[k..])
        invariant forall j :: 0 <= j < k ==> !Free(order[j])
      {
        if order[k] in peers && peers[order[k]].direction == Outbound && order[k] !in syncTracker.inboundFor {
          return Some(order[k]);
        }
        assert order[k..][1..] == order[k + 1..];
      }
      r := None;
    }
  }
}
