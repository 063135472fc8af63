/** src/routing/tracker.rs. */
module Trackers {
  import opened Types
  import opened Tables

  class RequestTracker {
    var pending: map<ModifierId, PeerId>

    constructor ()
      ensures pending == map[]
    {
      pending := map[];
    }

    method Record(id: ModifierId, requester: PeerId)
      modifies this
      ensures pending == old(pending)[id := requester]
    {
      pending := pending[id := requester];
    }

    method Fulfill(id: ModifierId) returns (requester: Option<PeerId>)
      modifies this
      ensures requester == if id in old(pending) then Some(old(pending)[id]) else None
      ensures pending == old(pending) - {id}
    {
      requester := if id in pending then Some(pending[id]) else None;
      pending := pending - {id};
    }

    method PurgePeer(peer: PeerId)
      modifies this
      ensures pending == WithoutPeer(old(pending), peer)
    {
      pending := map id | id in pending && pending[id] != peer :: pending[id];
    }
  }

  class SyncTracker {
    var outboundFor: map<PeerId, PeerId>
    var inboundFor: map<PeerId, PeerId>

    function Pairs(): SyncPairs
      reads this
    {
      SyncPairs(outboundFor, inboundFor)
    }

    constructor ()
      ensures Pairs() == SyncPairs(map[], map[])
    {
      outboundFor, inboundFor := map[], map[];
    }

    /** The debug-only consistency check of `pair` and `purge_peer` is not compiled into a
        release build and is not modelled. */
    method Pair(inbound: PeerId, outbound: PeerId)
      modifies this
      ensures Pairs() == old(Pairs()).Pair(inbound, outbound)
    {
      outboundFor := outboundFor[inbound := outbound];
      inboundFor := inboundFor[outbound := inbound];
    }

    method PurgePeer(peer: PeerId)
      modifies this
      ensures Pairs() == old(Pairs()).Purge(peer)
    {
      if peer in outboundFor {
        var outbound := outboundFor[peer];
        outboundFor := outboundFor - {peer};
        inboundFor := inboundFor - {outbound};
      }
      if peer in inboundFor {
        var inbound := inboundFor[peer];
        inboundFor := inboundFor - {peer};
        outboundFor := outboundFor - {inbound};
      }
    }
  }
}
