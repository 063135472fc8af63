/** The contents of the routing tables as values, with one function per table operation.
    The table classes are proved against these functions, and the run theorems are about them. */
module Tables {
  import opened Types

  /** Weight of a new sample in the exponential moving average (exact, where the code has f64). */
  const EMA_ALPHA: real := 0.3

  /** `retain(|_, p| *p != peer)`. */
  function WithoutPeer(m: map<ModifierId, PeerId>, peer: PeerId): map<ModifierId, PeerId> {
    map id | id in m && m[id] != peer :: m[id]
  }

  /** The two maps of the sync tracker. */
  datatype SyncPairs = SyncPairs(outboundFor: map<PeerId, PeerId>, inboundFor: map<PeerId, PeerId>) {

    function Pair(inbound: PeerId, outbound: PeerId): SyncPairs {
      SyncPairs(outboundFor[inbound := outbound], inboundFor[outbound := inbound])
    }

    /** Two removals in sequence, each taking the partner's entry out of the other map. */
    function Purge(peer: PeerId): SyncPairs {
      var afterInbound :=
        if peer in outboundFor then SyncPairs(outboundFor - {peer}, inboundFor - {outboundFor[peer]})
        else this;
      if peer in afterInbound.inboundFor then
        SyncPairs(afterInbound.outboundFor - {afterInbound.inboundFor[peer]}, afterInbound.inboundFor - {peer})
      else afterInbound
    }
  }

  datatype Timing = Timing(target: PeerId, sentAt: real)

  datatype PeerLatency = PeerLatency(ema: real, sampleCount: nat) {
    /** The entry after one more sample. */
    function Sampled(rtt: real): PeerLatency {
      PeerLatency(if sampleCount == 0 then rtt else EMA_ALPHA * rtt + (1.0 - EMA_ALPHA) * ema, sampleCount + 1)
    }
  }

  /** `Instant::elapsed`, which saturates at zero. */
  function Elapsed(sentAt: real, now: real): real {
    if now > sentAt then now - sentAt else 0.0
  }

  datatype Latencies = Latencies(pending: map<ModifierId, Timing>, peers: map<PeerId, PeerLatency>) {

    function RecordRequest(id: ModifierId, target: PeerId, now: real): Latencies {
      this.(pending := pending[id := Timing(target, now)])
    }

    function RecordResponse(id: ModifierId, now: real): Latencies {
      if id !in pending then this
      else
        var target := pending[id].target;
        var rtt := Elapsed(pending[id].sentAt, now);
        var entry := if target in peers then peers[target] else PeerLatency(rtt, 0);
        Latencies(pending - {id}, peers[target := entry.Sampled(rtt)])
    }

    function Purge(peer: PeerId): Latencies {
      Latencies(map id | id in pending && pending[id].target != peer :: pending[id], peers - {peer})
    }
  }
}
