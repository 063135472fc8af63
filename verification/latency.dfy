/** src/routing/latency.rs, with exact reals for f64 and the clock as an argument. */
module LatencyTrackers {
  import opened Types
  import opened Tables

  datatype LatencyStats = LatencyStats(min: real, avg: real, max: real, peerCount: nat)

  /** The peers with at least one sample. */
  function Measured(peers: map<PeerId, PeerLatency>): set<PeerId> {
    set p | p in peers && peers[p].sampleCount > 0
  }

  ghost function SumEma(peers: map<PeerId, PeerLatency>, ps: set<PeerId>): real
    requires ps <= peers.Keys
  {
    if ps == {} then 0.0
    else
      var p :| p in ps;
      peers[p].ema + SumEma(peers, ps - {p})
  }

  /** The sum does not depend on the order in which the map is walked. */
  lemma {:induction false} SumEmaRemove(peers: map<PeerId, PeerLatency>, ps: set<PeerId>, q: PeerId)
    requires q in ps && ps <= peers.Keys
    ensures SumEma(peers, ps) == peers[q].ema + SumEma(peers, ps - {q})
    decreases ps
  {
    var p :| p in ps && SumEma(peers, ps) == peers[p].ema + SumEma(peers, ps - {p});
    if p != q {
      SumEmaRemove(peers, ps - {p}, q);
      SumEmaRemove(peers, ps - {q}, p);
      assert ps - {p} - {q} == ps - {q} - {p};
    }
  }

  /** `k` is the first candidate that no other candidate with data beats. */
  ghost predicate IsFastest(peers: map<PeerId, PeerLatency>, candidates: seq<PeerId>, k: nat) {
    && k < |candidates|
    && candidates[k] in peers
    && forall j :: 0 <= j < |candidates| && candidates[j] in peers ==>
         && peers[candidates[k]].ema <= peers[candidates[j]].ema
         && (j < k ==> peers[candidates[k]].ema < peers[candidates[j]].ema)
  }

  /** `filter_map` to the candidates with data, then `min_by`, which keeps the earlier of two
      equal elements. */
  function FastestPeer(peers: map<PeerId, PeerLatency>, candidates: seq<PeerId>): (r: Option<PeerId>)
    ensures r.None? <==> forall p :: p in candidates ==> p !in peers
    ensures r.Some? ==> exists k: nat :: IsFastest(peers, candidates, k) && candidates[k] == r.value
  {
    if candidates == [] then None
    else
      var init, last := candidates[..|candidates| - 1], candidates[|candidates| - 1];
      var best := FastestPeer(peers, init);
      assert candidates == init + [last];
      if last in peers && (best.None? || peers[last].ema < peers[best.value].ema) then
        assert IsFastest(peers, candidates, |candidates| - 1) by {
          assert forall j :: 0 <= j < |init| ==> init[j] == candidates[j];
        }
        Some(last)
      else
        assert best.Some? ==>
            forall k: nat :: IsFastest(peers, init, k) && init[k] == best.value ==> IsFastest(peers, candidates, k);
        best
  }

  /** Number, minimum, maximum and mean of the averages of the peers `ps`. */
  ghost predicate Describes(stats: LatencyStats, peers: map<PeerId, PeerLatency>, ps: set<PeerId>)
    requires ps <= peers.Keys && ps != {}
  {
    && stats.peerCount == |ps|
    && IsMin(peers, ps, stats.min)
    && IsMax(peers, ps, stats.max)
    && stats.avg == SumEma(peers, ps) / |ps| as real
    && stats.min <= stats.avg <= stats.max
  }

  /** The running values after the peers `ps`. */
  ghost predicate Summary(
    peers: map<PeerId, PeerLatency>, ps: set<PeerId>, min: real, max: real, sum: real, count: nat)
    requires ps <= peers.Keys
  {
    && count == |ps|
    && sum == SumEma(peers, ps)
    && (ps != {} ==> IsMin(peers, ps, min) && IsMax(peers, ps, max))
  }

  lemma SummaryStart(peers: map<PeerId, PeerLatency>)
    ensures Summary(peers, Measured(peers) - peers.Keys, 0.0, 0.0, 0.0, 0)
  {
    assert Measured(peers) - peers.Keys == {};
  }

  lemma SummaryNext(
    peers: map<PeerId, PeerLatency>, ps: set<PeerId>, p: PeerId, min: real, max: real, sum: real, count: nat)
    requires ps <= peers.Keys && p in peers && p !in ps && Summary(peers, ps, min, max, sum, count)
    ensures var x := peers[p].ema;
            Summary(
              peers, ps + {p},
              if count == 0 || x < min then x else min,
              if count == 0 || x > max then x else max,
              sum + x, count + 1)
  {
    Widen(peers, ps, p, min, max);
  }

  lemma SummaryEnd(
    peers: map<PeerId, PeerLatency>, ps: set<PeerId>, min: real, max: real, sum: real, count: nat)
    requires ps <= peers.Keys && Summary(peers, ps, min, max, sum, count)
    ensures count == 0 <==> ps == {}
    ensures count > 0 ==> Describes(LatencyStats(min, sum / count as real, max, count), peers, ps)
  {
    if count > 0 {
      SumBetween(peers, ps, min, max);
      MeanBetween(sum, count, min, max);
    }
  }

  ghost predicate IsMin(peers: map<PeerId, PeerLatency>, ps: set<PeerId>, x: real)
    requires ps <= peers.Keys
  {
    (exists p :: p in ps && peers[p].ema == x) && forall p :: p in ps ==> x <= peers[p].ema
  }

  ghost predicate IsMax(peers: map<PeerId, PeerLatency>, ps: set<PeerId>, x: real)
    requires ps <= peers.Keys
  {
    (exists p :: p in ps && peers[p].ema == x) && forall p :: p in ps ==> x >= peers[p].ema
  }

  function Times(n: nat, x: real): real {
    if n == 0 then 0.0 else Times(n - 1, x) + x
  }

  lemma {:induction false} TimesIsProduct(n: nat, x: real)
    ensures Times(n, x) == n as real * x
  {
    if n > 0 {
      TimesIsProduct(n - 1, x);
      var m := (n - 1) as real;
      assert n as real == m + 1.0;
      assert (m + 1.0) * x == m * x + x;
    }
  }

  lemma {:induction false} SumBetween(peers: map<PeerId, PeerLatency>, ps: set<PeerId>, lo: real, hi: real)
    requires ps <= peers.Keys && forall p :: p in ps ==> lo <= peers[p].ema <= hi
    ensures Times(|ps|, lo) <= SumEma(peers, ps) <= Times(|ps|, hi)
    decreases ps
  {
    if ps != {} {
      var p :| p in ps;
      SumEmaRemove(peers, ps, p);
      SumBetween(peers, ps - {p}, lo, hi);
    }
  }

  lemma VisitNext(peers: map<PeerId, PeerLatency>, todo: set<PeerId>, p: PeerId)
    requires p in todo && p in peers
    ensures p !in Measured(peers) - todo
    ensures Measured(peers) - (todo - {p}) ==
            Measured(peers) - todo + if peers[p].sampleCount > 0 then {p} else {}
  {
  }

  /** One more measured peer. */
  lemma Widen(peers: map<PeerId, PeerLatency>, ps: set<PeerId>, p: PeerId, min: real, max: real)
    requires ps <= peers.Keys && p in peers && p !in ps
    requires ps != {} ==> IsMin(peers, ps, min) && IsMax(peers, ps, max)
    ensures var x := peers[p].ema;
            && IsMin(peers, ps + {p}, if ps == {} || x < min then x else min)
            && IsMax(peers, ps + {p}, if ps == {} || x > max then x else max)
    ensures SumEma(peers, ps + {p}) == SumEma(peers, ps) + peers[p].ema
  {
    assert p in ps + {p};
    forall q | q in ps
      ensures q in ps + {p}
    {
    }
    assert ps + {p} - {p} == ps;
    SumEmaRemove(peers, ps + {p}, p);
  }

  lemma MeanBetween(sum: real, count: nat, lo: real, hi: real)
    requires count > 0 && Times(count, lo) <= sum <= Times(count, hi)
    ensures lo <= sum / count as real <= hi
  {
    TimesIsProduct(count, lo);
    TimesIsProduct(count, hi);
    QuotientBetween(sum, count as real, lo, hi);
  }

  lemma QuotientBetween(sum: real, c: real, lo: real, hi: real)
    requires c > 0.0 && c * lo <= sum <= c * hi
    ensures lo <= sum / c <= hi
  {
    var q := sum / c;
    assert c * q == sum;
    assert c * (lo - q) <= 0.0;
    assert c * (q - hi) <= 0.0;
  }

  class LatencyTracker {
    var pending: map<ModifierId, Timing>
    var peers: map<PeerId, PeerLatency>

    function Contents(): Latencies
      reads this
    {
      Latencies(pending, peers)
    }

    constructor ()
      ensures Contents() == Latencies(map[], map[])
    {
      pending, peers := map[], map[];
    }

    method RecordRequest(id: ModifierId, target: PeerId, now: real)
      modifies this
      ensures Contents() == old(Contents()).RecordRequest(id, target, now)
    {
      pending := pending[id := Timing(target, now)];
    }

    method RecordResponse(id: ModifierId, now: real) returns (rtt: Option<real>)
      modifies this
      ensures Contents() == old(Contents()).RecordResponse(id, now)
      ensures rtt ==
              if id !in old(pending) then None
              else if old(pending)[id].sentAt <= now then Some(now - old(pending)[id].sentAt) else Some(0.0)
      ensures pending == old(pending) - {id}
      ensures id !in old(pending) ==> peers == old(peers)
      ensures id in old(pending) ==>
                var p := old(pending)[id].target;
                peers == old(peers)[p :=
                  if p !in old(peers) then PeerLatency(rtt.value, 1)
                  else if old(peers)[p].sampleCount == 0 then PeerLatency(rtt.value, 1)
                  else PeerLatency(0.3 * rtt.value + 0.7 * old(peers)[p].ema, old(peers)[p].sampleCount + 1)]
    {
      if id !in pending {
        return None;
      }
      var timing := pending[id];
      pending := pending - {id};
      var rttMs := Elapsed(timing.sentAt, now);
      if timing.target !in peers {
        peers := peers[timing.target := PeerLatency(rttMs, 0)];
      }
      var entry := peers[timing.target];
      if entry.sampleCount == 0 {
        entry := entry.(ema := rttMs);
      } else {
        entry := entry.(ema := EMA_ALPHA * rttMs + (1.0 - EMA_ALPHA) * entry.ema);
      }
      entry := entry.(sampleCount := entry.sampleCount + 1);
      peers := peers[timing.target := entry];
      rtt := Some(rttMs);
    }

    method PurgePeer(peer: PeerId)
      modifies this
      ensures Contents() == old(Contents()).Purge(peer)
    {
      pending := map id | id in pending && pending[id].target != peer :: pending[id];
      peers := peers - {peer};
    }

    /** Minimum, mean and maximum over the measured peers, whatever the iteration order. */
    method Stats() returns (r: Option<LatencyStats>)
      ensures r.None? <==> Measured(peers) == {}
      ensures r.Some? ==> Describes(r.value, peers, Measured(peers))
    {
      hide Summary, Describes;
      var entries := peers;
      var todo := entries.Keys;
      var min, max, sum, count := 0.0, 0.0, 0.0, 0;
      SummaryStart(entries);
      while todo != {}
        invariant todo <= entries.Keys
        invariant Summary(entries, Measured(entries) - todo, min, max, sum, count)
        decreases todo
      {
        var p :| p in todo;
        VisitNext(entries, todo, p);
        ghost var seen := Measured(entries) - todo;
        todo := todo - {p};
        var entry := entries[p];
        if entry.sampleCount > 0 {
          SummaryNext(entries, seen, p, min, max, sum, count);
          if count == 0 || entry.ema < min { min := entry.ema; }
          if count == 0 || entry.ema > max { max := entry.ema; }
          sum := sum + entry.ema;
          count := count + 1;
        }
      }
      assert Measured(entries) - todo == Measured(entries);
      SummaryEnd(entries, Measured(entries), min, max, sum, count);
      if count == 0 {
        return None;
      }
      r := Some(LatencyStats(min, sum / count as real, max, count));
    }
  }
}
