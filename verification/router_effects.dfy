/** What handling each kind of event does to the tables and what it sends, said directly: which
    entries change, to what, and which messages go to whom. Nothing here refers to the operations
    an event is broken into. */
module RouterEffects {
  import opened Types
  import opened Messages
  import opened Tables
  import opened RouterMachine
  import opened RouterLog
  import opened RouterSync

  ghost predicate Increasing(ks: seq<nat>) {
    forall i, j :: 0 <= i < j < |ks| ==> ks[i] < ks[j]
  }

  lemma IncreasingSnoc(ks: seq<nat>, k: nat)
    requires Increasing(ks) && forall j :: j in ks ==> j < k
    ensures Increasing(ks + [k])
    ensures forall j: nat :: j in ks + [k] <==> j in ks || j == k
  {
    var ks' := ks + [k];
    forall i, j | 0 <= i < j < |ks'|
      ensures ks'[i] < ks'[j]
    {
      assert ks[i] in ks;
    }
  }

  // ----- Inv and unknown messages -----

  /** Every listed id names `p`; nothing else changes. */
  ghost predicate Announced(s: RouterState, p: PeerId, ids: seq<ModifierId>, s': RouterState) {
    && s' == s.(inv := s'.inv)
    && (forall id :: id in s'.inv <==> id in ids || id in s.inv)
    && (forall id :: id in s'.inv ==> s'.inv[id] == if id in ids then p else s.inv[id])
  }

  /** The message itself goes, once each, to exactly the peers of the other direction. */
  ghost predicate Reaches(peers: map<PeerId, PeerEntry>, p: PeerId, m: ProtocolMessage, actions: seq<Action>) {
    && p in peers
    && multiset(Targets(actions)) == multiset(set q | q in peers && peers[q].direction != peers[p].direction)
    && forall a :: a in actions ==> a.message == m
  }

  lemma FanOutReaches(peers: map<PeerId, PeerEntry>, p: PeerId, m: ProtocolMessage, order: seq<PeerId>)
    requires p in peers && Enumerates(order, peers.Keys)
    ensures Reaches(peers, p, m, FanOut(peers, p, m, order))
  {
    var actions := FanOut(peers, p, m, order);
    var audience := set q | q in peers && peers[q].direction != peers[p].direction;
    FanOutTargets(peers, p, m, order);
    forall q: PeerId
      ensures multiset(Targets(actions))[q] == multiset(audience)[q]
    {
      FanOutCount(peers, p, m, order, q);
      assert multiset(order)[q] == multiset(peers.Keys)[q];
    }
  }

  lemma {:induction false} AnnounceEffect(s: RouterState, p: PeerId, ids: seq<ModifierId>, ops: seq<Op>)
    requires p in s.peers && |ops| == |ids| && forall i :: 0 <= i < |ids| ==> ops[i] == Announce(p, ids[i])
    ensures Announced(s, p, ids, Run(s, ops)) && Emitted(s, ops) == []
  {
    if ids != [] {
      var n := |ids| - 1;
      AnnounceEffect(s, p, ids[..n], ops[..n]);
      assert ids == ids[..n] + [ids[n]];
    }
  }

  lemma InvOperations(p: PeerId, t: byte, ids: seq<ModifierId>, order: seq<PeerId>, clock: nat -> real)
    ensures var ops := Operations(Message(p, Inv(t, ids)), order, clock);
            && |ops| == |ids| + 1
            && (forall i :: 0 <= i < |ids| ==> ops[..|ids|][i] == Announce(p, ids[i]))
            && ops[|ids|] == Relay(p, Inv(t, ids), order)
  {
  }

  lemma InvEffect(s: RouterState, p: PeerId, t: byte, ids: seq<ModifierId>, order: seq<PeerId>, clock: nat -> real)
    requires p in s.peers && Enumerates(order, s.peers.Keys)
    ensures var ops := Operations(Message(p, Inv(t, ids)), order, clock);
            Announced(s, p, ids, Run(s, ops)) && Reaches(s.peers, p, Inv(t, ids), Emitted(s, ops))
  {
    hide Operations, Reaches, FanOut;
    var ops := Operations(Message(p, Inv(t, ids)), order, clock);
    InvOperations(p, t, ids, order, clock);
    AnnounceEffect(s, p, ids, ops[..|ids|]);
    FanOutReaches(s.peers, p, Inv(t, ids), order);
    assert [] + FanOut(s.peers, p, Inv(t, ids), order) == FanOut(s.peers, p, Inv(t, ids), order);
  }

  // ----- ModifierRequest -----

  /** Somebody other than `p` is the announcer of `id`. */
  predicate Wanted(s: RouterState, p: PeerId, id: ModifierId) {
    id in s.inv && s.inv[id] != p
  }

  /** In order, one request for each wanted id, to its announcer; `ks` are their places. */
  ghost predicate RequestSends(
    s: RouterState, p: PeerId, t: byte, ids: seq<ModifierId>, ks: seq<nat>, actions: seq<Action>)
  {
    && Increasing(ks) && |actions| == |ks|
    && (forall k: nat :: k in ks <==> k < |ids| && Wanted(s, p, ids[k]))
    && (forall i :: 0 <= i < |ks| ==>
          && ks[i] < |ids| && Wanted(s, p, ids[ks[i]])
          && actions[i] == Send(s.inv[ids[ks[i]]], ModifierRequest(t, [ids[ks[i]]])))
  }

  ghost predicate LastMention(ids: seq<ModifierId>, k: nat) {
    k < |ids| && forall j :: k < j < |ids| ==> ids[j] != ids[k]
  }

  /** Exactly the wanted ids are now requested by `p` and timed for their announcer from their last
      mention on; nothing else changes. */
  ghost predicate Requested(s: RouterState, p: PeerId, ids: seq<ModifierId>, clock: nat -> real, s': RouterState) {
    && s' == s.(requests := s'.requests, latency := s.latency.(pending := s'.latency.pending))
    && RequestedBy(s, p, ids, s'.requests)
    && TimedFor(s, p, ids, clock, s'.latency.pending)
  }

  ghost predicate RequestedBy(s: RouterState, p: PeerId, ids: seq<ModifierId>, requests: map<ModifierId, PeerId>) {
    && (forall id :: id in requests <==> id in s.requests || (id in ids && Wanted(s, p, id)))
    && (forall id :: id in requests ==>
          requests[id] == if id in ids && Wanted(s, p, id) then p else s.requests[id])
  }

  ghost predicate TimedFor(
    s: RouterState, p: PeerId, ids: seq<ModifierId>, clock: nat -> real, pending': map<ModifierId, Timing>)
  {
    var pending := s.latency.pending;
    && (forall id :: id in pending' <==> id in pending || (id in ids && Wanted(s, p, id)))
    && (forall id :: id in pending' && !(id in ids && Wanted(s, p, id)) ==> pending'[id] == pending[id])
    && (forall k :: 0 <= k < |ids| && Wanted(s, p, ids[k]) && LastMention(ids, k) ==>
          pending'[ids[k]] == Timing(s.inv[ids[k]], clock(k)))
  }

  lemma InSnoc(ids: seq<ModifierId>)
    requires ids != []
    ensures forall id :: id in ids <==> id in ids[..|ids| - 1] || id == ids[|ids| - 1]
    ensures var n := |ids| - 1;
            forall k: nat :: k < n ==> (LastMention(ids, k) <==> LastMention(ids[..n], k) && ids[k] != ids[n])
  {
    assert ids == ids[..|ids| - 1] + [ids[|ids| - 1]];
  }

  lemma RequestedByStep(s: RouterState, p: PeerId, ids: seq<ModifierId>, requests: map<ModifierId, PeerId>)
    requires ids != [] && RequestedBy(s, p, ids[..|ids| - 1], requests)
    ensures var id := ids[|ids| - 1];
            RequestedBy(s, p, ids, if Wanted(s, p, id) then requests[id := p] else requests)
  {
    hide Wanted, LastMention;
    InSnoc(ids);
  }

  lemma TimedForStep(
    s: RouterState, p: PeerId, ids: seq<ModifierId>, clock: nat -> real, pending: map<ModifierId, Timing>)
    requires ids != [] && TimedFor(s, p, ids[..|ids| - 1], clock, pending)
    ensures var n := |ids| - 1; var id := ids[n];
            TimedFor(s, p, ids, clock, if Wanted(s, p, id) then pending[id := Timing(s.inv[id], clock(n))] else pending)
  {
    hide LastMention;
    var n := |ids| - 1;
    InSnoc(ids);
    assert forall k :: 0 <= k < n ==> ids[..n][k] == ids[k];
  }

  lemma RequestStateStep(
    s: RouterState, p: PeerId, t: byte, ids: seq<ModifierId>, clock: nat -> real, s1: RouterState)
    requires p in s.peers && ids != [] && Requested(s, p, ids[..|ids| - 1], clock, s1)
    ensures Requested(s, p, ids, clock, StepState(s1, Ask(p, t, ids[|ids| - 1], clock(|ids| - 1))))
  {
    hide RequestedBy, TimedFor;
    RequestedByStep(s, p, ids, s1.requests);
    TimedForStep(s, p, ids, clock, s1.latency.pending);
  }

  lemma RequestSendsStep(
    s: RouterState, p: PeerId, t: byte, ids: seq<ModifierId>, ks: seq<nat>, actions: seq<Action>)
    returns (ks': seq<nat>)
    requires ids != [] && RequestSends(s, p, t, ids[..|ids| - 1], ks, actions)
    ensures var id := ids[|ids| - 1];
            RequestSends(s, p, t, ids, ks',
              actions + if Wanted(s, p, id) then [Send(s.inv[id], ModifierRequest(t, [id]))] else [])
  {
    var n := |ids| - 1;
    ks' := ks;
    if Wanted(s, p, ids[n]) {
      ks' := ks + [n];
      IncreasingSnoc(ks, n);
    }
  }

  lemma {:induction false} AskEffect(
    s: RouterState, p: PeerId, t: byte, ids: seq<ModifierId>, clock: nat -> real, ops: seq<Op>) returns (ks: seq<nat>)
    requires p in s.peers && |ops| == |ids| && forall i :: 0 <= i < |ids| ==> ops[i] == Ask(p, t, ids[i], clock(i))
    ensures Requested(s, p, ids, clock, Run(s, ops)) && RequestSends(s, p, t, ids, ks, Emitted(s, ops))
    decreases |ids|
  {
    if ids == [] {
      ks := [];
    } else {
      hide Requested, RequestSends, StepState;
      var n := |ids| - 1;
      ks := AskEffect(s, p, t, ids[..n], clock, ops[..n]);
      var s1 := Run(s, ops[..n]);
      RequestKeepsInv(s, p, ids[..n], clock, s1);
      RequestStateStep(s, p, t, ids, clock, s1);
      ks := RequestSendsStep(s, p, t, ids, ks, Emitted(s, ops[..n]));
      assert ops[n] == Ask(p, t, ids[n], clock(n));
    }
  }

  lemma {:induction false} RequestEffect(
    s: RouterState, p: PeerId, t: byte, ids: seq<ModifierId>, order: seq<PeerId>, clock: nat -> real)
    requires p in s.peers
    ensures var ops := Operations(Message(p, ModifierRequest(t, ids)), order, clock);
            && Requested(s, p, ids, clock, Run(s, ops))
            && exists ks: seq<nat> :: RequestSends(s, p, t, ids, ks, Emitted(s, ops))
  {
    hide Requested, RequestSends, Run, Emitted;
    var ks := AskEffect(s, p, t, ids, clock, Operations(Message(p, ModifierRequest(t, ids)), order, clock));
  }

  lemma RequestKeepsInv(s: RouterState, p: PeerId, ids: seq<ModifierId>, clock: nat -> real, s': RouterState)
    requires Requested(s, p, ids, clock, s')
    ensures s'.inv == s.inv && s'.peers == s.peers
  {
  }

  // ----- ModifierResponse -----

  predicate Listed(ms: seq<Modifier>, id: ModifierId) {
    exists k :: 0 <= k < |ms| && ms[k].0 == id
  }

  ghost predicate FirstMention(ms: seq<Modifier>, k: nat) {
    k < |ms| && forall j :: 0 <= j < k ==> ms[j].0 != ms[k].0
  }

  /** In order, the first mention of each requested id goes to its requester, type and bytes
      unchanged; `ks` are their places. */
  ghost predicate ResponseSends(s: RouterState, t: byte, ms: seq<Modifier>, ks: seq<nat>, actions: seq<Action>) {
    && Increasing(ks) && |actions| == |ks|
    && (forall k: nat :: k in ks <==> FirstMention(ms, k) && ms[k].0 in s.requests)
    && (forall i :: 0 <= i < |ks| ==>
          && ks[i] < |ms| && ms[ks[i]].0 in s.requests
          && actions[i] == Send(s.requests[ms[ks[i]].0], ModifierResponse(t, [ms[ks[i]]])))
  }

  /** Exactly the listed ids have left both pending maps. */
  ghost predicate Settled(s: RouterState, ms: seq<Modifier>, s': RouterState) {
    var pending, pending' := s.latency.pending, s'.latency.pending;
    && s' == s.(requests := s'.requests, latency := s'.latency)
    && (forall id :: id in s'.requests <==> id in s.requests && !Listed(ms, id))
    && (forall id :: id in s'.requests ==> s'.requests[id] == s.requests[id])
    && (forall id :: id in pending' <==> id in pending && !Listed(ms, id))
    && (forall id :: id in pending' ==> pending'[id] == pending[id])
  }

  /** `ks` are the places where a request timed for `q` is answered. */
  ghost predicate Measures(s: RouterState, ms: seq<Modifier>, q: PeerId, ks: seq<nat>) {
    && Increasing(ks)
    && (forall k: nat :: k in ks <==>
          FirstMention(ms, k) && ms[k].0 in s.latency.pending && s.latency.pending[ms[k].0].target == q)
    && (forall i :: 0 <= i < |ks| ==> ks[i] < |ms| && ms[ks[i]].0 in s.latency.pending)
  }

  /** The time each of these requests took, or zero if the clock went back. */
  function Times(s: RouterState, ms: seq<Modifier>, clock: nat -> real, ks: seq<nat>): seq<real>
    requires forall i :: 0 <= i < |ks| ==> ks[i] < |ms| && ms[ks[i]].0 in s.latency.pending
  {
    seq(|ks|, i requires 0 <= i < |ks| =>
      var sentAt := s.latency.pending[ms[ks[i]].0].sentAt;
      if sentAt <= clock(ks[i]) then clock(ks[i]) - sentAt else 0.0)
  }

  function Entry(peers: map<PeerId, PeerLatency>, q: PeerId): Option<PeerLatency> {
    if q in peers then Some(peers[q]) else None
  }

  /** The entry after these samples: the first is the average, each later one weighs 0.3. */
  function Averaged(entry: Option<PeerLatency>, xs: seq<real>): Option<PeerLatency> {
    if xs == [] then entry
    else
      var x := xs[|xs| - 1];
      match Averaged(entry, xs[..|xs| - 1])
      case None => Some(PeerLatency(x, 1))
      case Some(l) =>
        if l.sampleCount == 0 then Some(PeerLatency(x, 1))
        else Some(PeerLatency(0.3 * x + 0.7 * l.ema, l.sampleCount + 1))
  }

  ghost predicate MeasuredFor(
    s: RouterState, ms: seq<Modifier>, clock: nat -> real, q: PeerId, ks: seq<nat>, peers: map<PeerId, PeerLatency>)
  {
    && Measures(s, ms, q, ks)
    && Entry(peers, q) == Averaged(Entry(s.latency.peers, q), Times(s, ms, clock, ks))
  }

  lemma ListedSnoc(ms: seq<Modifier>)
    requires ms != []
    ensures var n := |ms| - 1;
            && (forall id :: Listed(ms, id) <==> Listed(ms[..n], id) || id == ms[n].0)
            && (FirstMention(ms, n) <==> !Listed(ms[..n], ms[n].0))
            && (forall k: nat :: k < n ==> (FirstMention(ms, k) <==> FirstMention(ms[..n], k)))
  {
    var n := |ms| - 1;
    forall id: ModifierId
      ensures Listed(ms, id) <==> Listed(ms[..n], id) || id == ms[n].0
    {
      if Listed(ms[..n], id) {
        var k :| 0 <= k < n && ms[..n][k].0 == id;
        assert ms[k].0 == id;
      }
      if Listed(ms, id) && id != ms[n].0 {
        var k :| 0 <= k < |ms| && ms[k].0 == id;
        assert ms[..n][k].0 == id;
      }
    }
    if !FirstMention(ms, n) {
      var j :| 0 <= j < n && ms[j].0 == ms[n].0;
      assert ms[..n][j].0 == ms[n].0;
    }
    if Listed(ms[..n], ms[n].0) {
      var j :| 0 <= j < n && ms[..n][j].0 == ms[n].0;
      assert ms[j].0 == ms[n].0;
    }
  }

  lemma SettledStep(s: RouterState, p: PeerId, t: byte, ms: seq<Modifier>, now: real, s1: RouterState)
    requires p in s.peers && ms != [] && Settled(s, ms[..|ms| - 1], s1)
    ensures var (id, data) := ms[|ms| - 1]; Settled(s, ms, StepState(s1, Answer(p, t, id, data, now)))
  {
    hide Listed;
    ListedSnoc(ms);
  }

  lemma ResponseSendsStep(
    s: RouterState, t: byte, ms: seq<Modifier>, ks: seq<nat>, actions: seq<Action>, s1: RouterState)
    returns (ks': seq<nat>)
    requires ms != [] && ResponseSends(s, t, ms[..|ms| - 1], ks, actions) && Settled(s, ms[..|ms| - 1], s1)
    ensures var m := ms[|ms| - 1];
            ResponseSends(s, t, ms, ks',
              actions + if m.0 in s1.requests then [Send(s1.requests[m.0], ModifierResponse(t, [m]))] else [])
  {
    hide Listed, FirstMention;
    var n := |ms| - 1;
    ListedSnoc(ms);
    forall k: nat | FirstMention(ms[..n], k) || FirstMention(ms, k)
      ensures k < |ms| && (FirstMention(ms[..n], k) ==> k < n)
    {
      MentionBound(ms, k);
      MentionBound(ms[..n], k);
    }
    ks' := ks;
    if ms[n].0 in s1.requests {
      ks' := ks + [n];
      IncreasingSnoc(ks, n);
    }
  }

  lemma MentionBound(ms: seq<Modifier>, k: nat)
    ensures FirstMention(ms, k) ==> k < |ms|
  {
  }

  lemma MeasuresStep(
    s: RouterState, p: PeerId, t: byte, ms: seq<Modifier>, clock: nat -> real, q: PeerId, ks: seq<nat>, s1: RouterState)
    returns (ks': seq<nat>)
    requires p in s.peers && ms != [] && Settled(s, ms[..|ms| - 1], s1)
    requires MeasuredFor(s, ms[..|ms| - 1], clock, q, ks, s1.latency.peers)
    ensures var n := |ms| - 1; var (id, data) := ms[n];
            MeasuredFor(s, ms, clock, q, ks', StepState(s1, Answer(p, t, id, data, clock(n))).latency.peers)
  {
    hide Listed, FirstMention, Averaged;
    var n := |ms| - 1;
    ListedSnoc(ms);
    forall k: nat | FirstMention(ms[..n], k) || FirstMention(ms, k)
      ensures k < |ms| && (FirstMention(ms[..n], k) ==> k < n)
    {
      MentionBound(ms, k);
      MentionBound(ms[..n], k);
    }
    var pending := s1.latency.pending;
    ks' := ks;
    if ms[n].0 in pending && pending[ms[n].0].target == q {
      ks' := ks + [n];
      IncreasingSnoc(ks, n);
      assert Measures(s, ms, q, ks');
      var xs, xs' := Times(s, ms[..n], clock, ks), Times(s, ms, clock, ks');
      assert xs' == xs + [Elapsed(pending[ms[n].0].sentAt, clock(n))];
      AveragedSnoc(Entry(s.latency.peers, q), xs, xs'[|ks|]);
    } else {
      assert Measures(s, ms, q, ks);
      assert Times(s, ms[..n], clock, ks) == Times(s, ms, clock, ks);
    }
  }

  lemma AveragedSnoc(entry: Option<PeerLatency>, xs: seq<real>, x: real)
    ensures Averaged(entry, xs + [x]) ==
            match Averaged(entry, xs)
            case None => Some(PeerLatency(x, 0).Sampled(x))
            case Some(l) => Some(if l.sampleCount == 0 then PeerLatency(x, 1) else l.Sampled(x))
  {
    assert (xs + [x])[..|xs|] == xs;
  }

  /** Every peer's entry is its old one, averaged with the times of the requests to it that are
      answered here. */
  ghost predicate AllMeasured(
    s: RouterState, ms: seq<Modifier>, clock: nat -> real, peers: map<PeerId, PeerLatency>)
  {
    forall q: PeerId :: PeerMeasured(s, ms, clock, q, peers)
  }

  ghost predicate PeerMeasured(
    s: RouterState, ms: seq<Modifier>, clock: nat -> real, q: PeerId, peers: map<PeerId, PeerLatency>)
  {
    exists ks: seq<nat> :: MeasuredFor(s, ms, clock, q, ks, peers)
  }

  lemma AllMeasuredStep(s: RouterState, p: PeerId, t: byte, ms: seq<Modifier>, clock: nat -> real, s1: RouterState)
    requires p in s.peers && ms != [] && Settled(s, ms[..|ms| - 1], s1)
    requires AllMeasured(s, ms[..|ms| - 1], clock, s1.latency.peers)
    ensures var n := |ms| - 1; var (id, data) := ms[n];
            AllMeasured(s, ms, clock, StepState(s1, Answer(p, t, id, data, clock(n))).latency.peers)
  {
    hide MeasuredFor, Settled;
    var n := |ms| - 1;
    var peers' := StepState(s1, Answer(p, t, ms[n].0, ms[n].1, clock(n))).latency.peers;
    forall q: PeerId
      ensures PeerMeasured(s, ms, clock, q, peers')
    {
      assert PeerMeasured(s, ms[..n], clock, q, s1.latency.peers);
      var ks: seq<nat> :| MeasuredFor(s, ms[..n], clock, q, ks, s1.latency.peers);
      var ks' := MeasuresStep(s, p, t, ms, clock, q, ks, s1);
    }
  }

  lemma AllMeasuredStart(s: RouterState, clock: nat -> real)
    ensures AllMeasured(s, [], clock, s.latency.peers)
  {
    forall q: PeerId
      ensures PeerMeasured(s, [], clock, q, s.latency.peers)
    {
      assert MeasuredFor(s, [], clock, q, [], s.latency.peers);
    }
  }

  lemma {:induction false} AnswerEffect(
    s: RouterState, p: PeerId, t: byte, ms: seq<Modifier>, clock: nat -> real, ops: seq<Op>) returns (ks: seq<nat>)
    requires p in s.peers && |ops| == |ms|
    requires forall i :: 0 <= i < |ms| ==> ops[i] == Answer(p, t, ms[i].0, ms[i].1, clock(i))
    ensures Settled(s, ms, Run(s, ops)) && AllMeasured(s, ms, clock, Run(s, ops).latency.peers)
    ensures ResponseSends(s, t, ms, ks, Emitted(s, ops))
    decreases |ms|
  {
    if ms == [] {
      ks := [];
      AllMeasuredStart(s, clock);
    } else {
      hide Settled, AllMeasured, ResponseSends, StepState;
      var n := |ms| - 1;
      ks := AnswerEffect(s, p, t, ms[..n], clock, ops[..n]);
      var s1 := Run(s, ops[..n]);
      SettledKeepsPeers(s, ms[..n], s1);
      SettledStep(s, p, t, ms, clock(n), s1);
      AllMeasuredStep(s, p, t, ms, clock, s1);
      ks := ResponseSendsStep(s, t, ms, ks, Emitted(s, ops[..n]), s1);
      assert ops[n] == Answer(p, t, ms[n].0, ms[n].1, clock(n)) && (ms[n].0, ms[n].1) == ms[n];
    }
  }

  lemma SettledKeepsPeers(s: RouterState, ms: seq<Modifier>, s': RouterState)
    requires Settled(s, ms, s')
    ensures s'.peers == s.peers
  {
  }

  lemma {:induction false} ResponseEffect(
    s: RouterState, p: PeerId, t: byte, ms: seq<Modifier>, order: seq<PeerId>, clock: nat -> real)
    requires p in s.peers
    ensures var ops := Operations(Message(p, ModifierResponse(t, ms)), order, clock);
            && Settled(s, ms, Run(s, ops))
            && AllMeasured(s, ms, clock, Run(s, ops).latency.peers)
            && exists ks: seq<nat> :: ResponseSends(s, t, ms, ks, Emitted(s, ops))
  {
    hide Settled, AllMeasured, ResponseSends, Run, Emitted;
    var ks := AnswerEffect(s, p, t, ms, clock, Operations(Message(p, ModifierResponse(t, ms)), order, clock));
  }

  // ----- SyncInfo -----

  /** A Light peer's is dropped. A Full inbound peer's goes to some outbound peer nobody is paired
      with, and the two are paired, unless there is none. A Full outbound peer's goes to the peer
      it is paired with, if any. */
  ghost predicate SyncHandled(s: RouterState, p: PeerId, body: Bytes, s': RouterState, actions: seq<Action>)
    requires p in s.peers
  {
    if s.peers[p].mode == Light then s' == s && actions == []
    else if s.peers[p].direction == Inbound then
      if forall o :: o in s.peers && s.peers[o].direction == Outbound ==> o in s.sync.inboundFor then
        s' == s && actions == []
      else
        exists o ::
          && o in s.peers && s.peers[o].direction == Outbound && o !in s.sync.inboundFor
          && actions == [Send(o, SyncInfo(body))]
          && s' == s.(sync := SyncPairs(s.sync.outboundFor[p := o], s.sync.inboundFor[o := p]))
    else
      s' == s && actions == if p in s.sync.inboundFor then [Send(s.sync.inboundFor[p], SyncInfo(body))] else []
  }

  lemma SyncEffect(s: RouterState, p: PeerId, body: Bytes, order: seq<PeerId>)
    requires p in s.peers && Enumerates(order, s.peers.Keys)
    ensures SyncHandled(s, p, body, StepState(s, Sync(p, body, order)), StepActions(s, Sync(p, body, order)))
  {
    FindFreeSound(s, order);
    OrderCovers(s, Sync(p, body, order));
  }

  // ----- PeerDisconnected -----

  /** `p` is gone from the registry and from every table. Of the sync pairings the one of `p` goes in
      both directions, and so does what points to `p`, unless that was the first one removed. */
  ghost predicate Forgotten(s: RouterState, p: PeerId, s': RouterState) {
    && s'.peers == s.peers - {p}
    && (forall id :: id in s'.inv <==> id in s.inv && s.inv[id] != p)
    && (forall id :: id in s'.inv ==> s'.inv[id] == s.inv[id])
    && (forall id :: id in s'.requests <==> id in s.requests && s.requests[id] != p)
    && (forall id :: id in s'.requests ==> s'.requests[id] == s.requests[id])
    && (forall id :: id in s'.latency.pending <==> id in s.latency.pending && s.latency.pending[id].target != p)
    && (forall id :: id in s'.latency.pending ==> s'.latency.pending[id] == s.latency.pending[id])
    && s'.latency.peers == s.latency.peers - {p}
    && Unpaired(s.sync, p, s'.sync)
  }

  ghost predicate Unpaired(a: SyncPairs, p: PeerId, b: SyncPairs) {
    var own := p in a.outboundFor;
    && (forall i :: i in b.outboundFor <==>
          && i in a.outboundFor && i != p
          && !(p in a.inboundFor && a.inboundFor[p] == i && !(own && a.outboundFor[p] == p)))
    && (forall i :: i in b.outboundFor ==> b.outboundFor[i] == a.outboundFor[i])
    && (forall o :: o in b.inboundFor <==> o in a.inboundFor && o != p && !(own && a.outboundFor[p] == o))
    && (forall o :: o in b.inboundFor ==> b.inboundFor[o] == a.inboundFor[o])
  }

  lemma LeaveEffect(s: RouterState, p: PeerId)
    ensures Forgotten(s, p, StepState(s, Leave(p))) && StepActions(s, Leave(p)) == []
  {
  }

  // ----- Every event -----

  /** A message from an unregistered peer changes nothing and emits nothing. */
  lemma {:induction false} Ignored(s: RouterState, ops: seq<Op>, p: PeerId)
    requires p !in s.peers && forall k :: 0 <= k < |ops| ==> ops[k].peer == p && !ops[k].Join? && !ops[k].Leave?
    ensures Run(s, ops) == s && Emitted(s, ops) == []
  {
    if ops != [] {
      Ignored(s, ops[..|ops| - 1], p);
      var op := ops[|ops| - 1];
      if op.Relay? {
        NobodyHears(s.peers, p, op.message, op.order);
      }
    }
  }

  lemma NobodyHears(peers: map<PeerId, PeerEntry>, p: PeerId, m: ProtocolMessage, order: seq<PeerId>)
    requires p !in peers
    ensures FanOut(peers, p, m, order) == []
  {
  }

  lemma MessageIgnored(s: RouterState, p: PeerId, m: ProtocolMessage, order: seq<PeerId>, clock: nat -> real)
    requires p !in s.peers
    ensures var ops := Operations(Message(p, m), order, clock); Run(s, ops) == s && Emitted(s, ops) == []
  {
    hide Run, Emitted;
    Ignored(s, Operations(Message(p, m), order, clock), p);
  }

  lemma RunNothing(s: RouterState)
    ensures Run(s, []) == s && Emitted(s, []) == []
  {
  }

  lemma RunSingle(s: RouterState, op: Op)
    ensures Run(s, [op]) == StepState(s, op) && Emitted(s, [op]) == StepActions(s, op)
  {
    assert [op][..0] == [];
  }

  /** What handling `e` in state `s` amounts to: the new state and the actions. */
  ghost predicate Handled(s: RouterState, e: Event, clock: nat -> real, s': RouterState, actions: seq<Action>) {
    match e
    case PeerConnected(_, _) => s' == s && actions == []
    case PeerDisconnected(p) => Forgotten(s, p, s') && actions == []
    case Message(p, m) =>
      if p !in s.peers then s' == s && actions == []
      else
        match m
        case Inv(_, ids) => Announced(s, p, ids, s') && Reaches(s.peers, p, m, actions)
        case ModifierRequest(t, ids) =>
          && Requested(s, p, ids, clock, s')
          && exists ks: seq<nat> :: RequestSends(s, p, t, ids, ks, actions)
        case ModifierResponse(t, ms) =>
          && Settled(s, ms, s') && AllMeasured(s, ms, clock, s'.latency.peers)
          && exists ks: seq<nat> :: ResponseSends(s, t, ms, ks, actions)
        case SyncInfo(body) => SyncHandled(s, p, body, s', actions)
        case GetPeers => s' == s && actions == [Send(p, Peers([]))]
        case Peers(_) => s' == s && actions == []
        case Unknown(_, _) => s' == s && Reaches(s.peers, p, m, actions)
  }

  /** Running the operations of an event, in any iteration order of the registry, does exactly what
      handling the event amounts to. */
  lemma {:induction false} EventHandled(s: RouterState, e: Event, order: seq<PeerId>, clock: nat -> real)
    requires Enumerates(order, s.peers.Keys)
    ensures var ops := Operations(e, order, clock); Handled(s, e, clock, Run(s, ops), Emitted(s, ops))
  {
    hide Forgotten, Announced, Reaches, Requested, RequestSends, Settled, AllMeasured, ResponseSends, SyncHandled;
    match e
    case PeerConnected(_, _) =>
    case PeerDisconnected(p) =>
      RunSingle(s, Leave(p));
      LeaveEffect(s, p);
    case Message(p, m) =>
      if p !in s.peers {
        MessageIgnored(s, p, m, order, clock);
      } else {
        MessageHandled(s, p, m, order, clock);
      }
  }

  lemma {:induction false} MessageHandled(
    s: RouterState, p: PeerId, m: ProtocolMessage, order: seq<PeerId>, clock: nat -> real)
    requires p in s.peers && Enumerates(order, s.peers.Keys)
    ensures var ops := Operations(Message(p, m), order, clock);
            Handled(s, Message(p, m), clock, Run(s, ops), Emitted(s, ops))
  {
    hide Announced, Reaches, Requested, RequestSends, Settled, AllMeasured, ResponseSends, SyncHandled, FanOut;
    match m
    case Inv(t, ids) => InvEffect(s, p, t, ids, order, clock);
    case ModifierRequest(t, ids) => RequestEffect(s, p, t, ids, order, clock);
    case ModifierResponse(t, ms) => ResponseEffect(s, p, t, ms, order, clock);
    case SyncInfo(body) =>
      RunSingle(s, Sync(p, body, order));
      SyncEffect(s, p, body, order);
    case GetPeers => RunSingle(s, AskPeers(p));
    case Peers(_) =>
    case Unknown(_, _) =>
      RunSingle(s, Relay(p, m, order));
      FanOutReaches(s.peers, p, m, order);
  }
}
