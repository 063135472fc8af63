/** The routing tables as functions of the history of a run: who announced what last, which
    requests are unanswered, where every forwarded request went, and what the latency entries
    were computed from. */
module RouterHistory {
  import opened Types
  import opened Messages
  import opened Tables
  import opened RouterMachine
  import opened RouterLog
  import opened RouterSync
  import opened LatencyTrackers

  // ----- Registry and Inv table -----

  ghost predicate JoinedAt(log: seq<Op>, k: nat, p: PeerId) {
    k < |log| && log[k].Join? && log[k].peer == p
  }

  /** At `k` a peer that was then registered announced `id`. */
  ghost predicate AnnouncedAt(log: seq<Op>, k: nat, id: ModifierId) {
    k < |log| && log[k].Announce? && log[k].id == id && log[k].peer in State(log[..k]).peers
  }

  ghost predicate StaysAfter(log: seq<Op>, k: nat, p: PeerId) {
    forall j :: k < j < |log| ==> log[j] != Leave(p)
  }

  /** The announcement of `id` at `k` came from `p`, nobody announced it since, and `p` stayed. */
  ghost predicate LastAnnouncement(log: seq<Op>, k: nat, id: ModifierId, p: PeerId) {
    && AnnouncedAt(log, k, id)
    && log[k].peer == p
    && (forall j :: k < j < |log| ==> !AnnouncedAt(log, j, id))
    && StaysAfter(log, k, p)
  }

  lemma {:induction false} RegistryIsHistory(log: seq<Op>, p: PeerId)
    ensures p in State(log).peers <==> exists k :: JoinedAt(log, k, p) && StaysAfter(log, k, p)
  {
    if log != [] {
      var before, n := log[..|log| - 1], |log| - 1;
      RegistryIsHistory(before, p);
      forall k | 0 <= k < n
        ensures JoinedAt(log, k, p) && StaysAfter(log, k, p) <==>
                JoinedAt(before, k, p) && StaysAfter(before, k, p) && log[n] != Leave(p)
      {
        assert forall j :: k < j < n ==> log[j] == before[j];
      }
      if log[n].Join? && log[n].peer == p {
        assert JoinedAt(log, n, p) && StaysAfter(log, n, p);
      }
    }
  }

  lemma AnnouncedPrefix(log: seq<Op>, k: nat, id: ModifierId)
    requires k < |log| - 1
    ensures AnnouncedAt(log, k, id) <==> AnnouncedAt(log[..|log| - 1], k, id)
  {
    assert log[..|log| - 1][..k] == log[..k];
  }

  lemma LastAnnouncementStep(log: seq<Op>, k: nat, id: ModifierId, p: PeerId)
    requires k < |log| - 1
    ensures var n := |log| - 1;
            LastAnnouncement(log, k, id, p) <==>
            LastAnnouncement(log[..n], k, id, p) && !AnnouncedAt(log, n, id) && log[n] != Leave(p)
  {
    var n, before := |log| - 1, log[..|log| - 1];
    forall j | 0 <= j < n
      ensures AnnouncedAt(log, j, id) <==> AnnouncedAt(before, j, id)
      ensures log[j] == before[j]
    {
      AnnouncedPrefix(log, j, id);
    }
  }

  /** The Inv table names `p` for `id` if and only if the last announcement of `id` by a peer
      registered at the time came from `p` and `p` has not disconnected since. */
  lemma {:induction false} InvTableIsHistory(log: seq<Op>, id: ModifierId, p: PeerId)
    ensures (id in State(log).inv && State(log).inv[id] == p) <==> exists k :: LastAnnouncement(log, k, id, p)
  {
    if log != [] {
      var before, n := log[..|log| - 1], |log| - 1;
      InvTableIsHistory(before, id, p);
      forall k | 0 <= k < n
        ensures LastAnnouncement(log, k, id, p) <==>
                LastAnnouncement(before, k, id, p) && !AnnouncedAt(log, n, id) && log[n] != Leave(p)
      {
        LastAnnouncementStep(log, k, id, p);
      }
      if AnnouncedAt(log, n, id) && log[n].peer == p {
        assert LastAnnouncement(log, n, id, p);
      }
    }
  }

  /** Every forwarded request goes to the last announcer, who is registered and is not the
      requester; and a registered peer's request is forwarded whenever there is such a peer. */
  lemma RequestGoesToAnnouncer(log: seq<Op>, op: Op)
    requires Legal(log) && op.Ask?
    ensures forall a :: a in StepActions(State(log), op) ==>
              && a.message == ModifierRequest(op.modifierType, [op.id])
              && a.target in State(log).peers && a.target != op.peer
              && exists k :: LastAnnouncement(log, k, op.id, a.target)
    ensures StepActions(State(log), op) == [] <==>
              op.peer !in State(log).peers || forall k, p :: LastAnnouncement(log, k, op.id, p) ==> p == op.peer
  {
    RunConsistent(log);
    var s := State(log);
    if op.id in s.inv {
      InvTableIsHistory(log, op.id, s.inv[op.id]);
    }
    forall k, p | LastAnnouncement(log, k, op.id, p)
      ensures op.id in s.inv && s.inv[op.id] == p
    {
      InvTableIsHistory(log, op.id, p);
    }
  }

  // ----- Unanswered requests -----

  /** A forwarded request: who asked, who was asked, and when. */
  datatype Flight = Flight(requester: PeerId, target: PeerId, sentAt: real)

  predicate ForwardsId(s: RouterState, op: Op, id: ModifierId) {
    op.Ask? && op.id == id && StepActions(s, op) != []
  }

  predicate AnswersId(s: RouterState, op: Op, id: ModifierId) {
    op.Answer? && op.id == id && op.peer in s.peers
  }

  /** The flights after `op`: a forward starts or replaces one, a response ends one. */
  function Fly(s: RouterState, out: map<ModifierId, Flight>, op: Op): map<ModifierId, Flight> {
    if op.Ask? && ForwardsId(s, op, op.id) then
      out[op.id := Flight(op.peer, StepActions(s, op)[0].target, op.now)]
    else if op.Answer? && AnswersId(s, op, op.id) then
      out - {op.id}
    else out
  }

  /** The latest forward of each id that no response has followed. */
  function Outstanding(log: seq<Op>): map<ModifierId, Flight> {
    if log == [] then map[]
    else
      var before := log[..|log| - 1];
      Fly(State(before), Outstanding(before), log[|log| - 1])
  }

  ghost predicate ForwardedAt(log: seq<Op>, k: nat, id: ModifierId) {
    k < |log| && ForwardsId(State(log[..k]), log[k], id)
  }

  ghost predicate AnsweredAt(log: seq<Op>, k: nat, id: ModifierId) {
    k < |log| && AnswersId(State(log[..k]), log[k], id)
  }

  ghost predicate LatestForward(log: seq<Op>, k: nat, id: ModifierId) {
    && ForwardedAt(log, k, id)
    && forall j :: k < j < |log| ==> !ForwardedAt(log, j, id) && !AnsweredAt(log, j, id)
  }

  /** `f` records the latest forward of `id`, at `k`. */
  ghost predicate LatestFlight(log: seq<Op>, k: nat, id: ModifierId, f: Flight) {
    && LatestForward(log, k, id)
    && f == Flight(log[k].peer, StepActions(State(log[..k]), log[k])[0].target, log[k].now)
  }

  lemma LatestForwardStep(log: seq<Op>, k: nat, id: ModifierId)
    requires k < |log| - 1
    ensures var n := |log| - 1;
            LatestForward(log, k, id) <==>
            LatestForward(log[..n], k, id) && !ForwardedAt(log, n, id) && !AnsweredAt(log, n, id)
  {
    var n, before := |log| - 1, log[..|log| - 1];
    forall j | 0 <= j < n
      ensures ForwardedAt(log, j, id) <==> ForwardedAt(before, j, id)
      ensures AnsweredAt(log, j, id) <==> AnsweredAt(before, j, id)
    {
      assert before[..j] == log[..j];
    }
  }

  /** The last operation forwards a request for `id`, recorded by `f`. */
  ghost predicate StartsFlight(log: seq<Op>, id: ModifierId, f: Flight)
    requires log != []
  {
    var n := |log| - 1;
    && ForwardedAt(log, n, id)
    && f == Flight(log[n].peer, StepActions(State(log[..n]), log[n])[0].target, log[n].now)
  }

  lemma FlightStarts(log: seq<Op>, id: ModifierId, f: Flight)
    requires log != []
    ensures LatestFlight(log, |log| - 1, id, f) <==> StartsFlight(log, id, f)
  {
  }

  lemma FlyStep(log: seq<Op>, id: ModifierId, f: Flight)
    requires log != []
    ensures var n, before := |log| - 1, Outstanding(log[..|log| - 1]);
            (id in Outstanding(log) && Outstanding(log)[id] == f) <==>
            || StartsFlight(log, id, f)
            || (id in before && before[id] == f && !ForwardedAt(log, n, id) && !AnsweredAt(log, n, id))
  {
    hide State, StepActions;
  }

  /** A flight is outstanding if and only if some forward of the id was followed by neither
      another forward nor a response, and it records that forward. */
  lemma {:induction false} OutstandingIsHistory(log: seq<Op>, id: ModifierId, f: Flight)
    ensures (id in Outstanding(log) && Outstanding(log)[id] == f) <==>
            exists k: nat :: LatestFlight(log, k, id, f)
  {
    if log != [] {
      var before, n := log[..|log| - 1], |log| - 1;
      OutstandingIsHistory(before, id, f);
      forall k | 0 <= k < n
        ensures LatestFlight(log, k, id, f) <==>
                LatestFlight(before, k, id, f) && !ForwardedAt(log, n, id) && !AnsweredAt(log, n, id)
      {
        LatestForwardStep(log, k, id);
        assert before[..k] == log[..k];
      }
      FlightStarts(log, id, f);
      FlyStep(log, id, f);
    }
  }

  /** Somebody registered is waiting for `id`. */
  predicate Waiting(log: seq<Op>, id: ModifierId) {
    id in Outstanding(log) && Outstanding(log)[id].requester in State(log).peers
  }

  /** Both trackers are projections of the flights `out`. */
  ghost predicate Projects(s: RouterState, out: map<ModifierId, Flight>) {
    && (forall id :: id in s.requests <==> id in out && out[id].requester in s.peers)
    && (forall id :: id in s.requests ==> s.requests[id] == out[id].requester)
    && (forall id :: id in s.latency.pending <==> id in out && out[id].target in s.peers)
    && (forall id :: id in s.latency.pending ==>
          s.latency.pending[id] == Timing(out[id].target, out[id].sentAt))
  }

  ghost predicate FlownBy(out: map<ModifierId, Flight>, joined: set<PeerId>) {
    forall id :: id in out ==> out[id].requester in joined && out[id].target in joined
  }

  lemma ProjectsStep(s: RouterState, out: map<ModifierId, Flight>, joined: set<PeerId>, op: Op)
    requires Projects(s, out) && FlownBy(out, joined)
    requires TablesConsistent(s) && s.peers.Keys <= joined && LegalOp(s, joined, op)
    ensures Projects(StepState(s, op), Fly(s, out, op))
    ensures FlownBy(Fly(s, out, op), joined)
  {
  }

  /** In every reachable state the request tracker holds id -> requester exactly when the
      requester of the outstanding flight is still registered, and the latency tracker holds
      id -> target exactly when its target is. */
  lemma {:induction false} TrackersAreProjections(log: seq<Op>)
    requires Legal(log)
    ensures Projects(State(log), Outstanding(log))
    ensures FlownBy(Outstanding(log), Joined(log))
  {
    if log != [] {
      var before := log[..|log| - 1];
      TrackersAreProjections(before);
      RunConsistent(before);
      ProjectsStep(State(before), Outstanding(before), Joined(before), log[|log| - 1]);
    }
  }

  // ----- Conservation of requests -----

  function RequestsFor(actions: seq<Action>, id: ModifierId): nat {
    if actions == [] then 0
    else
      var a := actions[|actions| - 1];
      RequestsFor(actions[..|actions| - 1], id) + if a.message.ModifierRequest? && id in a.message.ids then 1 else 0
  }

  predicate Carries(modifiers: seq<Modifier>, id: ModifierId) {
    exists k :: 0 <= k < |modifiers| && modifiers[k].0 == id
  }

  function ResponsesFor(actions: seq<Action>, id: ModifierId): nat {
    if actions == [] then 0
    else
      var a := actions[|actions| - 1];
      ResponsesFor(actions[..|actions| - 1], id)
      + if a.message.ModifierResponse? && Carries(a.message.modifiers, id) then 1 else 0
  }

  /** Forwards of `id` that replaced a request somebody was still waiting on. */
  function Superseded(log: seq<Op>, id: ModifierId): nat {
    if log == [] then 0
    else
      var before, op := log[..|log| - 1], log[|log| - 1];
      Superseded(before, id) + if ForwardsId(State(before), op, id) && Waiting(before, id) then 1 else 0
  }

  /** Requests for `id` given up because the peer waiting for it disconnected. */
  function Dropped(log: seq<Op>, id: ModifierId): nat {
    if log == [] then 0
    else
      var before, op := log[..|log| - 1], log[|log| - 1];
      Dropped(before, id)
      + if op.Leave? && Waiting(before, id) && Outstanding(before)[id].requester == op.peer then 1 else 0
  }

  lemma {:induction false} CountsAppend(a: seq<Action>, b: seq<Action>, id: ModifierId)
    ensures RequestsFor(a + b, id) == RequestsFor(a, id) + RequestsFor(b, id)
    ensures ResponsesFor(a + b, id) == ResponsesFor(a, id) + ResponsesFor(b, id)
  {
    if b == [] {
      assert a + b == a;
    } else {
      assert (a + b)[..|a + b| - 1] == a + b[..|b| - 1];
      CountsAppend(a, b[..|b| - 1], id);
    }
  }

  lemma GossipCountsNothing(actions: seq<Action>, id: ModifierId)
    requires forall a :: a in actions ==> !a.message.ModifierRequest? && !a.message.ModifierResponse?
    ensures RequestsFor(actions, id) == 0 && ResponsesFor(actions, id) == 0
  {
  }

  lemma StepCounts(log: seq<Op>, op: Op, id: ModifierId)
    requires Legal(log + [op])
    ensures RequestsFor(StepActions(State(log), op), id) == if ForwardsId(State(log), op, id) then 1 else 0
    ensures ResponsesFor(StepActions(State(log), op), id) ==
            if AnswersId(State(log), op, id) && Waiting(log, id) then 1 else 0
  {
    var s := State(log);
    Extend(log, op);
    TrackersAreProjections(log);
    match op
    case Relay(p, m, order) =>
      FanOutTargets(s.peers, p, m, order);
      GossipCountsNothing(StepActions(s, op), id);
    case Ask(p, t, i, now) =>
      assert StepActions(s, op)[..0] == [];
    case Answer(p, t, i, data, now) =>
      if StepActions(s, op) != [] {
        var a := StepActions(s, op)[0];
        assert a.message.modifiers == [(i, data)];
        assert a.message.modifiers[0].0 == i;
        assert StepActions(s, op)[..0] == [];
      }
    case _ =>
      GossipCountsNothing(StepActions(s, op), id);
  }

  /** How one operation changes whether somebody is waiting for `id`. */
  lemma WaitingStep(log: seq<Op>, op: Op, id: ModifierId)
    requires Legal(log + [op])
    ensures Waiting(log + [op], id) <==>
            || ForwardsId(State(log), op, id)
            || (Waiting(log, id) && !AnswersId(State(log), op, id) && op != Leave(Outstanding(log)[id].requester))
  {
    Extend(log, op);
    TrackersAreProjections(log);
  }

  lemma LedgerStep(log: seq<Op>, op: Op, id: ModifierId)
    ensures Emitted(EMPTY, log + [op]) == Emitted(EMPTY, log) + StepActions(State(log), op)
    ensures Superseded(log + [op], id) ==
            Superseded(log, id) + if ForwardsId(State(log), op, id) && Waiting(log, id) then 1 else 0
    ensures Dropped(log + [op], id) ==
            Dropped(log, id) + if Waiting(log, id) && op == Leave(Outstanding(log)[id].requester) then 1 else 0
  {
    hide StepActions, StepState, ForwardsId, Outstanding;
    assert (log + [op])[..|log|] == log;
  }

  lemma PendingIsWaiting(log: seq<Op>, id: ModifierId)
    requires Legal(log)
    ensures id in State(log).requests <==> Waiting(log, id)
  {
    TrackersAreProjections(log);
  }

  lemma ConservedStep(log: seq<Op>, op: Op, id: ModifierId)
    requires Legal(log) && Legal(log + [op])
    requires RequestsFor(Emitted(EMPTY, log), id) ==
             ResponsesFor(Emitted(EMPTY, log), id) + Superseded(log, id) + Dropped(log, id)
             + if id in State(log).requests then 1 else 0
    ensures RequestsFor(Emitted(EMPTY, log + [op]), id) ==
            ResponsesFor(Emitted(EMPTY, log + [op]), id) + Superseded(log + [op], id) + Dropped(log + [op], id)
            + if id in State(log + [op]).requests then 1 else 0
  {
    hide Legal, State, StepActions, Emitted, RequestsFor, ResponsesFor, Superseded, Dropped, Outstanding, Waiting;
    LedgerStep(log, op, id);
    CountsAppend(Emitted(EMPTY, log), StepActions(State(log), op), id);
    StepCounts(log, op, id);
    WaitingStep(log, op, id);
    PendingIsWaiting(log, id);
    PendingIsWaiting(log + [op], id);
  }

  /** Every forwarded request for `id` is answered, superseded, dropped with its requester, or
      still pending in the request tracker: nothing is lost and nothing is delivered twice. */
  lemma {:induction false} RequestsConserved(log: seq<Op>, id: ModifierId)
    requires Legal(log)
    ensures RequestsFor(Emitted(EMPTY, log), id) ==
            ResponsesFor(Emitted(EMPTY, log), id) + Superseded(log, id) + Dropped(log, id)
            + if id in State(log).requests then 1 else 0
  {
    if log != [] {
      var before, op := log[..|log| - 1], log[|log| - 1];
      assert log == before + [op];
      RequestsConserved(before, id);
      ConservedStep(before, op, id);
    }
  }

  /** A response is delivered if and only if it comes from a registered peer and a registered
      peer is waiting for it: to the one whose forwarded request is the latest unanswered, with
      its bytes unchanged. */
  lemma DeliveryGoesToRequester(log: seq<Op>, op: Op)
    requires Legal(log) && op.Answer?
    ensures StepActions(State(log), op) ==
            if op.peer in State(log).peers && Waiting(log, op.id) then
              [Send(Outstanding(log)[op.id].requester, ModifierResponse(op.modifierType, [(op.id, op.data)]))]
            else []
  {
    TrackersAreProjections(log);
  }

  // ----- Latency -----

  /** The round-trip samples of each registered peer since it joined: one per response to the
      outstanding flight to it. */
  function Samples(log: seq<Op>): map<PeerId, seq<real>> {
    if log == [] then map[]
    else
      var before, op := log[..|log| - 1], log[|log| - 1];
      var s, out, samples := State(before), Outstanding(before), Samples(before);
      if op.Leave? then samples - {op.peer}
      else if op.Answer? && AnswersId(s, op, op.id) && op.id in out && out[op.id].target in s.peers then
        var target := out[op.id].target;
        samples[target := (if target in samples then samples[target] else []) + [Elapsed(out[op.id].sentAt, op.now)]]
      else samples
  }

  /** Exponential moving average of a nonempty sequence of samples, the newest last. */
  function Ema(xs: seq<real>): real
    requires xs != []
  {
    if |xs| == 1 then xs[0] else EMA_ALPHA * xs[|xs| - 1] + (1.0 - EMA_ALPHA) * Ema(xs[..|xs| - 1])
  }

  ghost predicate LatencyMatches(peers: map<PeerId, PeerLatency>, samples: map<PeerId, seq<real>>) {
    && peers.Keys == samples.Keys
    && (forall p :: p in samples ==>
          && samples[p] != []
          && peers[p] == PeerLatency(Ema(samples[p]), |samples[p]|))
  }

  lemma AddSample(peers: map<PeerId, PeerLatency>, samples: map<PeerId, seq<real>>, p: PeerId, rtt: real)
    requires LatencyMatches(peers, samples)
    ensures var entry := if p in peers then peers[p] else PeerLatency(rtt, 0);
            var xs := (if p in samples then samples[p] else []) + [rtt];
            LatencyMatches(peers[p := entry.Sampled(rtt)], samples[p := xs])
  {
    var xs := (if p in samples then samples[p] else []) + [rtt];
    assert xs[..|xs| - 1] == if p in samples then samples[p] else [];
  }

  /** Every latency entry is the moving average and the number of the samples of that peer. */
  lemma {:induction false} LatencyIsHistory(log: seq<Op>)
    requires Legal(log)
    ensures LatencyMatches(State(log).latency.peers, Samples(log))
  {
    if log != [] {
      var before, op := log[..|log| - 1], log[|log| - 1];
      LatencyIsHistory(before);
      TrackersAreProjections(before);
      if op.Answer? && op.id in Outstanding(before) {
        var f := Outstanding(before)[op.id];
        AddSample(State(before).latency.peers, Samples(before), f.target, Elapsed(f.sentAt, op.now));
      }
    }
  }

  /** The weight of a new sample is 0.3. */
  lemma EmaOfTwo(a: real, b: real)
    ensures Ema([a]) == a && Ema([a, b]) == 0.3 * b + 0.7 * a
  {
    assert [a, b][..1] == [a];
  }

  /** What a response measures: the time since the latest unanswered forward of the id, or zero if
      the clock went back, added to the samples of the peer that was asked and weighed into its
      average; nobody else's entry changes. */
  lemma {:induction false} RoundTripTime(log: seq<Op>, op: Op, k: nat)
    requires Legal(log + [op]) && op.Answer? && op.peer in State(log).peers && LatestForward(log, k, op.id)
    requires State(log[..k]).inv[op.id] in State(log).peers
    ensures var target := State(log[..k]).inv[op.id];
            var rtt := if log[k].now <= op.now then op.now - log[k].now else 0.0;
            var before, after := State(log).latency.peers, State(log + [op]).latency.peers;
            && target in Samples(log + [op])
            && Samples(log + [op])[target] == (if target in Samples(log) then Samples(log)[target] else []) + [rtt]
            && after == before[target :=
                 if target in before then
                   PeerLatency(0.3 * rtt + 0.7 * before[target].ema, before[target].sampleCount + 1)
                 else PeerLatency(rtt, 1)]
  {
    hide Legal, Ema;
    Extend(log, op);
    var target := State(log[..k]).inv[op.id];
    var f := Flight(log[k].peer, target, log[k].now);
    assert LatestFlight(log, k, op.id, f);
    OutstandingIsHistory(log, op.id, f);
    TrackersAreProjections(log);
    LatencyIsHistory(log);
  }

  /** A response nobody's unanswered forward waits for, or whose target has left, measures nothing. */
  lemma {:induction false} NothingMeasured(log: seq<Op>, op: Op)
    requires Legal(log + [op]) && op.Answer?
    requires forall k: nat :: LatestForward(log, k, op.id) ==> State(log[..k]).inv[op.id] !in State(log).peers
    ensures State(log + [op]).latency == State(log).latency
  {
    hide Legal, Ema;
    Extend(log, op);
    TrackersAreProjections(log);
    if op.id in Outstanding(log) {
      var f := Outstanding(log)[op.id];
      OutstandingIsHistory(log, op.id, f);
      var k: nat :| LatestFlight(log, k, op.id, f);
      assert f.target == State(log[..k]).inv[op.id];
    }
  }

  lemma {:induction false} EmaBetween(xs: seq<real>, lo: real, hi: real)
    requires xs != [] && forall k :: 0 <= k < |xs| ==> lo <= xs[k] <= hi
    ensures lo <= Ema(xs) <= hi
  {
    if |xs| > 1 {
      EmaBetween(xs[..|xs| - 1], lo, hi);
    }
  }

  lemma {:induction false} EmaNonnegative(xs: seq<real>)
    requires xs != [] && forall k :: 0 <= k < |xs| ==> xs[k] >= 0.0
    ensures Ema(xs) >= 0.0
  {
    if |xs| > 1 {
      EmaNonnegative(xs[..|xs| - 1]);
    }
  }

  lemma {:induction false} SamplesNonnegative(log: seq<Op>)
    ensures forall p, k :: p in Samples(log) && 0 <= k < |Samples(log)[p]| ==> Samples(log)[p][k] >= 0.0
  {
    if log != [] {
      SamplesNonnegative(log[..|log| - 1]);
    }
  }

  /** In every run the average recorded for a peer lies between any bounds on its samples, and
      is never negative. */
  lemma LatencyWithinSamples(log: seq<Op>, p: PeerId, lo: real, hi: real)
    requires Legal(log) && p in State(log).latency.peers
    ensures p in Samples(log) && p in State(log).peers
    ensures State(log).latency.peers[p].sampleCount == |Samples(log)[p]| > 0
    ensures (forall k :: 0 <= k < |Samples(log)[p]| ==> lo <= Samples(log)[p][k] <= hi) ==>
              lo <= State(log).latency.peers[p].ema <= hi
    ensures State(log).latency.peers[p].ema >= 0.0
  {
    LatencyIsHistory(log);
    RunConsistent(log);
    SamplesNonnegative(log);
    EmaNonnegative(Samples(log)[p]);
    if forall k :: 0 <= k < |Samples(log)[p]| ==> lo <= Samples(log)[p][k] <= hi {
      EmaBetween(Samples(log)[p], lo, hi);
    }
  }

  /** In every run each latency entry has a sample, so the statistics cover the whole map. */
  lemma {:induction false} EveryEntryMeasured(log: seq<Op>)
    requires Legal(log)
    ensures Measured(State(log).latency.peers) == State(log).latency.peers.Keys
  {
    LatencyIsHistory(log);
  }
}
