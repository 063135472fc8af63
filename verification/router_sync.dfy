/** SyncInfo pairing and the direction rules: what holds in every run, and exactly where the
    code falls short of its written invariant. */
module RouterSync {
  import opened Types
  import opened Messages
  import opened Tables
  import opened RouterMachine
  import opened RouterLog

  /** The invariant claimed for the sync tracker: every reverse entry has its forward entry.
      (`SyncConsistent` has the other half.) */
  ghost predicate TwoWay(s: RouterState) {
    forall o :: o in s.sync.inboundFor ==>
      var i := s.sync.inboundFor[o];
      i in s.sync.outboundFor && s.sync.outboundFor[i] == o
  }

  /** An already paired inbound peer sends SyncInfo again while some outbound peer is free. */
  ghost predicate Repairs(s: RouterState, op: Op) {
    op.Sync? && op.peer in s.sync.outboundFor && exists o :: o in s.peers && IsFree(s, o)
  }

  /** Two-way agreement survives every operation except precisely a SyncInfo of an inbound peer
      that is already paired, sent while some outbound peer is free. */
  lemma {:induction false} TwoWayStep(log: seq<Op>, op: Op)
    requires Legal(log + [op]) && TwoWay(State(log))
    ensures TwoWay(State(log + [op])) <==> !Repairs(State(log), op)
  {
    hide State, Legal, Joined, FindFree;
    Extend(log, op);
    RunConsistent(log);
    if op.Sync? {
      FindFreeSound(State(log), op.order);
      OrderCovers(State(log), op);
      var s, s' := State(log), State(log + [op]);
      if Repairs(s, op) {
        var o := s.sync.outboundFor[op.peer];
        assert o in s'.sync.inboundFor;
      }
    }
  }

  lemma OrderCovers(s: RouterState, op: Op)
    requires (op.Sync? || op.Relay?) && Enumerates(op.order, s.peers.Keys)
    ensures forall p :: p in s.peers <==> p in op.order
  {
    forall p: PeerId
      ensures p in s.peers <==> p in op.order
    {
      assert multiset(op.order)[p] == multiset(s.peers.Keys)[p];
    }
  }

  /** A peer that leaves is still named by the sync tracker exactly when some outbound peer
      records it without being its current partner. */
  lemma {:induction false} StaleAfterLeave(log: seq<Op>, p: PeerId, o: PeerId)
    requires Legal(log)
    ensures var before, after := State(log).sync, State(log + [Leave(p)]).sync;
            (o in after.inboundFor && after.inboundFor[o] == p) <==>
            (o in before.inboundFor && before.inboundFor[o] == p && !(p in before.outboundFor && before.outboundFor[p] == o))
  {
    Extend(log, Leave(p));
    RunConsistent(log);
  }

  /** The recorded partner of an outbound peer has left. */
  ghost predicate StalePartner(s: RouterState, p: PeerId) {
    IsFullOutbound(s, p) && p in s.sync.inboundFor && s.sync.inboundFor[p] !in s.peers
  }

  lemma FanOutTargets(peers: map<PeerId, PeerEntry>, source: PeerId, m: ProtocolMessage, order: seq<PeerId>)
    ensures forall a :: a in FanOut(peers, source, m, order) ==> a.message == m && Hears(peers, source, a.target)
  {
  }

  /** "Actions target only registered peers" holds of an operation in a reachable state if and
      only if it is not the SyncInfo of an outbound peer whose partner is stale. */
  lemma TargetsRegistered(log: seq<Op>, op: Op)
    requires Legal(log + [op])
    ensures (forall a :: a in StepActions(State(log), op) ==> a.target in State(log).peers)
            <==> !(op.Sync? && StalePartner(State(log), op.peer))
  {
    hide State, Legal, Joined, FanOut, FindFree;
    Extend(log, op);
    RunConsistent(log);
    var s := State(log);
    match op
    case Relay(p, m, order) => FanOutTargets(s.peers, p, m, order);
    case Sync(p, body, order) =>
      FindFreeSound(s, order);
      if StalePartner(s, p) {
        assert Send(s.sync.inboundFor[p], SyncInfo(body)) in StepActions(s, op);
      }
    case _ =>
  }

  // ----- Whole runs -----

  /** Operation `k` of the run is a SyncInfo of a paired inbound peer while an outbound peer is free. */
  ghost predicate RepairsAt(log: seq<Op>, k: nat) {
    k < |log| && Repairs(State(log[..k]), log[k])
  }

  lemma {:induction false} PrefixLegal(log: seq<Op>, k: nat)
    requires Legal(log) && k <= |log|
    ensures Legal(log[..k])
  {
    if k < |log| {
      var before := log[..|log| - 1];
      PrefixLegal(before, k);
      assert before[..k] == log[..k];
    } else {
      assert log[..k] == log;
    }
  }

  lemma PrefixStep(log: seq<Op>, k: nat)
    requires Legal(log) && k < |log|
    ensures Legal(log[..k] + [log[k]]) && log[..k] + [log[k]] == log[..k + 1]
  {
    PrefixLegal(log, k + 1);
    assert log[..k] + [log[k]] == log[..k + 1];
  }

  lemma {:induction false} TwoWayUpTo(log: seq<Op>, k: nat)
    requires Legal(log) && k <= |log| && forall j :: 0 <= j < k ==> !RepairsAt(log, j)
    ensures TwoWay(State(log[..k]))
  {
    if k > 0 {
      TwoWayUpTo(log, k - 1);
      PrefixStep(log, k - 1);
      assert !RepairsAt(log, k - 1);
      TwoWayStep(log[..k - 1], log[k - 1]);
    }
  }

  /** A run is two-way consistent throughout if and only if no already paired inbound peer ever
      sends SyncInfo while some outbound peer is free. */
  lemma {:induction false} TwoWayThroughout(log: seq<Op>)
    requires Legal(log)
    ensures (forall k :: 0 <= k <= |log| ==> TwoWay(State(log[..k])))
            <==> forall k :: 0 <= k < |log| ==> !RepairsAt(log, k)
  {
    if forall k :: 0 <= k < |log| ==> !RepairsAt(log, k) {
      forall k | 0 <= k <= |log|
        ensures TwoWay(State(log[..k]))
      {
        TwoWayUpTo(log, k);
      }
    }
    if forall k :: 0 <= k <= |log| ==> TwoWay(State(log[..k])) {
      forall k | 0 <= k < |log|
        ensures !RepairsAt(log, k)
      {
        PrefixStep(log, k);
        assert TwoWay(State(log[..k])) && TwoWay(State(log[..k + 1]));
        TwoWayStep(log[..k], log[k]);
      }
    }
  }

  /** In such a run every action ever emitted targets a peer registered at that moment. */
  lemma {:induction false} TargetsRegisteredThroughout(log: seq<Op>, k: nat, a: Action)
    requires Legal(log) && k < |log| && forall j :: 0 <= j < k ==> !RepairsAt(log, j)
    requires a in StepActions(State(log[..k]), log[k])
    ensures a.target in State(log[..k]).peers
  {
    hide State, Legal, StepActions, IsFullOutbound;
    PrefixStep(log, k);
    TwoWayUpTo(log, k);
    PrefixLegal(log, k);
    NoStalePartner(log[..k], log[k].peer);
    TargetsRegistered(log[..k], log[k]);
  }

  lemma NoStalePartner(log: seq<Op>, p: PeerId)
    requires Legal(log) && TwoWay(State(log))
    ensures !StalePartner(State(log), p)
  {
    RunConsistent(log);
  }

  /** Gossip and SyncInfo cross between the inbound and the outbound side, and SyncInfo neither
      comes from nor goes to a Light inbound peer. */
  lemma Crossing(log: seq<Op>, op: Op, a: Action)
    requires Legal(log + [op]) && a in StepActions(State(log), op)
    requires a.message.Inv? || a.message.Unknown? || a.message.SyncInfo?
    ensures var peers := State(log).peers;
            && op.peer in peers
            && (op.Sync? || op.Relay?)
            && (op.Sync? ==> a.message == SyncInfo(op.body))
            && (op.Relay? ==> a.message == op.message)
            && (a.target in peers ==> peers[a.target].direction == Opposite(peers[op.peer].direction))
            && (a.message.SyncInfo? ==> peers[op.peer].mode == Full)
            && (a.message.SyncInfo? && a.target in peers && peers[a.target].direction == Inbound
                ==> peers[a.target].mode == Full)
  {
    hide State, Legal, Joined, FanOut, FindFree;
    Extend(log, op);
    RunConsistent(log);
    var s := State(log);
    match op
    case Relay(p, m, order) => FanOutTargets(s.peers, p, m, order);
    case Sync(p, body, order) => FindFreeSound(s, order);
    case _ =>
  }

  /** A Full inbound peer's SyncInfo is forwarded if and only if some outbound peer is free,
      whichever `find` meets first, and the two are then recorded as partners in both maps. */
  lemma SyncForwarded(log: seq<Op>, op: Op)
    requires Legal(log + [op]) && op.Sync? && IsFullInbound(State(log), op.peer)
    ensures StepActions(State(log), op) == [] <==> forall o :: o in State(log).peers ==> !IsFree(State(log), o)
    ensures forall a :: a in StepActions(State(log), op) ==>
              var after := State(log + [op]).sync;
              && IsFree(State(log), a.target)
              && op.peer in after.outboundFor && after.outboundFor[op.peer] == a.target
              && a.target in after.inboundFor && after.inboundFor[a.target] == op.peer
  {
    Extend(log, op);
    FindFreeSound(State(log), op.order);
    OrderCovers(State(log), op);
  }

  function Targets(actions: seq<Action>): seq<PeerId> {
    seq(|actions|, i requires 0 <= i < |actions| => actions[i].target)
  }

  lemma {:induction false} FanOutCount(
    peers: map<PeerId, PeerEntry>, source: PeerId, m: ProtocolMessage, order: seq<PeerId>, p: PeerId)
    ensures multiset(Targets(FanOut(peers, source, m, order)))[p] ==
            if Hears(peers, source, p) then multiset(order)[p] else 0
  {
    if order != [] {
      FanOutCount(peers, source, m, order[1..], p);
      var head := if Hears(peers, source, order[0]) then [Send(order[0], m)] else [];
      TargetsAppend(head, FanOut(peers, source, m, order[1..]));
      CountHead(order, p);
      assert Targets(head) == if head == [] then [] else [order[0]];
    }
  }

  lemma TargetsAppend(a: seq<Action>, b: seq<Action>)
    ensures Targets(a + b) == Targets(a) + Targets(b)
  {
  }

  lemma CountHead(order: seq<PeerId>, p: PeerId)
    requires order != []
    ensures multiset(order)[p] == (if order[0] == p then 1 else 0) + multiset(order[1..])[p]
  {
    assert order == [order[0]] + order[1..];
  }

  /** In whatever order the registry is iterated, an Inv or unknown message reaches every
      registered peer of the other direction exactly once, and nobody else. */
  lemma FanOutOnce(log: seq<Op>, op: Op)
    requires Legal(log + [op]) && op.Relay?
    ensures var peers := State(log).peers;
            var audience := set p | p in peers && op.peer in peers && peers[p].direction != peers[op.peer].direction;
            && multiset(Targets(StepActions(State(log), op))) == multiset(audience)
            && forall a :: a in StepActions(State(log), op) ==> a.message == op.message
  {
    Extend(log, op);
    var peers := State(log).peers;
    var audience := set p | p in peers && op.peer in peers && peers[p].direction != peers[op.peer].direction;
    FanOutTargets(peers, op.peer, op.message, op.order);
    forall p: PeerId
      ensures multiset(Targets(StepActions(State(log), op)))[p] == multiset(audience)[p]
    {
      FanOutCount(peers, op.peer, op.message, op.order, p);
      assert multiset(op.order)[p] == multiset(peers.Keys)[p];
    }
  }

  // ----- How many SyncInfos can be forwarded while nobody leaves -----

  /** The outbound peers to which inbound SyncInfos were forwarded during `ops`, in order. */
  function SyncTargets(s: RouterState, ops: seq<Op>): seq<PeerId> {
    if ops == [] then []
    else
      var before, op := Run(s, ops[..|ops| - 1]), ops[|ops| - 1];
      SyncTargets(s, ops[..|ops| - 1])
      + if op.Sync? && IsFullInbound(before, op.peer) then Targets(StepActions(before, op)) else []
  }

  ghost predicate NobodyLeaves(ops: seq<Op>) {
    forall k :: 0 <= k < |ops| ==> !ops[k].Leave?
  }

  function OutboundJoins(ops: seq<Op>): set<PeerId> {
    set k | 0 <= k < |ops| && ops[k].Join? && ops[k].direction == Outbound :: ops[k].peer
  }

  ghost function FreeOutbound(s: RouterState): set<PeerId> {
    set p | p in s.peers && IsFree(s, p)
  }

  /** Invariant of a stretch in which nobody leaves. */
  ghost predicate StretchInvariant(s: RouterState, ops: seq<Op>) {
    var end, targets := Run(s, ops), SyncTargets(s, ops);
    && s.sync.inboundFor.Keys <= end.sync.inboundFor.Keys
    && (forall p :: IsOutbound(end, p) ==> IsOutbound(s, p) || p in OutboundJoins(ops))
    && (forall k :: 0 <= k < |targets| ==>
          && targets[k] in end.sync.inboundFor
          && targets[k] in FreeOutbound(s) + OutboundJoins(ops))
    && (forall j, k :: 0 <= j < k < |targets| ==> targets[j] != targets[k])
  }

  /** One operation other than a disconnect. */
  lemma WithoutLeave(s: RouterState, op: Op)
    requires !op.Leave?
    ensures var s' := StepState(s, op);
            && s.sync.inboundFor.Keys <= s'.sync.inboundFor.Keys
            && (forall p :: IsOutbound(s', p) ==> IsOutbound(s, p) || (op.Join? && op.direction == Outbound && p == op.peer))
    ensures op.Sync? && IsFullInbound(s, op.peer) && StepActions(s, op) != [] ==>
              var o := StepActions(s, op)[0].target;
              Targets(StepActions(s, op)) == [o] && IsFree(s, o) && o in StepState(s, op).sync.inboundFor
  {
    if op.Sync? {
      FindFreeSound(s, op.order);
    }
  }

  lemma {:induction false} Stretch(s: RouterState, ops: seq<Op>)
    requires NobodyLeaves(ops)
    ensures StretchInvariant(s, ops)
  {
    if ops != [] {
      var ops', op := ops[..|ops| - 1], ops[|ops| - 1];
      Stretch(s, ops');
      WithoutLeave(Run(s, ops'), op);
      JoinsGrow(ops);
    }
  }

  lemma JoinsGrow(ops: seq<Op>)
    requires ops != []
    ensures var op := ops[|ops| - 1];
            OutboundJoins(ops) ==
            OutboundJoins(ops[..|ops| - 1]) + if op.Join? && op.direction == Outbound then {op.peer} else {}
  {
    var ops' := ops[..|ops| - 1];
    forall k | 0 <= k < |ops'| && ops'[k].Join? && ops'[k].direction == Outbound
      ensures ops'[k].peer in OutboundJoins(ops)
    {
      assert ops[k] == ops'[k];
    }
  }

  lemma DistinctBound(xs: seq<PeerId>, bound: set<PeerId>)
    requires forall j, k :: 0 <= j < k < |xs| ==> xs[j] != xs[k]
    requires forall k :: 0 <= k < |xs| ==> xs[k] in bound
    ensures |xs| <= |bound|
  {
    if xs != [] {
      DistinctBound(xs[1..], bound - {xs[0]});
    }
  }

  /** From any state and for as long as nobody disconnects, inbound SyncInfos are forwarded to
      pairwise distinct peers, at most as many as were free at the start plus those that joined
      since, whatever peer `find` picks. */
  lemma SyncForwardsBounded(s: RouterState, ops: seq<Op>)
    requires NobodyLeaves(ops)
    ensures var targets := SyncTargets(s, ops);
            && (forall j, k :: 0 <= j < k < |targets| ==> targets[j] != targets[k])
            && |targets| <= |FreeOutbound(s)| + |OutboundJoins(ops)|
  {
    Stretch(s, ops);
    DistinctBound(SyncTargets(s, ops), FreeOutbound(s) + OutboundJoins(ops));
  }

  ghost predicate ThreePeers(s: RouterState) {
    s.peers == map[1 := PeerEntry(Outbound, Full), 2 := PeerEntry(Outbound, Full), 3 := PeerEntry(Inbound, Full)]
  }

  lemma JoinThree() returns (log: seq<Op>)
    ensures Legal(log) && ThreePeers(State(log)) && State(log).sync == SyncPairs(map[], map[])
  {
    log := [Join(1, Outbound, Full)];
    Extend([], log[0]);
    assert [] + [Join(1, Outbound, Full)] == log;
    var log2 := log + [Join(2, Outbound, Full)];
    Extend(log, Join(2, Outbound, Full));
    Extend(log2, Join(3, Inbound, Full));
    log := log2 + [Join(3, Inbound, Full)];
  }

  lemma FirstFree(s: RouterState)
    requires ThreePeers(s) && 2 !in s.sync.inboundFor
    ensures Enumerates([1, 2, 3], s.peers.Keys)
    ensures FindFree(s, [1, 2, 3]) == Some(if 1 in s.sync.inboundFor then 2 else 1)
  {
    assert s.peers.Keys == {1, 2, 3};
    assert multiset({1, 2, 3}) == multiset{1, 2, 3};
    var order: seq<PeerId> := [1, 2, 3];
    assert order[1..] == [2, 3];
    assert IsFree(s, 2) && FindFree(s, [2, 3]) == Some(2);
  }

  lemma SyncStep(log: seq<Op>) returns (log': seq<Op>)
    requires Legal(log) && ThreePeers(State(log)) && 2 !in State(log).sync.inboundFor
    ensures Legal(log') && ThreePeers(State(log'))
    ensures State(log').sync == State(log).sync.Pair(3, if 1 in State(log).sync.inboundFor then 2 else 1)
  {
    hide State, Legal, Joined, FindFree;
    log' := log + [Sync(3, [], [1, 2, 3])];
    FirstFree(State(log));
    Extend(log, Sync(3, [], [1, 2, 3]));
  }

  lemma PairedTwice() returns (log: seq<Op>)
    ensures Legal(log) && ThreePeers(State(log))
    ensures State(log).sync == SyncPairs(map[3 := 2], map[1 := 3, 2 := 3])
  {
    var three := JoinThree();
    var once := SyncStep(three);
    log := SyncStep(once);
  }

  /** A run that breaks the written invariants: peer 3 syncs twice and is paired with peers 1
      and 2; it leaves, and peer 1 would still answer it. */
  lemma StaleRun() returns (paired: seq<Op>, stale: seq<Op>)
    ensures Legal(paired) && !TwoWay(State(paired))
    ensures Legal(stale) && StalePartner(State(stale), 1)
  {
    paired := PairedTwice();
    assert 1 in State(paired).sync.inboundFor;
    stale := paired + [Leave(3)];
    Extend(paired, Leave(3));
  }
}
