/** What every run of the router keeps. A run is a log of operations from the empty router, in
    which a peer id joins at most once and HashMaps are iterated in any order. */
module RouterLog {
  import opened Types
  import opened Messages
  import opened Tables
  import opened RouterMachine

  function State(log: seq<Op>): RouterState {
    Run(EMPTY, log)
  }

  function Joined(log: seq<Op>): set<PeerId> {
    if log == [] then {}
    else
      var last := log[|log| - 1];
      Joined(log[..|log| - 1]) + if last.Join? then {last.peer} else {}
  }

  ghost predicate LegalOp(s: RouterState, joined: set<PeerId>, op: Op) {
    && (op.Join? ==> op.peer !in joined)
    && (op.Relay? || op.Sync? ==> Enumerates(op.order, s.peers.Keys))
    && (op.Relay? ==> op.message.Inv? || op.message.Unknown?)
  }

  ghost predicate Legal(log: seq<Op>) {
    log == [] || (
      var before := log[..|log| - 1];
      Legal(before) && LegalOp(State(before), Joined(before), log[|log| - 1]))
  }

  ghost predicate TablesConsistent(s: RouterState) {
    && (forall id :: id in s.inv ==> s.inv[id] in s.peers)
    && (forall id :: id in s.requests ==> s.requests[id] in s.peers)
    && (forall id :: id in s.latency.pending ==> s.latency.pending[id].target in s.peers)
    && (forall p :: p in s.latency.peers ==> p in s.peers)
  }

  ghost predicate IsOutbound(s: RouterState, p: PeerId) {
    p in s.peers && s.peers[p].direction == Outbound
  }

  /** The half of the pairing invariant that the code does keep. */
  ghost predicate SyncConsistent(s: RouterState, joined: set<PeerId>) {
    && s.peers.Keys <= joined
    && (forall i :: i in s.sync.outboundFor ==>
          && IsFullInbound(s, i)
          && s.sync.outboundFor[i] in s.sync.inboundFor
          && s.sync.inboundFor[s.sync.outboundFor[i]] == i)
    && (forall o :: o in s.sync.inboundFor ==>
          && IsOutbound(s, o)
          && s.sync.inboundFor[o] in joined
          && (s.sync.inboundFor[o] in s.peers ==> IsFullInbound(s, s.sync.inboundFor[o])))
  }

  lemma {:induction false} FindFreeSound(s: RouterState, order: seq<PeerId>)
    ensures match FindFree(s, order)
            case Some(o) => o in order && IsFree(s, o)
            case None => forall o :: o in order ==> !IsFree(s, o)
  {
    if order != [] && !IsFree(s, order[0]) {
      FindFreeSound(s, order[1..]);
      forall o | o in order
        ensures o == order[0] || o in order[1..]
      {
        assert order == [order[0]] + order[1..];
      }
    }
  }

  lemma StepTables(s: RouterState, op: Op)
    requires TablesConsistent(s)
    ensures TablesConsistent(StepState(s, op))
  {
  }

  lemma StepSync(s: RouterState, joined: set<PeerId>, op: Op)
    requires SyncConsistent(s, joined) && LegalOp(s, joined, op)
    ensures SyncConsistent(StepState(s, op), joined + if op.Join? then {op.peer} else {})
  {
    hide FindFree, Enumerates;
    if op.Sync? {
      FindFreeSound(s, op.order);
      if IsFullInbound(s, op.peer) && FindFree(s, op.order).Some? {
        PairSync(s, joined, op.peer, FindFree(s, op.order).value);
      }
    } else if op.Leave? {
      LeaveSync(s, joined, op.peer);
    }
  }

  lemma PairSync(s: RouterState, joined: set<PeerId>, i: PeerId, o: PeerId)
    requires SyncConsistent(s, joined) && IsFullInbound(s, i) && IsFree(s, o)
    ensures SyncConsistent(s.(sync := s.sync.Pair(i, o)), joined)
  {
  }

  lemma LeaveSync(s: RouterState, joined: set<PeerId>, p: PeerId)
    requires SyncConsistent(s, joined)
    ensures SyncConsistent(StepState(s, Leave(p)), joined)
  {
  }

  lemma {:induction false} RunConsistent(log: seq<Op>)
    requires Legal(log)
    ensures TablesConsistent(State(log))
    ensures SyncConsistent(State(log), Joined(log))
  {
    if log != [] {
      var before := log[..|log| - 1];
      RunConsistent(before);
      StepTables(State(before), log[|log| - 1]);
      StepSync(State(before), Joined(before), log[|log| - 1]);
    }
  }

  /** A router without peers has no routing state at all. */
  lemma EmptyRegistry(s: RouterState, joined: set<PeerId>)
    requires TablesConsistent(s) && SyncConsistent(s, joined) && s.peers == map[]
    ensures s == EMPTY
  {
    assert s.inv.Keys == {} && s.requests.Keys == {};
    assert s.latency.pending.Keys == {} && s.latency.peers.Keys == {};
    assert s.sync.outboundFor.Keys == {} && s.sync.inboundFor.Keys == {};
    assert s.inv == map[] && s.requests == map[];
    assert s.latency == Latencies(map[], map[]);
    assert s.sync == SyncPairs(map[], map[]);
  }

  lemma Extend(log: seq<Op>, op: Op)
    ensures (log + [op])[..|log|] == log
    ensures State(log + [op]) == StepState(State(log), op)
    ensures Joined(log + [op]) == Joined(log) + if op.Join? then {op.peer} else {}
    ensures Legal(log + [op]) <==> Legal(log) && LegalOp(State(log), Joined(log), op)
  {
    assert (log + [op])[..|log|] == log;
  }

  // ----- Events -----

  lemma LastOfAppend(a: seq<Op>, b: seq<Op>)
    requires b != []
    ensures (a + b)[..|a + b| - 1] == a + b[..|b| - 1]
    ensures (a + b)[|a + b| - 1] == b[|b| - 1]
  {
  }

  lemma {:induction false} RunAppend(s: RouterState, a: seq<Op>, b: seq<Op>)
    ensures Run(s, a + b) == Run(Run(s, a), b)
  {
    if b == [] {
      assert a + b == a;
    } else {
      LastOfAppend(a, b);
      RunAppend(s, a, b[..|b| - 1]);
    }
  }

  lemma {:induction false} EmittedAppend(s: RouterState, a: seq<Op>, b: seq<Op>)
    ensures Emitted(s, a + b) == Emitted(s, a) + Emitted(Run(s, a), b)
  {
    if b == [] {
      assert a + b == a;
    } else {
      var b', last := b[..|b| - 1], StepActions(Run(s, a + b[..|b| - 1]), b[|b| - 1]);
      LastOfAppend(a, b);
      assert Emitted(s, a + b) == Emitted(s, a + b') + last;
      RunAppend(s, a, b');
      EmittedAppend(s, a, b');
      AppendAssociative(Emitted(s, a), Emitted(Run(s, a), b'), last);
    }
  }

  lemma AppendAssociative(a: seq<Action>, b: seq<Action>, c: seq<Action>)
    ensures (a + b) + c == a + (b + c)
  {
  }

  /** Operations other than joining and leaving do not touch the registry. */
  lemma {:induction false} RegistryKept(s: RouterState, ops: seq<Op>)
    requires forall k :: 0 <= k < |ops| ==> !ops[k].Join? && !ops[k].Leave?
    ensures Run(s, ops).peers == s.peers
  {
    if ops != [] {
      RegistryKept(s, ops[..|ops| - 1]);
    }
  }

  lemma {:induction false} LegalAppend(log: seq<Op>, ops: seq<Op>)
    requires Legal(log)
    requires forall k :: 0 <= k < |ops| ==> !ops[k].Join? && !ops[k].Leave? && LegalOp(State(log), {}, ops[k])
    ensures Legal(log + ops)
  {
    if ops == [] {
      assert log + ops == log;
    } else {
      hide StepState, Run, Joined, Enumerates;
      var ops', op := ops[..|ops| - 1], ops[|ops| - 1];
      LegalAppend(log, ops');
      assert log + ops == log + ops' + [op];
      RunAppend(EMPTY, log, ops');
      RegistryKept(State(log), ops');
      Extend(log + ops', op);
    }
  }

  lemma OperationsLegal(s: RouterState, e: Event, order: seq<PeerId>, clock: nat -> real)
    requires Enumerates(order, s.peers.Keys) && !e.PeerDisconnected?
    ensures var ops := Operations(e, order, clock);
            forall k :: 0 <= k < |ops| ==> !ops[k].Join? && !ops[k].Leave? && LegalOp(s, {}, ops[k])
  {
  }

  /** Handling an event in a reachable state continues the run: every theorem about runs applies
      to the state after any sequence of registrations and events. */
  lemma {:induction false} EventExtendsRun(log: seq<Op>, e: Event, order: seq<PeerId>, clock: nat -> real)
    requires Legal(log) && Enumerates(order, State(log).peers.Keys)
    ensures var ops := Operations(e, order, clock);
            && Legal(log + ops)
            && State(log + ops) == Run(State(log), ops)
            && Emitted(EMPTY, log + ops) == Emitted(EMPTY, log) + Emitted(State(log), ops)
  {
    var ops := Operations(e, order, clock);
    RunAppend(EMPTY, log, ops);
    EmittedAppend(EMPTY, log, ops);
    if e.PeerDisconnected? {
      Extend(log, Leave(e.peer));
    } else {
      OperationsLegal(State(log), e, order, clock);
      LegalAppend(log, ops);
    }
  }
}
