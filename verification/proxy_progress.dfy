/** What can still happen from every reachable state of the running proxy: whatever is in hand can
    be sent, the event queue can be drained, a received message can be delivered to every peer it is
    meant for, and all peers can leave and take every trace with them. No interleaving gets stuck. */
module ProxyProgress {
  import opened Types
  import opened Frames
  import opened Messages
  import opened RouterMachine
  import opened RouterLog
  import opened RouterSync
  import opened RouterEffects
  import opened ProxySystem
  import opened ProxyHistory

  /** Everything but what the main loop and the keepalive task have in hand and have taken up. */
  ghost predicate SameWorld(s: System, s': System) {
    s'.log == s.log && s'.senders == s.senders && s'.queue == s.queue && s'.tasks == s.tasks && s'.nextId == s.nextId
  }

  /** What becomes of these actions: sent to the targets with a sender, dropped otherwise. */
  ghost function Outcomes(s: System, actions: seq<Action>): seq<Outcome> {
    seq(|actions|, k requires 0 <= k < |actions| =>
      Outcome(actions[k], actions[k].target in s.senders, actions[k].target in s.Router().peers))
  }

  lemma OutcomesHead(s: System, actions: seq<Action>)
    requires actions != []
    ensures Outcomes(s, actions) == Outcomes(s, actions[..1]) + Outcomes(s, actions[1..])
  {
  }

  /** The actions in hand were dealt with, and nothing else happened. */
  ghost predicate DealtWith(s: System, s': System, main: seq<Action>, keepalive: seq<Action>) {
    && SameWorld(s, s')
    && s'.handled == s.handled + Outcomes(s, main)
    && s'.pinged == s.pinged + Outcomes(s, keepalive)
  }

  function Mine(who: Who, asked: Who, actions: seq<Action>): seq<Action> {
    if who == asked then actions else []
  }

  lemma SendOne(run: seq<Step>, who: Who)
    requires Possible(run) && CourierOf(After(run), who).Sending? && CourierOf(After(run), who).actions != []
    ensures Possible(run + [SendNext(who)])
    ensures var s, s' := After(run), After(run + [SendNext(who)]);
            var actions := CourierOf(s, who).actions;
            && CourierOf(s', who) == Sending(actions[1..])
            && s'.main == (if who == MainLoop then Sending(actions[1..]) else s.main)
            && s'.keepalive == (if who == Keepalive then Sending(actions[1..]) else s.keepalive)
            && DealtWith(s, s', Mine(MainLoop, who, actions[..1]), Mine(Keepalive, who, actions[..1]))
  {
    Next(run, SendNext(who));
  }

  lemma DealtWithBoth(s: System, s1: System, s2: System, a: seq<Action>, b: seq<Action>, c: seq<Action>, d: seq<Action>)
    requires DealtWith(s, s1, a, b) && DealtWith(s1, s2, c, d)
    ensures DealtWith(s, s2, a + c, b + d)
  {
    assert Outcomes(s, a + c) == Outcomes(s, a) + Outcomes(s1, c);
    assert Outcomes(s, b + d) == Outcomes(s, b) + Outcomes(s1, d);
  }

  lemma {:induction false} SendAll(run: seq<Step>, who: Who) returns (run': seq<Step>)
    requires Possible(run) && CourierOf(After(run), who).Sending?
    ensures run <= run' && Possible(run')
    ensures var s, s' := After(run), After(run');
            var actions := CourierOf(s, who).actions;
            && s'.main == (if who == MainLoop then Idle else s.main)
            && s'.keepalive == (if who == Keepalive then Idle else s.keepalive)
            && DealtWith(s, s', Mine(MainLoop, who, actions), Mine(Keepalive, who, actions))
    decreases CourierOf(After(run), who).actions
  {
    hide Possible, After, Enabled, Apply, State, DealtWith;
    var s := After(run);
    var actions := CourierOf(s, who).actions;
    if actions == [] {
      run' := run + [Unlock(who)];
      Unlocked(run, who);
    } else {
      var one := run + [SendNext(who)];
      SendOne(run, who);
      run' := SendAll(one, who);
      assert actions[..1] + actions[1..] == actions;
      var none: seq<Action> := [];
      assert none + none == none;
      DealtWithBoth(
        s, After(one), After(run'), Mine(MainLoop, who, actions[..1]), Mine(Keepalive, who, actions[..1]),
        Mine(MainLoop, who, actions[1..]), Mine(Keepalive, who, actions[1..]));
    }
  }

  lemma Unlocked(run: seq<Step>, who: Who)
    requires Possible(run) && CourierOf(After(run), who).Sending? && CourierOf(After(run), who).actions == []
    ensures Possible(run + [Unlock(who)])
    ensures var s, s' := After(run), After(run + [Unlock(who)]);
            && s'.main == (if who == MainLoop then Idle else s.main)
            && s'.keepalive == (if who == Keepalive then Idle else s.keepalive)
            && DealtWith(s, s', [], [])
  {
    Next(run, Unlock(who));
  }

  lemma Locks(run: seq<Step>, who: Who)
    requires Possible(run) && CourierOf(After(run), who).Waiting? && !After(run).Locked()
    ensures Possible(run + [Lock(who)])
    ensures var s, s' := After(run), After(run + [Lock(who)]);
            && s'.main == (if who == MainLoop then Sending(s.main.actions) else s.main)
            && s'.keepalive == (if who == Keepalive then Sending(s.keepalive.actions) else s.keepalive)
            && DealtWith(s, s', [], [])
  {
    Next(run, Lock(who));
  }

  /** One of the two finishes, if the other does not hold the sender map. */
  lemma {:induction false} Finish(run: seq<Step>, who: Who) returns (run': seq<Step>)
    requires Possible(run) && !(if who == MainLoop then After(run).keepalive.Sending? else After(run).main.Sending?)
    ensures run <= run' && Possible(run')
    ensures var s, s' := After(run), After(run');
            var actions := CourierOf(s, who).Load();
            && s'.main == (if who == MainLoop then Idle else s.main)
            && s'.keepalive == (if who == Keepalive then Idle else s.keepalive)
            && DealtWith(s, s', Mine(MainLoop, who, actions), Mine(Keepalive, who, actions))
  {
    hide Possible, After, Enabled, Apply, State, DealtWith;
    var s := After(run);
    match CourierOf(s, who)
    case Idle =>
      run' := run;
      NothingDone(s);
    case Waiting(actions) =>
      var locked := run + [Lock(who)];
      Locks(run, who);
      run' := SendAll(locked, who);
      assert [] + Mine(MainLoop, who, actions) == Mine(MainLoop, who, actions);
      assert [] + Mine(Keepalive, who, actions) == Mine(Keepalive, who, actions);
      DealtWithBoth(
        s, After(locked), After(run'), [], [], Mine(MainLoop, who, actions), Mine(Keepalive, who, actions));
    case Sending(_) =>
      run' := SendAll(run, who);
  }

  lemma NothingDone(s: System)
    ensures DealtWith(s, s, [], [])
  {
  }

  /** From every reachable state, everything the main loop and the keepalive task have in hand can be
      dealt with, in order, with nothing else happening: the sender map is never locked for good. */
  lemma {:induction false} CanFinishSending(run: seq<Step>) returns (run': seq<Step>)
    requires Possible(run)
    ensures run <= run' && Possible(run')
    ensures After(run').main.Idle? && After(run').keepalive.Idle?
    ensures DealtWith(After(run), After(run'), After(run).main.Load(), After(run).keepalive.Load())
  {
    hide Possible, After, Enabled, Apply, State, DealtWith;
    var s := After(run);
    var m, k := s.main.Load(), s.keepalive.Load();
    NeverBothSending(run);
    assert m + [] == m && [] + m == m && k + [] == k && [] + k == k;
    if s.keepalive.Sending? {
      var first := Finish(run, Keepalive);
      run' := Finish(first, MainLoop);
      DealtWithBoth(s, After(first), After(run'), [], k, m, []);
    } else {
      var first := Finish(run, MainLoop);
      run' := Finish(first, Keepalive);
      DealtWithBoth(s, After(first), After(run'), m, [], [], k);
    }
  }

  lemma NeverBothSending(run: seq<Step>)
    requires Possible(run)
    ensures !(After(run).main.Sending? && After(run).keepalive.Sending?)
  {
    Invariant(run);
  }

  // ----- The queue -----

  lemma {:induction false} SomeOrder(keys: set<PeerId>) returns (order: seq<PeerId>)
    ensures Enumerates(order, keys)
    decreases keys
  {
    if keys == {} {
      order := [];
    } else {
      var p :| p in keys;
      var rest := SomeOrder(keys - {p});
      order := rest + [p];
      assert keys == (keys - {p}) + {p};
    }
  }

  /** Tasks and senders are as before. */
  ghost predicate SameTasks(s: System, s': System) {
    s'.tasks == s.tasks && s'.senders == s.senders && s'.nextId == s.nextId
  }

  /** The main loop takes up the next event. */
  lemma TakeNext(run: seq<Step>) returns (run': seq<Step>)
    requires Possible(run) && After(run).main.Idle? && After(run).queue != []
    ensures run <= run' && |run'| == |run| + 1 && Possible(run')
    ensures var s, s' := After(run), After(run');
            && SameTasks(s, s') && s'.queue == s.queue[1..] && s'.keepalive == s.keepalive
            && Handled(s.Router(), s.queue[0], _ => 0.0, s'.Router(), s'.main.Load())
  {
    hide Handled, Operations, State, Emitted;
    var order := SomeOrder(After(run).Router().peers.Keys);
    var clock: nat -> real := _ => 0.0;
    run' := run + [Handle(order, clock)];
    Next(run, Handle(order, clock));
    OldestEventHandled(run, order, clock);
    EventsConserved(run);
  }

  /** From every reachable state the queue can be drained down to any number of events, in order,
      while no task moves. */
  lemma {:induction false} CanDrainTo(run: seq<Step>, keep: nat) returns (run': seq<Step>)
    requires Possible(run) && keep <= |After(run).queue|
    ensures run <= run' && Possible(run')
    ensures var s, s' := After(run), After(run');
            && SameTasks(s, s') && s'.queue == s.queue[|s.queue| - keep..] && s'.main.Idle? && s'.keepalive.Idle?
    decreases |After(run).queue|
  {
    hide Possible, After, Handled;
    run' := CanFinishSending(run);
    var s := After(run');
    if |s.queue| > keep {
      var next := TakeNext(run');
      run' := CanDrainTo(next, keep);
      assert s.queue[1..][|s.queue| - 1 - keep..] == s.queue[|s.queue| - keep..];
    } else {
      assert s.queue[0..] == s.queue;
    }
  }

  // ----- Delivery -----

  lemma ReceiveQueues(run: seq<Step>, p: PeerId, f: Frame, m: ProtocolMessage)
    requires Possible(run) && p in After(run).In(Active) && |f.body| <= MAX_BODY_SIZE && MessageOf(f) == Ok(m)
    ensures Possible(run + [Receive(p, f)])
    ensures var s, s' := After(run), After(run + [Receive(p, f)]);
            SameTasks(s, s') && s'.queue == s.queue + [Message(p, m)]
  {
    Next(run, Receive(p, f));
  }

  lemma ActiveIsRegistered(run: seq<Step>, p: PeerId)
    requires Possible(run) && p in After(run).In(Active)
    ensures p in After(run).senders && p in After(run).Router().peers
    ensures After(run).Router().peers[p] == PeerEntry(After(run).tasks[p].direction, After(run).tasks[p].mode)
  {
    hide State;
    Invariant(run);
  }

  lemma ReachesEach(peers: map<PeerId, PeerEntry>, p: PeerId, m: ProtocolMessage, actions: seq<Action>, q: PeerId)
    requires Reaches(peers, p, m, actions) && q in peers && peers[q].direction != peers[p].direction
    ensures Send(q, m) in actions
  {
    var audience := set q | q in peers && peers[q].direction != peers[p].direction;
    assert q in multiset(audience);
    assert q in multiset(Targets(actions));
    assert q in Targets(actions);
    var k :| 0 <= k < |actions| && Targets(actions)[k] == q;
    assert actions[k] in actions && actions[k] == Send(q, m);
  }

  lemma DealtWithEach(s: System, s': System, actions: seq<Action>, others: seq<Action>, a: Action)
    requires DealtWith(s, s', actions, others) && a in actions
    ensures Outcome(a, a.target in s.senders, a.target in s.Router().peers) in s'.handled
  {
    hide State;
    var k :| 0 <= k < |actions| && actions[k] == a;
    assert Outcomes(s, actions)[k] in Outcomes(s, actions);
  }

  /** Whatever else is going on, an Inv or a message of unknown kind that an active peer sends now can
      still be delivered to any active peer of the other direction, unchanged. */
  lemma {:induction false} GossipCanBeDelivered(run: seq<Step>, p: PeerId, q: PeerId, f: Frame, m: ProtocolMessage)
    returns (run': seq<Step>)
    requires Possible(run) && p in After(run).In(Active) && q in After(run).In(Active)
    requires After(run).tasks[p].direction != After(run).tasks[q].direction
    requires |f.body| <= MAX_BODY_SIZE && MessageOf(f) == Ok(m) && (m.Inv? || m.Unknown?)
    ensures run + [Receive(p, f)] <= run' && Possible(run')
    ensures Outcome(Send(q, m), true, true) in After(run').handled
  {
    hide Possible, After, State, DealtWith, Reaches, Announced;
    ReceiveQueues(run, p, f, m);
    var received := run + [Receive(p, f)];
    var drained := CanDrainTo(received, 1);
    var s := After(drained);
    assert s.queue == [Message(p, m)];
    ActiveIsRegistered(drained, p);
    ActiveIsRegistered(drained, q);
    var taken := TakeNext(drained);
    ReachesEach(s.Router().peers, p, m, After(taken).main.Load(), q);
    run' := CanFinishSending(taken);
    ActiveIsRegistered(taken, q);
    DealtWithEach(After(taken), After(run'), After(taken).main.Load(), After(taken).keepalive.Load(), Send(q, m));
  }

  /** The same for a GetPeers of the keepalive task and any active outbound peer. */
  lemma {:induction false} PingCanBeDelivered(run: seq<Step>, q: PeerId) returns (run': seq<Step>)
    requires Possible(run) && q in After(run).In(Active) && After(run).tasks[q].direction == Outbound
    ensures run <= run' && Possible(run')
    ensures Outcome(Send(q, GetPeers), true, true) in After(run').pinged
  {
    hide Possible, After, State, DealtWith;
    var idle := CanFinishSending(run);
    WorldKept(After(run), After(idle), After(run).main.Load(), After(run).keepalive.Load());
    ActiveIsRegistered(idle, q);
    var order := SomeOrder(After(idle).Router().peers.Keys);
    Ticks(idle, order);
    var ticked := idle + [Tick(order)];
    TickPingsOutbound(idle, order);
    PingsEach(After(idle).Router().peers, After(ticked).keepalive.Load(), q);
    run' := CanFinishSending(ticked);
    var s := After(ticked);
    PingedEach(s, After(run'), s.main.Load(), s.keepalive.Load(), Send(q, GetPeers));
  }

  lemma WorldKept(s: System, s': System, actions: seq<Action>, others: seq<Action>)
    requires DealtWith(s, s', actions, others)
    ensures SameWorld(s, s')
  {
  }

  lemma Ticks(run: seq<Step>, order: seq<PeerId>)
    requires Possible(run) && After(run).keepalive.Idle? && Enumerates(order, After(run).Router().peers.Keys)
    ensures Possible(run + [Tick(order)]) && SameWorld(After(run), After(run + [Tick(order)]))
  {
    Next(run, Tick(order));
  }

  lemma PingsEach(peers: map<PeerId, PeerEntry>, load: seq<Action>, q: PeerId)
    requires multiset(Targets(load)) == multiset(set p | p in peers && peers[p].direction == Outbound)
    requires q in peers && peers[q].direction == Outbound && forall a :: a in load ==> a.message == GetPeers
    ensures Send(q, GetPeers) in load
  {
    var outbound := set p | p in peers && peers[p].direction == Outbound;
    assert q in multiset(outbound);
    assert q in multiset(Targets(load));
    assert q in Targets(load);
    var k :| 0 <= k < |load| && Targets(load)[k] == q;
    assert load[k] in load && load[k] == Send(q, GetPeers);
  }

  lemma PingedEach(s: System, s': System, actions: seq<Action>, others: seq<Action>, a: Action)
    requires DealtWith(s, s', actions, others) && a in others
    ensures Outcome(a, a.target in s.senders, a.target in s.Router().peers) in s'.pinged
  {
    hide State;
    var k :| 0 <= k < |others| && others[k] == a;
    assert Outcomes(s, others)[k] in Outcomes(s, others);
  }

  // ----- A new peer -----

  /** The task of a new peer takes its next step up to its reader loop. */
  lemma OneStepUp(run: seq<Step>, p: PeerId, step: Step, phase: Phase)
    requires Possible(run) && !After(run).Locked() && p in After(run).tasks
    requires match After(run).tasks[p].phase
             case Handshaking => step == Register(p) && phase == Registered
             case Registered => step == SendConnected(p) && phase == Connected
             case Connected => step == Publish(p) && phase == Active
             case _ => false
    ensures Possible(run + [step])
    ensures var s, s' := After(run), After(run + [step]);
            !s'.Locked() && s'.tasks == s.tasks[p := s.tasks[p].(phase := phase)]
  {
    hide State, Operations, Emitted, Pings;
    Next(run, step);
  }

  /** From every reachable state a new peer of either direction and mode can get as far as its reader
      loop, with the next id and without any other task moving. */
  lemma {:induction false} CanConnect(run: seq<Step>, direction: Direction, mode: ProxyMode) returns (run': seq<Step>)
    requires Possible(run)
    ensures run <= run' && Possible(run')
    ensures var p := After(run).nextId;
            After(run').tasks == After(run).tasks[p := Task(direction, mode, Active)]
            && p !in After(run).tasks && p in After(run').senders
  {
    hide Possible, After, State, DealtWith, Apply;
    var idle := CanFinishSending(run);
    WorldKept(After(run), After(idle), After(run).main.Load(), After(run).keepalive.Load());
    var p := After(idle).nextId;
    NewTask(idle, direction, mode);
    var spawned := idle + [Spawn(direction, mode)];
    OneStepUp(spawned, p, Register(p), Registered);
    var registered := spawned + [Register(p)];
    OneStepUp(registered, p, SendConnected(p), Connected);
    var connected := registered + [SendConnected(p)];
    OneStepUp(connected, p, Publish(p), Active);
    run' := connected + [Publish(p)];
    ActiveIsRegistered(run', p);
  }

  lemma NewTask(run: seq<Step>, direction: Direction, mode: ProxyMode)
    requires Possible(run) && After(run).main.Idle? && After(run).keepalive.Idle?
    ensures Possible(run + [Spawn(direction, mode)])
    ensures var s, s' := After(run), After(run + [Spawn(direction, mode)]);
            !s'.Locked() && s.nextId !in s.tasks && s'.tasks == s.tasks[s.nextId := Task(direction, mode, Handshaking)]
  {
    Next(run, Spawn(direction, mode));
    Invariant(run);
  }

  // ----- Winding down -----

  /** How many steps a task is away from its end. */
  function Remaining(phase: Phase): nat {
    match phase
    case Handshaking => 1
    case Registered => 4
    case Connected => 3
    case Active => 2
    case Withdrawn => 1
    case Ended => 0
  }

  function LastSteps(phase: Phase, p: PeerId): Step
    requires phase != Ended
  {
    match phase
    case Handshaking => GiveUp(p)
    case Registered => SendConnected(p)
    case Connected => Publish(p)
    case Active => Withdraw(p)
    case Withdrawn => SendDisconnected(p)
  }

  lemma OneStepOn(run: seq<Step>, p: PeerId)
    requires Possible(run) && After(run).main.Idle? && After(run).keepalive.Idle?
    requires p in After(run).tasks && After(run).tasks[p].phase != Ended
    ensures var step := LastSteps(After(run).tasks[p].phase, p);
            && Possible(run + [step])
            && var s, s' := After(run), After(run + [step]);
               && s'.main.Idle? && s'.keepalive.Idle?
               && p in s'.tasks && s'.tasks == s.tasks[p := s'.tasks[p]]
               && Remaining(s'.tasks[p].phase) < Remaining(s.tasks[p].phase)
  {
    hide State, Operations, Emitted, Pings;
    Next(run, LastSteps(After(run).tasks[p].phase, p));
  }

  lemma {:induction false} EndTask(run: seq<Step>, p: PeerId) returns (run': seq<Step>)
    requires Possible(run) && After(run).main.Idle? && After(run).keepalive.Idle? && p in After(run).tasks
    ensures run <= run' && Possible(run')
    ensures var s, s' := After(run), After(run');
            && s'.main.Idle? && s'.keepalive.Idle?
            && p in s'.tasks && s'.tasks == s.tasks[p := s'.tasks[p]] && s'.tasks[p].phase == Ended
    decreases Remaining(After(run).tasks[p].phase)
  {
    hide Possible, After;
    run' := run;
    if After(run).tasks[p].phase != Ended {
      OneStepOn(run, p);
      run' := EndTask(run + [LastSteps(After(run).tasks[p].phase, p)], p);
    }
  }

  lemma {:induction false} EndTasks(run: seq<Step>, todo: set<PeerId>) returns (run': seq<Step>)
    requires Possible(run) && After(run).main.Idle? && After(run).keepalive.Idle? && todo <= After(run).tasks.Keys
    requires forall p :: p in After(run).tasks && p !in todo ==> After(run).tasks[p].phase == Ended
    ensures run <= run' && Possible(run')
    ensures After(run').tasks.Keys == After(run).tasks.Keys
    ensures forall p :: p in After(run').tasks ==> After(run').tasks[p].phase == Ended
    decreases todo
  {
    hide Possible, After;
    run' := run;
    if todo != {} {
      var p :| p in todo;
      var ended := EndTask(run, p);
      assert After(ended).tasks.Keys == After(run).tasks.Keys;
      run' := EndTasks(ended, todo - {p});
    }
  }

  /** From every reachable state, without a new peer, the proxy can wind down: every task ends, every
      event is handled, and the registry, all tables and the sender map are empty. */
  lemma {:induction false} CanWindDown(run: seq<Step>) returns (run': seq<Step>)
    requires Possible(run)
    ensures run <= run' && Possible(run') && After(run').tasks.Keys == After(run).tasks.Keys
    ensures After(run').queue == [] && After(run').Router() == EMPTY && After(run').senders == {}
  {
    hide Possible, After, State, DealtWith;
    var idle := CanDrainTo(run, 0);
    var ended := EndTasks(idle, After(idle).tasks.Keys);
    run' := CanDrainTo(ended, 0);
    DrainedMeansEmpty(run');
  }
}
