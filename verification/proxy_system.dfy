/** The running proxy (src/main.rs): peer tasks, the keepalive task and the main event loop as
    concurrent steps over the shared router, the sender map behind its mutex, the event channel
    and the id counter. A run is any interleaving of enabled steps. */
module ProxySystem {
  import opened Types
  import opened Frames
  import opened Messages
  import opened RouterMachine
  import opened RouterLog
  import opened Relaying

  /** Where a peer task stands in `run_peer`, or in the handshake before it. */
  datatype Phase = Handshaking | Registered | Connected | Active | Withdrawn | Ended

  datatype Task = Task(direction: Direction, mode: ProxyMode, phase: Phase)

  /** The main loop and the keepalive task alternate between deciding what to send and sending
      it with the sender map locked. */
  datatype Courier = Idle | Waiting(actions: seq<Action>) | Sending(actions: seq<Action>) {
    function Load(): seq<Action> {
      if Idle? then [] else actions
    }
  }

  datatype Who = MainLoop | Keepalive

  /** History: what became of an action, and whether its target was registered just then. */
  datatype Outcome = Outcome(action: Action, sent: bool, registered: bool)

  /** `log` is the history of router operations, so the router's state is `State(log)`. */
  datatype System = System(
    log: seq<Op>,
    senders: set<PeerId>,
    queue: seq<Event>,
    tasks: map<PeerId, Task>,
    nextId: PeerId,
    main: Courier,
    keepalive: Courier,
    handled: seq<Outcome>,
    pinged: seq<Outcome>)
  {
    function Router(): RouterState {
      State(log)
    }

    function In(phase: Phase): set<PeerId> {
      set p | p in tasks && tasks[p].phase == phase
    }

    predicate Locked() {
      main.Sending? || keepalive.Sending?
    }

    function Move(p: PeerId, phase: Phase): System
      requires p in tasks
    {
      this.(tasks := tasks[p := tasks[p].(phase := phase)])
    }
  }

  const START: System := System([], {}, [], map[], 1, Idle, Idle, [], [])

  datatype Step =
    | Spawn(direction: Direction, mode: ProxyMode)
    | GiveUp(peer: PeerId)
    | Register(peer: PeerId)
    | SendConnected(peer: PeerId)
    | Publish(peer: PeerId)
    | Receive(peer: PeerId, frame: Frame)
    | Withdraw(peer: PeerId)
    | SendDisconnected(peer: PeerId)
    | Handle(order: seq<PeerId>, clock: nat -> real)
    | Tick(order: seq<PeerId>)
    | Lock(who: Who)
    | SendNext(who: Who)
    | Unlock(who: Who)

  function CourierOf(s: System, who: Who): Courier {
    match who
    case MainLoop => s.main
    case Keepalive => s.keepalive
  }

  function WithCourier(s: System, who: Who, c: Courier): System {
    match who
    case MainLoop => s.(main := c)
    case Keepalive => s.(keepalive := c)
  }

  ghost predicate Enabled(s: System, step: Step) {
    match step
    case Spawn(_, _) => true
    case GiveUp(p) => p in s.In(Handshaking)
    case Register(p) => p in s.In(Handshaking)
    case SendConnected(p) => p in s.In(Registered)
    case Publish(p) => p in s.In(Connected) && !s.Locked()
    case Receive(p, f) => p in s.In(Active) && |f.body| <= MAX_BODY_SIZE
    case Withdraw(p) => p in s.In(Active) && !s.Locked()
    case SendDisconnected(p) => p in s.In(Withdrawn)
    case Handle(order, _) => s.main.Idle? && s.queue != [] && Enumerates(order, s.Router().peers.Keys)
    case Tick(order) => s.keepalive.Idle? && Enumerates(order, s.Router().peers.Keys)
    case Lock(who) => CourierOf(s, who).Waiting? && !s.Locked()
    case SendNext(who) => CourierOf(s, who).Sending? && CourierOf(s, who).actions != []
    case Unlock(who) => CourierOf(s, who).Sending? && CourierOf(s, who).actions == []
  }

  /** A GetPeers for every outbound peer, in iteration order. */
  function Pings(peers: map<PeerId, PeerEntry>, order: seq<PeerId>): seq<Action> {
    if order == [] then []
    else
      (if order[0] in peers && peers[order[0]].direction == Outbound then [Send(order[0], GetPeers)] else [])
      + Pings(peers, order[1..])
  }

  /** The next action is sent if its target has a sender, and dropped otherwise. */
  function Dispatch(s: System, who: Who): System
    requires CourierOf(s, who).Sending? && CourierOf(s, who).actions != []
  {
    var actions := CourierOf(s, who).actions;
    var a := actions[0];
    var o := Outcome(a, a.target in s.senders, a.target in s.Router().peers);
    var s' := WithCourier(s, who, Sending(actions[1..]));
    match who
    case MainLoop => s'.(handled := s.handled + [o])
    case Keepalive => s'.(pinged := s.pinged + [o])
  }

  ghost function Apply(s: System, step: Step): System
    requires Enabled(s, step)
  {
    match step
    case Spawn(direction, mode) =>
      s.(tasks := s.tasks[s.nextId := Task(direction, mode, Handshaking)], nextId := s.nextId + 1)
    case GiveUp(p) => s.Move(p, Ended)
    case Register(p) => s.Move(p, Registered).(log := s.log + [Join(p, s.tasks[p].direction, s.tasks[p].mode)])
    case SendConnected(p) => s.Move(p, Connected).(queue := s.queue + [PeerConnected(p, s.tasks[p].direction)])
    case Publish(p) => s.Move(p, Active).(senders := s.senders + {p})
    case Receive(p, f) =>
      if MessageOf(f).Ok? then s.(queue := s.queue + [Message(p, MessageOf(f).value)]) else s
    case Withdraw(p) => s.Move(p, Withdrawn).(senders := s.senders - {p})
    case SendDisconnected(p) => s.Move(p, Ended).(queue := s.queue + [PeerDisconnected(p)])
    case Handle(order, clock) =>
      var ops := Operations(s.queue[0], order, clock);
      s.(log := s.log + ops, queue := s.queue[1..], main := Waiting(Emitted(s.Router(), ops)))
    case Tick(order) => s.(keepalive := Waiting(Pings(s.Router().peers, order)))
    case Lock(who) => WithCourier(s, who, Sending(CourierOf(s, who).actions))
    case SendNext(who) => Dispatch(s, who)
    case Unlock(who) => WithCourier(s, who, Idle)
  }

  /** `run` can be executed from the start. */
  ghost predicate Possible(run: seq<Step>)
    decreases |run|, 0
  {
    run == [] || (
      var before := run[..|run| - 1];
      Possible(before) && Enabled(After(before), run[|run| - 1]))
  }

  ghost function After(run: seq<Step>): System
    requires Possible(run)
    decreases |run|, 1
  {
    if run == [] then START else Apply(After(run[..|run| - 1]), run[|run| - 1])
  }

  // ----- The invariant -----

  predicate Live(phase: Phase) {
    phase == Registered || phase == Connected || phase == Active || phase == Withdrawn
  }

  /** A live task's peer is registered as the task says; one still in its handshake never was. */
  ghost predicate TasksRegistered(tasks: map<PeerId, Task>, peers: map<PeerId, PeerEntry>, joined: set<PeerId>) {
    && peers.Keys <= joined <= tasks.Keys
    && (forall p :: p in tasks && Live(tasks[p].phase) ==>
          p in peers && peers[p] == PeerEntry(tasks[p].direction, tasks[p].mode))
    && (forall p :: p in tasks && tasks[p].phase == Handshaking ==> p !in joined)
  }

  ghost predicate SendersActive(tasks: map<PeerId, Task>, senders: set<PeerId>) {
    forall p :: p in senders <==> p in tasks && tasks[p].phase == Active
  }

  ghost predicate IdsFresh(tasks: map<PeerId, Task>, nextId: PeerId) {
    forall p :: p in tasks ==> p < nextId
  }

  /** Every queued event comes from a registered peer that has left its handshake, disconnects
      come from ended tasks, and a disconnect is its peer's last event. */
  ghost predicate QueueRegistered(queue: seq<Event>, tasks: map<PeerId, Task>, peers: map<PeerId, PeerEntry>) {
    && (forall k :: 0 <= k < |queue| ==>
          && queue[k].peer in peers
          && queue[k].peer in tasks
          && (queue[k].PeerDisconnected? ==> tasks[queue[k].peer].phase == Ended))
    && (forall j, k :: 0 <= j < k < |queue| && queue[j].PeerDisconnected? ==> queue[j].peer != queue[k].peer)
  }

  /** An ended task's peer is registered only while its disconnect is queued. */
  ghost predicate EndedQueued(queue: seq<Event>, tasks: map<PeerId, Task>, peers: map<PeerId, PeerEntry>) {
    forall p :: p in peers && p in tasks && tasks[p].phase == Ended ==> PeerDisconnected(p) in queue
  }

  /** `m` fits into a frame and survives the wire. */
  predicate Fits(m: ProtocolMessage) {
    Canonical(m) && |FrameOf(m).body| <= MAX_BODY_SIZE
  }

  ghost predicate QueueFits(queue: seq<Event>) {
    forall k :: 0 <= k < |queue| && queue[k].Message? ==> Fits(queue[k].message)
  }

  ghost predicate ActionsFit(actions: seq<Action>) {
    forall a :: a in actions ==> Fits(a.message)
  }

  ghost predicate OutcomesGood(outcomes: seq<Outcome>) {
    forall o :: o in outcomes ==> Fits(o.action.message) && (o.sent ==> o.registered)
  }

  function ActionsOf(outcomes: seq<Outcome>): seq<Action> {
    seq(|outcomes|, k requires 0 <= k < |outcomes| => outcomes[k].action)
  }

  /** Tasks, senders and queue against the registry. */
  ghost predicate Books(
    tasks: map<PeerId, Task>, senders: set<PeerId>, queue: seq<Event>, peers: map<PeerId, PeerEntry>, joined: set<PeerId>)
  {
    && TasksRegistered(tasks, peers, joined)
    && SendersActive(tasks, senders)
    && QueueRegistered(queue, tasks, peers)
    && EndedQueued(queue, tasks, peers)
  }

  ghost predicate PeersInv(s: System) {
    && Legal(s.log)
    && IdsFresh(s.tasks, s.nextId)
    && Books(s.tasks, s.senders, s.queue, s.Router().peers, Joined(s.log))
  }

  ghost predicate WireInv(s: System) {
    && QueueFits(s.queue)
    && ActionsFit(s.main.Load()) && ActionsFit(s.keepalive.Load())
    && OutcomesGood(s.handled) && OutcomesGood(s.pinged)
    && !(s.main.Sending? && s.keepalive.Sending?)
  }

  /** The main loop works through the router's actions in the order they were emitted. */
  ghost predicate InOrder(s: System) {
    ActionsOf(s.handled) + s.main.Load() == Emitted(EMPTY, s.log)
  }

  // ----- Every step keeps it -----

  lemma {:induction false} JoinedAppend(log: seq<Op>, ops: seq<Op>)
    requires forall k :: 0 <= k < |ops| ==> !ops[k].Join?
    ensures Joined(log + ops) == Joined(log)
  {
    if ops == [] {
      assert log + ops == log;
    } else {
      assert (log + ops)[..|log + ops| - 1] == log + ops[..|ops| - 1];
      JoinedAppend(log, ops[..|ops| - 1]);
    }
  }

  lemma DisconnectEffect(log: seq<Op>, p: PeerId)
    ensures Joined(log + [Leave(p)]) == Joined(log)
    ensures State(log + [Leave(p)]).peers == State(log).peers - {p}
  {
    Extend(log, Leave(p));
  }

  lemma OtherEffect(log: seq<Op>, ops: seq<Op>)
    requires forall k :: 0 <= k < |ops| ==> !ops[k].Join? && !ops[k].Leave?
    ensures Joined(log + ops) == Joined(log)
    ensures State(log + ops).peers == State(log).peers
  {
    JoinedAppend(log, ops);
    RunAppend(EMPTY, log, ops);
    RegistryKept(State(log), ops);
  }

  /** What handling an event does to the run and the registry. */
  lemma EventEffect(log: seq<Op>, e: Event, order: seq<PeerId>, clock: nat -> real)
    requires Legal(log) && Enumerates(order, State(log).peers.Keys)
    ensures var log' := log + Operations(e, order, clock);
            && Legal(log') && Joined(log') == Joined(log)
            && State(log').peers == (if e.PeerDisconnected? then State(log).peers - {e.peer} else State(log).peers)
            && Emitted(EMPTY, log') == Emitted(EMPTY, log) + Emitted(State(log), Operations(e, order, clock))
  {
    var ops := Operations(e, order, clock);
    EventExtendsRun(log, e, order, clock);
    if e.PeerDisconnected? {
      DisconnectEffect(log, e.peer);
    } else {
      OperationsLegal(State(log), e, order, clock);
      OtherEffect(log, ops);
    }
  }

  lemma TakeEvent(
    tasks: map<PeerId, Task>, senders: set<PeerId>, queue: seq<Event>, peers: map<PeerId, PeerEntry>, joined: set<PeerId>)
    requires Books(tasks, senders, queue, peers, joined) && queue != []
    ensures Books(
              tasks, senders, queue[1..],
              if queue[0].PeerDisconnected? then peers - {queue[0].peer} else peers, joined)
  {
    var peers' := if queue[0].PeerDisconnected? then peers - {queue[0].peer} else peers;
    forall p | p in peers' && p in tasks && tasks[p].phase == Ended
      ensures PeerDisconnected(p) in queue[1..]
    {
      var k :| 0 <= k < |queue| && queue[k] == PeerDisconnected(p);
      assert queue[1..][k - 1] == queue[k];
    }
  }

  lemma RegisterTask(
    tasks: map<PeerId, Task>, senders: set<PeerId>, queue: seq<Event>, peers: map<PeerId, PeerEntry>, joined: set<PeerId>,
    p: PeerId)
    requires Books(tasks, senders, queue, peers, joined) && p in tasks && tasks[p].phase == Handshaking
    ensures var t := tasks[p];
            Books(
              tasks[p := t.(phase := Registered)], senders, queue,
              peers[p := PeerEntry(t.direction, t.mode)], joined + {p})
  {
  }

  lemma GiveUpTask(
    tasks: map<PeerId, Task>, senders: set<PeerId>, queue: seq<Event>, peers: map<PeerId, PeerEntry>, joined: set<PeerId>,
    p: PeerId)
    requires Books(tasks, senders, queue, peers, joined) && p in tasks && tasks[p].phase == Handshaking
    ensures Books(tasks[p := tasks[p].(phase := Ended)], senders, queue, peers, joined)
  {
  }

  /** A live task takes a step that changes neither registry nor queue. */
  lemma AdvanceTask(
    tasks: map<PeerId, Task>, senders: set<PeerId>, queue: seq<Event>, peers: map<PeerId, PeerEntry>, joined: set<PeerId>,
    p: PeerId, phase: Phase)
    requires Books(tasks, senders, queue, peers, joined) && p in tasks
    requires Live(tasks[p].phase) && Live(phase)
    ensures Books(
              tasks[p := tasks[p].(phase := phase)],
              if phase == Active then senders + {p} else senders - {p}, queue, peers, joined)
  {
  }

  lemma SpawnTask(
    tasks: map<PeerId, Task>, senders: set<PeerId>, queue: seq<Event>, peers: map<PeerId, PeerEntry>, joined: set<PeerId>,
    p: PeerId, task: Task)
    requires Books(tasks, senders, queue, peers, joined) && p !in tasks && task.phase == Handshaking
    ensures Books(tasks[p := task], senders, queue, peers, joined)
  {
  }

  /** A live task sends an event, its last one being the disconnect. */
  lemma EnqueueEvent(
    tasks: map<PeerId, Task>, senders: set<PeerId>, queue: seq<Event>, peers: map<PeerId, PeerEntry>, joined: set<PeerId>,
    e: Event, phase: Phase)
    requires Books(tasks, senders, queue, peers, joined) && e.peer in tasks && Live(tasks[e.peer].phase)
    requires if e.PeerDisconnected? then phase == Ended else Live(phase)
    requires phase == Active <==> tasks[e.peer].phase == Active
    ensures Books(tasks[e.peer := tasks[e.peer].(phase := phase)], senders, queue + [e], peers, joined)
  {
    var tasks', queue' := tasks[e.peer := tasks[e.peer].(phase := phase)], queue + [e];
    assert queue'[|queue|] == e;
    forall p | p in peers && p in tasks' && tasks'[p].phase == Ended
      ensures PeerDisconnected(p) in queue'
    {
      assert p != e.peer ==> PeerDisconnected(p) in queue;
    }
  }

  lemma StepPeers(s: System, step: Step)
    requires PeersInv(s) && Enabled(s, step)
    ensures PeersInv(Apply(s, step))
  {
    hide Legal, State, Joined, Operations, Emitted, Pings, Books;
    var s', peers, joined := Apply(s, step), s.Router().peers, Joined(s.log);
    match step
    case Spawn(direction, mode) =>
      SpawnTask(s.tasks, s.senders, s.queue, peers, joined, s.nextId, Task(direction, mode, Handshaking));
    case GiveUp(p) => GiveUpTask(s.tasks, s.senders, s.queue, peers, joined, p);
    case Register(p) =>
      Extend(s.log, Join(p, s.tasks[p].direction, s.tasks[p].mode));
      RegisterIsLegal(s, p);
      RegisterTask(s.tasks, s.senders, s.queue, peers, joined, p);
    case SendConnected(p) =>
      EnqueueEvent(s.tasks, s.senders, s.queue, peers, joined, PeerConnected(p, s.tasks[p].direction), Connected);
    case Publish(p) => AdvanceTask(s.tasks, s.senders, s.queue, peers, joined, p, Active);
    case Receive(p, f) =>
      if MessageOf(f).Ok? {
        EnqueueEvent(s.tasks, s.senders, s.queue, peers, joined, Message(p, MessageOf(f).value), Active);
        assert s.tasks[p := s.tasks[p]] == s.tasks;
      }
    case Withdraw(p) => AdvanceTask(s.tasks, s.senders, s.queue, peers, joined, p, Withdrawn);
    case SendDisconnected(p) =>
      EnqueueEvent(s.tasks, s.senders, s.queue, peers, joined, PeerDisconnected(p), Ended);
    case Handle(order, clock) =>
      EventEffect(s.log, s.queue[0], order, clock);
      TakeEvent(s.tasks, s.senders, s.queue, peers, joined);
    case _ =>
      assert s'.log == s.log && s'.tasks == s.tasks && s'.senders == s.senders;
      assert s'.queue == s.queue && s'.nextId == s.nextId;
  }

  lemma RegisterIsLegal(s: System, p: PeerId)
    requires PeersInv(s) && Enabled(s, Register(p))
    ensures p !in Joined(s.log)
  {
  }

  lemma PingsFit(peers: map<PeerId, PeerEntry>, order: seq<PeerId>)
    ensures forall a :: a in Pings(peers, order) ==> a.message == GetPeers
    ensures ActionsFit(Pings(peers, order))
  {
  }

  lemma HandleWire(s: System, order: seq<PeerId>, clock: nat -> real)
    requires WireInv(s) && Enabled(s, Handle(order, clock))
    ensures WireInv(Apply(s, Handle(order, clock)))
  {
    var e := s.queue[0];
    if e.Message? {
      EventNoLonger(s.Router(), e.peer, e.message, order, clock);
    } else {
      QuietEvent(s.Router(), e, order, clock);
    }
  }

  lemma QuietEvent(s: RouterState, e: Event, order: seq<PeerId>, clock: nat -> real)
    requires !e.Message?
    ensures Emitted(s, Operations(e, order, clock)) == []
  {
    if e.PeerDisconnected? {
      assert [Leave(e.peer)][..0] == [];
    }
  }

  lemma DispatchWire(s: System, who: Who)
    requires PeersInv(s) && WireInv(s) && Enabled(s, SendNext(who))
    ensures WireInv(Apply(s, SendNext(who)))
  {
    var actions := CourierOf(s, who).actions;
    assert actions[0] in actions;
    assert forall a :: a in actions[1..] ==> a in actions;
  }

  lemma StepWire(s: System, step: Step)
    requires PeersInv(s) && WireInv(s) && Enabled(s, step)
    ensures WireInv(Apply(s, step))
  {
    match step
    case Handle(order, clock) => HandleWire(s, order, clock);
    case Tick(order) => PingsFit(s.Router().peers, order);
    case SendNext(who) => DispatchWire(s, who);
    case Receive(p, f) =>
      if MessageOf(f).Ok? {
        NormalForm(f);
      }
    case _ =>
  }

  lemma DispatchOrder(handled: seq<Outcome>, o: Outcome, actions: seq<Action>)
    requires actions != [] && o.action == actions[0]
    ensures ActionsOf(handled + [o]) + actions[1..] == ActionsOf(handled) + actions
  {
    assert ActionsOf(handled + [o]) == ActionsOf(handled) + [o.action];
    assert actions == [actions[0]] + actions[1..];
  }

  lemma JoinQuiet(log: seq<Op>, op: Op)
    requires op.Join?
    ensures Emitted(EMPTY, log + [op]) == Emitted(EMPTY, log)
  {
    assert (log + [op])[..|log|] == log;
  }

  lemma HandleOrder(s: System, order: seq<PeerId>, clock: nat -> real)
    requires Legal(s.log) && InOrder(s) && Enabled(s, Handle(order, clock))
    ensures InOrder(Apply(s, Handle(order, clock)))
  {
    EventEffect(s.log, s.queue[0], order, clock);
    assert ActionsOf(s.handled) + [] == ActionsOf(s.handled);
  }

  lemma DispatchMainOrder(s: System)
    requires InOrder(s) && Enabled(s, SendNext(MainLoop))
    ensures InOrder(Apply(s, SendNext(MainLoop)))
  {
    var s' := Apply(s, SendNext(MainLoop));
    DispatchOrder(s.handled, s'.handled[|s.handled|], s.main.actions);
  }

  lemma StepOrder(s: System, step: Step)
    requires PeersInv(s) && InOrder(s) && Enabled(s, step)
    ensures InOrder(Apply(s, step))
  {
    if step.Handle? {
      HandleOrder(s, step.order, step.clock);
    } else if step.Register? {
      JoinQuiet(s.log, Join(step.peer, s.tasks[step.peer].direction, s.tasks[step.peer].mode));
    } else if step == SendNext(MainLoop) {
      DispatchMainOrder(s);
    } else {
      var s' := Apply(s, step);
      assert s'.log == s.log && s'.handled == s.handled && s'.main.Load() == s.main.Load();
    }
  }

  lemma {:induction false} Invariant(run: seq<Step>)
    requires Possible(run)
    ensures PeersInv(After(run)) && WireInv(After(run)) && InOrder(After(run))
  {
    if run != [] {
      var before := run[..|run| - 1];
      Invariant(before);
      StepPeers(After(before), run[|run| - 1]);
      StepWire(After(before), run[|run| - 1]);
      StepOrder(After(before), run[|run| - 1]);
    }
  }

  // ----- What holds in every interleaving -----

  /** Every peer with a write sender is registered, and every frame the main loop or the
      keepalive task ever handed to a sender went to a peer registered at that moment, even when
      the router's sync pairing was stale. */
  lemma {:induction false} SendersRegistered(run: seq<Step>)
    requires Possible(run)
    ensures After(run).senders <= After(run).Router().peers.Keys
    ensures forall o :: o in After(run).handled + After(run).pinged ==> (o.sent ==> o.registered)
  {
    Invariant(run);
  }

  /** Every router action is taken up by the main loop exactly once and in the order emitted. */
  lemma {:induction false} ActionsTakenInOrder(run: seq<Step>)
    requires Possible(run)
    ensures ActionsOf(After(run).handled) + After(run).main.Load() == Emitted(EMPTY, After(run).log)
  {
    Invariant(run);
  }

  /** What is taken up next is sent if and only if its target's task is in its reader loop at that
      moment, and dropped otherwise; which of the two is recorded. */
  lemma {:induction false} SentIffActive(run: seq<Step>, who: Who)
    requires Possible(run) && Enabled(After(run), SendNext(who))
    ensures var before, after := After(run), Apply(After(run), SendNext(who));
            var a := CourierOf(before, who).actions[0];
            var o := Outcome(a, a.target in before.In(Active), a.target in before.Router().peers);
            after.handled + after.pinged == if who == MainLoop then before.handled + [o] + before.pinged
                                            else before.handled + before.pinged + [o]
  {
    hide State, Joined, Legal;
    Invariant(run);
  }

  /** Every event the main loop handles comes from a registered peer: the router's written
      precondition is met in every run. */
  lemma {:induction false} EventsFromRegisteredPeers(run: seq<Step>, step: Step)
    requires Possible(run) && Enabled(After(run), step) && step.Handle?
    ensures After(run).queue[0].peer in After(run).Router().peers
  {
    hide State, Joined, Legal;
    Invariant(run);
  }

  /** Each registered peer has a live task or a queued disconnect. */
  lemma {:induction false} RegisteredIsAccountedFor(run: seq<Step>, p: PeerId)
    requires Possible(run) && p in After(run).Router().peers
    ensures p in After(run).tasks
    ensures Live(After(run).tasks[p].phase) || PeerDisconnected(p) in After(run).queue
  {
    Invariant(run);
  }

  /** Once every started task has ended and the queue is drained, the registry and all six
      tables are empty: nothing leaks, whatever happened before. */
  lemma {:induction false} DrainedMeansEmpty(run: seq<Step>)
    requires Possible(run)
    requires After(run).queue == [] && forall p :: p in After(run).tasks ==> After(run).tasks[p].phase == Ended
    ensures After(run).Router() == EMPTY && After(run).senders == {}
  {
    Invariant(run);
    var s := After(run);
    RunConsistent(s.log);
    assert s.Router().peers.Keys == {};
    EmptyRegistry(s.Router(), Joined(s.log));
  }

  /** Everything taken up or still to be sent. */
  function Outgoing(s: System): seq<Action> {
    ActionsOf(s.handled) + ActionsOf(s.pinged) + s.main.Load() + s.keepalive.Load()
  }

  lemma OutgoingFits(s: System, a: Action)
    requires WireInv(s) && a in Outgoing(s)
    ensures Fits(a.message)
  {
    if a in ActionsOf(s.handled) {
      var k :| 0 <= k < |s.handled| && ActionsOf(s.handled)[k] == a;
      assert s.handled[k] in s.handled;
    } else if a in ActionsOf(s.pinged) {
      var k :| 0 <= k < |s.pinged| && ActionsOf(s.pinged)[k] == a;
      assert s.pinged[k] in s.pinged;
    }
  }

  /** Every action ever taken up, and every action still to be sent, gives a frame that fits the
      size limit, is decoded by the receiver as that frame and parsed there as the message meant. */
  lemma {:induction false} SentFramesUnderstood(run: seq<Step>, hash: Hash, magic: Magic, a: Action)
    requires Possible(run) && a in Outgoing(After(run))
    ensures var f := FrameOf(a.message);
            && |f.body| <= MAX_BODY_SIZE
            && Decode(hash, magic, EncodeFrame(hash, magic, f)) == Ok(f)
            && MessageOf(f) == Ok(a.message)
  {
    Invariant(run);
    OutgoingFits(After(run), a);
    MessageRoundTrip(a.message);
    DecodeIffEncoded(hash, magic, EncodeFrame(hash, magic, FrameOf(a.message)), FrameOf(a.message));
  }

  /** The router's history in any run is a legal log, so everything proved about legal logs holds
      of the running proxy. */
  lemma {:induction false} LogsAreLegal(run: seq<Step>)
    requires Possible(run)
    ensures Legal(After(run).log) && Joined(After(run).log) <= After(run).tasks.Keys
  {
    Invariant(run);
  }
}
