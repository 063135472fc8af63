/** The running proxy as a function of the steps taken: which peers there are and where their tasks
    stand, which events were sent and which of them were handled, and what the router and the
    keepalive task did. */
module ProxyHistory {
  import opened Types
  import opened Messages
  import opened RouterMachine
  import opened RouterLog
  import opened RouterSync
  import opened RouterEffects
  import opened ProxySystem

  lemma Next(run: seq<Step>, step: Step)
    ensures Possible(run + [step]) <==> Possible(run) && Enabled(After(run), step)
    ensures Possible(run + [step]) ==> After(run + [step]) == Apply(After(run), step)
  {
    assert (run + [step])[..|run|] == run;
  }

  // ----- Tasks -----

  /** The tasks started, in order; the peer of the k-th has id k, counted from one. */
  function Spawns(run: seq<Step>): (r: seq<Step>)
    ensures forall k :: 0 <= k < |r| ==> r[k].Spawn?
  {
    if run == [] then []
    else
      var step := run[|run| - 1];
      Spawns(run[..|run| - 1]) + if step.Spawn? then [step] else []
  }

  /** The phase a step takes the task of `p` to, if it is a step of that task. */
  function Move(step: Step, p: PeerId): Option<Phase> {
    match step
    case GiveUp(q) => if q == p then Some(Ended) else None
    case Register(q) => if q == p then Some(Registered) else None
    case SendConnected(q) => if q == p then Some(Connected) else None
    case Publish(q) => if q == p then Some(Active) else None
    case Withdraw(q) => if q == p then Some(Withdrawn) else None
    case SendDisconnected(q) => if q == p then Some(Ended) else None
    case _ => None
  }

  /** The phases the task of `p` went through, in order. */
  function Moves(run: seq<Step>, p: PeerId): seq<Phase> {
    if run == [] then []
    else
      Moves(run[..|run| - 1], p)
      + match Move(run[|run| - 1], p)
        case Some(phase) => [phase]
        case None => []
  }

  function PhaseAfter(moves: seq<Phase>): Phase {
    if moves == [] then Handshaking else moves[|moves| - 1]
  }

  /** The task of `p` after these moves. */
  function TaskOf(spawn: Step, moves: seq<Phase>): Task
    requires spawn.Spawn?
  {
    Task(spawn.direction, spawn.mode, PhaseAfter(moves))
  }

  predicate Precedes(a: Phase, b: Phase) {
    match b
    case Handshaking => false
    case Registered => a == Handshaking
    case Connected => a == Registered
    case Active => a == Connected
    case Withdrawn => a == Active
    case Ended => a == Handshaking || a == Withdrawn
  }

  const LIFE: seq<Phase> := [Registered, Connected, Active, Withdrawn, Ended]

  /** A task gives up in its handshake, or goes through these phases one after the other. */
  ghost predicate LifeSoFar(moves: seq<Phase>) {
    moves == [Ended] || moves <= LIFE
  }

  ghost predicate TasksMatch(s: System, run: seq<Step>) {
    && s.nextId == |Spawns(run)| + 1
    && (forall p :: p in s.tasks <==> 1 <= p <= |Spawns(run)|)
    && (forall p :: p in s.tasks ==> s.tasks[p] == TaskOf(Spawns(run)[p - 1], Moves(run, p)))
    && (forall p :: LifeSoFar(Moves(run, p)))
    && (forall p :: p !in s.tasks ==> Moves(run, p) == [])
  }

  lemma LifeStep(moves: seq<Phase>, phase: Phase)
    requires LifeSoFar(moves) && Precedes(PhaseAfter(moves), phase)
    ensures LifeSoFar(moves + [phase])
  {
    if moves != [] {
      assert moves == LIFE[..|moves|];
      assert moves[|moves| - 1] == LIFE[|moves| - 1];
      assert moves + [phase] == LIFE[..|moves| + 1];
    } else if phase == Registered {
      assert moves + [phase] == LIFE[..1];
    }
  }

  lemma HistorySnoc(run: seq<Step>, step: Step, p: PeerId)
    ensures Spawns(run + [step]) == if step.Spawn? then Spawns(run) + [step] else Spawns(run)
    ensures Moves(run + [step], p) ==
            if Move(step, p).Some? then Moves(run, p) + [Move(step, p).value] else Moves(run, p)
  {
    assert (run + [step])[..|run|] == run;
  }

  /** A step of the task of `p` is taken only from the phase before. */
  lemma TaskMoves(s: System, step: Step, p: PeerId)
    requires Enabled(s, step)
    ensures var s' := Apply(s, step);
            match Move(step, p)
            case Some(phase) =>
              && p in s.tasks && p in s'.tasks && s'.tasks[p] == s.tasks[p].(phase := phase)
              && Precedes(s.tasks[p].phase, phase)
            case None =>
              if step.Spawn? && p == s.nextId then
                p in s'.tasks && s'.tasks[p] == Task(step.direction, step.mode, Handshaking)
              else (p in s'.tasks <==> p in s.tasks) && (p in s.tasks ==> s'.tasks[p] == s.tasks[p])
    ensures Apply(s, step).nextId == s.nextId + if step.Spawn? then 1 else 0
  {
    hide State, Operations, Emitted, Pings, Dispatch;
    if step.SendNext? {
      DispatchKeeps(s, step.who);
    }
  }

  lemma DispatchKeeps(s: System, who: Who)
    requires Enabled(s, SendNext(who))
    ensures var s' := Dispatch(s, who);
            && s'.log == s.log && s'.senders == s.senders && s'.queue == s.queue
            && s'.tasks == s.tasks && s'.nextId == s.nextId
  {
  }

  lemma TasksStep(run: seq<Step>, step: Step)
    requires Possible(run + [step]) && TasksMatch(After(run), run)
    ensures TasksMatch(After(run + [step]), run + [step])
  {
    hide Possible, After, LifeSoFar;
    Next(run, step);
    var s', run' := After(run + [step]), run + [step];
    forall p: PeerId
      ensures p in s'.tasks <==> 1 <= p <= |Spawns(run')|
      ensures p in s'.tasks ==> s'.tasks[p] == TaskOf(Spawns(run')[p - 1], Moves(run', p))
      ensures LifeSoFar(Moves(run', p))
      ensures p !in s'.tasks ==> Moves(run', p) == []
    {
      TaskStep(run, step, p);
    }
    TaskStep(run, step, 0);
  }

  lemma TaskStep(run: seq<Step>, step: Step, p: PeerId)
    requires Possible(run + [step]) && Possible(run) && TasksMatch(After(run), run)
    ensures var s', run' := After(run + [step]), run + [step];
            && s'.nextId == |Spawns(run')| + 1
            && (p in s'.tasks <==> 1 <= p <= |Spawns(run')|)
            && (p in s'.tasks ==> s'.tasks[p] == TaskOf(Spawns(run')[p - 1], Moves(run', p)))
            && LifeSoFar(Moves(run', p))
            && (p !in s'.tasks ==> Moves(run', p) == [])
  {
    hide Apply, Enabled, LifeSoFar, Spawns, Moves;
    Next(run, step);
    HistorySnoc(run, step, p);
    TaskMoves(After(run), step, p);
    if Move(step, p).Some? {
      LifeStep(Moves(run, p), Move(step, p).value);
    }
  }

  /** In every run the tasks are those started, with ids counted from one, each in the phase of its
      last move; and each has gone through its phases in order, none twice and none left out. */
  lemma {:induction false} TasksAreHistory(run: seq<Step>)
    requires Possible(run)
    ensures TasksMatch(After(run), run)
    ensures forall p :: p in After(run).senders <==> PhaseAfter(Moves(run, p)) == Active
  {
    Invariant(run);
    if run != [] {
      var before := run[..|run| - 1];
      assert before + [run[|run| - 1]] == run;
      TasksAreHistory(before);
      TasksStep(before, run[|run| - 1]);
    }
  }

  // ----- Events -----

  /** The direction the task of `p` was started with. */
  function DirectionOf(run: seq<Step>, p: PeerId): Direction {
    if 1 <= p <= |Spawns(run)| then Spawns(run)[p - 1].direction else Outbound
  }

  function ModeOf(run: seq<Step>, p: PeerId): ProxyMode {
    if 1 <= p <= |Spawns(run)| then Spawns(run)[p - 1].mode else Full
  }

  /** What a step sends into the event channel: a connect, every received frame that can be parsed,
      a disconnect. */
  function Sends(run: seq<Step>, step: Step): seq<Event> {
    match step
    case SendConnected(p) => [PeerConnected(p, DirectionOf(run, p))]
    case Receive(p, f) => if MessageOf(f).Ok? then [Message(p, MessageOf(f).value)] else []
    case SendDisconnected(p) => [PeerDisconnected(p)]
    case _ => []
  }

  /** Every event sent so far, in order. */
  function Sent(run: seq<Step>): seq<Event> {
    if run == [] then [] else Sent(run[..|run| - 1]) + Sends(run[..|run| - 1], run[|run| - 1])
  }

  /** How many events the main loop has taken up. */
  function Taken(run: seq<Step>): nat {
    if run == [] then 0 else Taken(run[..|run| - 1]) + if run[|run| - 1].Handle? then 1 else 0
  }

  lemma EventSnoc(run: seq<Step>, step: Step)
    ensures Sent(run + [step]) == Sent(run) + Sends(run, step)
    ensures Taken(run + [step]) == Taken(run) + if step.Handle? then 1 else 0
  {
    assert (run + [step])[..|run|] == run;
  }

  lemma QueueStep(s: System, run: seq<Step>, step: Step)
    requires Enabled(s, step) && TasksMatch(s, run)
    ensures Apply(s, step).queue == if step.Handle? then s.queue[1..] else s.queue + Sends(run, step)
  {
    hide State, Operations, Emitted, Pings, Dispatch, LifeSoFar, MessageOf;
    if step.SendNext? {
      DispatchKeeps(s, step.who);
    }
  }

  lemma DropMore(sent: seq<Event>, n: nat, queue: seq<Event>, more: seq<Event>)
    requires n <= |sent| && queue == sent[n..]
    ensures queue + more == (sent + more)[n..]
    ensures queue != [] ==> queue[0] == sent[n] && queue[1..] == sent[n + 1..]
  {
  }

  /** In every run the events taken up followed by those in the queue are, in order, exactly the
      events sent: none is lost, duplicated, reordered or made up. */
  lemma {:induction false} EventsConserved(run: seq<Step>)
    requires Possible(run)
    ensures Taken(run) <= |Sent(run)| && After(run).queue == Sent(run)[Taken(run)..]
  {
    if run != [] {
      hide Apply, Enabled, Sends, TasksMatch, Sent, Taken;
      var before, step := run[..|run| - 1], run[|run| - 1];
      assert before + [step] == run;
      EventsConserved(before);
      TasksAreHistory(before);
      Next(before, step);
      QueueStep(After(before), before, step);
      EventSnoc(before, step);
      DropMore(Sent(before), Taken(before), After(before).queue, Sends(before, step));
      if step.Handle? {
        HandleNeedsEvent(After(before), step);
      }
      HandleSendsNothing(before, step);
    } else {
      assert Sent(run)[0..] == [];
    }
  }

  lemma HandleNeedsEvent(s: System, step: Step)
    requires Enabled(s, step) && step.Handle?
    ensures s.queue != []
  {
  }

  lemma HandleSendsNothing(run: seq<Step>, step: Step)
    ensures step.Handle? ==> Sends(run, step) == []
  {
  }

  // ----- The events of one peer -----

  function EventsOf(events: seq<Event>, p: PeerId): seq<Event> {
    if events == [] then []
    else
      var e := events[|events| - 1];
      EventsOf(events[..|events| - 1], p) + if e.peer == p then [e] else []
  }

  lemma {:induction false} EventsOfAppend(a: seq<Event>, b: seq<Event>, p: PeerId)
    ensures EventsOf(a + b, p) == EventsOf(a, p) + EventsOf(b, p)
  {
    if b == [] {
      assert a + b == a;
    } else {
      assert (a + b)[..|a + b| - 1] == a + b[..|b| - 1];
      EventsOfAppend(a, b[..|b| - 1], p);
    }
  }

  /** The messages received from `p`, in order; frames that cannot be parsed are skipped. */
  function Received(run: seq<Step>, p: PeerId): seq<Event> {
    if run == [] then []
    else
      var step := run[|run| - 1];
      Received(run[..|run| - 1], p)
      + if step.Receive? && step.peer == p && MessageOf(step.frame).Ok?
        then [Message(p, MessageOf(step.frame).value)] else []
  }

  /** `[e]` if the condition holds. */
  function If(condition: bool, e: Event): seq<Event> {
    if condition then [e] else []
  }

  /** How the steps of `p` taken so far and its phase go together. */
  ghost predicate Progress(run: seq<Step>, p: PeerId, phase: Phase) {
    && (SendConnected(p) in run ==> phase != Handshaking && phase != Registered)
    && (phase == Connected || phase == Active || phase == Withdrawn ==> SendConnected(p) in run)
    && (SendDisconnected(p) in run ==> phase == Ended)
    && (Received(run, p) != [] ==> SendConnected(p) in run)
  }

  lemma InSnoc(run: seq<Step>, step: Step, x: Step)
    ensures x in run + [step] <==> x in run || x == step
  {
  }

  lemma ReceivedSnoc(run: seq<Step>, step: Step, p: PeerId)
    ensures Received(run + [step], p) ==
            if step.Receive? && step.peer == p && MessageOf(step.frame).Ok?
            then Received(run, p) + [Message(p, MessageOf(step.frame).value)] else Received(run, p)
  {
    assert (run + [step])[..|run|] == run;
  }

  lemma ReceiveNeedsActive(s: System, step: Step)
    requires Enabled(s, step) && step.Receive?
    ensures step.peer in s.tasks && s.tasks[step.peer].phase == Active
  {
  }

  /** A step of the task of `p` comes from the phase before, and a message while it is active. */
  lemma PhaseStep(run: seq<Step>, step: Step, p: PeerId)
    requires Possible(run + [step])
    ensures var phase, phase' := PhaseAfter(Moves(run, p)), PhaseAfter(Moves(run + [step], p));
            match Move(step, p)
            case Some(moved) => phase' == moved && Precedes(phase, moved)
            case None => phase' == phase
    ensures step.Receive? && step.peer == p ==> PhaseAfter(Moves(run, p)) == Active
  {
    hide Apply, Enabled, LifeSoFar, Moves, Spawns;
    Next(run, step);
    HistorySnoc(run, step, p);
    TasksAreHistory(run);
    TaskMoves(After(run), step, p);
    if step.Receive? && step.peer == p {
      ReceiveNeedsActive(After(run), step);
    }
  }

  lemma ProgressStep(run: seq<Step>, step: Step, p: PeerId)
    requires Possible(run + [step])
    requires Progress(run, p, PhaseAfter(Moves(run, p)))
    ensures Progress(run + [step], p, PhaseAfter(Moves(run + [step], p)))
  {
    hide Possible, MessageOf, Moves, PhaseAfter, Received;
    PhaseStep(run, step, p);
    ReceivedSnoc(run, step, p);
    InSnoc(run, step, SendConnected(p));
    InSnoc(run, step, SendDisconnected(p));
  }

  lemma {:induction false} ProgressAlways(run: seq<Step>, p: PeerId)
    requires Possible(run)
    ensures Progress(run, p, PhaseAfter(Moves(run, p)))
  {
    if run != [] {
      var before, step := run[..|run| - 1], run[|run| - 1];
      assert before + [step] == run;
      ProgressAlways(before, p);
      ProgressStep(before, step, p);
    }
  }

  lemma DirectionKept(run: seq<Step>, step: Step, p: PeerId)
    requires Possible(run + [step]) && p in After(run).tasks
    ensures DirectionOf(run + [step], p) == DirectionOf(run, p)
  {
    hide LifeSoFar;
    Next(run, step);
    TasksAreHistory(run);
    HistorySnoc(run, step, p);
  }

  /** Connect, messages, disconnect. */
  ghost function Story(run: seq<Step>, p: PeerId): seq<Event> {
    If(SendConnected(p) in run, PeerConnected(p, DirectionOf(run, p)))
    + Received(run, p)
    + If(SendDisconnected(p) in run, PeerDisconnected(p))
  }

  /** When the task of `p` sends something, it has sent exactly what comes before it. */
  lemma StepInStory(run: seq<Step>, step: Step, p: PeerId)
    requires Possible(run + [step])
    ensures step == SendConnected(p) ==>
              SendConnected(p) !in run && SendDisconnected(p) !in run && Received(run, p) == []
    ensures (step.Receive? && step.peer == p) || step == SendDisconnected(p) ==> SendDisconnected(p) !in run
    ensures SendConnected(p) in run || step == SendConnected(p) ==> DirectionOf(run + [step], p) == DirectionOf(run, p)
  {
    hide Possible, MessageOf, Moves, Received, DirectionOf;
    Next(run, step);
    ProgressAlways(run, p);
    PhaseStep(run, step, p);
    if SendConnected(p) in run || step == SendConnected(p) {
      StartedTask(run, step, p);
      DirectionKept(run, step, p);
    }
  }

  lemma StartedTask(run: seq<Step>, step: Step, p: PeerId)
    requires Possible(run + [step]) && PhaseAfter(Moves(run, p)) != Handshaking
    ensures Possible(run) && p in After(run).tasks
  {
    hide Apply, Enabled, LifeSoFar;
    Next(run, step);
    TasksAreHistory(run);
  }

  lemma StorySnoc(run: seq<Step>, step: Step, p: PeerId)
    requires Possible(run + [step])
    ensures Story(run + [step], p) ==
            Story(run, p) + if Sends(run, step) != [] && Sends(run, step)[0].peer == p then Sends(run, step) else []
  {
    hide Possible, MessageOf, Received, DirectionOf;
    StepInStory(run, step, p);
    ReceivedSnoc(run, step, p);
    InSnoc(run, step, SendConnected(p));
    InSnoc(run, step, SendDisconnected(p));
  }

  lemma EventsSnoc(run: seq<Step>, step: Step, p: PeerId)
    ensures EventsOf(Sent(run + [step]), p) ==
            EventsOf(Sent(run), p)
            + if Sends(run, step) != [] && Sends(run, step)[0].peer == p then Sends(run, step) else []
  {
    hide MessageOf, DirectionOf, Sent, EventsOf;
    EventSnoc(run, step);
    EventsOfAppend(Sent(run), Sends(run, step), p);
    NoEvents(p);
    if Sends(run, step) != [] {
      SingleEvent(Sends(run, step)[0], p);
    }
  }

  lemma SingleEvent(e: Event, p: PeerId)
    ensures EventsOf([e], p) == if e.peer == p then [e] else []
  {
    assert [e][..0] == [];
  }

  /** In every run the events sent for a peer are its connect, then the messages received from it in
      the order received, then its disconnect, as far as it has come. */
  lemma {:induction false} PeerEventsInOrder(run: seq<Step>, p: PeerId)
    requires Possible(run)
    ensures EventsOf(Sent(run), p) ==
            If(SendConnected(p) in run, PeerConnected(p, DirectionOf(run, p)))
            + Received(run, p)
            + If(SendDisconnected(p) in run, PeerDisconnected(p))
  {
    if run != [] {
      hide Sends, Sent, EventsOf, Received, DirectionOf;
      var before, step := run[..|run| - 1], run[|run| - 1];
      assert before + [step] == run;
      PeerEventsInOrder(before, p);
      StorySnoc(before, step, p);
      EventsSnoc(before, step, p);
      assert Story(run, p) == EventsOf(Sent(run), p);
    }
  }

  lemma NoEvents(p: PeerId)
    ensures EventsOf([], p) == []
  {
  }

  // ----- The router -----

  /** The router operations of a step: the join of a registration, or the operations of the oldest
      event not yet taken up. */
  function Operates(run: seq<Step>, step: Step): seq<Op> {
    match step
    case Register(p) => [Join(p, DirectionOf(run, p), ModeOf(run, p))]
    case Handle(order, clock) =>
      if Taken(run) < |Sent(run)| then Operations(Sent(run)[Taken(run)], order, clock) else []
    case _ => []
  }

  /** The joins and, in between, the operations of exactly the events taken up, in order. */
  function Operated(run: seq<Step>): seq<Op> {
    if run == [] then [] else Operated(run[..|run| - 1]) + Operates(run[..|run| - 1], run[|run| - 1])
  }

  lemma LogStep(s: System, run: seq<Step>, step: Step)
    requires Enabled(s, step) && TasksMatch(s, run)
    requires Taken(run) <= |Sent(run)| && s.queue == Sent(run)[Taken(run)..]
    ensures Apply(s, step).log == s.log + Operates(run, step)
  {
    hide State, Operations, Emitted, Pings, Dispatch, LifeSoFar, MessageOf;
    if step.SendNext? {
      DispatchKeeps(s, step.who);
    }
  }

  /** In every run the router's history is the joins plus the operations of exactly the events taken
      up so far. */
  lemma {:induction false} LogIsHistory(run: seq<Step>)
    requires Possible(run)
    ensures After(run).log == Operated(run)
  {
    if run != [] {
      hide Apply, Enabled, TasksMatch, Operates;
      var before, step := run[..|run| - 1], run[|run| - 1];
      assert before + [step] == run;
      LogIsHistory(before);
      TasksAreHistory(before);
      EventsConserved(before);
      Next(before, step);
      LogStep(After(before), before, step);
    }
  }

  /** When the main loop takes up an event it is the oldest one sent and not yet taken up, the
      router does with it what handling that event amounts to, and the actions are what the main
      loop then has in hand. */
  lemma {:induction false} OldestEventHandled(run: seq<Step>, order: seq<PeerId>, clock: nat -> real)
    requires Possible(run + [Handle(order, clock)])
    ensures Taken(run) < |Sent(run)|
    ensures var before, after := After(run), After(run + [Handle(order, clock)]);
            Handled(before.Router(), Sent(run)[Taken(run)], clock, after.Router(), after.main.Load())
  {
    hide Handled, Operations, Sent, Taken;
    Next(run, Handle(order, clock));
    EventsConserved(run);
    var s := After(run);
    var ops := Operations(s.queue[0], order, clock);
    assert s.queue[0] == Sent(run)[Taken(run)];
    EventHandled(s.Router(), s.queue[0], order, clock);
    RunAppend(EMPTY, s.log, ops);
  }

  /** No other step touches the router, except that a registration enters the peer as its task was
      started. */
  lemma {:induction false} RouterOtherwiseKept(run: seq<Step>, step: Step)
    requires Possible(run + [step]) && !step.Handle?
    ensures var before, after := After(run).Router(), After(run + [step]).Router();
            after == if step.Register? then
                       before.(peers := before.peers[step.peer :=
                         PeerEntry(DirectionOf(run, step.peer), ModeOf(run, step.peer))])
                     else before
  {
    hide Operations, Sent, Taken, LifeSoFar, Dispatch;
    Next(run, step);
    TasksAreHistory(run);
    if step.SendNext? {
      DispatchKeeps(After(run), step.who);
    }
    if step.Register? {
      Extend(After(run).log, Join(step.peer, DirectionOf(run, step.peer), ModeOf(run, step.peer)));
    }
  }

  // ----- Keepalive and the sender map -----

  lemma {:induction false} PingCount(peers: map<PeerId, PeerEntry>, order: seq<PeerId>, p: PeerId)
    ensures multiset(Targets(Pings(peers, order)))[p] ==
            if p in peers && peers[p].direction == Outbound then multiset(order)[p] else 0
  {
    if order != [] {
      PingCount(peers, order[1..], p);
      var head := if order[0] in peers && peers[order[0]].direction == Outbound then [Send(order[0], GetPeers)] else [];
      TargetsAppend(head, Pings(peers, order[1..]));
      CountHead(order, p);
      assert Targets(head) == if head == [] then [] else [order[0]];
    }
  }

  /** A tick of the keepalive task takes in hand one GetPeers for every registered outbound peer, in
      whatever order the registry is iterated, and nothing else. */
  lemma {:induction false} TickPingsOutbound(run: seq<Step>, order: seq<PeerId>)
    requires Possible(run + [Tick(order)])
    ensures After(run).keepalive.Idle?
    ensures var peers, load := After(run).Router().peers, After(run + [Tick(order)]).keepalive.Load();
            && multiset(Targets(load)) == multiset(set p | p in peers && peers[p].direction == Outbound)
            && forall a :: a in load ==> a.message == GetPeers
  {
    hide State;
    Next(run, Tick(order));
    var peers := After(run).Router().peers;
    PingsFit(peers, order);
    var outbound := set p | p in peers && peers[p].direction == Outbound;
    forall p: PeerId
      ensures multiset(Targets(Pings(peers, order)))[p] == multiset(outbound)[p]
    {
      PingCount(peers, order, p);
      assert multiset(order)[p] == multiset(peers.Keys)[p];
    }
  }

  /** Everything the keepalive task ever took in hand, in order. */
  ghost function Ticked(run: seq<Step>): seq<Action>
    requires Possible(run)
  {
    if run == [] then []
    else
      var before, step := run[..|run| - 1], run[|run| - 1];
      Ticked(before) + if step.Tick? then After(run).keepalive.Load() else []
  }

  /** What it took up and what it has left are all it ever took in hand, in order. */
  lemma {:induction false} PingsTakenInOrder(run: seq<Step>)
    requires Possible(run)
    ensures ActionsOf(After(run).pinged) + After(run).keepalive.Load() == Ticked(run)
  {
    if run != [] {
      var before, step := run[..|run| - 1], run[|run| - 1];
      PingsTakenInOrder(before);
      PingsStep(After(before), step);
    }
  }

  lemma PingsStep(s: System, step: Step)
    requires Enabled(s, step)
    ensures var s' := Apply(s, step);
            ActionsOf(s'.pinged) + s'.keepalive.Load() ==
            ActionsOf(s.pinged) + s.keepalive.Load() + if step.Tick? then s'.keepalive.Load() else []
  {
    hide State, Operations, Emitted, Pings;
    if step == SendNext(Keepalive) {
      DispatchOrder(s.pinged, Apply(s, step).pinged[|s.pinged|], s.keepalive.actions);
    } else {
      assert Apply(s, step).pinged == s.pinged;
    }
  }

  /** While one of the two has the sender map locked, the other has not, and no step of any task
      changes the map. */
  lemma {:induction false} SenderMapLocked(run: seq<Step>, step: Step)
    requires Possible(run + [step]) && (After(run).main.Sending? || After(run).keepalive.Sending?)
    ensures !(After(run).main.Sending? && After(run).keepalive.Sending?)
    ensures After(run + [step]).senders == After(run).senders
  {
    hide State, Operations, Emitted, Pings, Dispatch;
    Next(run, step);
    Invariant(run);
    if step.SendNext? {
      DispatchKeeps(After(run), step.who);
    }
  }
}
