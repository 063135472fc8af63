/** Two written claims about the router that the code does not meet: that a GetPeers is answered
    from the peer registry, and that Light mode drops requests. */
module RouterClaims {
  import opened Types
  import opened Vlq
  import opened Messages
  import opened RouterMachine
  import opened RouterLog
  import opened RouterHistory

  // ----- GetPeers -----

  /** How many peers a Peers body lists: its leading count, or none if even that is missing. */
  function ListedPeers(body: Bytes): nat {
    match VlqAt(body, 0)
    case Got(count, _) => count
    case Fail(_) => 0
  }

  /** `answer` lists as many peers as the registry holds besides the one that asked. */
  ghost predicate FromRegistry(s: RouterState, p: PeerId, answer: ProtocolMessage) {
    answer.Peers? && ListedPeers(answer.body) == |s.peers.Keys - {p}|
  }

  lemma NobodyElse(peers: set<PeerId>, p: PeerId)
    requires p in peers
    ensures |peers - {p}| == 0 <==> peers == {p}
  {
    if peers - {p} == {} {
      assert peers == {p};
    }
  }

  lemma OthersLeft(log: seq<Op>, p: PeerId)
    requires p in State(log).peers
    ensures State(log).peers.Keys == {p} <==>
            forall k: nat, q :: JoinedAt(log, k, q) && StaysAfter(log, k, q) ==> q == p
  {
    hide State, JoinedAt, StaysAfter;
    if State(log).peers.Keys == {p} {
      forall k: nat, q | JoinedAt(log, k, q) && StaysAfter(log, k, q)
        ensures q == p
      {
        RegistryIsHistory(log, q);
        assert q in State(log).peers.Keys;
      }
    }
    if forall k: nat, q :: JoinedAt(log, k, q) && StaysAfter(log, k, q) ==> q == p {
      forall q | q in State(log).peers
        ensures q == p
      {
        RegistryIsHistory(log, q);
      }
      assert State(log).peers.Keys == {p};
    }
  }

  /** A registered peer's GetPeers is answered, to that peer alone, with a body that has not even a
      count. In every run this is the registry's answer if and only if nobody else is registered,
      that is, everybody else who ever joined has left. */
  lemma {:induction false} GetPeersAnswer(log: seq<Op>, p: PeerId)
    requires Legal(log) && p in State(log).peers
    ensures StepActions(State(log), AskPeers(p)) == [Send(p, Peers([]))]
    ensures VlqAt([], 0).Fail?
    ensures FromRegistry(State(log), p, Peers([])) <==> State(log).peers.Keys == {p}
    ensures FromRegistry(State(log), p, Peers([])) <==>
            forall k: nat, q :: JoinedAt(log, k, q) && StaysAfter(log, k, q) ==> q == p
  {
    hide Legal, State, JoinedAt, StaysAfter;
    NobodyElse(State(log).peers.Keys, p);
    OthersLeft(log, p);
  }

  // ----- Light mode -----

  /** In every run a registered Light peer's request is dropped if and only if nobody else is the
      last announcer of the modifier, whatever its type: the same condition as for a Full peer. */
  lemma {:induction false} LightRequestDropped(log: seq<Op>, op: Op)
    requires Legal(log) && op.Ask? && op.peer in State(log).peers && State(log).peers[op.peer].mode == Light
    ensures StepActions(State(log), op) == [] <==>
            op.id !in State(log).inv || State(log).inv[op.id] == op.peer
    ensures StepActions(State(log), op) == [] <==>
            forall k, p :: LastAnnouncement(log, k, op.id, p) ==> p == op.peer
  {
    RequestGoesToAnnouncer(log, op);
  }

  // ----- A run that shows both -----

  lemma LightPair() returns (log: seq<Op>)
    ensures Legal(log)
    ensures State(log) == EMPTY.(peers := map[1 := PeerEntry(Outbound, Full), 2 := PeerEntry(Inbound, Light)])
  {
    var first := [Join(1, Outbound, Full)];
    Extend([], first[0]);
    assert [] + [Join(1, Outbound, Full)] == first;
    log := first + [Join(2, Inbound, Light)];
    Extend(first, Join(2, Inbound, Light));
  }

  /** An outbound peer announces a modifier of any type and a Light inbound peer's request for it
      is forwarded; and that Light peer's GetPeers is not answered from the registry. */
  lemma LightRun(modifierType: byte, id: ModifierId, now: real) returns (log: seq<Op>)
    ensures Legal(log) && 2 in State(log).peers && State(log).peers[2].mode == Light
    ensures StepActions(State(log), Ask(2, modifierType, id, now)) == [Send(1, ModifierRequest(modifierType, [id]))]
    ensures !FromRegistry(State(log), 2, Peers([]))
  {
    var pair := LightPair();
    log := pair + [Announce(1, id)];
    Extend(pair, Announce(1, id));
    assert 1 in State(log).peers.Keys;
    GetPeersAnswer(log, 2);
  }
}
