/** The two sync maps as functions of the history: who forwarded SyncInfo to whom, and who left. */
module SyncHistory {
  import opened Types
  import opened RouterMachine
  import opened RouterLog
  import opened RouterSync
  import opened RouterHistory

  /** `o` records `i` as the peer its SyncInfo goes to. */
  predicate Records(s: RouterState, o: PeerId, i: PeerId) {
    o in s.sync.inboundFor && s.sync.inboundFor[o] == i
  }

  /** `o` is the partner `i` is currently paired with. */
  predicate PairedWith(s: RouterState, i: PeerId, o: PeerId) {
    i in s.sync.outboundFor && s.sync.outboundFor[i] == o
  }

  /** `op` is an inbound SyncInfo of `i` that is forwarded to `o`. */
  predicate Pairs(s: RouterState, op: Op, i: PeerId, o: PeerId) {
    op.Sync? && op.peer == i && IsFullInbound(s, i) && StepActions(s, op) != [] && StepActions(s, op)[0].target == o
  }

  ghost predicate PairedAt(log: seq<Op>, k: nat, i: PeerId, o: PeerId) {
    k < |log| && Pairs(State(log[..k]), log[k], i, o)
  }

  /** At `k` the SyncInfo of `i` was forwarded to `o`; none of `i` was forwarded since; `i` stayed;
      and so did every partner of `i`, old or new, that was still there at `k`. */
  ghost predicate LastPairing(log: seq<Op>, k: nat, i: PeerId, o: PeerId) {
    && PairedAt(log, k, i, o)
    && (forall j, x :: k < j < |log| ==> !PairedAt(log, j, i, x))
    && StaysAfter(log, k, i)
    && (forall m, x :: 0 <= m <= k && PairedAt(log, m, i, x) && StaysAfter(log[..k], m, x) ==> StaysAfter(log, m, x))
  }

  ghost predicate IsCurrent(log: seq<Op>, i: PeerId, o: PeerId) {
    exists k: nat :: LastPairing(log, k, i, o)
  }

  /** At `k` the SyncInfo of `i` was forwarded to `o`; `o` stayed; and if `i` left since, `o` was not
      its current partner then. */
  ghost predicate LastingRecord(log: seq<Op>, k: nat, i: PeerId, o: PeerId) {
    && PairedAt(log, k, i, o)
    && StaysAfter(log, k, o)
    && (forall j :: k < j < |log| && log[j] == Leave(i) ==> !IsCurrent(log[..j], i, o))
  }

  ghost predicate IsRecorded(log: seq<Op>, i: PeerId, o: PeerId) {
    exists k: nat :: LastingRecord(log, k, i, o)
  }

  // ----- One operation -----

  /** How an operation changes what `o` records, and the current partner of `i`. */
  lemma MapsStep(s: RouterState, joined: set<PeerId>, op: Op, i: PeerId, o: PeerId)
    requires SyncConsistent(s, joined) && LegalOp(s, joined, op)
    ensures Records(StepState(s, op), o, i) <==>
            || Pairs(s, op, i, o)
            || (Records(s, o, i) && op != Leave(o) && !(op == Leave(i) && PairedWith(s, i, o)))
    ensures PairedWith(StepState(s, op), i, o) <==>
            || Pairs(s, op, i, o)
            || (PairedWith(s, i, o) && (forall x :: !Pairs(s, op, i, x)) && op != Leave(i)
                && !(op.Leave? && Records(s, op.peer, i)))
  {
    if op.Sync? {
      FindFreeSound(s, op.order);
      if IsFullInbound(s, op.peer) && FindFree(s, op.order).Some? {
        assert Pairs(s, op, op.peer, FindFree(s, op.order).value);
      }
    }
  }

  // ----- The history predicates, one operation later -----

  lemma PairedPrefix(log: seq<Op>, k: nat, i: PeerId, o: PeerId)
    requires k < |log| - 1
    ensures PairedAt(log, k, i, o) <==> PairedAt(log[..|log| - 1], k, i, o)
  {
    assert log[..|log| - 1][..k] == log[..k];
  }

  lemma StaysStep(log: seq<Op>, k: nat, p: PeerId)
    requires k < |log| - 1
    ensures StaysAfter(log, k, p) <==> StaysAfter(log[..|log| - 1], k, p) && log[|log| - 1] != Leave(p)
  {
    var before := log[..|log| - 1];
    assert forall j :: 0 <= j < |before| ==> before[j] == log[j];
  }

  lemma LastingRecordStep(log: seq<Op>, k: nat, i: PeerId, o: PeerId)
    requires k < |log| - 1
    ensures var before, op := log[..|log| - 1], log[|log| - 1];
            LastingRecord(log, k, i, o) <==>
            LastingRecord(before, k, i, o) && op != Leave(o) && !(op == Leave(i) && IsCurrent(before, i, o))
  {
    var n, before := |log| - 1, log[..|log| - 1];
    PairedPrefix(log, k, i, o);
    StaysStep(log, k, o);
    forall j | 0 <= j <= n
      ensures log[..j] == before[..j]
    {
    }
    assert before[..n] == before;
    assert forall j :: 0 <= j < n ==> before[j] == log[j];
  }

  lemma LastOperation(log: seq<Op>, p: PeerId)
    requires log != []
    ensures StaysAfter(log, |log| - 1, p)
  {
  }

  lemma RecordedStep(log: seq<Op>, i: PeerId, o: PeerId)
    requires log != []
    ensures var before, op := log[..|log| - 1], log[|log| - 1];
            IsRecorded(log, i, o) <==>
            || Pairs(State(before), op, i, o)
            || (IsRecorded(before, i, o) && op != Leave(o) && !(op == Leave(i) && IsCurrent(before, i, o)))
  {
    hide State, Pairs, IsCurrent, StaysAfter;
    var n, before := |log| - 1, log[..|log| - 1];
    forall k | 0 <= k < n
      ensures LastingRecord(log, k, i, o) <==>
              LastingRecord(before, k, i, o) && log[n] != Leave(o) && !(log[n] == Leave(i) && IsCurrent(before, i, o))
    {
      LastingRecordStep(log, k, i, o);
    }
    if Pairs(State(before), log[n], i, o) {
      LastOperation(log, o);
      assert LastingRecord(log, n, i, o);
    }
    if IsRecorded(before, i, o) && log[n] != Leave(o) && !(log[n] == Leave(i) && IsCurrent(before, i, o)) {
      var k: nat :| LastingRecord(before, k, i, o);
      assert LastingRecord(log, k, i, o);
    }
    if IsRecorded(log, i, o) {
      var k: nat :| LastingRecord(log, k, i, o);
      if k < n {
        assert LastingRecord(before, k, i, o);
      }
    }
  }

  /** `x` was at some time a partner of `i` and has stayed since. */
  ghost predicate StillThere(log: seq<Op>, i: PeerId, x: PeerId) {
    exists m: nat :: PairedAt(log, m, i, x) && StaysAfter(log, m, x)
  }

  lemma LastPairingStep(log: seq<Op>, k: nat, i: PeerId, o: PeerId)
    requires k < |log| - 1
    ensures var before, op := log[..|log| - 1], log[|log| - 1];
            LastPairing(log, k, i, o) <==>
            && LastPairing(before, k, i, o)
            && (forall x :: !Pairs(State(before), op, i, x))
            && op != Leave(i)
            && !(op.Leave? && StillThere(before, i, op.peer))
  {
    var n, before := |log| - 1, log[..|log| - 1];
    forall j, x | 0 <= j < n
      ensures PairedAt(log, j, i, x) <==> PairedAt(before, j, i, x)
      ensures StaysAfter(log, j, x) <==> StaysAfter(before, j, x) && log[n] != Leave(x)
    {
      PairedPrefix(log, j, i, x);
      StaysStep(log, j, x);
    }
    assert log[..k] == before[..k];
    assert forall x :: PairedAt(log, n, i, x) <==> Pairs(State(before), log[n], i, x);
    StaysStep(log, k, i);
    if LastPairing(log, k, i, o) {
      forall m: nat, x | PairedAt(before, m, i, x) && StaysAfter(before, m, x)
        ensures log[n] != Leave(x)
      {
        assert PairedAt(log, m, i, x) && m <= k;
        assert StaysAfter(log[..k], m, x);
      }
    }
    if LastPairing(before, k, i, o) && !(log[n].Leave? && StillThere(before, i, log[n].peer)) {
      forall m, x | 0 <= m <= k && PairedAt(log, m, i, x) && StaysAfter(log[..k], m, x)
        ensures StaysAfter(log, m, x)
      {
        assert PairedAt(before, m, i, x) && StaysAfter(before, m, x);
      }
    }
  }

  lemma CurrentStep(log: seq<Op>, i: PeerId, o: PeerId)
    requires log != []
    ensures var before, op := log[..|log| - 1], log[|log| - 1];
            IsCurrent(log, i, o) <==>
            || Pairs(State(before), op, i, o)
            || (IsCurrent(before, i, o) && (forall x :: !Pairs(State(before), op, i, x)) && op != Leave(i)
                && !(op.Leave? && StillThere(before, i, op.peer)))
  {
    var n, before := |log| - 1, log[..|log| - 1];
    if Pairs(State(before), log[n], i, o) {
      assert PairedAt(log, n, i, o);
      forall m, x | 0 <= m <= n && PairedAt(log, m, i, x) && StaysAfter(log[..n], m, x)
        ensures StaysAfter(log, m, x)
      {
        if m < n {
          StaysStep(log, m, x);
        }
      }
      assert LastPairing(log, n, i, o);
    } else {
      assert !PairedAt(log, n, i, o);
      if IsCurrent(log, i, o) {
        var k: nat :| LastPairing(log, k, i, o);
        LastPairingStep(log, k, i, o);
      }
      if IsCurrent(before, i, o) {
        var k: nat :| LastPairing(before, k, i, o);
        LastPairingStep(log, k, i, o);
      }
    }
  }

  // ----- Ids join once -----

  /** A peer that was registered and is not any more never is again. */
  lemma {:induction false} GoneForGood(log: seq<Op>, k: nat, p: PeerId)
    requires Legal(log) && k <= |log| && p in Joined(log[..k]) && p !in State(log[..k]).peers
    ensures p in Joined(log) && p !in State(log).peers
  {
    if k < |log| {
      var before := log[..|log| - 1];
      assert before[..k] == log[..k];
      GoneForGood(before, k, p);
    } else {
      assert log[..k] == log;
    }
  }

  /** A peer registered at `k` is registered at the end if and only if it did not leave since. */
  lemma StaysIffRegistered(log: seq<Op>, k: nat, p: PeerId)
    requires Legal(log) && k < |log| && p in State(log[..k]).peers && log[k] != Leave(p)
    ensures p in State(log).peers <==> StaysAfter(log, k, p)
  {
    if StaysAfter(log, k, p) {
      RegistryIsHistory(log[..k], p);
      var j :| JoinedAt(log[..k], j, p) && StaysAfter(log[..k], j, p);
      assert JoinedAt(log, j, p) && StaysAfter(log, j, p);
      RegistryIsHistory(log, p);
    } else {
      var j :| k < j < |log| && log[j] == Leave(p);
      LeftAt(log, k, j, p);
      GoneForGood(log, j + 1, p);
    }
  }

  lemma LeftAt(log: seq<Op>, k: nat, j: nat, p: PeerId)
    requires Legal(log) && k < j < |log| && p in State(log[..k]).peers && log[j] == Leave(p)
    ensures p in Joined(log[..j + 1]) && p !in State(log[..j + 1]).peers
  {
    PrefixLegal(log, k);
    RunConsistent(log[..k]);
    JoinedGrows(log, k, j + 1, p);
    PrefixStep(log, j);
    Extend(log[..j], log[j]);
  }

  lemma {:induction false} JoinedGrows(log: seq<Op>, k: nat, j: nat, p: PeerId)
    requires k <= j <= |log| && p in Joined(log[..k])
    ensures p in Joined(log[..j])
  {
    if k < j {
      JoinedGrows(log, k, j - 1, p);
      assert log[..j][..j - 1] == log[..j - 1];
    }
  }

  /** While `i` is paired with anyone, the partners still there are exactly those that record it. */
  lemma StillThereRecorded(log: seq<Op>, i: PeerId, o: PeerId, x: PeerId)
    requires Legal(log) && IsCurrent(log, i, o)
    ensures StillThere(log, i, x) <==> IsRecorded(log, i, x)
  {
    if IsRecorded(log, i, x) {
      var m: nat :| LastingRecord(log, m, i, x);
      assert PairedAt(log, m, i, x) && StaysAfter(log, m, x);
    }
    if StillThere(log, i, x) {
      var k: nat :| LastPairing(log, k, i, o);
      StaysIffRegistered(log, k, i);
      var m: nat :| PairedAt(log, m, i, x) && StaysAfter(log, m, x);
      StaysIffRegistered(log, m, i);
      assert LastingRecord(log, m, i, x);
    }
  }

  // ----- Every run -----

  /** In every run, `o` records `i` if and only if a SyncInfo of `i` was once forwarded to `o`, `o`
      has not left since, and if `i` has, `o` was not its current partner then. And `o` is the
      current partner of `i` if and only if the last forwarded SyncInfo of `i` went to `o`, `i` has
      not left since, and nor has any partner of `i`, old or new, that was there at that time. */
  lemma {:induction false} SyncMapsAreHistory(log: seq<Op>, i: PeerId, o: PeerId)
    requires Legal(log)
    ensures Records(State(log), o, i) <==> IsRecorded(log, i, o)
    ensures PairedWith(State(log), i, o) <==> IsCurrent(log, i, o)
  {
    if log != [] {
      hide State, StepActions, StepState, IsCurrent, IsRecorded, Records, PairedWith, Pairs, StillThere;
      var before, op := log[..|log| - 1], log[|log| - 1];
      assert before + [op] == log;
      Extend(before, op);
      RunConsistent(before);
      MapsStep(State(before), Joined(before), op, i, o);
      RecordedStep(log, i, o);
      CurrentStep(log, i, o);
      SyncMapsAreHistory(before, i, o);
      if op.Leave? && IsCurrent(before, i, o) {
        SyncMapsAreHistory(before, i, op.peer);
        StillThereRecorded(before, i, o, op.peer);
      }
    }
  }

  /** When an old partner of `i` leaves, `i` loses its current pairing too, although the current
      partner goes on recording it; and when `i` then leaves, that record stays behind. */
  lemma OldPartnerLeaves(log: seq<Op>, i: PeerId, former: PeerId, current: PeerId)
    requires Legal(log) && Records(State(log), former, i) && PairedWith(State(log), i, current) && former != current
    ensures var gone := log + [Leave(former)];
            && Legal(gone) && Legal(gone + [Leave(i)])
            && i !in State(gone).sync.outboundFor && Records(State(gone), current, i)
            && Records(State(gone + [Leave(i)]), current, i) && i !in State(gone + [Leave(i)]).peers
  {
    hide State, Legal, Joined;
    RunConsistent(log);
    Extend(log, Leave(former));
    Extend(log + [Leave(former)], Leave(i));
  }

  /** Such a run: peer 3 was paired with peer 1 and then with peer 2; peer 1 leaves. */
  lemma PairingLost() returns (log: seq<Op>)
    ensures Legal(log) && 2 in State(log).peers && 3 in State(log).peers
    ensures 3 !in State(log).sync.outboundFor && Records(State(log), 2, 3)
  {
    var paired := PairedTwice();
    OldPartnerLeaves(paired, 3, 1, 2);
    log := paired + [Leave(1)];
    Extend(paired, Leave(1));
  }
}
