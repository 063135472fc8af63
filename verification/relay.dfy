/** From one peer's frame to another's: what the router emits for a received frame can be sent,
    and is understood as it was meant. */
module Relaying {
  import opened Types
  import opened Vlq
  import opened Frames
  import opened Messages
  import opened RouterMachine
  import opened RouterSync

  /** `out` survives the wire and is no longer there than `m`. */
  predicate NoLonger(out: ProtocolMessage, m: ProtocolMessage) {
    Canonical(out) && |FrameOf(out).body| <= |FrameOf(m).body|
  }

  lemma {:induction false} OneOfMany(ms: seq<Modifier>, k: nat)
    requires k < |ms|
    ensures |EncodeModifiers([ms[k]])| <= |EncodeModifiers(ms)|
  {
    var single: seq<Modifier> := [ms[k]];
    assert single[..0] == [];
    if k < |ms| - 1 {
      OneOfMany(ms[..|ms| - 1], k);
    }
  }

  lemma SingleRequest(t: byte, ids: seq<ModifierId>, k: nat)
    requires k < |ids|
    ensures NoLonger(ModifierRequest(t, [ids[k]]), ModifierRequest(t, ids))
  {
    EncodeMonotone(1, |ids|);
  }

  lemma SingleResponse(t: byte, ms: seq<Modifier>, k: nat)
    requires k < |ms| && Canonical(ModifierResponse(t, ms))
    ensures NoLonger(ModifierResponse(t, [ms[k]]), ModifierResponse(t, ms))
  {
    EncodeMonotone(1, |ms|);
    OneOfMany(ms, k);
  }

  /** Every operation of a message emits only messages no longer than it. */
  lemma OperationNoLonger(s: RouterState, p: PeerId, m: ProtocolMessage, order: seq<PeerId>, clock: nat -> real, k: nat)
    requires Canonical(m) && k < |Operations(Message(p, m), order, clock)|
    ensures forall a :: a in StepActions(s, Operations(Message(p, m), order, clock)[k]) ==> NoLonger(a.message, m)
  {
    var op := Operations(Message(p, m), order, clock)[k];
    match m
    case ModifierRequest(t, ids) => SingleRequest(t, ids, k);
    case ModifierResponse(t, ms) => SingleResponse(t, ms, k);
    case _ =>
      if op.Relay? {
        FanOutTargets(s.peers, p, m, order);
      }
  }

  lemma {:induction false} EmittedNoLonger(s: RouterState, ops: seq<Op>, m: ProtocolMessage)
    requires forall k :: 0 <= k < |ops| ==>
               forall t :: forall a :: a in StepActions(t, ops[k]) ==> NoLonger(a.message, m)
    ensures forall a :: a in Emitted(s, ops) ==> NoLonger(a.message, m)
  {
    if ops != [] {
      var before, last := ops[..|ops| - 1], ops[|ops| - 1];
      EmittedNoLonger(s, before, m);
      assert forall a :: a in StepActions(Run(s, before), last) ==> NoLonger(a.message, m);
    }
  }

  lemma EventNoLonger(s: RouterState, p: PeerId, m: ProtocolMessage, order: seq<PeerId>, clock: nat -> real)
    requires Canonical(m)
    ensures forall a :: a in Emitted(s, Operations(Message(p, m), order, clock)) ==> NoLonger(a.message, m)
  {
    var ops := Operations(Message(p, m), order, clock);
    forall k, t | 0 <= k < |ops|
      ensures forall a :: a in StepActions(t, ops[k]) ==> NoLonger(a.message, m)
    {
      OperationNoLonger(t, p, m, order, clock, k);
    }
    EmittedNoLonger(s, ops, m);
  }

  /** Forwarding never grows a message: whatever the router emits for a message parsed from a
      frame, in any state, has a body no longer than the frame's, is accepted by the receiver's
      decoder if the frame was, and is parsed there as the message that was emitted. */
  lemma ForwardingNeverGrows(
    hash: Hash, magic: Magic, s: RouterState, p: PeerId, f: Frame, order: seq<PeerId>, clock: nat -> real, a: Action)
    requires MessageOf(f).Ok? && |f.body| <= MAX_BODY_SIZE
    requires a in Emitted(s, Operations(Message(p, MessageOf(f).value), order, clock))
    ensures |FrameOf(a.message).body| <= |f.body|
    ensures Decode(hash, magic, EncodeFrame(hash, magic, FrameOf(a.message))) == Ok(FrameOf(a.message))
    ensures MessageOf(FrameOf(a.message)) == Ok(a.message)
  {
    NormalForm(f);
    EventNoLonger(s, p, MessageOf(f).value, order, clock);
    MessageRoundTrip(a.message);
    DecodeIffEncoded(hash, magic, EncodeFrame(hash, magic, FrameOf(a.message)), FrameOf(a.message));
  }
}
