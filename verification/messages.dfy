/** Typed messages and their frames (src/protocol/messages.rs). */
module Messages {
  import opened Types
  import opened ByteIO
  import opened Frames
  import opened Vlq

  const GET_PEERS: byte := 1
  const PEERS: byte := 2
  const MODIFIER_REQUEST: byte := 22
  const MODIFIER_RESPONSE: byte := 33
  const INV: byte := 55
  const SYNC_INFO: byte := 65

  type Modifier = (ModifierId, Bytes)

  datatype ProtocolMessage =
    | GetPeers
    | Peers(body: Bytes)
    | Inv(modifierType: byte, ids: seq<ModifierId>)
    | ModifierRequest(modifierType: byte, ids: seq<ModifierId>)
    | ModifierResponse(modifierType: byte, modifiers: seq<Modifier>)
    | SyncInfo(body: Bytes)
    | Unknown(code: byte, body: Bytes)

  predicate IsKnown(code: byte) {
    code in [GET_PEERS, PEERS, MODIFIER_REQUEST, MODIFIER_RESPONSE, INV, SYNC_INFO]
  }

  // ----- Lists of ids -----

  function EncodeIds(ids: seq<ModifierId>): (r: Bytes)
    ensures |r| == 32 * |ids|
  {
    if ids == [] then [] else EncodeIds(ids[..|ids| - 1]) + ids[|ids| - 1]
  }

  function IdsAt(d: Bytes, pos: nat, count: nat): (r: Parsed<seq<ModifierId>>)
    ensures r.Got? ==> |r.value| == count && r.next == pos + 32 * count <= |d|
    ensures r.Fail? ==> r.error == UnexpectedEof
  {
    if count == 0 then if pos <= |d| then Got([], pos) else Fail(UnexpectedEof)
    else
      match IdsAt(d, pos, count - 1)
      case Fail(e) => Fail(e)
      case Got(ids, next) =>
        match ExactAt(d, next, 32)
        case Fail(e) => Fail(e)
        case Got(id, end) => Got(ids + [id], end)
  }

  /** Ids are read exactly where they were written, and nothing else reads as them. */
  lemma {:induction false} IdsIff(d: Bytes, pos: nat, ids: seq<ModifierId>)
    requires pos <= |d|
    ensures IdsAt(d, pos, |ids|) == Got(ids, pos + 32 * |ids|) <==> Holds(d, pos, EncodeIds(ids))
  {
    if ids != [] {
      var init, last := ids[..|ids| - 1], ids[|ids| - 1];
      IdsIff(d, pos, init);
      HoldsAppend(d, pos, EncodeIds(init), last);
      var r := IdsAt(d, pos, |init|);
      if r.Got? && r.next + 32 <= |d| {
        SnocEqual(r.value, d[r.next..r.next + 32], ids);
      }
    }
  }

  lemma SnocEqual(init: seq<ModifierId>, last: ModifierId, ids: seq<ModifierId>)
    requires ids != []
    ensures init + [last] == ids <==> init == ids[..|ids| - 1] && last == ids[|ids| - 1]
  {
    assert ids[..|ids| - 1] + [ids[|ids| - 1]] == ids;
    assert (init + [last])[..|init|] == init;
  }

  // ----- Inv and ModifierRequest bodies -----

  function InvBody(modifierType: byte, ids: seq<ModifierId>): Bytes {
    [modifierType] + Vlq.Encode(|ids|) + EncodeIds(ids)
  }

  function ParseInv(d: Bytes): Result<(byte, seq<ModifierId>)> {
    if d == [] then Err(UnexpectedEof)
    else
      match VlqLengthAt(d, 1)
      case Fail(e) => Err(e)
      case Got(count, next) =>
        match IdsAt(d, next, count)
        case Fail(e) => Err(e)
        case Got(ids, _) => Ok((d[0], ids))
  }

  lemma {:induction false} IdsPrefix(d: Bytes, pos: nat, count: nat, k: nat)
    requires k <= count && IdsAt(d, pos, k).Fail?
    ensures IdsAt(d, pos, count).Fail?
  {
    if k < count {
      IdsPrefix(d, pos, count - 1, k);
    }
  }

  method ParseInvBody(d: Bytes) returns (r: Result<(byte, seq<ModifierId>)>)
    ensures r == ParseInv(d)
  {
    hide VlqLengthAt;
    var c := new Cursor(d);
    var typeByte :- c.ReadExact(1);
    var count :- ReadVlqLength(c);
    ghost var start := c.pos;
    var ids: seq<ModifierId> := [];
    for k := 0 to count
      invariant start <= |d| && c.data == d && IdsAt(d, start, k) == Got(ids, c.pos)
    {
      var id := c.ReadExact(32);
      if id.Err? {
        IdsPrefix(d, start, count, k + 1);
        return Err(id.error);
      }
      ids := ids + [id.value];
    }
    r := Ok((typeByte[0], ids));
  }

  /** A `Vec` cannot be longer than a u64 can say. */
  method EncodeInvBody(modifierType: byte, ids: seq<ModifierId>) returns (r: Bytes)
    requires |ids| < U64_LIMIT
    ensures r == InvBody(modifierType, ids)
  {
    var body := new Buffer();
    body.Push(modifierType);
    WriteVlq(body, |ids|);
    ghost var start := body.data;
    for k := 0 to |ids|
      invariant body.data == start + EncodeIds(ids[..k])
    {
      body.Extend(ids[k]);
      assert ids[..k + 1][..k] == ids[..k];
    }
    assert ids[..|ids|] == ids;
    r := body.data;
  }

  /** A written list of ids is read back if and only if it has at most 262144 of them. */
  lemma InvRoundTrip(modifierType: byte, ids: seq<ModifierId>)
    requires |ids| < U64_LIMIT
    ensures ParseInv(InvBody(modifierType, ids)) == Ok((modifierType, ids)) <==> |ids| <= MAX_VLQ_LENGTH
  {
    var d := InvBody(modifierType, ids);
    assert Holds(d, 1, Vlq.Encode(|ids|));
    RoundTrip(d, 1, |ids|);
    assert Holds(d, 1 + |Vlq.Encode(|ids|)|, EncodeIds(ids));
    IdsIff(d, 1 + |Vlq.Encode(|ids|)|, ids);
  }

  /** Whatever reads as a list of ids, possibly with a padded count or trailing bytes, is at
      least as long as that list is when written. */
  lemma InvBodyShortest(d: Bytes)
    requires ParseInv(d).Ok?
    ensures var (t, ids) := ParseInv(d).value;
            |ids| <= MAX_VLQ_LENGTH && |InvBody(t, ids)| <= |d|
  {
    Shortest(d, 1);
  }

  // ----- ModifierResponse bodies -----

  function EncodeModifier(m: Modifier): Bytes {
    m.0 + Vlq.Encode(|m.1|) + m.1
  }

  function EncodeModifiers(ms: seq<Modifier>): Bytes {
    if ms == [] then [] else EncodeModifiers(ms[..|ms| - 1]) + EncodeModifier(ms[|ms| - 1])
  }

  function ModifierAt(d: Bytes, pos: nat): (r: Parsed<Modifier>)
    ensures r.Got? ==> pos < r.next <= |d| && |r.value.1| <= MAX_VLQ_LENGTH
  {
    match ExactAt(d, pos, 32)
    case Fail(e) => Fail(e)
    case Got(id, next) =>
      match VlqLengthAt(d, next)
      case Fail(e) => Fail(e)
      case Got(len, start) =>
        match ExactAt(d, start, len)
        case Fail(e) => Fail(e)
        case Got(data, end) => Got((id, data), end)
  }

  function ModifiersAt(d: Bytes, pos: nat, count: nat): (r: Parsed<seq<Modifier>>)
    ensures r.Got? ==> |r.value| == count && pos <= r.next <= |d|
  {
    if count == 0 then if pos <= |d| then Got([], pos) else Fail(UnexpectedEof)
    else
      match ModifiersAt(d, pos, count - 1)
      case Fail(e) => Fail(e)
      case Got(ms, next) =>
        match ModifierAt(d, next)
        case Fail(e) => Fail(e)
        case Got(m, end) => Got(ms + [m], end)
  }

  function ResponseBody(modifierType: byte, ms: seq<Modifier>): Bytes {
    [modifierType] + Vlq.Encode(|ms|) + EncodeModifiers(ms)
  }

  function ParseResponse(d: Bytes): Result<(byte, seq<Modifier>)> {
    if d == [] then Err(UnexpectedEof)
    else
      match VlqLengthAt(d, 1)
      case Fail(e) => Err(e)
      case Got(count, next) =>
        match ModifiersAt(d, next, count)
        case Fail(e) => Err(e)
        case Got(ms, _) => Ok((d[0], ms))
  }

  lemma {:induction false} ModifiersPrefix(d: Bytes, pos: nat, count: nat, k: nat)
    requires k <= count && ModifiersAt(d, pos, k).Fail?
    ensures ModifiersAt(d, pos, count) == ModifiersAt(d, pos, k)
  {
    if k < count {
      ModifiersPrefix(d, pos, count - 1, k);
    }
  }

  method ReadModifier(c: Cursor) returns (r: Result<Modifier>)
    modifies c
    ensures r == ModifierAt(c.data, old(c.pos)).ToResult()
    ensures r.Ok? ==> c.pos == ModifierAt(c.data, old(c.pos)).next
  {
    var id :- c.ReadExact(32);
    var len :- ReadVlqLength(c);
    var data :- c.ReadExact(len);
    r := Ok((id, data));
  }

  method ParseModifierResponseBody(d: Bytes) returns (r: Result<(byte, seq<Modifier>)>)
    ensures r == ParseResponse(d)
  {
    hide VlqLengthAt, ModifierAt;
    var c := new Cursor(d);
    var typeByte :- c.ReadExact(1);
    var count :- ReadVlqLength(c);
    ghost var start := c.pos;
    var ms: seq<Modifier> := [];
    for k := 0 to count
      invariant start <= |d| && c.data == d && ModifiersAt(d, start, k) == Got(ms, c.pos)
    {
      var m := ReadModifier(c);
      if m.Err? {
        ModifiersPrefix(d, start, count, k + 1);
        return Err(m.error);
      }
      ms := ms + [m.value];
    }
    r := Ok((typeByte[0], ms));
  }

  method EncodeModifierResponseBody(modifierType: byte, ms: seq<Modifier>) returns (r: Bytes)
    requires |ms| < U64_LIMIT && forall k :: 0 <= k < |ms| ==> |ms[k].1| < U64_LIMIT
    ensures r == ResponseBody(modifierType, ms)
  {
    var body := new Buffer();
    body.Push(modifierType);
    WriteVlq(body, |ms|);
    ghost var start := body.data;
    for k := 0 to |ms|
      invariant body.data == start + EncodeModifiers(ms[..k])
    {
      ghost var before := body.data;
      body.Extend(ms[k].0);
      WriteVlq(body, |ms[k].1|);
      body.Extend(ms[k].1);
      assert body.data == before + EncodeModifier(ms[k]);
      assert ms[..k + 1][..k] == ms[..k];
    }
    assert ms[..|ms|] == ms;
    r := body.data;
  }

  predicate Sendable(ms: seq<Modifier>) {
    forall k :: 0 <= k < |ms| ==> |ms[k].1| <= MAX_VLQ_LENGTH
  }

  lemma ModifierRoundTrip(d: Bytes, pos: nat, m: Modifier)
    requires Holds(d, pos, EncodeModifier(m)) && |m.1| <= MAX_VLQ_LENGTH
    ensures ModifierAt(d, pos) == Got(m, pos + |EncodeModifier(m)|)
  {
    HoldsAppend(d, pos, m.0 + Vlq.Encode(|m.1|), m.1);
    HoldsAppend(d, pos, m.0, Vlq.Encode(|m.1|));
    LengthRoundTrip(d, pos + 32, |m.1|);
  }

  lemma {:induction false} ModifiersRoundTrip(d: Bytes, pos: nat, ms: seq<Modifier>)
    requires pos <= |d| && Holds(d, pos, EncodeModifiers(ms)) && Sendable(ms)
    ensures ModifiersAt(d, pos, |ms|) == Got(ms, pos + |EncodeModifiers(ms)|)
  {
    hide ModifierAt, EncodeModifier;
    if ms != [] {
      var init, last := ms[..|ms| - 1], ms[|ms| - 1];
      HoldsAppend(d, pos, EncodeModifiers(init), EncodeModifier(last));
      ModifiersRoundTrip(d, pos, init);
      ModifierRoundTrip(d, pos + |EncodeModifiers(init)|, last);
      assert ms == init + [last];
    }
  }

  lemma ModifierShortest(d: Bytes, pos: nat)
    requires ModifierAt(d, pos).Got?
    ensures |EncodeModifier(ModifierAt(d, pos).value)| <= ModifierAt(d, pos).next - pos
  {
    Shortest(d, pos + 32);
  }

  lemma {:induction false} ModifiersShortest(d: Bytes, pos: nat, count: nat)
    requires ModifiersAt(d, pos, count).Got?
    ensures var r := ModifiersAt(d, pos, count);
            Sendable(r.value) && |EncodeModifiers(r.value)| <= r.next - pos
  {
    if count > 0 {
      ModifiersShortest(d, pos, count - 1);
      var init := ModifiersAt(d, pos, count - 1);
      ModifierShortest(d, init.next);
      var all := ModifiersAt(d, pos, count).value;
      assert all[..|all| - 1] == init.value;
    }
  }

  /** A written response is read back if and only if it has at most 262144 modifiers of at most
      262144 bytes each. */
  lemma ResponseRoundTrip(modifierType: byte, ms: seq<Modifier>)
    requires |ms| < U64_LIMIT
    ensures ParseResponse(ResponseBody(modifierType, ms)) == Ok((modifierType, ms)) <==>
            |ms| <= MAX_VLQ_LENGTH && Sendable(ms)
  {
    var d := ResponseBody(modifierType, ms);
    var start := 1 + |Vlq.Encode(|ms|)|;
    assert Holds(d, 1, Vlq.Encode(|ms|));
    RoundTrip(d, 1, |ms|);
    assert Holds(d, start, EncodeModifiers(ms));
    if ParseResponse(d) == Ok((modifierType, ms)) {
      ModifiersShortest(d, start, |ms|);
    } else if |ms| <= MAX_VLQ_LENGTH && Sendable(ms) {
      ModifiersRoundTrip(d, start, ms);
    }
  }

  lemma ResponseBodyShortest(d: Bytes)
    requires ParseResponse(d).Ok?
    ensures var (t, ms) := ParseResponse(d).value;
            |ms| <= MAX_VLQ_LENGTH && Sendable(ms) && |ResponseBody(t, ms)| <= |d|
  {
    Shortest(d, 1);
    var head := VlqLengthAt(d, 1);
    ModifiersShortest(d, head.next, head.value);
  }

  // ----- Messages -----

  function MessageOf(f: Frame): Result<ProtocolMessage> {
    if f.code == GET_PEERS then Ok(GetPeers)
    else if f.code == PEERS then Ok(Peers(f.body))
    else if f.code == INV then
      var r :- ParseInv(f.body);
      Ok(Inv(r.0, r.1))
    else if f.code == MODIFIER_REQUEST then
      var r :- ParseInv(f.body);
      Ok(ModifierRequest(r.0, r.1))
    else if f.code == MODIFIER_RESPONSE then
      var r :- ParseResponse(f.body);
      Ok(ModifierResponse(r.0, r.1))
    else if f.code == SYNC_INFO then Ok(SyncInfo(f.body))
    else Ok(Unknown(f.code, f.body))
  }

  function FrameOf(m: ProtocolMessage): Frame {
    match m
    case GetPeers => Frame(GET_PEERS, [])
    case Peers(body) => Frame(PEERS, body)
    case Inv(t, ids) => Frame(INV, InvBody(t, ids))
    case ModifierRequest(t, ids) => Frame(MODIFIER_REQUEST, InvBody(t, ids))
    case ModifierResponse(t, ms) => Frame(MODIFIER_RESPONSE, ResponseBody(t, ms))
    case SyncInfo(body) => Frame(SYNC_INFO, body)
    case Unknown(code, body) => Frame(code, body)
  }

  method FromFrame(f: Frame) returns (r: Result<ProtocolMessage>)
    ensures r == MessageOf(f)
  {
    if f.code == GET_PEERS {
      return Ok(GetPeers);
    } else if f.code == PEERS {
      return Ok(Peers(f.body));
    } else if f.code == INV {
      var p :- ParseInvBody(f.body);
      return Ok(Inv(p.0, p.1));
    } else if f.code == MODIFIER_REQUEST {
      var p :- ParseInvBody(f.body);
      return Ok(ModifierRequest(p.0, p.1));
    } else if f.code == MODIFIER_RESPONSE {
      var p :- ParseModifierResponseBody(f.body);
      return Ok(ModifierResponse(p.0, p.1));
    } else if f.code == SYNC_INFO {
      return Ok(SyncInfo(f.body));
    }
    r := Ok(Unknown(f.code, f.body));
  }

  /** Every Rust message satisfies this: a `Vec` is no longer than a u64 can say. */
  predicate Representable(m: ProtocolMessage) {
    match m
    case Inv(_, ids) => |ids| < U64_LIMIT
    case ModifierRequest(_, ids) => |ids| < U64_LIMIT
    case ModifierResponse(_, ms) => |ms| < U64_LIMIT && forall k :: 0 <= k < |ms| ==> |ms[k].1| < U64_LIMIT
    case _ => true
  }

  method ToFrame(m: ProtocolMessage) returns (f: Frame)
    requires Representable(m)
    ensures f == FrameOf(m)
  {
    match m
    case GetPeers => f := Frame(GET_PEERS, []);
    case Peers(body) => f := Frame(PEERS, body);
    case Inv(t, ids) =>
      var body := EncodeInvBody(t, ids);
      f := Frame(INV, body);
    case ModifierRequest(t, ids) =>
      var body := EncodeInvBody(t, ids);
      f := Frame(MODIFIER_REQUEST, body);
    case ModifierResponse(t, ms) =>
      var body := EncodeModifierResponseBody(t, ms);
      f := Frame(MODIFIER_RESPONSE, body);
    case SyncInfo(body) => f := Frame(SYNC_INFO, body);
    case Unknown(code, body) => f := Frame(code, body);
  }

  /** The messages that survive a trip over the wire. */
  predicate Canonical(m: ProtocolMessage) {
    match m
    case Inv(_, ids) => |ids| <= MAX_VLQ_LENGTH
    case ModifierRequest(_, ids) => |ids| <= MAX_VLQ_LENGTH
    case ModifierResponse(_, ms) => |ms| <= MAX_VLQ_LENGTH && Sendable(ms)
    case Unknown(code, _) => !IsKnown(code)
    case _ => true
  }

  /** Parsing inverts printing for exactly the canonical messages. */
  lemma MessageRoundTrip(m: ProtocolMessage)
    requires Representable(m)
    ensures MessageOf(FrameOf(m)) == Ok(m) <==> Canonical(m)
  {
    match m
    case Inv(t, ids) => InvRoundTrip(t, ids);
    case ModifierRequest(t, ids) => InvRoundTrip(t, ids);
    case ModifierResponse(t, ms) => ResponseRoundTrip(t, ms);
    case _ =>
  }

  /** Re-printing an accepted frame gives its normal form: the same code and message, a body no
      longer than the one received, and nothing left to normalise. */
  lemma NormalForm(f: Frame)
    requires MessageOf(f).Ok?
    ensures var m := MessageOf(f).value;
            && Canonical(m)
            && FrameOf(m).code == f.code
            && |FrameOf(m).body| <= |f.body|
            && MessageOf(FrameOf(m)) == Ok(m)
  {
    if f.code == INV || f.code == MODIFIER_REQUEST {
      InvBodyShortest(f.body);
    } else if f.code == MODIFIER_RESPONSE {
      ResponseBodyShortest(f.body);
    }
    MessageRoundTrip(MessageOf(f).value);
  }
}
