/** The wire formats of messages and handshakes, byte by byte: where each field stands, with every
    code, size and limit written out. Parsing succeeds exactly on these layouts. */
module WireLayout {
  import opened Types
  import opened ByteIO
  import Bits
  import opened Vlq
  import opened Frames
  import opened Messages
  import opened Handshake
  import opened HandshakeLaws

  /** A variable-length number with this value stands at `pos`; `next` is behind it. */
  ghost predicate NumberStands(d: Bytes, pos: nat, value: nat, next: nat) {
    VlqAt(d, pos).Got? && VlqAt(d, pos).value == value && VlqAt(d, pos).next == next
  }

  /** A number of at most 262144 and that many bytes. */
  ghost predicate DataStands(d: Bytes, pos: nat, data: Bytes, next: nat) {
    && |data| <= 262144
    && |data| <= next <= |d|
    && NumberStands(d, pos, |data|, next - |data|)
    && d[next - |data|..next] == data
  }

  lemma DataRead(d: Bytes, pos: nat, data: Bytes, next: nat)
    ensures DataStands(d, pos, data, next) <==>
            && VlqLengthAt(d, pos).Got?
            && ExactAt(d, VlqLengthAt(d, pos).next, VlqLengthAt(d, pos).value) == Got(data, next)
  {
    hide VlqAt;
  }

  // ----- Messages -----

  /** A type byte, a count of at most 262144 and that many ids of 32 bytes; anything may follow. */
  ghost predicate IdsStand(d: Bytes, modifierType: byte, ids: seq<ModifierId>) {
    && d != [] && d[0] == modifierType
    && |ids| <= 262144
    && VlqAt(d, 1).Got? && VlqAt(d, 1).value == |ids|
    && var start := VlqAt(d, 1).next;
       && start + 32 * |ids| <= |d|
       && forall k :: 0 <= k < |ids| ==> d[start + 32 * k..start + 32 * k + 32] == ids[k]
  }

  /** 32 bytes of id, then data. */
  ghost predicate ModifierStands(d: Bytes, pos: nat, m: Modifier, next: nat) {
    pos + 32 <= |d| && d[pos..pos + 32] == m.0 && DataStands(d, pos + 32, m.1, next)
  }

  /** Modifier `k` stands between `ps[k]` and `ps[k + 1]`. */
  ghost predicate ModifierChain(d: Bytes, ps: seq<nat>, ms: seq<Modifier>) {
    |ps| == |ms| + 1 && forall k :: 0 <= k < |ms| ==> ModifierStands(d, ps[k], ms[k], ps[k + 1])
  }

  /** A type byte, a count of at most 262144 and that many modifiers; anything may follow. */
  ghost predicate ModifiersStand(d: Bytes, modifierType: byte, ms: seq<Modifier>) {
    && d != [] && d[0] == modifierType
    && |ms| <= 262144
    && VlqAt(d, 1).Got? && VlqAt(d, 1).value == |ms|
    && exists ps: seq<nat> :: ModifierChain(d, ps, ms) && ps[0] == VlqAt(d, 1).next
  }

  /** What a frame means, by its code. */
  ghost predicate Means(f: Frame, m: ProtocolMessage) {
    match m
    case GetPeers => f.code == 1
    case Peers(body) => f.code == 2 && f.body == body
    case ModifierRequest(t, ids) => f.code == 22 && IdsStand(f.body, t, ids)
    case ModifierResponse(t, ms) => f.code == 33 && ModifiersStand(f.body, t, ms)
    case Inv(t, ids) => f.code == 55 && IdsStand(f.body, t, ids)
    case SyncInfo(body) => f.code == 65 && f.body == body
    case Unknown(code, body) => f == Frame(code, body) && code !in {1, 2, 22, 33, 55, 65}
  }

  lemma {:induction false} IdsAtStand(d: Bytes, pos: nat, ids: seq<ModifierId>)
    requires pos <= |d|
    ensures IdsAt(d, pos, |ids|) == Got(ids, pos + 32 * |ids|) <==>
            && pos + 32 * |ids| <= |d|
            && forall k :: 0 <= k < |ids| ==> d[pos + 32 * k..pos + 32 * k + 32] == ids[k]
  {
    if ids != [] {
      hide IdsAt;
      var init := ids[..|ids| - 1];
      IdsAtStand(d, pos, init);
      IdsAtSnoc(d, pos, ids);
      assert forall k :: 0 <= k < |init| ==> init[k] == ids[k];
    }
  }

  lemma IdsAtSnoc(d: Bytes, pos: nat, ids: seq<ModifierId>)
    requires pos <= |d| && ids != []
    ensures var n := |ids| - 1;
            IdsAt(d, pos, |ids|) == Got(ids, pos + 32 * |ids|) <==>
            && IdsAt(d, pos, n) == Got(ids[..n], pos + 32 * n)
            && pos + 32 * n + 32 <= |d| && d[pos + 32 * n..pos + 32 * n + 32] == ids[n]
  {
    var n := |ids| - 1;
    var r := IdsAt(d, pos, n);
    if r.Got? && r.next + 32 <= |d| {
      SnocEqual(r.value, d[r.next..r.next + 32], ids);
    }
  }

  lemma IdListRead(d: Bytes, t: byte, ids: seq<ModifierId>)
    ensures ParseInv(d) == Ok((t, ids)) <==> IdsStand(d, t, ids)
  {
    hide VlqAt, IdsAt;
    if d != [] && VlqLengthAt(d, 1).Got? {
      IdsAtStand(d, VlqLengthAt(d, 1).next, ids);
    }
  }

  lemma ModifierRead(d: Bytes, pos: nat, m: Modifier, next: nat)
    ensures ModifierAt(d, pos) == Got(m, next) <==> ModifierStands(d, pos, m, next)
  {
    hide VlqLengthAt, DataStands;
    DataRead(d, pos + 32, m.1, next);
  }

  lemma {:induction false} ModifiersRead(d: Bytes, pos: nat, ms: seq<Modifier>, next: nat)
    requires pos <= |d|
    ensures ModifiersAt(d, pos, |ms|) == Got(ms, next) <==>
            exists ps: seq<nat> :: ModifierChain(d, ps, ms) && ps[0] == pos && ps[|ms|] == next
  {
    hide ModifierAt, ModifierStands;
    if ms == [] {
      if next == pos {
        assert ModifierChain(d, [pos], ms);
      }
    } else {
      var init, last := ms[..|ms| - 1], ms[|ms| - 1];
      assert init + [last] == ms;
      if ModifiersAt(d, pos, |ms|) == Got(ms, next) {
        var r := ModifiersAt(d, pos, |init|);
        assert r.value + [ModifierAt(d, r.next).value] == ms;
        assert r.value == init;
        ModifiersRead(d, pos, init, r.next);
        var ps: seq<nat> :| ModifierChain(d, ps, init) && ps[0] == pos && ps[|init|] == r.next;
        ModifierRead(d, r.next, last, next);
        ModifierChainGrows(d, ps, init, last, next);
      }
      if exists ps: seq<nat> :: ModifierChain(d, ps, ms) && ps[0] == pos && ps[|ms|] == next {
        var ps: seq<nat> :| ModifierChain(d, ps, ms) && ps[0] == pos && ps[|ms|] == next;
        var mid := ps[|init|];
        ModifierChainShrinks(d, ps, ms);
        ModifiersRead(d, pos, init, mid);
        ModifierRead(d, mid, last, next);
      }
    }
  }

  lemma ModifierChainGrows(d: Bytes, ps: seq<nat>, ms: seq<Modifier>, m: Modifier, next: nat)
    requires ModifierChain(d, ps, ms) && ModifierStands(d, ps[|ms|], m, next)
    ensures ModifierChain(d, ps + [next], ms + [m])
  {
    hide ModifierStands;
  }

  lemma ModifierChainShrinks(d: Bytes, ps: seq<nat>, ms: seq<Modifier>)
    requires ModifierChain(d, ps, ms) && ms != []
    ensures ModifierChain(d, ps[..|ms|], ms[..|ms| - 1]) && ModifierStands(d, ps[|ms| - 1], ms[|ms| - 1], ps[|ms|])
  {
    hide ModifierStands;
  }

  lemma ModifierListRead(d: Bytes, t: byte, ms: seq<Modifier>)
    ensures ParseResponse(d) == Ok((t, ms)) <==> ModifiersStand(d, t, ms)
  {
    hide VlqAt, ModifiersAt, ModifierStands;
    if d != [] && VlqLengthAt(d, 1).Got? {
      var start := VlqLengthAt(d, 1).next;
      if ParseResponse(d) == Ok((t, ms)) {
        ModifiersRead(d, start, ms, ModifiersAt(d, start, |ms|).next);
      }
      if ModifiersStand(d, t, ms) {
        var ps: seq<nat> :| ModifierChain(d, ps, ms) && ps[0] == start;
        ModifiersEnd(d, start, ms, ps);
      }
    }
  }

  lemma ModifiersEnd(d: Bytes, pos: nat, ms: seq<Modifier>, ps: seq<nat>)
    requires pos <= |d| && ModifierChain(d, ps, ms) && ps[0] == pos
    ensures ModifiersAt(d, pos, |ms|).Got? && ModifiersAt(d, pos, |ms|).value == ms
  {
    hide ModifiersAt, ModifierStands;
    ModifiersRead(d, pos, ms, ps[|ms|]);
  }

  /** A frame is parsed to `m` if and only if it means `m`. */
  lemma ParsedIffMeans(f: Frame, m: ProtocolMessage)
    ensures MessageOf(f) == Ok(m) <==> Means(f, m)
  {
    hide IdsStand, ModifiersStand, ParseInv, ParseResponse;
    match m
    case Inv(t, ids) => IdListRead(f.body, t, ids);
    case ModifierRequest(t, ids) => IdListRead(f.body, t, ids);
    case ModifierResponse(t, ms) => ModifierListRead(f.body, t, ms);
    case _ =>
  }

  /** What is printed for a message that survives the wire means it, and no frame that does is
      shorter. */
  lemma PrintedMeans(m: ProtocolMessage, f: Frame)
    requires Canonical(m)
    ensures Means(FrameOf(m), m)
    ensures Means(f, m) ==> f.code == FrameOf(m).code && |FrameOf(m).body| <= |f.body|
  {
    hide Means, MessageOf;
    MessageRoundTrip(m);
    ParsedIffMeans(FrameOf(m), m);
    ParsedIffMeans(f, m);
    if Means(f, m) {
      NormalForm(f);
    }
  }

  // ----- Handshakes -----

  /** A length byte and that many bytes of UTF-8. */
  ghost predicate StringStands(utf8: Utf8, d: Bytes, pos: nat, s: Bytes) {
    pos + 1 + |s| <= |d| && d[pos] == |s| && d[pos + 1..pos + 1 + |s|] == s && utf8(s)
  }

  /** Agent name, the three version bytes, peer name. */
  ghost predicate IdentityStands(utf8: Utf8, d: Bytes, pos: nat, i: Identity, next: nat) {
    && StringStands(utf8, d, pos, i.agent)
    && var p := pos + 1 + |i.agent|;
       && p + 3 <= |d|
       && d[p] == i.version.major && d[p + 1] == i.version.minor && d[p + 2] == i.version.patch
       && StringStands(utf8, d, p + 3, i.name)
       && next == p + 4 + |i.name|
  }

  /** A zero byte for no address; else a nonzero byte, a size byte, size less four bytes of address
      and a port of which sixteen bits count. Size 8 is an IPv4 and size 20 an IPv6 address. */
  ghost predicate AddressStands(d: Bytes, pos: nat, address: Option<SocketAddr>, next: nat) {
    pos < |d| && (
      match address
      case Some(a) =>
        && d[pos] != 0 && pos + 1 < |d|
        && d[pos + 1] == (if a.ip.V4? then 8 else 20)
        && var n := if a.ip.V4? then 4 else 16;
           && pos + 2 + n <= |d|
           && d[pos + 2..pos + 2 + n] == (if a.ip.V4? then a.ip.v4 else a.ip.v6)
           && VlqAt(d, pos + 2 + n).Got?
           && VlqAt(d, pos + 2 + n).value % 65536 == a.port
           && VlqAt(d, pos + 2 + n).next == next
      case None =>
        if d[pos] == 0 then next == pos + 1
        else
          && pos + 1 < |d| && d[pos + 1] != 8 && d[pos + 1] != 20
          && var n := if d[pos + 1] < 4 then 0 else d[pos + 1] as int - 4;
             && pos + 2 + n <= |d|
             && VlqAt(d, pos + 2 + n).Got? && VlqAt(d, pos + 2 + n).next == next)
  }

  /** A time, which is not looked at, then identity and address. */
  ghost predicate HeaderStands(utf8: Utf8, d: Bytes, h: Header, next: nat) {
    && VlqAt(d, 0).Got?
    && var p := VlqAt(d, 0).next;
       exists q: nat :: IdentityStands(utf8, d, p, h.identity, q) && AddressStands(d, q, h.address, next)
  }

  /** An id byte, then data. */
  ghost predicate FeatureStands(d: Bytes, pos: nat, f: Feature, next: nat) {
    pos < |d| && d[pos] == f.id && DataStands(d, pos + 1, f.body, next)
  }

  ghost predicate FeatureChain(d: Bytes, ps: seq<nat>, fs: seq<Feature>) {
    |ps| == |fs| + 1 && forall k :: 0 <= k < |fs| ==> FeatureStands(d, ps[k], fs[k], ps[k + 1])
  }

  /** A header, a count byte and exactly that many features. */
  ghost predicate HandshakeStands(utf8: Utf8, d: Bytes, spec: PeerSpec, n: nat) {
    exists p: nat, ps: seq<nat> ::
      && HeaderStands(utf8, d, spec.header, p)
      && p < |d| && d[p] == |spec.features|
      && FeatureChain(d, ps, spec.features) && ps[0] == p + 1 && ps[|spec.features|] == n
  }

  lemma IdentityRead(utf8: Utf8, d: Bytes, pos: nat, i: Identity, next: nat)
    ensures IdentityAt(utf8, d, pos) == Got(i, next) <==> IdentityStands(utf8, d, pos, i, next)
  {
    StringRead(utf8, d, pos, i.agent);
    StringRead(utf8, d, pos + 4 + |i.agent|, i.name);
    var p := pos + 1 + |i.agent|;
    if p + 3 <= |d| {
      assert d[p..p + 3] == [d[p], d[p + 1], d[p + 2]];
    }
  }

  lemma StringRead(utf8: Utf8, d: Bytes, pos: nat, s: Bytes)
    ensures ShortStringAt(utf8, d, pos) == Got(s, pos + 1 + |s|) <==> StringStands(utf8, d, pos, s)
  {
  }

  lemma AddressRead(d: Bytes, pos: nat, address: Option<SocketAddr>, next: nat)
    ensures OptionalAddressAt(d, pos) == Got(address, next) <==> AddressStands(d, pos, address, next)
  {
    hide VlqAt;
  }

  lemma HeaderRead(utf8: Utf8, d: Bytes, h: Header, next: nat)
    ensures HeaderAt(utf8, d) == Got(h, next) <==> HeaderStands(utf8, d, h, next)
  {
    hide VlqAt, IdentityAt, IdentityStands, OptionalAddressAt, AddressStands;
    if VlqAt(d, 0).Got? {
      var p := VlqAt(d, 0).next;
      if HeaderAt(utf8, d) == Got(h, next) {
        var q := IdentityAt(utf8, d, p).next;
        IdentityRead(utf8, d, p, h.identity, q);
        AddressRead(d, q, h.address, next);
      }
      if HeaderStands(utf8, d, h, next) {
        var q: nat :| IdentityStands(utf8, d, p, h.identity, q) && AddressStands(d, q, h.address, next);
        IdentityRead(utf8, d, p, h.identity, q);
        AddressRead(d, q, h.address, next);
      }
    }
  }

  lemma FeatureRead(d: Bytes, pos: nat, f: Feature, next: nat)
    ensures FeatureAt(d, pos) == Got(f, next) <==> FeatureStands(d, pos, f, next)
  {
    hide VlqLengthAt, DataStands;
    DataRead(d, pos + 1, f.body, next);
  }

  lemma FeatureChainGrows(d: Bytes, ps: seq<nat>, fs: seq<Feature>, f: Feature, next: nat)
    requires FeatureChain(d, ps, fs) && FeatureStands(d, ps[|fs|], f, next)
    ensures FeatureChain(d, ps + [next], fs + [f])
  {
    hide FeatureStands;
  }

  lemma FeatureChainShrinks(d: Bytes, ps: seq<nat>, fs: seq<Feature>)
    requires FeatureChain(d, ps, fs) && fs != []
    ensures FeatureChain(d, ps[..|fs|], fs[..|fs| - 1]) && FeatureStands(d, ps[|fs| - 1], fs[|fs| - 1], ps[|fs|])
  {
    hide FeatureStands;
  }

  lemma {:induction false} FeaturesRead(d: Bytes, pos: nat, fs: seq<Feature>, next: nat)
    requires pos <= |d|
    ensures FeaturesAt(d, pos, |fs|) == Got(fs, next) <==>
            exists ps: seq<nat> :: FeatureChain(d, ps, fs) && ps[0] == pos && ps[|fs|] == next
  {
    hide FeatureAt, FeatureStands;
    if fs == [] {
      if next == pos {
        assert FeatureChain(d, [pos], fs);
      }
    } else {
      var init, last := fs[..|fs| - 1], fs[|fs| - 1];
      assert init + [last] == fs;
      if FeaturesAt(d, pos, |fs|) == Got(fs, next) {
        var r := FeaturesAt(d, pos, |init|);
        assert r.value + [FeatureAt(d, r.next).value] == fs;
        assert r.value == init;
        FeaturesRead(d, pos, init, r.next);
        var ps: seq<nat> :| FeatureChain(d, ps, init) && ps[0] == pos && ps[|init|] == r.next;
        FeatureRead(d, r.next, last, next);
        FeatureChainGrows(d, ps, init, last, next);
      }
      if exists ps: seq<nat> :: FeatureChain(d, ps, fs) && ps[0] == pos && ps[|fs|] == next {
        var ps: seq<nat> :| FeatureChain(d, ps, fs) && ps[0] == pos && ps[|fs|] == next;
        var mid := ps[|init|];
        FeatureChainShrinks(d, ps, fs);
        FeaturesRead(d, pos, init, mid);
        FeatureRead(d, mid, last, next);
      }
    }
  }

  /** A handshake is measured to `n` bytes if and only if one stands in the first `n`; what is
      parsed is then that one. */
  lemma MeasuredIffStands(utf8: Utf8, d: Bytes, spec: PeerSpec, n: nat)
    ensures Measure(utf8, d) == Ok(n) && Parse(utf8, d) == Ok(spec) <==> HandshakeStands(utf8, d, spec, n)
  {
    hide HeaderAt, HeaderStands, FeaturesAt, FeatureStands, Parse;
    if Measure(utf8, d).Ok? {
      ParseIsMeasured(utf8, d);
    }
    if Measure(utf8, d) == Ok(n) && Parse(utf8, d) == Ok(spec) {
      var p := HeaderAt(utf8, d).next;
      HeaderRead(utf8, d, spec.header, p);
      FeaturesRead(d, p + 1, spec.features, n);
    }
    if HandshakeStands(utf8, d, spec, n) {
      var p: nat, ps: seq<nat> :|
        && HeaderStands(utf8, d, spec.header, p)
        && p < |d| && d[p] == |spec.features|
        && FeatureChain(d, ps, spec.features) && ps[0] == p + 1 && ps[|spec.features|] == n;
      HeaderRead(utf8, d, spec.header, p);
      FeaturesRead(d, p + 1, spec.features, n);
      ParseIsMeasured(utf8, d);
    }
  }

  /** A built handshake, field by field: the time, the names, version and address configured, and
      three features: the mode (id 16; archival and verifying, in Light mode with a NiPoPoW
      bootstrap), the session (id 3; network magic and the session id in ZigZag numbering) and the
      proxy marker (id 64). */
  lemma {:induction false} BuiltFields(utf8: Utf8, c: Config, now: u64, session: i64, d: Bytes)
    requires HasUtf8Names(utf8, c) && HasShortNames(c) && SpecBytes(SpecOf(c, session), now) <= d
    ensures VlqAt(d, 0).Got? && VlqAt(d, 0).value == now
    ensures Parse(utf8, d).Ok?
    ensures var spec := Parse(utf8, d).value;
            && spec.header == Header(Identity(c.agentName, c.version, c.peerName), c.declaredAddress)
            && |spec.features| == 3
            && spec.features[0] == Feature(16, if c.mode == Full then [0, 1, 0, 1] else [0, 1, 1, 2, 1])
            && spec.features[2] == Feature(64, [1])
            && var f := spec.features[1];
               && f.id == 3 && |f.body| > 4
               && f.body[0..4] == (if c.network == Mainnet then [1, 0, 2, 4] else [2, 3, 2, 3])
               && NumberStands(f.body, 4, if session >= 0 then 2 * session else -2 * session - 1, |f.body|)
  {
    hide VlqAt, Vlq.Encode, HeaderBytes, FeaturesBytes;
    BuildRoundTrip(utf8, c, now, session, d);
    BuiltTime(c, now, session, d);
    BuiltSession(c.network, session);
  }

  lemma BuiltTime(c: Config, now: u64, session: i64, d: Bytes)
    requires SpecBytes(SpecOf(c, session), now) <= d
    ensures VlqAt(d, 0).Got? && VlqAt(d, 0).value == now
  {
    hide VlqAt, Vlq.Encode, HeaderBytes, FeaturesBytes, IdentityBytes, AddressBytes;
    var p := SpecParts(SpecOf(c, session), now, d);
    var p1, p2 := HandshakeLaws.HeaderParts(d, SpecOf(c, session).header, now);
    RoundTrip(d, 0, now);
  }

  lemma BuiltSession(network: Network, session: i64)
    ensures var body := SessionBody(network, session);
            && |body| > 4 && body[0..4] == network.Magic()
            && NumberStands(body, 4, if session >= 0 then 2 * session else -2 * session - 1, |body|)
  {
    hide VlqAt, Vlq.Encode, ZigZagEncode;
    Bits.Powers();
    ZigZagEncodeValue(64, session);
    SessionLength(network, session);
    var z: u64 := ZigZagEncode(64, session);
    var body := SessionBody(network, session);
    assert body[4..] == Vlq.Encode(z);
    assert Holds(body, 4, Vlq.Encode(z));
    RoundTrip(body, 4, z);
  }

  /** As many features as stand one behind the other, up to the count byte, which may be missing. */
  ghost predicate FeaturesUpToStand(d: Bytes, pos: nat, fs: seq<Feature>) {
    if pos >= |d| then fs == []
    else
      && |fs| <= d[pos]
      && exists ps: seq<nat> ::
           && FeatureChain(d, ps, fs) && ps[0] == pos + 1
           && (|fs| == d[pos] || forall f, next :: !FeatureStands(d, ps[|fs|], f, next))
  }

  lemma LenientRead(d: Bytes, pos: nat)
    ensures FeaturesUpToStand(d, pos, LenientFeatures(d, pos))
  {
    hide FeatureAt, FeatureStands;
    if pos < |d| {
      LongestRead(d, pos + 1, d[pos]);
      var k: nat :| LongestAt(d, pos + 1, d[pos], k);
      var r := FeaturesAt(d, pos + 1, k);
      FeaturesRead(d, pos + 1, r.value, r.next);
      var ps: seq<nat> :| FeatureChain(d, ps, r.value) && ps[0] == pos + 1 && ps[k] == r.next;
      if k < d[pos] {
        forall f: Feature, next: nat
          ensures !FeatureStands(d, r.next, f, next)
        {
          FeatureRead(d, r.next, f, next);
        }
      }
    }
  }

  /** The readable features are the first `k`, and no more can be read. */
  ghost predicate LongestAt(d: Bytes, pos: nat, count: nat, k: nat) {
    && k <= count && FeaturesAt(d, pos, k).Got?
    && (k < count ==> FeaturesAt(d, pos, k + 1).Fail?)
    && ReadableFeatures(d, pos, count) == FeaturesAt(d, pos, k).value
  }

  lemma {:induction false} LongestRead(d: Bytes, pos: nat, count: nat)
    requires pos <= |d|
    ensures exists k: nat :: LongestAt(d, pos, count, k)
  {
    hide FeatureAt;
    if FeaturesAt(d, pos, count).Fail? {
      LongestRead(d, pos, count - 1);
      var k: nat :| LongestAt(d, pos, count - 1, k);
      assert LongestAt(d, pos, count, k);
    } else {
      assert LongestAt(d, pos, count, count);
    }
  }

  /** Parsing never fails behind the header: it succeeds if and only if a header stands, with that
      header and all features that stand behind it, up to the declared count. */
  lemma ParsedIffHeaderStands(utf8: Utf8, d: Bytes, h: Header)
    ensures Parse(utf8, d).Ok? && Parse(utf8, d).value.header == h <==> exists p: nat :: HeaderStands(utf8, d, h, p)
    ensures Parse(utf8, d).Ok? ==>
              exists p: nat ::
                && HeaderStands(utf8, d, Parse(utf8, d).value.header, p)
                && FeaturesUpToStand(d, p, Parse(utf8, d).value.features)
  {
    hide HeaderAt, HeaderStands, FeaturesUpToStand, LenientFeatures;
    if HeaderAt(utf8, d).Got? {
      var r := HeaderAt(utf8, d);
      HeaderRead(utf8, d, r.value, r.next);
      LenientRead(d, r.next);
    }
    if exists p: nat :: HeaderStands(utf8, d, h, p) {
      var p: nat :| HeaderStands(utf8, d, h, p);
      HeaderRead(utf8, d, h, p);
    }
  }
}
