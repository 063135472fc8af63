/** Handshakes: building against parsing, lenient parsing against strict measuring, and what
    validation accepts. */
module HandshakeLaws {
  import opened Types
  import opened ByteIO
  import opened Bits
  import opened Vlq
  import opened Handshake

  // ----- Parsers read no further than they consume -----

  lemma AddressLocal(d: Bytes, d2: Bytes, pos: nat)
    requires AddressAt(d, pos).Got? && Same(d, d2, AddressAt(d, pos).next)
    ensures SameOutcome(AddressAt(d, pos), AddressAt(d2, pos), d2)
  {
    if pos < |d2| {
      var n := IpLength(d[pos]);
      ExactLocal(d, d2, pos + 1, n);
      if pos + 1 + n <= |d2| {
        VlqLocal(d, d2, pos + 1 + n);
      }
    }
  }

  lemma OptionalAddressLocal(d: Bytes, d2: Bytes, pos: nat)
    requires OptionalAddressAt(d, pos).Got? && Same(d, d2, OptionalAddressAt(d, pos).next)
    ensures SameOutcome(OptionalAddressAt(d, pos), OptionalAddressAt(d2, pos), d2)
  {
    if pos < |d2| && d[pos] != 0 {
      AddressLocal(d, d2, pos + 1);
    }
  }

  lemma VersionLocal(d: Bytes, d2: Bytes, pos: nat)
    requires VersionAt(d, pos).Got? && Same(d, d2, pos + 3)
    ensures SameOutcome(VersionAt(d, pos), VersionAt(d2, pos), d2)
  {
    ExactLocal(d, d2, pos, 3);
  }

  lemma IdentityLocal(utf8: Utf8, d: Bytes, d2: Bytes, pos: nat)
    requires IdentityAt(utf8, d, pos).Got? && Same(d, d2, IdentityAt(utf8, d, pos).next)
    ensures SameOutcome(IdentityAt(utf8, d, pos), IdentityAt(utf8, d2, pos), d2)
  {
    ShortStringLocal(utf8, d, d2, pos);
    var p := ShortStringAt(utf8, d, pos).next;
    if p <= |d2| {
      VersionLocal(d, d2, p);
      if p + 3 <= |d2| {
        ShortStringLocal(utf8, d, d2, p + 3);
      }
    }
  }

  lemma HeaderLocal(utf8: Utf8, d: Bytes, d2: Bytes)
    requires HeaderAt(utf8, d).Got? && Same(d, d2, HeaderAt(utf8, d).next)
    ensures SameOutcome(HeaderAt(utf8, d), HeaderAt(utf8, d2), d2)
  {
    VlqLocal(d, d2, 0);
    var p1 := VlqAt(d, 0).next;
    if p1 <= |d2| {
      IdentityLocal(utf8, d, d2, p1);
      var p2 := IdentityAt(utf8, d, p1).next;
      if p2 <= |d2| {
        OptionalAddressLocal(d, d2, p2);
      }
    }
  }

  lemma FeatureLocal(d: Bytes, d2: Bytes, pos: nat)
    requires FeatureAt(d, pos).Got? && Same(d, d2, FeatureAt(d, pos).next)
    ensures SameOutcome(FeatureAt(d, pos), FeatureAt(d2, pos), d2)
  {
    if pos < |d2| {
      VlqLengthLocal(d, d2, pos + 1);
      var len := VlqLengthAt(d, pos + 1);
      ExactLocal(d, d2, len.next, len.value);
    }
  }

  lemma {:induction false} FeaturesLocal(d: Bytes, d2: Bytes, pos: nat, count: nat)
    requires FeaturesAt(d, pos, count).Got? && Same(d, d2, FeaturesAt(d, pos, count).next)
    ensures SameOutcome(FeaturesAt(d, pos, count), FeaturesAt(d2, pos, count), d2)
  {
    hide FeatureAt;
    if count > 0 {
      FeaturesLocal(d, d2, pos, count - 1);
      FeatureLocal(d, d2, FeaturesAt(d, pos, count - 1).next);
    }
  }

  lemma MeasureLocal(utf8: Utf8, d: Bytes, d2: Bytes)
    requires MeasureAt(utf8, d).Got? && Same(d, d2, MeasureAt(utf8, d).next)
    ensures SameOutcome(MeasureAt(utf8, d), MeasureAt(utf8, d2), d2)
  {
    hide HeaderAt, FeaturesAt;
    var p := HeaderAt(utf8, d).next;
    FeaturesStart(d, p + 1, d[p]);
    HeaderLocal(utf8, d, d2);
    if p < |d2| {
      FeaturesLocal(d, d2, p + 1, d[p]);
    }
  }

  lemma {:induction false} FeaturesStart(d: Bytes, pos: nat, count: nat)
    requires FeaturesAt(d, pos, count).Got?
    ensures pos <= FeaturesAt(d, pos, count).next
  {
    if count > 0 {
      FeaturesStart(d, pos, count - 1);
    }
  }

  // ----- Lenient parsing against strict measuring -----

  lemma {:induction false} ReadableIsPrefix(d: Bytes, d2: Bytes, pos: nat, count: nat)
    requires FeaturesAt(d, pos, count).Got? && Same(d, d2, FeaturesAt(d, pos, count).next)
    ensures ReadableFeatures(d2, pos, count) <= FeaturesAt(d, pos, count).value
  {
    hide FeatureAt;
    FeaturesLocal(d, d2, pos, count);
    if count > 0 && FeaturesAt(d2, pos, count).Fail? {
      ReadableIsPrefix(d, d2, pos, count - 1);
      PrefixOfLonger(
        ReadableFeatures(d2, pos, count - 1), FeaturesAt(d, pos, count - 1).value, FeaturesAt(d, pos, count).value);
    }
  }

  lemma PrefixOfLonger(a: seq<Feature>, b: seq<Feature>, c: seq<Feature>)
    requires a <= b <= c
    ensures a <= c
  {
  }

  lemma {:induction false} AllReadable(d: Bytes, pos: nat, count: nat)
    requires FeaturesAt(d, pos, count).Got?
    ensures ReadableFeatures(d, pos, count) == FeaturesAt(d, pos, count).value
  {
  }

  /** A successful strict read is also the result of the lenient one. */
  lemma ParseIsMeasured(utf8: Utf8, d: Bytes)
    requires MeasureAt(utf8, d).Got?
    ensures Parse(utf8, d) == Ok(MeasureAt(utf8, d).value)
    ensures |Parse(utf8, d).value.features| == d[HeaderAt(utf8, d).next]
  {
    var p := HeaderAt(utf8, d).next;
    AllReadable(d, p + 1, d[p]);
  }

  /** When a handshake can be measured, parsing succeeds with every declared feature; neither
      result depends on what follows the measured bytes; and every shorter prefix runs out of
      input when measured. */
  lemma {:induction false} MeasuredIsParsed(utf8: Utf8, d: Bytes, d2: Bytes, n: nat)
    requires Measure(utf8, d) == Ok(n)
    requires n <= |d2| && d2[..n] == d[..n]
    ensures Parse(utf8, d).Ok? && |Parse(utf8, d).value.features| == d[HeaderAt(utf8, d).next]
    ensures Measure(utf8, d2) == Ok(n) && Parse(utf8, d2) == Parse(utf8, d)
    ensures forall m :: 0 <= m < n ==> Measure(utf8, d[..m]) == Err(UnexpectedEof)
  {
    SamePrefix(d, d2, n);
    MeasureLocal(utf8, d, d2);
    ParseIsMeasured(utf8, d);
    ParseIsMeasured(utf8, d2);
    forall m | 0 <= m < n
      ensures Measure(utf8, d[..m]) == Err(UnexpectedEof)
    {
      MeasureLocal(utf8, d, d[..m]);
    }
  }

  lemma SamePrefix(d: Bytes, d2: Bytes, n: nat)
    requires n <= |d| && n <= |d2| && d2[..n] == d[..n]
    ensures Same(d, d2, n)
  {
    forall i | 0 <= i < n
      ensures d2[i] == d[i]
    {
      assert d2[i] == d2[..n][i] && d[i] == d[..n][i];
    }
  }

  lemma LenientTruncated(d: Bytes, pos: nat, m: nat)
    requires pos < |d| && m <= |d| && FeaturesAt(d, pos + 1, d[pos]).Got?
    ensures LenientFeatures(d[..m], pos) <= LenientFeatures(d, pos)
  {
    hide FeaturesAt, ReadableFeatures;
    AllReadable(d, pos + 1, d[pos]);
    if pos < m {
      ReadableIsPrefix(d, d[..m], pos + 1, d[pos]);
    }
  }

  lemma MeasuredParts(utf8: Utf8, d: Bytes)
    requires MeasureAt(utf8, d).Got?
    ensures HeaderAt(utf8, d).Got? && HeaderAt(utf8, d).next < |d|
    ensures FeaturesAt(d, HeaderAt(utf8, d).next + 1, d[HeaderAt(utf8, d).next]).Got?
  {
  }

  /** A truncated handshake still parses if and only if the cut is behind the header, and then
      with the same header and a prefix of the features. */
  lemma {:induction false} TruncatedParse(utf8: Utf8, d: Bytes, n: nat, m: nat)
    requires Measure(utf8, d) == Ok(n) && m < n
    ensures Parse(utf8, d[..m]).Ok? <==> HeaderAt(utf8, d).next <= m
    ensures Parse(utf8, d[..m]).Ok? ==>
              && Parse(utf8, d[..m]).value.header == Parse(utf8, d).value.header
              && Parse(utf8, d[..m]).value.features <= Parse(utf8, d).value.features
  {
    hide HeaderAt, FeaturesAt, LenientFeatures;
    MeasuredParts(utf8, d);
    var p := HeaderAt(utf8, d).next;
    LenientTruncated(d, p, m);
    HeaderLocal(utf8, d, d[..m]);
  }

  // ----- Building against parsing -----

  lemma AddressRoundTrip(d: Bytes, pos: nat, address: Option<SocketAddr>)
    requires Holds(d, pos, AddressBytes(address))
    ensures OptionalAddressAt(d, pos) == Got(address, pos + |AddressBytes(address)|)
  {
    match address
    case None =>
      assert d[pos..pos + 1][0] == d[pos];
    case Some(a) =>
      var octets := a.ip.Octets();
      var tag: Bytes := [0x01, |octets| + 4];
      HoldsAppend(d, pos, tag + octets, Vlq.Encode(a.port));
      HoldsAppend(d, pos, tag, octets);
      assert d[pos..pos + 2][0] == d[pos] && d[pos..pos + 2][1] == d[pos + 1];
      RoundTrip(d, pos + 2 + |octets|, a.port);
  }

  /** Names a handshake can carry. */
  predicate Writable(utf8: Utf8, i: Identity) {
    |i.agent| <= 255 && |i.name| <= 255 && utf8(i.agent) && utf8(i.name)
  }

  lemma IdentityRoundTrip(utf8: Utf8, d: Bytes, pos: nat, i: Identity)
    requires Writable(utf8, i) && Holds(d, pos, IdentityBytes(i))
    ensures IdentityAt(utf8, d, pos) == Got(i, pos + |IdentityBytes(i)|)
  {
    var agent, ver, name := ShortString(i.agent), VersionBytes(i.version), ShortString(i.name);
    HoldsThree(d, pos, agent, ver, name);
    ShortStringRoundTrip(utf8, d, pos, i.agent);
    var p := pos + |agent|;
    assert d[p..p + 3] == ver;
    ShortStringRoundTrip(utf8, d, p + 3, i.name);
  }

  lemma HeaderParts(d: Bytes, h: Header, now: u64) returns (p1: nat, p2: nat)
    requires Holds(d, 0, HeaderBytes(h, now))
    ensures p1 == |Vlq.Encode(now)| && p2 == p1 + |IdentityBytes(h.identity)|
    ensures |HeaderBytes(h, now)| == p2 + |AddressBytes(h.address)|
    ensures Holds(d, 0, Vlq.Encode(now)) && Holds(d, p1, IdentityBytes(h.identity))
    ensures Holds(d, p2, AddressBytes(h.address))
  {
    hide Holds, Vlq.Encode, IdentityBytes, AddressBytes;
    HoldsThree(d, 0, Vlq.Encode(now), IdentityBytes(h.identity), AddressBytes(h.address));
    p1 := |Vlq.Encode(now)|;
    p2 := p1 + |IdentityBytes(h.identity)|;
  }

  lemma HeaderRoundTrip(utf8: Utf8, d: Bytes, h: Header, now: u64)
    requires Writable(utf8, h.identity) && Holds(d, 0, HeaderBytes(h, now))
    ensures HeaderAt(utf8, d) == Got(h, |HeaderBytes(h, now)|)
  {
    hide Holds, Writable, HeaderBytes, VlqAt, IdentityAt, OptionalAddressAt, HeaderAt;
    hide Vlq.Encode, IdentityBytes, AddressBytes;
    var p1, p2 := HeaderParts(d, h, now);
    RoundTrip(d, 0, now);
    IdentityRoundTrip(utf8, d, p1, h.identity);
    AddressRoundTrip(d, p2, h.address);
    HeaderFrom(utf8, d, now, p1, h.identity, p2, h.address, |HeaderBytes(h, now)|);
  }

  lemma HeaderFrom(
    utf8: Utf8, d: Bytes, now: u64, p1: nat, identity: Identity, p2: nat, address: Option<SocketAddr>, p3: nat)
    requires VlqAt(d, 0) == Got(now, p1)
    requires IdentityAt(utf8, d, p1) == Got(identity, p2)
    requires OptionalAddressAt(d, p2) == Got(address, p3)
    ensures HeaderAt(utf8, d) == Got(Header(identity, address), p3)
  {
  }

  lemma FeatureRoundTrip(d: Bytes, pos: nat, f: Feature)
    requires Holds(d, pos, FeatureBytes(f)) && |f.body| <= MAX_VLQ_LENGTH
    ensures FeatureAt(d, pos) == Got(f, pos + |FeatureBytes(f)|)
  {
    hide VlqLengthAt, Vlq.Encode;
    HoldsThree(d, pos, [f.id], Vlq.Encode(|f.body|), f.body);
    assert d[pos..pos + 1][0] == d[pos];
    LengthRoundTrip(d, pos + 1, |f.body|);
  }

  predicate Sendable(fs: seq<Feature>) {
    forall k :: 0 <= k < |fs| ==> |fs[k].body| <= MAX_VLQ_LENGTH
  }

  lemma {:induction false} FeaturesRoundTrip(d: Bytes, pos: nat, fs: seq<Feature>)
    requires pos <= |d| && Holds(d, pos, FeaturesBytes(fs)) && Sendable(fs)
    ensures FeaturesAt(d, pos, |fs|) == Got(fs, pos + |FeaturesBytes(fs)|)
  {
    hide FeatureAt, FeatureBytes, Holds;
    if fs != [] {
      var init, last := fs[..|fs| - 1], fs[|fs| - 1];
      HoldsAppend(d, pos, FeaturesBytes(init), FeatureBytes(last));
      FeaturesRoundTrip(d, pos, init);
      FeatureRoundTrip(d, pos + |FeaturesBytes(init)|, last);
      assert fs == init + [last];
    }
  }

  /** A written specification starts with its header, the feature count and the features. */
  lemma SpecParts(spec: PeerSpec, now: u64, d: Bytes) returns (p: nat)
    requires |spec.features| <= 255 && SpecBytes(spec, now) <= d
    ensures p == |HeaderBytes(spec.header, now)| < |d| && Holds(d, 0, HeaderBytes(spec.header, now))
    ensures d[p] == |spec.features|
    ensures Holds(d, p + 1, FeaturesBytes(spec.features))
    ensures |SpecBytes(spec, now)| == p + 1 + |FeaturesBytes(spec.features)|
  {
    var h, count, fs := HeaderBytes(spec.header, now), [|spec.features| % 256], FeaturesBytes(spec.features);
    p := |h|;
    assert d[0..|h + count + fs|] == h + count + fs;
    HoldsThree(d, 0, h, count, fs);
    assert d[p..p + 1][0] == d[p];
  }

  lemma MeasureFrom(utf8: Utf8, d: Bytes, header: Header, p: nat, fs: seq<Feature>, n: nat)
    requires HeaderAt(utf8, d) == Got(header, p) && p < |d|
    requires FeaturesAt(d, p + 1, d[p]) == Got(fs, n)
    ensures MeasureAt(utf8, d) == Got(PeerSpec(header, fs), n)
  {
    hide HeaderAt, FeaturesAt;
  }

  lemma SpecMeasured(utf8: Utf8, spec: PeerSpec, now: u64, d: Bytes)
    requires Writable(utf8, spec.header.identity) && |spec.features| <= 255 && Sendable(spec.features)
    requires SpecBytes(spec, now) <= d
    ensures MeasureAt(utf8, d) == Got(spec, |SpecBytes(spec, now)|)
  {
    hide HeaderAt, FeaturesAt, MeasureAt, HeaderBytes, FeaturesBytes;
    var p := SpecParts(spec, now, d);
    var n := |SpecBytes(spec, now)|;
    HeaderRoundTrip(utf8, d, spec.header, now);
    FeaturesRoundTrip(d, p + 1, spec.features);
    MeasureFrom(utf8, d, spec.header, p, spec.features, n);
  }

  /** Any peer specification a handshake can carry, written out and followed by anything, is
      parsed back in full and measured to its exact length. */
  lemma SpecRoundTrip(utf8: Utf8, spec: PeerSpec, now: u64, d: Bytes)
    requires Writable(utf8, spec.header.identity) && |spec.features| <= 255 && Sendable(spec.features)
    requires SpecBytes(spec, now) <= d
    ensures Parse(utf8, d) == Ok(spec)
    ensures Measure(utf8, d) == Ok(|SpecBytes(spec, now)|)
  {
    SpecMeasured(utf8, spec, now, d);
    ParseIsMeasured(utf8, d);
  }

  /** Rust strings are always valid UTF-8. */
  predicate HasUtf8Names(utf8: Utf8, c: Config) {
    utf8(c.agentName) && utf8(c.peerName)
  }

  predicate HasShortNames(c: Config) {
    |c.agentName| <= 255 && |c.peerName| <= 255
  }

  lemma ParsedNames(utf8: Utf8, d: Bytes)
    requires Parse(utf8, d).Ok?
    ensures Writable(utf8, Parse(utf8, d).value.header.identity)
  {
  }

  /** A built handshake, whatever follows it, parses to exactly the configuration it was built
      from if and only if both names are at most 255 bytes long, and then it is also measured
      to its exact length. */
  lemma {:induction false} BuildRoundTrip(utf8: Utf8, c: Config, now: u64, session: i64, d: Bytes)
    requires HasUtf8Names(utf8, c) && SpecBytes(SpecOf(c, session), now) <= d
    ensures Parse(utf8, d) == Ok(SpecOf(c, session)) <==> HasShortNames(c)
    ensures HasShortNames(c) ==> Measure(utf8, d) == Ok(|SpecBytes(SpecOf(c, session), now)|)
  {
    if HasShortNames(c) {
      SessionLength(c.network, session);
      SpecRoundTrip(utf8, SpecOf(c, session), now, d);
    } else if Parse(utf8, d) == Ok(SpecOf(c, session)) {
      ParsedNames(utf8, d);
    }
  }

  /** A VLQ is never the two big-endian bytes of its value. */
  lemma VlqNeverBigEndian(n: nat)
    requires n < U16_LIMIT
    ensures Vlq.Encode(n) != [n / 256, n % 256]
  {
    if n >= 128 {
      assert Vlq.Encode(n)[0] >= 128;
      if n < 128 * 128 {
        assert Vlq.Encode(n / 128) == [n / 128];
        assert n / 256 < 128;
      } else {
        assert |Vlq.Encode(n / 128)| >= 2;
      }
    }
  }

  /** The written layout of a feature, with its length as sixteen big-endian bits, is the one the
      code writes for no feature at all. */
  lemma FeatureLengthNeverBigEndian(f: Feature)
    requires |f.body| < U16_LIMIT
    ensures FeatureBytes(f) != [f.id, |f.body| / 256, |f.body| % 256] + f.body
  {
    var n, code := |f.body|, Vlq.Encode(|f.body|);
    var written: Bytes := [f.id, n / 256, n % 256] + f.body;
    if FeatureBytes(f) == written {
      assert |code| == 2;
      assert code == FeatureBytes(f)[1..3] == written[1..3] == [n / 256, n % 256];
      VlqNeverBigEndian(n);
    }
  }

  // ----- Validation -----

  /** `iter().find(|f| f.id == id)`. */
  function FirstFeature(fs: seq<Feature>, id: byte): Option<Feature> {
    if fs == [] then None else if fs[0].id == id then Some(fs[0]) else FirstFeature(fs[1..], id)
  }

  predicate ValidatePeer(spec: PeerSpec, network: Network) {
    && !spec.header.identity.version.LessThan(EIP37_MIN)
    && match FirstFeature(spec.features, FEATURE_SESSION)
       case None => true
       case Some(f) => |f.body| >= 4 ==> f.body[0..4] == network.Magic()
  }

  predicate IsProxy(spec: PeerSpec) {
    exists k :: 0 <= k < |spec.features| && spec.features[k].id == FEATURE_PROXY
  }

  /** `k` is the first feature with this id. */
  ghost predicate FirstAt(fs: seq<Feature>, k: int, id: byte) {
    0 <= k < |fs| && fs[k].id == id && forall j :: 0 <= j < k ==> fs[j].id != id
  }

  lemma {:induction false} FirstFeatureAt(fs: seq<Feature>, id: byte)
    ensures match FirstFeature(fs, id)
            case Some(f) => exists k :: FirstAt(fs, k, id) && fs[k] == f
            case None => forall k :: 0 <= k < |fs| ==> fs[k].id != id
  {
    if fs != [] && fs[0].id != id {
      FirstFeatureAt(fs[1..], id);
      match FirstFeature(fs[1..], id)
      case Some(f) =>
        var k :| FirstAt(fs[1..], k, id) && fs[1..][k] == f;
        assert FirstAt(fs, k + 1, id) && fs[k + 1] == f by {
          forall j | 0 <= j < k + 1
            ensures fs[j].id != id
          {
            if j > 0 {
              assert fs[j] == fs[1..][j - 1];
            }
          }
        }
      case None =>
        forall j | 0 <= j < |fs|
          ensures fs[j].id != id
        {
          if j > 0 {
            assert fs[j] == fs[1..][j - 1];
          }
        }
    } else if fs != [] {
      assert FirstAt(fs, 0, id);
    }
  }

  /** A version as one number, most significant field first. */
  function VersionNumber(v: Version): nat {
    v.major as int * 65536 + v.minor as int * 256 + v.patch as int
  }

  /** A peer is accepted if and only if its version is at least 4.0.100 and its first feature with
      id 3, if there is one with at least four bytes, starts with the magic of the network. */
  lemma AcceptedIff(spec: PeerSpec, n: Network)
    ensures ValidatePeer(spec, n) <==>
            && VersionNumber(spec.header.identity.version) >= 4 * 65536 + 100
            && forall k :: FirstAt(spec.features, k, 3) ==>
                 var body := spec.features[k].body;
                 |body| < 4 || body[0..4] == if n == Mainnet then [1, 0, 2, 4] else [2, 3, 2, 3]
  {
    FirstFeatureAt(spec.features, 3);
  }

  /** A peer is taken for a proxy if and only if it has a feature with id 64. */
  lemma ProxyIff(spec: PeerSpec)
    ensures IsProxy(spec) <==> exists f :: f in spec.features && f.id == 64
  {
    if IsProxy(spec) {
      var k :| 0 <= k < |spec.features| && spec.features[k].id == 64;
      assert spec.features[k] in spec.features;
    }
  }

  /** The magic a peer's session feature claims, if it has one. */
  function SessionMagic(spec: PeerSpec): Option<Magic> {
    match FirstFeature(spec.features, FEATURE_SESSION)
    case None => None
    case Some(f) => if |f.body| >= 4 then Some(f.body[0..4]) else None
  }

  /** The promise that whoever is accepted sent the network's magic holds of a peer if and only
      if it is too old to be accepted at all or sent a session feature of at least four bytes;
      any other peer is accepted on every network. */
  lemma AcceptedMeansMatching(spec: PeerSpec)
    ensures (forall n: Network :: ValidatePeer(spec, n) ==> SessionMagic(spec) == Some(n.Magic()))
            <==> SessionMagic(spec).Some? || VersionNumber(spec.header.identity.version) < 4 * 65536 + 100
    ensures SessionMagic(spec).None? && VersionNumber(spec.header.identity.version) >= 4 * 65536 + 100 ==>
              forall n: Network :: ValidatePeer(spec, n)
  {
    if SessionMagic(spec).None? && VersionNumber(spec.header.identity.version) >= 4 * 65536 + 100 {
      assert ValidatePeer(spec, Mainnet);
    }
  }

  /** A handshake without features, from a recent peer. */
  function SessionlessSpec(): PeerSpec {
    PeerSpec(Header(Identity([], Version(6, 0, 3), []), None), [])
  }

  /** Its bytes are parsed and accepted on both networks, although it names neither. */
  lemma SessionlessAccepted(utf8: Utf8, now: u64)
    requires utf8([])
    ensures var d := SpecBytes(SessionlessSpec(), now);
            && Parse(utf8, d) == Ok(SessionlessSpec())
            && SessionMagic(SessionlessSpec()).None?
            && ValidatePeer(SessionlessSpec(), Mainnet) && ValidatePeer(SessionlessSpec(), Testnet)
  {
    SpecRoundTrip(utf8, SessionlessSpec(), now, SpecBytes(SessionlessSpec(), now));
  }

  lemma MagicsDiffer(a: Network, b: Network)
    ensures a.Magic() == b.Magic() <==> a == b
  {
    assert Mainnet.Magic()[0] != Testnet.Magic()[0];
  }

  lemma OwnSession(c: Config, session: i64)
    ensures FirstFeature(SpecOf(c, session).features, FEATURE_SESSION) ==
            Some(Feature(FEATURE_SESSION, SessionBody(c.network, session)))
    ensures SessionMagic(SpecOf(c, session)) == Some(c.network.Magic())
  {
    var fs := SpecOf(c, session).features;
    assert fs[1..][0] == fs[1];
    var body := SessionBody(c.network, session);
    assert body[0..4] == c.network.Magic();
  }

  lemma SessionIdBack(network: Network, session: i64)
    ensures VlqAt(SessionBody(network, session), 4).Got?
    ensures ZigZagDecode(64, VlqAt(SessionBody(network, session), 4).value) == session
  {
    Powers();
    SessionLength(network, session);
    var z: u64 := ZigZagEncode(64, session);
    var body := SessionBody(network, session);
    assert Holds(body, 4, Vlq.Encode(z));
    RoundTrip(body, 4, z);
    ZigZagBijection(64, session, 0);
  }

  /** Our own handshake, parsed by a peer: it is recognised as a proxy, its session id decodes
      back, and it is accepted for network `n` if and only if the version is at least 4.0.100
      and `n` is the configured network. */
  lemma {:induction false} BuiltHandshakeAccepted(utf8: Utf8, c: Config, now: u64, session: i64, d: Bytes, n: Network)
    requires HasUtf8Names(utf8, c) && HasShortNames(c) && SpecBytes(SpecOf(c, session), now) <= d
    ensures Parse(utf8, d).Ok?
    ensures var spec := Parse(utf8, d).value;
            && spec.header == Header(Identity(c.agentName, c.version, c.peerName), c.declaredAddress)
            && IsProxy(spec)
            && (ValidatePeer(spec, n) <==> VersionNumber(c.version) >= 4 * 65536 + 100 && n == c.network)
            && var f := FirstFeature(spec.features, FEATURE_SESSION);
               && f.Some?
               && VlqAt(f.value.body, 4).Got?
               && ZigZagDecode(64, VlqAt(f.value.body, 4).value) == session
  {
    BuildRoundTrip(utf8, c, now, session, d);
    var spec := SpecOf(c, session);
    assert spec.features[2].id == FEATURE_PROXY;
    OwnSession(c, session);
    SessionIdBack(c.network, session);
    MagicsDiffer(n, c.network);
  }
}
