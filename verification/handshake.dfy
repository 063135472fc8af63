/** Building, parsing, measuring and validating handshakes (src/transport/handshake.rs). The
    clock, the random session id and UTF-8 validity are parameters. */
module Handshake {
  import opened Types
  import opened ByteIO
  import opened Bits
  import opened Vlq

  const FEATURE_MODE: byte := 16
  const FEATURE_SESSION: byte := 3
  const FEATURE_PROXY: byte := 64

  type Utf8 = Bytes -> bool

  type Ipv4 = s: Bytes | |s| == 4 witness [0, 0, 0, 0]
  type Ipv6 = s: Bytes | |s| == 16 witness seq(16, _ => 0)
  datatype IpAddr = V4(v4: Ipv4) | V6(v6: Ipv6) {
    function Octets(): (r: Bytes)
      ensures |r| == 4 || |r| == 16
    {
      match this
      case V4(o) => o
      case V6(o) => o
    }
  }
  datatype SocketAddr = SocketAddr(ip: IpAddr, port: u16)

  datatype Config = Config(
    agentName: Bytes, peerName: Bytes, version: Version, network: Network, mode: ProxyMode,
    declaredAddress: Option<SocketAddr>)

  datatype Feature = Feature(id: byte, body: Bytes)

  datatype Identity = Identity(agent: Bytes, version: Version, name: Bytes)

  /** Everything a handshake says before its features. */
  datatype Header = Header(identity: Identity, address: Option<SocketAddr>)

  datatype PeerSpec = PeerSpec(header: Header, features: seq<Feature>)

  // ----- Building -----

  function ModeBody(mode: ProxyMode): (r: Bytes)
    ensures |r| <= 5
  {
    match mode
    case Full => [0x00, 0x01, 0x00, 0x01]
    case Light => [0x00, 0x01, 0x01, 0x02, 0x01]
  }

  /** The session id is written as a ZigZag VLQ behind the network magic. */
  function SessionBody(network: Network, session: i64): Bytes {
    network.Magic() + Vlq.Encode(ZigZagEncode(64, session))
  }

  function AddressBytes(address: Option<SocketAddr>): Bytes {
    match address
    case None => [0x00]
    case Some(a) => [0x01, |a.ip.Octets()| + 4] + a.ip.Octets() + Vlq.Encode(a.port)
  }

  function FeatureBytes(f: Feature): Bytes {
    [f.id] + Vlq.Encode(|f.body|) + f.body
  }

  function FeaturesBytes(fs: seq<Feature>): Bytes {
    if fs == [] then [] else FeaturesBytes(fs[..|fs| - 1]) + FeatureBytes(fs[|fs| - 1])
  }

  function VersionBytes(v: Version): Bytes {
    [v.major, v.minor, v.patch]
  }

  function IdentityBytes(i: Identity): Bytes {
    ShortString(i.agent) + VersionBytes(i.version) + ShortString(i.name)
  }

  function HeaderBytes(h: Header, now: u64): Bytes {
    Vlq.Encode(now) + IdentityBytes(h.identity) + AddressBytes(h.address)
  }

  function OwnFeatures(mode: ProxyMode, network: Network, session: i64): (fs: seq<Feature>)
    ensures |fs| == 3
  {
    [Feature(FEATURE_MODE, ModeBody(mode)),
     Feature(FEATURE_SESSION, SessionBody(network, session)),
     Feature(FEATURE_PROXY, [0x01])]
  }

  /** What a built handshake says about the configuration. */
  function SpecOf(c: Config, session: i64): PeerSpec {
    PeerSpec(
      Header(Identity(c.agentName, c.version, c.peerName), c.declaredAddress),
      OwnFeatures(c.mode, c.network, session))
  }

  function SpecBytes(spec: PeerSpec, now: u64): Bytes {
    HeaderBytes(spec.header, now) + [|spec.features| % 256] + FeaturesBytes(spec.features)
  }

  lemma SessionLength(network: Network, session: i64)
    ensures ZigZagEncode(64, session) < U64_LIMIT
    ensures 5 <= |SessionBody(network, session)| <= 14
  {
    Powers();
    ZigZagEncodeValue(64, session);
    var z: u64 := ZigZagEncode(64, session);
    RoundTrip(Vlq.Encode(z), 0, z);
  }

  method BuildSessionBody(network: Network, session: i64) returns (r: Bytes)
    ensures r == SessionBody(network, session)
  {
    SessionLength(network, session);
    var body := new Buffer();
    body.Extend(network.Magic());
    WriteVlq(body, ZigZagEncode(64, session));
    r := body.data;
  }

  method WriteFeature(buf: Buffer, f: Feature)
    requires |f.body| < U64_LIMIT
    modifies buf
    ensures buf.data == old(buf.data) + FeatureBytes(f)
  {
    buf.Push(f.id);
    WriteVlq(buf, |f.body|);
    buf.Extend(f.body);
  }

  method WriteIdentity(buf: Buffer, i: Identity)
    modifies buf
    ensures buf.data == old(buf.data) + IdentityBytes(i)
  {
    WriteShortString(buf, i.agent);
    buf.Push(i.version.major);
    buf.Push(i.version.minor);
    buf.Push(i.version.patch);
    WriteShortString(buf, i.name);
  }

  method WriteHeader(buf: Buffer, h: Header, now: u64)
    modifies buf
    ensures buf.data == old(buf.data) + HeaderBytes(h, now)
  {
    WriteVlq(buf, now);
    WriteIdentity(buf, h.identity);
    match h.address
    case None => buf.Push(0x00);
    case Some(a) =>
      buf.Push(0x01);
      var octets := a.ip.Octets();
      buf.Push(|octets| + 4);
      buf.Extend(octets);
      WriteVlq(buf, a.port);
  }

  method WriteSpec(buf: Buffer, spec: PeerSpec, now: u64)
    requires |spec.features| == 3 && forall k :: 0 <= k < 3 ==> |spec.features[k].body| < U64_LIMIT
    modifies buf
    ensures buf.data == old(buf.data) + SpecBytes(spec, now)
  {
    var fs := spec.features;
    ThreeFeatures(fs);
    WriteHeader(buf, spec.header, now);
    buf.Push(3);
    WriteFeature(buf, fs[0]);
    WriteFeature(buf, fs[1]);
    WriteFeature(buf, fs[2]);
  }

  method Build(c: Config, now: u64, session: i64) returns (r: Bytes)
    ensures r == SpecBytes(SpecOf(c, session), now)
  {
    var buf := new Buffer();
    var sessionBody := BuildSessionBody(c.network, session);
    SessionLength(c.network, session);
    var features := [
      Feature(FEATURE_MODE, ModeBody(c.mode)),
      Feature(FEATURE_SESSION, sessionBody),
      Feature(FEATURE_PROXY, [0x01])];
    WriteSpec(buf, PeerSpec(Header(Identity(c.agentName, c.version, c.peerName), c.declaredAddress), features), now);
    r := buf.data;
  }

  lemma ThreeFeatures(fs: seq<Feature>)
    requires |fs| == 3
    ensures FeaturesBytes(fs) == FeatureBytes(fs[0]) + FeatureBytes(fs[1]) + FeatureBytes(fs[2])
  {
    assert fs[..2][..1] == fs[..1];
    assert fs[..1][..0] == [];
    assert FeaturesBytes(fs[..1]) == FeatureBytes(fs[0]);
    assert FeaturesBytes(fs[..2]) == FeatureBytes(fs[0]) + FeatureBytes(fs[1]);
  }

  // ----- Parsing the header -----

  /** An address of any length is consumed; only 4 and 16 bytes mean something. */
  function AddressOf(octets: Bytes, port: u16): Option<SocketAddr> {
    if |octets| == 4 then Some(SocketAddr(V4(octets), port))
    else if |octets| == 16 then Some(SocketAddr(V6(octets), port))
    else None
  }

  /** `(addr_len as usize).saturating_sub(4)`. */
  function IpLength(size: byte): nat {
    if size < 4 then 0 else size - 4
  }

  function AddressAt(d: Bytes, pos: nat): (r: Parsed<Option<SocketAddr>>)
    ensures r.Got? ==> pos < r.next <= |d|
  {
    if pos >= |d| then Fail(UnexpectedEof)
    else
      match ExactAt(d, pos + 1, IpLength(d[pos]))
      case Fail(e) => Fail(e)
      case Got(octets, next) =>
        match VlqAt(d, next)
        case Fail(e) => Fail(e)
        case Got(port, end) => Got(AddressOf(octets, port % U16_LIMIT), end)
  }

  function OptionalAddressAt(d: Bytes, pos: nat): (r: Parsed<Option<SocketAddr>>)
    ensures r.Got? ==> pos < r.next <= |d|
  {
    if pos >= |d| then Fail(UnexpectedEof)
    else if d[pos] == 0 then Got(None, pos + 1)
    else AddressAt(d, pos + 1)
  }

  function VersionAt(d: Bytes, pos: nat): (r: Parsed<Version>)
    ensures r.Got? ==> r.next == pos + 3 <= |d|
  {
    match ExactAt(d, pos, 3)
    case Fail(e) => Fail(e)
    case Got(v, next) => Got(Version(v[0], v[1], v[2]), next)
  }

  /** Agent name, version and peer name. */
  function IdentityAt(utf8: Utf8, d: Bytes, pos: nat): (r: Parsed<Identity>)
    ensures r.Got? ==> pos < r.next <= |d|
  {
    match ShortStringAt(utf8, d, pos)
    case Fail(e) => Fail(e)
    case Got(agent, p2) =>
      match VersionAt(d, p2)
      case Fail(e) => Fail(e)
      case Got(version, p3) =>
        match ShortStringAt(utf8, d, p3)
        case Fail(e) => Fail(e)
        case Got(name, p4) => Got(Identity(agent, version, name), p4)
  }

  function HeaderAt(utf8: Utf8, d: Bytes): (r: Parsed<Header>)
    ensures r.Got? ==> r.next <= |d|
  {
    match VlqAt(d, 0)
    case Fail(e) => Fail(e)
    case Got(_, p1) =>
      match IdentityAt(utf8, d, p1)
      case Fail(e) => Fail(e)
      case Got(identity, p2) =>
        match OptionalAddressAt(d, p2)
        case Fail(e) => Fail(e)
        case Got(address, p3) => Got(Header(identity, address), p3)
  }

  // ----- Features: read all of them, or as many as there are -----

  function FeatureAt(d: Bytes, pos: nat): (r: Parsed<Feature>)
    ensures r.Got? ==> pos < r.next <= |d|
  {
    if pos >= |d| then Fail(UnexpectedEof)
    else
      match VlqLengthAt(d, pos + 1)
      case Fail(e) => Fail(e)
      case Got(len, start) =>
        match ExactAt(d, start, len)
        case Fail(e) => Fail(e)
        case Got(body, end) => Got(Feature(d[pos], body), end)
  }

  function FeaturesAt(d: Bytes, pos: nat, count: nat): (r: Parsed<seq<Feature>>)
    ensures r.Got? ==> |r.value| == count && r.next <= |d|
  {
    if count == 0 then if pos <= |d| then Got([], pos) else Fail(UnexpectedEof)
    else
      match FeaturesAt(d, pos, count - 1)
      case Fail(e) => Fail(e)
      case Got(fs, next) =>
        match FeatureAt(d, next)
        case Fail(e) => Fail(e)
        case Got(f, end) => Got(fs + [f], end)
  }

  /** As many of the `count` features as can be read: the value of the longest successful
      strict read. */
  function ReadableFeatures(d: Bytes, pos: nat, count: nat): seq<Feature> {
    match FeaturesAt(d, pos, count)
    case Got(fs, _) => fs
    case Fail(_) => if count == 0 then [] else ReadableFeatures(d, pos, count - 1)
  }

  /** The count byte may be missing too. */
  function LenientFeatures(d: Bytes, pos: nat): seq<Feature> {
    if pos >= |d| then [] else ReadableFeatures(d, pos + 1, d[pos])
  }

  function Parse(utf8: Utf8, d: Bytes): Result<PeerSpec> {
    match HeaderAt(utf8, d)
    case Fail(e) => Err(e)
    case Got(header, next) => Ok(PeerSpec(header, LenientFeatures(d, next)))
  }

  /** The size of the handshake, from a strict read of all declared features. */
  function MeasureAt(utf8: Utf8, d: Bytes): (r: Parsed<PeerSpec>)
    ensures r.Got? ==> r.next <= |d|
  {
    match HeaderAt(utf8, d)
    case Fail(e) => Fail(e)
    case Got(header, next) =>
      if next >= |d| then Fail(UnexpectedEof)
      else
        match FeaturesAt(d, next + 1, d[next])
        case Fail(e) => Fail(e)
        case Got(fs, end) => Got(PeerSpec(header, fs), end)
  }

  function Measure(utf8: Utf8, d: Bytes): Result<nat> {
    match MeasureAt(utf8, d)
    case Fail(e) => Err(e)
    case Got(_, n) => Ok(n)
  }

  // ----- The parsers as written -----

  method ParseAddress(c: Cursor) returns (r: Result<Option<SocketAddr>>)
    modifies c
    ensures r == AddressAt(c.data, old(c.pos)).ToResult()
    ensures r.Ok? ==> c.pos == AddressAt(c.data, old(c.pos)).next
  {
    var size :- c.ReadExact(1);
    var octets :- c.ReadExact(IpLength(size[0]));
    var port :- ReadVlq(c);
    r := Ok(AddressOf(octets, port % U16_LIMIT));
  }

  method ParseIdentity(utf8: Utf8, c: Cursor) returns (r: Result<Identity>)
    modifies c
    ensures r == IdentityAt(utf8, c.data, old(c.pos)).ToResult()
    ensures r.Ok? ==> c.pos == IdentityAt(utf8, c.data, old(c.pos)).next
  {
    var agent :- ReadShortString(utf8, c);
    var ver :- c.ReadExact(3);
    var name :- ReadShortString(utf8, c);
    r := Ok(Identity(agent, Version(ver[0], ver[1], ver[2]), name));
  }

  method ParseHeader(utf8: Utf8, c: Cursor) returns (r: Result<Header>)
    requires c.pos == 0
    modifies c
    ensures r == HeaderAt(utf8, c.data).ToResult()
    ensures r.Ok? ==> c.pos == HeaderAt(utf8, c.data).next
  {
    var _ :- ReadVlq(c);
    var identity :- ParseIdentity(utf8, c);
    var hasAddr :- c.ReadExact(1);
    var address := None;
    if hasAddr[0] != 0 {
      address :- ParseAddress(c);
    }
    r := Ok(Header(identity, address));
  }

  method ReadFeature(c: Cursor) returns (r: Result<Feature>)
    modifies c
    ensures r == FeatureAt(c.data, old(c.pos)).ToResult()
    ensures r.Ok? ==> c.pos == FeatureAt(c.data, old(c.pos)).next
  {
    var fid :- c.ReadExact(1);
    var flen :- ReadVlqLength(c);
    var fbody :- c.ReadExact(flen);
    r := Ok(Feature(fid[0], fbody));
  }

  lemma {:induction false} FeaturesPrefix(d: Bytes, pos: nat, count: nat, k: nat)
    requires k <= count && FeaturesAt(d, pos, k).Fail?
    ensures FeaturesAt(d, pos, count) == FeaturesAt(d, pos, k)
  {
    if k < count {
      FeaturesPrefix(d, pos, count - 1, k);
    }
  }

  lemma {:induction false} ReadableUpTo(d: Bytes, pos: nat, count: nat, k: nat)
    requires k <= count && FeaturesAt(d, pos, k).Got?
    requires k < count ==> FeaturesAt(d, pos, k + 1).Fail?
    ensures ReadableFeatures(d, pos, count) == FeaturesAt(d, pos, k).value
  {
    hide FeaturesAt;
    if k < count {
      FeaturesPrefix(d, pos, count, k + 1);
      assert ReadableFeatures(d, pos, count) == ReadableFeatures(d, pos, count - 1);
      ReadableUpTo(d, pos, count - 1, k);
    } else {
      assert ReadableFeatures(d, pos, count) == FeaturesAt(d, pos, count).value;
    }
  }

  /** Stops at the first feature that cannot be read, without an error. */
  method ParseFeatures(c: Cursor) returns (fs: seq<Feature>)
    modifies c
    ensures fs == LenientFeatures(c.data, old(c.pos))
  {
    fs := [];
    var count := c.ReadExact(1);
    if count.Err? {
      return;
    }
    ghost var start := c.pos;
    for k := 0 to count.value[0]
      invariant start <= |c.data| && FeaturesAt(c.data, start, k) == Got(fs, c.pos)
    {
      var f := ReadFeature(c);
      if f.Err? {
        ReadableUpTo(c.data, start, count.value[0], k);
        break;
      }
      fs := fs + [f.value];
    }
    if FeaturesAt(c.data, start, count.value[0]).Got? {
      ReadableUpTo(c.data, start, count.value[0], count.value[0]);
    }
  }

  method ParseHandshake(utf8: Utf8, d: Bytes) returns (r: Result<PeerSpec>)
    ensures r == Parse(utf8, d)
  {
    var c := new Cursor(d);
    var header :- ParseHeader(utf8, c);
    var features := ParseFeatures(c);
    r := Ok(PeerSpec(header, features));
  }

  /** Any feature that cannot be read is an error. */
  method SkipFeatures(c: Cursor, count: nat) returns (r: Result<nat>)
    requires c.pos <= |c.data|
    modifies c
    ensures var fs := FeaturesAt(c.data, old(c.pos), count);
            r == if fs.Got? then Ok(fs.next) else Err(fs.error)
  {
    ghost var start, fs: seq<Feature> := c.pos, [];
    for k := 0 to count
      invariant start <= |c.data| && FeaturesAt(c.data, start, k) == Got(fs, c.pos)
    {
      var f := ReadFeature(c);
      if f.Err? {
        FeaturesPrefix(c.data, start, count, k + 1);
        return Err(f.error);
      }
      fs := fs + [f.value];
    }
    r := Ok(c.pos);
  }

  method MeasureSize(utf8: Utf8, d: Bytes) returns (r: Result<nat>)
    ensures r == Measure(utf8, d)
  {
    var c := new Cursor(d);
    var _ :- ParseHeader(utf8, c);
    var count :- c.ReadExact(1);
    r := SkipFeatures(c, count[0]);
  }
}
