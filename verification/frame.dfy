/** Message frames (src/transport/frame.rs). BLAKE2b-256 is a parameter: any function from
    bytes to 32 bytes. */
module Frames {
  import opened Types
  import opened ByteIO

  const HEADER_SIZE: nat := 13
  const MAX_BODY_SIZE: nat := 256 * 1024

  type Digest = s: Bytes | |s| == 32 witness seq(32, _ => 0)
  type Hash = Bytes -> Digest

  datatype Frame = Frame(code: byte, body: Bytes)

  /** `to_be_bytes` of a u32. */
  function ToBe32(n: nat): (r: Bytes)
    requires n < U32_LIMIT
    ensures |r| == 4
  {
    [n / 256 / 256 / 256, n / 256 / 256 % 256, n / 256 % 256, n % 256]
  }

  function FromBe32(s: Bytes): nat
    requires |s| == 4
  {
    ((s[0] as int * 256 + s[1]) * 256 + s[2]) * 256 + s[3]
  }

  lemma Digit(x: nat, b: byte)
    ensures (x * 256 + b) / 256 == x && (x * 256 + b) % 256 == b
  {
  }

  lemma Be32RoundTrip(n: nat, s: Bytes)
    requires n < U32_LIMIT && |s| == 4
    ensures FromBe32(ToBe32(n)) == n
    ensures FromBe32(s) < U32_LIMIT && ToBe32(FromBe32(s)) == s
  {
    var hi: int := s[0];
    Digit(hi, s[1]);
    Digit(hi * 256 + s[1], s[2]);
    Digit((hi * 256 + s[1]) * 256 + s[2], s[3]);
  }

  /** The frame `f` stands at `pos`, byte by byte: magic, code, big-endian 32-bit length, the first
      four bytes of the body's hash, body. */
  ghost predicate LaidOut(hash: Hash, magic: Magic, d: Bytes, pos: nat, f: Frame) {
    && pos + 13 + |f.body| <= |d|
    && d[pos..pos + 4] == magic
    && d[pos + 4] == f.code
    && LengthField(d, pos) == |f.body| % 4294967296
    && d[pos + 9..pos + 13] == hash(f.body)[..4]
    && d[pos + 13..pos + 13 + |f.body|] == f.body
  }

  function LengthField(d: Bytes, pos: nat): nat
    requires pos + 9 <= |d|
  {
    d[pos + 5] as int * 16777216 + d[pos + 6] as int * 65536 + d[pos + 7] as int * 256 + d[pos + 8] as int
  }

  lemma LengthFieldValue(d: Bytes, pos: nat)
    requires pos + 9 <= |d|
    ensures LengthField(d, pos) == FromBe32(d[pos + 5..pos + 9])
  {
  }

  function Header(hash: Hash, magic: Magic, f: Frame): (r: Bytes)
    ensures |r| == HEADER_SIZE
  {
    magic + [f.code] + ToBe32(|f.body| % U32_LIMIT) + hash(f.body)[..4]
  }

  /** The wire bytes of a frame; the length is cast to 32 bits. */
  function EncodeFrame(hash: Hash, magic: Magic, f: Frame): Bytes {
    Header(hash, magic, f) + f.body
  }

  lemma EncodedLayout(hash: Hash, magic: Magic, f: Frame)
    ensures LaidOut(hash, magic, EncodeFrame(hash, magic, f), 0, f)
  {
    var d := EncodeFrame(hash, magic, f);
    HeaderParts(hash, magic, f);
    var h := Header(hash, magic, f);
    assert d[..13] == h && d[13..13 + |f.body|] == f.body;
    assert d[0..4] == h[0..4] && d[5..9] == h[5..9] && d[9..13] == h[9..13];
    LengthFieldValue(d, 0);
    Be32RoundTrip(|f.body| % U32_LIMIT, [0, 0, 0, 0]);
  }

  method Encode(hash: Hash, magic: Magic, f: Frame) returns (r: Bytes)
    ensures r == EncodeFrame(hash, magic, f)
    ensures |r| == 13 + |f.body| && LaidOut(hash, magic, r, 0, f)
  {
    EncodedLayout(hash, magic, f);
    var msg := new Buffer();
    msg.Extend(magic);
    msg.Push(f.code);
    msg.Extend(ToBe32(|f.body| % U32_LIMIT));
    msg.Extend(hash(f.body)[..4]);
    msg.Extend(f.body);
    r := msg.data;
  }

  function Decode(hash: Hash, magic: Magic, data: Bytes): Result<Frame> {
    if |data| < HEADER_SIZE then Err(InvalidData)
    else if data[0..4] != magic then Err(InvalidData)
    else
      var bodyLen := FromBe32(data[5..9]);
      if bodyLen > MAX_BODY_SIZE then Err(InvalidData)
      else if |data| < HEADER_SIZE + bodyLen then Err(InvalidData)
      else
        var body := data[HEADER_SIZE..HEADER_SIZE + bodyLen];
        if hash(body)[..4] != data[9..13] then Err(InvalidData)
        else Ok(Frame(data[4], body))
  }

  lemma HeaderParts(hash: Hash, magic: Magic, f: Frame)
    ensures var h := Header(hash, magic, f);
            && h[0..4] == magic
            && h[4] == f.code
            && h[5..9] == ToBe32(|f.body| % U32_LIMIT)
            && h[9..13] == hash(f.body)[..4]
  {
  }

  lemma DecodesEncoding(hash: Hash, magic: Magic, d: Bytes, f: Frame)
    requires |f.body| <= MAX_BODY_SIZE && EncodeFrame(hash, magic, f) <= d
    ensures Decode(hash, magic, d) == Ok(f)
  {
    hide Header, ToBe32, FromBe32;
    HeaderParts(hash, magic, f);
    var h := Header(hash, magic, f);
    assert d[..HEADER_SIZE] == h && d[HEADER_SIZE..HEADER_SIZE + |f.body|] == f.body;
    assert d[0..4] == h[0..4] && d[5..9] == h[5..9] && d[9..13] == h[9..13];
    Be32RoundTrip(|f.body|, [0, 0, 0, 0]);
  }

  lemma DecodedIsEncoded(hash: Hash, magic: Magic, d: Bytes)
    requires Decode(hash, magic, d).Ok?
    ensures var f := Decode(hash, magic, d).value;
            |f.body| <= MAX_BODY_SIZE && EncodeFrame(hash, magic, f) <= d
  {
    var f := Decode(hash, magic, d).value;
    Be32RoundTrip(0, d[5..9]);
    HeaderConcat(d);
    assert Header(hash, magic, f) == d[..HEADER_SIZE];
    TakeMore(d, HEADER_SIZE, |f.body|);
  }

  lemma HeaderConcat(d: Bytes)
    requires |d| >= HEADER_SIZE
    ensures d[0..4] + [d[4]] + d[5..9] + d[9..13] == d[..HEADER_SIZE]
  {
  }

  lemma TakeMore(d: Bytes, n: nat, m: nat)
    requires n + m <= |d|
    ensures d[..n] + d[n..n + m] == d[..n + m]
  {
  }

  /** Decoding accepts exactly the encodings of frames within the size limit, whatever bytes
      follow, and gives back the frame that was encoded. */
  lemma DecodeIffEncoded(hash: Hash, magic: Magic, d: Bytes, f: Frame)
    ensures Decode(hash, magic, d) == Ok(f) <==>
            |f.body| <= MAX_BODY_SIZE && EncodeFrame(hash, magic, f) <= d
  {
    if Decode(hash, magic, d) == Ok(f) {
      DecodedIsEncoded(hash, magic, d);
    }
    if |f.body| <= MAX_BODY_SIZE && EncodeFrame(hash, magic, f) <= d {
      DecodesEncoding(hash, magic, d, f);
    }
  }

  // ----- Reading from a stream -----

  /** What `read_frame` makes of the bytes at `pos`. */
  function FrameAt(hash: Hash, magic: Magic, d: Bytes, pos: nat): (r: Parsed<Frame>)
    ensures r.Got? ==> r.next == pos + HEADER_SIZE + |r.value.body| <= |d|
  {
    match ExactAt(d, pos, HEADER_SIZE)
    case Fail(e) => Fail(e)
    case Got(header, next) =>
      if header[0..4] != magic || FromBe32(header[5..9]) > MAX_BODY_SIZE then Fail(InvalidData)
      else
        match ExactAt(d, next, FromBe32(header[5..9]))
        case Fail(e) => Fail(e)
        case Got(body, end) =>
          if hash(body)[..4] != header[9..13] then Fail(InvalidData) else Got(Frame(header[4], body), end)
  }

  /** Reading succeeds exactly on what is laid out as a frame with a body of at most 262144 bytes,
      and behind it; it runs out of input exactly when the header is cut off, or the body of a
      header whose magic and length are in order. */
  lemma ReadIffLaidOut(hash: Hash, magic: Magic, d: Bytes, pos: nat, f: Frame, next: nat)
    ensures FrameAt(hash, magic, d, pos) == Got(f, next) <==>
            |f.body| <= 262144 && LaidOut(hash, magic, d, pos, f) && next == pos + 13 + |f.body|
    ensures FrameAt(hash, magic, d, pos) == Fail(UnexpectedEof) <==>
            || |d| < pos + 13
            || (d[pos..pos + 4] == magic && LengthField(d, pos) <= 262144 && |d| < pos + 13 + LengthField(d, pos))
  {
    if pos + 13 <= |d| {
      LengthFieldValue(d, pos);
      var header := d[pos..pos + 13];
      assert header[0..4] == d[pos..pos + 4] && header[5..9] == d[pos + 5..pos + 9];
      assert header[9..13] == d[pos + 9..pos + 13];
    }
  }

  lemma ReadsLayout(hash: Hash, magic: Magic, d: Bytes, pos: nat)
    ensures forall f :: FrameAt(hash, magic, d, pos).ToResult() == Ok(f) <==>
                        |f.body| <= 262144 && LaidOut(hash, magic, d, pos, f)
  {
    forall f: Frame
      ensures FrameAt(hash, magic, d, pos).ToResult() == Ok(f) <==>
              |f.body| <= 262144 && LaidOut(hash, magic, d, pos, f)
    {
      ReadIffLaidOut(hash, magic, d, pos, f, pos + 13 + |f.body|);
    }
  }

  method ReadFrame(hash: Hash, magic: Magic, c: Cursor) returns (r: Result<Frame>)
    modifies c
    ensures r == FrameAt(hash, magic, c.data, old(c.pos)).ToResult()
    ensures r.Ok? ==> c.pos == FrameAt(hash, magic, c.data, old(c.pos)).next
    ensures forall f :: r == Ok(f) <==> |f.body| <= 262144 && LaidOut(hash, magic, c.data, old(c.pos), f)
    ensures r.Ok? ==> c.pos == old(c.pos) + 13 + |r.value.body|
  {
    ReadsLayout(hash, magic, c.data, c.pos);
    var header :- c.ReadExact(HEADER_SIZE);
    if header[0..4] != magic {
      return Err(InvalidData);
    }
    var bodyLen := FromBe32(header[5..9]);
    if bodyLen > MAX_BODY_SIZE {
      return Err(InvalidData);
    }
    var body: Bytes := [];
    if bodyLen > 0 {
      body :- c.ReadExact(bodyLen);
    }
    if hash(body)[..4] != header[9..13] {
      return Err(InvalidData);
    }
    r := Ok(Frame(header[4], body));
  }

  lemma HeaderSlices(d: Bytes)
    requires |d| >= HEADER_SIZE
    ensures var header := d[..HEADER_SIZE];
            header[0..4] == d[0..4] && header[5..9] == d[5..9] && header[9..13] == d[9..13]
  {
  }

  /** Reading a frame from a stream and decoding the rest of the stream accept the same frames,
      and reading consumes exactly the header and the body. */
  lemma ReadIffDecode(hash: Hash, magic: Magic, d: Bytes, pos: nat, f: Frame)
    requires pos <= |d|
    ensures FrameAt(hash, magic, d, pos) == Got(f, pos + HEADER_SIZE + |f.body|) <==>
            Decode(hash, magic, d[pos..]) == Ok(f)
  {
    var rest := d[pos..];
    if |rest| >= HEADER_SIZE {
      var header := d[pos..pos + HEADER_SIZE];
      assert header == rest[..HEADER_SIZE];
      HeaderSlices(rest);
      var n := FromBe32(rest[5..9]);
      if |rest| >= HEADER_SIZE + n {
        assert rest[HEADER_SIZE..HEADER_SIZE + n] == d[pos + HEADER_SIZE..pos + HEADER_SIZE + n];
      }
    }
  }

  /** Decoding accepts exactly what is laid out as a frame with a body of at most 262144 bytes;
      everything else is invalid data. */
  lemma DecodeIffLaidOut(hash: Hash, magic: Magic, d: Bytes, f: Frame)
    ensures Decode(hash, magic, d) == Ok(f) <==> |f.body| <= 262144 && LaidOut(hash, magic, d, 0, f)
    ensures Decode(hash, magic, d).Err? ==> Decode(hash, magic, d).error == InvalidData
  {
    hide FrameAt, LaidOut, FromBe32;
    assert d[0..] == d;
    ReadIffDecode(hash, magic, d, 0, f);
    ReadIffLaidOut(hash, magic, d, 0, f, 13 + |f.body|);
  }

  // ----- A stream of frames -----

  function EncodeAll(hash: Hash, magic: Magic, frames: seq<Frame>): Bytes {
    if frames == [] then [] else EncodeFrame(hash, magic, frames[0]) + EncodeAll(hash, magic, frames[1..])
  }

  /** The frames a reader gets by reading until something goes wrong. */
  function FramesAt(hash: Hash, magic: Magic, d: Bytes, pos: nat): seq<Frame>
    decreases |d| - pos
  {
    match FrameAt(hash, magic, d, pos)
    case Got(f, next) => [f] + FramesAt(hash, magic, d, next)
    case Fail(_) => []
  }

  lemma NextFrame(hash: Hash, magic: Magic, d: Bytes, pos: nat, f: Frame, rest: Bytes) returns (next: nat)
    requires pos <= |d| && d[pos..] == EncodeFrame(hash, magic, f) + rest && |f.body| <= MAX_BODY_SIZE
    ensures next <= |d| && d[next..] == rest && FrameAt(hash, magic, d, pos) == Got(f, next)
  {
    var e := EncodeFrame(hash, magic, f);
    DecodeIffEncoded(hash, magic, d[pos..], f);
    ReadIffDecode(hash, magic, d, pos, f);
    next := pos + |e|;
    assert d[next..] == d[pos..][|e|..];
  }

  /** A stream of encoded frames is read back frame by frame, in order and to its end. */
  lemma {:induction false} StreamRoundTrip(hash: Hash, magic: Magic, d: Bytes, pos: nat, frames: seq<Frame>)
    requires pos <= |d| && d[pos..] == EncodeAll(hash, magic, frames)
    requires forall k :: 0 <= k < |frames| ==> |frames[k].body| <= MAX_BODY_SIZE
    ensures FramesAt(hash, magic, d, pos) == frames
    decreases |frames|
  {
    if frames != [] {
      var f, rest := frames[0], EncodeAll(hash, magic, frames[1..]);
      var n := NextFrame(hash, magic, d, pos, f, rest);
      StreamRoundTrip(hash, magic, d, n, frames[1..]);
    }
  }
}
