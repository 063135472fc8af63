/** The handshake phase of a connection and the frames behind it (src/transport/connection.rs). */
module Connections {
  import opened Types
  import opened ByteIO
  import opened Frames
  import opened Handshake
  import opened HandshakeLaws

  const BUFFER_CAPACITY: nat := 8192

  /** A buffered reader. `rest` is every byte of the stream not yet consumed; the first
      `buffered` of them have arrived in the buffer. */
  class BufReader {
    var rest: Bytes
    var buffered: nat

    ghost predicate Valid()
      reads this
    {
      buffered <= |rest| && buffered <= BUFFER_CAPACITY
    }

    constructor (stream: Bytes)
      ensures Valid() && rest == stream && buffered == 0
    {
      rest := stream;
      buffered := 0;
    }

    /** One read of the socket if the buffer is empty. How much has arrived is up to the network:
        some nonempty part, or nothing at the end of the stream. */
    method FillBuf(arrived: nat) returns (buf: Bytes)
      requires Valid()
      requires arrived <= |rest| && arrived <= BUFFER_CAPACITY && (arrived == 0 ==> rest == [])
      modifies this
      ensures Valid() && rest == old(rest)
      ensures buffered == if old(buffered) > 0 then old(buffered) else arrived
      ensures buf == rest[..buffered]
    {
      if buffered == 0 {
        buffered := arrived;
      }
      buf := rest[..buffered];
    }

    method Consume(n: nat)
      requires Valid() && n <= buffered
      modifies this
      ensures Valid() && rest == old(rest)[n..] && buffered == old(buffered) - n
    {
      rest := rest[n..];
      buffered := buffered - n;
    }
  }

  /** What one buffer of input yields: a specification and how many bytes it takes. */
  function HandshakeIn(utf8: Utf8, window: Bytes): (r: Result<(PeerSpec, nat)>)
    ensures r.Ok? ==> r.value.1 <= |window|
  {
    if window == [] then Err(ConnectionReset)
    else
      var spec :- Parse(utf8, window);
      match MeasureAt(utf8, window)
      case Fail(e) => Err(e)
      case Got(_, n) => Ok((spec, n))
  }

  method ReadHandshake(utf8: Utf8, reader: BufReader, arrived: nat) returns (r: Result<PeerSpec>)
    requires reader.Valid() && reader.buffered == 0
    requires arrived <= |reader.rest| && arrived <= BUFFER_CAPACITY && (arrived == 0 ==> reader.rest == [])
    modifies reader
    ensures reader.Valid()
    ensures var outcome := HandshakeIn(utf8, old(reader.rest)[..arrived]);
            match outcome
            case Ok((spec, n)) => r == Ok(spec) && reader.rest == old(reader.rest)[n..]
            case Err(e) => r == Err(e) && reader.rest == old(reader.rest)
  {
    var buf := reader.FillBuf(arrived);
    if buf == [] {
      return Err(ConnectionReset);
    }
    var spec :- ParseHandshake(utf8, buf);
    var consumed :- MeasureSize(utf8, buf);
    reader.Consume(consumed);
    r := Ok(spec);
  }

  /** Whatever a peer sends and however its bytes arrive: two first buffers of the same stream
      that both yield a handshake yield the same one, and a larger buffer never loses it. */
  lemma {:induction false} WindowIndependent(utf8: Utf8, stream: Bytes, a: nat, b: nat)
    requires a <= b <= |stream| && HandshakeIn(utf8, stream[..a]).Ok?
    ensures HandshakeIn(utf8, stream[..b]) == HandshakeIn(utf8, stream[..a])
  {
    var n := HandshakeIn(utf8, stream[..a]).value.1;
    assert stream[..b][..n] == stream[..a][..n];
    MeasuredIsParsed(utf8, stream[..a], stream[..b], n);
  }

  /** No bytes are lost between the handshake and the first frame. On our own handshake followed
      by any encoded frames, a first buffer of length `k` yields the handshake if and only if it
      holds all of it; then exactly the frames are left, and reading returns them in order. */
  lemma {:induction false} StreamAligned(
    utf8: Utf8, hash: Hash, magic: Magic, c: Config, now: u64, session: i64, frames: seq<Frame>, k: nat)
    requires HasUtf8Names(utf8, c) && HasShortNames(c)
    requires forall i :: 0 <= i < |frames| ==> |frames[i].body| <= MAX_BODY_SIZE
    requires k <= |SpecBytes(SpecOf(c, session), now) + EncodeAll(hash, magic, frames)|
    ensures var hello, tail := SpecBytes(SpecOf(c, session), now), EncodeAll(hash, magic, frames);
            var outcome := HandshakeIn(utf8, (hello + tail)[..k]);
            && (outcome.Ok? <==> |hello| <= k)
            && (outcome.Ok? ==>
                  && outcome.value == (SpecOf(c, session), |hello|)
                  && (hello + tail)[|hello|..] == tail
                  && FramesAt(hash, magic, (hello + tail)[|hello|..], 0) == frames)
  {
    var hello, tail := SpecBytes(SpecOf(c, session), now), EncodeAll(hash, magic, frames);
    var stream := hello + tail;
    assert stream[|hello|..] == tail;
    StreamRoundTrip(hash, magic, tail, 0, frames) by { assert tail[0..] == tail; }
    BuildRoundTrip(utf8, c, now, session, stream);
    if k < |hello| {
      MeasuredIsParsed(utf8, stream, stream, |hello|);
      assert Measure(utf8, stream[..k]).Err?;
    } else {
      assert hello <= stream[..k];
      BuildRoundTrip(utf8, c, now, session, stream[..k]);
    }
  }
}
