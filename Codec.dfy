/** The wire codec: a message travels as its three header bytes {type, len, nid}
    followed by `len - HEADER_LEN` body bytes. Sending and receiving loop until the
    whole message has moved, however the socket splits the transfer. */
module Codec {
  import opened Common
  import opened Protocol

  /** The bytes of a message's buffer: header in the order type, len, nid, then the body. */
  function Encode(m: Msg): (bytes: seq<Byte>)
    requires WellFormed(m)
    ensures |bytes| == m.len
    ensures bytes[..HEADER_LEN] == [CharByte(m.mtype), CharByte(m.len), CharByte(m.nid)]
    ensures bytes[HEADER_LEN..] == m.body
  {
    [CharByte(m.mtype), CharByte(m.len), CharByte(m.nid)] + m.body
  }

  datatype RecvError =
    | Closed     // the peer closed before any header byte arrived
    | Truncated  // the peer closed inside a header or a body
    | RecvFailed // a receive call reported an error

  datatype RecvResult = Received(msg: Msg, used: nat) | Failed(error: RecvError)

  /** The body length a header announces: `len - HEADER_LEN`, nothing when that is
      negative. `len` is a signed char, so no header announces more than MAX_BODY. */
  function BodyLength(len: int): (n: nat)
    requires IsChar(len)
    ensures n <= MAX_BODY
    ensures len >= HEADER_LEN ==> n == len - HEADER_LEN
  {
    if len < HEADER_LEN then 0 else len - HEADER_LEN
  }

  /** A buffer filled to SM_MSG_MAX bytes announces a negative length: its `len` char
      reads -128, so no body follows it on the wire. */
  lemma FullBufferAnnouncesNoBody()
    ensures SignedChar(ToByte(SM_MSG_MAX)) == -128
    ensures BodyLength(SignedChar(ToByte(SM_MSG_MAX))) == 0
  {
  }

  /** The message at the front of a byte stream: the header fields are bytes 0, 1, 2,
      each read as a signed char, and the body is the next BodyLength(len) bytes. */
  function Decode(stream: seq<Byte>): (r: RecvResult)
    ensures r.Received? <==> |stream| >= HEADER_LEN && |stream| >= HEADER_LEN + BodyLength(SignedChar(stream[1]))
    ensures r.Received? ==> r.used == HEADER_LEN + |r.msg.body| <= |stream|
    ensures r.Received? ==> r.msg.mtype == SignedChar(stream[0]) && r.msg.len == SignedChar(stream[1])
                            && r.msg.nid == SignedChar(stream[2])
    ensures r.Received? ==> |r.msg.body| == BodyLength(r.msg.len)
                            && r.msg.body == stream[HEADER_LEN..r.used]
    ensures r == Failed(Closed) <==> stream == []
    ensures r.Failed? && stream != [] ==> r == Failed(Truncated)
  {
    if |stream| == 0 then Failed(Closed)
    else if |stream| < HEADER_LEN then Failed(Truncated)
    else
      var n := BodyLength(SignedChar(stream[1]));
      if |stream| < HEADER_LEN + n then Failed(Truncated)
      else Received(Msg(SignedChar(stream[0]), SignedChar(stream[1]), SignedChar(stream[2]),
                        stream[HEADER_LEN..HEADER_LEN + n]),
                    HEADER_LEN + n)
  }

  /** Decoding what Encode produced gives the message back and consumes exactly its bytes,
      whatever follows it on the stream. */
  lemma RoundTrip(m: Msg, rest: seq<Byte>)
    requires WellFormed(m)
    ensures Decode(Encode(m) + rest) == Received(m, m.len)
  {
    var s := Encode(m) + rest;
    assert s[0] == CharByte(m.mtype) && s[1] == CharByte(m.len) && s[2] == CharByte(m.nid);
    assert s[HEADER_LEN..HEADER_LEN + |m.body|] == m.body;
  }

  /** The body fields a node writes are the ones the allocator reads off the wire. */
  lemma BodyFieldsOnTheWire(nid: int, size: Byte, root: Byte, value: Byte, rest: seq<Byte>)
    requires IsChar(nid)
    ensures var a := Decode(Encode(Make(SM_ALOC, nid, ByteBody(size))) + rest);
            a.Received? && a.msg.mtype == SM_ALOC && AllocSize(a.msg) == Some(size)
    ensures var c := Decode(Encode(Make(SM_CAST, nid, CastBody(root, value))) + rest);
            c.Received? && c.msg.mtype == SM_CAST && CastFields(c.msg) == Some((root, value))
  {
    RoundTrip(Make(SM_ALOC, nid, ByteBody(size)), rest);
    RoundTrip(Make(SM_CAST, nid, CastBody(root, value)), rest);
  }

  /** A decoded message re-encodes to the bytes it was read from, provided its header
      announced at least a header's worth of length. */
  lemma DecodeThenEncode(stream: seq<Byte>)
    requires Decode(stream).Received?
    requires SignedChar(stream[1]) >= HEADER_LEN
    ensures WellFormed(Decode(stream).msg)
    ensures Encode(Decode(stream).msg) == stream[..Decode(stream).used]
  {
    var r := Decode(stream);
    assert CharByte(SignedChar(stream[0])) == stream[0];
    assert CharByte(SignedChar(stream[1])) == stream[1];
    assert CharByte(SignedChar(stream[2])) == stream[2];
    assert stream[..r.used] == stream[..HEADER_LEN] + stream[HEADER_LEN..r.used];
  }

  /** `sm_send`: offer the unsent rest of the buffer to the socket until all `len` bytes
      are out. `accepts[k]` is how many bytes the k-th `send` call would take; a value
      <= 0 is a failed call. Returns 0 exactly when the whole buffer left, in order. */
  method Send(m: Msg, accepts: seq<int>) returns (status: int, emitted: seq<Byte>)
    requires WellFormed(m)
    ensures status == 0 || status == 1
    ensures emitted <= Encode(m)
    ensures status == 0 <==> |emitted| == m.len
    ensures status == 0 <==> emitted == Encode(m)
    ensures |accepts| >= m.len && (forall k :: 0 <= k < |accepts| ==> accepts[k] > 0) ==> status == 0
  {
    var buffer := Encode(m);
    var sent := 0;
    var k := 0;
    emitted := [];
    while sent < m.len
      invariant 0 <= sent <= m.len && 0 <= k <= |accepts|
      invariant emitted == buffer[..sent]
      invariant (forall j :: 0 <= j < |accepts| ==> accepts[j] > 0) ==> sent >= k
    {
      if k == |accepts| || accepts[k] <= 0 {
        break;
      }
      var bytes := if accepts[k] < m.len - sent then accepts[k] else m.len - sent;
      emitted := emitted + buffer[sent..sent + bytes];
      assert emitted == buffer[..sent + bytes];
      sent := sent + bytes;
      k := k + 1;
    }
    status := if sent != m.len then 1 else 0;
    assert sent == m.len ==> emitted == buffer;
  }

  /** `sm_recv`: read the header in full, then loop reading the body until
      `len - HEADER_LEN` bytes have arrived. `stream` is everything the peer sends
      before closing; `chunks[k]` is the most bytes the k-th body `recv` delivers
      (<= 0: the call fails; once `chunks` is used up, a call delivers all that is asked).
      The message is the one Decode reads off the stream, however the body is split. */
  method Recv(stream: seq<Byte>, chunks: seq<int>) returns (r: RecvResult)
    ensures r == Decode(stream) || r == Failed(RecvFailed)
    ensures (forall k :: 0 <= k < |chunks| ==> chunks[k] > 0) ==> r == Decode(stream)
  {
    if |stream| == 0 {
      return Failed(Closed);
    }
    if |stream| < HEADER_LEN {
      return Failed(Truncated);
    }
    var header := stream[..HEADER_LEN];
    var mtype, len, nid := SignedChar(header[0]), SignedChar(header[1]), SignedChar(header[2]);
    var want := BodyLength(len);
    var body: seq<Byte> := [];
    var recvd := 0;
    var k := 0;
    while recvd < want
      invariant 0 <= recvd <= want && recvd <= |stream| - HEADER_LEN
      invariant body == stream[HEADER_LEN..HEADER_LEN + recvd]
    {
      var ask := if k < |chunks| then chunks[k] else want - recvd;
      if ask <= 0 {
        return Failed(RecvFailed);
      }
      var avail := |stream| - HEADER_LEN - recvd;
      if avail == 0 {
        return Failed(Truncated);
      }
      var bytes := if ask < want - recvd then ask else want - recvd;
      bytes := if bytes < avail then bytes else avail;
      body := body + stream[HEADER_LEN + recvd..HEADER_LEN + recvd + bytes];
      recvd := recvd + bytes;
      k := k + 1;
    }
    r := Received(Msg(mtype, len, nid, body), HEADER_LEN + want);
  }

  /** A message sent through a connection that makes progress is received unchanged,
      and the receiver consumes exactly its bytes. */
  method Transfer(m: Msg, accepts: seq<int>, rest: seq<Byte>, chunks: seq<int>)
      returns (status: int, r: RecvResult)
    requires WellFormed(m)
    requires |accepts| >= m.len && forall k :: 0 <= k < |accepts| ==> accepts[k] > 0
    requires forall k :: 0 <= k < |chunks| ==> chunks[k] > 0
    ensures status == 0 && r == Received(m, m.len)
  {
    var emitted;
    status, emitted := Send(m, accepts);
    r := Recv(emitted + rest, chunks);
    RoundTrip(m, rest);
  }
}
