/** The message record, its type codes and body formats, and the protocol constants
    shared by the allocator and its nodes. */
module Protocol {
  import opened Common

  /** message_header = {type, len, nid} */
  const HEADER_LEN: nat := 3
  /** Capacity of a message buffer, header included. */
  const SM_MSG_MAX: nat := 128
  /** The largest length the signed-char `len` field can announce. */
  const MAX_LEN: nat := SM_MSG_MAX - 1
  const MAX_BODY: nat := MAX_LEN - HEADER_LEN

  const SM_INIT: int := 0
  const SM_INIT_REPLY: int := 1
  const SM_EXIT: int := 2
  const SM_EXIT_REPLY: int := 3
  const SM_BARR: int := 4
  const SM_BARR_REPLY: int := 5
  const SM_ALOC: int := 6
  const SM_ALOC_REPLY: int := 7
  const SM_CAST: int := 8
  const SM_CAST_REPLY: int := 9
  const SM_READ: int := 10
  const SM_READ_REPLY: int := 11
  const SM_WRIT: int := 12
  const SM_WRIT_REPLY: int := 13

  /** Every type code, in the order the header lists them. */
  const TypeCodes: seq<int> := [SM_INIT, SM_INIT_REPLY, SM_EXIT, SM_EXIT_REPLY, SM_BARR,
    SM_BARR_REPLY, SM_ALOC, SM_ALOC_REPLY, SM_CAST, SM_CAST_REPLY, SM_READ, SM_READ_REPLY,
    SM_WRIT, SM_WRIT_REPLY]

  /** The codes a node sends to the allocator. */
  const RequestCodes: seq<int> := [SM_INIT, SM_EXIT, SM_BARR, SM_ALOC, SM_CAST, SM_READ, SM_WRIT]

  /** Configuration of the shared region and of the node population. */
  const SM_PAGESIZE: nat := 1024
  const SM_MAX_PAGES: nat := 1000
  const SM_MAX_NODES: nat := 16

  /** The sender id the allocator puts on its own messages. */
  const ALLOCATOR_NID: int := -1

  predicate IsRequest(t: int) {
    t in RequestCodes
  }

  /** The code of the acknowledgement that answers request code `t`. */
  function ReplyType(t: int): (r: int)
    requires IsRequest(t)
    ensures r in TypeCodes && !IsRequest(r)
    ensures r % 2 == 1 && r - 1 == t
  {
    t + 1
  }

  /** The code table: fourteen distinct codes 0..13, requests even, replies odd. */
  lemma CodeTable()
    ensures |TypeCodes| == 14
    ensures forall k :: 0 <= k < |TypeCodes| ==> TypeCodes[k] == k
    ensures forall t :: IsRequest(t) <==> t in TypeCodes && t % 2 == 0
  {
    forall t | t in TypeCodes && t % 2 == 0 ensures IsRequest(t) {
      var k :| 0 <= k < |TypeCodes| && TypeCodes[k] == t;
    }
  }

  /** A message as it sits in a `msg_t`: the three header fields and the body bytes. */
  datatype Msg = Msg(mtype: int, len: int, nid: int, body: seq<Byte>)

  /** A char header field: a signed char. */
  predicate IsChar(v: int) {
    -128 <= v < 128
  }

  /** A message the codec can carry: each header field fits its char, `len` counts
      the header and the body, and so the message is at most 127 bytes long. */
  predicate WellFormed(m: Msg) {
    && IsChar(m.mtype)
    && IsChar(m.nid)
    && m.len == HEADER_LEN + |m.body|
    && m.len <= MAX_LEN
  }

  /** Builds the message a caller of `sm_msg_create` asks for. */
  function Make(mtype: int, nid: int, body: seq<Byte>): (m: Msg)
    requires IsChar(mtype) && IsChar(nid) && |body| <= MAX_BODY
    ensures WellFormed(m)
    ensures m.mtype == mtype && m.nid == nid && m.body == body
  {
    Msg(mtype, HEADER_LEN + |body|, nid, body)
  }

  /** A message from the allocator: sender id -1. */
  function Reply(t: int, body: seq<Byte>): (m: Msg)
    requires IsChar(t) && |body| <= MAX_BODY
    ensures WellFormed(m) && m.nid == ALLOCATOR_NID && m.mtype == t && m.body == body
  {
    Make(t, ALLOCATOR_NID, body)
  }

  /** The one-byte truncation a `char` body field applies to an int. */
  function ToByte(v: int): (b: Byte)
    ensures (b - v) % 256 == 0
  {
    v % 256
  }

  // Body formats as the header documents them.

  /** A body of one char field: INIT_REPLY {nid}, ALOC {size}, ALOC_REPLY {offset},
      CAST_REPLY {value}. */
  function ByteBody(v: Byte): seq<Byte> {
    [v]
  }

  /** CAST {root_nid, value} */
  function CastBody(root: Byte, value: Byte): seq<Byte> {
    [root, value]
  }

  /** The requested size of an ALOC request: body byte 0, when there is one. */
  function AllocSize(m: Msg): Option<Byte> {
    if |m.body| >= 1 then Some(m.body[0]) else None
  }

  /** The root and the value of a CAST request: body bytes 0 and 1. */
  function CastFields(m: Msg): Option<(Byte, Byte)> {
    if |m.body| >= 2 then Some((m.body[0], m.body[1])) else None
  }

  /** The fields read back from each body format are the ones it was built from, and
      the bodies without fields leave a bare header. */
  lemma BodyFormatsRoundTrip(nid: int, size: Byte, root: Byte, value: Byte)
    requires IsChar(nid)
    ensures AllocSize(Make(SM_ALOC, nid, ByteBody(size))) == Some(size)
    ensures CastFields(Make(SM_CAST, nid, CastBody(root, value))) == Some((root, value))
    ensures AllocSize(Make(SM_ALOC, nid, [])) == None
    ensures CastFields(Make(SM_CAST, nid, ByteBody(root))) == None
    ensures Make(SM_INIT, nid, []).len == HEADER_LEN
    ensures Make(SM_EXIT, nid, []).len == HEADER_LEN
    ensures Make(SM_BARR, nid, []).len == HEADER_LEN
  {
  }
}
