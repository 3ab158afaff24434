/** The TiMS router frame: constants, header record, and its 16-byte little-endian image. */
module Protocol {
  import opened Bytes

  const MSG_OK: Int8 := 0
  const MSG_ERROR: Int8 := -1
  const MSG_ROUTER_MBX_INIT_WITH_REPLY: Int8 := 13
  const MSG_ROUTER_MBX_DELETE: Int8 := 14
  const MSG_ROUTER_GET_STATUS: Int8 := 17
  const MSG_ROUTER_DISABLE_WATCHDOG: Int8 := 19
  const MSG_ROUTER_PEER_HELLO: Int8 := 20
  const MSG_ROUTER_PEER_REGISTER: Int8 := 21
  const MSG_ROUTER_PEER_DELETE: Int8 := 22
  const FRAME_LE_FLAG: Byte := 3
  const HEADER_SIZE := 16
  const MBX_PAYLOAD_SIZE := 4
  const WIRE_HEADER_SIZE := 32

  datatype FrameHeader = FrameHeader(
    flags: Byte, typ: Int8, priority: Byte, seqNr: Byte, dest: Word, src: Word, msglen: Word)

  function MakeFrame(typ: Int8, dest: Word, src: Word, priority: Byte, seqNr: Byte, bodyLen: Word): FrameHeader {
    FrameHeader(FRAME_LE_FLAG, typ, priority, seqNr, dest, src, (HEADER_SIZE + bodyLen) % 0x1_0000_0000)
  }

  /** Length of the body that follows a header: every reader clamps short lengths to an empty body. */
  function BodyLen(h: FrameHeader): nat {
    if h.msglen > HEADER_SIZE then h.msglen - HEADER_SIZE else 0
  }

  function PutHeader(h: FrameHeader): (s: seq<Byte>)
    ensures |s| == HEADER_SIZE
  {
    [h.flags, PutInt8(h.typ), h.priority, h.seqNr] + PutWord(h.dest) + PutWord(h.src) + PutWord(h.msglen)
  }

  function GetHeader(s: seq<Byte>): FrameHeader
    requires |s| >= HEADER_SIZE
  {
    FrameHeader(s[0], GetInt8(s[1]), s[2], s[3], GetWord(s[4..]), GetWord(s[8..]), GetWord(s[12..]))
  }

  /** Where each field is: flags, type, priority and sequence number in bytes 0 to 3, dest at 4, src at 8, length at 12. */
  lemma HeaderLayout(h: FrameHeader)
    ensures var s := PutHeader(h);
            && |s| == 16 && s[0] == h.flags && (s[1] - h.typ) % 0x100 == 0 && s[2] == h.priority && s[3] == h.seqNr
            && WordAt(s, 4) == h.dest && WordAt(s, 8) == h.src && WordAt(s, 12) == h.msglen
  {
    WordBytes(h.dest);
    WordBytes(h.src);
    WordBytes(h.msglen);
    Int8Bytes(h.typ);
    var s := PutHeader(h);
    assert s[4..8] == PutWord(h.dest) && s[8..12] == PutWord(h.src) && s[12..16] == PutWord(h.msglen);
    assert forall k :: 0 <= k < 4 ==> s[4 + k] == s[4..8][k] && s[8 + k] == s[8..12][k] && s[12 + k] == s[12..16][k];
  }

  /** A built frame is little-endian, carries the fields given, and counts its header in its length. */
  lemma FrameFields(typ: Int8, dest: Word, src: Word, priority: Byte, seqNr: Byte, bodyLen: Word)
    requires bodyLen < 0x1_0000_0000 - 16
    ensures MakeFrame(typ, dest, src, priority, seqNr, bodyLen)
         == FrameHeader(3, typ, priority, seqNr, dest, src, 16 + bodyLen)
    ensures BodyLen(MakeFrame(typ, dest, src, priority, seqNr, bodyLen)) == bodyLen
  {
  }

  lemma HeaderRoundTrip(h: FrameHeader, rest: seq<Byte>)
    ensures GetHeader(PutHeader(h) + rest) == h
  {
    var s := PutHeader(h) + rest;
    assert s[4..] == PutWord(h.dest) + (PutWord(h.src) + PutWord(h.msglen) + rest);
    assert s[8..] == PutWord(h.src) + (PutWord(h.msglen) + rest);
    assert s[12..] == PutWord(h.msglen) + rest;
    WordRoundTrip(h.dest, PutWord(h.src) + PutWord(h.msglen) + rest);
    WordRoundTrip(h.src, PutWord(h.msglen) + rest);
    WordRoundTrip(h.msglen, rest);
  }
}
