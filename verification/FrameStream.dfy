/** Frames as a byte stream: writing and reading them through sockets that transfer any number of bytes per call. */
module FrameStream {
  import opened Bytes
  import opened Protocol

  datatype Frame = Frame(head: FrameHeader, body: seq<Byte>)

  /** The body is as long as the header says. */
  ghost predicate WellFormed(f: Frame) { |f.body| == BodyLen(f.head) }

  function Encode(f: Frame): seq<Byte> { PutHeader(f.head) + f.body }

  function EncodeAll(fs: seq<Frame>): seq<Byte> {
    if fs == [] then [] else Encode(fs[0]) + EncodeAll(fs[1..])
  }

  lemma {:induction false} EncodeConcat(fs: seq<Frame>, gs: seq<Frame>)
    ensures EncodeAll(fs + gs) == EncodeAll(fs) + EncodeAll(gs)
  {
    if fs == [] {
      assert fs + gs == gs;
    } else {
      assert (fs + gs)[1..] == fs[1..] + gs;
      EncodeConcat(fs[1..], gs);
    }
  }

  lemma PrefixGrows(data: seq<Byte>, i: nat, n: nat)
    requires i + n <= |data|
    ensures data[..i + n] == data[..i] + data[i..][..n]
  {
    var a, b := data[..i + n], data[..i] + data[i..][..n];
    assert |a| == |b|;
    forall k | 0 <= k < |a|
      ensures a[k] == b[k]
    {
    }
  }

  // ------------------------------------------------------------------ sockets

  /** A connected stream socket: bytes that will arrive before the peer closes, bytes sent, and how many more bytes
      can be sent before the connection fails.  Each call transfers any positive number of bytes. */
  class TcpSocket {
    var open: bool
    var incoming: seq<Byte>
    var outgoing: seq<Byte>
    var room: nat

    constructor (incoming: seq<Byte>, room: nat)
      ensures open && this.incoming == incoming && outgoing == [] && this.room == room
    {
      open, this.incoming, outgoing, this.room := true, incoming, [], room;
    }

    /** ::send: 1 up to |data| bytes, or -1 */
    method Send(data: seq<Byte>) returns (n: int)
      requires data != []
      modifies this`outgoing, this`room
      ensures n <= |data| && (n > 0 <==> open && old(room) > 0)
      ensures n > 0 ==> n <= old(room) && room == old(room) - n && outgoing == old(outgoing) + data[..n]
      ensures n <= 0 ==> room == old(room) && outgoing == old(outgoing)
    {
      if !open || room == 0 {
        return -1;
      }
      n :| 1 <= n <= (if |data| <= room then |data| else room);
      room, outgoing := room - n, outgoing + data[..n];
    }

    /** ::recv: 1 up to len bytes, or 0 at the end of the stream */
    method Recv(len: nat) returns (n: int, data: seq<Byte>)
      requires len > 0
      modifies this`incoming
      ensures n <= len && (n > 0 <==> open && old(incoming) != [])
      ensures n > 0 ==> n == |data| && old(incoming) == data + incoming
      ensures n <= 0 ==> incoming == old(incoming)
    {
      if !open || incoming == [] {
        return 0, [];
      }
      n :| 1 <= n <= (if len <= |incoming| then len else |incoming|);
      data, incoming := incoming[..n], incoming[n..];
    }

    method SendAll(data: seq<Byte>) returns (ok: bool)
      modifies this`outgoing, this`room
      ensures ok <==> data == [] || (open && |data| <= old(room))
      ensures ok ==> outgoing == old(outgoing) + data && room == old(room) - |data|
      ensures !ok ==> outgoing == old(outgoing) + if open then data[..old(room)] else []
    {
      var sent := 0;
      assert data[..0] == [];
      while sent < |data|
        invariant 0 <= sent <= |data|
        invariant sent > 0 ==> open
        invariant sent <= old(room) && room == old(room) - sent && outgoing == old(outgoing) + data[..sent]
      {
        var n := Send(data[sent..]);
        if n <= 0 {
          return false;
        }
        PrefixGrows(data, sent, n);
        sent := sent + n;
      }
      assert data[..|data|] == data;
      ok := true;
    }

    /** However the bytes are split over calls, all of them arrive or the stream ended first. */
    method RecvAll(len: nat) returns (ok: bool, data: seq<Byte>)
      modifies this`incoming
      ensures ok <==> len == 0 || (open && len <= |old(incoming)|)
      ensures ok ==> data == old(incoming)[..len] && incoming == old(incoming)[len..]
      ensures !ok ==> incoming == if open then [] else old(incoming)
    {
      data := [];
      while |data| < len
        invariant |data| <= len && old(incoming) == data + incoming
        invariant |data| > 0 ==> open
      {
        var n, chunk := Recv(len - |data|);
        if n <= 0 {
          return false, data;
        }
        data := data + chunk;
      }
      ok := true;
    }
  }

  // ------------------------------------------------------------------ what a reader makes of a stream

  datatype Metadata = Metadata(src: Word, dest: Word, seqNr: Byte, priority: Byte, flags: Byte)

  datatype Outcome = Got(body: seq<Byte>, meta: Metadata) | TimedOut | Failed | TooBig

  /** The byte-order conversion of the body's wire header is a library routine: any function stands for it.  It
      applies to bodies that hold a wire header and whose frame does not carry a little-endian flag bit. */
  function Converted(swap: seq<Byte> -> seq<Byte>, h: FrameHeader, body: seq<Byte>): seq<Byte> {
    if |body| >= WIRE_HEADER_SIZE && h.flags % 4 == 0 then swap(body) else body
  }

  function MetaOf(h: FrameHeader): Metadata { Metadata(h.src, h.dest, h.seqNr, h.priority, h.flags) }

  function StatusReply(h: FrameHeader, me: Word): FrameHeader { MakeFrame(MSG_OK, h.src, me, 0, 0, 0) }

  /** The answer to a probe, field by field: MSG_OK from this mailbox to the prober, with no body. */
  lemma StatusReplyFields(h: FrameHeader, me: Word)
    ensures StatusReply(h, me) == FrameHeader(3, 0, 0, 0, h.src, me, 16)
  {
  }

  datatype Reading = Reading(outcome: Outcome, rest: seq<Byte>, replies: seq<FrameHeader>)

  /** One receive_raw call on the bytes s: its outcome, the bytes left unread, the status answers it sends. */
  function Receive(swap: seq<Byte> -> seq<Byte>, s: seq<Byte>, buffer: nat, me: Word): Reading
    decreases |s|
  {
    if s == [] then Reading(TimedOut, [], [])
    else if |s| < HEADER_SIZE then Reading(Failed, [], [])
    else
      var h, t := GetHeader(s), s[HEADER_SIZE..];
      if h.typ == MSG_ROUTER_GET_STATUS then
        var r := Receive(swap, t, buffer, me);
        r.(replies := [StatusReply(h, me)] + r.replies)
      else if h.msglen <= HEADER_SIZE then Receive(swap, t, buffer, me)
      else if BodyLen(h) > buffer then Reading(TooBig, t, [])
      else if |t| < BodyLen(h) then Reading(Failed, [], [])
      else Reading(Got(Converted(swap, h, t[..BodyLen(h)]), MetaOf(h)), t[BodyLen(h)..], [])
  }

  /** Successive calls until one does not return a message. */
  function ReceiveAll(swap: seq<Byte> -> seq<Byte>, s: seq<Byte>, buffer: nat, me: Word): (r: (seq<Outcome>, Reading))
    decreases |s|
  {
    var r := Receive(swap, s, buffer, me);
    if r.outcome.Got? then
      ReceiveShrinks(swap, s, buffer, me);
      var (os, last) := ReceiveAll(swap, r.rest, buffer, me);
      ([r.outcome] + os, last.(replies := r.replies + last.replies))
    else ([], r)
  }

  lemma {:induction false} ReceiveShrinks(swap: seq<Byte> -> seq<Byte>, s: seq<Byte>, buffer: nat, me: Word)
    ensures Receive(swap, s, buffer, me).outcome.Got? ==> |Receive(swap, s, buffer, me).rest| < |s|
    decreases |s|
  {
    if |s| >= HEADER_SIZE { ReceiveShrinks(swap, s[HEADER_SIZE..], buffer, me); }
  }

  // ------------------------------------------------------------------ round trip

  /** The reader leaves exactly this frame behind: status probes carry no body, and bodies fit the buffer. */
  predicate InSync(f: Frame, buffer: nat) {
    if f.head.typ == MSG_ROUTER_GET_STATUS then f.body == [] else |f.body| <= buffer
  }

  predicate LittleEndian(f: Frame) { f.head.flags % 4 != 0 }

  /** What a reader is expected to hand out for a sequence of frames, and the probes it is expected to answer. */
  function Deliveries(fs: seq<Frame>): seq<Outcome> {
    if fs == [] then []
    else if fs[0].head.typ == MSG_ROUTER_GET_STATUS || fs[0].body == [] then Deliveries(fs[1..])
    else [Got(fs[0].body, MetaOf(fs[0].head))] + Deliveries(fs[1..])
  }

  function Answers(fs: seq<Frame>, me: Word): seq<FrameHeader> {
    if fs == [] then []
    else if fs[0].head.typ == MSG_ROUTER_GET_STATUS then [StatusReply(fs[0].head, me)] + Answers(fs[1..], me)
    else Answers(fs[1..], me)
  }

  lemma EncodedHead(f: Frame, rest: seq<Byte>)
    ensures |Encode(f) + rest| >= HEADER_SIZE && GetHeader(Encode(f) + rest) == f.head
    ensures (Encode(f) + rest)[HEADER_SIZE..] == f.body + rest
  {
    HeaderRoundTrip(f.head, f.body + rest);
    assert Encode(f) + rest == PutHeader(f.head) + (f.body + rest);
  }

  /** A frame with a message that fits is received whole, with the fields of its header as metadata, and nothing more
      is read.  Its bytes are as sent, except that a body with a wire header and no little-endian flag is converted. */
  lemma FrameReceived(swap: seq<Byte> -> seq<Byte>, f: Frame, rest: seq<Byte>, buffer: nat, me: Word)
    requires WellFormed(f) && f.head.typ != MSG_ROUTER_GET_STATUS && 0 < |f.body| <= buffer
    ensures Receive(swap, Encode(f) + rest, buffer, me)
         == Reading(Got(if f.head.flags % 4 == 0 && |f.body| >= 32 then swap(f.body) else f.body,
                        Metadata(f.head.src, f.head.dest, f.head.seqNr, f.head.priority, f.head.flags)), rest, [])
  {
    EncodedHead(f, rest);
    assert (f.body + rest)[..|f.body|] == f.body && (f.body + rest)[|f.body|..] == rest;
  }

  /** A message longer than the buffer is reported as such; its header has been read and its body has not. */
  lemma FrameTooBig(swap: seq<Byte> -> seq<Byte>, f: Frame, rest: seq<Byte>, buffer: nat, me: Word)
    requires WellFormed(f) && f.head.typ != MSG_ROUTER_GET_STATUS && |f.body| > buffer
    ensures Receive(swap, Encode(f) + rest, buffer, me) == Reading(TooBig, f.body + rest, [])
  {
    EncodedHead(f, rest);
  }

  /** A stream that ends inside a frame is reported as failed, and one that is empty as timed out. */
  lemma FrameCutShort(swap: seq<Byte> -> seq<Byte>, f: Frame, k: nat, buffer: nat, me: Word)
    requires WellFormed(f) && InSync(f, buffer) && k < |Encode(f)|
    ensures Receive(swap, Encode(f)[..k], buffer, me) == Reading(if k == 0 then TimedOut else Failed, [], [])
  {
    var s := Encode(f)[..k];
    if k >= HEADER_SIZE {
      assert s == PutHeader(f.head) + f.body[..k - HEADER_SIZE];
      HeaderRoundTrip(f.head, f.body[..k - HEADER_SIZE]);
    }
  }

  /** For every sequence of frames, successive receives hand out exactly the nonempty non-status bodies, in order and
      with their metadata, answer each status probe once, and end with nothing unread. */
  lemma {:induction false} StreamRoundTrip(swap: seq<Byte> -> seq<Byte>, fs: seq<Frame>, buffer: nat, me: Word)
    requires forall i :: 0 <= i < |fs| ==> WellFormed(fs[i]) && InSync(fs[i], buffer) && LittleEndian(fs[i])
    ensures ReceiveAll(swap, EncodeAll(fs), buffer, me) == (Deliveries(fs), Reading(TimedOut, [], Answers(fs, me)))
  {
    if fs != [] {
      var f, s := fs[0], EncodeAll(fs[1..]);
      StreamRoundTrip(swap, fs[1..], buffer, me);
      EncodedHead(f, s);
      var r := ReceiveAll(swap, s, buffer, me);
      if f.head.typ == MSG_ROUTER_GET_STATUS || f.body == [] {
        assert f.body + s == s;
        SkippedFrame(swap, f, s, buffer, me);
      } else {
        FrameReceived(swap, f, s, buffer, me);
        assert [] + r.1.replies == r.1.replies;
      }
    }
  }

  /** What a frame without a message draws: a probe its answer, any other nothing. */
  function Drawn(f: Frame, me: Word): seq<FrameHeader> {
    if f.head.typ == MSG_ROUTER_GET_STATUS then [StatusReply(f.head, me)] else []
  }

  lemma SkippedOnce(swap: seq<Byte> -> seq<Byte>, f: Frame, s: seq<Byte>, buffer: nat, me: Word)
    requires WellFormed(f) && f.body == []
    ensures var r := Receive(swap, s, buffer, me);
            Receive(swap, Encode(f) + s, buffer, me) == r.(replies := Drawn(f, me) + r.replies)
  {
    EncodedHead(f, s);
    assert [] + s == s;
    var r := Receive(swap, s, buffer, me);
    assert [] + r.replies == r.replies;
  }

  /** The calls after a first one, and all their outcomes together. */
  function Onward(swap: seq<Byte> -> seq<Byte>, r: Reading, buffer: nat, me: Word): (seq<Outcome>, Reading) {
    if r.outcome.Got? then
      var (os, last) := ReceiveAll(swap, r.rest, buffer, me);
      ([r.outcome] + os, last.(replies := r.replies + last.replies))
    else ([], r)
  }

  lemma AllIsOnward(swap: seq<Byte> -> seq<Byte>, s: seq<Byte>, buffer: nat, me: Word)
    ensures ReceiveAll(swap, s, buffer, me) == Onward(swap, Receive(swap, s, buffer, me), buffer, me)
  {
  }

  lemma AnswersInFront(swap: seq<Byte> -> seq<Byte>, r: Reading, hs: seq<FrameHeader>, buffer: nat, me: Word)
    ensures var a, b := Onward(swap, r.(replies := hs + r.replies), buffer, me), Onward(swap, r, buffer, me);
            a.0 == b.0 && a.1 == b.1.(replies := hs + b.1.replies)
  {
    if r.outcome.Got? {
      var more := ReceiveAll(swap, r.rest, buffer, me);
      assert (hs + r.replies) + more.1.replies == hs + (r.replies + more.1.replies);
    }
  }

  /** A frame without a message is passed over; a probe leaves its answer in front. */
  lemma SkippedFrame(swap: seq<Byte> -> seq<Byte>, f: Frame, s: seq<Byte>, buffer: nat, me: Word)
    requires WellFormed(f) && f.body == []
    ensures var a, b := ReceiveAll(swap, Encode(f) + s, buffer, me), ReceiveAll(swap, s, buffer, me);
            a.0 == b.0 && a.1 == b.1.(replies := Drawn(f, me) + b.1.replies)
  {
    var t := Encode(f) + s;
    SkippedOnce(swap, f, s, buffer, me);
    AllIsOnward(swap, t, buffer, me);
    AllIsOnward(swap, s, buffer, me);
    AnswersInFront(swap, Receive(swap, s, buffer, me), Drawn(f, me), buffer, me);
  }

  /** How many bytes the reader takes for the first frame of a stream. */
  function Consumed(s: seq<Byte>, buffer: nat): nat
    requires |s| >= HEADER_SIZE
  {
    var h := GetHeader(s);
    if h.typ == MSG_ROUTER_GET_STATUS || BodyLen(h) > buffer then HEADER_SIZE else HEADER_SIZE + BodyLen(h)
  }

  /** Consumed is where receive_raw goes on: a frame without a message makes it read on from there, any other frame
      ends the call there. */
  lemma ReceiveConsumes(swap: seq<Byte> -> seq<Byte>, s: seq<Byte>, buffer: nat, me: Word)
    requires |s| >= HEADER_SIZE && |s| >= Consumed(s, buffer)
    ensures var h, r, t := GetHeader(s), Receive(swap, s, buffer, me), s[Consumed(s, buffer)..];
            if h.typ == MSG_ROUTER_GET_STATUS then
              var r' := Receive(swap, t, buffer, me);
              r == r'.(replies := [StatusReply(h, me)] + r'.replies)
            else if BodyLen(h) == 0 then r == Receive(swap, t, buffer, me)
            else r.rest == t && (r.outcome.Got? || r.outcome.TooBig?)
  {
  }

  /** The condition is exact: the reader stays aligned with the frames if and only if the frame is in sync. */
  lemma AlignedIff(f: Frame, rest: seq<Byte>, buffer: nat)
    requires WellFormed(f)
    ensures |Encode(f) + rest| >= HEADER_SIZE
    ensures Consumed(Encode(f) + rest, buffer) == |Encode(f)| <==> InSync(f, buffer)
  {
    EncodedHead(f, rest);
  }
}
