/** The TCP mailbox: sending and receiving messages as frames, against the stream they travel in. */
module TimsMailbox {
  import opened Bits
  import opened Bytes
  import opened Protocol
  import opened FrameStream

  datatype Result = Success | NotInitialized | InvalidMessage | SendFailed

  datatype Config = Config(mailboxId: Word, priority: Word, maxMsgSize: nat)

  /** The frame of the n-th message a mailbox sends: its priority and counter are cut to a byte. */
  function DataFrame(cfg: Config, n: Word, dest: Word, data: seq<Byte>): Frame {
    Frame(MakeFrame(0, dest, cfg.mailboxId, cfg.priority % 0x100, n % 0x100, |data| % 0x1_0000_0000), data)
  }

  class Mailbox {
    const cfg: Config
    const socket: TcpSocket
    var initialized: bool
    var sequenceNumber: Word
    var sent: nat
    var received: nat

    constructor (cfg: Config, socket: TcpSocket)
      ensures this.cfg == cfg && this.socket == socket && initialized && sequenceNumber == 0
    {
      this.cfg, this.socket := cfg, socket;
      initialized, sequenceNumber, sent, received := true, 0, 0, 0;
    }

    /** send_raw(): the counter advances once the message is accepted for sending, sent or not. */
    method SendRaw(data: seq<Byte>, dest: Word) returns (r: Result)
      modifies this`sequenceNumber, this`sent, socket`outgoing, socket`room
      ensures r.NotInitialized? <==> !(initialized && socket.open)
      ensures r.InvalidMessage? <==> initialized && socket.open && (data == [] || |data| > cfg.maxMsgSize)
      ensures var f := DataFrame(cfg, old(sequenceNumber), dest, data);
              match r
              case Success =>
                && socket.outgoing == old(socket.outgoing) + Encode(f)
                && socket.room == old(socket.room) - |Encode(f)|
                && sequenceNumber == (old(sequenceNumber) + 1) % 0x1_0000_0000 && sent == old(sent) + 1
              case SendFailed =>
                && old(socket.room) < |Encode(f)| && sent == old(sent)
                && sequenceNumber == (old(sequenceNumber) + 1) % 0x1_0000_0000
                && socket.outgoing == old(socket.outgoing) + Encode(f)[..old(socket.room)]
              case _ =>
                socket.outgoing == old(socket.outgoing) && sequenceNumber == old(sequenceNumber) && sent == old(sent)
    {
      if !initialized || !socket.open {
        return NotInitialized;
      }
      if data == [] || |data| > cfg.maxMsgSize {
        return InvalidMessage;
      }
      ghost var f := DataFrame(cfg, sequenceNumber, dest, data);
      var h := MakeFrame(0, dest, cfg.mailboxId, cfg.priority % 0x100, sequenceNumber % 0x100, |data| % 0x1_0000_0000);
      sequenceNumber := (sequenceNumber + 1) % 0x1_0000_0000;
      var ok := socket.SendAll(PutHeader(h));
      if !ok {
        assert Encode(f)[..old(socket.room)] == PutHeader(h)[..old(socket.room)];
        return SendFailed;
      }
      ok := socket.SendAll(data);
      if !ok {
        assert Encode(f)[..old(socket.room)] == PutHeader(h) + data[..old(socket.room) - HEADER_SIZE];
        return SendFailed;
      }
      sent := sent + 1;
      r := Success;
    }

    /** The loop body of receive_raw(): one frame, which ends the call or lets it read on. */
    method ReadFrame(swap: seq<Byte> -> seq<Byte>, buffer: nat)
      returns (done: bool, o: Outcome, ghost reply: seq<FrameHeader>)
      requires socket.open
      modifies socket`incoming, socket`outgoing, socket`room
      ensures var s := old(socket.incoming);
              if done then
                Receive(swap, s, buffer, cfg.mailboxId) == Reading(o, socket.incoming, []) && reply == []
              else
                && |socket.incoming| < |s| && |reply| <= 1
                && Receive(swap, s, buffer, cfg.mailboxId)
                   == Prefixed(reply, Receive(swap, socket.incoming, buffer, cfg.mailboxId))
      ensures Answered(old(socket.room), old(socket.outgoing), socket.room, socket.outgoing, reply)
    {
      ghost var s := socket.incoming;
      done, o, reply := true, TimedOut, [];
      if socket.incoming == [] {
        return;
      }
      var ok, bytes := socket.RecvAll(HEADER_SIZE);
      if !ok {
        return true, Failed, [];
      }
      var frame := GetHeader(bytes);
      SameHeader(s);
      if frame.typ == MSG_ROUTER_GET_STATUS {
        var h := StatusReply(frame, cfg.mailboxId);
        var _ := socket.SendAll(PutHeader(h));
        reply := [h];
        assert [h][..0] == [];
        done := false;
        return;
      }
      if frame.msglen <= HEADER_SIZE {
        done := false;
        return;
      }
      var bodyLen := frame.msglen - HEADER_SIZE;
      if bodyLen > buffer {
        return true, TooBig, [];
      }
      var body;
      ok, body := socket.RecvAll(bodyLen);
      o := if ok then Got(Converted(swap, frame, body), MetaOf(frame)) else Failed;
    }

    /** receive_raw(): reads whole frames until one carries a message.  Status answers are sent best-effort: as long as
        the connection has room for them all, each probe is answered once. */
    method ReceiveRaw(swap: seq<Byte> -> seq<Byte>, buffer: nat) returns (o: Outcome, ghost replies: seq<FrameHeader>)
      modifies this`received, socket`incoming, socket`outgoing, socket`room
      ensures !(initialized && socket.open) ==>
                o == Failed && socket.incoming == old(socket.incoming) && socket.outgoing == old(socket.outgoing)
      ensures initialized && socket.open ==>
                Receive(swap, old(socket.incoming), buffer, cfg.mailboxId) == Reading(o, socket.incoming, replies)
      ensures initialized && socket.open ==>
                Answered(old(socket.room), old(socket.outgoing), socket.room, socket.outgoing, replies)
      ensures received == old(received) + if o.Got? then 1 else 0
    {
      replies := [];
      if !initialized || !socket.open {
        return Failed, replies;
      }
      ghost var goal := Receive(swap, socket.incoming, buffer, cfg.mailboxId);
      ghost var left := goal;
      while true
        invariant received == old(received)
        invariant goal == Prefixed(replies, left) && left == Receive(swap, socket.incoming, buffer, cfg.mailboxId)
        invariant Answered(old(socket.room), old(socket.outgoing), socket.room, socket.outgoing, replies)
        decreases |socket.incoming|
      {
        var done;
        ghost var reply;
        ghost var room, outgoing := socket.room, socket.outgoing;
        done, o, reply := ReadFrame(swap, buffer);
        if done {
          if o.Got? {
            received := received + 1;
          }
          return;
        }
        left := Receive(swap, socket.incoming, buffer, cfg.mailboxId);
        PrefixedAppend(replies, reply, left);
        AnsweredMore(old(socket.room), old(socket.outgoing), room, outgoing, socket.room, socket.outgoing, replies, reply);
        replies := replies + reply;
      }
    }

    /** The first n messages have been sent, since the counter stood at `first` and the socket at `out` and `room`. */
    ghost predicate SentSoFar(ms: seq<Sent>, n: nat, first: Word, out: seq<Byte>, room: nat)
      requires n <= |ms|
      reads this, socket
    {
      && sequenceNumber == (first + n) % 0x1_0000_0000
      && socket.outgoing == out + Wire(cfg, first, ms, n) && socket.room + |Wire(cfg, first, ms, n)| == room
    }

    method SendNext(ms: seq<Sent>, n: nat, ghost first: Word, ghost out: seq<Byte>, ghost room: nat) returns (ok: bool)
      requires n < |ms| && SentSoFar(ms, n, first, out, room)
      modifies this`sequenceNumber, this`sent, socket`outgoing, socket`room
      ensures ok <==> && initialized && socket.open && 0 < |ms[n].data| <= cfg.maxMsgSize
                      && |Wire(cfg, first, ms, n + 1)| <= room
      ensures ok ==> SentSoFar(ms, n + 1, first, out, room)
    {
      ghost var wire, more := Wire(cfg, first, ms, n), Encode(DataFrame(cfg, sequenceNumber, ms[n].dest, ms[n].data));
      WireGrows(cfg, first, ms, n);
      CountsOn(first + n);
      var r := SendRaw(ms[n].data, ms[n].dest);
      ok := r.Success?;
      assert ok ==> socket.outgoing == out + wire + more;
      assert out + wire + more == out + (wire + more);
    }

    /** A client that sends messages one after the other, until one fails. */
    method SendMany(ms: seq<Sent>) returns (n: nat)
      modifies this`sequenceNumber, this`sent, socket`outgoing, socket`room
      ensures n <= |ms|
      ensures n == |ms| ==> socket.outgoing == old(socket.outgoing) + EncodeAll(Frames(cfg, old(sequenceNumber), ms))
      ensures n == |ms| <==> ms == [] || (&& initialized && socket.open && AllValid(ms, cfg.maxMsgSize)
                                          && |EncodeAll(Frames(cfg, old(sequenceNumber), ms))| <= old(socket.room))
    {
      n := 0;
      ghost var first, out, room := sequenceNumber, socket.outgoing, socket.room;
      assert ms[..|ms|] == ms;
      while n < |ms|
        invariant n <= |ms| && SentSoFar(ms, n, first, out, room)
        invariant n > 0 ==> initialized && socket.open
        invariant AllValid(ms[..n], cfg.maxMsgSize)
      {
        WireGrows(cfg, first, ms, n);
        var ok := SendNext(ms, n, first, out, room);
        if !ok {
          return;
        }
        n := n + 1;
      }
    }

    /** A client that receives until a call does not return a message. */
    method ReceiveMany(swap: seq<Byte> -> seq<Byte>, buffer: nat)
      returns (os: seq<Outcome>, last: Outcome, ghost replies: seq<FrameHeader>)
      modifies this`received, socket`incoming, socket`outgoing, socket`room
      ensures initialized && socket.open ==>
                ReceiveAll(swap, old(socket.incoming), buffer, cfg.mailboxId) == (os, Reading(last, socket.incoming, replies))
      ensures !(initialized && socket.open) ==> os == [] && last == Failed
      ensures received == old(received) + |os|
    {
      os, replies := [], [];
      ghost var up, s0, me := initialized && socket.open, socket.incoming, cfg.mailboxId;
      ContinuesAtStart(swap, s0, buffer, me);
      while true
        invariant received == old(received) + |os|
        invariant up == (initialized && socket.open) && (!up ==> os == [])
        invariant up ==> Continues(swap, s0, buffer, me, os, replies, socket.incoming)
        decreases |socket.incoming|
      {
        ghost var s := socket.incoming;
        ghost var answers;
        ReceiveShrinks(swap, s, buffer, me);
        last, answers := ReceiveRaw(swap, buffer);
        if up { ContinuesAfter(swap, s0, buffer, me, os, replies, s); }
        replies := replies + answers;
        if !last.Got? {
          return;
        }
        os := os + [last];
      }
    }
  }

  lemma SameHeader(s: seq<Byte>)
    requires |s| >= HEADER_SIZE
    ensures GetHeader(s[..HEADER_SIZE]) == GetHeader(s)
  {
    forall k | k in {4, 8, 12}
      ensures GetWord(s[..HEADER_SIZE][k..]) == GetWord(s[k..])
    {
    }
  }

  function Headers(hs: seq<FrameHeader>): seq<Byte> {
    if hs == [] then [] else Headers(hs[..|hs| - 1]) + PutHeader(hs[|hs| - 1])
  }

  /** If the connection had room for these answers, they have been sent, in order. */
  ghost predicate Answered(room: nat, out: seq<Byte>, room': nat, out': seq<Byte>, hs: seq<FrameHeader>) {
    HEADER_SIZE * |hs| <= room ==> out' == out + Headers(hs) && room' == room - HEADER_SIZE * |hs|
  }

  lemma AnsweredMore(r0: nat, o0: seq<Byte>, r1: nat, o1: seq<Byte>, r2: nat, o2: seq<Byte>,
                     hs: seq<FrameHeader>, more: seq<FrameHeader>)
    requires Answered(r0, o0, r1, o1, hs) && Answered(r1, o1, r2, o2, more) && |more| <= 1
    ensures Answered(r0, o0, r2, o2, hs + more)
  {
    HeadersAppend(hs, more);
    assert o0 + Headers(hs) + Headers(more) == o0 + (Headers(hs) + Headers(more));
  }

  lemma HeadersAppend(hs: seq<FrameHeader>, more: seq<FrameHeader>)
    requires |more| <= 1
    ensures Headers(hs + more) == Headers(hs) + Headers(more)
  {
    if more == [] {
      assert hs + more == hs;
    } else {
      assert (hs + more)[..|hs|] == hs && more[..0] == [];
    }
  }

  ghost function Prefixed(hs: seq<FrameHeader>, r: Reading): Reading { r.(replies := hs + r.replies) }

  lemma PrefixedAppend(hs: seq<FrameHeader>, more: seq<FrameHeader>, r: Reading)
    ensures Prefixed(hs + more, r) == Prefixed(hs, Prefixed(more, r))
  {
    assert hs + more + r.replies == hs + (more + r.replies);
  }

  /** After the outcomes os and the answers given so far, what is left of the stream s0 to receive is s. */
  ghost predicate Continues(swap: seq<Byte> -> seq<Byte>, s0: seq<Byte>, buffer: nat, me: Word,
                            os: seq<Outcome>, replies: seq<FrameHeader>, s: seq<Byte>)
  {
    var goal, more := ReceiveAll(swap, s0, buffer, me), ReceiveAll(swap, s, buffer, me);
    goal.0 == os + more.0 && goal.1 == Prefixed(replies, more.1)
  }

  lemma ContinuesAtStart(swap: seq<Byte> -> seq<Byte>, s0: seq<Byte>, buffer: nat, me: Word)
    ensures Continues(swap, s0, buffer, me, [], [], s0)
  {
    var goal := ReceiveAll(swap, s0, buffer, me);
    assert [] + goal.0 == goal.0 && [] + goal.1.replies == goal.1.replies;
  }

  /** One receive more. */
  lemma ContinuesAfter(swap: seq<Byte> -> seq<Byte>, s0: seq<Byte>, buffer: nat, me: Word,
                       os: seq<Outcome>, replies: seq<FrameHeader>, s: seq<Byte>)
    requires Continues(swap, s0, buffer, me, os, replies, s)
    ensures var r := Receive(swap, s, buffer, me);
            if r.outcome.Got? then Continues(swap, s0, buffer, me, os + [r.outcome], replies + r.replies, r.rest)
            else ReceiveAll(swap, s0, buffer, me) == (os, Prefixed(replies, r))
  {
    var goal, r := ReceiveAll(swap, s0, buffer, me), Receive(swap, s, buffer, me);
    if r.outcome.Got? {
      var more := ReceiveAll(swap, r.rest, buffer, me);
      PrefixedAppend(replies, r.replies, more.1);
      assert os + ([r.outcome] + more.0) == (os + [r.outcome]) + more.0;
    } else {
      assert os + [] == os;
      assert goal == (goal.0, goal.1);
    }
  }

  // ------------------------------------------------------------------ from one mailbox to another

  datatype Sent = Sent(dest: Word, data: seq<Byte>)

  ghost predicate AllValid(ms: seq<Sent>, maxMsgSize: nat) {
    forall i :: 0 <= i < |ms| ==> 0 < |ms[i].data| <= maxMsgSize
  }

  /** The frames of a run of successful sends by a mailbox whose counter stands at `first`. */
  function Frames(cfg: Config, first: Word, ms: seq<Sent>): seq<Frame> {
    seq(|ms|, i requires 0 <= i < |ms| => DataFrame(cfg, (first + i) % 0x1_0000_0000, ms[i].dest, ms[i].data))
  }

  /** What the receiver should see: the same data, with source, destination and the count modulo 256. */
  function Expected(cfg: Config, first: Word, ms: seq<Sent>): seq<Outcome> {
    seq(|ms|, i requires 0 <= i < |ms| =>
      Got(ms[i].data, Metadata(cfg.mailboxId, ms[i].dest, (first + i) % 0x100, cfg.priority % 0x100, FRAME_LE_FLAG)))
  }

  lemma CountsOn(x: nat)
    ensures (x % 0x1_0000_0000 + 1) % 0x1_0000_0000 == (x + 1) % 0x1_0000_0000
  {
  }

  /** The bytes of the first n messages. */
  ghost function Wire(cfg: Config, first: Word, ms: seq<Sent>, n: nat): seq<Byte>
    requires n <= |ms|
  {
    EncodeAll(Frames(cfg, first, ms[..n]))
  }

  /** One message more is one frame more, and no more bytes than all of them take. */
  lemma WireGrows(cfg: Config, first: Word, ms: seq<Sent>, n: nat)
    requires n < |ms|
    ensures Wire(cfg, first, ms, n + 1)
         == Wire(cfg, first, ms, n) + Encode(DataFrame(cfg, (first + n) % 0x1_0000_0000, ms[n].dest, ms[n].data))
    ensures |Wire(cfg, first, ms, n + 1)| <= |EncodeAll(Frames(cfg, first, ms))|
  {
    var f := DataFrame(cfg, (first + n) % 0x1_0000_0000, ms[n].dest, ms[n].data);
    var fs := Frames(cfg, first, ms);
    assert Frames(cfg, first, ms[..n + 1]) == Frames(cfg, first, ms[..n]) + [f];
    EncodeConcat(Frames(cfg, first, ms[..n]), [f]);
    assert EncodeAll([f]) == Encode(f) by { assert [f][1..] == []; }
    assert fs == Frames(cfg, first, ms[..n + 1]) + fs[n + 1..];
    EncodeConcat(Frames(cfg, first, ms[..n + 1]), fs[n + 1..]);
  }

  lemma {:induction false} AllDelivered(fs: seq<Frame>, me: Word)
    requires forall i :: 0 <= i < |fs| ==> fs[i].head.typ != MSG_ROUTER_GET_STATUS && fs[i].body != []
    ensures Answers(fs, me) == [] && |Deliveries(fs)| == |fs|
    ensures forall i :: 0 <= i < |fs| ==> Deliveries(fs)[i] == Got(fs[i].body, MetaOf(fs[i].head))
  {
    if fs != [] { AllDelivered(fs[1..], me); }
  }

  lemma SentFrame(cfg: Config, i: nat, dest: Word, data: seq<Byte>)
    requires 0 < |data| < 0x1_0000_0000 - HEADER_SIZE
    ensures var f := DataFrame(cfg, i % 0x1_0000_0000, dest, data);
            && WellFormed(f) && LittleEndian(f) && f.head.typ == 0 && f.body == data
            && MetaOf(f.head) == Metadata(cfg.mailboxId, dest, i % 0x100, cfg.priority % 0x100, FRAME_LE_FLAG)
  {
    ModOfMultiple(i, 0x100, 0x100_0000);
  }

  /** The frames of a run of sends, of any length, are received message for message. */
  lemma FramesReceived(swap: seq<Byte> -> seq<Byte>, cfg: Config, first: Word, ms: seq<Sent>, buffer: nat, me: Word)
    requires forall i :: 0 <= i < |ms| ==> 0 < |ms[i].data| < 0x1_0000_0000 - HEADER_SIZE && |ms[i].data| <= buffer
    ensures ReceiveAll(swap, EncodeAll(Frames(cfg, first, ms)), buffer, me)
         == (Expected(cfg, first, ms), Reading(TimedOut, [], []))
  {
    var fs := Frames(cfg, first, ms);
    forall i | 0 <= i < |ms|
      ensures WellFormed(fs[i]) && LittleEndian(fs[i]) && fs[i].head.typ == 0 && fs[i].body == ms[i].data
      ensures Got(fs[i].body, MetaOf(fs[i].head)) == Expected(cfg, first, ms)[i]
    {
      SentFrame(cfg, first + i, ms[i].dest, ms[i].data);
    }
    AllDelivered(fs, me);
    assert Deliveries(fs) == Expected(cfg, first, ms);
    StreamRoundTrip(swap, fs, buffer, me);
  }

  /** From one mailbox to another: whatever the sockets do with the bytes on either side, if every send succeeds then
      the receiver's calls return exactly the messages sent, in order and with their metadata, and nothing more. */
  method EndToEnd(from: Mailbox, to: Mailbox, ms: seq<Sent>, swap: seq<Byte> -> seq<Byte>, buffer: nat)
    returns (n: nat, os: seq<Outcome>)
    requires from != to && from.socket != to.socket
    requires from.socket.outgoing == [] && to.socket.incoming == [] && to.initialized && to.socket.open
    requires forall i :: 0 <= i < |ms| ==> |ms[i].data| < 0x1_0000_0000 - HEADER_SIZE && |ms[i].data| <= buffer
    modifies from, from.socket, to, to.socket
    ensures n == |ms| <==> ms == [] || (&& old(from.initialized) && old(from.socket.open) && AllValid(ms, from.cfg.maxMsgSize)
                                        && |EncodeAll(Frames(from.cfg, old(from.sequenceNumber), ms))| <= old(from.socket.room))
    ensures n == |ms| ==> os == Expected(from.cfg, old(from.sequenceNumber), ms) && to.socket.incoming == []
  {
    ghost var first := from.sequenceNumber;
    n := from.SendMany(ms);
    to.socket.incoming := from.socket.outgoing;
    ghost var all := to.socket.incoming;
    var last;
    ghost var replies;
    os, last, replies := to.ReceiveMany(swap, buffer);
    if n == |ms| {
      assert all == EncodeAll(Frames(from.cfg, first, ms));
      FramesReceived(swap, from.cfg, first, ms, buffer, to.cfg.mailboxId);
    }
  }
}
