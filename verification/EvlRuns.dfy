/** Runs of the EVL router with xbuf devices: who owns an id, what reaches a device and what reaches a connection. */
module EvlRuns {
  import opened Bytes
  import opened Protocol
  import opened RouterModel
  import opened RouterRuns
  import opened EvlRouter
  import FrameStream

  // ------------------------------------------------------------------ entries

  /** Each xbuf entry names a device opened for that very id; every other entry names a live connection. */
  ghost predicate EvlInv(v: Evl) {
    EvlValid(v) && forall d :: d in v.table ==> EvlEntryInv(v, d)
  }

  ghost predicate EvlEntryInv(v: Evl, d: Word)
    requires d in v.table
  {
    if v.table[d].Xbuf? then v.table[d].dev < |v.devs| && v.devs[v.table[d].dev].mbx == d
    else Live(Rest(v), v.table[d].con) && v.chans[v.table[d].con].kind.Link?
  }

  /** An entry is released by a delete of its id or, unless it is an xbuf, by the end of its connection's loop. */
  ghost predicate EvlReleased(v: Evl, e: EvlEvent, d: Word)
    requires d in v.table
  {
    e.Common? && (Deleted(Rest(v), e.e, d) || (!v.table[d].Xbuf? && e.e == Ended(v.table[d].con)))
  }

  /** An entry survives a step exactly when the step does not release it: xbuf entries outlive every connection. */
  lemma EvlEntryKeptIff(v: Evl, e: EvlEvent, o: Oracle, d: Word)
    requires EvlInv(v) && EvlEnabled(v, e) && d in v.table
    ensures var v' := EvlStep(v, e, o); (d in v'.table && v'.table[d] == v.table[d]) <==> !EvlReleased(v, e, d)
  {
    assert EvlEntryInv(v, d);
    if e.Common? && e.e.Frame? { EvlFrameReleases(v, e.e, o, d); }
  }

  lemma EvlFrameReleases(v: Evl, e: Event, o: Oracle, d: Word)
    requires EvlValid(v) && e.Frame? && e.c < |v.chans| && d in v.table
    ensures var v' := EvlHandle(v, e.c, e.p, e.snap, o);
            if Deleted(Rest(v), e, d) then d !in v'.table else d in v'.table && v'.table[d] == v.table[d]
  {
  }

  /** A connection's kind and loop are as before. */
  ghost predicate SameLoop(ch: Channel, ch': Channel) { ch'.kind == ch.kind && ch'.running == ch.running }

  lemma EvlInitLoops(v: Evl, c: nat, p: Packet, opens: bool, i: nat)
    requires EvlValid(v) && c < |v.chans| && i < |v.chans| && |p.body| >= MBX_PAYLOAD_SIZE
    ensures SameLoop(v.chans[i], EvlInit(v, c, p, opens).chans[i])
  {
  }

  lemma EvlDataLoops(v: Evl, c: nat, p: Packet, room: nat, i: nat)
    requires EvlValid(v) && c < |v.chans| && i < |v.chans|
    ensures SameLoop(v.chans[i], EvlData(v, c, p, room).chans[i])
  {
  }

  lemma EvlLoops(v: Evl, c: nat, p: Packet, snap: seq<Word>, o: Oracle, i: nat)
    requires EvlValid(v) && c < |v.chans| && i < |v.chans|
    ensures SameLoop(v.chans[i], EvlHandle(v, c, p, snap, o).chans[i])
  {
    if |p.body| > v.maxMsg {
    } else if p.head.typ == MSG_ROUTER_MBX_INIT_WITH_REPLY {
      if |p.body| >= MBX_PAYLOAD_SIZE { EvlInitLoops(v, c, p, o.opens, i); }
    } else if IsData(p) {
      EvlDataLoops(v, c, p, o.room, i);
    }
  }

  lemma EvlTableAfter(v: Evl, c: nat, p: Packet, snap: seq<Word>, o: Oracle, d: Word)
    requires EvlValid(v) && c < |v.chans| && d in EvlHandle(v, c, p, snap, o).table
    ensures var v' := EvlHandle(v, c, p, snap, o);
            || (d in v.table && v'.table[d] == v.table[d])
            || v'.table[d] in {Tcp(c), PeerCon(c)}
            || (v'.table[d] == Xbuf(|v.devs|) && v'.devs == v.devs + [Device(d, [])])
  {
  }

  lemma EvlDevices(v: Evl, c: nat, p: Packet, snap: seq<Word>, o: Oracle, k: nat)
    requires EvlValid(v) && c < |v.chans| && k < |v.devs|
    ensures var v' := EvlHandle(v, c, p, snap, o); k < |v'.devs| && v'.devs[k].mbx == v.devs[k].mbx
  {
  }

  lemma EvlFrameKeeps(v: Evl, c: nat, p: Packet, snap: seq<Word>, o: Oracle)
    requires EvlInv(v) && Live(Rest(v), c) && v.chans[c].kind.Link?
    ensures EvlInv(EvlHandle(v, c, p, snap, o))
  {
    var v' := EvlHandle(v, c, p, snap, o);
    forall d | d in v'.table
      ensures EvlEntryInv(v', d)
    {
      EvlTableAfter(v, c, p, snap, o, d);
      if d in v.table && v'.table[d] == v.table[d] {
        assert EvlEntryInv(v, d);
        if v.table[d].Xbuf? { EvlDevices(v, c, p, snap, o, v.table[d].dev); }
        else { EvlLoops(v, c, p, snap, o, v.table[d].con); }
      } else if !v'.table[d].Xbuf? {
        EvlLoops(v, c, p, snap, o, c);
      }
    }
  }

  lemma EvlStepKeeps(v: Evl, e: EvlEvent, o: Oracle)
    requires EvlInv(v) && EvlEnabled(v, e)
    ensures EvlInv(EvlStep(v, e, o))
  {
    if e.Common? && e.e.Frame? {
      EvlFrameKeeps(v, e.e.c, e.e.p, e.e.snap, o);
    } else {
      var v' := EvlStep(v, e, o);
      forall d | d in v'.table
        ensures EvlEntryInv(v', d)
      {
        assert EvlEntryInv(v, d);
      }
    }
  }

  lemma {:induction false} EvlRunKeepsInv(vs: seq<Evl>, es: seq<EvlEvent>, os: seq<Oracle>, n: nat)
    requires EvlRun(vs, es, os) && n < |vs|
    ensures EvlInv(vs[n])
  {
    if n > 0 {
      assert EvlRunStep(vs, es, os, n - 1);
      EvlRunKeepsInv(vs, es, os, n - 1);
      EvlStepKeeps(vs[n - 1], es[n - 1], os[n - 1]);
    }
  }

  // ------------------------------------------------------------------ devices

  /** The step handles a data frame whose destination is entered as device k. */
  ghost predicate ToDevice(v: Evl, e: EvlEvent, k: nat) {
    && e.Common? && e.e.Frame? && e.e.c < |v.chans| && IsData(e.e.p) && |e.e.p.body| <= v.maxMsg
    && e.e.p.head.dest in v.table && v.table[e.e.p.head.dest] == Xbuf(k)
  }

  /** In every run a device is written to only by data frames for the mailbox it was opened for.  Every such frame's
      body goes to the device as far as it takes it, and its sender is answered MSG_ERROR if and only if the body is
      empty or not all of it went in; nothing else is sent. */
  lemma XbufGetsItsOwnFrames(vs: seq<Evl>, es: seq<EvlEvent>, os: seq<Oracle>, n: nat, k: nat)
    requires EvlRun(vs, es, os) && n < |es| && k < |vs[n].devs|
    ensures k < |vs[n + 1].devs|
    ensures vs[n + 1].devs[k] != vs[n].devs[k] ==> ToDevice(vs[n], es[n], k)
    ensures ToDevice(vs[n], es[n], k) ==>
              var p, c := es[n].e.p, es[n].e.c;
              && p.head.dest == vs[n].devs[k].mbx
              && vs[n + 1].devs[k].written == vs[n].devs[k].written + Taken(p.body, os[n].room)
              && vs[n + 1].chans == if Wrote(p.body, os[n].room) then vs[n].chans
                                    else Send(Rest(vs[n]), c, Reply(MSG_ERROR, p)).chans
  {
    assert EvlRunStep(vs, es, os, n);
    EvlRunKeepsInv(vs, es, os, n);
    if es[n].Common? && es[n].e.Frame? {
      var e := es[n].e;
      assert e.p.head.dest in vs[n].table ==> EvlEntryInv(vs[n], e.p.head.dest);
      FrameToDevice(vs[n], e.c, e.p, e.snap, os[n], k);
    }
  }

  lemma FrameToDevice(v: Evl, c: nat, p: Packet, snap: seq<Word>, o: Oracle, k: nat)
    requires EvlValid(v) && c < |v.chans| && k < |v.devs|
    ensures var v', to := EvlHandle(v, c, p, snap, o), ToDevice(v, Common(Event.Frame(c, p, snap)), k);
            && k < |v'.devs|
            && (v'.devs[k] != v.devs[k] ==> to)
            && (to ==>
                  && v'.devs[k].written == v.devs[k].written + Taken(p.body, o.room)
                  && v'.chans == if Wrote(p.body, o.room) then v.chans else Send(Rest(v), c, Reply(MSG_ERROR, p)).chans)
  {
  }

  // ------------------------------------------------------------------ ownership

  /** The registration of d on c is accepted in this step and answered MSG_OK on c. */
  ghost predicate EvlAnswered(v: Evl, e: EvlEvent, v': Evl, c: nat, d: Word) {
    && e.Common? && Concerns(Rest(v), e.e, MSG_ROUTER_MBX_INIT_WITH_REPLY, d) && e.e.c == c
    && c < |v.chans| == |v'.chans|
    && |v.chans[c].out| < |v'.chans[c].out| && v'.chans[c].out[|v'.chans[c].out| - 1] == Reply(MSG_OK, e.e.p)
  }

  /** How an entry comes to be. */
  ghost predicate Granted(v: Evl, e: EvlEvent, o: Oracle, v': Evl, entry: Entry, d: Word) {
    match entry
    case Tcp(c) => !o.opens && EvlAnswered(v, e, v', c, d)
    case Xbuf(k) => o.opens && k == |v.devs| && e.Common? && e.e.Frame? && EvlAnswered(v, e, v', e.e.c, d)
    case PeerCon(c) => e.Common? && Advertised(Rest(v), e.e, c, d)
  }

  lemma EvlFrameGrants(v: Evl, e: Event, o: Oracle, d: Word)
    requires EvlValid(v) && e.Frame? && e.c < |v.chans| && v.chans[e.c].open && d !in v.table
    ensures var v' := EvlHandle(v, e.c, e.p, e.snap, o);
            d in v'.table ==> Granted(v, Common(e), o, v', v'.table[d], d)
  {
    if e.p.head.typ == MSG_ROUTER_MBX_INIT_WITH_REPLY && MBX_PAYLOAD_SIZE <= |e.p.body| <= v.maxMsg && Mbx(e.p) == d {
      InitAnswered(v, e.c, e.p, o.opens);
    }
  }

  lemma InitAnswered(v: Evl, c: nat, p: Packet, opens: bool)
    requires EvlValid(v) && c < |v.chans| && v.chans[c].open && |p.body| >= MBX_PAYLOAD_SIZE && Mbx(p) !in v.table
    ensures var out, out' := v.chans[c].out, EvlInit(v, c, p, opens).chans[c].out;
            |out| < |out'| && out'[|out'| - 1] == Reply(MSG_OK, p)
  {
  }

  /** An entry appears only for an unowned id, by an answered registration or a peer's advertisement. */
  lemma EvlEntryGranted(v: Evl, e: EvlEvent, o: Oracle, d: Word)
    requires EvlInv(v) && EvlEnabled(v, e) && d in EvlStep(v, e, o).table
    requires d in v.table ==> v.table[d] != EvlStep(v, e, o).table[d]
    ensures d !in v.table
    ensures Granted(v, e, o, EvlStep(v, e, o), EvlStep(v, e, o).table[d], d)
  {
    if d in v.table {
      assert EvlEntryInv(v, d);
      if e.Common? && e.e.Frame? { EvlFrameReleases(v, e.e, o, d); }
      assert false;
    }
    assert e.Common? && e.e.Frame?;
    EvlFrameGrants(v, e.e, o, d);
  }

  /** The entry for d has been held without release since step g granted it. */
  ghost predicate InForce(vs: seq<Evl>, es: seq<EvlEvent>, os: seq<Oracle>, g: nat, n: nat, d: Word) {
    && n < |vs| == |es| + 1 == |os| + 1 && g < n && d in vs[n].table && d !in vs[g].table
    && Granted(vs[g], es[g], os[g], vs[g + 1], vs[n].table[d], d)
    && forall k :: g < k < n ==> d in vs[k].table && vs[k].table[d] == vs[n].table[d] && !EvlReleased(vs[k], es[k], d)
  }

  /** Every entry of every run, xbuf entries included, traces back to the step that granted it. */
  lemma {:induction false} EvlOwnershipIsInForce(vs: seq<Evl>, es: seq<EvlEvent>, os: seq<Oracle>, n: nat, d: Word)
    returns (g: nat)
    requires EvlRun(vs, es, os) && n < |vs| && d in vs[n].table
    ensures InForce(vs, es, os, g, n, d)
  {
    assert EvlRunStep(vs, es, os, n - 1);
    EvlRunKeepsInv(vs, es, os, n - 1);
    var v, e, o := vs[n - 1], es[n - 1], os[n - 1];
    if d in v.table && v.table[d] == vs[n].table[d] {
      EvlEntryKeptIff(v, e, o, d);
      g := EvlOwnershipIsInForce(vs, es, os, n - 1, d);
    } else {
      EvlEntryGranted(v, e, o, d);
      g := n - 1;
    }
  }

  // ------------------------------------------------------------------ no misdelivery

  /** A step that carries a message: a client's or peer's data frame, any frame from upstream, data from a device. */
  ghost predicate Carries(e: EvlEvent) {
    e.FromXbuf? || (e.e.Frame? && IsData(e.e.p)) || e.e.UpFrame?
  }

  ghost function Carried(e: EvlEvent): Packet
    requires Carries(e) && (e.FromXbuf? ==> |e.body| >= WIRE_HEADER_SIZE)
  {
    if e.FromXbuf? then FrameFor(e.body) else e.e.p
  }

  lemma CarriedTo(v: Evl, e: EvlEvent, o: Oracle, k: nat)
    requires EvlInv(v) && EvlEnabled(v, e) && Carries(e)
    requires k < |v.chans| && v.chans[k].kind.Link? && |EvlStep(v, e, o).chans| == |v.chans|
    requires EvlStep(v, e, o).chans[k].out != v.chans[k].out
    ensures e.FromXbuf? ==> |e.body| >= WIRE_HEADER_SIZE
    ensures var p, out' := Carried(e), EvlStep(v, e, o).chans[k].out;
            if p.head.dest in v.table && !v.table[p.head.dest].Xbuf? then
              v.table[p.head.dest].con == k && out' == v.chans[k].out + [p]
            else
              e.Common? && e.e.Frame? && e.e.c == k && out' == v.chans[k].out + [Reply(MSG_ERROR, p)]
  {
  }

  /** In every run with any devices: what reaches a connection, from a client, a peer, upstream or a device, is a
      message for an id that connection holds in force; otherwise it is the error answer to a frame's own sender.
      Data read from a device thus reaches exactly the holder of the destination in its wire header, or no one. */
  lemma EvlNoMisdelivery(vs: seq<Evl>, es: seq<EvlEvent>, os: seq<Oracle>, n: nat, k: nat) returns (g: nat)
    requires EvlRun(vs, es, os) && n < |es| && Carries(es[n])
    requires k < |vs[n].chans| && vs[n].chans[k].kind.Link? && |vs[n + 1].chans| == |vs[n].chans|
    requires vs[n + 1].chans[k].out != vs[n].chans[k].out
    ensures es[n].FromXbuf? ==> |es[n].body| >= WIRE_HEADER_SIZE
    ensures var p, v, v' := Carried(es[n]), vs[n], vs[n + 1];
            if p.head.dest in v.table && !v.table[p.head.dest].Xbuf? then
              && v.table[p.head.dest].con == k && v'.chans[k].out == v.chans[k].out + [p]
              && InForce(vs, es, os, g, n, p.head.dest)
            else
              es[n].Common? && es[n].e.Frame? && es[n].e.c == k && v'.chans[k].out == v.chans[k].out + [Reply(MSG_ERROR, p)]
  {
    assert EvlRunStep(vs, es, os, n);
    EvlRunKeepsInv(vs, es, os, n);
    CarriedTo(vs[n], es[n], os[n], k);
    var d := Carried(es[n]).head.dest;
    g := 0;
    if d in vs[n].table { g := EvlOwnershipIsInForce(vs, es, os, n, d); }
  }

  /** The addresses in the wire header that an EVL mailbox wrote become those of the frame. */
  lemma WireAddresses(pre: seq<Byte>, dest: Word, src: Word, post: seq<Byte>)
    requires |pre| == DEST_OFFSET && |post| >= WIRE_HEADER_SIZE - SRC_OFFSET - 4
    ensures var h := FrameFor(pre + PutWord(dest) + PutWord(src) + post).head; h.dest == dest && h.src == src
  {
    var body := pre + PutWord(dest) + PutWord(src) + post;
    assert body[DEST_OFFSET..] == PutWord(dest) + (PutWord(src) + post);
    assert body[SRC_OFFSET..] == PutWord(src) + post;
    WordRoundTrip(dest, PutWord(src) + post);
    WordRoundTrip(src, post);
  }

  /** What a device hands over arrives: the bytes of a message are received whole by a TCP mailbox reading the frame
      put around them, with the source and destination in their wire header. */
  lemma XbufMessageArrives(body: seq<Byte>, rest: seq<Byte>, swap: seq<Byte> -> seq<Byte>, buffer: nat, me: Word)
    requires WIRE_HEADER_SIZE <= |body| <= buffer && |body| < 0x1_0000_0000 - HEADER_SIZE
    ensures var h := FrameFor(body).head;
            FrameStream.Receive(swap, FrameStream.Encode(FrameStream.Frame(h, body)) + rest, buffer, me)
            == FrameStream.Reading(
                 FrameStream.Got(body, FrameStream.Metadata(h.src, h.dest, 0, 0, FRAME_LE_FLAG)), rest, [])
  {
    FrameStream.FrameReceived(swap, FrameStream.Frame(FrameFor(body).head, body), rest, buffer, me);
  }
}
