/** The EVL router: the TCP router plus xbuf mailboxes, answering a registration after broadcasting it.
    Where no xbuf device opens and registrations come from non-peer connections the two daemons are indistinguishable. */
module EvlRouter {
  import opened Wrappers
  import opened Bytes
  import opened Protocol
  import opened RouterModel
  import opened RouterRuns

  datatype Entry = Tcp(con: nat) | Xbuf(dev: nat) | PeerCon(con: nat)

  /** One opened xbuf device and the bytes written into its inbound ring. */
  datatype Device = Device(mbx: Word, written: seq<Byte>)

  datatype Evl = Evl(table: map<Word, Entry>, local: set<Word>, chans: seq<Channel>, devs: seq<Device>, maxMsg: nat)

  /** What the operating system answers during one step: does the device open, and how many bytes does a device
      take before a write fails. */
  datatype Oracle = Oracle(opens: bool, room: nat)

  ghost predicate EvlValid(v: Evl) {
    forall d :: d in v.table ==>
                  if v.table[d].Xbuf? then v.table[d].dev < |v.devs| else v.table[d].con < |v.chans|
  }

  /** The parts shared with the TCP router, with a given routing table. */
  function Rest(v: Evl): Router { Router(map[], v.local, v.chans, v.maxMsg) }

  function WithRest(v: Evl, r: Router): Evl { v.(local := r.local, chans := r.chans) }

  function EvlHandle(v: Evl, c: nat, p: Packet, snap: seq<Word>, o: Oracle): (v': Evl)
    requires EvlValid(v) && c < |v.chans|
    ensures EvlValid(v') && |v'.chans| == |v.chans|
  {
    var ch, typ := v.chans[c], p.head.typ;
    if |p.body| > v.maxMsg then
      v.(chans := v.chans[c := ch.(open := false)])
    else if typ == MSG_ROUTER_PEER_HELLO then
      if ch.isPeer then v
      else WithRest(v, Advertise(Rest(v).(chans := v.chans[c := ch.(isPeer := true)]), c, snap))
    else if typ == MSG_ROUTER_PEER_REGISTER then
      if !ch.isPeer || |p.body| < MBX_PAYLOAD_SIZE || Mbx(p) in v.table then v
      else v.(table := v.table[Mbx(p) := PeerCon(c)])
    else if typ == MSG_ROUTER_PEER_DELETE then
      if !ch.isPeer || |p.body| < MBX_PAYLOAD_SIZE then v else v.(table := v.table - {Mbx(p)})
    else if typ == MSG_ROUTER_DISABLE_WATCHDOG then v
    else if typ == MSG_ROUTER_MBX_INIT_WITH_REPLY then
      if |p.body| < MBX_PAYLOAD_SIZE then v else EvlInit(v, c, p, o.opens)
    else if typ == MSG_ROUTER_MBX_DELETE then
      if |p.body| < MBX_PAYLOAD_SIZE then v
      else WithRest(v.(table := v.table - {Mbx(p)}),
                    Broadcast(Rest(v).(local := v.local - {Mbx(p)}), Delete(Mbx(p))))
    else EvlData(v, c, p, o.room)
  }

  /** MBX_INIT: the entry is an xbuf if the device opens; peers are told before the client is answered. */
  function EvlInit(v: Evl, c: nat, p: Packet, opens: bool): (v': Evl)
    requires EvlValid(v) && c < |v.chans| && |p.body| >= MBX_PAYLOAD_SIZE
    ensures EvlValid(v') && |v'.chans| == |v.chans|
  {
    if Mbx(p) in v.table then WithRest(v, Send(Rest(v), c, Reply(MSG_ERROR, p)))
    else
      var v1 := if opens then v.(table := v.table[Mbx(p) := Xbuf(|v.devs|)], devs := v.devs + [Device(Mbx(p), [])])
                else v.(table := v.table[Mbx(p) := Tcp(c)]);
      var told := Broadcast(Rest(v1).(local := v1.local + {Mbx(p)}), Register(Mbx(p)));
      WithRest(v1, Send(told, c, Reply(MSG_OK, p)))
  }

  /** What write_body gets through of a body. */
  function Taken(body: seq<Byte>, room: nat): seq<Byte> { if |body| <= room then body else body[..room] }

  /** write_body succeeds: the body is not empty and all of it was taken. */
  predicate Wrote(body: seq<Byte>, room: nat) { 0 < |body| <= room }

  function EvlData(v: Evl, c: nat, p: Packet, room: nat): (v': Evl)
    requires EvlValid(v) && c < |v.chans|
    ensures EvlValid(v') && |v'.chans| == |v.chans|
  {
    var d := p.head.dest;
    if d !in v.table then
      if v.chans[c].isPeer then v
      else match NextHop(Rest(v), d)
        case Some(k) =>
          if v.chans[k].open then WithRest(v, Send(Rest(v), k, p))
          else WithRest(v, Send(Rest(v), c, Reply(MSG_ERROR, p)))
        case None => WithRest(v, Send(Rest(v), c, Reply(MSG_ERROR, p)))
    else if v.table[d].Xbuf? then
      var k := v.table[d].dev;
      var v1 := v.(devs := v.devs[k := v.devs[k].(written := v.devs[k].written + Taken(p.body, room))]);
      if Wrote(p.body, room) then v1 else WithRest(v1, Send(Rest(v1), c, Reply(MSG_ERROR, p)))
    else WithRest(v, Send(Rest(v), v.table[d].con, p))
  }

  function EvlRead(v: Evl, k: nat, p: Packet): (v': Evl)
    requires EvlValid(v) && k < |v.chans|
    ensures EvlValid(v') && |v'.chans| == |v.chans|
  {
    if |p.body| > v.maxMsg then EvlEnd(v, k)
    else if p.head.dest in v.table && !v.table[p.head.dest].Xbuf? then
      WithRest(v, Send(Rest(v), v.table[p.head.dest].con, p))
    else v
  }

  const DEST_OFFSET := 20
  const SRC_OFFSET := 24

  /** The frame that run_reader puts around the bytes read from a device: addresses come from their wire header. */
  function FrameFor(body: seq<Byte>): Packet
    requires WIRE_HEADER_SIZE <= |body|
  {
    Packet(MakeFrame(0, GetWord(body[DEST_OFFSET..]), GetWord(body[SRC_OFFSET..]), 0, 0, |body| % 0x1_0000_0000),
           body, UNTAGGED)
  }

  /** One read of XbufEntry::run_reader. */
  function EvlFromXbuf(v: Evl, body: seq<Byte>): (v': Evl)
    requires EvlValid(v)
    ensures EvlValid(v') && |v'.chans| == |v.chans|
  {
    if |body| < WIRE_HEADER_SIZE then v
    else
      var p := FrameFor(body);
      if p.head.dest in v.table && !v.table[p.head.dest].Xbuf? then
        WithRest(v, Send(Rest(v), v.table[p.head.dest].con, p))
      else v
  }

  /** remove_all_for_con: xbuf entries outlive the connection that registered them. */
  function EvlEnd(v: Evl, c: nat): (v': Evl)
    requires EvlValid(v) && c < |v.chans|
    ensures EvlValid(v') && |v'.chans| == |v.chans|
  {
    v.(table := map d | d in v.table && (v.table[d].Xbuf? || v.table[d].con != c) :: v.table[d],
       chans := v.chans[c := v.chans[c].(open := false, running := false)])
  }

  // ------------------------------------------------------------------ comparison with the TCP router

  ghost predicate NoXbufs(v: Evl) {
    forall d :: d in v.table ==> !v.table[d].Xbuf?
  }

  /** The TCP router state an EVL router stands for, its xbuf entries left out. */
  ghost function Erase(v: Evl): Router {
    Router(map d | d in v.table && !v.table[d].Xbuf? :: v.table[d].con, v.local, v.chans, v.maxMsg)
  }

  /** An accepted registration arriving on an open peer connection. */
  ghost predicate RegistersOnPeer(r: Router, c: nat, p: Packet) {
    && c < |r.chans| && r.chans[c].isPeer && r.chans[c].open
    && |p.body| <= r.maxMsg && |p.body| >= MBX_PAYLOAD_SIZE
    && p.head.typ == MSG_ROUTER_MBX_INIT_WITH_REPLY && Mbx(p) !in r.table
  }

  /** Sending and telling the peers commute on every channel but a peer that is also the addressee. */
  lemma TellThenSend(r: Router, c: nat, p: Packet, q: Packet)
    requires c < |r.chans| && p != q
    ensures Send(Broadcast(r, q), c, p) == Broadcast(Send(r, c, p), q) <==> !(r.chans[c].isPeer && r.chans[c].open)
  {
    var a, b := Send(Broadcast(r, q), c, p).chans, Broadcast(Send(r, c, p), q).chans;
    assert forall i :: 0 <= i < |a| && i != c ==> a[i] == b[i];
    if r.chans[c].isPeer && r.chans[c].open {
      assert a[c].out == r.chans[c].out + [q] + [p] && b[c].out == r.chans[c].out + [p] + [q];
      assert a[c].out[|r.chans[c].out|] != b[c].out[|r.chans[c].out|];
    } else {
      assert a[c] == b[c];
      assert a == b;
    }
  }

  lemma InitEquivalentIff(v: Evl, c: nat, p: Packet)
    requires EvlValid(v) && NoXbufs(v) && c < |v.chans| && |p.body| >= MBX_PAYLOAD_SIZE && Mbx(p) !in v.table
    ensures NoXbufs(EvlInit(v, c, p, false))
    ensures var r := Erase(v);
            var r1 := Send(r.(table := r.table[Mbx(p) := c]), c, Reply(MSG_OK, p));
            Erase(EvlInit(v, c, p, false)) == Broadcast(r1.(local := r1.local + {Mbx(p)}), Register(Mbx(p)))
            <==> !(v.chans[c].isPeer && v.chans[c].open)
  {
    var r, d := Erase(v), Mbx(p);
    var r0 := r.(table := r.table[d := c], local := r.local + {d});
    assert Reply(MSG_OK, p).head.typ != Register(d).head.typ;
    TellThenSend(r0, c, Reply(MSG_OK, p), Register(d));
    assert Erase(EvlInit(v, c, p, false)).table == r0.table;
    assert Erase(EvlInit(v, c, p, false)) == Send(Broadcast(r0, Register(d)), c, Reply(MSG_OK, p));
  }

  /** One frame: with no xbuf the daemons reach the same state, queues included, exactly when the frame is not an
      accepted registration on an open peer connection. */
  lemma HandleEquivalentIff(v: Evl, c: nat, p: Packet, snap: seq<Word>, o: Oracle)
    requires EvlValid(v) && NoXbufs(v) && c < |v.chans| && !o.opens
    ensures Valid(Erase(v)) && NoXbufs(EvlHandle(v, c, p, snap, o))
    ensures Erase(EvlHandle(v, c, p, snap, o)) == HandleFrame(Erase(v), c, p, snap)
            <==> !RegistersOnPeer(Erase(v), c, p)
  {
    var r, typ := Erase(v), p.head.typ;
    if |p.body| > v.maxMsg {
    } else if typ == MSG_ROUTER_MBX_INIT_WITH_REPLY {
      if |p.body| >= MBX_PAYLOAD_SIZE && Mbx(p) !in v.table { InitEquivalentIff(v, c, p); }
    } else if typ in {MSG_ROUTER_PEER_REGISTER, MSG_ROUTER_PEER_DELETE, MSG_ROUTER_MBX_DELETE} {
      assert Erase(EvlHandle(v, c, p, snap, o)).table == HandleFrame(r, c, p, snap).table;
    } else if IsData(p) {
      SameNextHop(v, p.head.dest);
    }
  }

  lemma SameNextHop(v: Evl, d: Word)
    requires NoXbufs(v)
    ensures NextHop(Rest(v), d) == NextHop(Erase(v), d)
  {
  }

  // ------------------------------------------------------------------ runs

  datatype EvlEvent = Common(e: Event) | FromXbuf(dev: nat, body: seq<Byte>)

  ghost predicate EvlEnabled(v: Evl, e: EvlEvent) {
    match e
    case Common(e) => Enabled(Rest(v), e)
    case FromXbuf(k, body) => k < |v.devs| && |body| <= v.maxMsg
  }

  ghost function EvlStep(v: Evl, e: EvlEvent, o: Oracle): Evl
    requires EvlValid(v) && EvlEnabled(v, e)
  {
    match e
    case FromXbuf(_, body) => EvlFromXbuf(v, body)
    case Common(e) =>
      match e
      case Opened(kind, remote) => WithRest(v, Attach(Rest(v), kind, remote))
      case OpenedPeer(remote, snap) => WithRest(v, AttachPeer(Rest(v), remote, snap))
      case Frame(c, p, snap) => EvlHandle(v, c, p, snap, o)
      case UpFrame(c, p) => EvlRead(v, c, p)
      case Ended(c) => EvlEnd(v, c)
  }

  ghost predicate EvlRun(vs: seq<Evl>, es: seq<EvlEvent>, os: seq<Oracle>) {
    && |vs| == |es| + 1 == |os| + 1
    && vs[0].table == map[] && vs[0].devs == []
    && forall i :: 0 <= i < |es| ==> EvlRunStep(vs, es, os, i)
  }

  ghost predicate EvlRunStep(vs: seq<Evl>, es: seq<EvlEvent>, os: seq<Oracle>, i: nat)
    requires |vs| == |es| + 1 == |os| + 1 && i < |es|
  {
    EvlValid(vs[i]) && EvlEnabled(vs[i], es[i]) && vs[i + 1] == EvlStep(vs[i], es[i], os[i])
  }

  lemma NoNewDevice(v: Evl, c: nat, p: Packet, snap: seq<Word>, o: Oracle)
    requires EvlValid(v) && NoXbufs(v) && c < |v.chans| && !o.opens
    ensures EvlHandle(v, c, p, snap, o).devs == v.devs
  {
  }

  lemma StepEquivalent(v: Evl, e: Event, o: Oracle)
    requires EvlValid(v) && NoXbufs(v) && Enabled(Rest(v), e) && !o.opens
    requires e.Frame? ==> !RegistersOnPeer(Erase(v), e.c, e.p)
    ensures Valid(Erase(v)) && Enabled(Erase(v), e)
    ensures var v' := EvlStep(v, Common(e), o);
            EvlValid(v') && NoXbufs(v') && v'.devs == v.devs && Erase(v') == Step(Erase(v), e)
  {
    match e
    case Frame(c, p, snap) =>
      HandleEquivalentIff(v, c, p, snap, o);
      NoNewDevice(v, c, p, snap, o);
    case UpFrame(c, p) =>
    case Ended(c) =>
    case _ =>
  }

  /** The run of the TCP router that an EVL run stands for. */
  ghost function Erased(vs: seq<Evl>, es: seq<EvlEvent>): Run
    requires forall i :: 0 <= i < |es| ==> es[i].Common?
  {
    Run(seq(|vs|, i requires 0 <= i < |vs| => Erase(vs[i])), seq(|es|, i requires 0 <= i < |es| => es[i].e))
  }

  /** Every run of the EVL router on which no device opens and no registration is accepted on a peer connection is,
      state by state and so queue by queue on each connection, a run of the TCP router on the same inputs. */
  lemma {:induction false} EvlIsTcp(vs: seq<Evl>, es: seq<EvlEvent>, os: seq<Oracle>)
    requires EvlRun(vs, es, os)
    requires forall i :: 0 <= i < |os| ==> !os[i].opens
    requires forall i :: 0 <= i < |es| && es[i].Common? && es[i].e.Frame? ==>
                           !RegistersOnPeer(Erase(vs[i]), es[i].e.c, es[i].e.p)
    ensures forall i :: 0 <= i < |es| ==> es[i].Common?
    ensures forall i :: 0 <= i < |vs| ==> NoXbufs(vs[i])
    ensures IsRun(Erased(vs, es))
  {
    for n := 0 to |es|
      invariant forall i :: 0 <= i <= n ==> NoXbufs(vs[i]) && vs[i].devs == []
      invariant forall i :: 0 <= i < n ==> Follows(vs, es, i)
    {
      assert EvlRunStep(vs, es, os, n);
      StepEquivalent(vs[n], es[n].e, os[n]);
      assert Follows(vs, es, n);
    }
    forall i | 0 <= i < |es|
      ensures es[i].Common?
    {
      assert Follows(vs, es, i);
    }
    var run := Erased(vs, es);
    forall i | 0 <= i < |es|
      ensures RunStep(run, i)
    {
      assert Follows(vs, es, i);
    }
  }

  ghost predicate Follows(vs: seq<Evl>, es: seq<EvlEvent>, i: nat)
    requires i < |es| && |vs| == |es| + 1
  {
    && es[i].Common? && Valid(Erase(vs[i])) && Enabled(Erase(vs[i]), es[i].e)
    && Erase(vs[i + 1]) == Step(Erase(vs[i]), es[i].e)
  }
}
