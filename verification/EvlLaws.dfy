/** What each input does to the EVL router, said of its table, local set, devices and queues alone. */
module EvlLaws {
  import opened Wrappers
  import opened Bytes
  import opened Protocol
  import opened RouterModel
  import opened RouterRuns
  import opened RouterLaws
  import opened EvlRouter
  import opened EvlRuns

  /** The connections and local set, as a router that holds no id. */
  function Shared(v: Evl): Router { Router(map[], v.local, v.chans, v.maxMsg) }

  ghost predicate EvlReads(v: Evl, c: nat, p: Packet, snap: seq<Word>) {
    EvlValid(v) && Reads(Shared(v), c, p, snap)
  }

  function Handed(v: Evl, k: nat, p: Packet): Evl
    requires k < |v.chans|
  {
    v.(chans := Queued(Shared(v), k, p).chans)
  }

  ghost function After(v: Evl, c: nat, p: Packet, snap: seq<Word>, o: Oracle): Evl
    requires EvlReads(v, c, p, snap)
  {
    EvlStep(v, Common(Frame(c, p, snap)), o)
  }

  lemma ReadsEnabled(v: Evl, c: nat, p: Packet, snap: seq<Word>)
    requires EvlReads(v, c, p, snap)
    ensures EvlEnabled(v, Common(Frame(c, p, snap)))
  {
  }

  // ------------------------------------------------------------------ data

  /** A data frame for an id that a connection holds goes to the end of that connection's queue, and nothing else
      changes. */
  lemma HeldByConnection(v: Evl, c: nat, p: Packet, snap: seq<Word>, o: Oracle, k: nat)
    requires EvlReads(v, c, p, snap) && IsDataType(p.head.typ) && |p.body| <= v.maxMsg
    requires p.head.dest in v.table && k < |v.chans| && v.table[p.head.dest] in {Tcp(k), PeerCon(k)}
    ensures After(v, c, p, snap, o) == Handed(v, k, p)
  {
    assert v.chans[k := v.chans[k]] == v.chans;
  }

  /** A data frame for an id that a device holds: as much of the body as the device takes is added to what was written
      to it; the sender is answered MSG_ERROR if the body is empty or too long for it, and nothing else changes. */
  lemma HeldByDevice(v: Evl, c: nat, p: Packet, snap: seq<Word>, o: Oracle, k: nat)
    requires EvlReads(v, c, p, snap) && IsDataType(p.head.typ) && |p.body| <= v.maxMsg
    requires p.head.dest in v.table && k < |v.devs| && v.table[p.head.dest] == Xbuf(k)
    ensures var n := if |p.body| <= o.room then |p.body| else o.room;
            var v1 := v.(devs := v.devs[k := Device(v.devs[k].mbx, v.devs[k].written + p.body[..n])]);
            After(v, c, p, snap, o) == if 0 < |p.body| <= o.room then v1 else Handed(v1, c, ErrorTo(p))
  {
    assert p.body[..|p.body|] == p.body;
  }

  lemma UnheldFromPeer(v: Evl, c: nat, p: Packet, snap: seq<Word>, o: Oracle)
    requires EvlReads(v, c, p, snap) && IsDataType(p.head.typ) && |p.body| <= v.maxMsg
    requires p.head.dest !in v.table && v.chans[c].isPeer
    ensures After(v, c, p, snap, o) == v
  {
  }

  /** Any other data frame goes on the route of the system in the top byte of its destination, or is answered. */
  lemma UnheldGoesUp(v: Evl, c: nat, p: Packet, snap: seq<Word>, o: Oracle, s: Byte, low: nat)
    requires EvlReads(v, c, p, snap) && IsDataType(p.head.typ) && |p.body| <= v.maxMsg
    requires p.head.dest !in v.table && !v.chans[c].isPeer
    requires p.head.dest == s * 0x100_0000 + low && low < 0x100_0000
    ensures forall k: nat :: RouteOf(Shared(v), s, k) ==>
                               After(v, c, p, snap, o) == if v.chans[k].open then Handed(v, k, p) else Handed(v, c, ErrorTo(p))
    ensures (forall k: nat :: !RouteOf(Shared(v), s, k)) ==> After(v, c, p, snap, o) == Handed(v, c, ErrorTo(p))
  {
    UnheldIdGoesUp(Shared(v), c, p, snap, s, low);
    assert Rest(v) == Shared(v);
    assert Step(Shared(v), Frame(c, p, snap)) == RouteData(Shared(v), c, p);
    assert After(v, c, p, snap, o) == v.(local := v.local, chans := RouteData(Shared(v), c, p).chans);
  }

  // ------------------------------------------------------------------ registration

  /** A registration of an id not in the table: it is entered for a new device if that opens and for the connection
      otherwise, and as local; open peer connections are told, and then the connection is answered MSG_OK. */
  lemma FreeIdGranted(v: Evl, c: nat, p: Packet, snap: seq<Word>, o: Oracle, d: Word)
    requires EvlReads(v, c, p, snap) && p.head.typ == 13 && |p.body| <= v.maxMsg && Names(p, d) && d !in v.table
    ensures var v' := After(v, c, p, snap, o);
            && v'.table == v.table[d := if o.opens then Xbuf(|v.devs|) else Tcp(c)]
            && v'.devs == (if o.opens then v.devs + [Device(d, [])] else v.devs)
            && v'.local == v.local + {d} && v'.maxMsg == v.maxMsg
            && Grown(Shared(v), Shared(v'), (i: nat) =>
                 (if i < |v.chans| && v.chans[i].isPeer && v.chans[i].open then [Notice(21, d)] else [])
                 + if i == c then [OkTo(p)] else [])
  {
    NamesIsMbx(p, d);
    NoticeIsAdvert(21, d);
    assert Reply(MSG_OK, p) == OkTo(p);
    var told := Broadcast(Shared(v).(local := v.local + {d}), Notice(21, d));
    var v' := After(v, c, p, snap, o);
    assert v'.chans == Send(told, c, OkTo(p)).chans;
    forall i | 0 <= i < |v.chans|
      ensures v'.chans[i].out == v.chans[i].out + ((if v.chans[i].isPeer && v.chans[i].open then [Notice(21, d)] else [])
                                                   + if i == c then [OkTo(p)] else [])
    {
    }
  }

  lemma TakenIdRefused(v: Evl, c: nat, p: Packet, snap: seq<Word>, o: Oracle, d: Word)
    requires EvlReads(v, c, p, snap) && p.head.typ == 13 && |p.body| <= v.maxMsg && Names(p, d) && d in v.table
    ensures After(v, c, p, snap, o) == Handed(v, c, ErrorTo(p))
  {
    NamesIsMbx(p, d);
    assert Reply(MSG_ERROR, p) == ErrorTo(p);
  }

  lemma DeletionForgets(v: Evl, c: nat, p: Packet, snap: seq<Word>, o: Oracle, d: Word)
    requires EvlReads(v, c, p, snap) && p.head.typ == 14 && |p.body| <= v.maxMsg && Names(p, d)
    ensures var v' := After(v, c, p, snap, o);
            && v'.table == v.table - {d} && v'.local == v.local - {d} && v'.devs == v.devs && v'.maxMsg == v.maxMsg
            && Grown(Shared(v), Shared(v'), (i: nat) =>
                 if i < |v.chans| && v.chans[i].isPeer && v.chans[i].open then [Notice(22, d)] else [])
  {
    NamesIsMbx(p, d);
    NoticeIsAdvert(22, d);
  }

  // ------------------------------------------------------------------ peers

  /** HELLO, the watchdog frame, frames too short to name an id and oversized frames do to the connections exactly
      what they do at the TCP router, and leave table and devices alone. */
  lemma SharedFrames(v: Evl, c: nat, p: Packet, snap: seq<Word>, o: Oracle)
    requires EvlReads(v, c, p, snap)
    requires || |p.body| > v.maxMsg || p.head.typ in {19, 20}
             || (p.head.typ in {13, 14, 21, 22} && |p.body| < 4)
    ensures Enabled(Shared(v), Frame(c, p, snap))
    ensures After(v, c, p, snap, o) == v.(chans := Step(Shared(v), Frame(c, p, snap)).chans)
  {
  }

  lemma RegisterLearnt(v: Evl, c: nat, p: Packet, snap: seq<Word>, o: Oracle, d: Word)
    requires EvlReads(v, c, p, snap) && p.head.typ == 21 && |p.body| <= v.maxMsg && Names(p, d)
    ensures After(v, c, p, snap, o)
         == if v.chans[c].isPeer && d !in v.table then v.(table := v.table[d := PeerCon(c)]) else v
  {
    NamesIsMbx(p, d);
  }

  lemma PeerDeletionForgets(v: Evl, c: nat, p: Packet, snap: seq<Word>, o: Oracle, d: Word)
    requires EvlReads(v, c, p, snap) && p.head.typ == 22 && |p.body| <= v.maxMsg && Names(p, d)
    ensures After(v, c, p, snap, o) == if v.chans[c].isPeer then v.(table := v.table - {d}) else v
  {
    NamesIsMbx(p, d);
  }

  // ------------------------------------------------------------------ upstream, devices, loops

  ghost predicate ConnectionOver(v: Evl, v': Evl, c: nat) {
    && c < |v.chans| && v'.local == v.local && v'.maxMsg == v.maxMsg && v'.devs == v.devs
    && (forall d :: d in v'.table <==> d in v.table && v.table[d] != Tcp(c) && v.table[d] != PeerCon(c))
    && (forall d :: d in v'.table ==> v'.table[d] == v.table[d])
    && v'.chans == v.chans[c := v.chans[c].(open := false, running := false)]
  }

  /** A frame from upstream reaches the connection that holds its destination; one for a device is dropped. */
  lemma FromUpstream(v: Evl, k: nat, p: Packet, o: Oracle)
    requires EvlValid(v) && k < |v.chans| && v.chans[k].open && v.chans[k].running && !v.chans[k].kind.Link?
    ensures EvlEnabled(v, Common(UpFrame(k, p)))
    ensures var v' := EvlStep(v, Common(UpFrame(k, p)), o);
            if |p.body| > v.maxMsg then ConnectionOver(v, v', k)
            else if p.head.dest in v.table && !v.table[p.head.dest].Xbuf? then v' == Handed(v, v.table[p.head.dest].con, p)
            else v' == v
  {
    if p.head.dest in v.table && !v.table[p.head.dest].Xbuf? {
      var j := v.table[p.head.dest].con;
      assert v.chans[j := v.chans[j]] == v.chans;
    }
  }

  /** Data read from a device: with a whole wire header, a frame around exactly these bytes, addressed as the header
      says, goes to the connection that holds the destination; in every other case nothing changes. */
  lemma FromDevice(v: Evl, k: nat, body: seq<Byte>, o: Oracle, dest: Word, src: Word)
    requires EvlValid(v) && k < |v.devs| && |body| <= v.maxMsg
    requires |body| >= 32 ==> WordAt(body, 20) == dest && WordAt(body, 24) == src
    ensures EvlEnabled(v, FromXbuf(k, body))
    ensures var v' := EvlStep(v, FromXbuf(k, body), o);
            if |body| >= 32 && dest in v.table && !v.table[dest].Xbuf? then
              v' == Handed(v, v.table[dest].con,
                           Packet(FrameHeader(3, 0, 0, 0, dest, src, (16 + |body|) % 0x1_0000_0000), body, UNTAGGED))
            else v' == v
  {
    if |body| >= 32 {
      assert GetWord(body[20..]) == dest && GetWord(body[24..]) == src;
      assert FrameFor(body)
          == Packet(FrameHeader(3, 0, 0, 0, dest, src, (16 + |body|) % 0x1_0000_0000), body, UNTAGGED);
      if dest in v.table && !v.table[dest].Xbuf? {
        var j := v.table[dest].con;
        assert v.chans[j := v.chans[j]] == v.chans;
      }
    }
  }

  lemma ConnectionEnds(v: Evl, c: nat, o: Oracle)
    requires EvlValid(v) && c < |v.chans| && v.chans[c].running
    ensures EvlEnabled(v, Common(Ended(c))) && ConnectionOver(v, EvlStep(v, Common(Ended(c)), o), c)
  {
  }

  /** New connections are as at the TCP router, and leave table and devices alone. */
  lemma ConnectionStarts(v: Evl, e: Event, o: Oracle)
    requires EvlValid(v) && (e.Opened? || (e.OpenedPeer? && Lists(e.snap, v.local)))
    ensures EvlEnabled(v, Common(e)) && Enabled(Shared(v), e)
    ensures EvlStep(v, Common(e), o) == v.(chans := Step(Shared(v), e).chans)
  {
  }

  // ------------------------------------------------------------------ over runs

  /** In every run, a registration on an open connection that is not a peer draws exactly one answer: MSG_OK if and only
      if the id was not in the table, and then it is entered for the connection or its device; MSG_ERROR otherwise,
      and then nothing else has changed. */
  lemma EvlAnsweredIff(vs: seq<Evl>, es: seq<EvlEvent>, os: seq<Oracle>, n: nat, c: nat, p: Packet, snap: seq<Word>, d: Word)
    requires EvlRun(vs, es, os) && n < |es| && es[n] == Common(Frame(c, p, snap))
    requires p.head.typ == 13 && |p.body| <= vs[n].maxMsg && Names(p, d)
    requires c < |vs[n].chans| == |vs[n + 1].chans| && !vs[n].chans[c].isPeer
    ensures var v, v' := vs[n], vs[n + 1];
            && (v'.chans[c].out == v.chans[c].out + [OkTo(p)] <==> d !in v.table)
            && (v'.chans[c].out == v.chans[c].out + [ErrorTo(p)] <==> d in v.table)
            && (d !in v.table ==> d in v'.table && v'.table[d] == if os[n].opens then Xbuf(|v.devs|) else Tcp(c))
            && (d in v.table ==> v' == Handed(v, c, ErrorTo(p)))
  {
    assert EvlRunStep(vs, es, os, n);
    var v := vs[n];
    var was := v.chans[c].out;
    if d in v.table {
      TakenIdRefused(v, c, p, snap, os[n], d);
    } else {
      FreeIdGranted(v, c, p, snap, os[n], d);
      assert [] + [OkTo(p)] == [OkTo(p)];
    }
    assert OkTo(p) != ErrorTo(p);
    assert (was + [OkTo(p)])[|was|] != (was + [ErrorTo(p)])[|was|];
  }

  /** The partner of EvlNoMisdelivery: while an entry is in force, every data frame for the id that the router reads
      goes on the holding connection's queue if it is open, and into the device as far as that takes it. */
  lemma InForceReceives(vs: seq<Evl>, es: seq<EvlEvent>, os: seq<Oracle>, g: nat, n: nat, c: nat, p: Packet, snap: seq<Word>)
    requires EvlRun(vs, es, os) && n < |es| && es[n] == Common(Frame(c, p, snap))
    requires IsDataType(p.head.typ) && |p.body| <= vs[n].maxMsg && InForce(vs, es, os, g, n, p.head.dest)
    ensures EvlValid(vs[n])
    ensures match vs[n].table[p.head.dest]
            case Xbuf(k) =>
              k < |vs[n].devs| == |vs[n + 1].devs| && vs[n].devs[k].mbx == p.head.dest &&
              vs[n + 1].devs[k].written
              == vs[n].devs[k].written + p.body[..if |p.body| <= os[n].room then |p.body| else os[n].room]
            case Tcp(k) => vs[n + 1] == Handed(vs[n], k, p)
            case PeerCon(k) => vs[n + 1] == Handed(vs[n], k, p)
  {
    assert EvlRunStep(vs, es, os, n);
    EvlRunKeepsInv(vs, es, os, n);
    assert EvlEntryInv(vs[n], p.head.dest);
    match vs[n].table[p.head.dest]
    case Xbuf(k) => HeldByDevice(vs[n], c, p, snap, os[n], k);
    case Tcp(k) => HeldByConnection(vs[n], c, p, snap, os[n], k);
    case PeerCon(k) => HeldByConnection(vs[n], c, p, snap, os[n], k);
  }
}
