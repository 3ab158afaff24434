/** What one router of a network keeps, whatever its neighbours send, when every mailbox id has one home router. */
module RouterInNetwork {
  import opened Wrappers
  import opened Bytes
  import opened Protocol
  import opened RouterModel

  /** What the network theorems suppose: the routers whose clients may register or delete an id, and a rank that falls
      along every upstream hop taken for a destination. */
  datatype Plan = Plan(may: (nat, Word) -> bool, rank: (nat, Word) -> nat)

  /** Every id has at most one home: the clients of at most one router register or delete it. */
  ghost predicate OneHome(w: Plan) {
    forall i, j, d :: w.may(i, d) && w.may(j, d) ==> i == j
  }

  /** Link counts of a data frame: a client's frame only climbs, a router's error answer only descends. */
  ghost predicate Climbs(w: Plan, p: Packet) {
    if p.tag.uid.Some? then p.tag.downs == 0 && p.tag.ups <= w.rank(p.tag.origin, p.head.dest)
    else p.tag.ups == 0 && p.tag.downs <= 1
  }

  ghost predicate IsAdvert(p: Packet) {
    p.head.typ in {MSG_ROUTER_PEER_REGISTER, MSG_ROUTER_PEER_DELETE} && |p.body| == MBX_PAYLOAD_SIZE
  }

  /** What router i may have queued towards the given far end. */
  ghost predicate Sendable(w: Plan, i: nat, remote: Remote, p: Packet) {
    match remote
    case Client => p.tag.peers <= 1 && Climbs(w, p)
    case Peer(s, _) =>
      || p == Hello()
      || (IsAdvert(p) && p.tag == UNTAGGED && w.may(i, Mbx(p)))
      || (IsData(p) && w.may(s, p.head.dest) && p.tag.peers == 0 && Climbs(w, p))
    case Parent(u, _) =>
      && IsData(p) && p.tag.uid.Some? && p.tag.peers == 0 && p.tag.downs == 0
      && p.tag.ups + 1 + w.rank(u, p.head.dest) <= w.rank(p.tag.origin, p.head.dest)
    case Child(_, _) => p.head.typ == MSG_ERROR && p.tag == UNTAGGED
  }

  /** Link counts after crossing to the far end. */
  function Cross(remote: Remote, p: Packet): Packet {
    match remote
    case Client => p
    case Peer(_, _) => p.(tag := p.tag.(peers := p.tag.peers + 1))
    case Parent(_, _) => p.(tag := p.tag.(ups := p.tag.ups + 1))
    case Child(_, _) => p.(tag := p.tag.(downs := p.tag.downs + 1))
  }

  /** What a client of router i may send: no peer-protocol frames, and registrations and deletes of permitted ids only. */
  ghost predicate Enters(w: Plan, i: nat, p: Packet) {
    && p.head.typ !in {MSG_ROUTER_PEER_HELLO, MSG_ROUTER_PEER_REGISTER, MSG_ROUTER_PEER_DELETE}
    && (p.head.typ in {MSG_ROUTER_MBX_INIT_WITH_REPLY, MSG_ROUTER_MBX_DELETE} && |p.body| >= MBX_PAYLOAD_SIZE
        ==> w.may(i, Mbx(p)))
    && p.tag.uid.Some? && p.tag == Tag(p.tag.uid, i, 0, 0, 0)
  }

  /** What router i may read from the given far end. */
  ghost predicate Readable(w: Plan, i: nat, ch: Channel, p: Packet) {
    match ch.remote
    case Client => Enters(w, i, p)
    case Peer(s, _) =>
      || p.head.typ == MSG_ROUTER_PEER_HELLO
      || (ch.isPeer && IsAdvert(p) && w.may(s, Mbx(p)))
      || (ch.isPeer && IsData(p) && w.may(i, p.head.dest) && p.tag.peers == 1 && Climbs(w, p))
    case Parent(_, _) => p.head.typ == MSG_ERROR && p.tag == Tag(None, 0, 0, 1, 0)
    case Child(_, _) =>
      && IsData(p) && p.tag.uid.Some? && p.tag.peers == 0 && p.tag.downs == 0
      && p.tag.ups + w.rank(i, p.head.dest) <= w.rank(p.tag.origin, p.head.dest)
  }

  // ------------------------------------------------------------------ the invariant of one router

  ghost predicate ChannelInv(w: Plan, i: nat, ch: Channel) {
    && (ch.kind.Link? <==> !ch.remote.Parent?)
    && (ch.isPeer ==> ch.remote.Peer?)
    && (ch.remote.Peer? && !ch.isPeer ==> ch.out == [])
    && (!ch.remote.Client? ==> ch.remote.router != i)
    && forall k :: 0 <= k < |ch.out| ==> Sendable(w, i, ch.remote, ch.out[k])
  }

  /** Every route leads home: to a client here, or to the peer connection of the home router. */
  ghost predicate EntryInv(w: Plan, i: nat, r: Router, d: Word)
    requires d in r.table
  {
    var c := r.table[d];
    && c < |r.chans|
    && r.chans[c].running
    && match r.chans[c].remote
       case Client => w.may(i, d) && d in r.local
       case Peer(s, _) => r.chans[c].isPeer && w.may(s, d)
       case _ => false
  }

  ghost predicate ChannelsInv(w: Plan, i: nat, r: Router) {
    forall c :: 0 <= c < |r.chans| ==> ChannelInv(w, i, r.chans[c])
  }

  ghost predicate TablesInv(w: Plan, i: nat, r: Router) {
    (forall d :: d in r.table ==> EntryInv(w, i, r, d)) && (forall d :: d in r.local ==> w.may(i, d))
  }

  ghost predicate RouterInv(w: Plan, i: nat, r: Router) {
    OneHome(w) && Valid(r) && ChannelsInv(w, i, r) && TablesInv(w, i, r)
  }

  /** Upstream hops descend in rank. */
  ghost predicate RankFalls(w: Plan, i: nat, r: Router) {
    forall d: Word, k ::
      NextHop(r, d) == Some(k) && r.chans[k].remote.Parent? ==> w.rank(r.chans[k].remote.router, d) < w.rank(i, d)
  }

  /** How a step may change a channel: output grows, a peer stays a peer, the socket and its far end stay put. */
  ghost predicate Grows(ch: Channel, ch': Channel) {
    && ch'.kind == ch.kind && ch'.remote == ch.remote
    && (ch.isPeer ==> ch'.isPeer)
    && (ch'.open ==> ch.open) && (ch'.running ==> ch.running)
    && ch.out <= ch'.out
  }

  ghost predicate RouterGrows(r: Router, r': Router) {
    |r.chans| == |r'.chans| && forall c :: 0 <= c < |r.chans| ==> Grows(r.chans[c], r'.chans[c])
  }

  // ------------------------------------------------------------------ primitive effects keep it

  lemma EnqueueKeeps(w: Plan, i: nat, ch: Channel, ps: seq<Packet>)
    requires ChannelInv(w, i, ch)
    requires ch.remote.Peer? ==> ch.isPeer
    requires forall k :: 0 <= k < |ps| ==> Sendable(w, i, ch.remote, ps[k])
    ensures ChannelInv(w, i, Enqueue(ch, ps)) && Grows(ch, Enqueue(ch, ps))
  {
  }

  lemma SendKeeps(w: Plan, i: nat, r: Router, c: nat, p: Packet)
    requires RouterInv(w, i, r) && c < |r.chans|
    requires r.chans[c].remote.Peer? ==> r.chans[c].isPeer
    requires Sendable(w, i, r.chans[c].remote, p)
    ensures RouterInv(w, i, Send(r, c, p)) && RouterGrows(r, Send(r, c, p))
  {
    EnqueueKeeps(w, i, r.chans[c], [p]);
    SameTables(w, i, r, Send(r, c, p));
  }

  /** The table invariant reads only the far end, peer flag and loop of each channel. */
  lemma SameTables(w: Plan, i: nat, r: Router, r': Router)
    requires TablesInv(w, i, r) && r'.table == r.table && r'.local == r.local
    requires RouterGrows(r, r') && forall c :: 0 <= c < |r.chans| ==> r'.chans[c].running == r.chans[c].running
    ensures TablesInv(w, i, r')
  {
    forall d | d in r'.table
      ensures EntryInv(w, i, r', d)
    {
      assert EntryInv(w, i, r, d);
    }
  }

  lemma BroadcastKeeps(w: Plan, i: nat, r: Router, p: Packet)
    requires RouterInv(w, i, r) && IsAdvert(p) && p.tag == UNTAGGED && w.may(i, Mbx(p))
    ensures RouterInv(w, i, Broadcast(r, p)) && RouterGrows(r, Broadcast(r, p))
  {
    forall c | 0 <= c < |r.chans|
      ensures ChannelInv(w, i, Told(r.chans[c], p)) && Grows(r.chans[c], Told(r.chans[c], p))
    {
      assert ChannelInv(w, i, r.chans[c]);
      if r.chans[c].isPeer {
        EnqueueKeeps(w, i, r.chans[c], [p]);
      }
    }
    SameTables(w, i, r, Broadcast(r, p));
  }

  lemma AdvertRoundTrip(typ: Int8, d: Word)
    ensures |Advert(typ, d).body| == MBX_PAYLOAD_SIZE && Mbx(Advert(typ, d)) == d
  {
    WordRoundTrip(d, []);
    assert PutWord(d) + [] == PutWord(d);
  }

  lemma AdvertiseKeeps(w: Plan, i: nat, r: Router, c: nat, ids: seq<Word>)
    requires RouterInv(w, i, r) && c < |r.chans| && r.chans[c].isPeer && Lists(ids, r.local)
    ensures RouterInv(w, i, Advertise(r, c, ids)) && RouterGrows(r, Advertise(r, c, ids))
  {
    var ps := [Hello()] + Registers(ids);
    forall k | 0 <= k < |ps|
      ensures Sendable(w, i, r.chans[c].remote, ps[k])
    {
      assert ChannelInv(w, i, r.chans[c]);
      if k > 0 {
        assert ps[k] == Register(ids[k - 1]) && ids[k - 1] in r.local;
        AdvertRoundTrip(MSG_ROUTER_PEER_REGISTER, ids[k - 1]);
      }
    }
    EnqueueKeeps(w, i, r.chans[c], ps);
    SameTables(w, i, r, Advertise(r, c, ids));
  }

  // ------------------------------------------------------------------ the frame handler keeps it

  lemma HelloKeeps(w: Plan, i: nat, r: Router, c: nat, ids: seq<Word>)
    requires RouterInv(w, i, r) && c < |r.chans| && r.chans[c].remote.Peer? && Lists(ids, r.local)
    ensures var r1 := r.(chans := r.chans[c := r.chans[c].(isPeer := true)]);
            RouterInv(w, i, Advertise(r1, c, ids)) && RouterGrows(r, Advertise(r1, c, ids))
  {
    var r1 := r.(chans := r.chans[c := r.chans[c].(isPeer := true)]);
    SameTables(w, i, r, r1);
    AdvertiseKeeps(w, i, r1, c, ids);
    assert forall k :: 0 <= k < |r.chans| ==> Grows(r.chans[k], r1.chans[k]);
  }

  lemma RegistrationKeeps(w: Plan, i: nat, r: Router, c: nat, p: Packet)
    requires RouterInv(w, i, r) && c < |r.chans| && r.chans[c].remote.Client? && r.chans[c].running
    requires |p.body| >= MBX_PAYLOAD_SIZE && w.may(i, Mbx(p)) && Mbx(p) !in r.table
    ensures var r1 := Send(r.(table := r.table[Mbx(p) := c]), c, Reply(MSG_OK, p));
            var r2 := Broadcast(r1.(local := r1.local + {Mbx(p)}), Register(Mbx(p)));
            RouterInv(w, i, r2) && RouterGrows(r, r2)
  {
    var d := Mbx(p);
    var r0 := r.(table := r.table[d := c], local := r.local + {d});
    forall x | x in r0.table
      ensures EntryInv(w, i, r0, x)
    {
      if x != d { assert EntryInv(w, i, r, x); }
    }
    SendKeeps(w, i, r0, c, Reply(MSG_OK, p));
    AdvertRoundTrip(MSG_ROUTER_PEER_REGISTER, d);
    BroadcastKeeps(w, i, Send(r0, c, Reply(MSG_OK, p)), Register(d));
    assert Send(r.(table := r.table[d := c]), c, Reply(MSG_OK, p)).(local := r.local + {d})
        == Send(r0, c, Reply(MSG_OK, p));
  }

  lemma DeletionKeeps(w: Plan, i: nat, r: Router, p: Packet)
    requires RouterInv(w, i, r) && |p.body| >= MBX_PAYLOAD_SIZE && w.may(i, Mbx(p))
    ensures var r1 := Broadcast(r.(table := r.table - {Mbx(p)}, local := r.local - {Mbx(p)}), Delete(Mbx(p)));
            RouterInv(w, i, r1) && RouterGrows(r, r1)
  {
    var r0 := r.(table := r.table - {Mbx(p)}, local := r.local - {Mbx(p)});
    forall x | x in r0.table
      ensures EntryInv(w, i, r0, x)
    {
      assert EntryInv(w, i, r, x);
    }
    AdvertRoundTrip(MSG_ROUTER_PEER_DELETE, Mbx(p));
    BroadcastKeeps(w, i, r0, Delete(Mbx(p)));
  }

  lemma PeerAdvertKeeps(w: Plan, i: nat, r: Router, c: nat, p: Packet, snap: seq<Word>)
    requires RouterInv(w, i, r) && c < |r.chans| && r.chans[c].running
    requires r.chans[c].remote.Peer? && Readable(w, i, r.chans[c], p) && IsAdvert(p)
    ensures RouterInv(w, i, HandleFrame(r, c, p, snap)) && RouterGrows(r, HandleFrame(r, c, p, snap))
  {
    var r' := HandleFrame(r, c, p, snap);
    forall x | x in r'.table
      ensures EntryInv(w, i, r', x)
    {
      if x in r.table { assert EntryInv(w, i, r, x); }
    }
  }

  lemma DataKeeps(w: Plan, i: nat, r: Router, c: nat, p: Packet)
    requires RouterInv(w, i, r) && RankFalls(w, i, r) && c < |r.chans|
    requires r.chans[c].kind.Link? && Readable(w, i, r.chans[c], p) && IsData(p)
    ensures RouterInv(w, i, RouteData(r, c, p)) && RouterGrows(r, RouteData(r, c, p))
  {
    var d := p.head.dest;
    if d in r.table {
      assert EntryInv(w, i, r, d) && ChannelInv(w, i, r.chans[r.table[d]]);
      SendKeeps(w, i, r, r.table[d], p);
    } else if !r.chans[c].isPeer {
      var hop := NextHop(r, d);
      if hop.Some? && r.chans[hop.value].open {
        assert ChannelInv(w, i, r.chans[hop.value]);
        SendKeeps(w, i, r, hop.value, p);
      } else {
        SendKeeps(w, i, r, c, Reply(MSG_ERROR, p));
      }
    }
  }

  /** Every handle_frame step keeps the router's invariant and only adds to its queues. */
  lemma HandleKeeps(w: Plan, i: nat, r: Router, c: nat, p: Packet, snap: seq<Word>)
    requires RouterInv(w, i, r) && RankFalls(w, i, r) && c < |r.chans|
    requires r.chans[c].kind.Link? && r.chans[c].running && Readable(w, i, r.chans[c], p) && Lists(snap, r.local)
    ensures RouterInv(w, i, HandleFrame(r, c, p, snap)) && RouterGrows(r, HandleFrame(r, c, p, snap))
  {
    assert ChannelInv(w, i, r.chans[c]);
    var typ := p.head.typ;
    if |p.body| > r.maxMsg {
      SameTables(w, i, r, HandleFrame(r, c, p, snap));
    } else if typ == MSG_ROUTER_PEER_HELLO {
      if !r.chans[c].isPeer { HelloKeeps(w, i, r, c, snap); }
    } else if IsAdvert(p) {
      PeerAdvertKeeps(w, i, r, c, p, snap);
    } else if typ == MSG_ROUTER_MBX_INIT_WITH_REPLY {
      if |p.body| >= MBX_PAYLOAD_SIZE {
        if Mbx(p) in r.table { SendKeeps(w, i, r, c, Reply(MSG_ERROR, p)); }
        else { RegistrationKeeps(w, i, r, c, p); }
      }
    } else if typ == MSG_ROUTER_MBX_DELETE {
      if |p.body| >= MBX_PAYLOAD_SIZE { DeletionKeeps(w, i, r, p); }
    } else if IsData(p) {
      DataKeeps(w, i, r, c, p);
    }
  }

  lemma ReadUpstreamKeeps(w: Plan, i: nat, r: Router, k: nat, p: Packet)
    requires RouterInv(w, i, r) && k < |r.chans|
    requires r.chans[k].remote.Parent? && Readable(w, i, r.chans[k], p)
    ensures RouterInv(w, i, ReadUpstream(r, k, p)) && RouterGrows(r, ReadUpstream(r, k, p))
  {
    if |p.body| > r.maxMsg {
      EndLoopKeeps(w, i, r, k);
    } else if p.head.dest in r.table {
      var c := r.table[p.head.dest];
      assert EntryInv(w, i, r, p.head.dest) && ChannelInv(w, i, r.chans[c]);
      SendKeeps(w, i, r, c, p);
    }
  }

  lemma EndLoopKeeps(w: Plan, i: nat, r: Router, c: nat)
    requires RouterInv(w, i, r) && c < |r.chans|
    ensures RouterInv(w, i, EndLoop(r, c)) && RouterGrows(r, EndLoop(r, c))
  {
    var r' := EndLoop(r, c);
    assert ChannelInv(w, i, r.chans[c]);
    forall d | d in r'.table
      ensures EntryInv(w, i, r', d)
    {
      assert EntryInv(w, i, r, d);
    }
  }
}
