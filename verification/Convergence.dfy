/** Advertisements converge: what a peer routes to a link, updated by the adverts still in flight, is exactly the set
    of mailboxes registered at the other end. */
module Convergence {
  import opened Wrappers
  import opened Bytes
  import opened Protocol
  import opened RouterModel
  import opened RouterInNetwork
  import opened Network
  import NetworkTheorems

  // ------------------------------------------------------------------ replaying adverts

  ghost function After(s: set<Word>, p: Packet): set<Word> {
    if |p.body| < MBX_PAYLOAD_SIZE then s
    else if p.head.typ == MSG_ROUTER_PEER_REGISTER then s + {Mbx(p)}
    else if p.head.typ == MSG_ROUTER_PEER_DELETE then s - {Mbx(p)}
    else s
  }

  ghost function Replay(s: set<Word>, q: seq<Packet>): set<Word>
    decreases |q|
  {
    if q == [] then s else Replay(After(s, q[0]), q[1..])
  }

  lemma {:induction false} ReplayAppend(s: set<Word>, q: seq<Packet>, ps: seq<Packet>)
    ensures Replay(s, q + ps) == Replay(Replay(s, q), ps)
    decreases |q|
  {
    if q == [] {
      assert q + ps == ps;
    } else {
      assert (q + ps)[1..] == q[1..] + ps;
      ReplayAppend(After(s, q[0]), q[1..], ps);
    }
  }

  lemma ReplayOne(s: set<Word>, p: Packet)
    ensures Replay(s, [p]) == After(s, p)
  {
    assert [p][1..] == [];
  }

  lemma {:induction false} ReplayRegisters(s: set<Word>, ids: seq<Word>)
    ensures Replay(s, Registers(ids)) == s + set d | d in ids
    decreases |ids|
  {
    if ids != [] {
      AdvertRoundTrip(MSG_ROUTER_PEER_REGISTER, ids[0]);
      assert Registers(ids)[1..] == Registers(ids[1..]);
      ReplayRegisters(s + {ids[0]}, ids[1..]);
      assert (set d | d in ids) == {ids[0]} + set d | d in ids[1..];
    } else {
      assert Registers(ids) == [];
    }
  }

  lemma ReplaySnapshot(ids: seq<Word>, local: set<Word>)
    requires Lists(ids, local)
    ensures Replay({}, [Hello()] + Registers(ids)) == local
  {
    assert ([Hello()] + Registers(ids))[1..] == Registers(ids);
    ReplayRegisters({}, ids);
    assert (set d | d in ids) == local;
  }

  // ------------------------------------------------------------------ one link

  /** The ids that router r sends to channel e. */
  ghost function Routed(r: Router, e: nat): set<Word> {
    set d | d in r.table && r.table[d] == e
  }

  ghost predicate JoinsPeer(ch: Channel, s: nat) { ch.remote.Peer? && ch.remote.router == s }

  ghost predicate RunsTo(ch: Channel, s: nat) { JoinsPeer(ch, s) && ch.running }

  /** Of the links between the two routers, channel c is the only one still running at the far end. */
  ghost predicate OnlyLink(net: Net, a: nat, c: nat)
    requires IsChan(net, a, c)
  {
    var far := Chan(net, a, c).remote;
    && far.Peer?
    && forall j :: IsChan(net, far.router, j) && RunsTo(Chan(net, far.router, j), a) ==> j == far.chan
  }

  /** Open at the sender, and being read at the receiver. */
  ghost predicate Up(net: Net, a: nat, c: nat)
    requires IsChan(net, a, c) && Chan(net, a, c).remote.Peer?
  {
    Chan(net, a, c).open && Reading(net, Chan(net, a, c).remote.router, Chan(net, a, c).remote.chan)
  }

  ghost predicate Synced(ra: Router, c: nat, rb: Router, e: nat)
    requires c < |ra.chans|
  {
    if ra.chans[c].isPeer then Replay(Routed(rb, e), ra.chans[c].out) == ra.local
    else Routed(rb, e) == {}
  }

  ghost predicate LinkInv(net: Net, a: nat, c: nat)
    requires IsChan(net, a, c) && Chan(net, a, c).remote.Peer?
  {
    var far := Chan(net, a, c).remote;
    far.router < |net.routers| && Synced(net.routers[a], c, net.routers[far.router], far.chan)
  }

  // ------------------------------------------------------------------ the sending side

  /** What a step adds to an open peer channel, replayed, accounts for the change of local_mailboxes_. */
  lemma SenderHandles(w: Plan, a: nat, r: Router, k: nat, p: Packet, snap: seq<Word>, c: nat) returns (ps: seq<Packet>)
    requires RouterInv(w, a, r) && k < |r.chans| && c < |r.chans| && Readable(w, a, r.chans[k], p)
    requires r.chans[c].isPeer && HandleFrame(r, k, p, snap).chans[c].open
    ensures HandleFrame(r, k, p, snap).chans[c].out == r.chans[c].out + ps
    ensures HandleFrame(r, k, p, snap).chans[c].isPeer
    ensures Replay(r.local, ps) == HandleFrame(r, k, p, snap).local
  {
    assert ChannelInv(w, a, r.chans[c]) && ChannelInv(w, a, r.chans[k]);
    var typ, r' := p.head.typ, HandleFrame(r, k, p, snap);
    ps := [];
    if |p.body| > r.maxMsg {
    } else if typ == MSG_ROUTER_MBX_INIT_WITH_REPLY && |p.body| >= MBX_PAYLOAD_SIZE && Mbx(p) !in r.table {
      RegistrationTold(w, a, r, k, p, snap, c);
      ps := [Register(Mbx(p))];
    } else if typ == MSG_ROUTER_MBX_DELETE && |p.body| >= MBX_PAYLOAD_SIZE {
      ps := [Delete(Mbx(p))];
      AdvertRoundTrip(MSG_ROUTER_PEER_DELETE, Mbx(p));
      ReplayOne(r.local, ps[0]);
    } else if IsData(p) {
      if r'.chans[c].out != r.chans[c].out {
        DataToPeer(w, a, r, k, p, c);
        ps := [p];
        ReplayOne(r.local, p);
      }
    }
  }

  lemma RegistrationTold(w: Plan, a: nat, r: Router, k: nat, p: Packet, snap: seq<Word>, c: nat)
    requires RouterInv(w, a, r) && k < |r.chans| && c < |r.chans| && Readable(w, a, r.chans[k], p)
    requires r.chans[c].isPeer && r.chans[c].open && MBX_PAYLOAD_SIZE <= |p.body| <= r.maxMsg
    requires p.head.typ == MSG_ROUTER_MBX_INIT_WITH_REPLY && Mbx(p) !in r.table
    ensures var r' := HandleFrame(r, k, p, snap);
            && r'.chans[c].out == r.chans[c].out + [Register(Mbx(p))] && r'.chans[c].isPeer
            && Replay(r.local, [Register(Mbx(p))]) == r'.local
  {
    assert ChannelInv(w, a, r.chans[c]) && ChannelInv(w, a, r.chans[k]);
    AdvertRoundTrip(MSG_ROUTER_PEER_REGISTER, Mbx(p));
    ReplayOne(r.local, Register(Mbx(p)));
  }

  lemma DataToPeer(w: Plan, a: nat, r: Router, k: nat, p: Packet, c: nat)
    requires RouterInv(w, a, r) && k < |r.chans| && c < |r.chans| && Readable(w, a, r.chans[k], p)
    requires r.chans[c].isPeer && IsData(p) && RouteData(r, k, p).chans[c].out != r.chans[c].out
    ensures RouteData(r, k, p).chans[c].out == r.chans[c].out + [p] && RouteData(r, k, p).local == r.local
  {
    assert ChannelInv(w, a, r.chans[c]) && ChannelInv(w, a, r.chans[k]);
    var hop := NextHop(r, p.head.dest);
    assert ChannelInv(w, a, r.chans[if hop.Some? then hop.value else c]);
  }

  /** Reading the first HELLO on the link sends the snapshot of local_mailboxes_. */
  lemma SenderUpgrades(w: Plan, a: nat, r: Router, k: nat, p: Packet, snap: seq<Word>, c: nat)
    requires RouterInv(w, a, r) && k < |r.chans| && c < |r.chans| && Readable(w, a, r.chans[k], p)
    requires r.chans[c].remote.Peer? && !r.chans[c].isPeer && Lists(snap, r.local)
    requires HandleFrame(r, k, p, snap).chans[c].isPeer && HandleFrame(r, k, p, snap).chans[c].open
    ensures Replay({}, HandleFrame(r, k, p, snap).chans[c].out) == HandleFrame(r, k, p, snap).local
  {
    assert ChannelInv(w, a, r.chans[c]);
    var r1 := r.(chans := r.chans[c := r.chans[c].(isPeer := true)]);
    assert HandleFrame(r, k, p, snap) == Advertise(r1, c, snap);
    assert [] + ([Hello()] + Registers(snap)) == [Hello()] + Registers(snap);
    ReplaySnapshot(snap, r.local);
  }

  lemma SenderSynced(w: Plan, a: nat, r: Router, k: nat, p: Packet, snap: seq<Word>, c: nat, rb: Router, e: nat)
    requires RouterInv(w, a, r) && k < |r.chans| && c < |r.chans| && Readable(w, a, r.chans[k], p)
    requires r.chans[c].remote.Peer? && Lists(snap, r.local) && HandleFrame(r, k, p, snap).chans[c].open
    requires Synced(r, c, rb, e)
    ensures Synced(HandleFrame(r, k, p, snap), c, rb, e)
  {
    if r.chans[c].isPeer {
      var ps := SenderHandles(w, a, r, k, p, snap, c);
      ReplayAppend(Routed(rb, e), r.chans[c].out, ps);
    } else if HandleFrame(r, k, p, snap).chans[c].isPeer {
      SenderUpgrades(w, a, r, k, p, snap, c);
    }
  }

  lemma SenderReads(w: Plan, a: nat, r: Router, k: nat, p: Packet, c: nat, rb: Router, e: nat)
    requires RouterInv(w, a, r) && k < |r.chans| && c < |r.chans| && Readable(w, a, r.chans[k], p)
    requires r.chans[c].remote.Peer? && r.chans[k].remote.Parent?
    requires Synced(r, c, rb, e)
    ensures Synced(ReadUpstream(r, k, p), c, rb, e)
  {
    var r' := ReadUpstream(r, k, p);
    if r'.chans[c].out != r.chans[c].out {
      assert EntryInv(w, a, r, p.head.dest);
      ReplayAppend(Routed(rb, e), r.chans[c].out, [p]);
      ReplayOne(r.local, p);
    }
  }

  // ------------------------------------------------------------------ the receiving side

  /** A frame changes the ids routed to channel e only if it is an advert read from e, and then as Replay says. */
  lemma ReceiverHandles(w: Plan, b: nat, r: Router, k: nat, p: Packet, snap: seq<Word>, e: nat)
    requires RouterInv(w, b, r) && k < |r.chans| && e < |r.chans| && Readable(w, b, r.chans[k], p)
    requires r.chans[e].remote.Peer? && r.chans[k].running && r.chans[e].running
    requires forall j :: 0 <= j < |r.chans| && JoinsPeer(r.chans[j], r.chans[e].remote.router) && r.chans[j].running
                         ==> j == e
    requires HandleFrame(r, k, p, snap).chans[e].open
    ensures Routed(HandleFrame(r, k, p, snap), e) == if k == e then After(Routed(r, e), p) else Routed(r, e)
  {
    assert ChannelInv(w, b, r.chans[k]) && ChannelInv(w, b, r.chans[e]);
    if |p.body| >= MBX_PAYLOAD_SIZE && Mbx(p) in r.table {
      assert EntryInv(w, b, r, Mbx(p));
    }
    if IsData(p) { DataKeepsTable(r, k, p); }
  }

  lemma DataKeepsTable(r: Router, k: nat, p: Packet)
    requires Valid(r) && k < |r.chans|
    ensures RouteData(r, k, p).table == r.table
  {
  }

  // ------------------------------------------------------------------ every step keeps every link synced

  /** The tables and other queues of a router do not change when one of its queues is read. */
  lemma PopSynced(ra: Router, c: nat, j: nat, rb: Router, e: nat, i: nat)
    requires c < |ra.chans| && Synced(ra, c, rb, e)
    ensures j < |ra.chans| && ra.chans[j].out != [] && j != c ==> Synced(Pop(ra, j), c, rb, e)
    ensures i < |rb.chans| && rb.chans[i].out != [] ==> Synced(ra, c, Pop(rb, i), e)
  {
    if i < |rb.chans| && rb.chans[i].out != [] {
      assert Routed(Pop(rb, i), e) == Routed(rb, e);
    }
  }

  /** A link that is alone between its routers, up and synced. */
  ghost predicate Tracked(w: Plan, net: Net, a: nat, c: nat) {
    && NetInv(w, net) && NetValid(net)
    && IsChan(net, a, c) && OnlyLink(net, a, c) && Up(net, a, c) && LinkInv(net, a, c)
  }

  ghost predicate SyncedIn(rs: seq<Router>, a: nat, c: nat, far: Remote) {
    far.Peer? && a < |rs| && far.router < |rs| && c < |rs[a].chans| && Synced(rs[a], c, rs[far.router], far.chan)
  }

  /** The sender of the link at (a, c) reads a frame. */
  lemma SenderDelivers(w: Plan, net: Net, k: nat, snap: seq<Word>, a: nat, c: nat)
    requires Tracked(w, net, a, c) && Pending(net, a, k) && Lists(snap, net.routers[a].local)
    requires Handled(net, a, k, snap).chans[c].open
    ensures SyncedIn(Delivered(net, a, k, Handled(net, a, k, snap)), a, c, Chan(net, a, c).remote)
  {
    var r, far, p := net.routers[a], Chan(net, a, c).remote, InFlight(net, a, k);
    assert RouterInv(w, a, r) && ChannelInv(w, a, r.chans[k]) && EndInv(net, a, c);
    InFlightReadable(w, net, a, k);
    if r.chans[k].kind.Link? {
      SenderSynced(w, a, r, k, p, snap, c, net.routers[far.router], far.chan);
    } else {
      SenderReads(w, a, r, k, p, c, net.routers[far.router], far.chan);
    }
    PopSynced(Handled(net, a, k, snap), c, 0, net.routers[far.router], far.chan, Chan(net, a, k).remote.chan);
  }

  /** The receiver's table after reading a frame, from the link at (a, c) or another. */
  lemma ReceiverReads(w: Plan, net: Net, k: nat, snap: seq<Word>, a: nat, c: nat)
    requires Tracked(w, net, a, c) && Pending(net, Chan(net, a, c).remote.router, k)
    requires Reading(net, Chan(net, a, c).remote.router, k)
    requires var far := Chan(net, a, c).remote; Handled(net, far.router, k, snap).chans[far.chan].open
    ensures var far := Chan(net, a, c).remote;
            var s, s' := Routed(net.routers[far.router], far.chan), Routed(Handled(net, far.router, k, snap), far.chan);
            s' == if k == far.chan then After(s, InFlight(net, far.router, k)) else s
  {
    var b, e := Chan(net, a, c).remote.router, Chan(net, a, c).remote.chan;
    assert EndInv(net, a, c) && RouterInv(w, b, net.routers[b]);
    assert ChannelInv(w, b, Chan(net, b, k)) && ChannelInv(w, b, Chan(net, b, e));
    InFlightReadable(w, net, b, k);
    forall j | 0 <= j < |net.routers[b].chans| && JoinsPeer(net.routers[b].chans[j], a) && net.routers[b].chans[j].running
      ensures j == e
    {
      assert IsChan(net, b, j);
    }
    if Chan(net, b, k).kind.Link? { ReceiverHandles(w, b, net.routers[b], k, InFlight(net, b, k), snap, e); }
  }

  /** The receiver of the link at (a, c) reads a frame. */
  lemma ReceiverDelivers(w: Plan, net: Net, k: nat, snap: seq<Word>, a: nat, c: nat)
    requires Tracked(w, net, a, c) && Pending(net, Chan(net, a, c).remote.router, k)
    requires Reading(net, Chan(net, a, c).remote.router, k)
    requires var far := Chan(net, a, c).remote; Handled(net, far.router, k, snap).chans[far.chan].open
    ensures var b := Chan(net, a, c).remote.router;
            SyncedIn(Delivered(net, b, k, Handled(net, b, k, snap)), a, c, Chan(net, a, c).remote)
  {
    var b, e := Chan(net, a, c).remote.router, Chan(net, a, c).remote.chan;
    var r, near := Handled(net, b, k, snap), Chan(net, b, k).remote;
    assert EndInv(net, a, c) && EndInv(net, b, k);
    ReceiverReads(w, net, k, snap, a, c);
    if k == e {
      assert near.Peer? && near.router == a && near.chan == c;
      assert Synced(Pop(net.routers[a], c), c, r, e);
    } else {
      PopSynced(net.routers[a], c, near.chan, r, e, 0);
    }
  }

  /** A frame read at neither end leaves the link alone. */
  lemma ElsewhereDelivers(net: Net, i: nat, k: nat, r: Router, a: nat, c: nat)
    requires LinksInv(net) && Pending(net, i, k) && IsChan(net, a, c) && OnlyLink(net, a, c) && Up(net, a, c)
    requires LinkInv(net, a, c) && i != a && i != Chan(net, a, c).remote.router
    ensures SyncedIn(Delivered(net, i, k, r), a, c, Chan(net, a, c).remote)
  {
    var far, near := Chan(net, a, c).remote, Chan(net, i, k).remote;
    assert EndInv(net, a, c) && EndInv(net, i, k);
    PopSynced(net.routers[a], c, near.chan, net.routers[far.router], far.chan, near.chan);
  }

  /** Reading a frame anywhere keeps the link at (a, c) synced. */
  lemma DeliverSynced(w: Plan, net: Net, i: nat, k: nat, snap: seq<Word>, a: nat, c: nat)
    requires Tracked(w, net, a, c) && Pending(net, i, k) && Reading(net, i, k) && Lists(snap, net.routers[i].local)
    requires i == a ==> Handled(net, i, k, snap).chans[c].open
    requires var far := Chan(net, a, c).remote; i == far.router ==> Handled(net, i, k, snap).chans[far.chan].open
    ensures SyncedIn(Delivered(net, i, k, Handled(net, i, k, snap)), a, c, Chan(net, a, c).remote)
  {
    if i == a {
      SenderDelivers(w, net, k, snap, a, c);
    } else if i == Chan(net, a, c).remote.router {
      ReceiverDelivers(w, net, k, snap, a, c);
    } else {
      ElsewhereDelivers(net, i, k, Handled(net, i, k, snap), a, c);
    }
  }

  lemma ClientSendSynced(w: Plan, net: Net, ev: Event, a: nat, c: nat)
    requires Tracked(w, net, a, c) && Enabled(w, net, ev) && ev.ClientSends?
    requires ev.i == a ==> HandleFrame(net.routers[a], ev.c, ev.p, ev.snap).chans[c].open
    requires var far := Chan(net, a, c).remote;
             ev.i == far.router ==> HandleFrame(net.routers[ev.i], ev.c, ev.p, ev.snap).chans[far.chan].open
    ensures SyncedIn(Step(w, net, ev).routers, a, c, Chan(net, a, c).remote)
  {
    var rs, i := net.routers, ev.i;
    var b, e := Chan(net, a, c).remote.router, Chan(net, a, c).remote.chan;
    assert EndInv(net, a, c);
    assert RouterInv(w, i, rs[i]) && RouterInv(w, a, rs[a]) && ChannelInv(w, a, rs[a].chans[c]);
    if i == a {
      SenderSynced(w, a, rs[a], ev.c, ev.p, ev.snap, c, rs[b], e);
    } else if i == b {
      forall j | 0 <= j < |rs[b].chans| && JoinsPeer(rs[b].chans[j], a) && rs[b].chans[j].running
        ensures j == e
      {
        assert IsChan(net, b, j);
      }
      ReceiverHandles(w, b, rs[b], ev.c, ev.p, ev.snap, e);
    }
  }

  /** A new link starts synced: the initiator has just sent its snapshot, the acceptor nothing. */
  lemma NewLinkSynced(w: Plan, net: Net, ev: Event, a: nat, c: nat)
    requires NetInv(w, net) && NetValid(net) && Enabled(w, net, ev)
    requires IsChan(Step(w, net, ev), a, c) && !IsChan(net, a, c) && Chan(Step(w, net, ev), a, c).remote.Peer?
    requires ev.ClientConnects? || ev.PeerConnects? || ev.ParentConnects?
    ensures LinkInv(Step(w, net, ev), a, c)
  {
    assert ev.PeerConnects?;
    var rs, i, s := net.routers, ev.i, ev.s;
    assert RouterInv(w, i, rs[i]) && Valid(rs[s]) && Valid(rs[i]);
    AttachPeerKeeps(w, i, rs[i], Peer(s, |rs[s].chans|), ev.snap);
    assert Routed(rs[s], |rs[s].chans|) == {} && Routed(rs[i], |rs[i].chans|) == {};
    ReplaySnapshot(ev.snap, rs[i].local);
  }

  lemma DeliveredAt(net: Net, i: nat, k: nat, r: Router)
    requires Pending(net, i, k)
    ensures i < |Delivered(net, i, k, r)| == |net.routers| && Delivered(net, i, k, r)[i] == r
  {
  }

  /** Connecting elsewhere, or ending the loop of another channel, leaves a link alone. */
  lemma OtherStepSynced(w: Plan, net: Net, ev: Event, a: nat, c: nat)
    requires Tracked(w, net, a, c) && Enabled(w, net, ev) && !ev.ClientSends? && !ev.Delivers?
    requires ev != LoopEnds(a, c) && ev != LoopEnds(Chan(net, a, c).remote.router, Chan(net, a, c).remote.chan)
    ensures SyncedIn(Step(w, net, ev).routers, a, c, Chan(net, a, c).remote)
  {
    var net', far := Step(w, net, ev), Chan(net, a, c).remote;
    assert EndInv(net, a, c);
    assert net'.routers[a].chans[c] == net.routers[a].chans[c] && net'.routers[a].local == net.routers[a].local;
    assert Routed(net'.routers[far.router], far.chan) == Routed(net.routers[far.router], far.chan);
  }

  /** A link that is up, synced and alone at the receiver before a step, and up after it, is synced after it. */
  lemma OldLinkSynced(w: Plan, net: Net, ev: Event, a: nat, c: nat)
    requires Tracked(w, net, a, c) && Enabled(w, net, ev)
    requires IsChan(Step(w, net, ev), a, c) && Chan(Step(w, net, ev), a, c).remote == Chan(net, a, c).remote
    requires Up(Step(w, net, ev), a, c)
    ensures LinkInv(Step(w, net, ev), a, c)
  {
    assert EndInv(net, a, c);
    if ev.ClientSends? {
      ClientSendSynced(w, net, ev, a, c);
    } else if ev.Delivers? {
      DeliveredAt(net, ev.i, ev.c, Handled(net, ev.i, ev.c, ev.snap));
      DeliverSynced(w, net, ev.i, ev.c, ev.snap, a, c);
    } else {
      OtherStepSynced(w, net, ev, a, c);
    }
  }

  /** The far end, socket and loop of a channel after a step. */
  ghost predicate Stays(ch: Channel, ch': Channel) {
    ch'.remote == ch.remote && (ch'.open ==> ch.open) && (ch'.running ==> ch.running)
  }

  /** Steps never move a link, reopen it or restart its loop. */
  lemma ChannelStays(w: Plan, net: Net, ev: Event, i: nat, k: nat)
    requires NetInv(w, net) && NetValid(net) && Enabled(w, net, ev) && IsChan(net, i, k)
    ensures IsChan(Step(w, net, ev), i, k) && Stays(Chan(net, i, k), Chan(Step(w, net, ev), i, k))
  {
    if ev.ClientSends? || ev.Delivers? { HandlerStays(w, net, ev, i, k); }
  }

  lemma HandlerStays(w: Plan, net: Net, ev: Event, i: nat, k: nat)
    requires NetInv(w, net) && NetValid(net) && Enabled(w, net, ev) && IsChan(net, i, k)
    requires ev.ClientSends? || ev.Delivers?
    ensures IsChan(Step(w, net, ev), i, k) && Stays(Chan(net, i, k), Chan(Step(w, net, ev), i, k))
  {
    if i == ev.i {
      HandlerGrows(w, net, ev);
      assert Grows(net.routers[i].chans[k], Step(w, net, ev).routers[i].chans[k]);
    }
  }

  lemma HandlerGrows(w: Plan, net: Net, ev: Event)
    requires NetInv(w, net) && NetValid(net) && Enabled(w, net, ev) && (ev.ClientSends? || ev.Delivers?)
    ensures RouterGrows(net.routers[ev.i], Step(w, net, ev).routers[ev.i])
  {
    var r, c := net.routers[ev.i], ev.c;
    assert RouterInv(w, ev.i, r) && ChannelInv(w, ev.i, r.chans[c]);
    if ev.ClientSends? {
      HandleKeeps(w, ev.i, r, c, ev.p, ev.snap);
    } else {
      InFlightReadable(w, net, ev.i, c);
      if r.chans[c].kind.Link? { HandleKeeps(w, ev.i, r, c, InFlight(net, ev.i, c), ev.snap); }
      else { ReadUpstreamKeeps(w, ev.i, r, c, InFlight(net, ev.i, c)); }
    }
  }

  /** A link that is up after a step and was there before it was up before it. */
  lemma UpBefore(w: Plan, net: Net, ev: Event, a: nat, c: nat)
    requires NetInv(w, net) && NetValid(net) && Enabled(w, net, ev) && IsChan(net, a, c)
    requires IsChan(Step(w, net, ev), a, c) && Chan(Step(w, net, ev), a, c).remote.Peer? && Up(Step(w, net, ev), a, c)
    ensures Chan(Step(w, net, ev), a, c).remote == Chan(net, a, c).remote && Up(net, a, c)
  {
    assert EndInv(net, a, c);
    ChannelStays(w, net, ev, a, c);
    var far := Chan(net, a, c).remote;
    ChannelStays(w, net, ev, far.router, far.chan);
  }

  // ------------------------------------------------------------------ whole runs

  /** At every moment of the link's life up to k, no other link between its routers was running at the receiver: those
      attached earlier had ended there before this one was attached, and none was attached later. */
  ghost predicate AloneSoFar(run: NetworkTheorems.Run, k: nat, a: nat, c: nat)
    requires k < |run.nets|
  {
    forall m: nat :: m <= k && IsChan(run.nets[m], a, c) ==> OnlyLink(run.nets[m], a, c)
  }

  lemma {:induction false} LinkSynced(w: Plan, run: NetworkTheorems.Run, k: nat, a: nat, c: nat)
    requires OneHome(w) && NetworkTheorems.IsRun(w, run) && k < |run.nets| && IsChan(run.nets[k], a, c)
    requires AloneSoFar(run, k, a, c) && Chan(run.nets[k], a, c).remote.Peer? && Up(run.nets[k], a, c)
    ensures LinkInv(run.nets[k], a, c)
  {
    if k > 0 {
      var net, ev := run.nets[k - 1], run.events[k - 1];
      assert NetworkTheorems.RunStep(w, run, k - 1);
      NetworkTheorems.RunKeepsInv(w, run, k - 1);
      if IsChan(net, a, c) {
        UpBefore(w, net, ev, a, c);
        LinkSynced(w, run, k - 1, a, c);
        OldLinkSynced(w, net, ev, a, c);
      } else {
        OnlyConnectsAttach(w, net, ev, a, c);
        NewLinkSynced(w, net, ev, a, c);
      }
    }
  }

  lemma OnlyConnectsAttach(w: Plan, net: Net, ev: Event, a: nat, c: nat)
    requires NetInv(w, net) && NetValid(net) && Enabled(w, net, ev)
    requires IsChan(Step(w, net, ev), a, c) && !IsChan(net, a, c)
    ensures ev.ClientConnects? || ev.PeerConnects? || ev.ParentConnects?
  {
  }

  /** In every reachable state, on a link that is up, that no other link between the two routers has overlapped at the
      receiver, and after the sender's snapshot: the receiver's routes to the link, updated by the adverts in flight,
      are the sender's local mailboxes. */
  lemma AdvertsConverge(w: Plan, run: NetworkTheorems.Run, k: nat, a: nat, c: nat)
    requires OneHome(w) && NetworkTheorems.IsRun(w, run) && k < |run.nets| && IsChan(run.nets[k], a, c)
    requires AloneSoFar(run, k, a, c) && Chan(run.nets[k], a, c).remote.Peer?
    requires Up(run.nets[k], a, c) && Chan(run.nets[k], a, c).isPeer
    ensures var net, far := run.nets[k], Chan(run.nets[k], a, c).remote;
            && Replay(Routed(net.routers[far.router], far.chan), Chan(net, a, c).out) == net.routers[a].local
            && (Chan(net, a, c).out == [] ==> Routed(net.routers[far.router], far.chan) == net.routers[a].local)
  {
    LinkSynced(w, run, k, a, c);
  }

  /** Every id a live client holds is in the advertised set. */
  lemma LiveEntriesAreLocal(w: Plan, run: NetworkTheorems.Run, k: nat, a: nat, d: Word)
    requires OneHome(w) && NetworkTheorems.IsRun(w, run) && k < |run.nets| && a < |run.nets[k].routers|
    requires d in run.nets[k].routers[a].table && w.may(a, d)
    ensures d in run.nets[k].routers[a].local
  {
    NetworkTheorems.RunKeepsInv(w, run, k);
    var r := run.nets[k].routers[a];
    assert RouterInv(w, a, r) && EntryInv(w, a, r, d) && ChannelInv(w, a, r.chans[r.table[d]]);
  }
}
