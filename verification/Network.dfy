/** Any number of routers joined by peer links and upstream links, as a transition system.
    The frames sent on one end of a link are read in order at the other end. */
module Network {
  import opened Wrappers
  import opened Bytes
  import opened RouterModel
  import opened RouterInNetwork

  datatype Net = Net(routers: seq<Router>, next: nat)

  datatype Event =
    | ClientConnects(i: nat)
    | PeerConnects(i: nat, s: nat, snap: seq<Word>)
    | ParentConnects(i: nat, s: nat, kind: Kind)
    | ClientSends(i: nat, c: nat, p: Packet, snap: seq<Word>)
    | Delivers(i: nat, c: nat, snap: seq<Word>)
    | LoopEnds(i: nat, c: nat)

  ghost predicate IsChan(net: Net, i: nat, c: nat) {
    i < |net.routers| && c < |net.routers[i].chans|
  }

  ghost function Chan(net: Net, i: nat, c: nat): Channel
    requires IsChan(net, i, c)
  {
    net.routers[i].chans[c]
  }

  ghost predicate Reading(net: Net, i: nat, c: nat) {
    IsChan(net, i, c) && Chan(net, i, c).open && Chan(net, i, c).running
  }

  /** The far end of the link at (i, c) exists and has something in flight. */
  ghost predicate Pending(net: Net, i: nat, c: nat) {
    && IsChan(net, i, c) && !Chan(net, i, c).remote.Client?
    && var far := Chan(net, i, c).remote;
       IsChan(net, far.router, far.chan) && far.router != i && Chan(net, far.router, far.chan).out != []
  }

  ghost predicate Enabled(w: Plan, net: Net, e: Event) {
    match e
    case ClientConnects(i) => i < |net.routers|
    case PeerConnects(i, s, snap) => i < |net.routers| && s < |net.routers| && i != s && Lists(snap, net.routers[i].local)
    case ParentConnects(i, s, kind) => i < |net.routers| && s < |net.routers| && i != s && !kind.Link?
    case ClientSends(i, c, p, snap) =>
      && Reading(net, i, c) && Chan(net, i, c).remote.Client?
      && Enters(w, i, p) && p.tag.uid == Some(net.next)
      && RankFalls(w, i, net.routers[i]) && Lists(snap, net.routers[i].local)
    case Delivers(i, c, snap) =>
      && Reading(net, i, c) && Pending(net, i, c)
      && RankFalls(w, i, net.routers[i]) && Lists(snap, net.routers[i].local)
    case LoopEnds(i, c) => IsChan(net, i, c) && Chan(net, i, c).running
  }

  ghost function Pop(r: Router, e: nat): Router
    requires e < |r.chans| && r.chans[e].out != []
  {
    r.(chans := r.chans[e := r.chans[e].(out := r.chans[e].out[1..])])
  }

  ghost function InFlight(net: Net, i: nat, c: nat): Packet
    requires Pending(net, i, c)
  {
    var far := Chan(net, i, c).remote;
    Cross(Chan(net, far.router, far.chan).remote, Chan(net, far.router, far.chan).out[0])
  }

  ghost predicate NetValid(net: Net) {
    forall i :: 0 <= i < |net.routers| ==> Valid(net.routers[i])
  }

  /** Router i after reading what is in flight on its channel c. */
  ghost function Handled(net: Net, i: nat, c: nat, snap: seq<Word>): Router
    requires NetValid(net) && Pending(net, i, c)
  {
    var r, p := net.routers[i], InFlight(net, i, c);
    if r.chans[c].kind.Link? then HandleFrame(r, c, p, snap) else ReadUpstream(r, c, p)
  }

  /** The routers once that frame has left the far end's queue and router i has become r. */
  ghost function Delivered(net: Net, i: nat, c: nat, r: Router): seq<Router>
    requires Pending(net, i, c)
  {
    var far := Chan(net, i, c).remote;
    net.routers[far.router := Pop(net.routers[far.router], far.chan)][i := r]
  }

  ghost function Step(w: Plan, net: Net, e: Event): (net': Net)
    requires NetValid(net) && Enabled(w, net, e)
  {
    var rs := net.routers;
    match e
    case ClientConnects(i) => net.(routers := rs[i := Attach(rs[i], Link, Client)])
    case PeerConnects(i, s, snap) =>
      net.(routers := rs[i := AttachPeer(rs[i], Peer(s, |rs[s].chans|), snap)]
                        [s := Attach(rs[s], Link, Peer(i, |rs[i].chans|))])
    case ParentConnects(i, s, kind) =>
      net.(routers := rs[i := Attach(rs[i], kind, Parent(s, |rs[s].chans|))]
                        [s := Attach(rs[s], Link, Child(i, |rs[i].chans|))])
    case ClientSends(i, c, p, snap) =>
      Net(rs[i := HandleFrame(rs[i], c, p, snap)], net.next + 1)
    case Delivers(i, c, snap) =>
      net.(routers := Delivered(net, i, c, Handled(net, i, c, snap)))
    case LoopEnds(i, c) => net.(routers := rs[i := EndLoop(rs[i], c)])
  }

  // ------------------------------------------------------------------ invariant

  function Mirror(remote: Remote, i: nat, c: nat): Remote
    requires !remote.Client?
  {
    match remote
    case Peer(_, _) => Peer(i, c)
    case Parent(_, _) => Child(i, c)
    case Child(_, _) => Parent(i, c)
  }

  /** Each link end names the other end, and an end not yet in peer mode has the HELLO next to read. */
  ghost predicate EndInv(net: Net, i: nat, c: nat)
    requires IsChan(net, i, c)
  {
    var ch := Chan(net, i, c);
    !ch.remote.Client? ==>
      && IsChan(net, ch.remote.router, ch.remote.chan)
      && var far := Chan(net, ch.remote.router, ch.remote.chan);
         && far.remote == Mirror(ch.remote, i, c)
         && (ch.remote.Peer? && !ch.isPeer ==> far.isPeer && far.out != [] && far.out[0] == Hello())
  }

  ghost predicate LinksInv(net: Net) {
    forall i, c :: IsChan(net, i, c) ==> EndInv(net, i, c)
  }

  ghost predicate RoutersInv(w: Plan, net: Net) {
    forall i :: 0 <= i < |net.routers| ==> RouterInv(w, i, net.routers[i])
  }

  ghost predicate NetInv(w: Plan, net: Net) { RoutersInv(w, net) && LinksInv(net) }

  /** What is in flight towards (i, c) is something router i may read there. */
  lemma InFlightReadable(w: Plan, net: Net, i: nat, c: nat)
    requires NetInv(w, net) && Pending(net, i, c)
    ensures Readable(w, i, Chan(net, i, c), InFlight(net, i, c))
  {
    assert EndInv(net, i, c);
    var far := Chan(net, i, c).remote;
    assert RouterInv(w, far.router, net.routers[far.router]);
    assert ChannelInv(w, far.router, Chan(net, far.router, far.chan));
    assert Sendable(w, far.router, Chan(net, far.router, far.chan).remote, Chan(net, far.router, far.chan).out[0]);
  }

  lemma PopKeeps(w: Plan, i: nat, r: Router, e: nat)
    requires RouterInv(w, i, r) && e < |r.chans| && r.chans[e].out != []
    ensures RouterInv(w, i, Pop(r, e))
  {
    var ch := r.chans[e];
    assert ChannelInv(w, i, ch);
    forall k | 0 <= k < |ch.out[1..]|
      ensures Sendable(w, i, ch.remote, ch.out[1..][k])
    {
      assert ch.out[1..][k] == ch.out[k + 1];
    }
    forall d | d in r.table
      ensures EntryInv(w, i, Pop(r, e), d)
    {
      assert EntryInv(w, i, r, d);
    }
  }

  /** A router that only grows keeps every link it is on. */
  lemma GrowthKeepsLinks(net: Net, i: nat, r: Router)
    requires LinksInv(net) && i < |net.routers| && RouterGrows(net.routers[i], r)
    ensures LinksInv(net.(routers := net.routers[i := r]))
  {
    var net' := net.(routers := net.routers[i := r]);
    forall k, c | IsChan(net', k, c)
      ensures EndInv(net', k, c)
    {
      assert EndInv(net, k, c) && Grows(Chan(net, k, c), Chan(net', k, c));
      var far := Chan(net, k, c).remote;
      if !far.Client? { assert Grows(Chan(net, far.router, far.chan), Chan(net', far.router, far.chan)); }
    }
  }

  lemma DeliverKeeps(w: Plan, net: Net, i: nat, c: nat, snap: seq<Word>)
    requires NetInv(w, net) && NetValid(net) && Enabled(w, net, Delivers(i, c, snap))
    ensures NetInv(w, Step(w, net, Delivers(i, c, snap)))
  {
    var rs, far, p := net.routers, Chan(net, i, c).remote, InFlight(net, i, c);
    var r := Handled(net, i, c, snap);
    InFlightReadable(w, net, i, c);
    PopKeeps(w, far.router, rs[far.router], far.chan);
    assert RouterInv(w, i, rs[i]) && ChannelInv(w, i, rs[i].chans[c]);
    if rs[i].chans[c].kind.Link? { HandleKeeps(w, i, rs[i], c, p, snap); } else { ReadUpstreamKeeps(w, i, rs[i], c, p); }
    var net1 := net.(routers := rs[i := r]);
    GrowthKeepsLinks(net, i, r);
    if far.Peer? && !Chan(net, i, c).isPeer {
      assert EndInv(net, i, c);
      HelloMakesPeer(rs[i], c, p, snap);
    }
    PopKeepsLinks(net, net1, i, c);
    assert Delivered(net, i, c, r) == net1.routers[far.router := Pop(rs[far.router], far.chan)];
  }

  /** Reading the head of a queue keeps the links, because a HELLO read puts its reader in peer mode. */
  lemma PopKeepsLinks(net: Net, net1: Net, i: nat, c: nat)
    requires LinksInv(net) && Pending(net, i, c)
    requires i < |net1.routers| && net1.routers == net.routers[i := net1.routers[i]]
    requires LinksInv(net1) && RouterGrows(net.routers[i], net1.routers[i])
    requires Chan(net, i, c).remote.Peer? && !Chan(net, i, c).isPeer ==> Chan(net1, i, c).isPeer
    ensures var far := Chan(net, i, c).remote;
            LinksInv(net1.(routers := net1.routers[far.router := Pop(net.routers[far.router], far.chan)]))
  {
    var far := Chan(net, i, c).remote;
    var net' := net1.(routers := net1.routers[far.router := Pop(net.routers[far.router], far.chan)]);
    assert EndInv(net, i, c);
    forall k, b | IsChan(net', k, b)
      ensures EndInv(net', k, b)
    {
      assert IsChan(net1, k, b) && EndInv(net1, k, b);
    }
  }

  lemma HelloMakesPeer(r: Router, c: nat, p: Packet, snap: seq<Word>)
    requires Valid(r) && c < |r.chans| && p.head == Hello().head && p.body == []
    ensures HandleFrame(r, c, p, snap).chans[c].isPeer
  {
  }

  lemma AttachKeeps(w: Plan, i: nat, r: Router, kind: Kind, remote: Remote)
    requires RouterInv(w, i, r) && (kind.Link? <==> !remote.Parent?) && (!remote.Client? ==> remote.router != i)
    ensures RouterInv(w, i, Attach(r, kind, remote))
  {
    forall d | d in r.table
      ensures EntryInv(w, i, Attach(r, kind, remote), d)
    {
      assert EntryInv(w, i, r, d);
    }
  }

  lemma AttachPeerKeeps(w: Plan, i: nat, r: Router, remote: Remote, snap: seq<Word>)
    requires RouterInv(w, i, r) && remote.Peer? && remote.router != i && Lists(snap, r.local)
    ensures RouterInv(w, i, AttachPeer(r, remote, snap))
    ensures AttachPeer(r, remote, snap).chans
         == r.chans + [Channel(Link, remote, true, true, true, [Hello()] + Registers(snap))]
  {
    var r1 := r.(chans := r.chans + [Channel(Link, remote, true, true, true, [])]);
    forall d | d in r.table
      ensures EntryInv(w, i, r1, d)
    {
      assert EntryInv(w, i, r, d);
    }
    AdvertiseKeeps(w, i, r1, |r.chans|, snap);
    assert [] + ([Hello()] + Registers(snap)) == [Hello()] + Registers(snap);
  }

  lemma ConnectKeeps(w: Plan, net: Net, e: Event)
    requires NetInv(w, net) && NetValid(net) && Enabled(w, net, e)
    requires e.ClientConnects? || e.PeerConnects? || e.ParentConnects?
    ensures NetInv(w, Step(w, net, e))
  {
    var rs, i, net' := net.routers, e.i, Step(w, net, e);
    assert RouterInv(w, i, rs[i]);
    if e.ClientConnects? {
      AttachKeeps(w, i, rs[i], Link, Client);
    } else {
      assert RouterInv(w, e.s, rs[e.s]);
      if e.PeerConnects? {
        AttachPeerKeeps(w, i, rs[i], Peer(e.s, |rs[e.s].chans|), e.snap);
        AttachKeeps(w, e.s, rs[e.s], Link, Peer(i, |rs[i].chans|));
      } else {
        AttachKeeps(w, i, rs[i], e.kind, Parent(e.s, |rs[e.s].chans|));
        AttachKeeps(w, e.s, rs[e.s], Link, Child(i, |rs[i].chans|));
      }
    }
    forall k, c | IsChan(net', k, c)
      ensures EndInv(net', k, c)
    {
      if IsChan(net, k, c) {
        assert EndInv(net, k, c);
        assert Chan(net', k, c) == Chan(net, k, c);
        var far := Chan(net, k, c).remote;
        assert !far.Client? ==> Chan(net', far.router, far.chan) == Chan(net, far.router, far.chan);
      }
    }
  }

  /** Every step of every network keeps the invariant. */
  lemma StepKeeps(w: Plan, net: Net, e: Event)
    requires NetInv(w, net) && NetValid(net) && Enabled(w, net, e)
    ensures NetInv(w, Step(w, net, e)) && NetValid(Step(w, net, e))
  {
    match e
    case ClientSends(i, c, p, snap) =>
      assert RouterInv(w, i, net.routers[i]) && ChannelInv(w, i, Chan(net, i, c));
      HandleKeeps(w, i, net.routers[i], c, p, snap);
      GrowthKeepsLinks(net, i, HandleFrame(net.routers[i], c, p, snap));
      assert LinksInv(Step(w, net, e)) by { SameRouters(net.(routers := Step(w, net, e).routers), Step(w, net, e)); }
    case Delivers(i, c, snap) => DeliverKeeps(w, net, i, c, snap);
    case LoopEnds(i, c) =>
      assert RouterInv(w, i, net.routers[i]);
      EndLoopKeeps(w, i, net.routers[i], c);
      GrowthKeepsLinks(net, i, EndLoop(net.routers[i], c));
    case _ => ConnectKeeps(w, net, e);
  }

  lemma SameRouters(a: Net, b: Net)
    requires a.routers == b.routers && LinksInv(a)
    ensures LinksInv(b)
  {
    forall i, c | IsChan(b, i, c)
      ensures EndInv(b, i, c)
    {
      assert IsChan(a, i, c) && EndInv(a, i, c);
    }
  }
}
