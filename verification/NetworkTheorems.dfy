/** What holds in every run of every network of routers: routes lead home, frames travel a bounded number of links,
    and no frame is ever duplicated. */
module NetworkTheorems {
  import opened Wrappers
  import opened Bytes
  import opened Protocol
  import opened RouterModel
  import opened RouterInNetwork
  import opened Network

  datatype Run = Run(nets: seq<Net>, events: seq<Event>)

  ghost predicate Initial(net: Net) {
    net.next == 0 &&
    forall i :: 0 <= i < |net.routers| ==>
                  var r := net.routers[i]; r.table == map[] && r.local == {} && r.chans == []
  }

  ghost predicate IsRun(w: Plan, run: Run) {
    && |run.nets| == |run.events| + 1
    && Initial(run.nets[0])
    && forall k :: 0 <= k < |run.events| ==> RunStep(w, run, k)
  }

  ghost predicate RunStep(w: Plan, run: Run, k: nat)
    requires |run.nets| == |run.events| + 1 && k < |run.events|
  {
    NetValid(run.nets[k]) && Enabled(w, run.nets[k], run.events[k]) &&
    run.nets[k + 1] == Step(w, run.nets[k], run.events[k])
  }

  lemma {:induction false} RunKeepsInv(w: Plan, run: Run, k: nat)
    requires OneHome(w) && IsRun(w, run) && k < |run.nets|
    ensures NetInv(w, run.nets[k])
  {
    if k > 0 {
      assert RunStep(w, run, k - 1);
      RunKeepsInv(w, run, k - 1);
      StepKeeps(w, run.nets[k - 1], run.events[k - 1]);
    }
  }

  // ------------------------------------------------------------------ routes and hops

  /** In every reachable state a route is a live local client of the home router, or the home router's own link. */
  lemma RoutesLeadHome(w: Plan, run: Run, k: nat, i: nat, d: Word)
    requires OneHome(w) && IsRun(w, run) && k < |run.nets| && i < |run.nets[k].routers| && d in run.nets[k].routers[i].table
    ensures IsChan(run.nets[k], i, run.nets[k].routers[i].table[d])
    ensures var ch := Chan(run.nets[k], i, run.nets[k].routers[i].table[d]);
            && ch.running
            && if w.may(i, d) then ch.remote == Client else ch.remote.Peer? && w.may(ch.remote.router, d)
  {
    RunKeepsInv(w, run, k);
    var r := run.nets[k].routers[i];
    assert RouterInv(w, i, r) && EntryInv(w, i, r, d) && ChannelInv(w, i, r.chans[r.table[d]]);
  }

  /** Wherever a client's data frame is, it has crossed at most one peer link, no downstream link, and no more
      upstream links than the rank of the router it entered at; a router's own answer crosses at most one
      downstream and one peer link. */
  lemma HopsAreBounded(w: Plan, run: Run, k: nat, i: nat, c: nat, j: nat)
    requires OneHome(w) && IsRun(w, run) && k < |run.nets| && IsChan(run.nets[k], i, c) && j < |Chan(run.nets[k], i, c).out|
    ensures var p := Chan(run.nets[k], i, c).out[j];
            && p.tag.peers <= 1
            && if p.tag.uid.Some? then p.tag.downs == 0 && p.tag.ups <= w.rank(p.tag.origin, p.head.dest)
               else p.tag.ups == 0 && p.tag.downs <= 1
  {
    RunKeepsInv(w, run, k);
    assert RouterInv(w, i, run.nets[k].routers[i]) && ChannelInv(w, i, Chan(run.nets[k], i, c));
    assert Sendable(w, i, Chan(run.nets[k], i, c).remote, Chan(run.nets[k], i, c).out[j]);
  }

  /** Loop freedom of peering: with no usable upstream, a client's frame crosses at most one link in all. */
  lemma LoopFreedom(w: Plan, run: Run, k: nat, i: nat, c: nat, j: nat)
    requires OneHome(w) && IsRun(w, run) && k < |run.nets| && IsChan(run.nets[k], i, c) && j < |Chan(run.nets[k], i, c).out|
    requires forall n, d :: w.rank(n, d) == 0
    requires Chan(run.nets[k], i, c).out[j].tag.uid.Some?
    ensures var t := Chan(run.nets[k], i, c).out[j].tag; t.ups + t.downs + t.peers <= 1
  {
    HopsAreBounded(w, run, k, i, c, j);
  }

  /** A data frame read from a peer link is handed to a local client or dropped: no link carries it further, and
      nothing is sent back. */
  lemma PeerFrameStopsHere(w: Plan, run: Run, k: nat, n: nat)
    requires OneHome(w) && IsRun(w, run) && k < |run.events| && run.events[k].Delivers?
    requires var e := run.events[k]; IsChan(run.nets[k], e.i, e.c) && Chan(run.nets[k], e.i, e.c).remote.Peer?
    requires Pending(run.nets[k], run.events[k].i, run.events[k].c)
    requires IsData(InFlight(run.nets[k], run.events[k].i, run.events[k].c))
    requires IsChan(run.nets[k], run.events[k].i, n) && IsChan(run.nets[k + 1], run.events[k].i, n)
    ensures var i, p := run.events[k].i, InFlight(run.nets[k], run.events[k].i, run.events[k].c);
            var before, after := Chan(run.nets[k], i, n), Chan(run.nets[k + 1], i, n);
            after.out == before.out || (before.remote == Client && after.out == before.out + [p] && w.may(i, p.head.dest))
  {
    assert RunStep(w, run, k);
    RunKeepsInv(w, run, k);
    var net, e := run.nets[k], run.events[k];
    InFlightReadable(w, net, e.i, e.c);
    var r, p := net.routers[e.i], InFlight(net, e.i, e.c);
    assert RouterInv(w, e.i, r) && ChannelInv(w, e.i, r.chans[e.c]);
    if p.head.dest in r.table {
      assert EntryInv(w, e.i, r, p.head.dest) && ChannelInv(w, e.i, r.chans[r.table[p.head.dest]]);
    }
  }

  // ------------------------------------------------------------------ at most one copy

  ghost function CopiesInQueue(ps: seq<Packet>, u: nat): nat {
    if ps == [] then 0 else CopiesInQueue(ps[..|ps| - 1], u) + if ps[|ps| - 1].tag.uid == Some(u) then 1 else 0
  }

  ghost function CopiesInChannels(chans: seq<Channel>, u: nat): nat {
    if chans == [] then 0
    else CopiesInChannels(chans[..|chans| - 1], u) + CopiesInQueue(chans[|chans| - 1].out, u)
  }

  /** Copies of client frame u anywhere: in flight on a link or handed to a client. */
  ghost function Copies(rs: seq<Router>, u: nat): nat {
    if rs == [] then 0 else Copies(rs[..|rs| - 1], u) + CopiesInChannels(rs[|rs| - 1].chans, u)
  }

  lemma {:induction false} QueueAppend(ps: seq<Packet>, qs: seq<Packet>, u: nat)
    ensures CopiesInQueue(ps + qs, u) == CopiesInQueue(ps, u) + CopiesInQueue(qs, u)
  {
    if qs == [] {
      assert ps + qs == ps;
    } else {
      var qs' := qs[..|qs| - 1];
      assert (ps + qs)[..|ps + qs| - 1] == ps + qs';
      QueueAppend(ps, qs', u);
    }
  }

  lemma {:induction false} UntaggedCountNothing(ps: seq<Packet>, u: nat)
    requires forall k :: 0 <= k < |ps| ==> ps[k].tag.uid == None
    ensures CopiesInQueue(ps, u) == 0
  {
    if ps != [] { UntaggedCountNothing(ps[..|ps| - 1], u); }
  }

  lemma {:induction false} ChannelUpdate(chans: seq<Channel>, c: nat, ch: Channel, u: nat)
    requires c < |chans|
    ensures CopiesInChannels(chans[c := ch], u)
         == CopiesInChannels(chans, u) - CopiesInQueue(chans[c].out, u) + CopiesInQueue(ch.out, u)
  {
    var n := |chans| - 1;
    if c == n {
      assert chans[c := ch][..n] == chans[..n];
    } else {
      assert chans[c := ch][..n] == chans[..n][c := ch];
      ChannelUpdate(chans[..n], c, ch, u);
    }
  }

  lemma {:induction false} ChannelsAlike(a: seq<Channel>, b: seq<Channel>, u: nat)
    requires |a| == |b|
    requires forall c :: 0 <= c < |a| ==> CopiesInQueue(a[c].out, u) == CopiesInQueue(b[c].out, u)
    ensures CopiesInChannels(a, u) == CopiesInChannels(b, u)
  {
    if a != [] { ChannelsAlike(a[..|a| - 1], b[..|b| - 1], u); }
  }

  lemma {:induction false} RouterUpdate(rs: seq<Router>, i: nat, r: Router, u: nat)
    requires i < |rs|
    ensures Copies(rs[i := r], u)
         == Copies(rs, u) - CopiesInChannels(rs[i].chans, u) + CopiesInChannels(r.chans, u)
  {
    var n := |rs| - 1;
    if i == n {
      assert rs[i := r][..n] == rs[..n];
    } else {
      assert rs[i := r][..n] == rs[..n][i := r];
      RouterUpdate(rs[..n], i, r, u);
    }
  }

  ghost function Own(p: Packet, u: nat): nat { if p.tag.uid == Some(u) then 1 else 0 }

  lemma EnqueueCopies(ch: Channel, ps: seq<Packet>, u: nat)
    ensures CopiesInQueue(Enqueue(ch, ps).out, u) <= CopiesInQueue(ch.out, u) + CopiesInQueue(ps, u)
  {
    QueueAppend(ch.out, ps, u);
  }

  lemma SendCopies(r: Router, c: nat, p: Packet, u: nat)
    requires c < |r.chans|
    ensures CopiesInChannels(Send(r, c, p).chans, u) <= CopiesInChannels(r.chans, u) + Own(p, u)
  {
    EnqueueCopies(r.chans[c], [p], u);
    assert [p][..0] == [];
    assert CopiesInQueue([p], u) == Own(p, u);
    ChannelUpdate(r.chans, c, Enqueue(r.chans[c], [p]), u);
  }

  lemma BroadcastCopies(r: Router, p: Packet, u: nat)
    requires p.tag == UNTAGGED
    ensures CopiesInChannels(Broadcast(r, p).chans, u) == CopiesInChannels(r.chans, u)
  {
    forall c | 0 <= c < |r.chans|
      ensures CopiesInQueue(Told(r.chans[c], p).out, u) == CopiesInQueue(r.chans[c].out, u)
    {
      QueueAppend(r.chans[c].out, [p], u);
      UntaggedCountNothing([p], u);
    }
    ChannelsAlike(Broadcast(r, p).chans, r.chans, u);
  }

  lemma AdvertiseCopies(r: Router, c: nat, ids: seq<Word>, u: nat)
    requires c < |r.chans|
    ensures CopiesInChannels(Advertise(r, c, ids).chans, u) <= CopiesInChannels(r.chans, u)
  {
    var ps := [Hello()] + Registers(ids);
    UntaggedCountNothing(ps, u);
    EnqueueCopies(r.chans[c], ps, u);
    ChannelUpdate(r.chans, c, Enqueue(r.chans[c], ps), u);
  }

  /** One step of one router forwards at most one copy of the frame it handles. */
  lemma HandleCopies(r: Router, c: nat, p: Packet, snap: seq<Word>, u: nat)
    requires Valid(r) && c < |r.chans|
    ensures CopiesInChannels(HandleFrame(r, c, p, snap).chans, u) <= CopiesInChannels(r.chans, u) + Own(p, u)
  {
    var typ := p.head.typ;
    ChannelUpdate(r.chans, c, r.chans[c].(open := false), u);
    if |p.body| > r.maxMsg {
    } else if typ == MSG_ROUTER_PEER_HELLO {
      ChannelUpdate(r.chans, c, r.chans[c].(isPeer := true), u);
      AdvertiseCopies(r.(chans := r.chans[c := r.chans[c].(isPeer := true)]), c, snap, u);
    } else if typ == MSG_ROUTER_MBX_INIT_WITH_REPLY {
      SendCopies(r, c, Reply(MSG_ERROR, p), u);
      if |p.body| >= MBX_PAYLOAD_SIZE {
        var r1 := Send(r.(table := r.table[Mbx(p) := c]), c, Reply(MSG_OK, p));
        SendCopies(r.(table := r.table[Mbx(p) := c]), c, Reply(MSG_OK, p), u);
        BroadcastCopies(r1.(local := r1.local + {Mbx(p)}), Register(Mbx(p)), u);
      }
    } else if typ == MSG_ROUTER_MBX_DELETE {
      if |p.body| >= MBX_PAYLOAD_SIZE {
        BroadcastCopies(r.(table := r.table - {Mbx(p)}, local := r.local - {Mbx(p)}), Delete(Mbx(p)), u);
      }
    } else if IsData(p) {
      DataCopies(r, c, p, u);
    }
  }

  lemma DataCopies(r: Router, c: nat, p: Packet, u: nat)
    requires Valid(r) && c < |r.chans|
    ensures CopiesInChannels(RouteData(r, c, p).chans, u) <= CopiesInChannels(r.chans, u) + Own(p, u)
  {
    SendCopies(r, c, Reply(MSG_ERROR, p), u);
    if p.head.dest in r.table {
      SendCopies(r, r.table[p.head.dest], p, u);
    } else if NextHop(r, p.head.dest).Some? {
      SendCopies(r, NextHop(r, p.head.dest).value, p, u);
    }
  }

  lemma PopCopies(r: Router, e: nat, u: nat)
    requires e < |r.chans| && r.chans[e].out != []
    ensures CopiesInChannels(Pop(r, e).chans, u) == CopiesInChannels(r.chans, u) - Own(r.chans[e].out[0], u)
  {
    var q := r.chans[e].out;
    assert q == [q[0]] + q[1..];
    QueueAppend([q[0]], q[1..], u);
    assert CopiesInQueue([q[0]], u) == Own(q[0], u) by { assert [q[0]][..0] == []; }
    ChannelUpdate(r.chans, e, r.chans[e].(out := q[1..]), u);
  }

  lemma AttachCopies(r: Router, ch: Channel, u: nat)
    ensures CopiesInChannels(r.chans + [ch], u) == CopiesInChannels(r.chans, u) + CopiesInQueue(ch.out, u)
  {
    assert (r.chans + [ch])[..|r.chans|] == r.chans;
  }

  ghost predicate CopiesInv(net: Net) {
    forall u: nat :: Copies(net.routers, u) <= if u < net.next then 1 else 0
  }

  lemma StepCopies(w: Plan, net: Net, e: Event, u: nat)
    requires NetValid(net) && Enabled(w, net, e)
    ensures Copies(Step(w, net, e).routers, u)
         <= Copies(net.routers, u) + if e.ClientSends? && u == net.next then 1 else 0
  {
    var rs := net.routers;
    match e
    case ClientConnects(i) =>
      AttachCopies(rs[i], Channel(Link, Client, false, true, true, []), u);
      RouterUpdate(rs, i, Attach(rs[i], Link, Client), u);
    case PeerConnects(i, s, snap) =>
      var a := AttachPeer(rs[i], Peer(s, |rs[s].chans|), snap);
      var b := Attach(rs[s], Link, Peer(i, |rs[i].chans|));
      var r1 := rs[i].(chans := rs[i].chans + [Channel(Link, Peer(s, |rs[s].chans|), true, true, true, [])]);
      AttachCopies(rs[i], Channel(Link, Peer(s, |rs[s].chans|), true, true, true, []), u);
      AdvertiseCopies(r1, |rs[i].chans|, snap, u);
      AttachCopies(rs[s], Channel(Link, Peer(i, |rs[i].chans|), false, true, true, []), u);
      RouterUpdate(rs, i, a, u);
      RouterUpdate(rs[i := a], s, b, u);
    case ParentConnects(i, s, kind) =>
      var a := Attach(rs[i], kind, Parent(s, |rs[s].chans|));
      var b := Attach(rs[s], Link, Child(i, |rs[i].chans|));
      AttachCopies(rs[i], Channel(kind, Parent(s, |rs[s].chans|), false, true, true, []), u);
      AttachCopies(rs[s], Channel(Link, Child(i, |rs[i].chans|), false, true, true, []), u);
      RouterUpdate(rs, i, a, u);
      RouterUpdate(rs[i := a], s, b, u);
    case ClientSends(i, c, p, snap) =>
      HandleCopies(rs[i], c, p, snap, u);
      RouterUpdate(rs, i, HandleFrame(rs[i], c, p, snap), u);
    case Delivers(i, c, snap) => DeliverCopies(w, net, i, c, snap, u);
    case LoopEnds(i, c) =>
      ChannelUpdate(rs[i].chans, c, rs[i].chans[c].(open := false, running := false), u);
      RouterUpdate(rs, i, EndLoop(rs[i], c), u);
  }

  lemma DeliverCopies(w: Plan, net: Net, i: nat, c: nat, snap: seq<Word>, u: nat)
    requires NetValid(net) && Enabled(w, net, Delivers(i, c, snap))
    ensures Copies(Step(w, net, Delivers(i, c, snap)).routers, u) <= Copies(net.routers, u)
  {
    var rs, far, p := net.routers, Chan(net, i, c).remote, InFlight(net, i, c);
    var popped := Pop(rs[far.router], far.chan);
    var r := Handled(net, i, c, snap);
    PopCopies(rs[far.router], far.chan, u);
    assert Own(p, u) == Own(rs[far.router].chans[far.chan].out[0], u);
    if rs[i].chans[c].kind.Link? {
      HandleCopies(rs[i], c, p, snap, u);
    } else if |p.body| > rs[i].maxMsg {
      ChannelUpdate(rs[i].chans, c, rs[i].chans[c].(open := false, running := false), u);
    } else if p.head.dest in rs[i].table {
      SendCopies(rs[i], rs[i].table[p.head.dest], p, u);
    }
    RouterUpdate(rs, far.router, popped, u);
    RouterUpdate(rs[far.router := popped], i, r, u);
  }

  lemma {:induction false} EmptyNet(rs: seq<Router>, u: nat)
    requires forall i :: 0 <= i < |rs| ==> rs[i].chans == []
    ensures Copies(rs, u) == 0
  {
    if rs != [] { EmptyNet(rs[..|rs| - 1], u); }
  }

  /** No frame is ever duplicated: at any time there is at most one copy of it in all queues and at all clients. */
  lemma {:induction false} NeverDuplicated(w: Plan, run: Run, k: nat)
    requires IsRun(w, run) && k < |run.nets|
    ensures CopiesInv(run.nets[k])
  {
    if k == 0 {
      forall u: nat
        ensures Copies(run.nets[0].routers, u) == 0
      {
        EmptyNet(run.nets[0].routers, u);
      }
    } else {
      assert RunStep(w, run, k - 1);
      NeverDuplicated(w, run, k - 1);
      forall u: nat
        ensures Copies(run.nets[k].routers, u) <= if u < run.nets[k].next then 1 else 0
      {
        StepCopies(w, run.nets[k - 1], run.events[k - 1], u);
      }
    }
  }

  lemma {:induction false} CopyCounted(ps: seq<Packet>, j: nat, u: nat)
    requires j < |ps| && ps[j].tag.uid == Some(u)
    ensures CopiesInQueue(ps, u) >= 1
  {
    if j < |ps| - 1 { CopyCounted(ps[..|ps| - 1], j, u); }
  }

  /** Two different client connections are never handed the same frame. */
  lemma AtMostOneClient(w: Plan, run: Run, k: nat, i: nat, c: nat, j: nat, i': nat, c': nat, j': nat, u: nat)
    requires IsRun(w, run) && k < |run.nets|
    requires IsChan(run.nets[k], i, c) && j < |Chan(run.nets[k], i, c).out|
    requires IsChan(run.nets[k], i', c') && j' < |Chan(run.nets[k], i', c').out|
    requires Chan(run.nets[k], i, c).out[j].tag.uid == Some(u) == Chan(run.nets[k], i', c').out[j'].tag.uid
    ensures i == i' && c == c'
  {
    NeverDuplicated(w, run, k);
    var rs := run.nets[k].routers;
    CopyCounted(rs[i].chans[c].out, j, u);
    CopyCounted(rs[i'].chans[c'].out, j', u);
    var emptied := rs[i].(chans := rs[i].chans[c := rs[i].chans[c].(out := [])]);
    ChannelUpdate(rs[i].chans, c, rs[i].chans[c].(out := []), u);
    RouterUpdate(rs, i, emptied, u);
    assert Copies(rs[i := emptied], u) == 0;
    if i != i' || c != c' {
      var rs' := rs[i := emptied];
      assert rs'[i'].chans[c'] == rs[i'].chans[c'];
      ChannelUpdate(rs'[i'].chans, c', rs[i'].chans[c'].(out := []), u);
      RouterUpdate(rs', i', rs'[i'].(chans := rs'[i'].chans[c' := rs[i'].chans[c'].(out := [])]), u);
    }
  }
}
