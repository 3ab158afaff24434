/** Frames do arrive: links are FIFO queues, and a frame put on a link is handed to the holder of its destination when
    the link has been read that far. */
module NetworkDelivery {
  import opened Wrappers
  import opened Bytes
  import opened Protocol
  import opened RouterModel
  import opened RouterInNetwork
  import opened Network
  import opened NetworkTheorems
  import RouterRuns
  import opened RouterLaws

  // ------------------------------------------------------------------ connecting

  /** Connections come up in pairs that name each other, open, running and with nothing queued but a dialling peer's
      HELLO and REGISTERs; nothing else changes. */
  lemma Connected(w: Plan, net: Net, i: nat, s: nat, kind: Kind, snap: seq<Word>)
    requires NetValid(net) && i < |net.routers| && s < |net.routers| && i != s && !kind.Link?
    requires Lists(snap, net.routers[i].local)
    ensures Enabled(w, net, ClientConnects(i)) && Enabled(w, net, PeerConnects(i, s, snap))
    ensures Enabled(w, net, ParentConnects(i, s, kind))
    ensures var rs, m, n := net.routers, |net.routers[i].chans|, |net.routers[s].chans|;
            && Step(w, net, ClientConnects(i)).routers
               == rs[i := RouterRuns.Step(rs[i], RouterRuns.Opened(Link, Client))]
            && Step(w, net, ParentConnects(i, s, kind)).routers
               == rs[i := RouterRuns.Step(rs[i], RouterRuns.Opened(kind, Parent(s, n)))]
                    [s := RouterRuns.Step(rs[s], RouterRuns.Opened(Link, Child(i, m)))]
            && Step(w, net, PeerConnects(i, s, snap)).routers
               == rs[i := RouterRuns.Step(rs[i], RouterRuns.OpenedPeer(Peer(s, n), snap))]
                    [s := RouterRuns.Step(rs[s], RouterRuns.Opened(Link, Peer(i, m)))]
  {
  }

  // ------------------------------------------------------------------ links are FIFO

  ghost predicate ReadsEnd(e: Event, s: nat, k: nat) { e.Delivers? && e.i == s && e.c == k }

  /** How many frames are read at channel k of router s in the events from m up to n. */
  ghost function ReadsOf(run: Run, s: nat, k: nat, m: nat, n: nat): nat
    requires m <= n <= |run.events|
  {
    if m == n then 0 else ReadsOf(run, s, k, m, n - 1) + if ReadsEnd(run.events[n - 1], s, k) then 1 else 0
  }

  /** One step on a link's queue: read at the far end it loses its head; otherwise it only grows. */
  lemma StepOnQueue(w: Plan, net: Net, ev: Event, i: nat, c: nat)
    requires NetInv(w, net) && NetValid(net) && Enabled(w, net, ev) && IsChan(net, i, c)
    requires !Chan(net, i, c).remote.Client?
    ensures IsChan(Step(w, net, ev), i, c)
    ensures var ch, ch' := Chan(net, i, c), Chan(Step(w, net, ev), i, c);
            && ch'.remote == ch.remote
            && if ReadsEnd(ev, ch.remote.router, ch.remote.chan) then ch.out != [] && ch'.out == ch.out[1..]
               else ch.out <= ch'.out
  {
    assert EndInv(net, i, c) && RouterInv(w, i, net.routers[i]) && ChannelInv(w, i, Chan(net, i, c));
    match ev
    case ClientSends(j, k, p, snap) => if j == i { HandlingGrows(w, net, i, k, p, snap, c); }
    case Delivers(j, k, snap) => DeliveryOnQueue(w, net, j, k, snap, i, c);
    case _ =>
  }

  lemma HandlingGrows(w: Plan, net: Net, i: nat, k: nat, p: Packet, snap: seq<Word>, c: nat)
    requires NetInv(w, net) && Enabled(w, net, ClientSends(i, k, p, snap)) && IsChan(net, i, c)
    ensures Valid(net.routers[i]) && c < |HandleFrame(net.routers[i], k, p, snap).chans|
    ensures Grows(net.routers[i].chans[c], HandleFrame(net.routers[i], k, p, snap).chans[c])
  {
    assert RouterInv(w, i, net.routers[i]) && ChannelInv(w, i, Chan(net, i, k));
    HandleKeeps(w, i, net.routers[i], k, p, snap);
  }

  lemma ReadingGrows(w: Plan, net: Net, i: nat, k: nat, snap: seq<Word>, c: nat)
    requires NetInv(w, net) && NetValid(net) && Enabled(w, net, Delivers(i, k, snap)) && IsChan(net, i, c)
    ensures c < |Handled(net, i, k, snap).chans| && Grows(net.routers[i].chans[c], Handled(net, i, k, snap).chans[c])
  {
    assert EndInv(net, i, k) && RouterInv(w, i, net.routers[i]) && ChannelInv(w, i, Chan(net, i, k));
    InFlightReadable(w, net, i, k);
    if Chan(net, i, k).kind.Link? { HandleKeeps(w, i, net.routers[i], k, InFlight(net, i, k), snap); }
    else { ReadUpstreamKeeps(w, i, net.routers[i], k, InFlight(net, i, k)); }
  }

  lemma DeliveryOnQueue(w: Plan, net: Net, j: nat, k: nat, snap: seq<Word>, i: nat, c: nat)
    requires NetInv(w, net) && NetValid(net) && Enabled(w, net, Delivers(j, k, snap)) && IsChan(net, i, c)
    requires !Chan(net, i, c).remote.Client?
    ensures var net' := Step(w, net, Delivers(j, k, snap));
            && IsChan(net', i, c)
            && var ch, ch' := Chan(net, i, c), Chan(net', i, c);
               && ch'.remote == ch.remote
               && if j == ch.remote.router && k == ch.remote.chan then ch.out != [] && ch'.out == ch.out[1..]
                  else ch.out <= ch'.out
  {
    assert EndInv(net, i, c) && EndInv(net, j, k);
    if j == i { ReadingGrows(w, net, i, k, snap, c); }
  }

  /** After k reads at the far end, what was queued from the k-th frame on is what is queued first. */
  lemma {:induction false} Fifo(w: Plan, run: Run, m: nat, n: nat, i: nat, c: nat)
    requires OneHome(w) && IsRun(w, run) && m <= n < |run.nets| && IsChan(run.nets[m], i, c)
    requires !Chan(run.nets[m], i, c).remote.Client?
    ensures IsChan(run.nets[n], i, c) && Chan(run.nets[n], i, c).remote == Chan(run.nets[m], i, c).remote
    ensures var far := Chan(run.nets[m], i, c).remote;
            var q, k := Chan(run.nets[m], i, c).out, ReadsOf(run, far.router, far.chan, m, n);
            k <= |q| ==> q[k..] <= Chan(run.nets[n], i, c).out
  {
    if m < n {
      var far := Chan(run.nets[m], i, c).remote;
      var q, k := Chan(run.nets[m], i, c).out, ReadsOf(run, far.router, far.chan, m, n - 1);
      Fifo(w, run, m, n - 1, i, c);
      assert RunStep(w, run, n - 1);
      RunKeepsInv(w, run, n - 1);
      StepOnQueue(w, run.nets[n - 1], run.events[n - 1], i, c);
      if k < |q| { assert q[k..][1..] == q[k + 1..]; }
    }
  }

  // ------------------------------------------------------------------ delivery

  /** Router s reads, on its channel e, a frame whose destination connection j holds: j's queue gets that frame. */
  lemma ReadAndHanded(w: Plan, net: Net, s: nat, e: nat, snap: seq<Word>, j: nat)
    requires NetInv(w, net) && NetValid(net) && Enabled(w, net, Delivers(s, e, snap))
    requires var p := InFlight(net, s, e);
             && (net.routers[s].chans[e].kind.Link? ==> IsDataType(p.head.typ)) && |p.body| <= net.routers[s].maxMsg
             && p.head.dest in net.routers[s].table && net.routers[s].table[p.head.dest] == j
             && j < |net.routers[s].chans| && Chan(net, s, j).open
    ensures IsChan(Step(w, net, Delivers(s, e, snap)), s, j)
    ensures Chan(Step(w, net, Delivers(s, e, snap)), s, j).out == Chan(net, s, j).out + [InFlight(net, s, e)]
  {
    var r, p := net.routers[s], InFlight(net, s, e);
    if r.chans[e].kind.Link? { HeldIdIsDelivered(r, e, p, snap); } else { UpstreamFrame(r, e, p); }
  }

  /** A frame last in the queue of a link at time m: when the frames before it have been read, the next read at the far
      end finds it, and hands it to the connection that holds its destination there. */
  lemma QueuedIsDelivered(w: Plan, run: Run, m: nat, n: nat, i: nat, c: nat, p: Packet, j: nat)
    requires OneHome(w) && IsRun(w, run) && m <= n < |run.events| && IsChan(run.nets[m], i, c)
    requires var ch := Chan(run.nets[m], i, c);
             && !ch.remote.Client? && ch.out != [] && ch.out[|ch.out| - 1] == p
             && ReadsOf(run, ch.remote.router, ch.remote.chan, m, n) == |ch.out| - 1
             && ReadsEnd(run.events[n], ch.remote.router, ch.remote.chan)
             && ch.remote.router < |run.nets[n].routers|
             && var r := run.nets[n].routers[ch.remote.router];
                && (ch.remote.Child? || IsDataType(p.head.typ)) && |p.body| <= r.maxMsg
                && p.head.dest in r.table && r.table[p.head.dest] == j && j < |r.chans| && r.chans[j].open
    ensures var far := Chan(run.nets[m], i, c).remote;
            && IsChan(run.nets[n], far.router, j) && IsChan(run.nets[n + 1], far.router, j)
            && Chan(run.nets[n + 1], far.router, j).out == Chan(run.nets[n], far.router, j).out + [Cross(far, p)]
  {
    var ch, net := Chan(run.nets[m], i, c), run.nets[n];
    var far, q := ch.remote, ch.out;
    Fifo(w, run, m, n, i, c);
    assert q[|q| - 1..] == [p];
    assert RunStep(w, run, n);
    RunKeepsInv(w, run, n);
    assert EndInv(net, i, c);
    assert EndInv(net, far.router, far.chan);
    assert RouterInv(w, far.router, net.routers[far.router]);
    assert ChannelInv(w, far.router, Chan(net, far.router, far.chan));
    assert InFlight(net, far.router, far.chan) == Cross(far, p);
    ReadAndHanded(w, net, far.router, far.chan, run.events[n].snap, j);
  }

  /** Where a client's data frame goes first: the holder of its destination, or else the route of its system. */
  ghost predicate FirstHop(r: Router, p: Packet, c: nat) {
    && c < |r.chans| && r.chans[c].open
    && if p.head.dest in r.table then r.table[p.head.dest] == c else RouteOf(r, p.head.dest / 0x100_0000, c)
  }

  lemma SentIsQueued(w: Plan, net: Net, i: nat, c0: nat, p: Packet, snap: seq<Word>, c: nat)
    requires NetInv(w, net) && NetValid(net) && Enabled(w, net, ClientSends(i, c0, p, snap))
    requires IsDataType(p.head.typ) && |p.body| <= net.routers[i].maxMsg && FirstHop(net.routers[i], p, c)
    ensures var net' := Step(w, net, ClientSends(i, c0, p, snap));
            && IsChan(net', i, c) && Chan(net', i, c).remote == Chan(net, i, c).remote
            && Chan(net', i, c).out == Chan(net, i, c).out + [p]
  {
    var r := net.routers[i];
    assert RouterInv(w, i, r) && ChannelInv(w, i, r.chans[c0]);
    if p.head.dest in r.table {
      HeldIdIsDelivered(r, c0, p, snap);
    } else {
      var d: int := p.head.dest;
      UnheldIdGoesUp(r, c0, p, snap, d / 0x100_0000, d % 0x100_0000);
    }
  }

  /** Held where it enters, a client's data frame is on the holder's queue at once. */
  lemma LocalFrameArrives(w: Plan, run: Run, m: nat, i: nat, c0: nat, p: Packet, snap: seq<Word>, c: nat)
    requires OneHome(w) && IsRun(w, run) && m < |run.events| && run.events[m] == ClientSends(i, c0, p, snap)
    requires i < |run.nets[m].routers| && p.head.dest in run.nets[m].routers[i].table
    requires IsDataType(p.head.typ) && |p.body| <= run.nets[m].routers[i].maxMsg && FirstHop(run.nets[m].routers[i], p, c)
    ensures IsChan(run.nets[m], i, c) && IsChan(run.nets[m + 1], i, c)
    ensures Chan(run.nets[m + 1], i, c).out == Chan(run.nets[m], i, c).out + [p]
  {
    assert RunStep(w, run, m);
    RunKeepsInv(w, run, m);
    SentIsQueued(w, run.nets[m], i, c0, p, snap, c);
  }

  /** Over a link: a client's data frame whose first hop is a link to router s, peer or upstream, is on the queue of the
      connection that holds its destination at s, having crossed that one link, as soon as the frames queued before it
      and then the frame itself have been read there.  Over a peer link that connection is a client. */
  lemma FrameArrives(w: Plan, run: Run, m: nat, n: nat, i: nat, c0: nat, p: Packet, snap: seq<Word>, c: nat, j: nat)
    requires OneHome(w) && IsRun(w, run) && m < n < |run.events| && run.events[m] == ClientSends(i, c0, p, snap)
    requires IsDataType(p.head.typ) && i < |run.nets[m].routers| && |p.body| <= run.nets[m].routers[i].maxMsg
    requires FirstHop(run.nets[m].routers[i], p, c) && !Chan(run.nets[m], i, c).remote.Client?
    requires var ch := Chan(run.nets[m], i, c);
             && ReadsOf(run, ch.remote.router, ch.remote.chan, m + 1, n) == |ch.out|
             && ReadsEnd(run.events[n], ch.remote.router, ch.remote.chan)
             && ch.remote.router < |run.nets[n].routers|
             && var r := run.nets[n].routers[ch.remote.router];
                && |p.body| <= r.maxMsg && p.head.dest in r.table && r.table[p.head.dest] == j
                && j < |r.chans| && r.chans[j].open
    ensures var far := Chan(run.nets[m], i, c).remote;
            && IsChan(run.nets[n], far.router, j) && IsChan(run.nets[n + 1], far.router, j)
            && Chan(run.nets[n + 1], far.router, j).out == Chan(run.nets[n], far.router, j).out + [Cross(far, p)]
            && Cross(far, p).head == p.head && Cross(far, p).body == p.body
            && (far.Peer? ==> Chan(run.nets[n], far.router, j).remote == Client && Cross(far, p).tag.peers == 1)
  {
    assert RunStep(w, run, m);
    RunKeepsInv(w, run, m);
    var far, r := Chan(run.nets[m], i, c).remote, run.nets[m].routers[i];
    assert RouterInv(w, i, r) && ChannelInv(w, i, r.chans[c]);
    if far.Peer? {
      assert EntryInv(w, i, r, p.head.dest);
      RoutesLeadHome(w, run, n, far.router, p.head.dest);
    }
    SentIsQueued(w, run.nets[m], i, c0, p, snap, c);
    QueuedIsDelivered(w, run, m + 1, n, i, c, p, j);
  }
}
