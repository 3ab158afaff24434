/** The TCP router daemon: the tables that connections share, updated in place by the frame handler. */
module TcpRouter {
  import opened Wrappers
  import opened Bytes
  import opened Protocol
  import opened RouterModel

  class TcpRouterDaemon {
    var table: map<Word, nat>
    var local: set<Word>
    var chans: seq<Channel>
    const maxMsg: nat

    ghost function View(): Router
      reads this
    {
      Router(table, local, chans, maxMsg)
    }

    ghost predicate Ok()
      reads this
    {
      Valid(View())
    }

    constructor (maxMsg: nat)
      ensures Ok() && View() == Router(map[], {}, [], maxMsg)
    {
      this.maxMsg := maxMsg;
      table, local, chans := map[], {}, [];
    }

    method SendOn(c: nat, p: Packet) returns (ok: bool)
      requires Ok() && c < |chans|
      modifies this
      ensures Ok() && View() == Send(old(View()), c, p)
      ensures ok == old(chans[c].open)
    {
      ok := chans[c].open;
      if ok {
        chans := chans[c := chans[c].(out := chans[c].out + [p])];
      } else {
        assert chans[c := chans[c]] == chans;
      }
    }

    /** Snapshot the peer connections, then send to each. */
    method BroadcastToPeers(p: Packet)
      requires Ok()
      modifies this
      ensures Ok() && View() == Broadcast(old(View()), p)
    {
      var peers := [];
      for i := 0 to |chans|
        invariant forall j :: 0 <= j < |peers| ==> 0 <= peers[j] < i
        invariant forall j, k :: 0 <= j < k < |peers| ==> peers[j] < peers[k]
        invariant forall c :: c in peers <==> 0 <= c < i && chans[c].isPeer
      {
        if chans[i].isPeer {
          peers := peers + [i];
        }
      }
      ghost var before := chans;
      for i := 0 to |peers|
        invariant table == old(table) && local == old(local) && |chans| == |before|
        invariant forall c :: 0 <= c < |chans| ==>
                                chans[c] == if c in peers[..i] then Told(before[c], p) else before[c]
      {
        var c := peers[i];
        assert c !in peers[..i] && peers[..i + 1] == peers[..i] + [c];
        var _ := SendOn(c, p);
      }
      assert peers[..|peers|] == peers;
      assert chans == Broadcast(old(View()), p).chans;
    }

    /** local_mailboxes_snapshot: some listing of the set. */
    method Snapshot() returns (ids: seq<Word>)
      requires Ok()
      ensures Lists(ids, local)
    {
      var left := local;
      ids := [];
      while left != {}
        invariant left <= local
        invariant Lists(ids, local - left)
        decreases left
      {
        var x :| x in left;
        left := left - {x};
        ids := ids + [x];
      }
    }

    method AdvertiseAsPeer(c: nat) returns (ids: seq<Word>)
      requires Ok() && c < |chans|
      modifies this
      ensures Ok() && Lists(ids, local)
      ensures View() == Advertise(old(View()), c, ids)
    {
      var _ := SendOn(c, Hello());
      ids := Snapshot();
      assert [Hello()] + Registers(ids[..0]) == [Hello()];
      for i := 0 to |ids|
        invariant table == old(table) && local == old(local)
        invariant |chans| == |old(chans)|
        invariant chans == old(chans)[c := Enqueue(old(chans)[c], [Hello()] + Registers(ids[..i]))]
      {
        assert Registers(ids[..i + 1]) == Registers(ids[..i]) + [Register(ids[i])];
        var _ := SendOn(c, Register(ids[i]));
        assert [Hello()] + Registers(ids[..i + 1]) == [Hello()] + Registers(ids[..i]) + [Register(ids[i])];
        EnqueueTwice(old(chans)[c], [Hello()] + Registers(ids[..i]), [Register(ids[i])]);
      }
      assert ids[..|ids|] == ids;
    }

    /** forward_to_upstream: a matching system route decides alone, otherwise the default upstream. */
    method ForwardToUpstream(p: Packet) returns (ok: bool)
      requires Ok()
      modifies this
      ensures Ok()
      ensures ok <==> exists k :: NextHop(old(View()), p.head.dest) == Some(k) && old(chans[k].open)
      ensures View() == if ok then Send(old(View()), NextHop(old(View()), p.head.dest).value, p) else old(View())
    {
      ghost var hop := NextHop(View(), p.head.dest);
      for i := 0 to |chans|
        invariant forall j :: 0 <= j < i ==> chans[j].kind != SystemRoute(SysOf(p.head.dest))
        invariant View() == old(View())
      {
        if chans[i].kind == SystemRoute(SysOf(p.head.dest)) {
          assert hop == Some(i);
          ok := SendOn(i, p);
          assert !ok ==> chans[i := chans[i]] == chans;
          return;
        }
      }
      for i := 0 to |chans|
        invariant forall j :: 0 <= j < i ==> chans[j].kind != Upstream
        invariant View() == old(View())
      {
        if chans[i].kind == Upstream {
          assert hop == Some(i);
          ok := SendOn(i, p);
          assert !ok ==> chans[i := chans[i]] == chans;
          return;
        }
      }
      assert hop == None;
      ok := false;
    }

    method OnLocalRegistered(mbx: Word)
      requires Ok()
      modifies this
      ensures Ok() && View() == Broadcast(old(View()).(local := old(local) + {mbx}), Register(mbx))
    {
      local := local + {mbx};
      BroadcastToPeers(Register(mbx));
    }

    method OnLocalDeleted(mbx: Word)
      requires Ok()
      modifies this
      ensures Ok() && View() == Broadcast(old(View()).(local := old(local) - {mbx}), Delete(mbx))
    {
      local := local - {mbx};
      BroadcastToPeers(Delete(mbx));
    }

    /** Connection::handle_frame on connection c. */
    method Handle(c: nat, p: Packet) returns (snap: seq<Word>)
      requires Ok() && c < |chans|
      modifies this
      ensures Ok() && Lists(snap, old(local))
      ensures View() == HandleFrame(old(View()), c, p, snap)
    {
      snap := Snapshot();
      if |p.body| > maxMsg {
        chans := chans[c := chans[c].(open := false)];
        return;
      }
      var typ := p.head.typ;
      if typ == MSG_ROUTER_PEER_HELLO {
        if !chans[c].isPeer {
          chans := chans[c := chans[c].(isPeer := true)];
          snap := AdvertiseAsPeer(c);
        }
      } else if typ == MSG_ROUTER_PEER_REGISTER {
        if chans[c].isPeer && |p.body| >= MBX_PAYLOAD_SIZE && Mbx(p) !in table {
          table := table[Mbx(p) := c];
        }
      } else if typ == MSG_ROUTER_PEER_DELETE {
        if chans[c].isPeer && |p.body| >= MBX_PAYLOAD_SIZE {
          table := table - {Mbx(p)};
        }
      } else if typ == MSG_ROUTER_DISABLE_WATCHDOG {
      } else if typ == MSG_ROUTER_MBX_INIT_WITH_REPLY {
        if |p.body| >= MBX_PAYLOAD_SIZE {
          var ok := Mbx(p) !in table;
          if ok {
            table := table[Mbx(p) := c];
          }
          var _ := SendOn(c, Reply(if ok then MSG_OK else MSG_ERROR, p));
          if ok {
            OnLocalRegistered(Mbx(p));
          }
        }
      } else if typ == MSG_ROUTER_MBX_DELETE {
        if |p.body| >= MBX_PAYLOAD_SIZE {
          table := table - {Mbx(p)};
          OnLocalDeleted(Mbx(p));
        }
      } else {
        HandleData(c, p);
      }
    }

    method HandleData(c: nat, p: Packet)
      requires Ok() && c < |chans|
      modifies this
      ensures Ok() && View() == RouteData(old(View()), c, p)
    {
      if p.head.dest in table {
        var _ := SendOn(table[p.head.dest], p);
      } else if !chans[c].isPeer {
        var up := ForwardToUpstream(p);
        if !up {
          var _ := SendOn(c, Reply(MSG_ERROR, p));
        }
      }
    }

    /** The body of run_connection_reader for one frame. */
    method ReadFromUpstream(k: nat, p: Packet)
      requires Ok() && k < |chans|
      modifies this
      ensures Ok() && View() == ReadUpstream(old(View()), k, p)
    {
      if |p.body| > maxMsg {
        LoopReturns(k);
      } else if p.head.dest in table {
        var _ := SendOn(table[p.head.dest], p);
      }
    }

    /** The end of Connection::run: remove_all(this). */
    method LoopReturns(c: nat)
      requires Ok() && c < |chans|
      modifies this
      ensures Ok() && View() == EndLoop(old(View()), c)
    {
      table := map d | d in table && table[d] != c :: table[d];
      chans := chans[c := chans[c].(open := false, running := false)];
    }
  }
}
