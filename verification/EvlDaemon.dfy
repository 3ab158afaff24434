/** The EVL router daemon, its mailbox table and devices updated in place.  Connections, the set of local mailboxes,
    broadcasts and upstream forwarding are the same code in both daemons and are held in `links`, whose own table
    stays empty. */
module EvlDaemon {
  import opened Bytes
  import opened Protocol
  import opened RouterModel
  import opened TcpRouter
  import opened EvlRouter

  class EvlRouterDaemon {
    const links: TcpRouterDaemon
    var table: map<Word, Entry>
    var devs: seq<Device>

    ghost function View(): Evl
      reads this, links
    {
      Evl(table, links.local, links.chans, devs, links.maxMsg)
    }

    ghost predicate Ok()
      reads this, links
    {
      EvlValid(View()) && links.table == map[]
    }

    constructor (maxMsg: nat)
      ensures Ok() && View() == Evl(map[], {}, [], [], maxMsg) && fresh(links)
    {
      links := new TcpRouterDaemon(maxMsg);
      table, devs := map[], [];
    }

    /** XbufEntry::write_body: the device takes any positive number of bytes per call until its room is used up. */
    method WriteBody(k: nat, body: seq<Byte>, room: nat) returns (ok: bool)
      requires Ok() && k < |devs|
      modifies this`devs
      ensures ok <==> Wrote(body, room)
      ensures devs == old(devs)[k := old(devs)[k].(written := old(devs)[k].written + Taken(body, room))]
    {
      if body == [] {
        assert devs[k].written + [] == devs[k].written;
        return false;
      }
      ghost var was := devs[k].written;
      var written := 0;
      assert was + body[..0] == was;
      while written < |body|
        invariant 0 <= written <= |body| && written <= room && |devs| == |old(devs)|
        invariant devs == old(devs)[k := old(devs)[k].(written := was + body[..written])]
      {
        if written == room {
          return false;
        }
        var n :| 1 <= n <= (if |body| <= room then |body| else room) - written;
        devs := devs[k := devs[k].(written := devs[k].written + body[written..written + n])];
        assert was + body[..written] + body[written..written + n] == was + body[..written + n];
        written := written + n;
      }
      assert body[..|body|] == body;
      ok := true;
    }

    /** Connection::handle_frame on connection c. */
    method Handle(c: nat, p: Packet, o: Oracle) returns (snap: seq<Word>)
      requires Ok() && c < |links.chans|
      modifies this, links
      ensures Ok() && Lists(snap, old(links.local))
      ensures View() == EvlHandle(old(View()), c, p, snap, o)
    {
      snap := links.Snapshot();
      if |p.body| > links.maxMsg {
        links.chans := links.chans[c := links.chans[c].(open := false)];
        return;
      }
      var typ := p.head.typ;
      if typ == MSG_ROUTER_PEER_HELLO {
        if !links.chans[c].isPeer {
          links.chans := links.chans[c := links.chans[c].(isPeer := true)];
          snap := links.AdvertiseAsPeer(c);
        }
      } else if typ == MSG_ROUTER_PEER_REGISTER {
        if links.chans[c].isPeer && |p.body| >= MBX_PAYLOAD_SIZE && Mbx(p) !in table {
          table := table[Mbx(p) := PeerCon(c)];
        }
      } else if typ == MSG_ROUTER_PEER_DELETE {
        if links.chans[c].isPeer && |p.body| >= MBX_PAYLOAD_SIZE {
          table := table - {Mbx(p)};
        }
      } else if typ == MSG_ROUTER_DISABLE_WATCHDOG {
      } else if typ == MSG_ROUTER_MBX_INIT_WITH_REPLY {
        if |p.body| >= MBX_PAYLOAD_SIZE {
          HandleInit(c, p, o.opens);
        }
      } else if typ == MSG_ROUTER_MBX_DELETE {
        if |p.body| >= MBX_PAYLOAD_SIZE {
          table := table - {Mbx(p)};
          links.OnLocalDeleted(Mbx(p));
        }
      } else {
        HandleData(c, p, o.room);
      }
    }

    method HandleInit(c: nat, p: Packet, opens: bool)
      requires Ok() && c < |links.chans| && |p.body| >= MBX_PAYLOAD_SIZE
      modifies this, links
      ensures Ok() && View() == EvlInit(old(View()), c, p, opens)
    {
      var ok := Mbx(p) !in table;
      if ok {
        if opens {
          table, devs := table[Mbx(p) := Xbuf(|devs|)], devs + [Device(Mbx(p), [])];
        } else {
          table := table[Mbx(p) := Tcp(c)];
        }
        links.OnLocalRegistered(Mbx(p));
      }
      var _ := links.SendOn(c, Reply(if ok then MSG_OK else MSG_ERROR, p));
    }

    method HandleData(c: nat, p: Packet, room: nat)
      requires Ok() && c < |links.chans|
      modifies this, links
      ensures Ok() && View() == EvlData(old(View()), c, p, room)
    {
      if p.head.dest !in table {
        if !links.chans[c].isPeer {
          var up := links.ForwardToUpstream(p);
          if !up {
            var _ := links.SendOn(c, Reply(MSG_ERROR, p));
          }
        }
      } else {
        match table[p.head.dest]
        case Xbuf(k) =>
          var ok := WriteBody(k, p.body, room);
          if !ok {
            var _ := links.SendOn(c, Reply(MSG_ERROR, p));
          }
        case Tcp(con) => var _ := links.SendOn(con, p);
        case PeerCon(con) => var _ := links.SendOn(con, p);
      }
    }

    /** The body of run_connection_reader for one frame. */
    method ReadFromUpstream(k: nat, p: Packet)
      requires Ok() && k < |links.chans|
      modifies this, links
      ensures Ok() && View() == EvlRead(old(View()), k, p)
    {
      if |p.body| > links.maxMsg {
        LoopReturns(k);
      } else if p.head.dest in table && !table[p.head.dest].Xbuf? {
        var _ := links.SendOn(table[p.head.dest].con, p);
      }
    }

    /** The body of XbufEntry::run_reader for one read. */
    method ReadFromXbuf(body: seq<Byte>)
      requires Ok()
      modifies links
      ensures Ok() && View() == EvlFromXbuf(old(View()), body)
    {
      if |body| >= WIRE_HEADER_SIZE {
        var p := FrameFor(body);
        if p.head.dest in table && !table[p.head.dest].Xbuf? {
          var _ := links.SendOn(table[p.head.dest].con, p);
        }
      }
    }

    /** The end of Connection::run: remove_all_for_con(this). */
    method LoopReturns(c: nat)
      requires Ok() && c < |links.chans|
      modifies this, links
      ensures Ok() && View() == EvlEnd(old(View()), c)
    {
      table := map d | d in table && (table[d].Xbuf? || table[d].con != c) :: table[d];
      links.LoopReturns(c);
    }
  }
}
