/** Building runs of a network step by step, while watching two of its routers. */
module NetworkScenarios {
  import opened Wrappers
  import opened Bytes
  import opened Protocol
  import opened RouterModel
  import opened RouterInNetwork
  import opened Network
  import opened NetworkTheorems

  ghost function Last(run: Run): Net
    requires |run.nets| == |run.events| + 1
  {
    run.nets[|run.events|]
  }

  lemma StepValid(w: Plan, net: Net, e: Event)
    requires NetValid(net) && Enabled(w, net, e)
    ensures NetValid(Step(w, net, e))
  {
  }

  lemma LastValid(w: Plan, run: Run)
    requires IsRun(w, run)
    ensures NetValid(Last(run))
  {
    if |run.events| > 0 {
      var n := |run.events| - 1;
      assert RunStep(w, run, n);
      StepValid(w, run.nets[n], run.events[n]);
    }
  }

  lemma Extend(w: Plan, run: Run, e: Event) returns (run': Run)
    requires IsRun(w, run) && Enabled(w, Last(run), e)
    ensures IsRun(w, run') && run'.nets[0] == run.nets[0]
    ensures NetValid(Last(run)) && Last(run') == Step(w, Last(run), e)
  {
    LastValid(w, run);
    run' := Run(run.nets + [Step(w, Last(run), e)], run.events + [e]);
    forall k | 0 <= k < |run'.events|
      ensures RunStep(w, run', k)
    {
      assert k < |run.events| ==> RunStep(w, run, k);
    }
  }

  ghost predicate AllLinks(r: Router) {
    forall c :: 0 <= c < |r.chans| ==> r.chans[c].kind.Link?
  }

  /** The run ends with routers a and b in the given states, neither with an upstream. */
  ghost predicate Reaches(w: Plan, run: Run, a: nat, b: nat, ra: Router, rb: Router) {
    && IsRun(w, run) && a != b && a < |Last(run).routers| && b < |Last(run).routers|
    && Last(run).routers[a] == ra && Last(run).routers[b] == rb
    && AllLinks(ra) && AllLinks(rb)
  }

  lemma NoUpstream(w: Plan, i: nat, r: Router)
    requires AllLinks(r)
    ensures RankFalls(w, i, r)
  {
  }

  // ------------------------------------------------------------------ moves of router a, with b looking on

  lemma ClientArrives(w: Plan, run: Run, a: nat, b: nat, ra: Router, rb: Router) returns (run': Run)
    requires Reaches(w, run, a, b, ra, rb)
    ensures Valid(ra) && Reaches(w, run', a, b, Attach(ra, Link, Client), rb) && run'.nets[0] == run.nets[0]
  {
    run' := Extend(w, run, ClientConnects(a));
  }

  lemma ClientActs(w: Plan, run: Run, a: nat, b: nat, ra: Router, rb: Router, c: nat, p: Packet, snap: seq<Word>)
    returns (run': Run)
    requires Reaches(w, run, a, b, ra, rb) && Valid(ra) && c < |ra.chans|
    requires ra.chans[c].open && ra.chans[c].running && ra.chans[c].remote.Client? && Lists(snap, ra.local)
    requires Enters(w, a, p) && p.tag.uid == Some(Last(run).next) && AllLinks(HandleFrame(ra, c, p, snap))
    ensures Reaches(w, run', a, b, HandleFrame(ra, c, p, snap), rb) && run'.nets[0] == run.nets[0]
  {
    NoUpstream(w, a, ra);
    run' := Extend(w, run, ClientSends(a, c, p, snap));
  }

  lemma LoopReturns(w: Plan, run: Run, a: nat, b: nat, ra: Router, rb: Router, c: nat) returns (run': Run)
    requires Reaches(w, run, a, b, ra, rb) && c < |ra.chans| && ra.chans[c].running
    ensures Valid(ra) && Reaches(w, run', a, b, EndLoop(ra, c), rb) && run'.nets[0] == run.nets[0]
  {
    LastValid(w, run);
    run' := Extend(w, run, LoopEnds(a, c));
  }

  lemma Dials(w: Plan, run: Run, a: nat, b: nat, ra: Router, rb: Router, snap: seq<Word>) returns (run': Run)
    requires Reaches(w, run, a, b, ra, rb) && Lists(snap, ra.local)
    ensures Valid(ra) && Valid(rb)
    ensures Reaches(w, run', a, b, AttachPeer(ra, Peer(b, |rb.chans|), snap), Attach(rb, Link, Peer(a, |ra.chans|)))
    ensures run'.nets[0] == run.nets[0]
  {
    LastValid(w, run);
    run' := Extend(w, run, PeerConnects(a, b, snap));
  }

  /** Router b reads, on its channel e, what is first in a's channel c. */
  lemma Reads(w: Plan, run: Run, a: nat, b: nat, ra: Router, rb: Router, c: nat, e: nat, snap: seq<Word>)
    returns (run': Run)
    requires Reaches(w, run, a, b, ra, rb) && c < |ra.chans| && e < |rb.chans| && Valid(rb)
    requires ra.chans[c].remote == Peer(b, e) && rb.chans[e].remote == Peer(a, c) && ra.chans[c].out != []
    requires rb.chans[e].open && rb.chans[e].running && Lists(snap, rb.local)
    requires AllLinks(HandleFrame(rb, e, Cross(Peer(b, e), ra.chans[c].out[0]), snap))
    ensures Reaches(w, run', a, b, Pop(ra, c), HandleFrame(rb, e, Cross(Peer(b, e), ra.chans[c].out[0]), snap))
    ensures run'.nets[0] == run.nets[0]
  {
    NoUpstream(w, b, rb);
    run' := Extend(w, run, Delivers(b, e, snap));
  }

  lemma Swapped(w: Plan, run: Run, a: nat, b: nat, ra: Router, rb: Router)
    requires Reaches(w, run, a, b, ra, rb)
    ensures Reaches(w, run, b, a, rb, ra)
  {
  }

  // ------------------------------------------------------------------ what routers do with the frames of a new link

  /** Reading HELLO, whatever links it has crossed. */
  lemma HearsHello(r: Router, e: nat, p: Packet, snap: seq<Word>)
    requires Valid(r) && e < |r.chans| && p.head == Hello().head && p.body == [] && r.chans[e].open
    ensures HandleFrame(r, e, p, snap) ==
            if r.chans[e].isPeer then r
            else r.(chans := r.chans[e := r.chans[e].(isPeer := true, out := r.chans[e].out + ([Hello()] + Registers(snap)))])
  {
  }

  lemma HearsRegister(r: Router, e: nat, p: Packet, snap: seq<Word>, d: Word)
    requires Valid(r) && e < |r.chans| && p.head == Register(d).head && p.body == Register(d).body
    requires r.chans[e].isPeer && r.maxMsg >= MBX_PAYLOAD_SIZE
    ensures HandleFrame(r, e, p, snap) == if d in r.table then r else r.(table := r.table[d := e])
  {
    AdvertRoundTrip(MSG_ROUTER_PEER_REGISTER, d);
  }

  /** An open, running link end in peer mode. */
  function PeerEnd(router: nat, chan: nat, out: seq<Packet>): Channel {
    Channel(Link, Peer(router, chan), true, true, true, out)
  }

  function Plus(r: Router, ch: Channel): Router { r.(chans := r.chans + [ch]) }

  /** Router r, having taken up a link at channel e and read HELLO and one REGISTER from it. */
  function Taught(r: Router, e: nat, d: Word): Router {
    if d in r.table then r else r.(table := r.table[d := e])
  }

  /** Router a, whose only local id is d, dials b, and b reads all that a sends at once. */
  lemma Joins(w: Plan, run: Run, a: nat, b: nat, ra: Router, rb: Router, d: Word, snapB: seq<Word>) returns (run': Run)
    requires Reaches(w, run, a, b, ra, rb) && ra.local == {d} && Lists(snapB, rb.local)
    requires rb.maxMsg >= MBX_PAYLOAD_SIZE
    ensures var c, e := |ra.chans|, |rb.chans|;
            Reaches(w, run', a, b, Plus(ra, PeerEnd(b, e, [])),
                    Taught(Plus(rb, PeerEnd(a, c, [Hello()] + Registers(snapB))), e, d))
    ensures run'.nets[0] == run.nets[0]
  {
    var c, e := |ra.chans|, |rb.chans|;
    run' := Dials(w, run, a, b, ra, rb, [d]);
    var ra1, rb1 := Plus(ra, PeerEnd(b, e, [Hello(), Register(d)])), Plus(rb, Channel(Link, Peer(a, c), false, true, true, []));
    DialledWith(ra, Peer(b, e), d);
    assert Attach(rb, Link, Peer(a, c)) == rb1;
    HearsHello(rb1, e, Cross(Peer(b, e), Hello()), snapB);
    var rb2 := Plus(rb, PeerEnd(a, c, [Hello()] + Registers(snapB)));
    assert [] + ([Hello()] + Registers(snapB)) == [Hello()] + Registers(snapB);
    assert HandleFrame(rb1, e, Cross(Peer(b, e), Hello()), snapB) == rb2;
    run' := Reads(w, run', a, b, ra1, rb1, c, e, snapB);
    var ra2 := Plus(ra, PeerEnd(b, e, [Register(d)]));
    assert Pop(ra1, c) == ra2;
    HearsRegister(rb2, e, Cross(Peer(b, e), Register(d)), snapB, d);
    run' := Reads(w, run', a, b, ra2, rb2, c, e, snapB);
    assert [Register(d)][1..] == [];
    assert Pop(ra2, c) == Plus(ra, PeerEnd(b, e, []));
  }

  lemma DialledWith(r: Router, remote: Remote, d: Word)
    requires Valid(r)
    ensures AttachPeer(r, remote, [d]) == Plus(r, Channel(Link, remote, true, true, true, [Hello(), Register(d)]))
  {
    assert [] + ([Hello()] + Registers([d])) == [Hello(), Register(d)];
  }

  // ------------------------------------------------------------------ a client's registration

  function InitFrame(d: Word, tag: Tag): Packet {
    Packet(MakeFrame(MSG_ROUTER_MBX_INIT_WITH_REPLY, 0, d, 0, 0, MBX_PAYLOAD_SIZE), PutWord(d), tag)
  }

  function Bare(maxMsg: nat): Router { Router(map[], {}, [], maxMsg) }

  /** The answer to the registration of d. */
  function Accepted(d: Word): Packet { Reply(MSG_OK, InitFrame(d, UNTAGGED)) }

  /** A router whose client on connection 0 has registered d. */
  function Serving(d: Word, maxMsg: nat): Router {
    Router(map[d := 0], {d}, [Channel(Link, Client, false, true, true, [Accepted(d)])], maxMsg)
  }

  lemma RegistrationServes(d: Word, maxMsg: nat, tag: Tag)
    requires maxMsg >= MBX_PAYLOAD_SIZE
    ensures HandleFrame(Attach(Bare(maxMsg), Link, Client), 0, InitFrame(d, tag), []) == Serving(d, maxMsg)
  {
    AdvertRoundTrip(MSG_ROUTER_PEER_REGISTER, d);
    assert Mbx(InitFrame(d, tag)) == d;
    var r1 := Attach(Bare(maxMsg), Link, Client);
    var r2 := Send(r1.(table := map[d := 0]), 0, Accepted(d));
    assert r2.chans[0].out == [Accepted(d)];
    assert r2.chans[0] == Serving(d, maxMsg).chans[0];
    assert r2.chans == Serving(d, maxMsg).chans;
    var r3 := r2.(local := {d});
    assert Broadcast(r3, Register(d)) == r3;
  }

  lemma Registers1(w: Plan, run: Run, a: nat, b: nat, ma: nat, rb: Router, d: Word) returns (run': Run)
    requires Reaches(w, run, a, b, Bare(ma), rb) && w.may(a, d) && ma >= MBX_PAYLOAD_SIZE
    ensures Reaches(w, run', a, b, Serving(d, ma), rb) && run'.nets[0] == run.nets[0]
  {
    run' := ClientArrives(w, run, a, b, Bare(ma), rb);
    var p := InitFrame(d, Tag(Some(Last(run').next), a, 0, 0, 0));
    AdvertRoundTrip(MSG_ROUTER_PEER_REGISTER, d);
    assert Mbx(p) == d;
    RegistrationServes(d, ma, p.tag);
    run' := ClientActs(w, run', a, b, Attach(Bare(ma), Link, Client), rb, 0, p, []);
  }
}
