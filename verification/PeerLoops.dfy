/** When peering is loop-free: exactly when no id may be registered at two routers.  A client's disconnect leaves its
    id advertised, so two routers that both once served an id send each other's frames for it without end. */
module PeerLoops {
  import opened Wrappers
  import opened Bytes
  import opened Protocol
  import opened RouterModel
  import opened RouterInNetwork
  import opened Network
  import opened NetworkTheorems
  import opened NetworkScenarios

  /** No frame ever crosses more than n peer links. */
  ghost predicate CrossesAtMost(run: Run, n: nat) {
    forall k, i, c, j ::
      0 <= k < |run.nets| && IsChan(run.nets[k], i, c) && 0 <= j < |Chan(run.nets[k], i, c).out| ==>
        Chan(run.nets[k], i, c).out[j].tag.peers <= n
  }

  /** A router whose client on connection 0 registered d and left. */
  function Abandoned(d: Word, maxMsg: nat): Router {
    Router(map[], {d}, [Channel(Link, Client, false, false, false, [Accepted(d)])], maxMsg)
  }

  /** After a client's disconnect its id is routed nowhere and is still advertised. */
  lemma AbandonedStillAdvertises(d: Word, maxMsg: nat)
    ensures EndLoop(Serving(d, maxMsg), 0) == Abandoned(d, maxMsg)
  {
    assert EndLoop(Serving(d, maxMsg), 0).table == map[];
  }

  lemma Abandons(w: Plan, run: Run, a: nat, b: nat, ma: nat, rb: Router, d: Word) returns (run': Run)
    requires Reaches(w, run, a, b, Bare(ma), rb) && w.may(a, d) && ma >= MBX_PAYLOAD_SIZE
    ensures Reaches(w, run', a, b, Abandoned(d, ma), rb) && run'.nets[0] == run.nets[0]
  {
    run' := Registers1(w, run, a, b, ma, rb, d);
    run' := LoopReturns(w, run', a, b, Serving(d, ma), rb, 0);
    AbandonedStillAdvertises(d, ma);
  }

  /** A router that has abandoned d and routes it to the link on channel 1. */
  function Misled(d: Word, maxMsg: nat, other: nat, out: seq<Packet>, rest: seq<Channel>): Router {
    Router(map[d := 1], {d},
           [Channel(Link, Client, false, false, false, [Accepted(d)]), PeerEnd(other, 1, out)] + rest, maxMsg)
  }

  /** Two routers that have abandoned the same id mislead each other about it. */
  lemma Mislead(w: Plan, run: Run, a: nat, b: nat, ma: nat, mb: nat, d: Word) returns (run': Run)
    requires Reaches(w, run, a, b, Bare(ma), Bare(mb)) && w.may(a, d) && w.may(b, d)
    requires ma >= MBX_PAYLOAD_SIZE && mb >= MBX_PAYLOAD_SIZE
    ensures Reaches(w, run', a, b, Misled(d, ma, b, [], []), Misled(d, mb, a, [], []))
    ensures run'.nets[0] == run.nets[0]
  {
    run' := Abandons(w, run, a, b, ma, Bare(mb), d);
    Swapped(w, run', a, b, Abandoned(d, ma), Bare(mb));
    run' := Abandons(w, run', b, a, mb, Abandoned(d, ma), d);
    Swapped(w, run', b, a, Abandoned(d, mb), Abandoned(d, ma));
    run' := Joins(w, run', a, b, Abandoned(d, ma), Abandoned(d, mb), d, [d]);
    assert [Hello()] + Registers([d]) == [Hello(), Register(d)];
    assert Taught(Plus(Abandoned(d, mb), PeerEnd(a, 1, [Hello(), Register(d)])), 1, d)
        == Misled(d, mb, a, [Hello(), Register(d)], []);
    run' := Answered(w, run', a, b, ma, mb, d);
  }

  /** The dialling router reads the adverts of the other. */
  lemma Answered(w: Plan, run: Run, a: nat, b: nat, ma: nat, mb: nat, d: Word) returns (run': Run)
    requires ma >= MBX_PAYLOAD_SIZE
    requires Reaches(w, run, a, b, Plus(Abandoned(d, ma), PeerEnd(b, 1, [])), Misled(d, mb, a, [Hello(), Register(d)], []))
    ensures Reaches(w, run', a, b, Misled(d, ma, b, [], []), Misled(d, mb, a, [], []))
    ensures run'.nets[0] == run.nets[0]
  {
    var ra, rb := Plus(Abandoned(d, ma), PeerEnd(b, 1, [])), Misled(d, mb, a, [Hello(), Register(d)], []);
    Swapped(w, run, a, b, ra, rb);
    HearsHello(ra, 1, Cross(Peer(a, 1), Hello()), [d]);
    run' := Reads(w, run, b, a, rb, ra, 1, 1, [d]);
    var rb1 := Misled(d, mb, a, [Register(d)], []);
    assert Pop(rb, 1) == rb1;
    HearsRegister(ra, 1, Cross(Peer(a, 1), Register(d)), [d], d);
    assert Taught(ra, 1, d) == Misled(d, ma, b, [], []);
    run' := Reads(w, run', b, a, rb1, ra, 1, 1, [d]);
    assert [Register(d)][1..] == [];
    assert Pop(rb1, 1) == Misled(d, mb, a, [], []);
    Swapped(w, run', b, a, Misled(d, mb, a, [], []), Misled(d, ma, b, [], []));
  }

  function Crossed(p: Packet, n: nat): Packet { p.(tag := p.tag.(peers := p.tag.peers + n)) }

  /** A misled router puts a frame for d that it reads from the link back on the link. */
  lemma SentBack(d: Word, m: nat, other: nat, rest: seq<Channel>, c: nat, p: Packet, snap: seq<Word>)
    requires c < 2 + |rest| && IsData(p) && p.head.dest == d && |p.body| <= m
    ensures Valid(Misled(d, m, other, [], rest))
    ensures HandleFrame(Misled(d, m, other, [], rest), c, p, snap) == Misled(d, m, other, [p], rest)
  {
    assert [] + [p] == [p];
  }

  /** Two misled routers pass a frame to and fro as often as one likes. */
  lemma {:induction false} Bounces(w: Plan, run: Run, a: nat, b: nat, ma: nat, mb: nat, d: Word, p: Packet,
                                   sa: seq<Channel>, sb: seq<Channel>, n: nat)
    returns (run': Run, i: nat)
    requires IsData(p) && p.head.dest == d && |p.body| <= ma && |p.body| <= mb
    requires Reaches(w, run, a, b, Misled(d, ma, b, [p], sa), Misled(d, mb, a, [], sb))
    ensures IsRun(w, run') && run'.nets[0] == run.nets[0]
    ensures IsChan(Last(run'), i, 1) && Chan(Last(run'), i, 1).out == [Crossed(p, n)]
    decreases n
  {
    if n == 0 {
      run', i := run, a;
    } else {
      var p' := Cross(Peer(b, 1), p);
      SentBack(d, mb, a, sb, 1, p', [d]);
      run' := Reads(w, run, a, b, Misled(d, ma, b, [p], sa), Misled(d, mb, a, [], sb), 1, 1, [d]);
      assert [p][1..] == [];
      assert Pop(Misled(d, ma, b, [p], sa), 1) == Misled(d, ma, b, [], sa);
      Swapped(w, run', a, b, Misled(d, ma, b, [], sa), Misled(d, mb, a, [p'], sb));
      run', i := Bounces(w, run', b, a, mb, ma, d, p', sb, sa, n - 1);
    }
  }

  /** A client of a sends a data frame for d. */
  lemma Injects(w: Plan, run: Run, a: nat, b: nat, ma: nat, rb: Router, d: Word, head: FrameHeader, body: seq<Byte>)
    returns (run': Run, p: Packet)
    requires Reaches(w, run, a, b, Misled(d, ma, b, [], []), rb)
    requires !IsControl(head.typ) && head.dest == d && |body| <= ma
    ensures p == Packet(head, body, p.tag) && p.tag.peers == 0 && p.tag.uid.Some?
    ensures Reaches(w, run', a, b, Misled(d, ma, b, [p], [Channel(Link, Client, false, true, true, [])]), rb)
    ensures run'.nets[0] == run.nets[0]
  {
    var ra := Misled(d, ma, b, [], [Channel(Link, Client, false, true, true, [])]);
    run' := ClientArrives(w, run, a, b, Misled(d, ma, b, [], []), rb);
    assert Attach(Misled(d, ma, b, [], []), Link, Client) == ra;
    p := Packet(head, body, Tag(Some(Last(run').next), a, 0, 0, 0));
    SentBack(d, ma, b, [Channel(Link, Client, false, true, true, [])], 2, p, [d]);
    run' := ClientActs(w, run', a, b, ra, rb, 2, p, [d]);
  }

  /** If an id may be registered at two routers, then in every network with these two, and for every data frame to
      the id and every n, there is a permitted run in which the frame crosses n peer links. */
  lemma TwoHomesLoop(w: Plan, net: Net, a: nat, b: nat, d: Word, head: FrameHeader, body: seq<Byte>, n: nat)
    returns (run: Run, i: nat)
    requires Initial(net) && a < |net.routers| && b < |net.routers| && a != b && w.may(a, d) && w.may(b, d)
    requires net.routers[a].maxMsg >= MBX_PAYLOAD_SIZE && net.routers[b].maxMsg >= MBX_PAYLOAD_SIZE
    requires !IsControl(head.typ) && head.dest == d
    requires |body| <= net.routers[a].maxMsg && |body| <= net.routers[b].maxMsg
    ensures IsRun(w, run) && run.nets[0] == net && IsChan(Last(run), i, 1)
    ensures var out := Chan(Last(run), i, 1).out;
            |out| == 1 && out[0] == Packet(head, body, out[0].tag) && out[0].tag.uid.Some? && out[0].tag.peers == n
  {
    var ma, mb := net.routers[a].maxMsg, net.routers[b].maxMsg;
    run := Run([net], []);
    run := Mislead(w, run, a, b, ma, mb, d);
    var p;
    run, p := Injects(w, run, a, b, ma, Misled(d, mb, a, [], []), d, head, body);
    run, i := Bounces(w, run, a, b, ma, mb, d, p, [Channel(Link, Client, false, true, true, [])], [], n);
  }

  lemma OneHomeCrossesOnce(w: Plan, run: Run)
    requires OneHome(w) && IsRun(w, run)
    ensures CrossesAtMost(run, 1)
  {
    forall k, i, c, j | 0 <= k < |run.nets| && IsChan(run.nets[k], i, c) && 0 <= j < |Chan(run.nets[k], i, c).out|
      ensures Chan(run.nets[k], i, c).out[j].tag.peers <= 1
    {
      HopsAreBounded(w, run, k, i, c, j);
    }
  }

  /** Some permitted run takes a frame over more than n peer links. */
  ghost predicate Exceeds(w: Plan, n: nat) {
    exists run :: IsRun(w, run) && !CrossesAtMost(run, n)
  }

  /** The exact condition for loop freedom: no frame of any permitted run crosses more than one peer link if and only
      if each id may be registered at one router at most; otherwise no number of links is a bound. */
  lemma LoopFreeIff(w: Plan)
    ensures OneHome(w) <==> !Exceeds(w, 1)
    ensures OneHome(w) <==> exists n: nat :: !Exceeds(w, n)
  {
    if OneHome(w) {
      forall run | IsRun(w, run)
        ensures CrossesAtMost(run, 1)
      {
        OneHomeCrossesOnce(w, run);
      }
      assert !Exceeds(w, 1);
    } else {
      forall n: nat
        ensures Exceeds(w, n)
      {
        var run := Unbounded(w, n);
      }
    }
  }

  lemma Unbounded(w: Plan, n: nat) returns (run: Run)
    requires !OneHome(w)
    ensures IsRun(w, run) && !CrossesAtMost(run, n)
  {
    var a: nat, b: nat, d :| w.may(a, d) && w.may(b, d) && a != b;
    var net := Net(seq(a + b + 1, _ => Bare(MBX_PAYLOAD_SIZE)), 0);
    var i;
    run, i := TwoHomesLoop(w, net, a, b, d, MakeFrame(0, d, 0, 0, 0, 0), [], n + 1);
    assert Chan(run.nets[|run.events|], i, 1).out[0].tag.peers == n + 1;
  }
}
