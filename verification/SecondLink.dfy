/** Why convergence asks that no other link between the two routers overlapped: a REGISTER read on a second link while
    the first still owns the id is ignored, and ending the first link then leaves the id without a route for good. */
module SecondLink {
  import opened Wrappers
  import opened Bytes
  import opened Protocol
  import opened RouterModel
  import opened RouterInNetwork
  import opened Network
  import opened NetworkTheorems
  import opened NetworkScenarios
  import opened Convergence

  /** Router a, serving d, after dialling b twice. */
  function Dialler(d: Word, maxMsg: nat, b: nat): Router {
    Plus(Plus(Serving(d, maxMsg), PeerEnd(b, 0, [])), PeerEnd(b, 1, []))
  }

  /** Router b after both links came up: d is routed to the first. */
  function Acceptor(d: Word, maxMsg: nat, a: nat): Router {
    Router(map[d := 0], {}, [PeerEnd(a, 1, [Hello()]), PeerEnd(a, 2, [Hello()])], maxMsg)
  }

  lemma DialsTwice(w: Plan, run: Run, a: nat, b: nat, ma: nat, mb: nat, d: Word) returns (run': Run)
    requires Reaches(w, run, a, b, Serving(d, ma), Bare(mb)) && mb >= MBX_PAYLOAD_SIZE
    ensures Reaches(w, run', a, b, Dialler(d, ma, b), Acceptor(d, mb, a)) && run'.nets[0] == run.nets[0]
  {
    var ra, rb := Serving(d, ma), Bare(mb);
    assert [Hello()] + Registers([]) == [Hello()];
    run' := Joins(w, run, a, b, ra, rb, d, []);
    var ra1, rb1 := Plus(ra, PeerEnd(b, 0, [])), Taught(Plus(rb, PeerEnd(a, 1, [Hello()])), 0, d);
    assert [Hello()] + Registers([]) == [Hello()];
    run' := Joins(w, run', a, b, ra1, rb1, d, []);
    assert Taught(Plus(rb1, PeerEnd(a, 2, [Hello()])), 1, d) == Acceptor(d, mb, a);
  }

  /** In every network with two routers a and b, for every id that may be registered at a, there is a permitted run
      after which the only running link from a to b is up, past its snapshot and empty, while b has no route to a's
      local mailbox: that no other link is running now is not enough. */
  lemma OneRunningLinkIsNotEnough(w: Plan, net: Net, a: nat, b: nat, d: Word) returns (run: Run)
    requires Initial(net) && a < |net.routers| && b < |net.routers| && a != b && w.may(a, d)
    requires net.routers[a].maxMsg >= MBX_PAYLOAD_SIZE && net.routers[b].maxMsg >= MBX_PAYLOAD_SIZE
    ensures IsRun(w, run) && run.nets[0] == net && IsChan(Last(run), a, 2)
    ensures OnlyLink(Last(run), a, 2) && Up(Last(run), a, 2)
    ensures Chan(Last(run), a, 2).isPeer && Chan(Last(run), a, 2).out == []
    ensures a < |Last(run).routers| && Last(run).routers[a].local == {d}
    ensures b < |Last(run).routers| && Last(run).routers[b].table == map[] && Chan(Last(run), a, 2).remote.router == b
  {
    var ma, mb := net.routers[a].maxMsg, net.routers[b].maxMsg;
    run := Run([net], []);
    run := Registers1(w, run, a, b, ma, Bare(mb), d);
    run := DialsTwice(w, run, a, b, ma, mb, d);
    Swapped(w, run, a, b, Dialler(d, ma, b), Acceptor(d, mb, a));
    run := LoopReturns(w, run, b, a, Acceptor(d, mb, a), Dialler(d, ma, b), 0);
    assert EndLoop(Acceptor(d, mb, a), 0).table == map[];
  }
}
