/** Runs of one router under arbitrary input: who owns a mailbox id, and who may be sent its frames. */
module RouterRuns {
  import opened Bytes
  import opened Protocol
  import opened RouterModel

  datatype Event =
    | Opened(kind: Kind, remote: Remote)
    | OpenedPeer(remote: Remote, snap: seq<Word>)
    | Frame(c: nat, p: Packet, snap: seq<Word>)
    | UpFrame(c: nat, p: Packet)
    | Ended(c: nat)

  ghost predicate Live(r: Router, c: nat) {
    c < |r.chans| && r.chans[c].running
  }

  /** Frames are read only from open sockets by running loops; nothing else is assumed of them. */
  ghost predicate Enabled(r: Router, e: Event) {
    match e
    case Opened(_, _) => true
    case OpenedPeer(_, snap) => Lists(snap, r.local)
    case Frame(c, _, snap) => Live(r, c) && r.chans[c].open && r.chans[c].kind.Link? && Lists(snap, r.local)
    case UpFrame(c, _) => Live(r, c) && r.chans[c].open && !r.chans[c].kind.Link?
    case Ended(c) => Live(r, c)
  }

  ghost function Step(r: Router, e: Event): Router
    requires Valid(r) && Enabled(r, e)
  {
    match e
    case Opened(kind, remote) => Attach(r, kind, remote)
    case OpenedPeer(remote, snap) => AttachPeer(r, remote, snap)
    case Frame(c, p, snap) => HandleFrame(r, c, p, snap)
    case UpFrame(c, p) => ReadUpstream(r, c, p)
    case Ended(c) => EndLoop(r, c)
  }

  /** Entries name live client-or-peer connections: no entry outlives its owner's loop. */
  ghost predicate Inv(r: Router) {
    Valid(r) && forall d :: d in r.table ==> Live(r, r.table[d]) && r.chans[r.table[d]].kind.Link?
  }

  datatype Run = Run(states: seq<Router>, events: seq<Event>)

  ghost predicate IsRun(run: Run) {
    && |run.states| == |run.events| + 1
    && run.states[0].table == map[]
    && forall i :: 0 <= i < |run.events| ==> RunStep(run, i)
  }

  ghost predicate RunStep(run: Run, i: nat)
    requires |run.states| == |run.events| + 1 && i < |run.events|
  {
    Valid(run.states[i]) && Enabled(run.states[i], run.events[i]) &&
    run.states[i + 1] == Step(run.states[i], run.events[i])
  }

  // ------------------------------------------------------------------ what gives and takes ownership

  ghost predicate Concerns(r: Router, e: Event, typ: Int8, d: Word) {
    e.Frame? && |e.p.body| <= r.maxMsg && e.p.head.typ == typ && |e.p.body| >= MBX_PAYLOAD_SIZE && Mbx(e.p) == d
  }

  ghost predicate FromPeer(r: Router, e: Event) {
    e.Frame? && e.c < |r.chans| && r.chans[e.c].isPeer
  }

  /** The client's registration of d on c is accepted in this step and answered MSG_OK on c. */
  ghost predicate AnsweredOk(r: Router, e: Event, r': Router, c: nat, d: Word) {
    && Concerns(r, e, MSG_ROUTER_MBX_INIT_WITH_REPLY, d) && e.c == c
    && c < |r.chans| == |r'.chans|
    && |r.chans[c].out| < |r'.chans[c].out|
    && r'.chans[c].out[|r.chans[c].out|] == Reply(MSG_OK, e.p)
  }

  ghost predicate Advertised(r: Router, e: Event, c: nat, d: Word) {
    Concerns(r, e, MSG_ROUTER_PEER_REGISTER, d) && e.c == c && FromPeer(r, e)
  }

  ghost predicate Deleted(r: Router, e: Event, d: Word) {
    Concerns(r, e, MSG_ROUTER_MBX_DELETE, d) || (Concerns(r, e, MSG_ROUTER_PEER_DELETE, d) && FromPeer(r, e))
  }

  /** d is deleted, or the loop of its owner c ends. */
  ghost predicate Released(r: Router, e: Event, c: nat, d: Word) {
    Deleted(r, e, d) || e == Ended(c)
  }

  lemma DataKeepsLoops(r: Router, c: nat, p: Packet, i: nat)
    requires Valid(r) && c < |r.chans| && i < |r.chans|
    ensures var ch := RouteData(r, c, p).chans[i]; ch.kind == r.chans[i].kind && ch.running == r.chans[i].running
  {
  }

  /** Handling a frame changes no connection's kind or loop. */
  lemma HandleKeepsLoops(r: Router, c: nat, p: Packet, snap: seq<Word>, i: nat)
    requires Valid(r) && c < |r.chans| && i < |r.chans|
    ensures var ch := HandleFrame(r, c, p, snap).chans[i];
            ch.kind == r.chans[i].kind && ch.running == r.chans[i].running
  {
    if IsData(p) { DataKeepsLoops(r, c, p, i); }
  }

  lemma FrameKeepsInv(r: Router, c: nat, p: Packet, snap: seq<Word>)
    requires Inv(r) && Live(r, c) && r.chans[c].kind.Link?
    ensures Inv(HandleFrame(r, c, p, snap))
  {
    var r' := HandleFrame(r, c, p, snap);
    forall d | d in r'.table
      ensures Live(r', r'.table[d]) && r'.chans[r'.table[d]].kind.Link?
    {
      TableAfter(r, c, p, snap, d);
      HandleKeepsLoops(r, c, p, snap, r'.table[d]);
    }
  }

  lemma TableAfter(r: Router, c: nat, p: Packet, snap: seq<Word>, d: Word)
    requires Valid(r) && c < |r.chans| && d in HandleFrame(r, c, p, snap).table
    ensures var t := HandleFrame(r, c, p, snap).table; t[d] == c || (d in r.table && t[d] == r.table[d])
  {
  }

  lemma StepKeepsInv(r: Router, e: Event)
    requires Inv(r) && Enabled(r, e)
    ensures Inv(Step(r, e))
  {
    if e.Frame? { FrameKeepsInv(r, e.c, e.p, e.snap); }
  }

  /** An entry survives a step exactly when the step does not release it: no other frame moves or drops it. */
  lemma EntryKeptIff(r: Router, e: Event, d: Word)
    requires Inv(r) && Enabled(r, e) && d in r.table
    ensures (d in Step(r, e).table && Step(r, e).table[d] == r.table[d]) <==> !Released(r, e, r.table[d], d)
  {
  }

  /** An entry appears only for an unowned id, by an answered registration or a peer's advertisement. */
  lemma EntryGranted(r: Router, e: Event, d: Word)
    requires Inv(r) && Enabled(r, e) && d in Step(r, e).table
    requires d in r.table ==> r.table[d] != Step(r, e).table[d]
    ensures d !in r.table
    ensures var c := Step(r, e).table[d]; AnsweredOk(r, e, Step(r, e), c, d) || Advertised(r, e, c, d)
  {
    EntryKeptIffAll(r, e);
  }

  lemma EntryKeptIffAll(r: Router, e: Event)
    requires Inv(r) && Enabled(r, e)
    ensures forall d :: d in r.table && d in Step(r, e).table ==> Step(r, e).table[d] == r.table[d]
  {
  }

  lemma {:induction false} RunKeepsInv(run: Run, i: nat)
    requires IsRun(run) && i < |run.states|
    ensures Inv(run.states[i])
  {
    if i > 0 {
      assert RunStep(run, i - 1);
      RunKeepsInv(run, i - 1);
      StepKeepsInv(run.states[i - 1], run.events[i - 1]);
    }
  }

  /** Over any stretch of a run, an owner is replaced only after a delete of the id or the end of the owner's loop. */
  lemma {:induction false} OwnerChangesOnlyOnRelease(run: Run, i: nat, j: nat, d: Word) returns (k: nat)
    requires IsRun(run) && i <= j < |run.states| && d in run.states[i].table
    requires !(d in run.states[j].table && run.states[j].table[d] == run.states[i].table[d])
    ensures i <= k < j && Released(run.states[k], run.events[k], run.states[i].table[d], d)
    decreases j - i
  {
    assert i < j && RunStep(run, i);
    RunKeepsInv(run, i);
    EntryKeptIff(run.states[i], run.events[i], d);
    if Released(run.states[i], run.events[i], run.states[i].table[d], d) {
      k := i;
    } else {
      k := OwnerChangesOnlyOnRelease(run, i + 1, j, d);
    }
  }

  /** Every entry traces back to a step that granted it, with no release since. */
  lemma {:induction false} OwnershipIsInForce(run: Run, n: nat, d: Word) returns (g: nat)
    requires IsRun(run) && n < |run.states| && d in run.states[n].table
    ensures g < n && d !in run.states[g].table
    ensures var c := run.states[n].table[d];
            || AnsweredOk(run.states[g], run.events[g], run.states[g + 1], c, d)
            || Advertised(run.states[g], run.events[g], c, d)
    ensures forall k :: g < k < n ==> !Released(run.states[k], run.events[k], run.states[n].table[d], d)
  {
    assert RunStep(run, n - 1);
    RunKeepsInv(run, n - 1);
    var r, e := run.states[n - 1], run.events[n - 1];
    if d in r.table && r.table[d] == run.states[n].table[d] {
      EntryKeptIff(r, e, d);
      g := OwnershipIsInForce(run, n - 1, d);
    } else {
      EntryGranted(r, e, d);
      g := n - 1;
    }
  }

  /** A data frame, or any frame read from upstream, reaches a connection's socket only under a registration of its destination that was answered
      MSG_OK (or advertised by that peer) and is still in force; otherwise the only thing sent to a connection
      is the error answer to the frame's own sender. */
  lemma NoMisdelivery(run: Run, n: nat, k: nat) returns (g: nat)
    requires IsRun(run) && n < |run.events|
    requires run.events[n].Frame? || run.events[n].UpFrame?
    requires run.events[n].Frame? ==> IsData(run.events[n].p)
    requires k < |run.states[n].chans| && run.states[n].chans[k].kind.Link?
    requires |run.states[n + 1].chans| == |run.states[n].chans|
    requires run.states[n + 1].chans[k].out != run.states[n].chans[k].out
    ensures var r, r', e := run.states[n], run.states[n + 1], run.events[n];
            if e.p.head.dest in r.table then
              && r'.chans[k].out == r.chans[k].out + [e.p] && r.table[e.p.head.dest] == k
              && g < n
              && (|| AnsweredOk(run.states[g], run.events[g], run.states[g + 1], k, e.p.head.dest)
                  || Advertised(run.states[g], run.events[g], k, e.p.head.dest))
              && (forall m :: g < m < n ==> !Released(run.states[m], run.events[m], k, e.p.head.dest))
            else
              k == e.c && r'.chans[k].out == r.chans[k].out + [Reply(MSG_ERROR, e.p)]
  {
    assert RunStep(run, n);
    RunKeepsInv(run, n);
    var r, e := run.states[n], run.events[n];
    if e.p.head.dest in r.table {
      g := OwnershipIsInForce(run, n, e.p.head.dest);
    } else {
      g := 0;
    }
  }
}
