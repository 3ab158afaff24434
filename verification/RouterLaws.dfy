/** What each input does to a router, said of its table, local set and queues alone, with every frame the router builds
    written out field by field.  These laws do not mention the functions that compute the steps. */
module RouterLaws {
  import opened Wrappers
  import opened Bytes
  import opened Protocol
  import opened RouterModel
  import opened RouterRuns

  // ------------------------------------------------------------------ frames as they appear on the wire

  /** flags, type, priority, seq_nr, dest, src, msglen: the answer to p, to its source, with its sequence number. */
  function Answer(typ: Int8, p: Packet): Packet {
    Packet(FrameHeader(3, typ, 0, p.head.seqNr, p.head.src, 0, 16), [], UNTAGGED)
  }

  function OkTo(p: Packet): Packet { Answer(0, p) }

  function ErrorTo(p: Packet): Packet { Answer(-1, p) }

  function HelloFrame(): Packet { Packet(FrameHeader(3, 20, 0, 0, 0, 0, 16), [], UNTAGGED) }

  /** A peer frame of the given type whose body is the id, least significant byte first. */
  function Notice(typ: Int8, d: Word): Packet {
    Packet(FrameHeader(3, typ, 0, 0, 0, 0, 20),
           [d % 0x100, d / 0x100 % 0x100, d / 0x1_0000 % 0x100, d / 0x100_0000], UNTAGGED)
  }

  /** The body starts with the four bytes of d. */
  ghost predicate Names(p: Packet, d: Word) {
    |p.body| >= 4 && WordAt(p.body, 0) == d
  }

  lemma NamesIsMbx(p: Packet, d: Word)
    requires Names(p, d)
    ensures Mbx(p) == d
  {
  }

  lemma NoticeIsAdvert(typ: Int8, d: Word)
    ensures Advert(typ, d) == Notice(typ, d)
  {
  }

  // ------------------------------------------------------------------ changes of state

  /** The router with p at the end of channel k's queue, if its socket is open. */
  function Queued(r: Router, k: nat, p: Packet): Router
    requires k < |r.chans|
  {
    if r.chans[k].open then r.(chans := r.chans[k := r.chans[k].(out := r.chans[k].out + [p])]) else r
  }

  /** Each channel's queue has grown by what `more` says for it, and nothing else about the channels has changed. */
  ghost predicate Grown(r: Router, r': Router, more: nat -> seq<Packet>) {
    |r'.chans| == |r.chans| && r'.maxMsg == r.maxMsg &&
    forall i :: 0 <= i < |r.chans| ==> r'.chans[i] == r.chans[i].(out := r.chans[i].out + more(i))
  }

  /** Connection c is open, its loop runs, and it reads the frame p. */
  ghost predicate Reads(r: Router, c: nat, p: Packet, snap: seq<Word>) {
    && Valid(r) && c < |r.chans| && r.chans[c].open && r.chans[c].running && r.chans[c].kind.Link?
    && Lists(snap, r.local)
  }

  ghost predicate IsDataType(typ: Int8) { typ !in {13, 14, 19, 20, 21, 22} }

  // ------------------------------------------------------------------ data

  /** A data frame for an id in the table goes to the end of its holder's queue, whoever the holder is, and nothing
      else changes. */
  lemma HeldIdIsDelivered(r: Router, c: nat, p: Packet, snap: seq<Word>)
    requires Reads(r, c, p, snap) && IsDataType(p.head.typ) && |p.body| <= r.maxMsg && p.head.dest in r.table
    ensures Enabled(r, Frame(c, p, snap))
    ensures Step(r, Frame(c, p, snap)) == Queued(r, r.table[p.head.dest], p)
  {
    var k := r.table[p.head.dest];
    assert r.chans[k := r.chans[k]] == r.chans;
  }

  /** A data frame from a peer for an id not in the table is dropped. */
  lemma PeerFrameIsDropped(r: Router, c: nat, p: Packet, snap: seq<Word>)
    requires Reads(r, c, p, snap) && IsDataType(p.head.typ) && |p.body| <= r.maxMsg
    requires p.head.dest !in r.table && r.chans[c].isPeer
    ensures Enabled(r, Frame(c, p, snap)) && Step(r, Frame(c, p, snap)) == r
  {
  }

  ghost predicate FirstOfKind(r: Router, kind: Kind, k: nat) {
    k < |r.chans| && r.chans[k].kind == kind && forall i :: 0 <= i < k ==> r.chans[i].kind != kind
  }

  /** Channel k is where frames for system s go: the first route for s, or the first upstream if there is no such
      route.  Whether its socket is open plays no part. */
  ghost predicate RouteOf(r: Router, s: Byte, k: nat) {
    || FirstOfKind(r, SystemRoute(s), k)
    || (FirstOfKind(r, Upstream, k) && forall i :: 0 <= i < |r.chans| ==> r.chans[i].kind != SystemRoute(s))
  }

  /** Any other data frame goes on the route of the system in the top byte of its destination, if that is open; if it
      is closed, or there is none, the sender is answered MSG_ERROR.  Nothing else changes. */
  lemma UnheldIdGoesUp(r: Router, c: nat, p: Packet, snap: seq<Word>, s: Byte, low: nat)
    requires Reads(r, c, p, snap) && IsDataType(p.head.typ) && |p.body| <= r.maxMsg
    requires p.head.dest !in r.table && !r.chans[c].isPeer
    requires p.head.dest == s * 0x100_0000 + low && low < 0x100_0000
    ensures Enabled(r, Frame(c, p, snap))
    ensures forall k: nat :: RouteOf(r, s, k) ==>
                          Step(r, Frame(c, p, snap)) == if r.chans[k].open then Queued(r, k, p) else Queued(r, c, ErrorTo(p))
    ensures (forall k: nat :: !RouteOf(r, s, k)) ==> Step(r, Frame(c, p, snap)) == Queued(r, c, ErrorTo(p))
  {
    assert SysOf(p.head.dest) == s;
    assert Reply(MSG_ERROR, p) == ErrorTo(p);
    var hop := NextHop(r, p.head.dest);
    if hop.Some? { assert RouteOf(r, s, hop.value); }
    forall k: nat | RouteOf(r, s, k)
      ensures hop == Some(k)
    {
    }
  }

  /** So exactly one queue grows, by exactly one frame: that of the route, by the frame, or the sender's, by the answer. */
  lemma UpOrAnswered(r: Router, c: nat, p: Packet, snap: seq<Word>)
    requires Reads(r, c, p, snap) && IsDataType(p.head.typ) && |p.body| <= r.maxMsg
    requires p.head.dest !in r.table && !r.chans[c].isPeer
    ensures var r' := Step(r, Frame(c, p, snap));
            |r'.chans| == |r.chans| &&
            (|| (r' == Queued(r, c, ErrorTo(p)) && r'.chans[c].out == r.chans[c].out + [ErrorTo(p)])
             || (exists k :: 0 <= k < |r.chans| && k != c && r'.chans[k].out == r.chans[k].out + [p] && r' == Queued(r, k, p)))
  {
    var d: int := p.head.dest;
    UnheldIdGoesUp(r, c, p, snap, d / 0x100_0000, d % 0x100_0000);
    var s: Byte := d / 0x100_0000;
    if k: nat :| RouteOf(r, s, k) && r.chans[k].open {
      assert k != c;
    }
  }

  // ------------------------------------------------------------------ registration

  /** A registration of an id not in the table: it is entered for the connection and as local, the connection is
      answered MSG_OK, and then every open peer connection is told. */
  lemma FreeIdIsGranted(r: Router, c: nat, p: Packet, snap: seq<Word>, d: Word)
    requires Reads(r, c, p, snap) && p.head.typ == 13 && |p.body| <= r.maxMsg && Names(p, d) && d !in r.table
    ensures Enabled(r, Frame(c, p, snap))
    ensures var r' := Step(r, Frame(c, p, snap));
            && r'.table == r.table[d := c] && r'.local == r.local + {d}
            && Grown(r, r', (i: nat) => (if i == c then [OkTo(p)] else [])
                                 + if i < |r.chans| && r.chans[i].isPeer && r.chans[i].open then [Notice(21, d)] else [])
  {
    NamesIsMbx(p, d);
    NoticeIsAdvert(21, d);
    assert Reply(MSG_OK, p) == OkTo(p);
    var r1 := Send(r.(table := r.table[d := c]), c, OkTo(p));
    forall i | 0 <= i < |r.chans|
      ensures Told(r1.chans[i], Notice(21, d)).out
           == r.chans[i].out + ((if i == c then [OkTo(p)] else [])
                                + if r.chans[i].isPeer && r.chans[i].open then [Notice(21, d)] else [])
    {
    }
  }

  /** A registration of an id in the table is answered MSG_ERROR, and nothing else changes. */
  lemma TakenIdIsRefused(r: Router, c: nat, p: Packet, snap: seq<Word>, d: Word)
    requires Reads(r, c, p, snap) && p.head.typ == 13 && |p.body| <= r.maxMsg && Names(p, d) && d in r.table
    ensures Enabled(r, Frame(c, p, snap)) && Step(r, Frame(c, p, snap)) == Queued(r, c, ErrorTo(p))
  {
    NamesIsMbx(p, d);
  }

  /** A deletion takes the id out of the table and the local set, whoever holds it, and every open peer is told. */
  lemma DeleteForgets(r: Router, c: nat, p: Packet, snap: seq<Word>, d: Word)
    requires Reads(r, c, p, snap) && p.head.typ == 14 && |p.body| <= r.maxMsg && Names(p, d)
    ensures Enabled(r, Frame(c, p, snap))
    ensures var r' := Step(r, Frame(c, p, snap));
            && r'.table == r.table - {d} && r'.local == r.local - {d}
            && Grown(r, r', (i: nat) => if i < |r.chans| && r.chans[i].isPeer && r.chans[i].open then [Notice(22, d)] else [])
  {
    NamesIsMbx(p, d);
    NoticeIsAdvert(22, d);
  }

  // ------------------------------------------------------------------ peers

  /** A first HELLO makes the connection a peer, which is sent a HELLO and one REGISTER per local id; a later one
      changes nothing. */
  lemma HelloIsAnswered(r: Router, c: nat, p: Packet, snap: seq<Word>)
    requires Reads(r, c, p, snap) && p.head.typ == 20 && |p.body| <= r.maxMsg
    ensures Enabled(r, Frame(c, p, snap))
    ensures var ch, r' := r.chans[c], Step(r, Frame(c, p, snap));
            if ch.isPeer then r' == r
            else
              && |r'.chans| == |r.chans| && r' == r.(chans := r.chans[c := ch.(isPeer := true, out := r'.chans[c].out)])
              && |r'.chans[c].out| == |ch.out| + 1 + |snap| && ch.out <= r'.chans[c].out
              && r'.chans[c].out[|ch.out|] == HelloFrame()
              && forall i :: 0 <= i < |snap| ==> r'.chans[c].out[|ch.out| + 1 + i] == Notice(21, snap[i])
  {
    forall i | 0 <= i < |snap|
      ensures Registers(snap)[i] == Notice(21, snap[i])
    {
      NoticeIsAdvert(21, snap[i]);
    }
  }

  /** A REGISTER from a peer enters an id not in the table; anything else it may carry changes nothing. */
  lemma RegisterIsLearnt(r: Router, c: nat, p: Packet, snap: seq<Word>)
    requires Reads(r, c, p, snap) && p.head.typ == 21 && |p.body| <= r.maxMsg
    ensures Enabled(r, Frame(c, p, snap))
    ensures forall d :: Names(p, d) ==>
                          Step(r, Frame(c, p, snap)) == if r.chans[c].isPeer && d !in r.table then r.(table := r.table[d := c]) else r
    ensures |p.body| < 4 ==> Step(r, Frame(c, p, snap)) == r
  {
    forall d | Names(p, d)
      ensures Mbx(p) == d
    {
      NamesIsMbx(p, d);
    }
  }

  /** A DELETE from a peer takes the id out of the table, whoever holds it. */
  lemma PeerDeleteForgets(r: Router, c: nat, p: Packet, snap: seq<Word>)
    requires Reads(r, c, p, snap) && p.head.typ == 22 && |p.body| <= r.maxMsg
    ensures Enabled(r, Frame(c, p, snap))
    ensures forall d :: Names(p, d) ==>
                          Step(r, Frame(c, p, snap)) == if r.chans[c].isPeer then r.(table := r.table - {d}) else r
    ensures |p.body| < 4 ==> Step(r, Frame(c, p, snap)) == r
  {
    forall d | Names(p, d)
      ensures Mbx(p) == d
    {
      NamesIsMbx(p, d);
    }
  }

  /** The watchdog frame, and registrations and deletions too short to name an id, change nothing. */
  lemma OthersChangeNothing(r: Router, c: nat, p: Packet, snap: seq<Word>)
    requires Reads(r, c, p, snap) && |p.body| <= r.maxMsg
    requires p.head.typ == 19 || (p.head.typ in {13, 14} && |p.body| < 4)
    ensures Enabled(r, Frame(c, p, snap)) && Step(r, Frame(c, p, snap)) == r
  {
  }

  /** A frame with a body over the limit closes the socket it came from, whatever its type, and changes nothing else:
      the loop goes on and the entries stay. */
  lemma OversizedCloses(r: Router, c: nat, p: Packet, snap: seq<Word>)
    requires Reads(r, c, p, snap) && |p.body| > r.maxMsg
    ensures Enabled(r, Frame(c, p, snap))
    ensures Step(r, Frame(c, p, snap)) == r.(chans := r.chans[c := r.chans[c].(open := false)])
  {
  }

  // ------------------------------------------------------------------ upstream readers, loops and connections

  /** The channel's loop is over: its entries are gone, other entries and the local set stay, and it sends no more. */
  ghost predicate LoopIsOver(r: Router, r': Router, c: nat) {
    && c < |r.chans| && r'.local == r.local && r'.maxMsg == r.maxMsg
    && (forall d :: d in r'.table <==> d in r.table && r.table[d] != c)
    && (forall d :: d in r'.table ==> r'.table[d] == r.table[d])
    && r'.chans == r.chans[c := r.chans[c].(open := false, running := false)]
  }

  /** A frame of any type from an upstream or system route goes to the holder of its destination, or nowhere; an
      oversized one ends that reader. */
  lemma UpstreamFrame(r: Router, k: nat, p: Packet)
    requires Valid(r) && k < |r.chans| && r.chans[k].open && r.chans[k].running && !r.chans[k].kind.Link?
    ensures Enabled(r, UpFrame(k, p))
    ensures var r' := Step(r, UpFrame(k, p));
            if |p.body| > r.maxMsg then LoopIsOver(r, r', k)
            else if p.head.dest in r.table then r' == Queued(r, r.table[p.head.dest], p)
            else r' == r
  {
    if p.head.dest in r.table {
      var j := r.table[p.head.dest];
      assert r.chans[j := r.chans[j]] == r.chans;
    }
  }

  lemma LoopEnd(r: Router, c: nat)
    requires Valid(r) && c < |r.chans| && r.chans[c].running
    ensures Enabled(r, Ended(c)) && LoopIsOver(r, Step(r, Ended(c)), c)
  {
  }

  /** A new connection is open, running, not a peer and has an empty queue. */
  lemma NewConnection(r: Router, kind: Kind, remote: Remote)
    requires Valid(r)
    ensures Enabled(r, Opened(kind, remote))
    ensures Step(r, Opened(kind, remote)) == r.(chans := r.chans + [Channel(kind, remote, false, true, true, [])])
  {
  }

  /** A connection dialled to a peer is one from the start, and has HELLO and one REGISTER per local id queued. */
  lemma NewPeer(r: Router, remote: Remote, snap: seq<Word>)
    requires Valid(r) && Lists(snap, r.local)
    ensures Enabled(r, OpenedPeer(remote, snap))
    ensures var r', n := Step(r, OpenedPeer(remote, snap)), |r.chans|;
            && |r'.chans| == n + 1 && |r'.chans[n].out| == 1 + |snap| && r'.chans[n].out[0] == HelloFrame()
            && (forall i :: 0 <= i < |snap| ==> r'.chans[n].out[1 + i] == Notice(21, snap[i]))
            && r' == r.(chans := r.chans + [Channel(Link, remote, true, true, true, r'.chans[n].out)])
  {
    forall i | 0 <= i < |snap|
      ensures Registers(snap)[i] == Notice(21, snap[i])
    {
      NoticeIsAdvert(21, snap[i]);
    }
  }

  // ------------------------------------------------------------------ over runs

  /** In every run, a registration on an open connection draws exactly one answer: MSG_OK if and only if the id was not
      in the table, and then the connection holds it; MSG_ERROR otherwise, and then nothing else has changed. */
  lemma AnsweredIff(run: Run, n: nat, d: Word)
    requires IsRun(run) && n < |run.events| && run.events[n].Frame?
    requires run.events[n].p.head.typ == 13 && |run.events[n].p.body| <= run.states[n].maxMsg && Names(run.events[n].p, d)
    requires run.events[n].c < |run.states[n].chans| == |run.states[n + 1].chans| && !run.states[n].chans[run.events[n].c].isPeer
    ensures var r, r', c, p := run.states[n], run.states[n + 1], run.events[n].c, run.events[n].p;
            && (r'.chans[c].out == r.chans[c].out + [OkTo(p)] <==> d !in r.table)
            && (r'.chans[c].out == r.chans[c].out + [ErrorTo(p)] <==> d in r.table)
            && (d !in r.table ==> d in r'.table && r'.table[d] == c && d in r'.local)
            && (d in r.table ==> r' == Queued(r, c, ErrorTo(p)))
  {
    assert RunStep(run, n);
    var r, e := run.states[n], run.events[n];
    var was, r' := r.chans[e.c].out, run.states[n + 1];
    if d in r.table {
      TakenIdIsRefused(r, e.c, e.p, e.snap, d);
    } else {
      FreeIdIsGranted(r, e.c, e.p, e.snap, d);
      assert [OkTo(e.p)] + [] == [OkTo(e.p)];
    }
    assert OkTo(e.p) != ErrorTo(e.p);
    assert (was + [OkTo(e.p)])[|was|] != (was + [ErrorTo(e.p)])[|was|];
  }

  /** An entry that is not released is kept over any stretch of a run. */
  lemma {:induction false} HeldUntilReleased(run: Run, i: nat, j: nat, d: Word)
    requires IsRun(run) && i <= j < |run.states| && d in run.states[i].table
    requires forall m :: i <= m < j ==> !Released(run.states[m], run.events[m], run.states[i].table[d], d)
    ensures d in run.states[j].table && run.states[j].table[d] == run.states[i].table[d]
  {
    if i < j {
      HeldUntilReleased(run, i, j - 1, d);
      assert RunStep(run, j - 1);
      RunKeepsInv(run, j - 1);
      EntryKeptIff(run.states[j - 1], run.events[j - 1], d);
    }
  }

  /** The partner of NoMisdelivery: once a client's registration has been answered MSG_OK, and as long as it is not
      released and the socket is open, every data frame for the id that the router reads is put on its queue. */
  lemma RegisteredReceives(run: Run, g: nat, n: nat, k: nat, d: Word)
    requires IsRun(run) && g < n < |run.events|
    requires run.events[g].Frame? && run.events[g].c == k && run.events[g].p.head.typ == 13 && Names(run.events[g].p, d)
    requires |run.events[g].p.body| <= run.states[g].maxMsg && !FromPeer(run.states[g], run.events[g])
    requires k < |run.states[g].chans| == |run.states[g + 1].chans|
    requires run.states[g + 1].chans[k].out == run.states[g].chans[k].out + [OkTo(run.events[g].p)]
    requires forall m :: g < m < n ==> !Released(run.states[m], run.events[m], k, d)
    requires run.events[n].Frame? && IsDataType(run.events[n].p.head.typ) && run.events[n].p.head.dest == d
    requires |run.events[n].p.body| <= run.states[n].maxMsg
    requires k < |run.states[n].chans| == |run.states[n + 1].chans| && run.states[n].chans[k].open
    ensures run.states[n + 1].chans[k].out == run.states[n].chans[k].out + [run.events[n].p]
  {
    assert RunStep(run, n);
    AnsweredIff(run, g, d);
    HeldUntilReleased(run, g + 1, n, d);
    HeldIdIsDelivered(run.states[n], run.events[n].c, run.events[n].p, run.events[n].snap);
  }
}
