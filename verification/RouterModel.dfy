/** One router daemon as a value, and the effect of each of its atomic steps.
    One call of handle_frame is one step; sends are all-or-nothing. */
module RouterModel {
  import opened Wrappers
  import opened Bytes
  import opened Protocol

  /** Bookkeeping the wire does not carry: which injection a frame stems from, the router it entered at, and
      how many upstream, downstream and peer links it has crossed.  Routers copy it and never look at it. */
  datatype Tag = Tag(uid: Option<nat>, origin: nat, ups: nat, downs: nat, peers: nat)

  const UNTAGGED := Tag(None, 0, 0, 0, 0)

  /** A frame with its body; the body is the BodyLen(head) bytes read after the header. */
  datatype Packet = Packet(head: FrameHeader, body: seq<Byte>, tag: Tag)

  /** Who holds the other end of a socket: known to the model only. */
  datatype Remote =
    | Client
    | Peer(router: nat, chan: nat)
    | Parent(router: nat, chan: nat)
    | Child(router: nat, chan: nat)

  /** A `Link` is an entry of connections_; the others are the outbound system-route and upstream sockets. */
  datatype Kind = Link | SystemRoute(sysId: Byte) | Upstream

  /** `running` is false once the reader loop has returned; `out` is everything sent and not yet read at the far
      end (for a client: everything it was ever sent). */
  datatype Channel = Channel(
    kind: Kind, remote: Remote, isPeer: bool, open: bool, running: bool, out: seq<Packet>)

  datatype Router = Router(table: map<Word, nat>, local: set<Word>, chans: seq<Channel>, maxMsg: nat)

  ghost predicate Valid(r: Router) {
    forall d :: d in r.table ==> r.table[d] < |r.chans|
  }

  // ------------------------------------------------------------------ frames the router builds

  function Hello(): Packet {
    Packet(MakeFrame(MSG_ROUTER_PEER_HELLO, 0, 0, 0, 0, 0), [], UNTAGGED)
  }

  function Advert(typ: Int8, mbx: Word): Packet {
    Packet(MakeFrame(typ, 0, 0, 0, 0, MBX_PAYLOAD_SIZE), PutWord(mbx), UNTAGGED)
  }

  function Register(mbx: Word): Packet { Advert(MSG_ROUTER_PEER_REGISTER, mbx) }

  function Delete(mbx: Word): Packet { Advert(MSG_ROUTER_PEER_DELETE, mbx) }

  function Registers(ids: seq<Word>): (ps: seq<Packet>) {
    seq(|ids|, i requires 0 <= i < |ids| => Register(ids[i]))
  }

  function Reply(typ: Int8, p: Packet): Packet {
    Packet(MakeFrame(typ, p.head.src, 0, 0, p.head.seqNr, 0), [], UNTAGGED)
  }

  function Mbx(p: Packet): Word
    requires |p.body| >= MBX_PAYLOAD_SIZE
  {
    GetWord(p.body)
  }

  predicate IsControl(typ: Int8) {
    typ in {MSG_ROUTER_PEER_HELLO, MSG_ROUTER_PEER_REGISTER, MSG_ROUTER_PEER_DELETE,
            MSG_ROUTER_DISABLE_WATCHDOG, MSG_ROUTER_MBX_INIT_WITH_REPLY, MSG_ROUTER_MBX_DELETE}
  }

  predicate IsData(p: Packet) { !IsControl(p.head.typ) }

  // ------------------------------------------------------------------ primitive effects

  function Enqueue(ch: Channel, ps: seq<Packet>): Channel {
    if ch.open then ch.(out := ch.out + ps) else ch
  }

  lemma EnqueueTwice(ch: Channel, ps: seq<Packet>, qs: seq<Packet>)
    ensures Enqueue(Enqueue(ch, ps), qs) == Enqueue(ch, ps + qs)
  {
    assert ch.out + ps + qs == ch.out + (ps + qs);
  }

  function Send(r: Router, c: nat, p: Packet): Router
    requires c < |r.chans|
  {
    r.(chans := r.chans[c := Enqueue(r.chans[c], [p])])
  }

  function Told(ch: Channel, p: Packet): Channel { if ch.isPeer then Enqueue(ch, [p]) else ch }

  function Broadcast(r: Router, p: Packet): Router {
    r.(chans := seq(|r.chans|, i requires 0 <= i < |r.chans| => Told(r.chans[i], p)))
  }

  function Advertise(r: Router, c: nat, ids: seq<Word>): Router
    requires c < |r.chans|
  {
    r.(chans := r.chans[c := Enqueue(r.chans[c], [Hello()] + Registers(ids))])
  }

  /** `ids` lists the set `s`, each element once: what copying an unordered_set into a vector gives. */
  ghost predicate Lists(ids: seq<Word>, s: set<Word>) {
    (forall x :: x in ids <==> x in s) && (forall i, j :: 0 <= i < j < |ids| ==> ids[i] != ids[j])
  }

  // ------------------------------------------------------------------ upstream selection

  function SysOf(dest: Word): Byte { dest / 0x100_0000 }

  /** The first channel of the given kind, or none. */
  function FirstOf(chans: seq<Channel>, kind: Kind): (k: Option<nat>)
    ensures k.Some? ==> k.value < |chans| && chans[k.value].kind == kind
    ensures k.Some? ==> forall i :: 0 <= i < k.value ==> chans[i].kind != kind
    ensures k.None? ==> forall i :: 0 <= i < |chans| ==> chans[i].kind != kind
  {
    if |chans| == 0 then None
    else if chans[0].kind == kind then Some(0)
    else match FirstOf(chans[1..], kind)
      case None => None
      case Some(i) => Some(i + 1)
  }

  /** A matching system route wins even when its socket is closed; the default upstream comes second. */
  function NextHop(r: Router, dest: Word): (k: Option<nat>)
    ensures k.Some? ==> k.value < |r.chans| && !r.chans[k.value].kind.Link?
  {
    match FirstOf(r.chans, SystemRoute(SysOf(dest)))
    case Some(k) => Some(k)
    case None => FirstOf(r.chans, Upstream)
  }

  // ------------------------------------------------------------------ the steps

  /** One Connection::handle_frame on connection c; `snap` is the order in which local_mailboxes_ is listed. */
  function HandleFrame(r: Router, c: nat, p: Packet, snap: seq<Word>): (r': Router)
    requires Valid(r) && c < |r.chans|
    ensures Valid(r') && |r'.chans| == |r.chans|
  {
    var ch, typ := r.chans[c], p.head.typ;
    if |p.body| > r.maxMsg then
      r.(chans := r.chans[c := ch.(open := false)])
    else if typ == MSG_ROUTER_PEER_HELLO then
      if ch.isPeer then r else Advertise(r.(chans := r.chans[c := ch.(isPeer := true)]), c, snap)
    else if typ == MSG_ROUTER_PEER_REGISTER then
      if !ch.isPeer || |p.body| < MBX_PAYLOAD_SIZE || Mbx(p) in r.table then r
      else r.(table := r.table[Mbx(p) := c])
    else if typ == MSG_ROUTER_PEER_DELETE then
      if !ch.isPeer || |p.body| < MBX_PAYLOAD_SIZE then r
      else r.(table := r.table - {Mbx(p)})
    else if typ == MSG_ROUTER_DISABLE_WATCHDOG then r
    else if typ == MSG_ROUTER_MBX_INIT_WITH_REPLY then
      if |p.body| < MBX_PAYLOAD_SIZE then r
      else if Mbx(p) in r.table then Send(r, c, Reply(MSG_ERROR, p))
      else
        var r1 := Send(r.(table := r.table[Mbx(p) := c]), c, Reply(MSG_OK, p));
        Broadcast(r1.(local := r1.local + {Mbx(p)}), Register(Mbx(p)))
    else if typ == MSG_ROUTER_MBX_DELETE then
      if |p.body| < MBX_PAYLOAD_SIZE then r
      else Broadcast(r.(table := r.table - {Mbx(p)}, local := r.local - {Mbx(p)}), Delete(Mbx(p)))
    else RouteData(r, c, p)
  }

  function RouteData(r: Router, c: nat, p: Packet): (r': Router)
    requires Valid(r) && c < |r.chans|
    ensures Valid(r') && |r'.chans| == |r.chans|
  {
    if p.head.dest in r.table then Send(r, r.table[p.head.dest], p)
    else if r.chans[c].isPeer then r
    else match NextHop(r, p.head.dest)
      case Some(k) => if r.chans[k].open then Send(r, k, p) else Send(r, c, Reply(MSG_ERROR, p))
      case None => Send(r, c, Reply(MSG_ERROR, p))
  }

  /** One frame read by run_connection_reader from the upstream or system-route channel k. */
  function ReadUpstream(r: Router, k: nat, p: Packet): (r': Router)
    requires Valid(r) && k < |r.chans|
    ensures Valid(r') && |r'.chans| == |r.chans|
  {
    if |p.body| > r.maxMsg then EndLoop(r, k)
    else if p.head.dest in r.table then Send(r, r.table[p.head.dest], p)
    else r
  }

  /** A reader loop returns: the table forgets the channel and later sends on it fail. */
  function EndLoop(r: Router, c: nat): (r': Router)
    requires Valid(r) && c < |r.chans|
    ensures Valid(r') && |r'.chans| == |r.chans|
  {
    r.(table := map d | d in r.table && r.table[d] != c :: r.table[d],
       chans := r.chans[c := r.chans[c].(open := false, running := false)])
  }

  /** A new socket: accepted from a client or router, or opened to a parent. */
  function Attach(r: Router, kind: Kind, remote: Remote): (r': Router)
    requires Valid(r)
    ensures Valid(r') && |r'.chans| == |r.chans| + 1
  {
    r.(chans := r.chans + [Channel(kind, remote, false, true, true, [])])
  }

  /** connect_to_peers for one peer: the connection starts as a peer and advertises at once. */
  function AttachPeer(r: Router, remote: Remote, snap: seq<Word>): (r': Router)
    requires Valid(r)
    ensures Valid(r') && |r'.chans| == |r.chans| + 1
  {
    var r1 := r.(chans := r.chans + [Channel(Link, remote, true, true, true, [])]);
    Advertise(r1, |r.chans|, snap)
  }
}
