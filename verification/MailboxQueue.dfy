/** The ring over whole runs: it keeps the highest priorities, loses nothing unaccounted for, and drains in order. */
module MailboxQueue {
  import opened SlotRing

  // ------------------------------------------------------------------ the k largest of a bag

  /** `kept` is k messages of `all` (or all of them) such that nothing left out exceeds anything kept. */
  ghost predicate TopK(kept: multiset<Message>, all: multiset<Message>, k: nat) {
    && kept <= all
    && |kept| == (if |all| <= k then |all| else k)
    && forall x, y :: x in kept && y in all - kept ==> y.priority <= x.priority
  }

  lemma SubBagEqual(a: multiset<Message>, b: multiset<Message>)
    requires a <= b && |a| == |b|
    ensures a == b
  {
    assert b == a + (b - a);
    assert |b - a| == 0;
  }

  lemma TopKRoom(kept: multiset<Message>, all: multiset<Message>, k: nat, m: Message)
    requires TopK(kept, all, k) && |kept| < k
    ensures TopK(kept + multiset{m}, all + multiset{m}, k)
  {
    SubBagEqual(kept, all);
  }

  lemma TopKReplace(kept: multiset<Message>, all: multiset<Message>, k: nat, m: Message, v: Message)
    requires TopK(kept, all, k) && |kept| == k && v in kept && v.priority <= m.priority
    requires forall x :: x in kept ==> v.priority <= x.priority
    ensures TopK(kept - multiset{v} + multiset{m}, all + multiset{m}, k)
  {
    var kept', all' := kept - multiset{v} + multiset{m}, all + multiset{m};
    assert all' - kept' == (all - kept) + multiset{v};
  }

  lemma TopKRefuse(kept: multiset<Message>, all: multiset<Message>, k: nat, m: Message)
    requires TopK(kept, all, k) && |kept| == k && forall x :: x in kept ==> m.priority <= x.priority
    ensures TopK(kept, all + multiset{m}, k)
  {
    assert (all + multiset{m}) - kept == (all - kept) + multiset{m};
  }

  // ------------------------------------------------------------------ retention

  /** The rings seen while the messages are posted one after another with no receive in between. */
  ghost predicate Posts(rings: seq<seq<Slot>>, ms: seq<Message>, slotSize: nat) {
    && |rings| == |ms| + 1
    && forall i :: 0 <= i < |ms| ==>
                     ValidRing(rings[i], slotSize) && Fits(rings[i], ms[i]) && rings[i + 1] == Post(rings[i], ms[i])
  }

  /** After any sequence of posts, whatever was held before and for every int8 priority: the ring holds the
      `capacity` highest of all messages held and posted; nothing was evicted or refused in favour of a lower one. */
  lemma {:induction false} HoldsTheHighest(rings: seq<seq<Slot>>, ms: seq<Message>, slotSize: nat, n: nat)
    requires Posts(rings, ms, slotSize) && ValidRing(rings[0], slotSize) && n <= |ms|
    ensures |rings[n]| == |rings[0]|
    ensures TopK(Held(rings[n]), Held(rings[0]) + multiset(ms[..n]), |rings[0]|)
  {
    if n == 0 {
      HeldSize(rings[0], slotSize);
      TopKOfItself(Held(rings[0]), multiset(ms[..0]), |rings[0]|);
    } else {
      HoldsTheHighest(rings, ms, slotSize, n - 1);
      assert ms[..n] == ms[..n - 1] + [ms[n - 1]];
      PostValid(rings[n - 1], slotSize, ms[n - 1]);
      OneMore(Held(rings[0]), rings[n - 1], ms[..n - 1], slotSize, ms[n - 1]);
    }
  }

  lemma OneMore(first: multiset<Message>, ring: seq<Slot>, ms: seq<Message>, slotSize: nat, m: Message)
    requires ValidRing(ring, slotSize) && Fits(ring, m) && TopK(Held(ring), first + multiset(ms), |ring|)
    ensures TopK(Held(Post(ring, m)), first + multiset(ms + [m]), |ring|)
  {
    PostHolds(ring, first + multiset(ms), slotSize, m);
    BagAppend(first, ms, m);
    SameBag(Held(Post(ring, m)), first + multiset(ms) + multiset{m}, first + multiset(ms + [m]), |ring|);
  }

  lemma TopKOfItself(b: multiset<Message>, none: multiset<Message>, k: nat)
    requires |b| <= k && none == multiset{}
    ensures TopK(b, b + none, k)
  {
    assert b + none == b;
  }

  lemma SameBag(kept: multiset<Message>, a: multiset<Message>, b: multiset<Message>, k: nat)
    requires TopK(kept, a, k) && a == b
    ensures TopK(kept, b, k)
  {
  }

  lemma BagAppend(b: multiset<Message>, ms: seq<Message>, m: Message)
    ensures b + multiset(ms + [m]) == b + multiset(ms) + multiset{m}
  {
  }

  lemma PostHolds(ring: seq<Slot>, all: multiset<Message>, slotSize: nat, m: Message)
    requires ValidRing(ring, slotSize) && Fits(ring, m) && TopK(Held(ring), all, |ring|)
    ensures TopK(Held(Post(ring, m)), all + multiset{m}, |ring|)
  {
    HeldSize(ring, slotSize);
    if |Held(ring)| < |ring| {
      PostFree(ring, slotSize, m);
      TopKRoom(Held(ring), all, |ring|, m);
    } else {
      var evicted := PostFull(ring, slotSize, m);
      if Target(ring, m.priority) < 0 {
        TopKRefuse(Held(ring), all, |ring|, m);
      } else {
        var v :| evicted == multiset{v} && Lost(ring, m, v);
        TopKReplace(Held(ring), all, |ring|, m, v);
      }
    }
  }

  /** The choice of the k highest is exact up to ties: two such choices have equally many differing messages, all of
      one common priority, so the priorities kept are determined by the bag. */
  lemma TopKUnique(a: multiset<Message>, b: multiset<Message>, all: multiset<Message>, k: nat)
    requires TopK(a, all, k) && TopK(b, all, k)
    ensures |a - b| == |b - a|
    ensures forall x, y :: x in a - b && y in b - a ==> x.priority == y.priority
  {
    assert |a - b| + |a * b| == |a| by { assert a == (a - b) + a * b; }
    assert |b - a| + |a * b| == |b| by { assert b == (b - a) + a * b; }
    forall x, y | x in a - b && y in b - a
      ensures x.priority == y.priority
    {
      assert x in a && x in all - b && y in b && y in all - a;
    }
  }

  // ------------------------------------------------------------------ conservation

  datatype Op = PostOp(m: Message) | ReceiveOp(buffer: nat)

  /** The ring and the history of what went in and came out. */
  datatype Ledger = Ledger(
    ring: seq<Slot>, accepted: multiset<Message>, received: seq<Message>, evicted: multiset<Message>)

  ghost predicate OpFits(op: Op, slotSize: nat) {
    op.PostOp? ==> |op.m.bytes| <= slotSize
  }

  ghost function Apply(l: Ledger, op: Op, slotSize: nat): Ledger
    requires ValidRing(l.ring, slotSize) && slotSize < 0x1_0000_0000 && OpFits(op, slotSize)
  {
    match op
    case PostOp(m) =>
      var i := Target(l.ring, m.priority);
      if i < 0 then l
      else l.(ring := Post(l.ring, m), accepted := l.accepted + multiset{m}, evicted := l.evicted + OfSlot(l.ring[i]))
    case ReceiveOp(buffer) =>
      var r := Receive(l.ring, buffer);
      if r.Got? then l.(ring := r.ring, received := l.received + [r.m]) else l
  }

  ghost predicate Balanced(l: Ledger, slotSize: nat) {
    ValidRing(l.ring, slotSize) && l.accepted == multiset(l.received) + l.evicted + Held(l.ring)
  }

  ghost predicate IsRun(ls: seq<Ledger>, ops: seq<Op>, slotSize: nat) {
    && |ls| == |ops| + 1 && slotSize < 0x1_0000_0000
    && ValidRing(ls[0].ring, slotSize) && Held(ls[0].ring) == multiset{}
    && ls[0].accepted == multiset{} && ls[0].received == [] && ls[0].evicted == multiset{}
    && forall i :: 0 <= i < |ops| ==> RunStep(ls, ops, slotSize, i)
  }

  ghost predicate RunStep(ls: seq<Ledger>, ops: seq<Op>, slotSize: nat, i: nat)
    requires |ls| == |ops| + 1 && slotSize < 0x1_0000_0000 && i < |ops|
  {
    && OpFits(ops[i], slotSize) && ValidRing(ls[i].ring, slotSize)
    && ls[i + 1] == Apply(ls[i], ops[i], slotSize)
  }

  /** What an operation adds to the ledger, by the rules for slots: a post that has a place counts as accepted and fills
      it, and a full ring's choice counts as evicted; a receive counts as received what it takes. */
  lemma LedgerFollows(l: Ledger, op: Op, slotSize: nat)
    requires ValidRing(l.ring, slotSize) && slotSize < 0x1_0000_0000 && OpFits(op, slotSize)
    ensures var l' := Apply(l, op, slotSize);
            match op
            case PostOp(m) =>
              && l'.received == l.received
              && (forall i: nat :: GoesTo(l.ring, m.priority, i) ==>
                    && l'.ring == l.ring[i := Slot(Meta(m.priority, true, m.src, |m.bytes|), m.bytes + l.ring[i].payload[|m.bytes|..])]
                    && l'.accepted == l.accepted + multiset{m}
                    && l'.evicted == if Full(l.ring) then l.evicted + multiset{Content(l.ring[i])} else l.evicted)
              && ((forall i: nat :: !GoesTo(l.ring, m.priority, i)) ==> l' == l)
            case ReceiveOp(buffer) =>
              && l'.accepted == l.accepted && l'.evicted == l.evicted
              && (forall i: nat :: TakesFrom(l.ring, i) && l.ring[i].meta.size <= buffer ==>
                    && l'.received == l.received + [Content(l.ring[i])]
                    && l'.ring == l.ring[i := Freed(l.ring[i])])
              && ((forall i: nat :: TakesFrom(l.ring, i) ==> l.ring[i].meta.size > buffer) ==> l' == l)
  {
    match op
    case PostOp(m) =>
      PostGoesTo(l.ring, m);
      forall i: nat | GoesTo(l.ring, m.priority, i)
        ensures OfSlot(l.ring[i]) == if Full(l.ring) then multiset{Content(l.ring[i])} else multiset{}
      {
      }
    case ReceiveOp(buffer) => ReceiveTakes(l.ring, slotSize, buffer);
  }

  lemma Exchange(a: multiset<Message>, r: multiset<Message>, e: multiset<Message>, h: multiset<Message>,
                 o: multiset<Message>, n: multiset<Message>)
    requires a == r + e + h && o <= h
    ensures a + n == r + (e + o) + (h - o + n)
  {
  }

  lemma HandOver(a: multiset<Message>, r: seq<Message>, e: multiset<Message>, h: multiset<Message>, x: Message)
    requires a == multiset(r) + e + h && x in h
    ensures a == multiset(r + [x]) + e + (h - multiset{x})
  {
  }

  lemma ApplyBalanced(l: Ledger, op: Op, slotSize: nat)
    requires Balanced(l, slotSize) && slotSize < 0x1_0000_0000 && OpFits(op, slotSize)
    ensures Balanced(Apply(l, op, slotSize), slotSize)
  {
    match op
    case PostOp(m) =>
      var i := Target(l.ring, m.priority);
      PostValid(l.ring, slotSize, m);
      if i >= 0 {
        HeldUpdate(l.ring, i, Filled(l.ring[i], m));
        FilledHolds(l.ring[i], m);
        Exchange(l.accepted, multiset(l.received), l.evicted, Held(l.ring), OfSlot(l.ring[i]), multiset{m});
      }
    case ReceiveOp(buffer) =>
      var r := Receive(l.ring, buffer);
      if r.Got? {
        ReceiveOutcome(l.ring, slotSize, buffer);
        HandOver(l.accepted, l.received, l.evicted, Held(l.ring), r.m);
      }
  }

  /** Over every run of posts and receives from an empty ring: each accepted message, with its bytes, priority and
      source, has been received once, or evicted once, or is still held. */
  lemma {:induction false} NothingUnaccounted(ls: seq<Ledger>, ops: seq<Op>, slotSize: nat, i: nat)
    requires IsRun(ls, ops, slotSize) && i < |ls|
    ensures Balanced(ls[i], slotSize)
  {
    if i > 0 {
      assert RunStep(ls, ops, slotSize, i - 1);
      NothingUnaccounted(ls, ops, slotSize, i - 1);
      ApplyBalanced(ls[i - 1], ops[i - 1], slotSize);
    }
  }

  lemma {:induction false} AcceptedWerePosted(ls: seq<Ledger>, ops: seq<Op>, slotSize: nat, i: nat)
    requires IsRun(ls, ops, slotSize) && i < |ls|
    requires forall k :: 0 <= k < |ops| && ops[k].PostOp? ==> ops[k].m.priority > -128
    ensures forall x :: x in ls[i].accepted ==> x.priority > -128
  {
    if i > 0 {
      assert RunStep(ls, ops, slotSize, i - 1);
      AcceptedWerePosted(ls, ops, slotSize, i - 1);
    }
  }

  /** If no message is posted at priority -128, no receive of the run reads out of bounds. */
  lemma NeverOutOfBounds(ls: seq<Ledger>, ops: seq<Op>, slotSize: nat, i: nat, buffer: nat)
    requires IsRun(ls, ops, slotSize) && i < |ls|
    requires forall k :: 0 <= k < |ops| && ops[k].PostOp? ==> ops[k].m.priority > -128
    ensures ValidRing(ls[i].ring, slotSize) && !Receive(ls[i].ring, buffer).OutOfBounds?
  {
    NothingUnaccounted(ls, ops, slotSize, i);
    AcceptedWerePosted(ls, ops, slotSize, i);
    ReceiveDefinedIff(ls[i].ring, slotSize, buffer);
    if Held(ls[i].ring) != multiset{} {
      var x :| x in Held(ls[i].ring);
      assert x in ls[i].accepted;
    }
  }

  // ------------------------------------------------------------------ draining

  /** Receives with no post in between and a buffer as large as a slot, until nothing comes out. */
  ghost function Drain(ring: seq<Slot>, slotSize: nat): seq<Message>
    requires ValidRing(ring, slotSize)
    decreases |Held(ring)|
  {
    var r := Receive(ring, slotSize);
    if r.Got? then
      ReceiveOutcome(ring, slotSize, slotSize);
      assert |Held(r.ring)| < |Held(ring)|;
      [r.m] + Drain(r.ring, slotSize)
    else []
  }

  /** Draining hands out nothing that was not held. */
  lemma {:induction false} DrainedWereHeld(ring: seq<Slot>, slotSize: nat)
    requires ValidRing(ring, slotSize)
    ensures forall k :: 0 <= k < |Drain(ring, slotSize)| ==> Drain(ring, slotSize)[k] in Held(ring)
    decreases |Held(ring)|
  {
    var r := Receive(ring, slotSize);
    if r.Got? {
      ReceiveOutcome(ring, slotSize, slotSize);
      DrainedWereHeld(r.ring, slotSize);
    }
  }

  ghost predicate NonIncreasing(ms: seq<Message>) {
    forall i, j :: 0 <= i < j < |ms| ==> ms[j].priority <= ms[i].priority
  }

  /** Draining hands messages out in non-increasing priority. */
  lemma {:induction false} DrainsInOrder(ring: seq<Slot>, slotSize: nat)
    requires ValidRing(ring, slotSize)
    ensures NonIncreasing(Drain(ring, slotSize))
    decreases |Held(ring)|
  {
    var r := Receive(ring, slotSize);
    if r.Got? {
      ReceiveOutcome(ring, slotSize, slotSize);
      DrainsInOrder(r.ring, slotSize);
      DrainedWereHeld(r.ring, slotSize);
    }
  }

  lemma PutBack(x: Message, rest: seq<Message>, held: multiset<Message>)
    requires x in held && multiset(rest) == held - multiset{x}
    ensures multiset([x] + rest) == held
  {
    assert multiset([x] + rest) == multiset{x} + multiset(rest);
  }

  /** With nothing at -128, a receive with a large enough buffer comes back empty-handed only if nothing is held. */
  lemma EmptyHanded(ring: seq<Slot>, slotSize: nat)
    requires ValidRing(ring, slotSize) && (forall x :: x in Held(ring) ==> x.priority > -128)
    requires !Receive(ring, slotSize).Got?
    ensures Held(ring) == multiset{}
  {
    ReceiveDefinedIff(ring, slotSize, slotSize);
    assert Held(ring) != multiset{} ==> exists x :: x in Held(ring);
  }

  /** If nothing is held at -128, draining hands out exactly what was held: the ring is empty afterwards. */
  lemma {:induction false} DrainsEverything(ring: seq<Slot>, slotSize: nat)
    requires ValidRing(ring, slotSize) && forall x :: x in Held(ring) ==> x.priority > -128
    ensures multiset(Drain(ring, slotSize)) == Held(ring)
    decreases |Held(ring)|
  {
    var r := Receive(ring, slotSize);
    if r.Got? {
      ReceiveOutcome(ring, slotSize, slotSize);
      DrainsEverything(r.ring, slotSize);
      PutBack(r.m, Drain(r.ring, slotSize), Held(ring));
    } else {
      EmptyHanded(ring, slotSize);
    }
  }
}
