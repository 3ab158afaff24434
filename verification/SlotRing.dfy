/** The mailbox ring as a value: priority slots with eviction, and what it keeps, hands out and loses. */
module SlotRing {
  import opened Bytes

  datatype Meta = Meta(priority: Int8, inUse: bool, src: Word, size: Word)

  /** A slot's metadata and its slot_size bytes of payload. */
  datatype Slot = Slot(meta: Meta, payload: seq<Byte>)

  datatype Message = Message(priority: Int8, src: Word, bytes: seq<Byte>)

  ghost predicate ValidRing(ring: seq<Slot>, slotSize: nat) {
    forall i :: 0 <= i < |ring| ==> |ring[i].payload| == slotSize && (ring[i].meta.inUse ==> ring[i].meta.size <= slotSize)
  }

  // ------------------------------------------------------------------ the scans

  /** The first slot not in use among the first n, or -1. */
  function FirstFree(ring: seq<Slot>, n: nat): (i: int)
    requires n <= |ring|
    ensures -1 <= i < n
    ensures i >= 0 ==> !ring[i].meta.inUse && forall k :: 0 <= k < i ==> ring[k].meta.inUse
    ensures i < 0 ==> forall k :: 0 <= k < n ==> ring[k].meta.inUse
  {
    if n == 0 then -1
    else if FirstFree(ring, n - 1) >= 0 then FirstFree(ring, n - 1)
    else if ring[n - 1].meta.inUse then -1
    else n - 1
  }

  /** The first slot of highest priority among the first n; slots at -128 are never seen. */
  function Highest(ring: seq<Slot>, n: nat): (i: int)
    requires n <= |ring|
    ensures -1 <= i < n
    ensures i >= 0 ==> ring[i].meta.inUse && ring[i].meta.priority > -128
    ensures i >= 0 ==> forall k :: 0 <= k < n && ring[k].meta.inUse ==> ring[k].meta.priority <= ring[i].meta.priority
    ensures i >= 0 ==> forall k :: 0 <= k < i && ring[k].meta.inUse ==> ring[k].meta.priority < ring[i].meta.priority
    ensures i < 0 ==> forall k :: 0 <= k < n && ring[k].meta.inUse ==> ring[k].meta.priority == -128
  {
    if n == 0 then -1
    else
      var best := Highest(ring, n - 1);
      if ring[n - 1].meta.inUse && ring[n - 1].meta.priority > BestPriority(ring, best) then n - 1 else best
  }

  /** The scan's running `prio`: INT8_MIN until a slot is chosen. */
  function BestPriority(ring: seq<Slot>, best: int): Int8
    requires -1 <= best < |ring|
  {
    if best < 0 then -128 else ring[best].meta.priority
  }

  /** The first slot of lowest priority among the first n; slots at 127 are never seen. */
  function Lowest(ring: seq<Slot>, n: nat): (i: int)
    requires n <= |ring|
    ensures -1 <= i < n
    ensures i >= 0 ==> ring[i].meta.inUse && ring[i].meta.priority < 127
    ensures i >= 0 ==> forall k :: 0 <= k < n && ring[k].meta.inUse ==> ring[i].meta.priority <= ring[k].meta.priority
    ensures i >= 0 ==> forall k :: 0 <= k < i && ring[k].meta.inUse ==> ring[i].meta.priority < ring[k].meta.priority
    ensures i < 0 ==> forall k :: 0 <= k < n && ring[k].meta.inUse ==> ring[k].meta.priority == 127
  {
    if n == 0 then -1
    else
      var worst := Lowest(ring, n - 1);
      if ring[n - 1].meta.inUse && ring[n - 1].meta.priority < WorstPriority(ring, worst) then n - 1 else worst
  }

  /** The scan's running `prio`: INT8_MAX until a slot is chosen. */
  function WorstPriority(ring: seq<Slot>, worst: int): Int8
    requires -1 <= worst < |ring|
  {
    if worst < 0 then 127 else ring[worst].meta.priority
  }

  // ------------------------------------------------------------------ post and receive

  /** The slot a post of this priority goes to: a free one, else the lowest if not above it, else none. */
  function Target(ring: seq<Slot>, priority: Int8): (i: int)
    ensures -1 <= i < |ring|
  {
    var free := FirstFree(ring, |ring|);
    if free >= 0 then free
    else
      var worst := Lowest(ring, |ring|);
      if worst >= 0 && priority >= ring[worst].meta.priority then worst else -1
  }

  function Filled(slot: Slot, m: Message): Slot
    requires |m.bytes| <= |slot.payload| < 0x1_0000_0000
  {
    Slot(Meta(m.priority, true, m.src, |m.bytes|), m.bytes + slot.payload[|m.bytes|..])
  }

  ghost predicate Fits(ring: seq<Slot>, m: Message) {
    forall i :: 0 <= i < |ring| ==> |m.bytes| <= |ring[i].payload| < 0x1_0000_0000
  }

  ghost function Post(ring: seq<Slot>, m: Message): seq<Slot>
    requires Fits(ring, m)
  {
    var i := Target(ring, m.priority);
    if i < 0 then ring else ring[i := Filled(ring[i], m)]
  }

  function Content(slot: Slot): Message
    requires slot.meta.size <= |slot.payload|
  {
    Message(slot.meta.priority, slot.meta.src, slot.payload[..slot.meta.size])
  }

  function Freed(slot: Slot): Slot { slot.(meta := slot.meta.(inUse := false)) }

  /** What a receive with a buffer of the given size does to a ring.  `OutOfBounds` is the slot index -1 that
      the code uses when every held message has priority -128. */
  datatype Receipt = Empty | TooSmall | OutOfBounds | Got(m: Message, ring: seq<Slot>)

  function Receive(ring: seq<Slot>, buffer: nat): Receipt
    requires forall i :: 0 <= i < |ring| && ring[i].meta.inUse ==> ring[i].meta.size <= |ring[i].payload|
  {
    if forall i :: 0 <= i < |ring| ==> !ring[i].meta.inUse then Empty
    else
      var i := Highest(ring, |ring|);
      if i < 0 then OutOfBounds
      else if ring[i].meta.size > buffer then TooSmall
      else Got(Content(ring[i]), ring[i := Freed(ring[i])])
  }

  // ------------------------------------------------------------------ which slot, said of the slots

  ghost predicate Full(ring: seq<Slot>) { forall k :: 0 <= k < |ring| ==> ring[k].meta.inUse }

  /** Where a post goes: the first free slot; on a full ring, the first slot of the lowest priority, if that is below
      127 and not above the new message's. */
  ghost predicate GoesTo(ring: seq<Slot>, priority: Int8, i: nat) {
    && i < |ring|
    && if Full(ring) then
         && ring[i].meta.priority < 127 && ring[i].meta.priority <= priority
         && (forall k :: 0 <= k < |ring| ==> ring[i].meta.priority <= ring[k].meta.priority)
         && (forall k :: 0 <= k < i ==> ring[i].meta.priority < ring[k].meta.priority)
       else
         !ring[i].meta.inUse && forall k :: 0 <= k < i ==> ring[k].meta.inUse
  }

  /** A post fills exactly that slot, and is refused if and only if the ring is full and every message in it is at 127
      or above the new one; a refused post changes nothing. */
  lemma PostGoesTo(ring: seq<Slot>, m: Message)
    requires Fits(ring, m)
    ensures forall i: nat :: GoesTo(ring, m.priority, i) ==>
                               && Target(ring, m.priority) == i
                               && Post(ring, m) == ring[i := Slot(Meta(m.priority, true, m.src, |m.bytes|),
                                                                  m.bytes + ring[i].payload[|m.bytes|..])]
    ensures Target(ring, m.priority) < 0
            <==> Full(ring) && forall k :: 0 <= k < |ring| ==> ring[k].meta.priority == 127 || m.priority < ring[k].meta.priority
    ensures Target(ring, m.priority) < 0 ==> Post(ring, m) == ring
    ensures Target(ring, m.priority) >= 0 ==> GoesTo(ring, m.priority, Target(ring, m.priority))
  {
    var t := Target(ring, m.priority);
    if t >= 0 { assert GoesTo(ring, m.priority, t); }
    forall i: nat | GoesTo(ring, m.priority, i)
      ensures t == i
    {
      OnePlace(ring, m.priority, i);
    }
  }

  lemma OnePlace(ring: seq<Slot>, priority: Int8, i: nat)
    requires GoesTo(ring, priority, i)
    ensures Target(ring, priority) == i
  {
    if Full(ring) {
      var low := Lowest(ring, |ring|);
      assert low >= 0;
    } else {
      var free := FirstFree(ring, |ring|);
      assert free >= 0;
    }
  }

  /** What a receive takes: the first slot of the highest priority held, unless that is -128. */
  ghost predicate TakesFrom(ring: seq<Slot>, i: nat) {
    && i < |ring| && ring[i].meta.inUse && ring[i].meta.priority > -128
    && (forall k :: 0 <= k < |ring| && ring[k].meta.inUse ==> ring[k].meta.priority <= ring[i].meta.priority)
    && (forall k :: 0 <= k < i && ring[k].meta.inUse ==> ring[k].meta.priority < ring[i].meta.priority)
  }

  lemma OneSource(ring: seq<Slot>, i: nat)
    requires TakesFrom(ring, i)
    ensures Highest(ring, |ring|) == i
  {
    var h := Highest(ring, |ring|);
    assert h >= 0;
  }

  /** The four outcomes of a receive, exactly: nothing held; all held at -128; the message chosen longer than the
      buffer, which leaves the ring alone; or that message, its bytes within the buffer, its slot freed and no other
      slot touched. */
  lemma ReceiveTakes(ring: seq<Slot>, slotSize: nat, buffer: nat)
    requires ValidRing(ring, slotSize)
    ensures var r := Receive(ring, buffer);
            && (r.Empty? <==> forall k :: 0 <= k < |ring| ==> !ring[k].meta.inUse)
            && (r.TooSmall? <==> exists i: nat :: TakesFrom(ring, i) && ring[i].meta.size > buffer)
            && (r.Got? <==> exists i: nat :: TakesFrom(ring, i) && ring[i].meta.size <= buffer)
            && (r.Got? ==> |r.m.bytes| <= buffer)
            && forall i: nat :: TakesFrom(ring, i) && ring[i].meta.size <= buffer ==>
                 r == Got(Message(ring[i].meta.priority, ring[i].meta.src, ring[i].payload[..ring[i].meta.size]),
                          ring[i := Slot(Meta(ring[i].meta.priority, false, ring[i].meta.src, ring[i].meta.size),
                                         ring[i].payload)])
  {
    var h := Highest(ring, |ring|);
    if h >= 0 { assert TakesFrom(ring, h); }
    forall i: nat | TakesFrom(ring, i)
      ensures h == i
    {
      OneSource(ring, i);
    }
  }

  // ------------------------------------------------------------------ what a ring holds

  ghost function OfSlot(slot: Slot): multiset<Message> {
    if slot.meta.inUse && slot.meta.size <= |slot.payload| then multiset{Content(slot)} else multiset{}
  }

  ghost function Bags(ring: seq<Slot>): seq<multiset<Message>> {
    seq(|ring|, i requires 0 <= i < |ring| => OfSlot(ring[i]))
  }

  ghost function Sum(bags: seq<multiset<Message>>): multiset<Message> {
    if bags == [] then multiset{} else Sum(bags[..|bags| - 1]) + bags[|bags| - 1]
  }

  ghost function Held(ring: seq<Slot>): multiset<Message> { Sum(Bags(ring)) }

  lemma {:induction false} SumUpdate(bags: seq<multiset<Message>>, i: nat, b: multiset<Message>)
    requires i < |bags|
    ensures bags[i] <= Sum(bags)
    ensures Sum(bags[i := b]) == Sum(bags) - bags[i] + b
  {
    var n := |bags| - 1;
    if i == n {
      assert bags[i := b][..n] == bags[..n];
    } else {
      assert bags[i := b][..n] == bags[..n][i := b];
      SumUpdate(bags[..n], i, b);
    }
  }

  lemma {:induction false} SumFrom(bags: seq<multiset<Message>>, x: Message) returns (i: nat)
    requires x in Sum(bags)
    ensures i < |bags| && x in bags[i]
  {
    var n := |bags| - 1;
    if x in bags[n] { i := n; } else { i := SumFrom(bags[..n], x); }
  }

  lemma {:induction false} SumSize(bags: seq<multiset<Message>>)
    requires forall i :: 0 <= i < |bags| ==> |bags[i]| <= 1
    ensures |Sum(bags)| <= |bags|
    ensures |Sum(bags)| == |bags| <==> forall i :: 0 <= i < |bags| ==> |bags[i]| == 1
    ensures |Sum(bags)| == 0 <==> forall i :: 0 <= i < |bags| ==> |bags[i]| == 0
  {
    if bags != [] {
      var n := |bags| - 1;
      SumSize(bags[..n]);
      assert |Sum(bags)| == |Sum(bags[..n])| + |bags[n]|;
      assert bags == bags[..n] + [bags[n]];
    }
  }

  lemma HeldUpdate(ring: seq<Slot>, i: nat, slot: Slot)
    requires i < |ring|
    ensures OfSlot(ring[i]) <= Held(ring)
    ensures Held(ring[i := slot]) == Held(ring) - OfSlot(ring[i]) + OfSlot(slot)
  {
    SumUpdate(Bags(ring), i, OfSlot(slot));
    assert Bags(ring[i := slot]) == Bags(ring)[i := OfSlot(slot)];
  }

  lemma HeldFrom(ring: seq<Slot>, x: Message) returns (i: nat)
    requires x in Held(ring)
    ensures i < |ring| && ring[i].meta.inUse && ring[i].meta.size <= |ring[i].payload| && Content(ring[i]) == x
  {
    i := SumFrom(Bags(ring), x);
  }

  lemma HeldSize(ring: seq<Slot>, slotSize: nat)
    requires ValidRing(ring, slotSize)
    ensures |Held(ring)| <= |ring|
    ensures |Held(ring)| == |ring| <==> forall i :: 0 <= i < |ring| ==> ring[i].meta.inUse
    ensures |Held(ring)| == 0 <==> forall i :: 0 <= i < |ring| ==> !ring[i].meta.inUse
  {
    var bags := Bags(ring);
    forall i | 0 <= i < |ring|
      ensures |bags[i]| == if ring[i].meta.inUse then 1 else 0
    {
      assert bags[i] == OfSlot(ring[i]);
    }
    SumSize(bags);
  }

  lemma FilledHolds(slot: Slot, m: Message)
    requires |m.bytes| <= |slot.payload| < 0x1_0000_0000
    ensures OfSlot(Filled(slot, m)) == multiset{m} && |Filled(slot, m).payload| == |slot.payload|
  {
    assert Filled(slot, m).payload[..|m.bytes|] == m.bytes;
  }

  /** A post with a free slot adds the message. */
  lemma PostFree(ring: seq<Slot>, slotSize: nat, m: Message)
    requires ValidRing(ring, slotSize) && Fits(ring, m) && |Held(ring)| < |ring|
    ensures Target(ring, m.priority) >= 0 && Held(Post(ring, m)) == Held(ring) + multiset{m}
  {
    HeldSize(ring, slotSize);
    var i := Target(ring, m.priority);
    HeldUpdate(ring, i, Filled(ring[i], m));
    FilledHolds(ring[i], m);
  }

  /** What a full ring's choice of slot says about each message held. */
  lemma TargetIsLowest(ring: seq<Slot>, priority: Int8, x: Message)
    requires (forall i :: 0 <= i < |ring| ==> ring[i].meta.inUse) && x in Held(ring)
    ensures var i := Target(ring, priority);
            if i < 0 then priority <= x.priority
            else ring[i].meta.priority <= x.priority && ring[i].meta.priority <= priority
  {
    var k := HeldFrom(ring, x);
  }

  lemma PostReplaces(ring: seq<Slot>, slotSize: nat, m: Message)
    requires ValidRing(ring, slotSize) && Fits(ring, m) && Target(ring, m.priority) >= 0
    requires forall i :: 0 <= i < |ring| ==> ring[i].meta.inUse
    ensures Lost(ring, m, Content(ring[Target(ring, m.priority)]))
  {
    var i := Target(ring, m.priority);
    var v := Content(ring[i]);
    HeldUpdate(ring, i, Filled(ring[i], m));
    FilledHolds(ring[i], m);
    assert OfSlot(ring[i]) == multiset{v};
    assert v in Held(ring);
    forall x | x in Held(ring)
      ensures v.priority <= x.priority
    {
      TargetIsLowest(ring, m.priority, x);
    }
    TargetIsLowest(ring, m.priority, v);
  }

  /** A post to a full ring gives up a message of lowest priority, not above the new one, for it, or is refused
      because nothing held is lower than it. */
  lemma PostFull(ring: seq<Slot>, slotSize: nat, m: Message) returns (evicted: multiset<Message>)
    requires ValidRing(ring, slotSize) && Fits(ring, m) && |Held(ring)| >= |ring|
    ensures if Target(ring, m.priority) < 0 then
              evicted == multiset{} && Post(ring, m) == ring && forall x :: x in Held(ring) ==> m.priority <= x.priority
            else
              exists v :: evicted == multiset{v} && Lost(ring, m, v)
  {
    HeldSize(ring, slotSize);
    var i := Target(ring, m.priority);
    if i < 0 {
      evicted := multiset{};
      forall x | x in Held(ring)
        ensures m.priority <= x.priority
      {
        TargetIsLowest(ring, m.priority, x);
      }
    } else {
      PostReplaces(ring, slotSize, m);
      evicted := multiset{Content(ring[i])};
    }
  }

  /** Posting m costs the ring the message v. */
  ghost predicate Lost(ring: seq<Slot>, m: Message, v: Message)
    requires Fits(ring, m)
  {
    && v in Held(ring) && v.priority <= m.priority
    && (forall x :: x in Held(ring) ==> v.priority <= x.priority)
    && Held(Post(ring, m)) == Held(ring) - multiset{v} + multiset{m}
  }

  lemma PostValid(ring: seq<Slot>, slotSize: nat, m: Message)
    requires ValidRing(ring, slotSize) && Fits(ring, m)
    ensures ValidRing(Post(ring, m), slotSize) && |Post(ring, m)| == |ring|
  {
    var i := Target(ring, m.priority);
    if i >= 0 { FilledHolds(ring[i], m); }
  }

  lemma HighestHeld(ring: seq<Slot>, x: Message)
    requires x in Held(ring)
    ensures var i := Highest(ring, |ring|); if i < 0 then x.priority == -128 else x.priority <= ring[i].meta.priority
  {
    var k := HeldFrom(ring, x);
  }

  /** A receive is out of bounds exactly when something is held and all of it has priority -128. */
  lemma ReceiveDefinedIff(ring: seq<Slot>, slotSize: nat, buffer: nat)
    requires ValidRing(ring, slotSize)
    ensures var r := Receive(ring, buffer);
            && (r.Empty? <==> Held(ring) == multiset{})
            && (r.OutOfBounds? <==> Held(ring) != multiset{} && forall x :: x in Held(ring) ==> x.priority == -128)
            && (slotSize <= buffer ==> !r.TooSmall?)
  {
    HeldSize(ring, slotSize);
    var i := Highest(ring, |ring|);
    if i >= 0 {
      HeldUpdate(ring, i, ring[i]);
      assert Content(ring[i]) in OfSlot(ring[i]);
    } else {
      forall x | x in Held(ring)
        ensures x.priority == -128
      {
        HighestHeld(ring, x);
      }
    }
  }

  /** A message received is one of highest priority, with the bytes and source it was posted with; the rest stays. */
  lemma ReceiveOutcome(ring: seq<Slot>, slotSize: nat, buffer: nat)
    requires ValidRing(ring, slotSize) && Receive(ring, buffer).Got?
    ensures var r := Receive(ring, buffer);
            && r.m in Held(ring) && Held(r.ring) == Held(ring) - multiset{r.m}
            && ValidRing(r.ring, slotSize) && |r.ring| == |ring|
            && forall x :: x in Held(ring) ==> x.priority <= r.m.priority
  {
    var i := Highest(ring, |ring|);
    HeldUpdate(ring, i, Freed(ring[i]));
    assert Content(ring[i]) in OfSlot(ring[i]);
    forall x | x in Held(ring)
      ensures x.priority <= ring[i].meta.priority
    {
      HighestHeld(ring, x);
    }
  }
}
