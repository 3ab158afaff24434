/** The mailbox ring in memory: private (two heap arrays) or public (one shared region), with the same operations,
    and the writer that reaches a public ring from another process through its bytes alone. */
module EvlRing {
  import opened Bytes
  import opened SlotRing
  import opened RingMemory

  datatype Status = Ok | WouldWait | BufferTooSmall | IndexOutOfBounds

  /** memcpy(a + off, data, |data|) */
  method CopyBytes(a: array<Byte>, off: nat, data: seq<Byte>)
    requires off + |data| <= a.Length
    modifies a
    ensures a[..] == Splice(old(a[..]), off, data)
  {
    for k := 0 to |data|
      invariant a[..] == Splice(old(a[..]), off, data[..k])
    {
      a[off + k] := data[k];
      assert data[..k + 1] == data[..k] + [data[k]];
    }
    assert data[..|data|] == data;
  }

  class Ring {
    const isPublic: bool
    const capacity: Word
    const slotSize: Word
    const meta: array<Meta>
    const heap: array<Byte>
    const shm: array<Byte>

    ghost predicate Valid()
      reads shm
    {
      && OffsetsFit(capacity, slotSize)
      && meta.Length == capacity && heap.Length == Times(capacity, slotSize)
      && heap != shm
      && (isPublic ==>
          && shm.Length == ShmTotal(capacity, slotSize)
          && GetWord(shm[0..]) == capacity && GetWord(shm[4..]) == slotSize)
    }

    ghost function View(): (ring: seq<Slot>)
      requires Valid()
      reads meta, heap, shm
      ensures |ring| == capacity && forall i :: 0 <= i < |ring| ==> |ring[i].payload| == slotSize
    {
      if isPublic then Decode(shm[..], capacity, slotSize) else HeapView(meta[..], heap[..], slotSize)
    }

    /** allocate_ring(): zeroed memory; a public region starts with its dimensions. */
    constructor (isPublic: bool, slots: Word, slotSize: Word)
      requires OffsetsFit(slots, slotSize)
      ensures Valid() && capacity == slots && this.slotSize == slotSize && this.isPublic == isPublic
      ensures fresh(meta) && fresh(heap) && fresh(shm)
      ensures forall i :: 0 <= i < slots ==> !View()[i].meta.inUse
    {
      this.isPublic, capacity, this.slotSize := isPublic, slots, slotSize;
      meta := new Meta[slots](_ => Meta(0, false, 0, 0));
      heap := new Byte[Times(slots, slotSize)](_ => 0);
      shm := new Byte[if isPublic then ShmTotal(slots, slotSize) else 0](_ => 0);
      new;
      if isPublic {
        var h := PutWord(slots) + PutWord(slotSize);
        CopyBytes(shm, 0, h);
        ghost var mem := shm[..];
        assert mem[0..] == PutWord(slots) + (PutWord(slotSize) + mem[8..]);
        assert mem[4..] == PutWord(slotSize) + mem[8..];
        WordRoundTrip(slots, PutWord(slotSize) + mem[8..]);
        WordRoundTrip(slotSize, mem[8..]);
        assert shm[0..] == mem[0..] && shm[4..] == mem[4..];
        forall i | 0 <= i < slots
          ensures !View()[i].meta.inUse
        {
          assert mem[MetaStart(i) + 1] == 0;
        }
      }
    }

    // ---------------------------------------------------------------- accessors that dispatch on the mode

    method SlotMetaAt(i: nat) returns (m: Meta)
      requires Valid() && i < capacity
      ensures m == View()[i].meta
    {
      if isPublic {
        m := GetMeta(shm[..], MetaStart(i));
      } else {
        m := meta[i];
      }
    }

    method SetMetaAt(i: nat, m: Meta)
      requires Valid() && i < capacity
      modifies meta, shm
      ensures Valid() && View() == old(View())[i := Slot(m, old(View())[i].payload)]
    {
      if isPublic {
        SetShmMeta(i, m);
      } else {
        ghost var before := meta[..];
        meta[i] := m;
        assert meta[..] == before[i := m];
      }
    }

    method SetShmMeta(i: nat, m: Meta)
      requires Valid() && isPublic && i < capacity
      modifies shm
      ensures Valid() && View() == old(View())[i := Slot(m, old(View())[i].payload)]
    {
      ghost var mem := shm[..];
      var o := MetaStart(i);
      CopyBytes(shm, o, [PutInt8(m.priority), if m.inUse then 1 else 0]);
      CopyBytes(shm, o + 4, PutWord(m.src) + PutWord(m.size));
      assert shm[..] == PutMeta(mem, o, m);
      WriteMetaDecodes(mem, capacity, slotSize, i, m);
      HeaderKept(mem, shm[..]);
      assert shm[0..] == shm[..][0..] && shm[4..] == shm[..][4..];
    }

    /** memcpy(slot_ptr(i), data, |data|) */
    method CopyIn(i: nat, data: seq<Byte>)
      requires Valid() && i < capacity && |data| <= slotSize
      modifies heap, shm
      ensures Valid() && View() == old(View())[i := Overlaid(old(View())[i], data)]
    {
      if isPublic {
        CopyIntoShm(i, data);
      } else {
        HeapWrite(meta[..], heap[..], slotSize, i, data);
        CopyBytes(heap, Offset32(i, slotSize), data);
      }
    }

    method CopyIntoShm(i: nat, data: seq<Byte>)
      requires Valid() && isPublic && i < capacity && |data| <= slotSize
      modifies shm
      ensures Valid() && View() == old(View())[i := Overlaid(old(View())[i], data)]
    {
      ghost var mem := shm[..];
      WritePayloadDecodes(mem, capacity, slotSize, i, data);
      CopyBytes(shm, PayloadStart(capacity, slotSize, i), data);
      HeaderKept(mem, shm[..]);
      assert shm[0..] == shm[..][0..] && shm[4..] == shm[..][4..];
    }

    /** memcpy(buffer, slot_ptr(i), n) */
    method CopyOut(i: nat, n: nat) returns (data: seq<Byte>)
      requires Valid() && i < capacity && n <= slotSize
      ensures data == View()[i].payload[..n]
    {
      OffsetExact(capacity, slotSize, i);
      if isPublic {
        var p := PayloadStart(capacity, slotSize, i);
        data := shm[p..p + n];
        assert data == shm[..][p..p + slotSize][..n];
      } else {
        var p := Offset32(i, slotSize);
        data := heap[p..p + n];
        assert data == heap[..][p..p + slotSize][..n];
      }
    }

    // ---------------------------------------------------------------- scans

    method FindFreeSlot() returns (i: int)
      requires Valid()
      ensures i == FirstFree(View(), capacity)
    {
      ghost var ring := View();
      for k := 0 to capacity
        invariant View() == ring && FirstFree(ring, k) < 0
      {
        var m := SlotMetaAt(k);
        if !m.inUse {
          NoLaterFree(ring, k, capacity);
          return k;
        }
      }
      i := -1;
    }

    static lemma {:induction false} NoLaterFree(ring: seq<Slot>, k: nat, n: nat)
      requires k < n <= |ring| && FirstFree(ring, k) < 0 && !ring[k].meta.inUse
      ensures FirstFree(ring, n) == k
    {
    }

    method HasInUseSlot() returns (b: bool)
      requires Valid()
      ensures b <==> exists k :: 0 <= k < capacity && View()[k].meta.inUse
    {
      for k := 0 to capacity
        invariant forall j :: 0 <= j < k ==> !View()[j].meta.inUse
      {
        var m := SlotMetaAt(k);
        if m.inUse {
          return true;
        }
      }
      b := false;
    }

    method FindHighestPrioritySlot() returns (best: int)
      requires Valid()
      ensures best == Highest(View(), capacity)
    {
      best := -1;
      var prio: Int8 := -128;
      ghost var ring := View();
      for k := 0 to capacity
        invariant View() == ring
        invariant best == Highest(ring, k) && prio == BestPriority(ring, best)
      {
        var m := SlotMetaAt(k);
        if m.inUse && m.priority > prio {
          prio, best := m.priority, k;
        }
      }
    }

    method EvictLowest(prioNew: Int8) returns (worst: int)
      requires Valid()
      modifies meta, shm
      ensures Valid() && -1 <= worst < capacity
      ensures var low := Lowest(old(View()), capacity);
              worst == if low >= 0 && prioNew >= old(View())[low].meta.priority then low else -1
      ensures View() == if worst < 0 then old(View()) else old(View())[worst := Freed(old(View())[worst])]
    {
      worst := -1;
      var prio: Int8 := 127;
      ghost var ring := View();
      for k := 0 to capacity
        invariant Valid() && View() == ring
        invariant worst == Lowest(ring, k) && prio == WorstPriority(ring, worst)
      {
        var m := SlotMetaAt(k);
        if m.inUse && m.priority < prio {
          prio, worst := m.priority, k;
        }
      }
      if worst >= 0 && prioNew >= prio {
        var m := SlotMetaAt(worst);
        SetMetaAt(worst, m.(inUse := false));
      } else {
        worst := -1;
      }
    }

    // ---------------------------------------------------------------- post and receive

    /** post(): the caller guarantees that the data fits a slot. */
    method PostLocally(m: Message) returns (ok: bool)
      requires Valid() && |m.bytes| <= slotSize
      modifies meta, heap, shm
      ensures Valid() && ok == (Target(old(View()), m.priority) >= 0)
      ensures Fits(old(View()), m) && View() == Post(old(View()), m)
    {
      ghost var ring := View();
      var i := FindFreeSlot();
      if i < 0 {
        i := EvictLowest(m.priority);
      }
      ok := i >= 0;
      if ok {
        PostInSteps(ring, View(), i, m);
        CopyIn(i, m.bytes);
        SetMetaAt(i, Meta(m.priority, true, m.src, |m.bytes|));
      }
    }

    /** The ring part of receive_impl(), for a reader that does not wait. */
    method ReceiveNow(buffer: nat) returns (status: Status, m: Message)
      requires Valid() && ValidRing(View(), slotSize)
      modifies meta, shm
      ensures Valid()
      ensures match Receive(old(View()), buffer)
              case Empty => status == WouldWait && View() == old(View())
              case TooSmall => status == BufferTooSmall && View() == old(View())
              case OutOfBounds => status == IndexOutOfBounds && View() == old(View())
              case Got(x, ring) => status == Ok && m == x && View() == ring
    {
      m := Message(0, 0, []);
      var some := HasInUseSlot();
      if !some {
        assert forall k :: 0 <= k < |View()| ==> !View()[k].meta.inUse;
        return WouldWait, m;
      }
      var i := FindHighestPrioritySlot();
      if i < 0 {
        return IndexOutOfBounds, m;
      }
      var sm := SlotMetaAt(i);
      if sm.size > buffer {
        return BufferTooSmall, m;
      }
      var bytes := CopyOut(i, sm.size);
      m := Message(sm.priority, sm.src, bytes);
      SetMetaAt(i, sm.(inUse := false));
      status := Ok;
    }

    // ---------------------------------------------------------------- a writer in another process

    method RemoteMeta(i: nat) returns (m: Meta)
      requires Valid() && isPublic && i < capacity
      ensures m == View()[i].meta
    {
      m := GetMeta(shm[..], MetaStart(i));
    }

    method RemoteFree(cap: Word) returns (idx: int)
      requires Valid() && isPublic && cap == capacity
      ensures idx == FirstFree(View(), capacity)
    {
      ghost var ring := View();
      for i := 0 to cap
        invariant View() == ring && FirstFree(ring, i) < 0
      {
        var m := RemoteMeta(i);
        if !m.inUse {
          NoLaterFree(ring, i, cap);
          return i;
        }
      }
      idx := -1;
    }

    method RemoteWorst(cap: Word) returns (worst: int, wprio: Int8)
      requires Valid() && isPublic && cap == capacity
      ensures worst == Lowest(View(), capacity) && wprio == WorstPriority(View(), worst)
    {
      worst, wprio := -1, 127;
      ghost var ring := View();
      for i := 0 to cap
        invariant View() == ring
        invariant worst == Lowest(ring, i) && wprio == WorstPriority(ring, worst)
      {
        var m := RemoteMeta(i);
        if m.inUse && m.priority < wprio {
          wprio, worst := m.priority, i;
        }
      }
    }

    /** post_to_remote(): dimensions, metadata and payload are all found in the shared bytes; oversized data is
        clipped to the slot.  On a ring that owner and writer share, it does what the owner's post does. */
    method PostToRemote(data: seq<Byte>, priority: Int8, sender: Word) returns (ok: bool)
      requires Valid() && isPublic
      modifies shm
      ensures Valid() && ok == (Target(old(View()), priority) >= 0)
      ensures Fits(old(View()), Message(priority, sender, Clipped(data, slotSize)))
      ensures View() == Post(old(View()), Message(priority, sender, Clipped(data, slotSize)))
    {
      var cap, size := GetWord(shm[0..]), GetWord(shm[4..]);
      ghost var ring := View();
      var idx := RemoteFree(cap);
      if idx < 0 {
        var worst, wprio := RemoteWorst(cap);
        if worst >= 0 && priority >= wprio {
          var m := RemoteMeta(worst);
          SetShmMeta(worst, m.(inUse := false));
          idx := worst;
        }
      }
      ok := idx >= 0;
      if ok {
        var bytes := Clipped(data, size);
        PostInSteps(ring, View(), idx, Message(priority, sender, bytes));
        CopyIntoShm(idx, bytes);
        SetShmMeta(idx, Meta(priority, true, sender, |bytes|));
      }
    }
  }

  /** Freeing the slot if it was in use, copying the bytes and writing the metadata amount to Post. */
  lemma PostInSteps(ring: seq<Slot>, ring1: seq<Slot>, i: nat, m: Message)
    requires i < |ring| && i == Target(ring, m.priority) && Fits(ring, m)
    requires ring1 == ring || ring1 == ring[i := Freed(ring[i])]
    ensures var ring2 := ring1[i := Overlaid(ring1[i], m.bytes)];
            ring2[i := Slot(Meta(m.priority, true, m.src, |m.bytes|), ring2[i].payload)] == Post(ring, m)
  {
  }

  /** std::min(size, slot_size) bytes of the data. */
  function Clipped(data: seq<Byte>, slotSize: Word): (bytes: seq<Byte>)
    ensures bytes <= data && |bytes| == if |data| <= slotSize then |data| else slotSize
  {
    if |data| <= slotSize then data else data[..slotSize]
  }
}
