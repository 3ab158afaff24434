/** The ring as raw bytes: where header, metadata and payload lie, and what writing them does to the slots. */
module RingMemory {
  import opened Bytes
  import opened SlotRing

  const LAYOUT_SIZE := 16
  const META_SIZE := 12

  /** n cells of m bytes: the product, by repeated addition so that reasoning about it stays linear. */
  function Times(n: nat, m: nat): nat { if n == 0 then 0 else Times(n - 1, m) + m }

  lemma {:induction false} TimesIsProduct(n: nat, m: nat)
    ensures Times(n, m) == n * m
  {
    if n > 0 {
      TimesIsProduct(n - 1, m);
      assert n * m == (n - 1) * m + m;
    }
  }

  /** Cell i of n ends before cell j > i begins, and before the end of them all. */
  lemma {:induction false} CellEnds(m: nat, n: nat, i: nat)
    requires i < n
    ensures Times(i, m) + m <= Times(n, m)
  {
    if i < n - 1 { CellEnds(m, n - 1, i); }
  }

  /** `idx * slot_size` in 32-bit unsigned arithmetic, as slot_ptr and post_to_remote compute it. */
  function Offset32(i: nat, slotSize: Word): nat { Times(i, slotSize) % 0x1_0000_0000 }

  function MetaStart(i: nat): nat { LAYOUT_SIZE + i * META_SIZE }

  function PayloadStart(cap: nat, slotSize: Word, i: nat): nat {
    LAYOUT_SIZE + cap * META_SIZE + Offset32(i, slotSize)
  }

  function ShmTotal(cap: nat, slotSize: Word): nat { LAYOUT_SIZE + cap * META_SIZE + Times(cap, slotSize) }

  /** Every payload offset is representable in 32 bits. */
  predicate OffsetsFit(cap: nat, slotSize: Word) { cap == 0 || Times(cap - 1, slotSize) < 0x1_0000_0000 }

  lemma OffsetExact(cap: nat, slotSize: Word, i: nat)
    requires OffsetsFit(cap, slotSize) && i < cap
    ensures Offset32(i, slotSize) == Times(i, slotSize) && Times(i, slotSize) + slotSize <= Times(cap, slotSize)
  {
    CellEnds(slotSize, cap, i);
    if i < cap - 1 { CellEnds(slotSize, cap - 1, i); }
  }

  // ------------------------------------------------------------------ the layout is a partition

  datatype Region = Header | MetaOf(i: nat) | PayloadOf(i: nat)

  predicate RegionExists(cap: nat, r: Region) { r.Header? || r.i < cap }

  function Start(cap: nat, slotSize: Word, r: Region): nat {
    match r
    case Header => 0
    case MetaOf(i) => MetaStart(i)
    case PayloadOf(i) => PayloadStart(cap, slotSize, i)
  }

  function Length(slotSize: Word, r: Region): nat {
    match r
    case Header => LAYOUT_SIZE
    case MetaOf(_) => META_SIZE
    case PayloadOf(_) => slotSize
  }

  /** Which region an address belongs to. */
  function RegionOf(cap: nat, slotSize: Word, x: nat): (r: Region)
    requires x < ShmTotal(cap, slotSize)
  {
    if x < LAYOUT_SIZE then Header
    else if x < LAYOUT_SIZE + cap * META_SIZE then MetaOf((x - LAYOUT_SIZE) / META_SIZE)
    else if slotSize == 0 then Header
    else PayloadOf((x - LAYOUT_SIZE - cap * META_SIZE) / slotSize)
  }

  lemma Quotient(y: nat, m: nat)
    requires m > 0
    ensures Times(y / m, m) <= y < Times(y / m, m) + m
  {
    TimesIsProduct(y / m, m);
  }

  /** An array of n cells of m bytes from `base` on: an address in it lies in cell i exactly if i is its quotient. */
  lemma CellsPartition(base: nat, m: nat, n: nat, x: nat, i: nat)
    requires m > 0 && base <= x < base + Times(n, m)
    ensures (x - base) / m < n
    ensures base + Times(i, m) <= x < base + Times(i, m) + m <==> (x - base) / m == i
  {
    var q := (x - base) / m;
    Quotient(x - base, m);
    if n < q { CellEnds(m, q, n); }
    if q < i { CellEnds(m, i, q); }
    if i < q { CellEnds(m, q, i); }
  }

  /** Every byte of the shared region lies in exactly one of header, metadata entries and payload slots: they are
      pairwise disjoint and fill shm_total exactly. */
  lemma LayoutPartitions(cap: nat, slotSize: Word, x: nat, r: Region)
    requires OffsetsFit(cap, slotSize) && x < ShmTotal(cap, slotSize) && RegionExists(cap, r)
    ensures RegionExists(cap, RegionOf(cap, slotSize, x))
    ensures Start(cap, slotSize, r) <= x < Start(cap, slotSize, r) + Length(slotSize, r)
            <==> r == RegionOf(cap, slotSize, x)
    ensures Start(cap, slotSize, r) + Length(slotSize, r) <= ShmTotal(cap, slotSize)
  {
    var base := LAYOUT_SIZE + cap * META_SIZE;
    if r.PayloadOf? { OffsetExact(cap, slotSize, r.i); }
    if LAYOUT_SIZE <= x < base {
      if r.MetaOf? { assert (x - LAYOUT_SIZE) / META_SIZE == r.i <==> MetaStart(r.i) <= x < MetaStart(r.i) + META_SIZE; }
    } else if base <= x {
      if slotSize == 0 { TimesIsProduct(cap, 0); }
      CellsPartition(base, slotSize, cap, x, if r.PayloadOf? then r.i else 0);
    }
  }

  lemma ApartWhenFit(cap: nat, slotSize: Word, i: nat, j: nat)
    requires OffsetsFit(cap, slotSize) && i < j < cap
    ensures Apart(i, j, slotSize) && Apart(j, i, slotSize)
  {
    OffsetExact(cap, slotSize, i);
    OffsetExact(cap, slotSize, j);
    CellEnds(slotSize, j, i);
  }

  /** The first slot whose offset wraps lands on slot 0. */
  lemma OverlapWhenNot(cap: nat, slotSize: Word) returns (i: nat)
    requires slotSize > 0 && !OffsetsFit(cap, slotSize)
    ensures 0 < i < cap && !Apart(0, i, slotSize)
  {
    var q := 0xFFFF_FFFF / slotSize;
    i := q + 1;
    Quotient(0xFFFF_FFFF, slotSize);
    if cap - 1 < q { CellEnds(slotSize, q, cap - 1); }
    assert Offset32(i, slotSize) == Times(i, slotSize) - 0x1_0000_0000;
  }

  /** The payload slots are pairwise disjoint if and only if the largest offset fits in 32 bits. */
  lemma SlotsDisjointIff(cap: nat, slotSize: Word)
    requires slotSize > 0
    ensures OffsetsFit(cap, slotSize) <==> forall i, j :: 0 <= i < j < cap ==> Apart(i, j, slotSize)
  {
    if OffsetsFit(cap, slotSize) {
      forall i, j | 0 <= i < j < cap
        ensures Apart(i, j, slotSize)
      {
        ApartWhenFit(cap, slotSize, i, j);
      }
    } else {
      var i := OverlapWhenNot(cap, slotSize);
    }
  }

  predicate Apart(i: nat, j: nat, slotSize: Word) {
    || Offset32(i, slotSize) + slotSize <= Offset32(j, slotSize)
    || Offset32(j, slotSize) + slotSize <= Offset32(i, slotSize)
  }

  // ------------------------------------------------------------------ reading the bytes

  /** A SlotMeta: priority, in_use, two bytes of padding, src, size. */
  function GetMeta(mem: seq<Byte>, o: nat): Meta
    requires o + META_SIZE <= |mem|
  {
    Meta(GetInt8(mem[o]), mem[o + 1] != 0, GetWord(mem[o + 4..]), GetWord(mem[o + 8..]))
  }

  function PutMeta(mem: seq<Byte>, o: nat, m: Meta): (mem': seq<Byte>)
    requires o + META_SIZE <= |mem|
    ensures |mem'| == |mem|
  {
    var mem1 := Splice(mem, o, [PutInt8(m.priority), if m.inUse then 1 else 0]);
    Splice(mem1, o + 4, PutWord(m.src) + PutWord(m.size))
  }

  ghost function SlotAt(mem: seq<Byte>, cap: nat, slotSize: Word, i: nat): (s: Slot)
    requires i < cap && OffsetsFit(cap, slotSize) && |mem| == ShmTotal(cap, slotSize)
    ensures |s.payload| == slotSize
  {
    OffsetExact(cap, slotSize, i);
    var p := PayloadStart(cap, slotSize, i);
    Slot(GetMeta(mem, MetaStart(i)), mem[p..p + slotSize])
  }

  ghost function Decode(mem: seq<Byte>, cap: nat, slotSize: Word): seq<Slot>
    requires OffsetsFit(cap, slotSize) && |mem| == ShmTotal(cap, slotSize)
  {
    seq(cap, i requires 0 <= i < cap => SlotAt(mem, cap, slotSize, i))
  }

  /** Where each field of a slot is: 12 bytes of metadata from 16 + 12 i on, with priority, in_use, two bytes of padding,
      src and size; slot_size bytes of payload from 16 + 12 capacity + i slot_size on. */
  lemma SlotLayout(mem: seq<Byte>, cap: nat, slotSize: Word, i: nat)
    requires i < cap && OffsetsFit(cap, slotSize) && |mem| == ShmTotal(cap, slotSize)
    ensures |mem| == 16 + cap * 12 + cap * slotSize
    ensures var s, o, p := SlotAt(mem, cap, slotSize, i), 16 + i * 12, 16 + cap * 12 + i * slotSize;
            && o + 12 <= |mem| && p + slotSize <= |mem|
            && (mem[o] - s.meta.priority) % 0x100 == 0 && (s.meta.inUse <==> mem[o + 1] != 0)
            && s.meta.src == WordAt(mem, o + 4) && s.meta.size == WordAt(mem, o + 8)
            && s.payload == mem[p..p + slotSize]
  {
    OffsetExact(cap, slotSize, i);
    TimesIsProduct(i, slotSize);
    TimesIsProduct(cap, slotSize);
    WordRead(mem, 16 + i * 12 + 4);
    WordRead(mem, 16 + i * 12 + 8);
  }

  lemma MetaRoundTrip(mem: seq<Byte>, o: nat, m: Meta)
    requires o + META_SIZE <= |mem|
    ensures GetMeta(PutMeta(mem, o, m), o) == m
  {
    var mem1 := Splice(mem, o, [PutInt8(m.priority), if m.inUse then 1 else 0]);
    var w := PutWord(m.src) + PutWord(m.size);
    var mem2 := Splice(mem1, o + 4, w);
    assert mem1[o] == mem1[o..o + 2][0] && mem1[o + 1] == mem1[o..o + 2][1];
    assert mem2[o + 4..] == PutWord(m.src) + (PutWord(m.size) + mem1[o + 12..]);
    assert mem2[o + 8..] == PutWord(m.size) + mem1[o + 12..];
    WordRoundTrip(m.src, PutWord(m.size) + mem1[o + 12..]);
    WordRoundTrip(m.size, mem1[o + 12..]);
  }

  ghost predicate SameBytes(a: seq<Byte>, b: seq<Byte>, o: nat, n: nat) {
    |a| == |b| && o + n <= |a| && forall x :: o <= x < o + n ==> a[x] == b[x]
  }

  lemma WordDependsOnItsBytes(a: seq<Byte>, b: seq<Byte>)
    requires |a| >= 4 && |b| >= 4 && a[0] == b[0] && a[1] == b[1] && a[2] == b[2] && a[3] == b[3]
    ensures GetWord(a) == GetWord(b)
  {
  }

  /** Writing beyond the header leaves the dimensions in it alone. */
  lemma HeaderKept(mem: seq<Byte>, mem': seq<Byte>)
    requires |mem'| == |mem| >= LAYOUT_SIZE && forall x :: 0 <= x < LAYOUT_SIZE ==> mem'[x] == mem[x]
    ensures GetWord(mem'[0..]) == GetWord(mem[0..]) && GetWord(mem'[4..]) == GetWord(mem[4..])
  {
    WordDependsOnItsBytes(mem'[0..], mem[0..]);
    WordDependsOnItsBytes(mem'[4..], mem[4..]);
  }

  lemma MetaDependsOnItsBytes(a: seq<Byte>, b: seq<Byte>, o: nat)
    requires SameBytes(a, b, o, META_SIZE)
    ensures GetMeta(a, o) == GetMeta(b, o)
  {
    WordDependsOnItsBytes(a[o + 4..], b[o + 4..]);
    WordDependsOnItsBytes(a[o + 8..], b[o + 8..]);
  }

  /** A slot after memcpy of data to its start. */
  ghost function Overlaid(s: Slot, data: seq<Byte>): Slot
    requires |data| <= |s.payload|
  {
    s.(payload := data + s.payload[|data|..])
  }

  /** Two memories that agree on a slot's own bytes show the same slot. */
  lemma SlotDependsOnItsBytes(a: seq<Byte>, b: seq<Byte>, cap: nat, slotSize: Word, i: nat)
    requires i < cap && OffsetsFit(cap, slotSize) && |a| == |b| == ShmTotal(cap, slotSize)
    requires SameBytes(a, b, MetaStart(i), META_SIZE)
    requires SameBytes(a, b, PayloadStart(cap, slotSize, i), slotSize)
    ensures SlotAt(a, cap, slotSize, i) == SlotAt(b, cap, slotSize, i)
  {
    MetaDependsOnItsBytes(a, b, MetaStart(i));
    var p := PayloadStart(cap, slotSize, i);
    assert a[p..p + slotSize] == b[p..p + slotSize];
  }

  /** Writing one slot's metadata changes that slot's metadata and no other slot. */
  lemma WriteMetaDecodes(mem: seq<Byte>, cap: nat, slotSize: Word, i: nat, m: Meta)
    requires i < cap && OffsetsFit(cap, slotSize) && |mem| == ShmTotal(cap, slotSize)
    ensures MetaStart(i) + META_SIZE <= |mem|
    ensures Decode(PutMeta(mem, MetaStart(i), m), cap, slotSize)
         == Decode(mem, cap, slotSize)[i := Slot(m, SlotAt(mem, cap, slotSize, i).payload)]
  {
    var o := MetaStart(i);
    var mem' := PutMeta(mem, o, m);
    forall j | 0 <= j < cap
      ensures SlotAt(mem', cap, slotSize, j)
           == if j == i then Slot(m, SlotAt(mem, cap, slotSize, i).payload) else SlotAt(mem, cap, slotSize, j)
    {
      OffsetExact(cap, slotSize, j);
      var p := PayloadStart(cap, slotSize, j);
      assert SameBytes(mem', mem, p, slotSize);
      if j == i {
        MetaRoundTrip(mem, o, m);
        assert mem'[p..p + slotSize] == mem[p..p + slotSize];
      } else {
        SlotDependsOnItsBytes(mem', mem, cap, slotSize, j);
      }
    }
  }

  /** Copying data into one slot changes the front of that slot's payload and no other slot. */
  lemma WritePayloadDecodes(mem: seq<Byte>, cap: nat, slotSize: Word, i: nat, data: seq<Byte>)
    requires i < cap && OffsetsFit(cap, slotSize) && |mem| == ShmTotal(cap, slotSize) && |data| <= slotSize
    ensures PayloadStart(cap, slotSize, i) + |data| <= |mem|
    ensures Decode(Splice(mem, PayloadStart(cap, slotSize, i), data), cap, slotSize)
         == Decode(mem, cap, slotSize)[i := Overlaid(SlotAt(mem, cap, slotSize, i), data)]
  {
    OffsetExact(cap, slotSize, i);
    var p, s := PayloadStart(cap, slotSize, i), SlotAt(mem, cap, slotSize, i);
    var mem' := Splice(mem, p, data);
    forall j | 0 <= j < cap
      ensures SlotAt(mem', cap, slotSize, j)
           == if j == i then Overlaid(s, data) else SlotAt(mem, cap, slotSize, j)
    {
      OffsetExact(cap, slotSize, j);
      assert SameBytes(mem', mem, MetaStart(j), META_SIZE);
      if j == i {
        MetaDependsOnItsBytes(mem', mem, MetaStart(i));
        assert mem'[p..p + slotSize] == data + s.payload[|data|..];
      } else {
        if i < j { ApartWhenFit(cap, slotSize, i, j); } else { ApartWhenFit(cap, slotSize, j, i); }
        SlotDependsOnItsBytes(mem', mem, cap, slotSize, j);
      }
    }
  }

  // ------------------------------------------------------------------ private rings: two arrays

  ghost function HeapView(meta: seq<Meta>, data: seq<Byte>, slotSize: Word): seq<Slot>
    requires OffsetsFit(|meta|, slotSize) && |data| == Times(|meta|, slotSize)
  {
    seq(|meta|, i requires 0 <= i < |meta| => HeapSlot(meta, data, slotSize, i))
  }

  ghost function HeapSlot(meta: seq<Meta>, data: seq<Byte>, slotSize: Word, i: nat): (s: Slot)
    requires i < |meta| && OffsetsFit(|meta|, slotSize) && |data| == Times(|meta|, slotSize)
    ensures |s.payload| == slotSize
  {
    OffsetExact(|meta|, slotSize, i);
    Slot(meta[i], data[Offset32(i, slotSize)..Offset32(i, slotSize) + slotSize])
  }

  lemma HeapWrite(meta: seq<Meta>, data: seq<Byte>, slotSize: Word, i: nat, bytes: seq<Byte>)
    requires i < |meta| && OffsetsFit(|meta|, slotSize) && |data| == Times(|meta|, slotSize) && |bytes| <= slotSize
    ensures Offset32(i, slotSize) + |bytes| <= |data|
    ensures HeapView(meta, Splice(data, Offset32(i, slotSize), bytes), slotSize)
         == HeapView(meta, data, slotSize)[i := Overlaid(HeapSlot(meta, data, slotSize, i), bytes)]
  {
    OffsetExact(|meta|, slotSize, i);
    var p, s := Offset32(i, slotSize), HeapSlot(meta, data, slotSize, i);
    var data' := Splice(data, p, bytes);
    forall j | 0 <= j < |meta|
      ensures HeapSlot(meta, data', slotSize, j)
           == if j == i then Overlaid(s, bytes) else HeapSlot(meta, data, slotSize, j)
    {
      OffsetExact(|meta|, slotSize, j);
      var o := Offset32(j, slotSize);
      if j == i {
        assert data'[p..p + slotSize] == bytes + s.payload[|bytes|..];
      } else {
        if i < j { ApartWhenFit(|meta|, slotSize, i, j); } else { ApartWhenFit(|meta|, slotSize, j, i); }
        assert data'[o..o + slotSize] == data[o..o + slotSize];
      }
    }
  }
}
