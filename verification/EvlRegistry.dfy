/** The process-local mailbox registry: an open-addressing table with tombstones, against the map it stands for. */
module EvlRegistry {
  import opened Wrappers
  import opened Bytes
  import opened Bits

  const CAPACITY := 512

  /** id 0 marks a slot never used; a slot keeps its id after removal, with no pointer. */
  datatype Entry = Entry(id: Word, ptr: Option<nat>)

  type Table = t: seq<Entry> | |t| == CAPACITY witness seq(CAPACITY, _ => Entry(0, None))

  function Empty(): Table { seq(CAPACITY, _ => Entry(0, None)) }

  /** Knuth's multiplicative hash in 32-bit arithmetic: the top nine bits of the product. */
  function Hash(id: Word): (h: nat)
    ensures h < CAPACITY
  {
    (id * 2654435761) % 0x1_0000_0000 / 0x80_0000
  }

  /** The nine bits are those at the top of the low 32 bits of the product. */
  lemma HashIsTopBits(id: Word)
    ensures exists q: nat, low: nat :: TopBits(id * 2654435761, q, Hash(id), low)
  {
    var x: nat := id * 2654435761;
    var y := x % 0x1_0000_0000;
    assert TopBits(x, x / 0x1_0000_0000, Hash(id), y % 0x80_0000);
  }

  ghost predicate TopBits(x: nat, q: nat, h: nat, low: nat) {
    x == q * 0x1_0000_0000 + h * 0x80_0000 + low && h < 512 && low < 0x80_0000
  }

  /** The i-th slot of the probe sequence of id. */
  function SlotAt(id: Word, i: nat): (s: nat)
    ensures s == (Hash(id) + i) % CAPACITY
  {
    MaskOf511(Hash(id) + i);
    And(Hash(id) + i, CAPACITY - 1)
  }

  lemma MaskOf511(x: nat)
    ensures And(x, 511) == x % 512
  {
    MaskIsMod(x, 9);
    assert Pow2(9) == 512 by { assert Pow2(3) == 8; Pow2Splits(3, 6); Pow2Splits(3, 9); }
  }

  predicate Stops(t: Table, id: Word, i: nat) { t[SlotAt(id, i)].id == 0 || t[SlotAt(id, i)].id == id }

  /** Where the probe for id stops, from its i-th slot on; CAPACITY if nowhere. */
  function Probe(t: Table, id: Word, i: nat): (n: nat)
    requires i <= CAPACITY
    ensures i <= n <= CAPACITY
    ensures n < CAPACITY ==> Stops(t, id, n)
    ensures forall j :: i <= j < n ==> !Stops(t, id, j)
    decreases CAPACITY - i
  {
    if i == CAPACITY || Stops(t, id, i) then i else Probe(t, id, i + 1)
  }

  function Insert(t: Table, id: Word, ptr: Option<nat>): Table {
    var n := Probe(t, id, 0);
    if n == CAPACITY then t else t[SlotAt(id, n) := Entry(id, ptr)]
  }

  function Remove(t: Table, id: Word): Table {
    var n := Probe(t, id, 0);
    if n == CAPACITY || t[SlotAt(id, n)].id == 0 then t else t[SlotAt(id, n) := Entry(id, None)]
  }

  function Find(t: Table, id: Word): Option<nat> {
    var n := Probe(t, id, 0);
    if n == CAPACITY || t[SlotAt(id, n)].id == 0 then None else t[SlotAt(id, n)].ptr
  }

  // ------------------------------------------------------------------ the code, in place on the array

  class Registry {
    const tbl: array<Entry>

    ghost predicate Valid() { tbl.Length == CAPACITY }

    ghost function View(): Table
      requires Valid()
      reads tbl
    {
      tbl[..]
    }

    constructor ()
      ensures Valid() && View() == Empty() && fresh(tbl)
    {
      tbl := new Entry[CAPACITY](_ => Entry(0, None));
    }

    method RegistryInsert(id: Word, ptr: Option<nat>)
      requires Valid()
      modifies tbl
      ensures View() == Insert(old(View()), id, ptr)
    {
      ghost var t := View();
      for i := 0 to CAPACITY
        invariant View() == t && Probe(t, id, 0) == Probe(t, id, i)
      {
        var slot := SlotAt(id, i);
        if tbl[slot].id == 0 || tbl[slot].id == id {
          tbl[slot] := Entry(id, ptr);
          return;
        }
      }
    }

    method RegistryRemove(id: Word)
      requires Valid()
      modifies tbl
      ensures View() == Remove(old(View()), id)
    {
      ghost var t := View();
      for i := 0 to CAPACITY
        invariant View() == t && Probe(t, id, 0) == Probe(t, id, i)
      {
        var slot := SlotAt(id, i);
        if tbl[slot].id == 0 {
          return;
        }
        if tbl[slot].id == id {
          tbl[slot] := tbl[slot].(ptr := None);
          return;
        }
      }
    }

    method RegistryFind(id: Word) returns (ptr: Option<nat>)
      requires Valid()
      ensures ptr == Find(View(), id)
    {
      for i := 0 to CAPACITY
        invariant Probe(View(), id, 0) == Probe(View(), id, i)
      {
        var slot := SlotAt(id, i);
        if tbl[slot].id == 0 {
          return None;
        }
        if tbl[slot].id == id {
          return tbl[slot].ptr;
        }
      }
      ptr := None;
    }
  }

  // ------------------------------------------------------------------ table invariant

  /** Each occupied slot is where the probe for its id stops. */
  ghost predicate Inv(t: Table) {
    forall s :: 0 <= s < CAPACITY && t[s].id != 0 ==> Home(t, s)
  }

  ghost predicate Home(t: Table, s: nat)
    requires s < CAPACITY
  {
    var n := Probe(t, t[s].id, 0); n < CAPACITY && SlotAt(t[s].id, n) == s
  }

  /** The ids that ever entered the table. */
  ghost function Used(t: Table): set<Word> { NonZero(Ids(t)) }

  ghost function Ids(t: Table): seq<Word> { seq(CAPACITY, s requires 0 <= s < CAPACITY => t[s].id) }

  ghost function NonZero(xs: seq<Word>): set<Word> { set x | x in xs && x != 0 }

  lemma NonZeroUpdate(xs: seq<Word>, s: nat, x: Word)
    requires s < |xs| && x != 0 && (xs[s] == 0 || xs[s] == x)
    ensures NonZero(xs[s := x]) == NonZero(xs) + {x}
  {
    var ys := xs[s := x];
    assert ys[s] == x;
    forall i | 0 <= i < |xs| && xs[i] != 0
      ensures xs[i] in ys
    {
      assert i != s ==> ys[i] == xs[i];
    }
  }

  /** The probe sequence of every id passes every slot. */
  lemma SlotReached(id: Word, s: nat) returns (i: nat)
    requires s < CAPACITY
    ensures i < CAPACITY && SlotAt(id, i) == s
  {
    var h := Hash(id);
    i := if s >= h then s - h else s + CAPACITY - h;
    assert (h + i) % CAPACITY == s;
  }

  /** A probe that never stops has seen the whole table in use by other ids. */
  lemma ProbeSeesAll(t: Table, id: Word, s: nat)
    requires Probe(t, id, 0) == CAPACITY && s < CAPACITY
    ensures t[s].id != 0 && t[s].id != id
  {
    var i := SlotReached(id, s);
    assert !Stops(t, id, i);
  }

  /** Where a probe stops depends only on which slots stop it. */
  lemma ProbeUnmoved(t: Table, t': Table, x: Word, i: nat)
    requires i <= CAPACITY
    requires forall j :: 0 <= j < CAPACITY ==> (Stops(t, x, j) <==> Stops(t', x, j))
    ensures Probe(t', x, i) == Probe(t, x, i)
    decreases CAPACITY - i
  {
    if i < CAPACITY { ProbeUnmoved(t, t', x, i + 1); }
  }

  /** A probe stops at its first stopping slot. */
  lemma ProbeFirst(t': Table, x: Word, i: nat, n: nat)
    requires i <= n < CAPACITY && Stops(t', x, n)
    requires forall j :: i <= j < n ==> !Stops(t', x, j)
    ensures Probe(t', x, i) == n
    decreases n - i
  {
    if i < n { ProbeFirst(t', x, i + 1, n); }
  }

  /** Inserting id leaves every other id's lookup alone, and its probe too if it has a slot. */
  lemma InsertOther(t: Table, id: Word, ptr: Option<nat>, x: Word)
    requires Inv(t) && x != id && x != 0
    ensures Find(Insert(t, id, ptr), x) == Find(t, x)
    ensures var m := Probe(t, x, 0);
            m < CAPACITY && t[SlotAt(x, m)].id == x ==> Probe(Insert(t, id, ptr), x, 0) == m
  {
    var m, n, t' := Probe(t, x, 0), Probe(t, id, 0), Insert(t, id, ptr);
    if n < CAPACITY {
      if m < CAPACITY && t[SlotAt(x, m)].id == x {
        forall j | 0 <= j < m
          ensures !Stops(t', x, j)
        {
          assert !Stops(t, x, j);
        }
        ProbeFirst(t', x, 0, m);
      } else {
        NotFound(t, t', x, SlotAt(id, n), id);
      }
    }
  }

  lemma InsertKeeps(t: Table, id: Word, ptr: Option<nat>)
    requires Inv(t)
    ensures Inv(Insert(t, id, ptr))
    ensures forall x | x != id && x != 0 :: Find(Insert(t, id, ptr), x) == Find(t, x)
  {
    var n, t' := Probe(t, id, 0), Insert(t, id, ptr);
    forall x: Word | x != id && x != 0
      ensures Find(t', x) == Find(t, x)
    {
      InsertOther(t, id, ptr, x);
    }
    forall k | 0 <= k < CAPACITY && t'[k].id != 0
      ensures Home(t', k)
    {
      if n < CAPACITY && k == SlotAt(id, n) {
        InsertStops(t, id, ptr);
      } else {
        assert Home(t, k);
        assert t[k].id != id;
        InsertOther(t, id, ptr, t[k].id);
      }
    }
  }

  /** An id that was nowhere is still nowhere after another id's entry is written to slot s. */
  lemma NotFound(t: Table, t': Table, x: Word, s: nat, id: Word)
    requires Inv(t) && x != 0 && x != id && s < CAPACITY && t' == t[s := Entry(id, t'[s].ptr)]
    requires Probe(t, x, 0) == CAPACITY || t[SlotAt(x, Probe(t, x, 0))].id == 0
    ensures Find(t', x) == None == Find(t, x)
  {
    forall k | 0 <= k < CAPACITY
      ensures t'[k].id != x
    {
      assert t[k].id != 0 ==> Home(t, k);
    }
  }

  lemma RemoveKeeps(t: Table, id: Word)
    requires Inv(t)
    ensures Inv(Remove(t, id)) && Used(Remove(t, id)) == Used(t) && Find(Remove(t, id), id) == None
    ensures forall x | x != id :: Find(Remove(t, id), x) == Find(t, x)
  {
    var t' := Remove(t, id);
    assert forall s :: 0 <= s < CAPACITY ==> t'[s].id == t[s].id;
    assert Ids(t') == Ids(t);
    forall x: Word
      ensures Probe(t', x, 0) == Probe(t, x, 0)
    {
      ProbeUnmoved(t, t', x, 0);
    }
    forall s | 0 <= s < CAPACITY && t'[s].id != 0
      ensures Home(t', s)
    {
      assert Home(t, s);
    }
    forall x: Word | x != id
      ensures Find(t', x) == Find(t, x)
    {
      var n := Probe(t, x, 0);
      assert n < CAPACITY ==> t'[SlotAt(x, n)].id == t[SlotAt(x, n)].id;
    }
  }

  lemma InsertStops(t: Table, id: Word, ptr: Option<nat>)
    requires id != 0 && Probe(t, id, 0) < CAPACITY
    ensures Find(Insert(t, id, ptr), id) == ptr && Probe(Insert(t, id, ptr), id, 0) == Probe(t, id, 0)
  {
    var n, t' := Probe(t, id, 0), Insert(t, id, ptr);
    forall j | 0 <= j < n
      ensures !Stops(t', id, j)
    {
      assert !Stops(t, id, j);
    }
    ProbeFirst(t', id, 0, n);
  }

  lemma InsertFound(t: Table, id: Word, ptr: Option<nat>)
    requires id != 0
    ensures if Probe(t, id, 0) == CAPACITY then Insert(t, id, ptr) == t && id !in Used(t)
            else Find(Insert(t, id, ptr), id) == ptr && Used(Insert(t, id, ptr)) == Used(t) + {id}
  {
    var n, t' := Probe(t, id, 0), Insert(t, id, ptr);
    if n == CAPACITY {
      forall s | 0 <= s < CAPACITY
        ensures Ids(t)[s] != id
      {
        ProbeSeesAll(t, id, s);
      }
    } else {
      InsertStops(t, id, ptr);
      assert Ids(t') == Ids(t)[SlotAt(id, n) := id];
      NonZeroUpdate(Ids(t), SlotAt(id, n), id);
    }
  }

  lemma IdsDiffer(t: Table, s: nat, s': nat)
    requires Inv(t) && s < CAPACITY && s' < CAPACITY && t[s].id != 0 && t[s].id == t[s'].id
    ensures s == s'
  {
    assert Home(t, s) && Home(t, s');
  }

  lemma {:induction false} CountNonZero(xs: seq<Word>)
    requires forall i, j :: 0 <= i < j < |xs| && xs[i] != 0 ==> xs[i] != xs[j]
    ensures |NonZero(xs)| <= |xs|
    ensures |NonZero(xs)| == |xs| <==> 0 !in xs
  {
    if xs != [] {
      var front, last := xs[..|xs| - 1], xs[|xs| - 1];
      CountNonZero(front);
      assert xs == front + [last];
      assert last != 0 ==> last !in front;
      assert NonZero(xs) == if last == 0 then NonZero(front) else NonZero(front) + {last};
    }
  }

  lemma UsedCount(t: Table)
    requires Inv(t)
    ensures |Used(t)| <= CAPACITY
    ensures |Used(t)| == CAPACITY <==> forall s :: 0 <= s < CAPACITY ==> t[s].id != 0
  {
    var xs := Ids(t);
    forall i, j | 0 <= i < j < CAPACITY && xs[i] != 0
      ensures xs[i] != xs[j]
    {
      if xs[i] == xs[j] { IdsDiffer(t, i, j); }
    }
    CountNonZero(xs);
    assert forall s :: 0 <= s < CAPACITY ==> xs[s] == t[s].id;
  }

  /** An insert finds no slot exactly when 512 other ids have been used. */
  lemma NoRoomIff(t: Table, id: Word)
    requires Inv(t) && id != 0
    ensures Probe(t, id, 0) == CAPACITY <==> |Used(t)| >= CAPACITY && id !in Used(t)
    ensures |Used(t)| <= CAPACITY
  {
    UsedCount(t);
    var n := Probe(t, id, 0);
    if n == CAPACITY {
      forall s | 0 <= s < CAPACITY
        ensures t[s].id != 0
      {
        ProbeSeesAll(t, id, s);
      }
      InsertFound(t, id, None);
    } else {
      var s := SlotAt(id, n);
      assert Ids(t)[s] == t[s].id;
      assert t[s].id in Ids(t);
    }
  }

  // ------------------------------------------------------------------ refinement

  datatype Op = Ins(id: Word, ptr: Option<nat>) | Rem(id: Word)

  function Apply(t: Table, op: Op): Table {
    match op
    case Ins(id, ptr) => Insert(t, id, ptr)
    case Rem(id) => Remove(t, id)
  }

  function Run(ops: seq<Op>): Table {
    if ops == [] then Empty() else Apply(Run(ops[..|ops| - 1]), ops[|ops| - 1])
  }

  /** What the table stands for: the ids ever accepted and the pointer of each. */
  datatype Book = Book(used: set<Word>, ptrs: map<Word, Option<nat>>)

  ghost function BookApply(b: Book, op: Op): Book {
    match op
    case Ins(id, ptr) =>
      if id == 0 || (id !in b.used && |b.used| >= CAPACITY) then b
      else Book(b.used + {id}, b.ptrs[id := ptr])
    case Rem(id) => if id in b.used then b.(ptrs := b.ptrs[id := None]) else b
  }

  ghost function BookRun(ops: seq<Op>): Book {
    if ops == [] then Book({}, map[]) else BookApply(BookRun(ops[..|ops| - 1]), ops[|ops| - 1])
  }

  ghost function Lookup(m: map<Word, Option<nat>>, id: Word): Option<nat> {
    if id in m then m[id] else None
  }

  ghost predicate Agrees(t: Table, b: Book) {
    Inv(t) && Used(t) == b.used && 0 !in b.used && forall id: Word :: Find(t, id) == Lookup(b.ptrs, id)
  }

  lemma InsertAgrees(t: Table, b: Book, id: Word, ptr: Option<nat>)
    requires Agrees(t, b) && id != 0
    ensures Agrees(Insert(t, id, ptr), BookApply(b, Ins(id, ptr)))
  {
    InsertKeeps(t, id, ptr);
    NoRoomIff(t, id);
    InsertFound(t, id, ptr);
    FindZero(t);
    FindZero(Insert(t, id, ptr));
  }

  lemma RemoveAgrees(t: Table, b: Book, id: Word)
    requires Agrees(t, b)
    ensures Agrees(Remove(t, id), BookApply(b, Rem(id)))
  {
    RemoveKeeps(t, id);
    if id !in b.used { Absent(t, id); }
  }

  lemma ApplyAgrees(t: Table, b: Book, op: Op)
    requires Agrees(t, b)
    ensures Agrees(Apply(t, op), BookApply(b, op))
  {
    match op
    case Ins(id, ptr) =>
      if id != 0 {
        InsertAgrees(t, b, id, ptr);
      } else {
        InsertKeeps(t, 0, ptr);
        InsertZero(t, ptr);
        FindZero(t);
        FindZero(Insert(t, 0, ptr));
      }
    case Rem(id) => RemoveAgrees(t, b, id);
  }

  lemma FindZero(t: Table)
    ensures Find(t, 0) == None
  {
  }

  lemma InsertZero(t: Table, ptr: Option<nat>)
    requires Inv(t)
    ensures Used(Insert(t, 0, ptr)) == Used(t)
  {
    var n := Probe(t, 0, 0);
    assert Ids(Insert(t, 0, ptr)) == Ids(t);
  }

  lemma Absent(t: Table, id: Word)
    requires id !in Used(t)
    ensures Find(t, id) == None && Remove(t, id) == t
  {
    var n := Probe(t, id, 0);
    assert forall s :: 0 <= s < CAPACITY ==> Ids(t)[s] == t[s].id;
  }

  /** After every sequence of operations, on all ids (0 and a full table included), lookups agree with the book. */
  lemma {:induction false} RegistryRefinesBook(ops: seq<Op>)
    ensures Agrees(Run(ops), BookRun(ops))
  {
    if ops == [] {
      assert forall s :: 0 <= s < CAPACITY ==> Ids(Empty())[s] == 0;
      forall id: Word
        ensures Find(Empty(), id) == None
      {
        Absent(Empty(), id);
      }
    } else {
      RegistryRefinesBook(ops[..|ops| - 1]);
      ApplyAgrees(Run(ops[..|ops| - 1]), BookRun(ops[..|ops| - 1]), ops[|ops| - 1]);
    }
  }

  // ------------------------------------------------------------------ the plain map, and when it is right

  ghost function PlainRun(ops: seq<Op>): map<Word, Option<nat>> {
    if ops == [] then map[] else PlainApply(PlainRun(ops[..|ops| - 1]), ops[|ops| - 1])
  }

  ghost function PlainApply(m: map<Word, Option<nat>>, op: Op): map<Word, Option<nat>> {
    match op
    case Ins(id, ptr) => m[id := ptr]
    case Rem(id) => m - {id}
  }

  ghost function Inserted(ops: seq<Op>): set<Word> {
    if ops == [] then {}
    else Inserted(ops[..|ops| - 1]) + if ops[|ops| - 1].Ins? then {ops[|ops| - 1].id} else {}
  }

  ghost predicate SamePlain(b: Book, m: map<Word, Option<nat>>) {
    b.ptrs.Keys == b.used && forall id: Word :: id != 0 ==> Lookup(b.ptrs, id) == Lookup(m, id)
  }

  lemma PlainStep(b: Book, m: map<Word, Option<nat>>, op: Op)
    requires SamePlain(b, m) && (op.Ins? ==> op.id in b.used || |b.used| < CAPACITY)
    ensures SamePlain(BookApply(b, op), PlainApply(m, op))
  {
    var b', m' := BookApply(b, op), PlainApply(m, op);
    forall id: Word | id != 0
      ensures Lookup(b'.ptrs, id) == Lookup(m', id)
    {
      assert Lookup(b.ptrs, id) == Lookup(m, id);
    }
  }

  ghost function With(all: set<Word>, op: Op): set<Word> { all + if op.Ins? then {op.id} else {} }

  /** While the ids inserted fit, each new one finds room. */
  lemma UsedGrows(b: Book, all: set<Word>, op: Op)
    requires b.used == all - {0} && |With(all, op) - {0}| <= CAPACITY
    ensures BookApply(b, op).used == With(all, op) - {0}
    ensures op.Ins? && op.id != 0 ==> op.id in b.used || |b.used| < CAPACITY
  {
    if op.Ins? && op.id != 0 && op.id !in b.used {
      assert With(all, op) - {0} == b.used + {op.id};
    } else {
      assert With(all, op) - {0} == b.used;
    }
  }

  lemma {:induction false} BookIsPlain(ops: seq<Op>)
    requires |Inserted(ops) - {0}| <= CAPACITY
    ensures BookRun(ops).used == Inserted(ops) - {0} && SamePlain(BookRun(ops), PlainRun(ops))
  {
    if ops != [] {
      var front, op := ops[..|ops| - 1], ops[|ops| - 1];
      Smaller(Inserted(front) - {0}, Inserted(ops) - {0});
      BookIsPlain(front);
      var b, m := BookRun(front), PlainRun(front);
      assert Inserted(ops) == With(Inserted(front), op);
      UsedGrows(b, Inserted(front), op);
      if op.Ins? && op.id == 0 { PlainZero(b, m, op.ptr); } else { PlainStep(b, m, op); }
    }
  }

  lemma PlainZero(b: Book, m: map<Word, Option<nat>>, ptr: Option<nat>)
    requires SamePlain(b, m)
    ensures SamePlain(b, m[0 := ptr])
  {
    forall id: Word | id != 0
      ensures Lookup(b.ptrs, id) == Lookup(m[0 := ptr], id)
    {
      assert Lookup(b.ptrs, id) == Lookup(m, id);
    }
  }

  lemma {:induction false} Smaller(a: set<Word>, b: set<Word>)
    requires a <= b
    ensures |a| <= |b|
  {
    assert b == a + (b - a);
  }

  /** While at most 512 distinct nonzero ids have ever been inserted, the registry is a plain map. */
  lemma RegistryRefinesMap(ops: seq<Op>, id: Word)
    requires |Inserted(ops) - {0}| <= CAPACITY && id != 0
    ensures Find(Run(ops), id) == Lookup(PlainRun(ops), id)
  {
    RegistryRefinesBook(ops);
    BookIsPlain(ops);
  }

  /** The exact limit: an insert takes effect if and only if its id is nonzero and either known or among the first
      512 ids; otherwise it changes no lookup at all. */
  lemma InsertTakesEffectIff(ops: seq<Op>, id: Word, p: nat)
    ensures var t, t' := Run(ops), Insert(Run(ops), id, Some(p));
            && (Find(t', id) == Some(p) <==> id != 0 && (id in Used(t) || |Used(t)| < CAPACITY))
            && (forall x: Word :: x != id ==> Find(t', x) == Find(t, x))
            && (id == 0 || (id !in Used(t) && |Used(t)| >= CAPACITY) ==> Find(t', id) == Find(t, id) == None)
  {
    var t := Run(ops);
    RegistryRefinesBook(ops);
    RegistryRefinesBook(ops + [Ins(id, Some(p))]);
    assert (ops + [Ins(id, Some(p))])[..|ops|] == ops;
    if id !in Used(t) { Absent(t, id); }
  }
}
