/** Mailboxes of one process over their lifetimes, and the registry entries they leave. */
module MailboxLifecycle {
  import opened Wrappers
  import opened Bytes
  import opened EvlRegistry

  datatype Mode = Local | Public | Network

  datatype Box = Box(id: Word, mode: Mode, created: bool)

  /** The registry and every live mailbox object, by address. */
  datatype World = World(tbl: Table, boxes: map<nat, Box>)

  datatype Event =
    | Construct(h: nat, id: Word, mode: Mode)
    | Initialize(h: nat, ring: bool, objects: bool)
    | Shutdown(h: nat)
    | Destroy(h: nat)

  predicate Enabled(s: World, e: Event) {
    if e.Construct? then e.h !in s.boxes else e.h in s.boxes
  }

  /** initialize(): `ring` and `objects` say whether the kernel grants the ring (or socket) and the EVL objects. */
  function AfterInitialize(s: World, h: nat, ring: bool, objects: bool): World
    requires h in s.boxes
  {
    var b := s.boxes[h];
    if b.created || !ring then s
    else if b.mode == Network then s.(boxes := s.boxes[h := b.(created := true)])
    else if b.mode == Local then
      if !objects then s
      else World(Insert(s.tbl, b.id, Some(h)), s.boxes[h := b.(created := true)])
    else if !objects then s
    else s.(boxes := s.boxes[h := b.(created := true)])
  }

  function AfterShutdown(s: World, h: nat): World
    requires h in s.boxes
  {
    var b := s.boxes[h];
    if !b.created then s
    else World(if b.mode == Local && Find(s.tbl, b.id) == Some(h) then Remove(s.tbl, b.id) else s.tbl,
               s.boxes[h := b.(created := false)])
  }

  function Step(s: World, e: Event): World
    requires Enabled(s, e)
  {
    match e
    case Construct(h, id, mode) => s.(boxes := s.boxes[h := Box(id, mode, false)])
    case Initialize(h, ring, objects) => AfterInitialize(s, h, ring, objects)
    case Shutdown(h) => AfterShutdown(s, h)
    case Destroy(h) => var s1 := AfterShutdown(s, h); s1.(boxes := s1.boxes - {h})
  }

  /** What each operation does to the mailboxes: a constructed one is not initialised; initialising succeeds if and only
      if it had before, or the kernel grants what the mode needs; a shut down one is not initialised; id and mode never
      change, and no operation touches another mailbox. */
  lemma BoxesAfter(s: World, e: Event)
    ensures Enabled(s, e) <==> if e.Construct? then e.h !in s.boxes else e.h in s.boxes
    ensures Enabled(s, e) ==>
              var s' := Step(s, e);
              && (forall k :: k != e.h ==> (k in s'.boxes <==> k in s.boxes) && (k in s.boxes ==> s'.boxes[k] == s.boxes[k]))
              && (e.Destroy? <==> e.h !in s'.boxes)
              && match e
                 case Construct(h, id, mode) => s'.boxes[h] == Box(id, mode, false)
                 case Initialize(h, ring, objects) =>
                   var b := s.boxes[h];
                   s'.boxes[h] == Box(b.id, b.mode, b.created || (ring && (b.mode == Network || objects)))
                 case Shutdown(h) => s'.boxes[h] == Box(s.boxes[h].id, s.boxes[h].mode, false)
                 case Destroy(h) => true
  {
  }

  /** A lookup yields nothing, or a live, initialised, Local mailbox with that very id. */
  ghost predicate NoDangling(s: World) {
    forall id: Word :: Find(s.tbl, id).Some? ==>
                         var h := Find(s.tbl, id).value;
                         h in s.boxes && s.boxes[h] == Box(id, Local, true)
  }

  ghost predicate WorldInv(s: World) { Inv(s.tbl) && NoDangling(s) }

  /** What an insert can do to a lookup, with the table full and id 0 included. */
  lemma InsertLookup(t: Table, id: Word, h: nat, x: Word)
    requires Inv(t)
    ensures Inv(Insert(t, id, Some(h)))
    ensures Find(Insert(t, id, Some(h)), x) == Find(t, x) || (x == id && Find(Insert(t, id, Some(h)), x) == Some(h))
  {
    InsertKeeps(t, id, Some(h));
    FindZero(t);
    FindZero(Insert(t, id, Some(h)));
    if id != 0 { InsertFound(t, id, Some(h)); }
  }

  lemma InitializeKeeps(s: World, h: nat, ring: bool, objects: bool)
    requires WorldInv(s) && h in s.boxes
    ensures WorldInv(AfterInitialize(s, h, ring, objects))
  {
    var b, s' := s.boxes[h], AfterInitialize(s, h, ring, objects);
    if s'.tbl != s.tbl {
      forall x: Word
        ensures Inv(s'.tbl)
        ensures Find(s'.tbl, x) == Find(s.tbl, x) || (x == b.id && Find(s'.tbl, x) == Some(h))
      {
        InsertLookup(s.tbl, b.id, h, x);
      }
    }
  }

  lemma ShutdownKeeps(s: World, h: nat)
    requires WorldInv(s) && h in s.boxes
    ensures WorldInv(AfterShutdown(s, h))
    ensures forall id: Word :: Find(AfterShutdown(s, h).tbl, id) == if Find(s.tbl, id) == Some(h) then None else Find(s.tbl, id)
  {
    var b := s.boxes[h];
    RemoveKeeps(s.tbl, b.id);
    assert forall id: Word :: Find(s.tbl, id) == Some(h) ==> id == b.id && b.mode == Local && b.created;
  }

  lemma StepKeeps(s: World, e: Event)
    requires WorldInv(s) && Enabled(s, e)
    ensures WorldInv(Step(s, e))
  {
    match e
    case Construct(_, _, _) =>
    case Initialize(h, ring, objects) => InitializeKeeps(s, h, ring, objects);
    case Shutdown(h) => ShutdownKeeps(s, h);
    case Destroy(h) => ShutdownKeeps(s, h);
  }

  ghost predicate IsRun(states: seq<World>, events: seq<Event>) {
    && |states| == |events| + 1 && states[0] == World(Empty(), map[])
    && forall i :: 0 <= i < |events| ==> Enabled(states[i], events[i]) && states[i + 1] == Step(states[i], events[i])
  }

  /** In every run of any set of mailboxes, duplicate ids, id 0 and a full table included, no lookup dangles. */
  lemma {:induction false} LookupsNeverDangle(states: seq<World>, events: seq<Event>, i: nat)
    requires IsRun(states, events) && i < |states|
    ensures WorldInv(states[i])
  {
    if i == 0 {
      RegistryRefinesBook([]);
    } else {
      LookupsNeverDangle(states, events, i - 1);
      StepKeeps(states[i - 1], events[i - 1]);
    }
  }

  /** Shutting a mailbox down, or destroying it, unregisters that mailbox and never another one. */
  lemma ShutdownTouchesOnlyItself(states: seq<World>, events: seq<Event>, i: nat, id: Word)
    requires IsRun(states, events) && i < |events| && (events[i].Shutdown? || events[i].Destroy?)
    ensures var h, before, after := events[i].h, Find(states[i].tbl, id), Find(states[i + 1].tbl, id);
            after == if before == Some(h) then None else before
  {
    LookupsNeverDangle(states, events, i);
    ShutdownKeeps(states[i], events[i].h);
  }

  /** A successful Local initialisation takes the id over exactly when the id is nonzero and the table has room. */
  lemma InitializeRegistersIff(states: seq<World>, events: seq<Event>, i: nat)
    requires IsRun(states, events) && i < |events| && events[i].Initialize? && events[i].ring && events[i].objects
    requires states[i].boxes[events[i].h].mode == Local && !states[i].boxes[events[i].h].created
    ensures var id := states[i].boxes[events[i].h].id;
            Find(states[i + 1].tbl, id) == Some(events[i].h)
            <==> id != 0 && (id in Used(states[i].tbl) || |Used(states[i].tbl)| < CAPACITY)
  {
    LookupsNeverDangle(states, events, i);
    var t, h, id := states[i].tbl, events[i].h, states[i].boxes[events[i].h].id;
    FindZero(Insert(t, 0, Some(h)));
    if id != 0 {
      NoRoomIff(t, id);
      InsertFound(t, id, Some(h));
      if id !in Used(t) { Absent(t, id); }
    }
  }

  // ------------------------------------------------------------------ the code, in place

  class Process {
    const registry: Registry
    var boxes: map<nat, Box>

    ghost predicate Valid()
      reads this
    {
      registry.Valid()
    }

    ghost function View(): World
      requires Valid()
      reads this, registry.tbl
    {
      World(registry.View(), boxes)
    }

    constructor ()
      ensures Valid() && View() == World(Empty(), map[])
    {
      registry := new Registry();
      boxes := map[];
    }

    method InitializeBox(h: nat, ring: bool, objects: bool) returns (ok: bool)
      requires Valid() && h in boxes
      modifies this, registry.tbl
      ensures Valid() && View() == AfterInitialize(old(View()), h, ring, objects)
      ensures ok <==> boxes[h].created
    {
      var b := boxes[h];
      if b.created {
        return true;
      }
      if !ring {
        return false;
      }
      if b.mode != Network {
        if !objects {
          return false;
        }
        if b.mode == Local {
          registry.RegistryInsert(b.id, Some(h));
        }
      }
      boxes := boxes[h := b.(created := true)];
      ok := true;
    }

    method ShutdownBox(h: nat)
      requires Valid() && h in boxes
      modifies this, registry.tbl
      ensures Valid() && View() == AfterShutdown(old(View()), h)
    {
      var b := boxes[h];
      if !b.created {
        return;
      }
      if b.mode == Local {
        var found := registry.RegistryFind(b.id);
        if found == Some(h) {
          registry.RegistryRemove(b.id);
        }
      }
      boxes := boxes[h := b.(created := false)];
    }
  }
}
