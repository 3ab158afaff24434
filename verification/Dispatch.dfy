/** Looking a payload type's id up, and finding the type again from an id received at run time. */
module Dispatch {
  import opened Wrappers
  import opened MessageIds

  /** Index of the first definition with the payload type. */
  function FindDef(defs: seq<Def>, payload: nat): Option<Def> {
    if defs == [] then None else if defs[0].payload == payload then Some(defs[0]) else FindDef(defs[1..], payload)
  }

  ghost predicate Registered(defs: seq<Def>, payload: nat) {
    exists i :: 0 <= i < |defs| && defs[i].payload == payload
  }

  /** get_message_id<T>() */
  function IdFor(defs: seq<Def>, payload: nat): Option<nat> {
    match FindDef(defs, payload)
    case None => None
    case Some(d) => Some(MessageId(d))
  }

  /** PayloadTypeFor<ID> */
  function TypeById(defs: seq<Def>, id: nat, i: nat): Option<nat>
    decreases |defs| - i
  {
    if i >= |defs| then None
    else if MessageId(defs[i]) == id then Some(defs[i].payload)
    else TypeById(defs, id, i + 1)
  }

  /** The visitor calls made, and the result. */
  datatype Visit<V> = Visit(calls: seq<(nat, V)>, ok: bool)

  /** visit_impl_helper from index i on; deserialisation of a payload type is any partial function of the bytes. */
  function VisitFrom<D, V>(defs: seq<Def>, i: nat, id: nat, data: D, read: (nat, D) -> Option<V>): Visit<V>
    decreases |defs| - i
  {
    if i >= |defs| then Visit([], false)
    else if MessageId(defs[i]) == id then
      match read(defs[i].payload, data)
      case Some(v) => Visit([(defs[i].payload, v)], true)
      case None => Visit([], false)
    else VisitFrom(defs, i + 1, id, data, read)
  }

  /** The visit sees one payload type at most: the one TypeById names, if the bytes can be read as it. */
  lemma {:induction false} VisitIsTypeById<D, V>(defs: seq<Def>, i: nat, id: nat, data: D, read: (nat, D) -> Option<V>)
    ensures VisitFrom(defs, i, id, data, read) ==
            match TypeById(defs, id, i)
            case None => Visit([], false)
            case Some(t) => if read(t, data).Some? then Visit([(t, read(t, data).value)], true) else Visit([], false)
    decreases |defs| - i
  {
    if i < |defs| { VisitIsTypeById(defs, i + 1, id, data, read); }
  }

  lemma {:induction false} TypeByIdAt(defs: seq<Def>, k: nat, i: nat)
    requires DistinctIds(defs) && i <= k < |defs|
    ensures TypeById(defs, MessageId(defs[k]), i) == Some(defs[k].payload)
    decreases k - i
  {
    if i < k { TypeByIdAt(defs, k, i + 1); }
  }

  lemma {:induction false} TypeByIdNone(defs: seq<Def>, id: nat, i: nat)
    requires forall k :: 0 <= k < |defs| ==> MessageId(defs[k]) != id
    ensures TypeById(defs, id, i) == None
    decreases |defs| - i
  {
    if i < |defs| { TypeByIdNone(defs, id, i + 1); }
  }

  /** The lookup by type finds the first definition with it, and nothing if there is none. */
  lemma {:induction false} FindDefAt(defs: seq<Def>, payload: nat) returns (k: nat)
    requires Registered(defs, payload)
    ensures k < |defs| && defs[k].payload == payload && FindDef(defs, payload) == Some(defs[k])
    ensures forall i :: 0 <= i < k ==> defs[i].payload != payload
  {
    if defs[0].payload == payload {
      k := 0;
    } else {
      var i :| 0 <= i < |defs| && defs[i].payload == payload;
      assert defs[1..][i - 1].payload == payload;
      k := FindDefAt(defs[1..], payload);
      k := k + 1;
    }
  }

  lemma {:induction false} UnregisteredHasNoId(defs: seq<Def>, payload: nat)
    requires !Registered(defs, payload)
    ensures IdFor(defs, payload) == None
  {
    if defs != [] {
      assert defs[0].payload != payload;
      forall i | 0 <= i < |defs[1..]|
        ensures defs[1..][i].payload != payload
      {
        assert defs[1..][i] == defs[i + 1];
      }
      UnregisteredHasNoId(defs[1..], payload);
    }
  }

  /** For every list, distinct ids or not: a visit looks at the first definition with the id and at no other, and calls
      the visitor once if the bytes can be read as its type and not at all otherwise. */
  lemma {:induction false} VisitReachesFirst<D, V>(defs: seq<Def>, i: nat, k: nat, data: D, read: (nat, D) -> Option<V>)
    requires i <= k < |defs| && forall j :: i <= j < k ==> MessageId(defs[j]) != MessageId(defs[k])
    ensures TypeById(defs, MessageId(defs[k]), i) == Some(defs[k].payload)
    ensures VisitFrom(defs, i, MessageId(defs[k]), data, read)
         == match read(defs[k].payload, data)
            case Some(v) => Visit([(defs[k].payload, v)], true)
            case None => Visit([], false)
    decreases k - i
  {
    if i < k { VisitReachesFirst(defs, i + 1, k, data, read); }
  }

  /** Dispatch inverts lookup: over distinct ids, visiting the id of a registered type reaches that type exactly once
      with the message read from the data; visiting an id no definition has reaches nothing and returns false. */
  lemma DispatchInvertsLookup<D, V>(defs: seq<Def>, payload: nat, data: D, read: (nat, D) -> Option<V>)
    requires DistinctIds(defs) && Registered(defs, payload)
    ensures IdFor(defs, payload).Some?
    ensures var id := IdFor(defs, payload).value;
            && TypeById(defs, id, 0) == Some(payload)
            && VisitFrom(defs, 0, id, data, read)
               == if read(payload, data).Some? then Visit([(payload, read(payload, data).value)], true)
                  else Visit([], false)
  {
    var k := FindDefAt(defs, payload);
    TypeByIdAt(defs, k, 0);
    VisitIsTypeById(defs, 0, MessageId(defs[k]), data, read);
  }

  lemma UnknownIdReachesNothing<D, V>(defs: seq<Def>, id: nat, data: D, read: (nat, D) -> Option<V>)
    requires forall k :: 0 <= k < |defs| ==> MessageId(defs[k]) != id
    ensures VisitFrom(defs, 0, id, data, read) == Visit([], false)
  {
    TypeByIdNone(defs, id, 0);
    VisitIsTypeById(defs, 0, id, data, read);
  }

  /** A sender and a receiver built from the same definitions: what was written for a type is visited as that type,
      given that reading undoes writing. */
  lemma MessagesArriveAsSent<V>(defs: seq<Def>, payload: nat, v: V, write: (nat, V) -> seq<int>,
                                read: (nat, seq<int>) -> Option<V>)
    requires HalfWords(defs) && RequestsFit(defs) && Registered(Processed(defs), payload)
    requires ManualsDiffer(defs) && NoOverflow(defs) && NoRepeat(defs) && NoReplyRepeat(defs)
    requires read(payload, write(payload, v)) == Some(v)
    ensures IdFor(Processed(defs), payload).Some?
    ensures VisitFrom(Processed(defs), 0, IdFor(Processed(defs), payload).value, write(payload, v), read)
         == Visit([(payload, v)], true)
  {
    IdsDistinctIff(defs);
    DispatchInvertsLookup(Processed(defs), payload, write(payload, v), read);
  }

  /** The only definition with a type is the one its lookup and its dispatch find. */
  lemma OnlyOneIsFound<D, V>(xs: seq<Def>, k: nat, data: D, read: (nat, D) -> Option<V>)
    requires DistinctIds(xs) && k < |xs| && forall j :: 0 <= j < |xs| && j != k ==> xs[j].payload != xs[k].payload
    ensures var t, id := xs[k].payload, MessageId(xs[k]);
            && IdFor(xs, t) == Some(id)
            && VisitFrom(xs, 0, id, data, read)
               == if read(t, data).Some? then Visit([(t, read(t, data).value)], true) else Visit([], false)
  {
    var t := xs[k].payload;
    assert Registered(xs, t);
    var j := FindDefAt(xs, t);
    DispatchInvertsLookup(xs, t, data, read);
  }

  lemma ReplyPacked(defs: seq<Def>, i: nat, t: nat) returns (k: nat)
    requires HalfWords(defs) && RequestsFit(defs) && i < |defs| && defs[i].reply == Some(t)
    ensures 0 < k < |Processed(defs)| && Processed(defs)[k].payload == t
    ensures MessageId(Processed(defs)[k])
         == defs[i].prefix * 0x100_0000 + defs[i].subprefix * 0x1_0000 + 0x1_0000 - ClosedId(defs, i)
  {
    k := RepliesListed(defs, i, t);
    assert 0 < ClosedId(defs, i);
    PackIsSum(defs[i].prefix, defs[i].subprefix, 0x1_0000 - ClosedId(defs, i));
  }

  /** Replies too: if no other definition has the reply's type, looking the type up gives the packed id of the reply, and
      visiting that id reaches the type. */
  lemma ReplyIsDispatched<D, V>(defs: seq<Def>, i: nat, t: nat, data: D, read: (nat, D) -> Option<V>) returns (k: nat)
    requires HalfWords(defs) && RequestsFit(defs) && DistinctIds(Processed(defs)) && i < |defs| && defs[i].reply == Some(t)
    ensures 0 < k < |Processed(defs)| && Processed(defs)[k].payload == t
    ensures (forall j :: 0 <= j < |Processed(defs)| && j != k ==> Processed(defs)[j].payload != t) ==>
              var id := defs[i].prefix * 0x100_0000 + defs[i].subprefix * 0x1_0000 + 0x1_0000 - ClosedId(defs, i);
              && IdFor(Processed(defs), t) == Some(id)
              && VisitFrom(Processed(defs), 0, id, data, read)
                 == if read(t, data).Some? then Visit([(t, read(t, data).value)], true) else Visit([], false)
  {
    k := ReplyPacked(defs, i, t);
    var xs := Processed(defs);
    if forall j :: 0 <= j < |xs| && j != k ==> xs[j].payload != t { OnlyOneIsFound(xs, k, data, read); }
  }

  // ------------------------------------------------------------------ the collision check

  /** CheckCollisions::check_all_pairs on the packed ids, as the template recursion visits them. */
  predicate CheckAllPairs(first: nat, second: nat, rest: seq<nat>)
    decreases |rest|
  {
    && first != second
    && (rest == [] || (CheckAllPairs(first, rest[0], rest[1..]) && CheckAllPairs(second, rest[0], rest[1..])))
  }

  function PackedIds(defs: seq<Def>): seq<nat> { seq(|defs|, i requires 0 <= i < |defs| => MessageId(defs[i])) }

  predicate CheckCollisions(defs: seq<Def>) {
    |defs| <= 1 || CheckAllPairs(PackedIds(defs)[0], PackedIds(defs)[1], PackedIds(defs)[2..])
  }

  ghost predicate AllDiffer(ids: seq<nat>) {
    forall i, j :: 0 <= i < j < |ids| ==> ids[i] != ids[j]
  }

  lemma {:induction false} PairsComplete(first: nat, second: nat, rest: seq<nat>)
    ensures CheckAllPairs(first, second, rest) <==> AllDiffer([first, second] + rest)
    decreases |rest|
  {
    var all := [first, second] + rest;
    if rest == [] {
      assert all == [first, second];
    } else {
      var r, more := rest[0], rest[1..];
      PairsComplete(first, r, more);
      PairsComplete(second, r, more);
      var a, b := [first, r] + more, [second, r] + more;
      assert forall i :: 1 <= i < |a| ==> a[i] == all[i + 1] && b[i] == all[i + 1];
      assert a[0] == all[0] && b[0] == all[1];
      if AllDiffer(a) && AllDiffer(b) && first != second {
        forall i, j | 0 <= i < j < |all|
          ensures all[i] != all[j]
        {
          if i == 0 && j > 1 { assert a[0] != a[j - 1]; }
          else if i > 0 { assert b[i - 1] != b[j - 1]; }
        }
      }
    }
  }

  /** The check is complete on the list it is given: it passes exactly if the ids are pairwise distinct. */
  lemma CheckIsComplete(defs: seq<Def>)
    ensures CheckCollisions(defs) <==> DistinctIds(defs)
  {
    var ids := PackedIds(defs);
    assert DistinctIds(defs) <==> AllDiffer(ids) by {
      assert forall i :: 0 <= i < |ids| ==> ids[i] == MessageId(defs[i]);
    }
    if |defs| > 1 {
      PairsComplete(ids[0], ids[1], ids[2..]);
      assert ids == [ids[0], ids[1]] + ids[2..];
    }
  }

  // ------------------------------------------------------------------ the check against the numbered ids

  /** No group asks for two ids. */
  ghost predicate OneAutoEach(defs: seq<Def>) {
    forall i, j :: 0 <= i < j < |defs| && NeedsAutoId(defs[i]) && NeedsAutoId(defs[j]) ==> !SameGroup(defs[i], defs[j])
  }

  /** The list the check is given is the unnumbered one: it passes if and only if the manual ids of each group are
      distinct and no group asks for two ids. */
  lemma CheckPassesIff(defs: seq<Def>)
    requires HalfWords(defs)
    ensures CheckCollisions(defs) <==> ManualsDiffer(defs) && OneAutoEach(defs)
  {
    CheckIsComplete(defs);
    forall i, j | 0 <= i < j < |defs|
      ensures MessageId(defs[i]) == MessageId(defs[j]) <==> Clash(defs[i], defs[j])
    {
      PackInjective(defs[i], defs[j]);
    }
    if DistinctIds(defs) {
      assert forall i, j :: 0 <= i < j < |defs| ==> !Clash(defs[i], defs[j]);
    }
  }

  /** A group that asks for one id has room for it. */
  lemma {:induction false} OneAutoRuns(defs: seq<Def>, d: Def)
    requires OneAutoEach(defs)
    ensures Running(defs, d) <= 0x8000
    ensures NoAutos(defs, d) ==> Running(defs, d) <= MAX_MESSAGE_ID
  {
    if defs != [] {
      var n := |defs| - 1;
      OneAutoRuns(defs[..n], d);
      if SameGroup(defs[n], d) && NeedsAutoId(defs[n]) {
        assert NoAutos(defs[..n], d);
      }
    }
  }

  lemma OneAutoFits(defs: seq<Def>)
    requires OneAutoEach(defs)
    ensures NoOverflow(defs)
  {
    forall i | 0 <= i < |defs|
      ensures Running(defs, defs[i]) <= 0x8000
    {
      OneAutoRuns(defs, defs[i]);
    }
  }

  /** The check passes a list whose numbered ids collide if and only if its only faults are manual ids that are the
      number of an automatic definition or of a reply. */
  lemma CheckAcceptsCollisionIff(defs: seq<Def>)
    requires HalfWords(defs) && RequestsFit(defs)
    ensures CheckCollisions(defs) && !DistinctIds(Processed(defs))
            <==> ManualsDiffer(defs) && OneAutoEach(defs) && !(NoRepeat(defs) && NoReplyRepeat(defs))
  {
    CheckPassesIff(defs);
    IdsDistinctIff(defs);
    if OneAutoEach(defs) { OneAutoFits(defs); }
  }

  /** It fails a list whose numbered ids are distinct if and only if some group asks for two ids and nothing is wrong. */
  lemma CheckRejectsDistinctIff(defs: seq<Def>)
    requires HalfWords(defs) && RequestsFit(defs)
    ensures !CheckCollisions(defs) && DistinctIds(Processed(defs))
            <==> && !OneAutoEach(defs)
                 && ManualsDiffer(defs) && NoOverflow(defs) && NoRepeat(defs) && NoReplyRepeat(defs)
  {
    CheckPassesIff(defs);
    IdsDistinctIff(defs);
  }

  /** With the manual ids first the check never passes a collision, and its verdict is right if and only if every group
      asks for at most one id or some group lacks room. */
  lemma CheckRightIffManualFirst(defs: seq<Def>)
    requires ManualFirst(defs) && RequestsFit(defs)
    ensures CheckCollisions(defs) <==> OneAutoEach(defs)
    ensures CheckCollisions(defs) ==> DistinctIds(Processed(defs))
    ensures (CheckCollisions(defs) <==> DistinctIds(Processed(defs))) <==> OneAutoEach(defs) || !Room(defs)
  {
    CheckPassesIff(defs);
    ManualFirstDistinctIff(defs);
    RoomIsNoOverflow(defs);
    if OneAutoEach(defs) { OneAutoFits(defs); }
  }

  /** A list that passes the check and collides once numbered: an automatic definition, then manual id 1. */
  lemma CheckPassesCollision(p: nat, q: nat)
    ensures var defs := [Def(p, 1, 0, 0, None), Def(q, 1, 0, 1, None)];
            CheckCollisions(defs) && !DistinctIds(Processed(defs))
  {
    var defs := [Def(p, 1, 0, 0, None), Def(q, 1, 0, 1, None)];
    CheckPassesIff(defs);
    LateManualCollides(p, q);
  }

  lemma TwoAutos(a: Def, b: Def, d: Def)
    requires SameGroup(a, d) && SameGroup(b, d) && NeedsAutoId(a) && NeedsAutoId(b)
    ensures MaxManual([a, b], d) == 0 && Autos([a, b], d) == 2
  {
    assert [a, b][..1] == [a] && [a][..0] == [];
    assert MaxManual([a], d) == 0 && Autos([a], d) == 1;
  }

  /** Lists that fail the check although their numbered ids differ: two automatic definitions of one group. */
  lemma CheckSeesUnnumberedIds(a: Def, b: Def)
    requires a.reply == b.reply == None && SameGroup(a, b) && NeedsAutoId(a) && NeedsAutoId(b)
    ensures !CheckCollisions([a, b]) && DistinctIds(Processed([a, b]))
  {
    var defs := [a, b];
    CheckPassesIff(defs);
    assert SameGroup(defs[0], defs[1]);
    TwoAutos(a, b, a);
    TwoAutos(a, b, b);
    IdsDistinct(defs);
  }
}
