/** Message identifiers: automatic numbering, replies, 32-bit packing, and when they are all different. */
module MessageIds {
  import opened Wrappers
  import opened Bytes
  import opened Bits

  const MAX_MESSAGE_ID := 0x7FFF

  /** A MessageDefinition: payload type, group, 16-bit id (0 asks for one), and the reply's payload type if any. */
  datatype Def = Def(payload: nat, prefix: Byte, subprefix: Byte, id: nat, reply: Option<nat>)

  predicate NeedsAutoId(d: Def) { d.id == 0 }

  /** A negative 16-bit id of a definition that is not itself a request. */
  predicate IsReply(d: Def) { d.reply.None? && d.id >= 0x8000 }

  predicate SameGroup(a: Def, b: Def) { a.prefix == b.prefix && a.subprefix == b.subprefix }

  /** static_cast<uint16_t>(-static_cast<int16_t>(id)) */
  function Negated(id: nat): nat { (0x1_0000 - id) % 0x1_0000 }

  function ReplyDef(d: Def): Def
    requires d.reply.Some?
  {
    Def(d.reply.value, d.prefix, d.subprefix, Negated(d.id), None)
  }

  /** request_id: which request a reply answers. */
  function RequestId(d: Def): nat { if IsReply(d) then Negated(d.id) else 0 }

  function MakeMessageId(prefix: Byte, subprefix: Byte, id: nat): nat {
    Or(Or(prefix * Pow2(24), subprefix * Pow2(16)), id)
  }

  function MessageId(d: Def): nat { MakeMessageId(d.prefix, d.subprefix, d.id) }

  // ------------------------------------------------------------------ the computation

  /** The highest id so far in d's group, replies aside. */
  function HighestId(done: seq<Def>, d: Def): nat {
    if done == [] then 0
    else
      var max, p := HighestId(done[..|done| - 1], d), done[|done| - 1];
      if SameGroup(p, d) && !IsReply(p) && p.id > max then p.id else max
  }

  function Numbered(done: seq<Def>, d: Def): Def {
    if NeedsAutoId(d) then d.(id := HighestId(done, d) + 1) else d
  }

  function AssignFrom(done: seq<Def>, rest: seq<Def>): seq<Def>
    decreases |rest|
  {
    if rest == [] then []
    else
      var d := Numbered(done, rest[0]);
      [d] + AssignFrom(done + [d], rest[1..])
  }

  function AutoAssignIds(defs: seq<Def>): seq<Def> { AssignFrom([], defs) }

  function ExpandReplies(defs: seq<Def>): seq<Def> {
    if defs == [] then []
    else (if defs[0].reply.Some? then [defs[0], ReplyDef(defs[0])] else [defs[0]]) + ExpandReplies(defs[1..])
  }

  function Processed(defs: seq<Def>): seq<Def> { ExpandReplies(AutoAssignIds(defs)) }

  // ------------------------------------------------------------------ the numbers in closed form

  function Min(a: nat, b: nat): nat { if a <= b then a else b }

  function Max(a: nat, b: nat): nat { if a >= b then a else b }

  /** How many definitions of d's group ask for an id. */
  function Autos(defs: seq<Def>, d: Def): nat {
    if defs == [] then 0
    else
      var p := defs[|defs| - 1];
      Autos(defs[..|defs| - 1], d) + if SameGroup(p, d) && NeedsAutoId(p) then 1 else 0
  }

  /** How far the numbering of d's group has got after the definitions, if it could go on without limit: the larger of
      the number of automatic ids and, over the positive manual ones, the id plus the automatic ids after it. */
  function Running(defs: seq<Def>, d: Def): nat {
    if defs == [] then 0
    else
      var before, p := Running(defs[..|defs| - 1], d), defs[|defs| - 1];
      if !SameGroup(p, d) || p.id > MAX_MESSAGE_ID then before
      else if NeedsAutoId(p) then before + 1
      else Max(before, p.id)
  }

  /** A manual id and the automatic ids of its group after it. */
  function Reach(defs: seq<Def>, m: nat, d: Def): nat
    requires m < |defs|
  {
    defs[m].id + Autos(defs[m + 1..], d)
  }

  ghost predicate ManualOf(defs: seq<Def>, m: nat, d: Def) {
    m < |defs| && SameGroup(defs[m], d) && 0 < defs[m].id <= MAX_MESSAGE_ID
  }

  lemma ReachGrows(defs: seq<Def>, m: nat, p: Def, d: Def)
    requires m < |defs|
    ensures Reach(defs + [p], m, d) == Reach(defs, m, d) + if SameGroup(p, d) && NeedsAutoId(p) then 1 else 0
  {
    var rest := defs[m + 1..];
    assert (defs + [p])[m + 1..] == rest + [p];
    assert (rest + [p])[..|rest|] == rest;
  }

  /** Running is that maximum: nothing exceeds it, and it is reached. */
  lemma {:induction false} RunningIsMax(defs: seq<Def>, d: Def)
    ensures Autos(defs, d) <= Running(defs, d)
    ensures forall m: nat :: ManualOf(defs, m, d) ==> Reach(defs, m, d) <= Running(defs, d)
    ensures Running(defs, d) == Autos(defs, d) || exists m: nat :: ManualOf(defs, m, d) && Running(defs, d) == Reach(defs, m, d)
  {
    if defs != [] {
      var front, p := defs[..|defs| - 1], defs[|defs| - 1];
      assert defs == front + [p];
      RunningIsMax(front, d);
      forall m: nat | ManualOf(defs, m, d)
        ensures Reach(defs, m, d) <= Running(defs, d)
      {
        if m < |front| {
          assert ManualOf(front, m, d);
          ReachGrows(front, m, p, d);
        }
      }
      RunningReached(front, p, d);
    }
  }

  lemma RunningReached(front: seq<Def>, p: Def, d: Def)
    requires || Running(front, d) == Autos(front, d)
             || exists m: nat :: ManualOf(front, m, d) && Running(front, d) == Reach(front, m, d)
    ensures var defs := front + [p];
            || Running(defs, d) == Autos(defs, d)
            || exists m: nat :: ManualOf(defs, m, d) && Running(defs, d) == Reach(defs, m, d)
  {
    var defs := front + [p];
    assert defs[..|front|] == front && defs[|front| + 1..] == [];
    if ManualOf(defs, |front|, d) && Running(defs, d) == p.id {
      assert Running(defs, d) == Reach(defs, |front|, d);
    } else if Running(front, d) != Autos(front, d) {
      var m: nat :| ManualOf(front, m, d) && Running(front, d) == Reach(front, m, d);
      ReachGrows(front, m, p, d);
      assert ManualOf(defs, m, d);
    }
  }

  /** Ids are 16-bit numbers. */
  ghost predicate HalfWords(defs: seq<Def>) {
    forall i :: 0 <= i < |defs| ==> defs[i].id < 0x1_0000
  }

  /** The id a definition ends up with after the given ones: its own, or the next of its group; but never past 0x8000,
      where the numbering gets stuck. */
  function NextId(before: seq<Def>, d: Def): nat {
    if NeedsAutoId(d) then Min(Running(before, d) + 1, 0x8000) else d.id
  }

  function ClosedId(defs: seq<Def>, i: nat): nat
    requires i < |defs|
  {
    NextId(defs[..i], defs[i])
  }

  function Closed(defs: seq<Def>): seq<Def> {
    seq(|defs|, i requires 0 <= i < |defs| => defs[i].(id := ClosedId(defs, i)))
  }

  /** Every request keeps an id of at most 0x7FFF; the compiler rejects the definition otherwise. */
  ghost predicate RequestsFit(defs: seq<Def>) {
    forall i {:trigger ClosedId(defs, i)} ::
      0 <= i < |defs| && defs[i].reply.Some? ==> ClosedId(defs, i) <= MAX_MESSAGE_ID
  }

  lemma {:induction false} SameGroupSame(defs: seq<Def>, d: Def, e: Def)
    requires SameGroup(d, e)
    ensures HighestId(defs, d) == HighestId(defs, e) && Running(defs, d) == Running(defs, e)
    ensures Autos(defs, d) == Autos(defs, e)
  {
    if defs != [] { SameGroupSame(defs[..|defs| - 1], d, e); }
  }

  /** The closed form of a list only looks back. */
  lemma ClosedPrefix(defs: seq<Def>, n: nat)
    requires n <= |defs|
    ensures Closed(defs)[..n] == Closed(defs[..n])
    ensures RequestsFit(defs) ==> RequestsFit(defs[..n])
  {
    forall i | 0 <= i < n
      ensures ClosedId(defs, i) == ClosedId(defs[..n], i)
    {
      assert defs[..n][..i] == defs[..i];
    }
  }

  lemma ClosedLast(front: seq<Def>, p: Def)
    ensures Closed(front + [p]) == Closed(front) + [p.(id := NextId(front, p))]
    ensures RequestsFit(front + [p]) && p.reply.Some? ==> NextId(front, p) <= MAX_MESSAGE_ID
  {
    var defs := front + [p];
    ClosedPrefix(defs, |front|);
    assert defs[..|front|] == front && defs[|front|] == p;
    assert ClosedId(defs, |front|) == NextId(front, p);
  }

  /** The highest id so far follows the closed form, for every group. */
  lemma {:induction false} HighestClosed(defs: seq<Def>, d: Def)
    requires RequestsFit(defs)
    ensures HighestId(Closed(defs), d) == Min(Running(defs, d), MAX_MESSAGE_ID)
  {
    if defs != [] {
      var front, p := defs[..|defs| - 1], defs[|defs| - 1];
      assert defs == front + [p];
      ClosedPrefix(defs, |front|);
      HighestClosed(front, d);
      ClosedLast(front, p);
      if SameGroup(p, d) { SameGroupSame(front, p, d); }
      OneMore(front, Closed(front), p, p.(id := NextId(front, p)), d);
    }
  }

  /** One definition more, numbered by the closed form, moves the highest id by the closed form. */
  lemma OneMore(defs: seq<Def>, done: seq<Def>, p: Def, q: Def, d: Def)
    requires HighestId(done, d) == Min(Running(defs, d), MAX_MESSAGE_ID)
    requires q.prefix == p.prefix && q.subprefix == p.subprefix && q.reply == p.reply
    requires SameGroup(p, d) ==> q.id == if NeedsAutoId(p) then Min(Running(defs, d) + 1, 0x8000) else p.id
    requires q.reply.Some? ==> q.id <= MAX_MESSAGE_ID
    ensures HighestId(done + [q], d) == Min(Running(defs + [p], d), MAX_MESSAGE_ID)
  {
    assert (done + [q])[..|done|] == done && (defs + [p])[..|defs|] == defs;
  }

  lemma NumberedClosed(defs: seq<Def>, n: nat)
    requires RequestsFit(defs) && n < |defs|
    ensures Numbered(Closed(defs)[..n], defs[n]) == Closed(defs)[n]
  {
    ClosedPrefix(defs, n);
    HighestClosed(defs[..n], defs[n]);
  }

  lemma {:induction false} AssignIsClosed(defs: seq<Def>, n: nat)
    requires RequestsFit(defs) && n <= |defs|
    ensures AssignFrom(Closed(defs)[..n], defs[n..]) == Closed(defs)[n..]
    decreases |defs| - n
  {
    if n < |defs| {
      var ds := Closed(defs);
      NumberedClosed(defs, n);
      AssignIsClosed(defs, n + 1);
      assert ds[..n] + [ds[n]] == ds[..n + 1] && ds[n..] == [ds[n]] + ds[n + 1..];
      assert defs[n..][0] == defs[n] && defs[n..][1..] == defs[n + 1..];
    }
  }

  // ------------------------------------------------------------------ packing

  lemma PackIsSum(prefix: Byte, subprefix: Byte, id: nat)
    requires id < 0x1_0000
    ensures MakeMessageId(prefix, subprefix, id) == prefix * 0x100_0000 + subprefix * 0x1_0000 + id
  {
    assert Pow2(4) == 16;
    Pow2Splits(4, 8);
    Pow2Splits(8, 16);
    Pow2Splits(8, 24);
    OrIsSum(prefix, 24, subprefix * 0x1_0000);
    assert prefix * Pow2(24) + subprefix * 0x1_0000 == (prefix * 0x100 + subprefix) * Pow2(16);
    OrIsSum(prefix * 0x100 + subprefix, 16, id);
  }

  /** Packing is injective: equal 32-bit ids mean equal groups and equal 16-bit ids. */
  lemma PackInjective(a: Def, b: Def)
    requires a.id < 0x1_0000 && b.id < 0x1_0000
    ensures MessageId(a) == MessageId(b) <==> SameGroup(a, b) && a.id == b.id
    ensures MessageId(a) < 0x1_0000_0000
  {
    PackIsSum(a.prefix, a.subprefix, a.id);
    PackIsSum(b.prefix, b.subprefix, b.id);
  }

  // ------------------------------------------------------------------ when the assigned ids differ

  ghost predicate Clash(a: Def, b: Def) { SameGroup(a, b) && a.id == b.id }

  ghost predicate NoClash(ds: seq<Def>) {
    forall i, j :: 0 <= i < j < |ds| ==> !Clash(ds[i], ds[j])
  }

  /** No two manual ids of a group are equal. */
  ghost predicate ManualsDiffer(defs: seq<Def>) {
    forall i, j :: 0 <= i < j < |defs| && !NeedsAutoId(defs[i]) ==> !Clash(defs[i], defs[j])
  }

  /** The numbering of no group that asks for ids goes past 0x8000. */
  ghost predicate NoOverflow(defs: seq<Def>) {
    forall i :: 0 <= i < |defs| && NeedsAutoId(defs[i]) ==> Running(defs, defs[i]) <= 0x8000
  }

  /** No manual id is the number of an automatic definition of its group.  This can only happen to one listed before
      it, or to the number 0x8000. */
  ghost predicate NoRepeat(defs: seq<Def>) {
    forall i, j :: 0 <= i < |defs| && 0 <= j < |defs| && NeedsAutoId(defs[i]) && !NeedsAutoId(defs[j])
                   && SameGroup(defs[i], defs[j]) && (i < j || defs[j].id == 0x8000) ==>
                     ClosedId(defs, i) != defs[j].id
  }

  /** No manual id is the number of a reply in its group. */
  ghost predicate NoReplyRepeat(defs: seq<Def>) {
    forall i, j :: 0 <= i < |defs| && 0 <= j < |defs| && defs[i].reply.Some? && !NeedsAutoId(defs[j])
                   && SameGroup(defs[i], defs[j]) ==>
                     Negated(ClosedId(defs, i)) != defs[j].id
  }

  /** The numbering of a group only goes up, and past whatever id it meets. */
  lemma {:induction false} RunningGrows(defs: seq<Def>, i: nat, n: nat, d: Def)
    requires i < n <= |defs|
    ensures Running(defs[..i], d) <= Running(defs[..n], d)
    ensures SameGroup(defs[i], d) && defs[i].id <= MAX_MESSAGE_ID ==>
              (if NeedsAutoId(defs[i]) then Running(defs[..i], d) + 1 else defs[i].id) <= Running(defs[..n], d)
  {
    assert defs[..n][..n - 1] == defs[..n - 1];
    if i < n - 1 { RunningGrows(defs, i, n - 1, d); }
  }

  lemma ClosedApart(defs: seq<Def>, i: nat, j: nat)
    requires ManualsDiffer(defs) && NoOverflow(defs) && NoRepeat(defs)
    requires i < j < |defs| && SameGroup(defs[i], defs[j])
    ensures ClosedId(defs, i) != ClosedId(defs, j)
  {
    SameGroupSame(defs[..i], defs[i], defs[j]);
    if NeedsAutoId(defs[j]) {
      RunningGrows(defs, i, j, defs[j]);
      RunningGrows(defs, j, |defs|, defs[j]);
      assert defs[..|defs|] == defs;
    } else {
      assert NeedsAutoId(defs[i]) || !Clash(defs[i], defs[j]);
    }
  }

  /** A numbering that passed 0x7FFF did so at a definition that got 0x8000. */
  lemma {:induction false} FirstOver(defs: seq<Def>, d: Def) returns (i: nat)
    requires Running(defs, d) >= 0x8000
    ensures i < |defs| && NeedsAutoId(defs[i]) && SameGroup(defs[i], d) && Running(defs[..i], d) == 0x7FFF
  {
    var n := |defs| - 1;
    if Running(defs[..n], d) >= 0x8000 {
      i := FirstOver(defs[..n], d);
      assert defs[..n][..i] == defs[..i];
    } else {
      i := n;
    }
  }

  /** In a group that overflows, two automatic ids are 0x8000. */
  lemma {:induction false} OverflowClashes(defs: seq<Def>, d: Def) returns (a: nat, b: nat)
    requires Running(defs, d) > 0x8000
    ensures a < b < |defs| && SameGroup(defs[a], d) && SameGroup(defs[b], d)
    ensures ClosedId(defs, a) == ClosedId(defs, b) == 0x8000
  {
    var n := |defs| - 1;
    if Running(defs[..n], d) > 0x8000 {
      a, b := OverflowClashes(defs[..n], d);
      assert defs[..n][..a] == defs[..a] && defs[..n][..b] == defs[..b];
    } else {
      a := FirstOver(defs[..n], d);
      b := n;
      assert defs[..n][..a] == defs[..a];
      SameGroupSame(defs[..a], defs[a], d);
      SameGroupSame(defs[..b], defs[b], d);
    }
  }

  /** The three ways in which numbered ids can clash. */
  lemma ClosedClashes(defs: seq<Def>) returns (i: nat, j: nat)
    requires !(ManualsDiffer(defs) && NoOverflow(defs) && NoRepeat(defs))
    ensures i < |defs| && j < |defs| && i != j && Clash(Closed(defs)[i], Closed(defs)[j])
  {
    if !ManualsDiffer(defs) {
      i, j :| 0 <= i < j < |defs| && !NeedsAutoId(defs[i]) && Clash(defs[i], defs[j]);
    } else if !NoOverflow(defs) {
      var k :| 0 <= k < |defs| && NeedsAutoId(defs[k]) && Running(defs, defs[k]) > 0x8000;
      i, j := OverflowClashes(defs, defs[k]);
    } else {
      i, j :| 0 <= i < |defs| && 0 <= j < |defs| && NeedsAutoId(defs[i]) && !NeedsAutoId(defs[j])
              && SameGroup(defs[i], defs[j]) && ClosedId(defs, i) == defs[j].id;
    }
  }

  lemma ClosedNoClashIff(defs: seq<Def>)
    ensures NoClash(Closed(defs)) <==> ManualsDiffer(defs) && NoOverflow(defs) && NoRepeat(defs)
  {
    var ds := Closed(defs);
    if ManualsDiffer(defs) && NoOverflow(defs) && NoRepeat(defs) {
      forall i, j | 0 <= i < j < |ds|
        ensures !Clash(ds[i], ds[j])
      {
        if SameGroup(defs[i], defs[j]) { ClosedApart(defs, i, j); }
      }
    } else {
      var i, j := ClosedClashes(defs);
      assert Clash(ds[if i < j then i else j], ds[if i < j then j else i]);
    }
  }

  // ------------------------------------------------------------------ replies

  /** Ids as the assignment leaves them: nonzero 16-bit numbers, those of requests at most 0x7FFF. */
  ghost predicate AssignedRange(ds: seq<Def>) {
    forall i :: 0 <= i < |ds| ==> 0 < ds[i].id < 0x1_0000 && (ds[i].reply.Some? ==> ds[i].id <= MAX_MESSAGE_ID)
  }

  ghost predicate ReplyClash(a: Def, b: Def) { a.reply.Some? && Clash(ReplyDef(a), b) }

  /** No reply gets an id that is listed. */
  ghost predicate NoReplyClash(ds: seq<Def>) {
    forall i, j :: 0 <= i < |ds| && 0 <= j < |ds| ==> !ReplyClash(ds[i], ds[j])
  }

  /** Where an expanded definition comes from. */
  ghost predicate From(x: Def, d: Def) { x == d || (d.reply.Some? && x == ReplyDef(d)) }

  lemma {:induction false} ExpandedFrom(ds: seq<Def>, k: nat) returns (i: nat)
    requires k < |ExpandReplies(ds)|
    ensures i < |ds| && From(ExpandReplies(ds)[k], ds[i])
  {
    var m := if ds[0].reply.Some? then 2 else 1;
    if k < m {
      i := 0;
    } else {
      i := ExpandedFrom(ds[1..], k - m);
      i := i + 1;
    }
  }

  /** Definitions that do not clash, replies included, do not clash when expanded. */
  lemma FromApart(x: Def, y: Def, a: Def, b: Def)
    requires AssignedRange([a, b]) && From(x, a) && From(y, b)
    requires !Clash(a, b) && !ReplyClash(a, b) && !ReplyClash(b, a)
    ensures !Clash(x, y)
  {
    assert [a, b][0] == a && [a, b][1] == b;
  }

  lemma {:induction false} ExpandNoClash(ds: seq<Def>)
    requires AssignedRange(ds) && NoClash(ds) && NoReplyClash(ds)
    ensures NoClash(ExpandReplies(ds))
  {
    if ds != [] {
      var d, rest := ds[0], ExpandReplies(ds[1..]);
      ExpandNoClash(ds[1..]);
      var xs := ExpandReplies(ds);
      var m := if d.reply.Some? then 2 else 1;
      forall i, j | 0 <= i < j < |xs|
        ensures !Clash(xs[i], xs[j])
      {
        if i < m <= j {
          var k := ExpandedFrom(ds[1..], j - m);
          assert !Clash(ds[0], ds[k + 1]) && !ReplyClash(ds[0], ds[k + 1]) && !ReplyClash(ds[k + 1], ds[0]);
          FromApart(xs[i], xs[j], ds[0], ds[k + 1]);
        } else if i >= m {
          assert !Clash(rest[i - m], rest[j - m]);
        } else {
          assert !ReplyClash(ds[0], ds[0]);
        }
      }
    }
  }

  /** Where the i-th definition stands after expansion; its reply, if any, comes next. */
  ghost function Place(ds: seq<Def>, i: nat): (k: nat)
    requires i < |ds|
    ensures k < |ExpandReplies(ds)| && ExpandReplies(ds)[k] == ds[i]
    ensures ds[i].reply.Some? ==> k + 1 < |ExpandReplies(ds)| && ExpandReplies(ds)[k + 1] == ReplyDef(ds[i])
  {
    if i == 0 then 0 else (if ds[0].reply.Some? then 2 else 1) + Place(ds[1..], i - 1)
  }

  lemma {:induction false} PlaceGrows(ds: seq<Def>, i: nat, j: nat)
    requires i < j < |ds|
    ensures Place(ds, i) + (if ds[i].reply.Some? then 2 else 1) <= Place(ds, j)
  {
    if i > 0 { PlaceGrows(ds[1..], i - 1, j - 1); }
  }

  lemma ReplyPlaced(ds: seq<Def>, i: nat, j: nat)
    requires i < |ds| && j < |ds| && ds[i].reply.Some?
    ensures Place(ds, i) + 1 != Place(ds, j)
  {
    if i < j { PlaceGrows(ds, i, j); }
    if j < i { PlaceGrows(ds, j, i); }
  }

  lemma ExpandNoClashIff(ds: seq<Def>)
    requires AssignedRange(ds)
    ensures NoClash(ExpandReplies(ds)) <==> NoClash(ds) && NoReplyClash(ds)
  {
    var xs := ExpandReplies(ds);
    if NoClash(ds) && NoReplyClash(ds) {
      ExpandNoClash(ds);
    } else if !NoClash(ds) {
      var i, j :| 0 <= i < j < |ds| && Clash(ds[i], ds[j]);
      PlaceGrows(ds, i, j);
      assert Clash(xs[Place(ds, i)], xs[Place(ds, j)]);
    } else {
      var i, j :| 0 <= i < |ds| && 0 <= j < |ds| && ReplyClash(ds[i], ds[j]);
      ReplyPlaced(ds, i, j);
      var p, q := Place(ds, i) + 1, Place(ds, j);
      assert Clash(xs[if p < q then p else q], xs[if p < q then q else p]);
    }
  }

  // ------------------------------------------------------------------ the theorem

  ghost predicate DistinctIds(ds: seq<Def>) {
    forall i, j :: 0 <= i < j < |ds| ==> MessageId(ds[i]) != MessageId(ds[j])
  }

  lemma ExpandedRange(ds: seq<Def>, k: nat)
    requires AssignedRange(ds) && k < |ExpandReplies(ds)|
    ensures ExpandReplies(ds)[k].id < 0x1_0000
  {
    var i := ExpandedFrom(ds, k);
  }

  lemma ClosedRange(defs: seq<Def>)
    requires HalfWords(defs) && RequestsFit(defs)
    ensures AssignedRange(Closed(defs))
  {
  }

  lemma AssignedClosed(defs: seq<Def>)
    requires RequestsFit(defs)
    ensures AutoAssignIds(defs) == Closed(defs)
  {
    AssignIsClosed(defs, 0);
    assert Closed(defs)[..0] == [] && defs[0..] == defs && Closed(defs)[0..] == Closed(defs);
  }

  /** An automatic number is never that of a reply: only manual ids can be. */
  lemma NoReplyClashIff(defs: seq<Def>)
    requires HalfWords(defs) && RequestsFit(defs)
    ensures NoReplyClash(Closed(defs)) <==> NoReplyRepeat(defs)
  {
    var ds := Closed(defs);
    ClosedRange(defs);
    forall i, j | 0 <= i < |ds| && 0 <= j < |ds|
      ensures ReplyClash(ds[i], ds[j]) <==> (&& defs[i].reply.Some? && !NeedsAutoId(defs[j]) && SameGroup(defs[i], defs[j])
                                             && Negated(ClosedId(defs, i)) == defs[j].id)
    {
      assert ds[i].id == ClosedId(defs, i) && ds[j].id == ClosedId(defs, j);
    }
  }

  /** For every list of definitions whose requests get ids the compiler accepts, in any order: the processed 32-bit ids
      are pairwise distinct if and only if the manual ids of each group are, no group's numbering goes past 0x8000, and
      no manual id is the number of an automatic definition or of a reply. */
  lemma IdsDistinctIff(defs: seq<Def>)
    requires HalfWords(defs) && RequestsFit(defs)
    ensures DistinctIds(Processed(defs))
            <==> ManualsDiffer(defs) && NoOverflow(defs) && NoRepeat(defs) && NoReplyRepeat(defs)
  {
    AssignedClosed(defs);
    var ds := Closed(defs);
    var xs := ExpandReplies(ds);
    ClosedRange(defs);
    ExpandNoClashIff(ds);
    ClosedNoClashIff(defs);
    NoReplyClashIff(defs);
    forall i, j | 0 <= i < j < |xs|
      ensures MessageId(xs[i]) == MessageId(xs[j]) <==> Clash(xs[i], xs[j])
    {
      ExpandedRange(ds, i);
      ExpandedRange(ds, j);
      PackInjective(xs[i], xs[j]);
    }
  }

  // ------------------------------------------------------------------ positive manual ids

  /** Manual ids, where given, lie in 1..0x7FFF. */
  ghost predicate ManualsFit(defs: seq<Def>) {
    forall i :: 0 <= i < |defs| ==> defs[i].id <= MAX_MESSAGE_ID
  }

  /** No manual id is the number of an automatic definition listed before it in its group. */
  ghost predicate NoLateRepeat(defs: seq<Def>) {
    forall i, j :: 0 <= i < j < |defs| && NeedsAutoId(defs[i]) && !NeedsAutoId(defs[j]) && SameGroup(defs[i], defs[j]) ==>
                     Running(defs[..i], defs[i]) + 1 != defs[j].id
  }

  lemma RepliesAbove(defs: seq<Def>, i: nat)
    requires RequestsFit(defs) && i < |defs| && defs[i].reply.Some?
    ensures Negated(ClosedId(defs, i)) > MAX_MESSAGE_ID
  {
  }

  lemma PositiveNoReplyRepeat(defs: seq<Def>)
    requires ManualsFit(defs) && RequestsFit(defs)
    ensures NoReplyRepeat(defs)
  {
    forall i | 0 <= i < |defs| && defs[i].reply.Some?
      ensures Negated(ClosedId(defs, i)) > MAX_MESSAGE_ID
    {
      RepliesAbove(defs, i);
    }
  }

  lemma PositiveNoRepeat(defs: seq<Def>)
    requires ManualsFit(defs)
    ensures NoRepeat(defs) <==> NoLateRepeat(defs)
  {
    forall i, j | 0 <= i < j < |defs| && NeedsAutoId(defs[i])
      ensures ClosedId(defs, i) == defs[j].id <==> Running(defs[..i], defs[i]) + 1 == defs[j].id
    {
    }
  }

  /** With manual ids of 1..0x7FFF, replies never clash, and only the automatic numbers listed before a manual id can. */
  lemma PositiveIdsDistinctIff(defs: seq<Def>)
    requires ManualsFit(defs) && RequestsFit(defs)
    ensures DistinctIds(Processed(defs)) <==> ManualsDiffer(defs) && NoOverflow(defs) && NoLateRepeat(defs)
  {
    IdsDistinctIff(defs);
    PositiveNoReplyRepeat(defs);
    PositiveNoRepeat(defs);
  }

  // ------------------------------------------------------------------ positive manual ids listed first

  /** The highest manual id among the definitions of d's group, 0 if there is none. */
  function MaxManual(defs: seq<Def>, d: Def): nat {
    if defs == [] then 0
    else
      var max, p := MaxManual(defs[..|defs| - 1], d), defs[|defs| - 1];
      if SameGroup(p, d) && p.id > max then p.id else max
  }

  /** In each group the manual ids are distinct, lie in 1..0x7FFF and come before the automatic ones. */
  ghost predicate ManualFirst(defs: seq<Def>) {
    && ManualsFit(defs) && ManualsDiffer(defs)
    && forall i, j :: 0 <= i < j < |defs| && SameGroup(defs[i], defs[j]) && NeedsAutoId(defs[i]) ==> NeedsAutoId(defs[j])
  }

  /** In every group that asks for ids, the highest manual id plus the number asked for stays within 0x8000. */
  ghost predicate Room(defs: seq<Def>) {
    forall i :: 0 <= i < |defs| && NeedsAutoId(defs[i]) ==> MaxManual(defs, defs[i]) + Autos(defs, defs[i]) <= 0x8000
  }

  ghost predicate NoAutos(defs: seq<Def>, d: Def) {
    forall i :: 0 <= i < |defs| && SameGroup(defs[i], d) ==> !NeedsAutoId(defs[i])
  }

  lemma {:induction false} NoAutosCounted(defs: seq<Def>, d: Def)
    requires NoAutos(defs, d)
    ensures Autos(defs, d) == 0
  {
    if defs != [] { NoAutosCounted(defs[..|defs| - 1], d); }
  }

  /** With the manual ids first, the numbering of a group is its highest manual id plus its automatic ones. */
  lemma {:induction false} RunningManualFirst(defs: seq<Def>, d: Def)
    requires ManualFirst(defs)
    ensures Running(defs, d) == MaxManual(defs, d) + Autos(defs, d)
  {
    if defs != [] {
      var n := |defs| - 1;
      var front, p := defs[..n], defs[n];
      RunningManualFirst(front, d);
      if SameGroup(p, d) && !NeedsAutoId(p) {
        assert NoAutos(front, d);
        NoAutosCounted(front, d);
      }
    }
  }

  lemma RoomIsNoOverflow(defs: seq<Def>)
    requires ManualFirst(defs)
    ensures Room(defs) <==> NoOverflow(defs)
    ensures NoLateRepeat(defs)
  {
    forall i | 0 <= i < |defs|
      ensures Running(defs, defs[i]) == MaxManual(defs, defs[i]) + Autos(defs, defs[i])
    {
      RunningManualFirst(defs, defs[i]);
    }
  }

  /** With the manual ids first only the room counts. */
  lemma ManualFirstDistinctIff(defs: seq<Def>)
    requires ManualFirst(defs) && RequestsFit(defs)
    ensures DistinctIds(Processed(defs)) <==> Room(defs)
  {
    PositiveIdsDistinctIff(defs);
    RoomIsNoOverflow(defs);
  }

  /** In particular the ids differ when every group stays within 0x7FFF, replies included. */
  lemma IdsDistinct(defs: seq<Def>)
    requires ManualFirst(defs)
    requires forall i :: 0 <= i < |defs| && NeedsAutoId(defs[i]) ==>
                           MaxManual(defs, defs[i]) + Autos(defs, defs[i]) <= MAX_MESSAGE_ID
    ensures RequestsFit(defs) && DistinctIds(Processed(defs))
  {
    forall i | 0 <= i < |defs| && NeedsAutoId(defs[i])
      ensures ClosedId(defs, i) <= MAX_MESSAGE_ID
    {
      RunningGrows(defs, i, |defs|, defs[i]);
      RunningManualFirst(defs, defs[i]);
      assert defs[..|defs|] == defs;
    }
    ManualFirstDistinctIff(defs);
  }

  /** Every request is listed with its number, and right after it, under the reply's own payload type, its reply: in the
      same group, with the negative of that number, and asking for no reply. */
  lemma RepliesListed(defs: seq<Def>, i: nat, t: nat) returns (k: nat)
    requires RequestsFit(defs) && i < |defs| && defs[i].reply == Some(t)
    ensures 0 < k < |Processed(defs)|
    ensures Processed(defs)[k - 1] == Def(defs[i].payload, defs[i].prefix, defs[i].subprefix, ClosedId(defs, i), Some(t))
    ensures Processed(defs)[k] == Def(t, defs[i].prefix, defs[i].subprefix, 0x1_0000 - ClosedId(defs, i), None)
  {
    AssignedClosed(defs);
    var d := Closed(defs)[i];
    assert d.id == ClosedId(defs, i);
    k := Place(Closed(defs), i) + 1;
  }

  /** A definition that asks for no reply is listed with its number and nothing else. */
  lemma OthersListed(defs: seq<Def>, i: nat) returns (k: nat)
    requires RequestsFit(defs) && i < |defs| && defs[i].reply.None?
    ensures k < |Processed(defs)|
    ensures Processed(defs)[k] == Def(defs[i].payload, defs[i].prefix, defs[i].subprefix, ClosedId(defs, i), None)
  {
    AssignedClosed(defs);
    k := Place(Closed(defs), i);
  }

  function Requests(defs: seq<Def>): nat {
    if defs == [] then 0 else (if defs[0].reply.Some? then 1 else 0) + Requests(defs[1..])
  }

  lemma {:induction false} ExpandedLength(ds: seq<Def>)
    ensures |ExpandReplies(ds)| == |ds| + Requests(ds)
  {
    if ds != [] { ExpandedLength(ds[1..]); }
  }

  lemma {:induction false} SameRequests(a: seq<Def>, b: seq<Def>)
    requires |a| == |b| && forall i :: 0 <= i < |a| ==> a[i].reply == b[i].reply
    ensures Requests(a) == Requests(b)
  {
    if a != [] { SameRequests(a[1..], b[1..]); }
  }

  /** And nothing else is listed: there are as many definitions as given ones and requests, and each is a given one with
      its number or the reply to one. */
  lemma NothingElseListed(defs: seq<Def>, k: nat) returns (i: nat)
    requires RequestsFit(defs) && k < |Processed(defs)|
    ensures |Processed(defs)| == |defs| + Requests(defs)
    ensures i < |defs|
    ensures var x, d := Processed(defs)[k], defs[i];
            || x == Def(d.payload, d.prefix, d.subprefix, ClosedId(defs, i), d.reply)
            || (d.reply.Some? && x == Def(d.reply.value, d.prefix, d.subprefix, 0x1_0000 - ClosedId(defs, i), None))
  {
    AssignedClosed(defs);
    ExpandedLength(Closed(defs));
    SameRequests(Closed(defs), defs);
    i := ExpandedFrom(Closed(defs), k);
    assert Closed(defs)[i].id == ClosedId(defs, i);
  }

  /** Every reply is recognised as one, and its id negates back to its request's. */
  lemma RepliesNegateBack(defs: seq<Def>, i: nat, t: nat) returns (k: nat)
    requires RequestsFit(defs) && i < |defs| && defs[i].reply == Some(t)
    ensures 0 < k < |Processed(defs)| && Processed(defs)[k].payload == t && SameGroup(Processed(defs)[k], defs[i])
    ensures IsReply(Processed(defs)[k]) && RequestId(Processed(defs)[k]) == Processed(defs)[k - 1].id
    ensures !IsReply(Processed(defs)[k - 1]) && RequestId(Processed(defs)[k - 1]) == 0
  {
    k := RepliesListed(defs, i, t);
    assert ClosedId(defs, i) <= MAX_MESSAGE_ID;
  }

  /** The static assertion made of each definition after it has been numbered. */
  predicate AutoIdAsserted(d: Def) { !NeedsAutoId(d) || d.id <= MAX_MESSAGE_ID }

  /** It never fires: a numbered definition no longer needs an id, so its number is not looked at. */
  lemma {:induction false} AssertionNeverFires(done: seq<Def>, rest: seq<Def>)
    ensures forall i :: 0 <= i < |AssignFrom(done, rest)| ==> AutoIdAsserted(AssignFrom(done, rest)[i])
    decreases |rest|
  {
    if rest != [] { AssertionNeverFires(done + [Numbered(done, rest[0])], rest[1..]); }
  }

  /** After manual id 0x7FFF two automatic definitions of the group both get 0x8000, and the assertion is silent. */
  lemma OverflowCollides(p: nat, q: nat, r: nat)
    ensures var ds := Processed([Def(p, 1, 0, 0x7FFF, None), Def(q, 1, 0, 0, None), Def(r, 1, 0, 0, None)]);
            && |ds| == 3 && ds[1].id == ds[2].id == 0x8000 && !DistinctIds(ds)
            && AutoIdAsserted(ds[1]) && AutoIdAsserted(ds[2])
  {
    var a, b, c := Def(p, 1, 0, 0x7FFF, None), Def(q, 1, 0, 0, None), Def(r, 1, 0, 0, None);
    var b', c' := b.(id := 0x8000), c.(id := 0x8000);
    assert [a][..0] == [] && [a, b'][..1] == [a];
    assert HighestId([a], b) == HighestId([a], c) == 0x7FFF;
    assert HighestId([a, b'], c) == 0x7FFF;
    assert [] + [a] == [a] && [a] + [b'] == [a, b'];
    assert [a, b, c][1..] == [b, c] && [b, c][1..] == [c] && [c][1..] == [];
    assert AssignFrom([a, b'], [c]) == [c'];
    assert AssignFrom([a], [b, c]) == [b', c'];
    assert AutoAssignIds([a, b, c]) == [a, b', c'];
    assert [a, b', c'][1..] == [b', c'] && [b', c'][1..] == [c'] && [c'][1..] == [];
    assert ExpandReplies([c']) == [c'] && ExpandReplies([b', c']) == [b', c'];
    assert Processed([a, b, c]) == [a, b', c'];
  }

  /** Order matters: a manual id listed after an automatic one can repeat it. */
  lemma LateManualCollides(p: nat, q: nat)
    ensures !DistinctIds(Processed([Def(p, 1, 0, 0, None), Def(q, 1, 0, 1, None)]))
  {
    var a, b := Def(p, 1, 0, 0, None), Def(q, 1, 0, 1, None);
    var a' := a.(id := 1);
    assert [a, b][1..] == [b] && [b][1..] == [] && [] + [a'] == [a'];
    assert AssignFrom([a'], [b]) == [b];
    assert AutoAssignIds([a, b]) == [a', b];
    assert [a', b][1..] == [b];
    assert ExpandReplies([b]) == [b];
    assert Processed([a, b]) == [a', b];
  }
}
