/** The cache of remote handles: stamped slots standing for a list of destinations, most recently used first. */
module RemoteCache {
  import opened Bytes

  // ------------------------------------------------------------------ lists

  function IndexOf<T(==)>(s: seq<T>, x: T): (k: nat)
    requires x in s
    ensures k < |s| && s[k] == x && x !in s[..k]
  {
    if s[0] == x then 0 else IndexOf(s[1..], x) + 1
  }

  /** The list with the first occurrence of x taken out. */
  function Without<T(==)>(s: seq<T>, x: T): seq<T> {
    if x in s then Removed(s, IndexOf(s, x)) else s
  }

  ghost predicate Distinct<T>(s: seq<T>) {
    forall i, j :: 0 <= i < j < |s| ==> s[i] != s[j]
  }

  lemma WithoutAt<T>(s: seq<T>, k: nat)
    requires Distinct(s) && k < |s|
    ensures Without(s, s[k]) == Removed(s, k)
  {
    assert IndexOf(s, s[k]) == k;
  }

  lemma WithoutDistinct<T>(s: seq<T>, x: T)
    requires Distinct(s)
    ensures Distinct([x] + Without(s, x))
  {
    if x in s { WithoutAt(s, IndexOf(s, x)); }
  }

  lemma {:induction false} DistinctCount<T>(s: seq<T>)
    requires Distinct(s)
    ensures |set x | x in s| == |s|
  {
    if s != [] {
      var front, last := s[..|s| - 1], s[|s| - 1];
      DistinctCount(front);
      assert s == front + [last];
      assert (set x | x in s) == (set x | x in front) + {last};
    }
  }

  ghost function Indices(n: nat): (r: set<nat>)
    ensures |r| == n && forall i :: i in r <==> 0 <= i < n
  {
    if n == 0 then {} else Indices(n - 1) + {n - 1}
  }

  function Removed<T>(s: seq<T>, k: nat): (r: seq<T>)
    requires k < |s|
    ensures |r| == |s| - 1
    ensures forall j :: 0 <= j < k ==> r[j] == s[j]
    ensures forall j :: k <= j < |r| ==> r[j] == s[j + 1]
  {
    s[..k] + s[k + 1..]
  }

  lemma RemovedMembers<T>(s: seq<T>, k: nat, x: T)
    requires Distinct(s) && k < |s|
    ensures x in Removed(s, k) <==> x in s && x != s[k]
  {
    if x in s && x != s[k] {
      var j :| 0 <= j < |s| && s[j] == x;
      assert Removed(s, k)[if j < k then j else j - 1] == x;
    }
  }

  // ------------------------------------------------------------------ the recency list

  /** One request on a cache of n handles; `opens` says whether opening the destination would succeed. */
  function Touch(l: seq<Word>, n: nat, dest: Word, opens: bool): (r: seq<Word>)
    requires n > 0
    ensures |l| <= n ==> |r| <= n
  {
    if dest in l then [dest] + Without(l, dest)
    else
      var room := if |l| < n then l else l[..n - 1];
      if opens then [dest] + room else room
  }

  /** Which destinations a request leaves cached, for every list, cache size and outcome of the open: the one requested
      if it was cached or opens, and every other one that was, except that a miss on a full cache gives up the last,
      even if the open then fails. */
  lemma TouchKeeps(l: seq<Word>, n: nat, dest: Word, opens: bool, x: Word)
    requires n > 0 && Distinct(l) && |l| <= n
    ensures x in Touch(l, n, dest, opens)
            <==> if x == dest then dest in l || opens
                 else x in l && !(dest !in l && |l| == n && x == l[n - 1])
    ensures |Touch(l, n, dest, opens)|
         == if dest in l then |l| else |l| - (if |l| == n then 1 else 0) + if opens then 1 else 0
    ensures dest in l || opens ==> Touch(l, n, dest, opens) != [] && Touch(l, n, dest, opens)[0] == dest
  {
    if dest in l {
      WithoutAt(l, IndexOf(l, dest));
      RemovedMembers(l, IndexOf(l, dest), x);
    } else if |l| == n {
      assert l == l[..n - 1] + [l[n - 1]];
    }
  }

  datatype Request = Request(dest: Word, opens: bool)

  function Run(n: nat, rs: seq<Request>): (l: seq<Word>)
    requires n > 0
    ensures |l| <= n
  {
    if rs == [] then [] else Touch(Run(n, rs[..|rs| - 1]), n, rs[|rs| - 1].dest, rs[|rs| - 1].opens)
  }

  /** The distinct destinations requested, most recent request first. */
  function Recent(rs: seq<Request>): seq<Word> {
    if rs == [] then [] else [rs[|rs| - 1].dest] + Without(Recent(rs[..|rs| - 1]), rs[|rs| - 1].dest)
  }

  lemma {:induction false} RecentDistinct(rs: seq<Request>)
    ensures Distinct(Recent(rs))
  {
    if rs != [] {
      RecentDistinct(rs[..|rs| - 1]);
      WithoutDistinct(Recent(rs[..|rs| - 1]), rs[|rs| - 1].dest);
    }
  }

  function Take(l: seq<Word>, n: nat): seq<Word> { if |l| <= n then l else l[..n] }

  /** Requesting from the n most recent leaves the n most recent. */
  lemma TouchTakes(l: seq<Word>, n: nat, d: Word)
    requires n > 0 && Distinct(l)
    ensures Touch(Take(l, n), n, d, true) == Take([d] + Without(l, d), n)
  {
    var t := Take(l, n);
    if d in t {
      var k := IndexOf(t, d);
      assert l[k] == d;
      WithoutAt(l, k);
      WithoutAt(t, k);
    } else if d in l {
      var k := IndexOf(l, d);
      assert k >= n;
      assert Without(l, d)[..n - 1] == l[..n - 1];
    }
  }

  /** When every open succeeds, the cache holds exactly the n most recently requested destinations. */
  lemma {:induction false} HoldsMostRecent(n: nat, rs: seq<Request>)
    requires n > 0 && forall i :: 0 <= i < |rs| ==> rs[i].opens
    ensures Run(n, rs) == Take(Recent(rs), n)
  {
    if rs != [] {
      HoldsMostRecent(n, rs[..|rs| - 1]);
      RecentDistinct(rs[..|rs| - 1]);
      TouchTakes(Recent(rs[..|rs| - 1]), n, rs[|rs| - 1].dest);
    }
  }

  /** So a larger max_remote_handles hits whenever a smaller one does. */
  lemma LargerCacheHits(n: nat, m: nat, rs: seq<Request>, d: Word)
    requires 0 < n <= m && forall i :: 0 <= i < |rs| ==> rs[i].opens
    ensures d in Run(n, rs) ==> d in Run(m, rs)
    ensures Run(n, rs) <= Run(m, rs)
  {
    HoldsMostRecent(n, rs);
    HoldsMostRecent(m, rs);
  }

  /** The position of the last request for d, or -1. */
  function LastRequest(rs: seq<Request>, d: Word): (i: int)
    ensures -1 <= i < |rs|
  {
    if rs == [] then -1 else if rs[|rs| - 1].dest == d then |rs| - 1 else LastRequest(rs[..|rs| - 1], d)
  }

  /** The destinations stand in the order of their last requests, most recent first; so each occurs once. */
  ghost predicate ByRecency(rs: seq<Request>, l: seq<Word>) {
    && (forall i :: 0 <= i < |l| ==> LastRequest(rs, l[i]) >= 0)
    && (forall i, j :: 0 <= i < j < |l| ==> LastRequest(rs, l[j]) < LastRequest(rs, l[i]))
  }

  lemma RecencyRemoved(rs: seq<Request>, l: seq<Word>, k: nat)
    requires ByRecency(rs, l) && k < |l|
    ensures ByRecency(rs, Removed(l, k)) && l[k] !in Removed(l, k)
  {
    assert forall j :: 0 <= j < |Removed(l, k)| ==> Removed(l, k)[j] == l[if j < k then j else j + 1];
  }

  lemma NewestFirst(rs: seq<Request>, r: Request, l: seq<Word>)
    requires ByRecency(rs, l) && r.dest !in l
    ensures ByRecency(rs + [r], l) && ByRecency(rs + [r], [r.dest] + l)
  {
    var rs' := rs + [r];
    assert rs'[..|rs|] == rs;
    assert forall i :: 0 <= i < |l| ==> LastRequest(rs', l[i]) == LastRequest(rs, l[i]);
    assert LastRequest(rs', r.dest) == |rs|;
  }

  lemma RecencyStep(rs: seq<Request>, r: Request, l: seq<Word>, n: nat)
    requires n > 0 && ByRecency(rs, l)
    ensures ByRecency(rs + [r], Touch(l, n, r.dest, r.opens))
  {
    if r.dest in l {
      RecencyRemoved(rs, l, IndexOf(l, r.dest));
      NewestFirst(rs, r, Without(l, r.dest));
    } else {
      NewestFirst(rs, r, if |l| < n then l else l[..n - 1]);
    }
  }

  /** Whatever opens succeed or fail, the handle given up (the last) is the one not asked for longest. */
  lemma {:induction false} CachedByRecency(n: nat, rs: seq<Request>)
    requires n > 0
    ensures ByRecency(rs, Run(n, rs))
  {
    if rs != [] {
      var front, r := rs[..|rs| - 1], rs[|rs| - 1];
      CachedByRecency(n, front);
      RecencyStep(front, r, Run(n, front), n);
      assert rs == front + [r];
    }
  }

  // ------------------------------------------------------------------ slots standing for the list

  /** `lastUsed` is 0 in an empty slot. */
  datatype Handle = Handle(dest: Word, valid: bool, lastUsed: nat)

  /** `order` lists the valid slots. */
  ghost predicate ListsValid(hs: seq<Handle>, order: seq<nat>) {
    && Distinct(order)
    && (forall k :: 0 <= k < |order| ==> order[k] < |hs| && hs[order[k]].valid)
    && (forall i :: 0 <= i < |hs| && hs[i].valid ==> i in order)
  }

  ghost function Stamps(hs: seq<Handle>, order: seq<nat>): seq<nat>
    requires ListsValid(hs, order)
  {
    seq(|order|, k requires 0 <= k < |order| => hs[order[k]].lastUsed)
  }

  ghost function Dests(hs: seq<Handle>, order: seq<nat>): seq<Word>
    requires ListsValid(hs, order)
  {
    seq(|order|, k requires 0 <= k < |order| => hs[order[k]].dest)
  }

  ghost predicate Falling(s: seq<nat>) {
    forall j, k :: 0 <= j < k < |s| ==> s[k] < s[j]
  }

  /** `order` lists the valid slots from the newest stamp to the oldest; no two of them serve one destination. */
  ghost predicate Ordered(hs: seq<Handle>, counter: nat, order: seq<nat>) {
    && ListsValid(hs, order)
    && Falling(Stamps(hs, order)) && (forall i :: 0 <= i < |order| ==> Stamps(hs, order)[i] <= counter)
    && Distinct(Dests(hs, order))
  }

  /** The list is full exactly when every slot is valid. */
  lemma FullIff(hs: seq<Handle>, order: seq<nat>)
    requires ListsValid(hs, order)
    ensures |order| <= |hs|
    ensures |order| == |hs| <==> forall i :: 0 <= i < |hs| ==> hs[i].valid
  {
    var all, used := Indices(|hs|), set i | i in order;
    DistinctCount(order);
    assert used <= all;
    assert |all - used| == |all| - |used|;
    if |order| == |hs| {
      assert all - used == {};
      forall i | 0 <= i < |hs|
        ensures hs[i].valid
      {
        assert i in all && i in used;
      }
    } else {
      var i :| i in all - used;
    }
  }

  lemma RefreshLists(hs: seq<Handle>, order: seq<nat>, k: nat, h: Handle)
    requires ListsValid(hs, order) && k < |order| && h.valid
    ensures ListsValid(hs[order[k] := h], [order[k]] + Removed(order, k))
  {
    forall x | 0 <= x < |hs| && hs[x].valid && x != order[k]
      ensures x in Removed(order, k)
    {
      RemovedMembers(order, k, x);
    }
  }

  /** Where the entries of the new order come from. */
  lemma RefreshAt(hs: seq<Handle>, order: seq<nat>, k: nat, h: Handle, j: nat)
    requires ListsValid(hs, order) && k < |order| && j < |order|
    ensures var i := ([order[k]] + Removed(order, k))[j];
            i < |hs| && hs[order[k] := h][i] == if j == 0 then h else hs[order[if j <= k then j - 1 else j]]
  {
  }

  lemma RefreshDests(hs: seq<Handle>, order: seq<nat>, k: nat, h: Handle)
    requires ListsValid(hs, order) && k < |order| && ListsValid(hs[order[k] := h], [order[k]] + Removed(order, k))
    ensures Dests(hs[order[k] := h], [order[k]] + Removed(order, k)) == [h.dest] + Removed(Dests(hs, order), k)
  {
    var a, b := Dests(hs[order[k] := h], [order[k]] + Removed(order, k)), [h.dest] + Removed(Dests(hs, order), k);
    forall j | 0 <= j < |order|
      ensures a[j] == b[j]
    {
      RefreshAt(hs, order, k, h, j);
    }
  }

  lemma RefreshStamps(hs: seq<Handle>, order: seq<nat>, k: nat, h: Handle)
    requires ListsValid(hs, order) && k < |order| && ListsValid(hs[order[k] := h], [order[k]] + Removed(order, k))
    ensures Stamps(hs[order[k] := h], [order[k]] + Removed(order, k)) == [h.lastUsed] + Removed(Stamps(hs, order), k)
  {
    var a, b := Stamps(hs[order[k] := h], [order[k]] + Removed(order, k)), [h.lastUsed] + Removed(Stamps(hs, order), k);
    forall j | 0 <= j < |order|
      ensures a[j] == b[j]
    {
      RefreshAt(hs, order, k, h, j);
    }
  }

  lemma FallingRemoved(s: seq<nat>, k: nat, x: nat)
    requires Falling(s) && k < |s| && forall i :: 0 <= i < |s| ==> s[i] < x
    ensures Falling([x] + Removed(s, k)) && forall i :: 0 <= i < |s| ==> ([x] + Removed(s, k))[i] <= x
  {
    assert forall j :: 0 <= j < |Removed(s, k)| ==> Removed(s, k)[j] == s[if j < k then j else j + 1];
  }

  lemma RefreshKeeps(hs: seq<Handle>, counter: nat, order: seq<nat>, k: nat, h: Handle)
    requires Ordered(hs, counter, order) && k < |order|
    requires h == hs[order[k]].(lastUsed := counter + 1)
    ensures Ordered(hs[order[k] := h], counter + 1, [order[k]] + Removed(order, k))
    ensures Dests(hs[order[k] := h], [order[k]] + Removed(order, k)) == [h.dest] + Without(Dests(hs, order), h.dest)
  {
    RefreshLists(hs, order, k, h);
    RefreshDests(hs, order, k, h);
    RefreshStamps(hs, order, k, h);
    WithoutAt(Dests(hs, order), k);
    WithoutDistinct(Dests(hs, order), h.dest);
    FallingRemoved(Stamps(hs, order), k, counter + 1);
  }

  lemma FillKeeps(hs: seq<Handle>, counter: nat, order: seq<nat>, i: nat, dest: Word)
    requires Ordered(hs, counter, order) && i < |hs| && !hs[i].valid && dest !in Dests(hs, order)
    ensures Ordered(hs[i := Handle(dest, true, counter + 1)], counter + 1, [i] + order)
    ensures Dests(hs[i := Handle(dest, true, counter + 1)], [i] + order) == [dest] + Dests(hs, order)
  {
    var hs', order' := hs[i := Handle(dest, true, counter + 1)], [i] + order;
    assert i !in order && Distinct(order');
    assert ListsValid(hs', order');
    assert Dests(hs', order') == [dest] + Dests(hs, order);
    assert Stamps(hs', order') == [counter + 1] + Stamps(hs, order);
  }

  lemma CloseKeeps(hs: seq<Handle>, counter: nat, order: seq<nat>)
    requires Ordered(hs, counter, order) && order != []
    ensures var n := |order| - 1;
            var hs' := hs[order[n] := Handle(0, false, 0)];
            Ordered(hs', counter, order[..n]) && Dests(hs', order[..n]) == Dests(hs, order)[..n]
  {
    var n := |order| - 1;
    var hs' := hs[order[n] := Handle(0, false, 0)];
    assert order == order[..n] + [order[n]];
    assert ListsValid(hs', order[..n]);
    assert Dests(hs', order[..n]) == Dests(hs, order)[..n];
    assert Stamps(hs', order[..n]) == Stamps(hs, order)[..n];
  }

  // ------------------------------------------------------------------ the code

  class Cache {
    const handles: array<Handle>
    var counter: nat
    /** The valid slots, most recently used first. */
    ghost var order: seq<nat>

    ghost predicate Valid()
      reads this, handles
    {
      handles.Length > 0 && Ordered(handles[..], counter, order)
    }

    ghost function Contents(): seq<Word>
      requires Valid()
      reads this, handles
    {
      Dests(handles[..], order)
    }

    /** max_remote_handles, or 16 if that is zero. */
    constructor (maxHandles: nat)
      ensures Valid() && Contents() == [] && handles.Length == (if maxHandles > 0 then maxHandles else 16)
      ensures fresh(handles)
    {
      handles := new Handle[if maxHandles > 0 then maxHandles else 16](_ => Handle(0, false, 0));
      counter, order := 0, [];
    }

    method FindDest(dest: Word) returns (i: int)
      requires Valid()
      ensures -1 <= i < handles.Length && (i >= 0 <==> dest in Contents())
      ensures i >= 0 ==> handles[i].valid && handles[i].dest == dest
    {
      for k := 0 to handles.Length
        invariant forall j :: 0 <= j < k ==> !(handles[j].valid && handles[j].dest == dest)
      {
        if handles[k].valid && handles[k].dest == dest {
          assert handles[..][k].valid && k in order;
          ghost var n :| 0 <= n < |order| && order[n] == k;
          assert Contents()[n] == dest;
          return k;
        }
      }
      forall n | 0 <= n < |order|
        ensures Contents()[n] != dest
      {
        assert order[n] in order && handles[..][order[n]].valid;
      }
      i := -1;
    }

    method FindEmpty() returns (i: int)
      ensures -1 <= i < handles.Length
      ensures if i >= 0 then !handles[i].valid else forall j :: 0 <= j < handles.Length ==> handles[j].valid
    {
      for k := 0 to handles.Length
        invariant forall j :: 0 <= j < k ==> handles[j].valid
      {
        if !handles[k].valid {
          return k;
        }
      }
      i := -1;
    }

    /** The strict scan from slot 0 finds the oldest stamp. */
    method FindLru() returns (lru: nat)
      requires Valid() && forall j :: 0 <= j < handles.Length ==> handles[j].valid
      ensures order != [] && lru == order[|order| - 1] && lru < handles.Length
    {
      lru := 0;
      for k := 0 to handles.Length
        invariant lru < handles.Length
        invariant forall j :: 0 <= j < k ==> handles[lru].lastUsed <= handles[j].lastUsed
      {
        if handles[k].lastUsed < handles[lru].lastUsed {
          lru := k;
        }
      }
      assert handles[..][lru].valid && lru in order;
      ghost var k, n :| 0 <= k < |order| && order[k] == lru && n == |order| - 1;
      assert order[n] in order;
      assert Stamps(handles[..], order)[k] <= Stamps(handles[..], order)[n];
    }

    /** get_or_open_remote(): the slot handed out, or -1 for a null pointer. */
    method GetOrOpen(dest: Word, opens: bool) returns (slot: int)
      requires Valid()
      modifies this, handles
      ensures Valid() && Contents() == Touch(old(Contents()), handles.Length, dest, opens)
      ensures slot >= 0 <==> dest in old(Contents()) || opens
      ensures slot >= 0 ==> slot < handles.Length && handles[slot].valid && handles[slot].dest == dest
    {
      ghost var hs := handles[..];
      slot := FindDest(dest);
      if slot >= 0 {
        Refresh(slot);
        return;
      }
      FullIff(hs, order);
      slot := FindEmpty();
      if slot < 0 {
        slot := FindLru();
        Close(slot);
      }
      if !opens {
        return -1;
      }
      Fill(slot, dest);
    }

    /** A hit: the slot gets the newest stamp. */
    method Refresh(i: nat)
      requires Valid() && i < handles.Length && handles[i].valid
      modifies this, handles
      ensures Valid() && handles[i] == old(handles[i]).(lastUsed := counter)
      ensures Contents() == [handles[i].dest] + Without(old(Contents()), handles[i].dest)
    {
      ghost var hs := handles[..];
      assert hs[i].valid && i in order;
      ghost var k, h := IndexOf(order, i), hs[i].(lastUsed := counter + 1);
      ghost var hs', order' := hs[order[k] := h], [order[k]] + Removed(order, k);
      RefreshKeeps(hs, counter, order, k, h);
      counter := counter + 1;
      handles[i] := handles[i].(lastUsed := counter);
      order := order';
      assert handles[..] == hs';
    }

    /** A successful open in an empty slot. */
    method Fill(i: nat, dest: Word)
      requires Valid() && i < handles.Length && !handles[i].valid && dest !in Contents()
      modifies this, handles
      ensures Valid() && handles[i] == Handle(dest, true, counter) && Contents() == [dest] + old(Contents())
    {
      ghost var hs := handles[..];
      FillKeeps(hs, counter, order, i, dest);
      counter := counter + 1;
      handles[i] := Handle(dest, true, counter);
      order := [i] + order;
      assert handles[..] == hs[i := handles[i]];
    }

    /** close_remote on the least recently used slot. */
    method Close(i: nat)
      requires Valid() && order != [] && i == order[|order| - 1] && i < handles.Length
      modifies this, handles
      ensures Valid() && !handles[i].valid && Contents() == old(Contents())[..|old(order)| - 1]
    {
      ghost var hs := handles[..];
      CloseKeeps(hs, counter, order);
      handles[i] := Handle(0, false, 0);
      order := order[..|order| - 1];
      assert handles[..] == hs[i := handles[i]];
    }
  }
}
