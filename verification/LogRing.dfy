/** The logger's ring as the code holds it, run by one thread at a time: an array and two 64-bit counters. */
module LogRing {
  import opened RtLogger

  function Index(cfg: Config, t: nat, k: nat): (i: nat)
    ensures i < cfg.Size()
  {
    Slot(cfg, t + k)
  }

  /** The n entries from counter t on. */
  ghost function Window(cfg: Config, ring: seq<Entry>, t: nat, n: nat): seq<Entry>
    requires |ring| == cfg.Size()
  {
    seq(n, k requires 0 <= k < n => ring[Index(cfg, t, k)])
  }

  lemma WindowWrite(cfg: Config, ring: seq<Entry>, t: nat, n: nat, x: Entry)
    requires |ring| == cfg.Size() && n < cfg.Size()
    ensures Window(cfg, ring[Index(cfg, t, n) := x], t, n + 1) == Window(cfg, ring, t, n) + [x]
  {
    forall k | 0 <= k < n
      ensures Index(cfg, t, k) != Index(cfg, t, n)
    {
      SlotsDiffer(cfg, t + k, t + n);
    }
  }

  lemma WindowShift(cfg: Config, ring: seq<Entry>, t: nat, n: nat)
    requires cfg.bits < 64 && |ring| == cfg.Size() && n > 0
    ensures Window(cfg, ring, t, n) == [ring[Slot(cfg, t)]] + Window(cfg, ring, (t + 1) % WRAP, n - 1)
  {
    var t' := (t + 1) % WRAP;
    forall k | 0 <= k < n - 1
      ensures Index(cfg, t', k) == Index(cfg, t, k + 1)
    {
      AddWraps(t + 1, k);
      SlotWraps(cfg, t' + k);
      SlotWraps(cfg, t + 1 + k);
    }
    assert Index(cfg, t, 0) == Slot(cfg, t);
  }

  /** What NothingLostOrReordered says of unbounded counters holds of the 64-bit counters of the code, in every run. */
  lemma NothingLostWith64Bits(cfg: Config, run: Run, i: nat, n: nat)
    requires cfg.bits < 64 && IsRun(cfg, Word64, run) && i < |run.states| && n < cfg.sinks
    ensures var s := run.states[i];
            && |s.ring| == cfg.Size() && n < |s.sinks| && 0 <= Minus(Word64, s.head, s.tail) <= cfg.Size()
            && Committed(cfg, run.events[..i])
               == s.sinks[n] + InHand(s, n) + Window(cfg, s.ring, s.tail, Minus(Word64, s.head, s.tail))
  {
    var run' := WraparoundIsInvisible(cfg, run);
    NothingLostOrReordered(cfg, run', i, n);
    var s, s' := run.states[i], run'.states[i];
    assert s == Wrapped(s');
    SizeBelowWrap(cfg);
    MinusWraps(s'.head, s'.tail);
    WindowIsContents(cfg, s');
    assert InHand(s, n) == InHand(s', n);
  }

  /** And so does the flush: in every run with 64-bit counters, a stop_drain during which no commit runs returns with
      every entry committed before given to every sink exactly once, in order. */
  lemma StopFlushesWith64Bits(cfg: Config, run: Run, m: nat)
    requires cfg.bits < 64 && IsRun(cfg, Word64, run) && StopsAt(run, m)
    ensures var s := run.states[|run.events|];
            |s.sinks| == cfg.sinks && forall n :: 0 <= n < cfg.sinks ==> s.sinks[n] == Committed(cfg, run.events[..m])
  {
    var run' := WraparoundIsInvisible(cfg, run);
    assert run.states[m] == Wrapped(run'.states[m]) && run.states[|run.events|] == Wrapped(run'.states[|run.events|]);
    StopFlushesEverything(cfg, run', m);
  }

  lemma WindowIsContents(cfg: Config, s: State)
    requires cfg.bits < 64 && |s.ring| == cfg.Size() && s.tail <= s.head
    ensures Window(cfg, s.ring, s.tail % WRAP, s.head - s.tail) == RtLogger.Contents(cfg, s)
  {
    forall k | 0 <= k < s.head - s.tail
      ensures Index(cfg, s.tail % WRAP, k) == Slot(cfg, s.tail + k)
    {
      AddWraps(s.tail, k);
      SlotWraps(cfg, s.tail % WRAP + k);
      SlotWraps(cfg, s.tail + k);
    }
  }

  class Ring {
    const cfg: Config
    const ring: array<Entry>
    var head: nat
    var tail: nat

    ghost predicate Valid()
      reads this
    {
      cfg.bits < 64 && ring.Length == cfg.Size() && head < WRAP && tail < WRAP && Count() <= cfg.Size()
    }

    ghost function Count(): nat
      reads this
    {
      Minus(Word64, head, tail)
    }

    /** The committed entries, oldest first. */
    ghost function Contents(): seq<Entry>
      requires Valid()
      reads this, ring
    {
      Window(cfg, ring[..], tail, Count())
    }

    constructor (cfg: Config)
      requires cfg.bits < 64
      ensures Valid() && Contents() == [] && this.cfg == cfg && fresh(ring)
    {
      this.cfg := cfg;
      ring := new Entry[cfg.Size()](_ => Entry(0, 0, 0, ""));
      head, tail := 0, 0;
    }

    method Commit(level: int, message: string, now: int)
      requires Valid()
      modifies this`head, ring
      ensures Valid()
      ensures Contents() == if old(Count()) < cfg.Size() then old(Contents()) + [Entry(now, cfg.source, level, message)]
                            else old(Contents())
    {
      if Minus(Word64, head, tail) >= cfg.Size() {
        return;
      }
      ghost var n, before := Count(), ring[..];
      var i, x := Slot(cfg, head), Entry(now, cfg.source, level, message);
      DistanceWraps(head, tail);
      SlotWraps(cfg, tail + n);
      assert i == Index(cfg, tail, n);
      ring[i] := x;
      assert ring[..] == before[i := x];
      WindowWrite(cfg, before, tail, n, x);
      SizeBelowWrap(cfg);
      head := Inc(Word64, head);
    }

    /** The body shared by both drain loops: copy the oldest entry, then advance the tail. */
    method Take() returns (local: Entry)
      requires Valid() && head != tail
      modifies this`tail
      ensures Valid() && old(Contents()) == [local] + Contents()
    {
      local := ring[Slot(cfg, tail)];
      DistanceWraps(head, tail);
      WindowShift(cfg, ring[..], tail, Count());
      tail := Inc(Word64, tail);
    }

    /** The loop after the stop signal: everything left goes to the sinks, oldest first. */
    method Flush() returns (given: seq<Entry>)
      requires Valid()
      modifies this`tail
      ensures Valid() && Contents() == [] && given == old(Contents())
    {
      given := [];
      while head != tail
        invariant Valid() && given + Contents() == old(Contents())
        decreases Count()
      {
        var local := Take();
        given := given + [local];
      }
    }
  }
}
