/** The real-time log ring: mutex-serialised producers, one lock-free drain thread, one controlling thread.
    Every load, store, field write, field copy and sink call is a step of its own; steps interleave freely. */
module RtLogger {
  import opened Bits

  datatype Entry = Entry(stamp: int, source: int, level: int, message: string)

  /** How the counters count: without bound, or as 64-bit words. */
  datatype Width = Unbounded | Word64

  const WRAP: nat := 0x1_0000_0000_0000_0000

  /** A logger with 2^bits slots, its source id, and its number of sinks. */
  datatype Config = Config(bits: nat, source: int, sinks: nat) {
    function Size(): nat { Pow2(bits) }
  }

  /** The commit holding ring_mutex_, if any: its arguments and how far it has got. */
  datatype Writer =
    | NoWriter
    | Entered(level: int, message: string)
    | SawTail(level: int, message: string, t: nat)
    | Writing(level: int, message: string, stamp: int, fields: nat)
    | Published

  /** The drain thread's position; `flush` tells the loop after the stop signal from the loop before it. */
  datatype Drain =
    | NotStarted
    | LoopTest
    | EmptyTest(flush: bool)
    | LoadTail(flush: bool)
    | Copying(flush: bool, t: nat, local: Entry, fields: nat)
    | Dispatching(flush: bool, local: Entry, told: nat)
    | Returned

  /** `accepted` is history: the entries whose commit has published them, in order. */
  datatype State = State(
    ring: seq<Entry>, head: nat, tail: nat, running: bool, joining: bool,
    writer: Writer, drain: Drain, sinks: seq<seq<Entry>>, accepted: seq<Entry>)

  datatype Event = Lock(level: int, message: string) | Producer(now: int) | DrainStep | Start | Stop | Join

  // ------------------------------------------------------------------ counter arithmetic of the code

  function Inc(w: Width, h: nat): nat { if w.Unbounded? then h + 1 else (h + 1) % WRAP }

  /** `head - tail`: a size_t subtraction. */
  function Minus(w: Width, h: nat, t: nat): int { if w.Unbounded? then h - t else (h - t) % WRAP }

  /** `counter & (RingSize - 1)`. */
  function Slot(cfg: Config, h: nat): (i: nat)
    ensures i < cfg.Size()
  {
    MaskIsMod(h, cfg.bits);
    And(h, cfg.Size() - 1)
  }

  // ------------------------------------------------------------------ steps

  predicate Enabled(s: State, e: Event) {
    match e
    case Lock(_, _) => s.writer.NoWriter?
    case Producer(_) => !s.writer.NoWriter?
    case DrainStep => !s.drain.NotStarted? && !s.drain.Returned?
    case Start => !s.joining
    case Stop => !s.joining
    case Join => s.joining && s.drain.Returned?
  }

  function WithField(x: Entry, f: nat, y: Entry): Entry {
    if f == 0 then x.(stamp := y.stamp)
    else if f == 1 then x.(source := y.source)
    else if f == 2 then x.(level := y.level)
    else x.(message := y.message)
  }

  /** A commit writes stamp, source and level, clears the message, then appends to it. */
  function WriteField(cfg: Config, x: Entry, w: Writer, now: int): Entry
    requires w.Writing?
  {
    if w.fields == 0 then x.(stamp := now)
    else if w.fields == 1 then x.(source := cfg.source)
    else if w.fields == 2 then x.(level := w.level)
    else if w.fields == 3 then x.(message := "")
    else x.(message := x.message + w.message)
  }

  function ProducerStep(cfg: Config, wd: Width, s: State, now: int): State
    requires |s.ring| == cfg.Size() && !s.writer.NoWriter?
  {
    match s.writer
    case Entered(level, message) => s.(writer := SawTail(level, message, s.tail))
    case SawTail(level, message, t) =>
      if Minus(wd, s.head, t) >= cfg.Size() then s.(writer := NoWriter)
      else s.(writer := Writing(level, message, 0, 0))
    case Writing(level, message, stamp, f) =>
      if f < 5 then
        var i := Slot(cfg, s.head);
        s.(ring := s.ring[i := WriteField(cfg, s.ring[i], s.writer, now)],
           writer := Writing(level, message, if f == 0 then now else stamp, f + 1))
      else
        s.(head := Inc(wd, s.head), writer := Published,
           accepted := s.accepted + [Entry(stamp, cfg.source, level, message)])
    case Published => s.(writer := NoWriter)
  }

  function DrainStepOf(cfg: Config, wd: Width, s: State): State
    requires |s.ring| == cfg.Size() && |s.sinks| == cfg.sinks && Enabled(s, DrainStep)
  {
    match s.drain
    case LoopTest => s.(drain := EmptyTest(!s.running))
    case EmptyTest(flush) =>
      if s.head != s.tail then s.(drain := LoadTail(flush))
      else s.(drain := if flush then Returned else LoopTest)
    case LoadTail(flush) => s.(drain := Copying(flush, s.tail, Entry(0, 0, 0, ""), 0))
    case Copying(flush, t, local, f) =>
      if f < 4 then s.(drain := Copying(flush, t, WithField(local, f, s.ring[Slot(cfg, t)]), f + 1))
      else s.(tail := Inc(wd, t), drain := Dispatching(flush, local, 0))
    case Dispatching(flush, local, n) =>
      if n < cfg.sinks then s.(sinks := s.sinks[n := s.sinks[n] + [local]], drain := Dispatching(flush, local, n + 1))
      else s.(drain := if flush then EmptyTest(true) else LoopTest)
  }

  function Step(cfg: Config, wd: Width, s: State, e: Event): State
    requires |s.ring| == cfg.Size() && |s.sinks| == cfg.sinks && Enabled(s, e)
  {
    match e
    case Lock(level, message) => s.(writer := Entered(level, message))
    case Producer(now) => ProducerStep(cfg, wd, s, now)
    case DrainStep => DrainStepOf(cfg, wd, s)
    case Start => if s.running then s else s.(running := true, drain := LoopTest)
    case Stop => if s.running then s.(running := false, joining := true) else s
    case Join => s.(joining := false, drain := NotStarted)
  }

  ghost predicate Initial(cfg: Config, s: State) {
    && |s.ring| == cfg.Size() && s.head == s.tail == 0 && !s.running && !s.joining
    && s.writer == NoWriter && s.drain == NotStarted && s.accepted == []
    && |s.sinks| == cfg.sinks && forall n :: 0 <= n < |s.sinks| ==> s.sinks[n] == []
  }

  // ------------------------------------------------------------------ invariant

  /** The slot under construction agrees with the commit so far. */
  ghost predicate Drafted(cfg: Config, x: Entry, w: Writer)
    requires w.Writing?
  {
    && w.fields <= 5
    && (w.fields > 0 ==> x.stamp == w.stamp)
    && (w.fields > 1 ==> x.source == cfg.source)
    && (w.fields > 2 ==> x.level == w.level)
    && (w.fields == 4 ==> x.message == "")
    && (w.fields == 5 ==> x.message == w.message)
  }

  ghost predicate Copied(local: Entry, fields: nat, x: Entry) {
    && fields <= 4
    && (fields > 0 ==> local.stamp == x.stamp) && (fields > 1 ==> local.source == x.source)
    && (fields > 2 ==> local.level == x.level) && (fields > 3 ==> local.message == x.message)
  }

  ghost predicate RingInv(cfg: Config, s: State) {
    && |s.ring| == cfg.Size() && s.tail <= s.head <= s.tail + cfg.Size() && |s.accepted| == s.head
    && forall i :: s.tail <= i < s.head ==> s.ring[Slot(cfg, i)] == s.accepted[i]
  }

  ghost predicate WriterInv(cfg: Config, s: State)
    requires |s.ring| == cfg.Size()
  {
    match s.writer
    case SawTail(_, _, t) => t <= s.tail && s.head - t <= cfg.Size()
    case Writing(_, _, _, _) => s.head - s.tail < cfg.Size() && Drafted(cfg, s.ring[Slot(cfg, s.head)], s.writer)
    case _ => true
  }

  ghost predicate DrainInv(cfg: Config, s: State)
    requires RingInv(cfg, s)
  {
    && |s.sinks| == cfg.sinks
    && (match s.drain
        case LoadTail(_) => s.tail < s.head
        case Copying(_, t, local, f) => t == s.tail < s.head && Copied(local, f, s.accepted[t])
        case Dispatching(_, local, n) => 0 < s.tail && local == s.accepted[s.tail - 1] && n <= cfg.sinks
        case _ => true)
    && forall n :: 0 <= n < cfg.sinks ==> s.sinks[n] == s.accepted[..Handed(s, n)]
  }

  /** How many entries sink n has been given: the one being dispatched is missing from the sinks still to be told. */
  ghost function Handed(s: State, n: nat): (k: nat)
    ensures k <= s.tail
  {
    if s.drain.Dispatching? && s.drain.told <= n && s.tail > 0 then s.tail - 1 else s.tail
  }

  ghost predicate ControlInv(s: State) {
    && (s.running ==> !s.joining)
    && (s.drain.NotStarted? <==> !s.running && !s.joining)
    && (Flushing(s.drain) ==> !s.running)
  }

  ghost predicate Flushing(d: Drain) {
    match d
    case EmptyTest(flush) => flush
    case LoadTail(flush) => flush
    case Copying(flush, _, _, _) => flush
    case Dispatching(flush, _, _) => flush
    case Returned => true
    case _ => false
  }

  ghost predicate Inv(cfg: Config, s: State) {
    RingInv(cfg, s) && WriterInv(cfg, s) && DrainInv(cfg, s) && ControlInv(s)
  }

  /** Slots of a window no longer than the ring are distinct. */
  lemma SlotsDiffer(cfg: Config, i: nat, j: nat)
    requires i < j < i + cfg.Size()
    ensures Slot(cfg, i) != Slot(cfg, j)
  {
    MaskIsMod(i, cfg.bits);
    MaskIsMod(j, cfg.bits);
    ModsDiffer(i, j, cfg.Size());
  }

  /** The slot a commit writes is none that the drain may read. */
  lemma NoRace(cfg: Config, s: State, i: nat)
    requires Inv(cfg, s) && s.writer.Writing? && s.tail <= i < s.head
    ensures Slot(cfg, s.head) != Slot(cfg, i)
  {
    SlotsDiffer(cfg, i, s.head);
  }

  lemma WriteKeeps(cfg: Config, s: State, now: int)
    requires Inv(cfg, s) && s.writer.Writing? && s.writer.fields < 5
    ensures Inv(cfg, ProducerStep(cfg, Unbounded, s, now))
  {
    var s', h := ProducerStep(cfg, Unbounded, s, now), Slot(cfg, s.head);
    forall i | s.tail <= i < s.head
      ensures s'.ring[Slot(cfg, i)] == s.accepted[i]
    {
      NoRace(cfg, s, i);
    }
    assert s.writer.fields == 4 ==> "" + s.writer.message == s.writer.message;
    assert Drafted(cfg, s'.ring[h], s'.writer);
  }

  lemma PublishKeeps(cfg: Config, s: State, now: int)
    requires Inv(cfg, s) && s.writer.Writing? && s.writer.fields == 5
    ensures Inv(cfg, ProducerStep(cfg, Unbounded, s, now))
  {
    var s', h := ProducerStep(cfg, Unbounded, s, now), Slot(cfg, s.head);
    assert s.ring[h] == s'.accepted[s.head];
    forall n | 0 <= n < cfg.sinks
      ensures s'.sinks[n] == s'.accepted[..Handed(s', n)]
    {
      assert s'.accepted[..Handed(s, n)] == s.accepted[..Handed(s, n)];
    }
  }

  lemma ProducerKeeps(cfg: Config, s: State, now: int)
    requires Inv(cfg, s) && !s.writer.NoWriter?
    ensures Inv(cfg, ProducerStep(cfg, Unbounded, s, now))
  {
    if s.writer.Writing? {
      if s.writer.fields < 5 { WriteKeeps(cfg, s, now); } else { PublishKeeps(cfg, s, now); }
    } else {
      WriterMoves(cfg, s, ProducerStep(cfg, Unbounded, s, now).writer);
    }
  }

  lemma WriterMoves(cfg: Config, s: State, w: Writer)
    requires Inv(cfg, s) && WriterInv(cfg, s.(writer := w))
    ensures Inv(cfg, s.(writer := w))
  {
  }

  lemma CopyKeeps(cfg: Config, s: State)
    requires Inv(cfg, s) && s.drain.Copying?
    ensures Inv(cfg, DrainStepOf(cfg, Unbounded, s))
  {
    var s', x := DrainStepOf(cfg, Unbounded, s), s.accepted[s.tail];
    assert s.ring[Slot(cfg, s.tail)] == x;
    if s.drain.fields == 4 {
      assert s.drain.local == x;
    }
  }

  lemma DispatchKeeps(cfg: Config, s: State)
    requires Inv(cfg, s) && s.drain.Dispatching?
    ensures Inv(cfg, DrainStepOf(cfg, Unbounded, s))
  {
    var s', n := DrainStepOf(cfg, Unbounded, s), s.drain.told;
    assert s.accepted[..s.tail] == s.accepted[..s.tail - 1] + [s.drain.local];
    forall k | 0 <= k < cfg.sinks
      ensures s'.sinks[k] == s.accepted[..Handed(s', k)]
    {
      assert s.sinks[k] == s.accepted[..Handed(s, k)];
    }
  }

  lemma DrainKeeps(cfg: Config, s: State)
    requires Inv(cfg, s) && Enabled(s, DrainStep)
    ensures Inv(cfg, DrainStepOf(cfg, Unbounded, s))
  {
    if s.drain.Copying? {
      CopyKeeps(cfg, s);
    } else if s.drain.Dispatching? {
      DispatchKeeps(cfg, s);
    } else {
      var s' := DrainStepOf(cfg, Unbounded, s);
      assert forall n :: 0 <= n < cfg.sinks ==> Handed(s', n) == Handed(s, n);
    }
  }

  /** Every step of every interleaving keeps the invariant. */
  lemma StepKeeps(cfg: Config, s: State, e: Event)
    requires Inv(cfg, s) && Enabled(s, e)
    ensures Inv(cfg, Step(cfg, Unbounded, s, e))
  {
    match e
    case Producer(now) => ProducerKeeps(cfg, s, now);
    case DrainStep => DrainKeeps(cfg, s);
    case _ =>
  }

  // ------------------------------------------------------------------ runs

  datatype Run = Run(states: seq<State>, events: seq<Event>)

  ghost predicate IsPath(cfg: Config, wd: Width, run: Run) {
    && |run.states| == |run.events| + 1
    && forall i :: 0 <= i < |run.events| ==> PathStep(cfg, wd, run, i)
  }

  ghost predicate PathStep(cfg: Config, wd: Width, run: Run, i: nat)
    requires |run.states| == |run.events| + 1 && i < |run.events|
  {
    && |run.states[i].ring| == cfg.Size() && |run.states[i].sinks| == cfg.sinks
    && Enabled(run.states[i], run.events[i])
    && run.states[i + 1] == Step(cfg, wd, run.states[i], run.events[i])
  }

  ghost predicate IsRun(cfg: Config, wd: Width, run: Run) {
    IsPath(cfg, wd, run) && Initial(cfg, run.states[0])
  }

  lemma {:induction false} RunKeepsInv(cfg: Config, run: Run, i: nat)
    requires IsRun(cfg, Unbounded, run) && i < |run.states|
    ensures Inv(cfg, run.states[i])
  {
    if i > 0 {
      assert PathStep(cfg, Unbounded, run, i - 1);
      RunKeepsInv(cfg, run, i - 1);
      StepKeeps(cfg, run.states[i - 1], run.events[i - 1]);
    }
  }

  // ------------------------------------------------------------------ what the events commit

  /** The commit under way, how many steps it has taken since it got the lock, and the entries published before. */
  datatype Scan = Scan(level: int, message: string, steps: nat, stamp: int, published: seq<Entry>)

  /** Read off the events alone.  A commit that finds room writes its timestamp with its third step and publishes with
      its eighth; one that finds the ring full ends with its second, before either. */
  function ReadOff(cfg: Config, events: seq<Event>): Scan {
    if events == [] then Scan(0, "", 0, 0, [])
    else
      var sc := ReadOff(cfg, events[..|events| - 1]);
      match events[|events| - 1]
      case Lock(level, message) => Scan(level, message, 0, 0, sc.published)
      case Producer(now) => ScanProducer(cfg, sc, now)
      case _ => sc
  }

  /** The entries that the commits among the events have published, in order, with the callers' own texts and levels. */
  function Committed(cfg: Config, events: seq<Event>): seq<Entry> { ReadOff(cfg, events).published }

  ghost predicate Scanned(s: State, sc: Scan) {
    && s.accepted == sc.published
    && match s.writer
       case NoWriter => true
       case Entered(level, message) => sc.steps == 0 && sc.level == level && sc.message == message
       case SawTail(level, message, _) => sc.steps == 1 && sc.level == level && sc.message == message
       case Writing(level, message, stamp, f) =>
         && f <= 5 && sc.steps == 2 + f && sc.level == level && sc.message == message && (f > 0 ==> sc.stamp == stamp)
       case Published => sc.steps == 8
  }

  function ScanProducer(cfg: Config, sc: Scan, now: int): Scan {
    sc.(steps := sc.steps + 1,
        stamp := if sc.steps == 2 then now else sc.stamp,
        published := if sc.steps == 7 then sc.published + [Entry(sc.stamp, cfg.source, sc.level, sc.message)]
                     else sc.published)
  }

  lemma ProducerScanned(cfg: Config, wd: Width, s: State, sc: Scan, now: int)
    requires |s.ring| == cfg.Size() && !s.writer.NoWriter? && Scanned(s, sc)
    ensures Scanned(ProducerStep(cfg, wd, s, now), ScanProducer(cfg, sc, now))
  {
  }

  lemma {:induction false} RunScanned(cfg: Config, wd: Width, run: Run, i: nat)
    requires IsRun(cfg, wd, run) && i < |run.states|
    ensures Scanned(run.states[i], ReadOff(cfg, run.events[..i]))
  {
    if i > 0 {
      assert PathStep(cfg, wd, run, i - 1);
      RunScanned(cfg, wd, run, i - 1);
      assert run.events[..i][..i - 1] == run.events[..i - 1];
      var s, e := run.states[i - 1], run.events[i - 1];
      if e.Producer? { ProducerScanned(cfg, wd, s, ReadOff(cfg, run.events[..i - 1]), e.now); }
    }
  }

  /** In every run, with counters of either width, the entries accepted are those that the events commit. */
  lemma AcceptedIsCommitted(cfg: Config, wd: Width, run: Run, i: nat)
    requires IsRun(cfg, wd, run) && i < |run.states|
    ensures run.states[i].accepted == Committed(cfg, run.events[..i])
  {
    RunScanned(cfg, wd, run, i);
  }

  ghost function Contents(cfg: Config, s: State): seq<Entry>
    requires |s.ring| == cfg.Size() && s.tail <= s.head
  {
    seq(s.head - s.tail, i requires 0 <= i < s.head - s.tail => s.ring[Slot(cfg, s.tail + i)])
  }

  /** The entry taken from the ring that sink n has not been given yet. */
  ghost function InHand(s: State, n: nat): seq<Entry> {
    if s.drain.Dispatching? && s.drain.told <= n then [s.drain.local] else []
  }

  /** Under every interleaving, for every sink: the entries committed are, in order, those it was given, then the one
      in the drain thread's hand, then the ring; and the ring never holds more than RingSize. */
  lemma NothingLostOrReordered(cfg: Config, run: Run, i: nat, n: nat)
    requires IsRun(cfg, Unbounded, run) && i < |run.states| && n < cfg.sinks
    ensures var s := run.states[i];
            && |s.ring| == cfg.Size() && s.tail <= s.head <= s.tail + cfg.Size() && n < |s.sinks|
            && Committed(cfg, run.events[..i]) == s.sinks[n] + InHand(s, n) + Contents(cfg, s)
  {
    RunKeepsInv(cfg, run, i);
    AcceptedIsCommitted(cfg, Unbounded, run, i);
    var s := run.states[i];
    var k := s.sinks[n] + InHand(s, n);
    assert k == s.accepted[..s.tail];
    assert Contents(cfg, s) == s.accepted[s.tail..];
    assert s.accepted == s.accepted[..s.tail] + s.accepted[s.tail..];
  }

  /** The path extended by one step. */
  lemma Onward(cfg: Config, path: Run, e: Event) returns (longer: Run)
    requires IsPath(cfg, Unbounded, path) && Inv(cfg, path.states[|path.events|]) && Enabled(path.states[|path.events|], e)
    ensures IsPath(cfg, Unbounded, longer) && longer.events == path.events + [e]
    ensures longer.states[..|path.states|] == path.states && longer.states[0] == path.states[0]
    ensures var s := longer.states[|longer.events|];
            Inv(cfg, s) && s == Step(cfg, Unbounded, path.states[|path.events|], e)
  {
    var n := |path.events|;
    StepKeeps(cfg, path.states[n], e);
    longer := Run(path.states + [Step(cfg, Unbounded, path.states[n], e)], path.events + [e]);
    forall i | 0 <= i <= n
      ensures PathStep(cfg, Unbounded, longer, i)
    {
      assert i < n ==> PathStep(cfg, Unbounded, path, i);
    }
  }

  /** The state of a commit k steps after it got the lock, if nothing else happens meanwhile. */
  ghost predicate CommitAt(cfg: Config, s0: State, s: State, level: int, message: string, now: int, k: nat) {
    && s.tail == s0.tail
    && s.head == (if k < 8 then s0.head else s0.head + 1)
    && s.accepted == (if k < 8 then s0.accepted else s0.accepted + [Entry(now, cfg.source, level, message)])
    && s.writer == (if k == 0 then Entered(level, message)
                    else if k == 1 then SawTail(level, message, s0.tail)
                    else if k < 8 then Writing(level, message, if k == 2 then 0 else now, k - 2)
                    else if k == 8 then Published
                    else NoWriter)
  }

  lemma CommitSteps(cfg: Config, s0: State, s: State, level: int, message: string, now: int, k: nat)
    requires |s.ring| == cfg.Size() && s0.head - s0.tail < cfg.Size() && k < 9 && CommitAt(cfg, s0, s, level, message, now, k)
    ensures Enabled(s, Producer(now))
    ensures CommitAt(cfg, s0, ProducerStep(cfg, Unbounded, s, now), level, message, now, k + 1)
  {
  }

  /** A commit on a ring with room goes through: whatever its text and level, nine steps after getting the lock it has
      published its entry and given the lock back. */
  lemma CommitGoesThrough(cfg: Config, s: State, level: int, message: string, now: int) returns (path: Run)
    requires Inv(cfg, s) && s.writer.NoWriter? && s.head - s.tail < cfg.Size()
    ensures IsPath(cfg, Unbounded, path) && path.states[0] == s && |path.events| == 10
    ensures path.events[0] == Lock(level, message) && forall i :: 1 <= i < 10 ==> path.events[i] == Producer(now)
    ensures path.states[10].accepted == s.accepted + [Entry(now, cfg.source, level, message)]
    ensures path.states[10].writer.NoWriter? && path.states[10].head == s.head + 1
  {
    path := Onward(cfg, Run([s], []), Lock(level, message));
    for k := 0 to 9
      invariant IsPath(cfg, Unbounded, path) && path.states[0] == s && |path.events| == k + 1
      invariant path.events[0] == Lock(level, message) && forall i :: 1 <= i < |path.events| ==> path.events[i] == Producer(now)
      invariant Inv(cfg, path.states[k + 1]) && CommitAt(cfg, s, path.states[k + 1], level, message, now, k)
    {
      CommitSteps(cfg, s, path.states[k + 1], level, message, now, k);
      path := Onward(cfg, path, Producer(now));
    }
  }

  /** A commit is dropped exactly when the ring was full at the moment it looked at the tail. */
  lemma DropOnlyWhenFull(cfg: Config, s: State, now: int)
    requires Inv(cfg, s) && s.writer.SawTail?
    ensures ProducerStep(cfg, Unbounded, s, now).writer.NoWriter? <==> s.head == s.writer.t + cfg.Size()
  {
  }

  // ------------------------------------------------------------------ stop_drain

  /** No commit is under way and none will start: stop_drain waits for the drain thread. */
  ghost predicate Stopping(s: State) {
    s.writer.NoWriter? && s.joining && (s.drain.Returned? ==> s.head == s.tail)
  }

  lemma {:induction false} StopFlushesPath(cfg: Config, run: Run)
    requires IsPath(cfg, Unbounded, run) && |run.events| >= 1
    requires Inv(cfg, run.states[0]) && run.states[0].writer.NoWriter? && run.states[0].running
    requires run.events[0] == Stop
    requires run.events[|run.events| - 1] == Join
    requires forall i :: 0 < i < |run.events| - 1 ==> run.events[i] == DrainStep
    ensures var s := run.states[|run.states| - 1];
            s.accepted == run.states[0].accepted && |s.sinks| == cfg.sinks &&
            forall n :: 0 <= n < cfg.sinks ==> s.sinks[n] == s.accepted
  {
    var last := |run.events| - 1;
    assert PathStep(cfg, Unbounded, run, 0);
    StepKeeps(cfg, run.states[0], Stop);
    for i := 1 to last
      invariant Inv(cfg, run.states[i]) && Stopping(run.states[i])
      invariant run.states[i].accepted == run.states[0].accepted
    {
      assert PathStep(cfg, Unbounded, run, i);
      StepKeeps(cfg, run.states[i], DrainStep);
    }
    assert PathStep(cfg, Unbounded, run, last);
    var s := run.states[last];
    assert s.accepted[..s.tail] == s.accepted;
  }

  /** From event m on the run is a stop_drain of a running logger, up to its return, with no commit during it. */
  ghost predicate StopsAt(run: Run, m: nat) {
    && |run.states| == |run.events| + 1 && m < |run.events|
    && run.states[m].writer.NoWriter? && run.states[m].running && run.events[m] == Stop
    && run.events[|run.events| - 1] == Join
    && forall i :: m < i < |run.events| - 1 ==> run.events[i] == DrainStep
  }

  /** When stop_drain of a running logger returns, with no commit during the call, every entry committed before it has
      been given to every sink exactly once, in order. */
  lemma StopFlushesEverything(cfg: Config, run: Run, m: nat)
    requires IsRun(cfg, Unbounded, run) && StopsAt(run, m)
    ensures var s := run.states[|run.events|];
            |s.sinks| == cfg.sinks && forall n :: 0 <= n < cfg.sinks ==> s.sinks[n] == Committed(cfg, run.events[..m])
  {
    RunKeepsInv(cfg, run, m);
    AcceptedIsCommitted(cfg, Unbounded, run, m);
    var tail := Run(run.states[m..], run.events[m..]);
    forall i | 0 <= i < |tail.events|
      ensures PathStep(cfg, Unbounded, tail, i)
    {
      assert PathStep(cfg, Unbounded, run, m + i);
    }
    StopFlushesPath(cfg, tail);
  }

  /** Steps the drain thread may still take before it removes another entry or returns. */
  ghost function StepsToTail(cfg: Config, d: Drain): int {
    match d
    case Dispatching(_, _, n) => cfg.sinks - n + 9
    case EmptyTest(flush) => if flush then 6 else 8
    case LoopTest => 7
    case LoadTail(_) => 5
    case Copying(_, _, _, f) => 4 - f
    case _ => 0
  }

  /** stop_drain returns: while it waits the drain thread can always step, and each step shrinks the pair
      (entries left, steps to the next removal) lexicographically. */
  lemma StopTerminates(cfg: Config, s: State)
    requires Inv(cfg, s) && Stopping(s) && !s.drain.Returned?
    ensures Enabled(s, DrainStep)
    ensures var s' := DrainStepOf(cfg, Unbounded, s);
            && Stopping(s') && s'.head - s'.tail >= 0 && StepsToTail(cfg, s'.drain) >= 0
            && (|| s'.head - s'.tail < s.head - s.tail
                || (s'.head - s'.tail == s.head - s.tail && StepsToTail(cfg, s'.drain) < StepsToTail(cfg, s.drain)))
  {
    DrainKeeps(cfg, s);
  }

  /** Starting a stopped logger sets its drain thread going; stopping a running one makes the caller wait for it, and
      the wait is over when the thread has returned.  Neither touches the ring or the sinks. */
  lemma StartAndStop(cfg: Config, wd: Width, s: State)
    requires |s.ring| == cfg.Size() && |s.sinks| == cfg.sinks && !s.joining && ControlInv(s)
    ensures Enabled(s, Start) && Enabled(s, Stop)
    ensures Step(cfg, wd, s, Start) == if s.running then s else s.(running := true, drain := LoopTest)
    ensures Step(cfg, wd, s, Stop) == if s.running then s.(running := false, joining := true) else s
    ensures var s' := Step(cfg, wd, s, Stop);
            s.running ==> (Enabled(s', Join) <==> s'.drain.Returned?) && !Enabled(s', Start) && !Enabled(s', Stop)
  {
  }

  /** The end of the wait: the logger is stopped, with no drain thread, and can be started again. */
  lemma JoinEnds(cfg: Config, wd: Width, s: State)
    requires |s.ring| == cfg.Size() && |s.sinks| == cfg.sinks && Inv(cfg, s) && s.joining && s.drain.Returned?
    ensures Enabled(s, Join)
    ensures var s' := Step(cfg, wd, s, Join);
            s' == s.(joining := false, drain := NotStarted) && !s'.running && Enabled(s', Start)
  {
  }

  ghost function StepsToTailRunning(cfg: Config, d: Drain): int {
    match d
    case Dispatching(_, _, n) => cfg.sinks - n + 9
    case LoopTest => 8
    case EmptyTest(_) => 7
    case LoadTail(_) => 6
    case Copying(_, _, _, f) => 5 - f
    case _ => 0
  }

  /** A running drain thread does not leave entries lying: while the ring is not empty it can step, and each step
      removes an entry or brings the next removal closer. */
  lemma DrainProgresses(cfg: Config, s: State)
    requires Inv(cfg, s) && s.running && s.tail < s.head
    ensures Enabled(s, DrainStep)
    ensures var s' := DrainStepOf(cfg, Unbounded, s);
            && s'.running && s'.head == s.head && StepsToTailRunning(cfg, s'.drain) >= 0
            && (|| s'.tail == s.tail + 1
                || (s'.tail == s.tail && StepsToTailRunning(cfg, s'.drain) < StepsToTailRunning(cfg, s.drain)))
  {
    DrainKeeps(cfg, s);
  }

  // ------------------------------------------------------------------ 64-bit counters

  function Wrapped(s: State): State {
    s.(head := s.head % WRAP, tail := s.tail % WRAP,
       writer := if s.writer.SawTail? then s.writer.(t := s.writer.t % WRAP) else s.writer,
       drain := if s.drain.Copying? then s.drain.(t := s.drain.t % WRAP) else s.drain)
  }

  lemma WrapIsPow2()
    ensures Pow2(64) == WRAP
  {
    assert Pow2(2) == 4;
    Pow2Splits(2, 4);
    Pow2Splits(4, 8);
    Pow2Splits(8, 16);
    Pow2Splits(16, 32);
    Pow2Splits(32, 64);
  }

  /** Masking a wrapped counter selects the slot of the unbounded one. */
  lemma SlotWraps(cfg: Config, h: nat)
    requires cfg.bits < 64
    ensures Slot(cfg, h % WRAP) == Slot(cfg, h)
  {
    var m, q := cfg.Size(), Pow2(64 - cfg.bits);
    assert m * q == WRAP by {
      WrapIsPow2();
      Pow2Splits(cfg.bits, 64);
    }
    ModOfMultiple(h, m, q);
    MaskIsMod(h, cfg.bits);
    MaskIsMod(h % WRAP, cfg.bits);
  }

  lemma IncWraps(h: nat)
    ensures (h % WRAP + 1) % WRAP == (h + 1) % WRAP
  {
  }

  lemma AddWraps(h: nat, k: nat)
    ensures (h % WRAP + k) % WRAP == (h + k) % WRAP
  {
  }

  /** How the wrapped distance changes when either end advances. */
  lemma DistanceWraps(h: nat, t: nat)
    requires h < WRAP && t < WRAP
    ensures Minus(Word64, h, t) + 1 < WRAP ==> Minus(Word64, Inc(Word64, h), t) == Minus(Word64, h, t) + 1
    ensures h != t ==> 0 < Minus(Word64, h, t) && Minus(Word64, h, Inc(Word64, t)) == Minus(Word64, h, t) - 1
    ensures (t + Minus(Word64, h, t)) % WRAP == h
  {
    SmallMod(h, t);
    SmallMod(Inc(Word64, h), t);
    SmallMod(h, Inc(Word64, t));
    assert Inc(Word64, h) == if h == WRAP - 1 then 0 else h + 1;
    assert Inc(Word64, t) == if t == WRAP - 1 then 0 else t + 1;
  }

  lemma SmallMod(h: nat, t: nat)
    requires h < WRAP && t < WRAP
    ensures (h - t) % WRAP == if h >= t then h - t else h - t + WRAP
  {
    DivModUnique(h - t, WRAP, if h >= t then 0 else -1, if h >= t then h - t else h - t + WRAP);
  }

  /** The wrapped difference is the true difference whenever that fits in 64 bits. */
  lemma MinusWraps(h: nat, t: nat)
    requires t <= h < t + WRAP
    ensures (h % WRAP - t % WRAP) % WRAP == h - t
    ensures h % WRAP == t % WRAP <==> h == t
  {
  }

  lemma SizeBelowWrap(cfg: Config)
    requires cfg.bits < 64
    ensures cfg.Size() < WRAP
  {
    WrapIsPow2();
    Pow2Splits(cfg.bits, 64);
    assert Pow2(64 - cfg.bits) == 2 * Pow2(63 - cfg.bits);
    assert cfg.Size() * Pow2(64 - cfg.bits) >= cfg.Size() * 2;
  }

  lemma ProducerWraps(cfg: Config, s: State, now: int)
    requires cfg.bits < 64 && Inv(cfg, s) && !s.writer.NoWriter?
    ensures ProducerStep(cfg, Word64, Wrapped(s), now) == Wrapped(ProducerStep(cfg, Unbounded, s, now))
  {
    match s.writer
    case SawTail(_, _, t) =>
      SizeBelowWrap(cfg);
      MinusWraps(s.head, t);
    case Writing(_, _, _, f) =>
      if f < 5 { SlotWraps(cfg, s.head); } else { IncWraps(s.head); }
    case _ =>
  }

  lemma DrainWraps(cfg: Config, s: State)
    requires cfg.bits < 64 && Inv(cfg, s) && Enabled(s, DrainStep)
    ensures DrainStepOf(cfg, Word64, Wrapped(s)) == Wrapped(DrainStepOf(cfg, Unbounded, s))
  {
    match s.drain
    case EmptyTest(_) =>
      SizeBelowWrap(cfg);
      MinusWraps(s.head, s.tail);
    case Copying(_, t, _, f) =>
      if f < 4 { SlotWraps(cfg, t); } else { IncWraps(t); }
    case _ =>
  }

  /** One step with 64-bit counters is the wrapped image of the step with unbounded ones. */
  lemma StepWraps(cfg: Config, s: State, e: Event)
    requires cfg.bits < 64 && Inv(cfg, s) && Enabled(s, e)
    ensures Enabled(Wrapped(s), e)
    ensures Step(cfg, Word64, Wrapped(s), e) == Wrapped(Step(cfg, Unbounded, s, e))
  {
    match e
    case Producer(now) => ProducerWraps(cfg, s, now);
    case DrainStep => DrainWraps(cfg, s);
    case _ =>
  }

  /** For every power-of-two ring size: any run with counters that wrap at 2^64 is, state by state, the wrapped image
      of a run of the same events with unbounded counters, so all drop, empty and slot decisions agree. */
  lemma {:induction false} WraparoundIsInvisible(cfg: Config, wrapped: Run) returns (run: Run)
    requires cfg.bits < 64 && IsRun(cfg, Word64, wrapped)
    ensures IsRun(cfg, Unbounded, run) && run.events == wrapped.events
    ensures forall i :: 0 <= i < |run.states| ==> wrapped.states[i] == Wrapped(run.states[i])
  {
    run := Run([wrapped.states[0]], []);
    for n := 0 to |wrapped.events|
      invariant run.events == wrapped.events[..n] && IsRun(cfg, Unbounded, run)
      invariant forall i :: 0 <= i <= n ==> wrapped.states[i] == Wrapped(run.states[i])
    {
      assert PathStep(cfg, Word64, wrapped, n);
      RunKeepsInv(cfg, run, n);
      StepWraps(cfg, run.states[n], wrapped.events[n]);
      run := Onward(cfg, run, wrapped.events[n]);
    }
    assert wrapped.events[..|wrapped.events|] == wrapped.events;
  }
}
