/**
 * The locked tick-counter branch of CliGetMonotonicClock (clitime.cpp) as run by any number of threads, with
 * fastlock (clisync.h) as one atomic exchange, and CliClock on top of it.
 */
module TickClock {
  import opened Machine
  import opened TickConversion

  /** Where a thread is in the function; each step to the next phase is atomic. */
  datatype Phase = Outside | Holding | HasTicks | HasWrap | Compared | Remembered

  /** A thread's locals. `at` is the true tick count its counter read stood for; the code never sees it. */
  datatype Thread = Thread(phase: Phase, ticks: int, wrap: int, at: int)

  /** A finished call: the values handed to __clks2tv, in the order the lock was released. */
  datatype Reading = Reading(at: int, wrap: int, ticks: int)

  /** Shared state; `now` is the true counter and `lastRead` its value at the last completed locked read. */
  datatype State = State(lock: int, wrapCount: int, lastTicks: int, threads: seq<Thread>,
                         now: int, lastRead: int, readings: seq<Reading>)

  datatype Step =
    | Advance(elapsed: nat) // time passes
    | TryLock(i: nat)       // exchange 1 into the lock word; it was acquired if the old value was 0
    | ReadCounter(i: nat)
    | LoadWrap(i: nat)
    | CompareTicks(i: nat)  // a smaller tick count than the last means the counter wrapped
    | StoreTicks(i: nat)
    | Unlock(i: nat)

  function Initial(n: nat): State {
    State(0, 0, 0, seq(n, _ => Thread(Outside, 0, 0, 0)), 0, 0, [])
  }

  function Next(s: State, step: Step): State {
    match step
    case Advance(elapsed) => s.(now := s.now + elapsed)
    case TryLock(i) =>
      if i < |s.threads| && s.threads[i].phase == Outside then
        s.(lock := 1, threads := if s.lock == 0 then s.threads[i := s.threads[i].(phase := Holding)] else s.threads)
      else s
    case ReadCounter(i) =>
      if i < |s.threads| && s.threads[i].phase == Holding then
        s.(threads := s.threads[i := s.threads[i].(phase := HasTicks, ticks := s.now % TWO_32, at := s.now)])
      else s
    case LoadWrap(i) =>
      if i < |s.threads| && s.threads[i].phase == HasTicks then
        s.(threads := s.threads[i := s.threads[i].(phase := HasWrap, wrap := s.wrapCount)])
      else s
    case CompareTicks(i) =>
      if i < |s.threads| && s.threads[i].phase == HasWrap then
        var t := s.threads[i];
        var wrapped := t.ticks < s.lastTicks;
        var wrap := if wrapped then U32(t.wrap + 1) else t.wrap;
        s.(wrapCount := if wrapped then wrap else s.wrapCount,
           threads := s.threads[i := t.(phase := Compared, wrap := wrap)])
      else s
    case StoreTicks(i) =>
      if i < |s.threads| && s.threads[i].phase == Compared then
        var t := s.threads[i];
        s.(lastTicks := t.ticks, lastRead := t.at, threads := s.threads[i := t.(phase := Remembered)])
      else s
    case Unlock(i) =>
      if i < |s.threads| && s.threads[i].phase == Remembered then
        var t := s.threads[i];
        s.(lock := 0, threads := s.threads[i := t.(phase := Outside)],
           readings := s.readings + [Reading(t.at, t.wrap, t.ticks)])
      else s
  }

  function RunOf(n: nat, steps: seq<Step>): State {
    if steps == [] then Initial(n) else Next(RunOf(n, steps[..|steps| - 1]), steps[|steps| - 1])
  }

  /** The counter is read within one wrap of the last locked read, and before the wrap count itself would wrap. */
  predicate Timely(s: State, step: Step) {
    step.ReadCounter? ==> s.now - s.lastRead < TWO_32 && s.now / TWO_32 < TWO_32
  }

  predicate TimelyRun(n: nat, steps: seq<Step>) {
    forall k | 0 <= k < |steps| :: Timely(RunOf(n, steps[..k]), steps[k])
  }

  predicate InSection(t: Thread) {
    t.phase != Outside
  }

  predicate MutualExclusion(s: State) {
    forall i, j | 0 <= i < |s.threads| && 0 <= j < |s.threads| && InSection(s.threads[i]) && InSection(s.threads[j]) ::
      i == j
  }

  predicate LockHeld(s: State) {
    s.lock == if exists i | 0 <= i < |s.threads| :: InSection(s.threads[i]) then 1 else 0
  }

  /** What the one thread in the section has established. */
  predicate Progress(s: State, t: Thread) {
    var before := s.wrapCount == s.lastRead / TWO_32 && s.lastTicks == s.lastRead % TWO_32;
    var read := t.ticks == t.at % TWO_32 && s.lastRead <= t.at <= s.now && t.at / TWO_32 < TWO_32;
    match t.phase
    case Outside => true
    case Holding => before
    case HasTicks => before && read && t.at - s.lastRead < TWO_32
    case HasWrap => before && read && t.at - s.lastRead < TWO_32 && t.wrap == s.wrapCount
    case Compared => read && s.wrapCount == t.wrap == t.at / TWO_32
    case Remembered => before && read && t.at == s.lastRead && t.wrap == s.wrapCount
  }

  predicate Exact(r: Reading) {
    0 <= r.at && r.wrap == r.at / TWO_32 && r.ticks == r.at % TWO_32
  }

  predicate Ordered(readings: seq<Reading>) {
    forall i, j | 0 <= i < j < |readings| :: readings[i].at <= readings[j].at
  }

  predicate Safe(s: State) {
    && MutualExclusion(s) && LockHeld(s)
    && 0 <= s.lastRead <= s.now
    && (s.lock == 0 ==> s.wrapCount == s.lastRead / TWO_32 && s.lastTicks == s.lastRead % TWO_32)
    && (forall i | 0 <= i < |s.threads| :: Progress(s, s.threads[i]))
    && (forall k | 0 <= k < |s.readings| :: Exact(s.readings[k]) && s.readings[k].at <= s.lastRead)
    && Ordered(s.readings)
  }

  lemma DivMod32(x: int)
    ensures x == TWO_32 * (x / TWO_32) + x % TWO_32 && 0 <= x % TWO_32 < TWO_32
  {
  }

  /** The tick comparison finds the wrap count of the new reading exactly when less than one wrap has passed. */
  lemma ComparisonFindsWraps(last: int, at: int)
    requires 0 <= last <= at
    ensures at / TWO_32 == last / TWO_32 + (if at % TWO_32 < last % TWO_32 then 1 else 0) <==> at - last < TWO_32
  {
    DivMod32(last);
    DivMod32(at);
  }

  /** What moving thread i from inside the section to inside the section has to keep. */
  lemma SectionStep(s: State, e: State, i: nat, t: Thread)
    requires Safe(s) && i < |s.threads| && InSection(s.threads[i]) && InSection(t)
    requires e.threads == s.threads[i := t] && e.lock == s.lock && e.now == s.now && e.readings == s.readings
    requires s.lastRead <= e.lastRead <= e.now && Progress(e, t)
    ensures Safe(e)
  {
    assert s.lock == 1;
    assert InSection(e.threads[i]);
    forall j | 0 <= j < |e.threads| ensures Progress(e, e.threads[j]) {
      if j != i {
        assert !InSection(s.threads[j]);
      }
    }
    forall j, k | 0 <= j < |e.threads| && 0 <= k < |e.threads| && InSection(e.threads[j]) && InSection(e.threads[k])
      ensures j == k {
      assert InSection(s.threads[j]) && InSection(s.threads[k]);
    }
  }

  lemma EnterStep(s: State, i: nat)
    requires Safe(s) && i < |s.threads| && s.threads[i].phase == Outside && s.lock == 0
    ensures Safe(Next(s, TryLock(i)))
  {
    var e := Next(s, TryLock(i));
    assert forall j | 0 <= j < |s.threads| :: !InSection(s.threads[j]);
    assert InSection(e.threads[i]);
  }

  lemma LeaveStep(s: State, i: nat)
    requires Safe(s) && i < |s.threads| && s.threads[i].phase == Remembered
    ensures Safe(Next(s, Unlock(i)))
  {
    var e := Next(s, Unlock(i));
    assert InSection(s.threads[i]) && Progress(s, s.threads[i]);
    forall j | 0 <= j < |e.threads| ensures !InSection(e.threads[j]) {
      if j != i {
        assert !InSection(s.threads[j]);
      }
    }
  }

  lemma AdvanceStep(s: State, elapsed: nat)
    requires Safe(s)
    ensures Safe(Next(s, Advance(elapsed)))
  {
    var e := Next(s, Advance(elapsed));
    assert e.threads == s.threads;
    forall j | 0 <= j < |e.threads| ensures Progress(e, e.threads[j]) {
      assert Progress(s, s.threads[j]);
    }
  }

  lemma StepIsSafe(s: State, step: Step)
    requires Safe(s) && Timely(s, step)
    ensures Safe(Next(s, step))
  {
    hide Safe;
    var e := Next(s, step);
    if step.Advance? {
      AdvanceStep(s, step.elapsed);
    } else if step.i < |s.threads| {
      var t := s.threads[step.i];
      Bounds(s, t, step.i);
      match step
      case TryLock(i) =>
        if t.phase == Outside {
          LockIsBit(s);
          if s.lock == 0 {
            EnterStep(s, i);
          } else {
            assert e == s;
          }
        }
      case ReadCounter(i) =>
        if t.phase == Holding {
          SectionStep(s, e, i, e.threads[i]);
        }
      case LoadWrap(i) =>
        if t.phase == HasTicks {
          SectionStep(s, e, i, e.threads[i]);
        }
      case CompareTicks(i) =>
        if t.phase == HasWrap {
          ComparisonFindsWraps(s.lastRead, t.at);
          DivMod32(t.at);
          SectionStep(s, e, i, e.threads[i]);
        }
      case StoreTicks(i) =>
        if t.phase == Compared {
          SectionStep(s, e, i, e.threads[i]);
        }
      case Unlock(i) =>
        if t.phase == Remembered {
          LeaveStep(s, i);
        }
    }
  }

  lemma LockIsBit(s: State)
    requires Safe(s)
    ensures s.lock == 0 || s.lock == 1
  {
  }

  lemma Bounds(s: State, t: Thread, i: nat)
    requires Safe(s) && i < |s.threads| && t == s.threads[i]
    ensures Progress(s, t) && 0 <= s.lastRead <= s.now
  {
  }

  /** Every interleaving of any number of threads keeps the clock's invariant. */
  lemma {:induction false} RunIsSafe(n: nat, steps: seq<Step>)
    requires TimelyRun(n, steps)
    ensures Safe(RunOf(n, steps))
  {
    if steps != [] {
      var k := |steps| - 1;
      assert forall j | 0 <= j < k :: steps[..k][..j] == steps[..j];
      RunIsSafe(n, steps[..k]);
      StepIsSafe(RunOf(n, steps[..k]), steps[k]);
    }
  }

  function Call(s: State, i: nat): State {
    var compared := Next(Next(Next(Next(s, TryLock(i)), ReadCounter(i)), LoadWrap(i)), CompareTicks(i));
    Next(Next(compared, StoreTicks(i)), Unlock(i))
  }

  /** A call that finds the lock free and is not interrupted returns the counter's value, with the right wrap count. */
  lemma UndisturbedCall(s: State, i: nat)
    requires Safe(s) && s.lock == 0 && i < |s.threads|
    requires s.now - s.lastRead < TWO_32 && s.now / TWO_32 < TWO_32
    ensures var e := Call(s, i);
      && e.readings == s.readings + [Reading(s.now, s.now / TWO_32, s.now % TWO_32)]
      && e.lock == 0 && e.lastRead == s.now
  {
    assert !InSection(s.threads[i]);
    var s1 := Next(s, TryLock(i));
    var s2 := Next(s1, ReadCounter(i));
    var s3 := Next(s2, LoadWrap(i));
    ComparisonFindsWraps(s.lastRead, s.now);
    DivMod32(s.now);
    var s4 := Next(s3, CompareTicks(i));
    assert s4.threads[i].wrap == s.now / TWO_32;
    var s5 := Next(s4, StoreTicks(i));
  }

  /** At most one thread is between lock and unlock, and while none is, the wrap count is that of the last reading. */
  lemma LockProtectsWrapCount(n: nat, steps: seq<Step>)
    requires TimelyRun(n, steps)
    ensures var s := RunOf(n, steps);
      && MutualExclusion(s)
      && (s.lock == 0 ==> s.wrapCount == s.lastRead / TWO_32 && s.lastTicks == s.lastRead % TWO_32)
  {
    RunIsSafe(n, steps);
  }

  /** The time a finished call returns. */
  function TimeOf(hz: int, r: Reading): Timeval
    requires hz >= 10
  {
    Converted(hz, TWO_32, r.wrap, r.ticks)
  }

  lemma ExactTicks(r: Reading)
    requires Exact(r)
    ensures Ticks(TWO_32, r.wrap, r.ticks) == r.at && 0 <= r.ticks < TWO_32 && 0 <= r.wrap
  {
    DivMod32(r.at);
  }

  lemma TwoReadings(hz: int, a: Reading, b: Reading)
    requires Rate(hz) && Exact(a) && Exact(b) && a.at <= b.at
    ensures hz >= 10
    ensures TimeOf(hz, a) == TimeOf(hz, b) || LexLess(TimeOf(hz, a), TimeOf(hz, b))
    ensures Micros(TimeOf(hz, b)) - Micros(TimeOf(hz, a)) == (b.at - a.at) * (MICROS / hz)
  {
    hide Converted, Exact, Ticks;
    ExactTicks(a);
    ExactTicks(b);
    assert Word(TWO_32);
    ConversionIsExact(hz, TWO_32, a.wrap, a.ticks);
    ConversionIsExact(hz, TWO_32, b.wrap, b.ticks);
    Distribute(b.at, -a.at, MICROS / hz);
    if a.at < b.at {
      ConversionIsMonotone(hz, TWO_32, a.wrap, a.ticks, b.wrap, b.ticks);
    } else {
      SameReading(a, b);
    }
  }

  lemma SameReading(a: Reading, b: Reading)
    requires Exact(a) && Exact(b) && a.at == b.at
    ensures a == b
  {
  }

  lemma ReadingsInOrder(s: State, i: nat, j: nat)
    requires Safe(s) && i < j < |s.readings|
    ensures Exact(s.readings[i]) && Exact(s.readings[j]) && s.readings[i].at <= s.readings[j].at
  {
  }

  /** The times returned, in the order the lock was held, never go back and differ by exactly the ticks between them. */
  lemma TimesNeverGoBack(n: nat, steps: seq<Step>, hz: int, i: nat, j: nat)
    requires TimelyRun(n, steps) && Rate(hz)
    requires i < j < |RunOf(n, steps).readings|
    ensures hz >= 10
    ensures var a, b := RunOf(n, steps).readings[i], RunOf(n, steps).readings[j];
      && a.at <= b.at
      && (TimeOf(hz, a) == TimeOf(hz, b) || LexLess(TimeOf(hz, a), TimeOf(hz, b)))
      && Micros(TimeOf(hz, b)) - Micros(TimeOf(hz, a)) == (b.at - a.at) * (MICROS / hz)
  {
    hide *;
    RunIsSafe(n, steps);
    ReadingsInOrder(RunOf(n, steps), i, j);
    TwoReadings(hz, RunOf(n, steps).readings[i], RunOf(n, steps).readings[j]);
  }

  /** The time a finished call returns, in the machine's arithmetic. */
  function Returned(hz: int, r: Reading): Timeval
    requires hz >= 10
  {
    WordTime(hz, TWO_32, r.wrap, r.ticks)
  }

  lemma ReturnedIsTime(hz: int, r: Reading)
    requires Rate(hz) && Exact(r) && Word(TWO_32) && hz >= 10 && r.at < Horizon(hz, TWO_32)
    ensures Returned(hz, r) == TimeOf(hz, r)
  {
    hide Exact, Horizon, Converted, WordTime, Fits, Ticks;
    ExactTicks(r);
    FitsBeforeHorizon(hz, TWO_32, r.wrap, r.ticks);
  }

  /** Before the horizon this is so of the words that are returned; at the horizon they go back. */
  lemma ReturnedNeverGoesBack(n: nat, steps: seq<Step>, hz: int, i: nat, j: nat)
    requires TimelyRun(n, steps) && Rate(hz)
    requires i < j < |RunOf(n, steps).readings|
    ensures hz >= 10 && Word(TWO_32)
    ensures var a, b := RunOf(n, steps).readings[i], RunOf(n, steps).readings[j];
      b.at < Horizon(hz, TWO_32) ==>
        && (Returned(hz, a) == Returned(hz, b) || LexLess(Returned(hz, a), Returned(hz, b)))
        && Micros(Returned(hz, b)) - Micros(Returned(hz, a)) == (b.at - a.at) * (MICROS / hz)
  {
    hide *;
    RateAtMost(hz);
    MachineWords();
    RunIsSafe(n, steps);
    ReadingsInOrder(RunOf(n, steps), i, j);
    var a, b := RunOf(n, steps).readings[i], RunOf(n, steps).readings[j];
    TwoReadings(hz, a, b);
    if b.at < Horizon(hz, TWO_32) {
      ReturnedIsTime(hz, a);
      ReturnedIsTime(hz, b);
    }
  }

  /**
   * The horizon of the 32-bit clocks: 1000 wraps of a millisecond counter, but 4441 of a microsecond counter, whose
   * left-over ticks leave the word after 220 days.
   */
  lemma Horizons()
    ensures Word(TWO_32) && Horizon(1000, TWO_32) == 1000 * TWO_32 && Horizon(1000000, TWO_32) == 4441 * TWO_32
  {
    MachineWords();
  }

  // ---- One call at a time, as the code is written ----

  /** The static variables of CliGetMonotonicClock's locked branch. */
  class MonotonicClock {
    var wrapCount: int
    var lastTicks: int
    ghost var lastRead: int // the true tick count of the last call

    ghost predicate Valid()
      reads this
    {
      0 <= lastRead && wrapCount == lastRead / TWO_32 && lastTicks == lastRead % TWO_32
    }

    constructor ()
      ensures Valid() && lastRead == 0
    {
      wrapCount, lastTicks, lastRead := 0, 0, 0;
    }

    /** `at` is the true tick count, of which the code only reads the low 32 bits. */
    method CliGetMonotonicClock(hz: int, at: int) returns (tv: Timeval)
      requires Valid() && 10 <= hz <= MICROS && lastRead <= at && at - lastRead < TWO_32 && at / TWO_32 < TWO_32
      modifies this
      ensures Valid() && lastRead == at
      ensures Word(TWO_32) && tv == WordTime(hz, TWO_32, at / TWO_32, at % TWO_32)
      ensures Rate(hz) && at < Horizon(hz, TWO_32) ==> tv == Converted(hz, TWO_32, at / TWO_32, at % TWO_32)
    {
      hide Fits, Converted, Horizon, WordTime;
      var ticks := at % TWO_32;
      var wrap := wrapCount;
      ComparisonFindsWraps(lastRead, at);
      DivMod32(at);
      if ticks < lastTicks {
        wrap := U32(wrap + 1);
        wrapCount := wrap;
      }
      lastTicks := ticks;
      lastRead := at;
      MachineWords();
      tv := Clks2tv(hz, TWO_32, ticks, wrap);
      if Rate(hz) && at < Horizon(hz, TWO_32) {
        FitsBeforeHorizon(hz, TWO_32, wrap, ticks);
      }
    }
  }

  /** CliClock's static base time, and the time since it was taken. */
  class ClientClock {
    var needBase: bool
    var base: Timeval

    constructor ()
      ensures needBase
    {
      needBase, base := true, Timeval(0, 0);
    }

    /**
     * `now` is what CliGetMonotonicClock gives, if it succeeds; `wanted` is whether the caller passed a place for the
     * answer.
     */
    method CliClock(ok: bool, now: Timeval, wanted: bool) returns (rc: int, tv: Timeval)
      modifies this
      ensures rc == 0 || rc == -1
      ensures rc == 0 <==> if old(needBase) then ok else !wanted || (ok && !LexLess(now, old(base)))
      ensures needBase == (old(needBase) && rc == -1)
      ensures base == if old(needBase) && rc == 0 then now else old(base)
      ensures rc == 0 && wanted ==> tv == if old(needBase) then Timeval(0, 1) else Since(old(base), now)
    {
      rc, tv := -1, Timeval(0, 0);
      if needBase {
        if !ok {
          return;
        }
        base := now;
        needBase := false;
        return 0, Timeval(0, 1);
      }
      if !wanted {
        return 0, tv;
      }
      if !ok {
        return;
      }
      if now.sec < base.sec || (now.sec == base.sec && now.usec < base.usec) {
        return;
      }
      var t := now;
      if t.usec < base.usec {
        t := Timeval(t.sec - 1, t.usec + MICROS);
      }
      return 0, Timeval(t.sec - base.sec, t.usec - base.usec);
    }
  }

  function Since(base: Timeval, now: Timeval): Timeval {
    if now.usec < base.usec then Timeval(now.sec - 1 - base.sec, now.usec + MICROS - base.usec)
    else Timeval(now.sec - base.sec, now.usec - base.usec)
  }

  /** The difference is exact, and its seconds are not negative for a time not before the base. */
  lemma SinceIsExact(base: Timeval, now: Timeval)
    ensures Micros(Since(base, now)) == Micros(now) - Micros(base)
    ensures !LexLess(now, base) ==> Since(base, now).sec >= 0
  {
  }

  /** The answer to CliClock's reading number k of a sequence of true tick counts. */
  function Answer(hz: int, counts: seq<int>, k: nat): Timeval
    requires hz >= 10 && k < |counts|
  {
    if k == 0 then Timeval(0, 1)
    else Since(Converted(hz, TWO_32, counts[0] / TWO_32, counts[0] % TWO_32),
               Converted(hz, TWO_32, counts[k] / TWO_32, counts[k] % TWO_32))
  }

  /** Before the horizon, these are the answers the machine's arithmetic gives. */
  lemma AnswerIsReturned(hz: int, counts: seq<int>, k: nat)
    requires Rate(hz) && 0 < k < |counts| && 0 <= counts[0] && 0 <= counts[k]
    ensures hz >= 10 && Word(TWO_32)
    ensures counts[0] < Horizon(hz, TWO_32) && counts[k] < Horizon(hz, TWO_32) ==>
      Answer(hz, counts, k) == Since(WordTime(hz, TWO_32, counts[0] / TWO_32, counts[0] % TWO_32),
                                     WordTime(hz, TWO_32, counts[k] / TWO_32, counts[k] % TWO_32))
  {
    hide Horizon, Converted, WordTime, Fits, Since;
    RateAtMost(hz);
    MachineWords();
    DivMod32(counts[0]);
    DivMod32(counts[k]);
    if counts[0] < Horizon(hz, TWO_32) && counts[k] < Horizon(hz, TWO_32) {
      FitsBeforeHorizon(hz, TWO_32, counts[0] / TWO_32, counts[0] % TWO_32);
      FitsBeforeHorizon(hz, TWO_32, counts[k] / TWO_32, counts[k] % TWO_32);
    }
  }

  lemma AnswerIsElapsed(hz: int, counts: seq<int>, k: nat)
    requires Rate(hz) && 0 < k < |counts| && (forall i | 0 <= i < |counts| :: 0 <= counts[i])
    ensures hz >= 10 && Micros(Answer(hz, counts, k)) == (counts[k] - counts[0]) * (MICROS / hz)
  {
    hide Converted, Since;
    var a, b := counts[0], counts[k];
    assert Word(TWO_32);
    DivMod32(a);
    DivMod32(b);
    ConversionIsExact(hz, TWO_32, a / TWO_32, a % TWO_32);
    ConversionIsExact(hz, TWO_32, b / TWO_32, b % TWO_32);
    SinceIsExact(Converted(hz, TWO_32, a / TWO_32, a % TWO_32), Converted(hz, TWO_32, b / TWO_32, b % TWO_32));
    Distribute(b, -a, MICROS / hz);
  }

  // ---- Whether the answer is normalised ----

  /** What __clks2tv takes for the fraction of the second: two remainders added, up to twice a second. */
  function Fraction(hz: int, count: int): int
    requires hz > 0
  {
    count % TWO_32 % hz + count / TWO_32 * TWO_32 % hz
  }

  /** The two remainders make up a full second or more, which the conversion leaves in the microseconds. */
  predicate Carries(hz: int, count: int)
    requires hz > 0
  {
    Fraction(hz, count) >= hz
  }

  /** Remainders add up to the remainder of the sum, or to that and hz. */
  lemma TwoRemainders(a: int, b: int, hz: int)
    requires hz > 0 && a >= 0 && b >= 0
    ensures a % hz + b % hz == (a + b) % hz + if a % hz + b % hz >= hz then hz else 0
  {
    DivMod(a, hz);
    DivMod(b, hz);
    var rest, whole := a % hz + b % hz, a / hz + b / hz;
    Distribute(a / hz, b / hz, hz);
    Distribute(whole, 1, hz);
    if rest < hz {
      SameRemainder(a + b, rest, whole, hz);
    } else {
      SameRemainder(a + b, rest - hz, whole + 1, hz);
    }
  }

  lemma SameRemainder(a: int, b: int, k: int, hz: int)
    requires hz > 0 && a == b + k * hz && 0 <= b < hz
    ensures a % hz == b
  {
    DivMod(a, hz);
    var j := a / hz - k;
    Distribute(a / hz, -k, hz);
    assert j * hz == b - a % hz;
    if j <= -1 {
      MulMono(j, -1, hz);
    } else if j >= 1 {
      MulMono(1, j, hz);
    }
  }

  /** The microseconds of a conversion, by the tick count. */
  lemma ConvertedFraction(hz: int, count: int)
    requires Rate(hz) && count >= 0
    ensures hz >= 10
    ensures Converted(hz, TWO_32, count / TWO_32, count % TWO_32).usec == Fraction(hz, count) * (MICROS / hz)
    ensures Fraction(hz, count) == count % hz + (if Carries(hz, count) then hz else 0) && 0 <= count % hz < hz
  {
    hide Seconds;
    RoundedQuotient(hz);
    RestIsFraction(hz, count);
    DivMod32(count);
    TwoRemainders(count % TWO_32, count / TWO_32 * TWO_32, hz);
    DivMod(count, hz);
  }

  lemma RestIsFraction(hz: int, count: int)
    requires Rate(hz) && count >= 0
    ensures hz >= 10 && Rest(hz, TWO_32, count / TWO_32, count % TWO_32) == Fraction(hz, count)
  {
    hide LeftOver, WholeSeconds;
    WrapSplits(hz, TWO_32);
    DivMod32(count);
    var wrap, left, whole := count / TWO_32, LeftOver(hz, TWO_32), WholeSeconds(hz, TWO_32);
    DivMod(wrap * left, hz);
    assert wrap * TWO_32 == wrap * (whole * hz + left);
    Distribute(whole * hz, left, wrap);
    assert wrap * TWO_32 == (wrap * left) % hz + (wrap * whole + (wrap * left) / hz) * hz by {
      Distribute(wrap * whole, (wrap * left) / hz, hz);
      assert wrap * (whole * hz) == (wrap * whole) * hz;
    }
    SameRemainder(wrap * TWO_32, (wrap * left) % hz, wrap * whole + (wrap * left) / hz, hz);
  }

  lemma ScaledRange(x: int, hz: int, u: int)
    requires u > 0
    ensures x * u < 0 <==> x < 0
    ensures x * u < hz * u <==> x < hz
  {
    if x < 0 {
      MulMono(x, -1, u);
    } else {
      MulMono(0, x, u);
    }
    if x < hz {
      MulMono(x, hz - 1, u);
      Distribute(hz, -1, u);
    } else {
      MulMono(hz, x, u);
    }
  }

  /**
   * The microseconds of an answer are a million or more exactly when the reading carries and the base does not, and the
   * reading is not earlier within its second; they are negative exactly when it is the other way round; else
   * normalised.
   */
  lemma AnswerIsNormalIff(hz: int, counts: seq<int>, k: nat)
    requires Rate(hz) && 0 < k < |counts| && (forall i | 0 <= i < |counts| :: 0 <= counts[i])
    ensures hz >= 10
    ensures var base, now, usec := counts[0], counts[k], Answer(hz, counts, k).usec;
      && (usec >= MICROS <==> Carries(hz, now) && !Carries(hz, base) && now % hz >= base % hz)
      && (usec < 0 <==> Carries(hz, base) && !Carries(hz, now) && now % hz < base % hz)
  {
    hide *;
    RoundedQuotient(hz);
    AnswerByFractions(hz, counts, k);
    var base, now, u := counts[0], counts[k], MICROS / hz;
    var b, n := Fraction(hz, base), Fraction(hz, now);
    ConvertedFraction(hz, base);
    ConvertedFraction(hz, now);
    CarriesIs(hz, base);
    CarriesIs(hz, now);
    MicrosPerTick(hz);
    ScaledRange(if n < b then n - b + hz else n - b, hz, u);
  }

  lemma MicrosPerTick(hz: int)
    requires Rate(hz)
    ensures MICROS / hz > 0
  {
    RoundedQuotient(hz);
    var u := MICROS / hz;
    if u <= 0 {
      MulMono(u, 0, hz);
    }
  }

  lemma CarriesIs(hz: int, count: int)
    requires hz > 0
    ensures Carries(hz, count) <==> Fraction(hz, count) >= hz
  {
  }

  lemma AnswerByFractions(hz: int, counts: seq<int>, k: nat)
    requires Rate(hz) && 0 < k < |counts| && (forall i | 0 <= i < |counts| :: 0 <= counts[i])
    ensures hz >= 10
    ensures var b, n := Fraction(hz, counts[0]), Fraction(hz, counts[k]);
      Answer(hz, counts, k).usec == (if n < b then n - b + hz else n - b) * (MICROS / hz)
  {
    hide Converted, Fraction;
    RoundedQuotient(hz);
    ConvertedFraction(hz, counts[0]);
    ConvertedFraction(hz, counts[k]);
    SinceScaled(Converted(hz, TWO_32, counts[0] / TWO_32, counts[0] % TWO_32),
                Converted(hz, TWO_32, counts[k] / TWO_32, counts[k] % TWO_32),
                Fraction(hz, counts[0]), Fraction(hz, counts[k]), hz, MICROS / hz);
  }

  lemma SinceScaled(base: Timeval, now: Timeval, b: int, n: int, hz: int, u: int)
    requires base.usec == b * u && now.usec == n * u && hz * u == MICROS && hz > 0
    ensures u > 0 && Since(base, now).usec == (if n < b then n - b + hz else n - b) * u
  {
    if u <= 0 {
      MulMono(u, 0, hz);
    }
    assert (n - b) * u == n * u - b * u && (n - b + hz) * u == n * u - b * u + hz * u;
    ScaledRange(n - b, 0, u);
  }

  /** A base taken before the counter first wraps does not carry, so no answer from it is ever negative. */
  lemma EarlyBaseNeverNegative(hz: int, counts: seq<int>, k: nat)
    requires Rate(hz) && 0 < k < |counts| && (forall i | 0 <= i < |counts| :: 0 <= counts[i]) && counts[0] < TWO_32
    ensures hz >= 10 && Answer(hz, counts, k).usec >= 0
  {
    hide Answer, Carries;
    AnswerIsNormalIff(hz, counts, k);
    EarlyDoesNotCarry(hz, counts[0]);
  }

  lemma EarlyDoesNotCarry(hz: int, count: int)
    requires hz > 0 && 0 <= count < TWO_32
    ensures !Carries(hz, count)
  {
    assert count / TWO_32 == 0 && count % TWO_32 == count;
    NothingOver(hz);
    DivMod(count, hz);
  }

  /** Readings that do not go back and are less than a wrap apart, so that no wrap is missed. */
  predicate Spaced(counts: seq<int>) {
    forall i: nat | i + 1 < |counts| :: 0 <= counts[i] <= counts[i + 1] < counts[i] + TWO_32
  }

  /**
   * A millisecond counter read about every 46 days: from the first tick on, the fifth reading answers with 1.886 s in
   * usec.
   */
  function SlowReadings(): seq<int> { [1, 4_000_000_000, 8_000_000_000, 12_000_000_000, 3 * TWO_32 + 999] }

  /** The same with a base after the first wrap: the fifth reading answers with minus a millisecond in usec. */
  function LateReadings(): seq<int> { [TWO_32 + 889, 8_000_000_000, 12_000_000_000, 16_000_000_000, 4 * TWO_32] }

  lemma SlowReadingsExceed()
    ensures Rate(1000) && Spaced(SlowReadings()) && Answer(1000, SlowReadings(), 4).usec == 1886000
  {
    SpacedFive(SlowReadings());
    FractionOf(1, 0, 1, 0);
    FractionOf(3 * TWO_32 + 999, 3, 999, 888);
    hide Answer, Converted, Spaced, Fraction;
    AnswerByFractions(1000, SlowReadings(), 4);
  }

  lemma LateReadingsFallBelow()
    ensures Rate(1000) && Spaced(LateReadings()) && Answer(1000, LateReadings(), 4).usec == -1000
  {
    SpacedFive(LateReadings());
    FractionOf(TWO_32 + 889, 1, 889, 296);
    FractionOf(4 * TWO_32, 4, 0, 184);
    hide Answer, Converted, Spaced, Fraction;
    AnswerByFractions(1000, LateReadings(), 4);
  }

  lemma SpacedFive(c: seq<int>)
    requires |c| == 5 && 0 <= c[0] <= c[1] <= c[2] <= c[3] <= c[4]
    requires c[1] < c[0] + TWO_32 && c[2] < c[1] + TWO_32 && c[3] < c[2] + TWO_32 && c[4] < c[3] + TWO_32
    ensures Spaced(c)
  {
  }

  /** The fraction of a count of so many wraps and ticks, for a millisecond counter. */
  lemma FractionOf(count: int, wraps: int, ticks: int, left: int)
    requires count == wraps * TWO_32 + ticks && 0 <= ticks < 1000 && 0 <= left < 1000 && wraps * TWO_32 % 1000 == left
    ensures Fraction(1000, count) == ticks + left
  {
    DivMod32(count);
  }

  /**
   * CliClock never steps back between readings of a counter that does not, except after its first: that one is
   * reported as one microsecond, so the second is earlier exactly when no tick has passed.
   */
  lemma CliClockStepsBackOnlyAtFirst(hz: int, counts: seq<int>, i: nat, j: nat)
    requires Rate(hz) && i < j < |counts| && (forall k | 0 <= k < |counts| :: 0 <= counts[k])
    requires forall a, b | 0 <= a < b < |counts| :: counts[a] <= counts[b]
    ensures hz >= 10
    ensures Micros(Answer(hz, counts, i)) > Micros(Answer(hz, counts, j)) <==> i == 0 && counts[j] == counts[0]
  {
    RoundedQuotient(hz);
    AnswerIsElapsed(hz, counts, j);
    var u := MICROS / hz;
    if i > 0 {
      AnswerIsElapsed(hz, counts, i);
      MulMono(counts[i] - counts[0], counts[j] - counts[0], u);
    } else if counts[j] > counts[0] {
      MulMono(1, counts[j] - counts[0], u);
    }
  }
}
