/**
 * Adding and subtracting timevals through possibly equal pointers (clitime.cpp), and the per-contest summary
 * (clicdata.cpp).
 */
module Timevals {
  import opened Machine
  import opened TickConversion

  /** A struct timeval that pointers refer to. */
  class Cell {
    var sec: int
    var usec: int

    constructor (t: Timeval)
      ensures Value() == t
    {
      sec, usec := t.sec, t.usec;
    }

    function Value(): Timeval
      reads this
    {
      Timeval(sec, usec)
    }
  }

  predicate Normal(t: Timeval) {
    0 <= t.sec < TWO_64 && 0 <= t.usec < MICROS
  }

  function Normalised(t: Timeval): Timeval {
    if t.usec >= MICROS then Timeval(t.sec + t.usec / MICROS, t.usec % MICROS) else t
  }

  function Sum(a: Timeval, b: Timeval): Timeval {
    Normalised(Timeval(a.sec + b.sec, a.usec + b.usec))
  }

  /** a is taken for the earlier time: both fields are compared as unsigned longs. */
  predicate Earlier(a: Timeval, b: Timeval) {
    U64(a.sec) < U64(b.sec) || (a.sec == b.sec && U64(a.usec) < U64(b.usec))
  }

  function Diff(a: Timeval, b: Timeval): Timeval {
    var (from, to) := if Earlier(b, a) then (b, a) else (a, b);
    if U64(to.usec) < U64(from.usec) then Timeval(to.sec - 1 - from.sec, to.usec + MICROS - from.usec)
    else Timeval(to.sec - from.sec, to.usec - from.usec)
  }

  /** What CliTimerAdd leaves in `result`: a null argument stands for the current time. */
  ghost function AddResult(result: Cell, tv1: Cell?, tv2: Cell?, now: Timeval): Timeval
    reads tv1, tv2
  {
    if tv1 == null && tv2 == null then now
    else if tv1 == null then Sum(now, if tv2 == result then now else tv2.Value())
    else if tv2 == null then Sum(if tv1 == result then now else tv1.Value(), now)
    else Sum(tv1.Value(), tv2.Value())
  }

  /** `now` is the time CliTimer would give. */
  method CliTimerAdd(result: Cell?, tv1: Cell?, tv2: Cell?, now: Timeval)
    modifies result
    ensures result != null ==> result.Value() == old(AddResult(result, tv1, tv2, now))
  {
    if result != null {
      var a, b := tv1, tv2;
      if a == null || b == null {
        result.sec, result.usec := now.sec, now.usec;
        if a == null && b == null {
          return;
        }
        if a == null {
          a := result;
        }
        if b == null {
          b := result;
        }
      }
      result.sec := a.sec + b.sec;
      AddUsec(result, a, b);
    }
  }

  /** The second half of the addition: the microseconds and their carry. */
  method AddUsec(result: Cell, a: Cell, b: Cell)
    modifies result
    ensures result.Value() == Normalised(Timeval(old(result.sec), old(a.usec) + old(b.usec)))
  {
    result.usec := a.usec + b.usec;
    if result.usec >= MICROS {
      result.sec := result.sec + result.usec / MICROS;
      result.usec := result.usec % MICROS;
    }
  }

  method CliTimerDiff(result: Cell?, tv1: Cell?, tv2: Cell?, now: Timeval)
    modifies result
    ensures result != null && tv1 == null && tv2 == null ==> result.Value() == Timeval(0, 0)
    ensures result != null && (tv1 != null || tv2 != null) ==>
      result.Value() == Diff(if tv1 == null then now else old(tv1.Value()),
                             if tv2 == null then now else old(tv2.Value()))
  {
    if result != null {
      if tv1 == null && tv2 == null {
        result.sec, result.usec := 0, 0;
        return;
      }
      var temp := new Cell(now);
      var a: Cell := if tv1 == null then temp else tv1;
      var b: Cell := if tv2 == null then temp else tv2;
      if U64(b.sec) < U64(a.sec) || (b.sec == a.sec && U64(b.usec) < U64(a.usec)) {
        a, b := b, a;
      }
      var sec, usec := b.sec, b.usec;
      if U64(usec) < U64(a.usec) {
        usec, sec := usec + MICROS, sec - 1;
      }
      result.sec := sec - a.sec;
      result.usec := usec - a.usec;
    }
  }

  lemma SmallU64(x: int)
    requires 0 <= x < TWO_64
    ensures U64(x) == x
  {
  }

  /** The difference of normalised times is normalised and is the absolute difference, in either order. */
  lemma DiffIsAbsolute(a: Timeval, b: Timeval)
    requires Normal(a) && Normal(b)
    ensures Normal(Diff(a, b)) && Diff(a, b) == Diff(b, a)
    ensures Micros(Diff(a, b)) == if Micros(a) <= Micros(b) then Micros(b) - Micros(a) else Micros(a) - Micros(b)
  {
    hide U64;
    SmallU64(a.sec);
    SmallU64(b.sec);
    SmallU64(a.usec);
    SmallU64(b.usec);
  }

  /** The sum is exact, and normalised if the arguments are not negative. */
  lemma SumIsExact(a: Timeval, b: Timeval)
    ensures Micros(Sum(a, b)) == Micros(a) + Micros(b)
    ensures 0 <= a.usec && 0 <= b.usec ==> 0 <= Sum(a, b).usec < MICROS
  {
  }

  lemma NormalUnique(a: Timeval, b: Timeval)
    requires 0 <= a.usec < MICROS && 0 <= b.usec < MICROS && Micros(a) == Micros(b)
    ensures a == b
  {
  }

  /** Adding the difference to the earlier time gives the later one. */
  lemma SumOfDiff(a: Timeval, b: Timeval)
    requires Normal(a) && Normal(b) && Micros(a) <= Micros(b)
    ensures Sum(a, Diff(a, b)) == b
  {
    DiffIsAbsolute(a, b);
    SumIsExact(a, Diff(a, b));
    NormalUnique(Sum(a, Diff(a, b)), b);
  }

  /**
   * CliTimerAdd with one null argument means "now plus the other". That fails exactly when the other argument is the
   * result cell itself and does not hold the current time already: it is overwritten before it is read.
   */
  lemma AddNowIsWrongOnlyInPlace(result: Cell, tv2: Cell, now: Timeval)
    requires Normal(now) && Normal(tv2.Value())
    ensures AddResult(result, null, tv2, now) == Sum(now, tv2.Value()) <==> tv2 != result || tv2.Value() == now
    ensures AddResult(result, tv2, null, now) == Sum(tv2.Value(), now) <==> tv2 != result || tv2.Value() == now
  {
    var t := tv2.Value();
    SumIsExact(now, t);
    SumIsExact(t, now);
    SumIsExact(now, now);
    if t != now && Micros(t) == Micros(now) {
      NormalUnique(t, now);
    }
  }

  // ---- The summary of finished work ----

  /** One call of CliAddContestInfoSummaryData. */
  datatype Work = Work(iterHi: u32, iterLo: u32, time: Timeval, units: u32)

  datatype Summary = Summary(blocks: nat, iterHi: u32, iterLo: u32, units: u32, time: Timeval)

  function Iterations(hi: u32, lo: u32): u64 {
    hi * TWO_32 + lo
  }

  /** The conStats entry of one contest. */
  class ContestInfo {
    var blocks: nat
    var iterHi: u32
    var iterLo: u32
    var units: u32
    var sec: int
    var usec: int

    function Value(): Summary
      reads this
    {
      Summary(blocks, iterHi, iterLo, units, Timeval(sec, usec))
    }

    constructor ()
      ensures Value() == Summary(0, 0, 0, 0, Timeval(0, 0))
    {
      blocks, iterHi, iterLo, units, sec, usec := 0, 0, 0, 0, 0, 0;
    }

    /** `valid` is whether the contest is known and the caller passed a time. */
    method CliAddContestInfoSummaryData(w: Work, valid: bool) returns (rc: int)
      modifies this
      ensures rc == if valid then 0 else -1
      ensures Value() == if valid then Added(old(Value()), w) else old(Value())
    {
      hide U32;
      if !valid {
        return -1;
      }
      blocks := blocks + 1;
      var lo := U32(w.iterLo + iterLo);
      if lo < iterLo {
        iterHi := U32(iterHi + 1);
      }
      iterLo := lo;
      iterHi := U32(iterHi + w.iterHi);
      units := U32(units + w.units);
      sec := sec + w.time.sec;
      usec := usec + w.time.usec;
      if usec > MICROS {
        sec := sec + usec / MICROS;
        usec := usec % MICROS;
      }
      return 0;
    }
  }

  function Added(s: Summary, w: Work): Summary {
    var lo := U32(w.iterLo + s.iterLo);
    var usec := s.time.usec + w.time.usec;
    var hi := U32((if lo < s.iterLo then U32(s.iterHi + 1) else s.iterHi) + w.iterHi);
    Summary(s.blocks + 1, hi, lo, U32(s.units + w.units),
            if usec > MICROS then Timeval(s.time.sec + w.time.sec + usec / MICROS, usec % MICROS)
            else Timeval(s.time.sec + w.time.sec, usec))
  }

  /** The two-word addition with carry is addition modulo 2^64. */
  lemma {:induction false} CarryIsExact(s: Summary, w: Work)
    ensures Iterations(Added(s, w).iterHi, Added(s, w).iterLo)
         == U64(Iterations(s.iterHi, s.iterLo) + Iterations(w.iterHi, w.iterLo))
  {
    hide U32, U64, Iterations;
    var sum := w.iterLo + s.iterLo;
    var carry := if sum >= TWO_32 then 1 else 0;
    var e := Added(s, w);
    U32Cases(sum);
    assert e.iterLo == sum - carry * TWO_32;
    assert e.iterLo < s.iterLo <==> carry == 1;
    var high := s.iterHi + carry + w.iterHi;
    HighWord(s.iterHi, carry, w.iterHi);
    assert e.iterHi == U32(high);
    hide Added;
    TwoWords(s.iterHi, s.iterLo, w.iterHi, w.iterLo, carry);
    OneValue(e.iterHi, e.iterLo);
  }

  lemma {:induction false} OneValue(hi: u32, lo: u32)
    ensures Iterations(hi, lo) == hi * TWO_32 + lo == U64(hi * TWO_32 + lo)
  {
  }

  lemma {:induction false} HighWord(a: u32, carry: int, b: u32)
    requires 0 <= carry <= 1
    ensures U32((if carry == 1 then U32(a + 1) else a) + b) == U32(a + carry + b)
  {
    U32Cases(a + carry);
  }

  lemma {:induction false} TwoWords(aHi: u32, aLo: u32, bHi: u32, bLo: u32, carry: int)
    ensures U64(Iterations(aHi, aLo) + Iterations(bHi, bLo)) ==
            U64(U32(aHi + carry + bHi) * TWO_32 + (aLo + bLo - carry * TWO_32))
  {
    var high := aHi + carry + bHi;
    assert high == TWO_32 * (high / TWO_32) + U32(high);
    assert Iterations(aHi, aLo) + Iterations(bHi, bLo)
        == (high / TWO_32) * TWO_64 + U32(high) * TWO_32 + (aLo + bLo - carry * TWO_32);
  }

  function RunOf(works: seq<Work>): Summary {
    if works == [] then Summary(0, 0, 0, 0, Timeval(0, 0)) else Added(RunOf(works[..|works| - 1]), works[|works| - 1])
  }

  function TotalMicros(works: seq<Work>): int {
    if works == [] then 0 else TotalMicros(works[..|works| - 1]) + Micros(works[|works| - 1].time)
  }

  function TotalIterations(works: seq<Work>): nat {
    if works == [] then 0
    else TotalIterations(works[..|works| - 1]) + Iterations(works[|works| - 1].iterHi, works[|works| - 1].iterLo)
  }

  function TotalUnits(works: seq<Work>): nat {
    if works == [] then 0 else TotalUnits(works[..|works| - 1]) + works[|works| - 1].units
  }

  lemma {:induction false} AddedTime(s: Summary, w: Work)
    requires 0 <= s.time.usec && 0 <= w.time.usec
    ensures Micros(Added(s, w).time) == Micros(s.time) + Micros(w.time) && 0 <= Added(s, w).time.usec <= MICROS
  {
    hide U32;
  }

  lemma {:induction false} AddedCounts(s: Summary, w: Work, units: nat)
    requires s.units == U32(units)
    ensures Added(s, w).blocks == s.blocks + 1 && Added(s, w).units == U32(units + w.units)
  {
    ModularSum32(units, w.units);
    hide U32;
  }

  lemma {:induction false} ModularSum32(a: int, b: int)
    ensures U32(U32(a) + b) == U32(a + b)
  {
  }

  lemma {:induction false} ModularSum(a: int, b: int)
    ensures U64(U64(a) + b) == U64(a + b)
  {
  }

  /**
   * Over any sequence of calls: no microsecond and no block is lost, and the counters are the totals modulo their size.
   */
  lemma {:induction false} SummaryConserves(works: seq<Work>)
    requires forall i | 0 <= i < |works| :: 0 <= works[i].time.usec
    ensures var s := RunOf(works);
      && s.blocks == |works|
      && Micros(s.time) == TotalMicros(works)
      && 0 <= s.time.usec <= MICROS
      && Iterations(s.iterHi, s.iterLo) == U64(TotalIterations(works))
      && s.units == U32(TotalUnits(works))
  {
    if works != [] {
      var before, w := works[..|works| - 1], works[|works| - 1];
      TotalsOfMore(works);
      hide *;
      SummaryConserves(before);
      AddedTime(RunOf(before), w);
      AddedCounts(RunOf(before), w, TotalUnits(before));
      CarryIsExact(RunOf(before), w);
      ModularSum(TotalIterations(before), Iterations(w.iterHi, w.iterLo));
    }
  }

  lemma {:induction false} TotalsOfMore(works: seq<Work>)
    requires works != []
    ensures var before, w := works[..|works| - 1], works[|works| - 1];
      && RunOf(works) == Added(RunOf(before), w)
      && TotalMicros(works) == TotalMicros(before) + Micros(w.time)
      && TotalIterations(works) == TotalIterations(before) + Iterations(w.iterHi, w.iterLo)
      && TotalUnits(works) == TotalUnits(before) + w.units
  {
    hide Added, Micros, Iterations;
  }

  /** The bound on the microseconds is reached: the carry test leaves a full second standing. */
  lemma FullSecondStands()
    ensures var half := Work(0, 0, Timeval(0, 500000), 0); RunOf([half, half]).time == Timeval(0, MICROS)
  {
    var half := Work(0, 0, Timeval(0, 500000), 0);
    assert [half, half][..1] == [half] && [half][..0] == [];
    assert RunOf([half]).time == Timeval(0, 500000);
  }
}
