/** The dynamic timeslice controller of Go_mt (clirun.cpp): how long a run took, and how much to do in the next one. */
module Timeslice {
  import opened Machine

  /** A row of the timeslice table: the run time aimed at, in microseconds, and the bounds of the slice. */
  datatype Entry = Entry(usec: u32, min: u32, max: u32)

  const RC5_72 := Entry(1000000, 0x100, 0x8000_0000)
  const OGR := Entry(200000, 0x10, 0x800_0000)
  const OPTIMAL := 0x10000

  const BAD_TIME := 0xffff_ffff
  const MICROS := 1000000
  const LIMIT_SECONDS := 4294

  function Min(a: int, b: int): int { if a <= b then a else b }
  function Max(a: int, b: int): int { if a >= b then a else b }
  function Clamped(e: Entry, x: int): int { Min(e.max, Max(e.min, x)) }

  // ---- How long the run took ----

  /** From a problem's run time before and after a run; BAD_TIME stands for "no use". */
  method ElapsedMicros(invalid: bool, sec0: u32, usec0: u32, sec1: u32, usec1: u32) returns (runtime: u32)
    ensures runtime == if invalid then BAD_TIME else Measured(sec0, usec0, sec1, usec1)
  {
    hide U32;
    runtime := BAD_TIME;
    if !invalid {
      var sec, usec := sec0, usec0;
      ghost var ds, du := sec1 - sec0, usec1 - usec0;
      if usec1 < usec {
        if sec1 <= sec {
          sec := LIMIT_SECONDS + 1;
        } else {
          U32Cases(sec1 - 1);
          U32Cases(sec1 - 1 - sec);
          U32Within(usec1 + MICROS, du - usec1);
          ds, du := ds - 1, du + MICROS;
          sec := U32(U32(sec1 - 1) - sec);
          usec := U32(U32(usec1 + MICROS) - usec);
        }
      } else {
        sec := U32(sec1 - sec);
        usec := U32(usec1 - usec);
      }
      if sec <= LIMIT_SECONDS {
        MeasuredSum(ds, du, sec, usec);
        runtime := U32(U32(sec * MICROS) + usec);
      }
    }
  }

  /** Cutting a part of a sum to a word first makes no difference. */
  lemma U32Within(x: int, y: int)
    ensures U32(U32(x) + y) == U32(x + y)
  {
    U32Shift(x + y, x / TWO_32);
  }

  lemma U32Shift(x: int, k: int)
    ensures U32(x - k * TWO_32) == U32(x)
  {
  }

  lemma MeasuredSum(ds: int, du: int, sec: u32, usec: u32)
    requires sec == U32(ds) && usec == U32(du) && sec <= LIMIT_SECONDS
    ensures U32(U32(sec * MICROS) + usec) == U32(ds * MICROS + du)
  {
    U32Within(du, U32(sec * MICROS));
    U32Within(sec * MICROS, du);
    U32Shift(ds * MICROS + du, ds / TWO_32 * MICROS);
    assert ds == ds / TWO_32 * TWO_32 + sec;
  }

  function Micros(sec: int, usec: int): int { sec * MICROS + usec }

  /**
   * The true difference modulo 2^32 while the whole seconds of it, read as unsigned after any borrow, are at most 4294,
   * and no use otherwise, or if there is a borrow and no later second to take it from.
   */
  function Measured(sec0: u32, usec0: u32, sec1: u32, usec1: u32): u32 {
    var ds := sec1 - sec0;
    if usec1 < usec0 then
      if 0 < ds <= LIMIT_SECONDS + 1 then U32(Micros(sec1, usec1) - Micros(sec0, usec0)) else BAD_TIME
    else if U32(ds) <= LIMIT_SECONDS then U32(Micros(sec1, usec1) - Micros(sec0, usec0))
    else BAD_TIME
  }

  /** For a clock that did not step back, the measured time is the true one exactly when that fits in 32 bits. */
  lemma MeasuredIsExactIff(sec0: u32, usec0: u32, sec1: u32, usec1: u32)
    requires usec0 < 1000000 && usec1 < 1000000
    ensures var d := 1000000 * (sec1 - sec0) + (usec1 - usec0);
      0 <= d ==> (Measured(sec0, usec0, sec1, usec1) == d <==> d < TWO_32)
    ensures var d := 1000000 * (sec1 - sec0) + (usec1 - usec0);
      TWO_32 <= d < 4295000000 ==> Measured(sec0, usec0, sec1, usec1) == d - TWO_32 < 32704
    ensures var d := 1000000 * (sec1 - sec0) + (usec1 - usec0);
      d >= 4295000000 ==> Measured(sec0, usec0, sec1, usec1) == BAD_TIME
    ensures var d := 1000000 * (sec1 - sec0) + (usec1 - usec0);
      d < 0 && (usec1 < usec0 || sec1 - sec0 + TWO_32 > 4294) ==>
        Measured(sec0, usec0, sec1, usec1) == BAD_TIME
  {
  }

  // ---- The controller ----

  /** How a cruncher runs: on a system that is not preemptive, and in a client built for graphics processors. */
  datatype Build = Build(nonPreemptive: bool, gpu: bool)

  const MAX_U32_TIMESLICE := 0xffff_ff00

  /** Graphics processors: straight to the slice that the last run would do in the time aimed at. */
  function Bumped(e: Entry, slice: u32, runtime: u32): u32 {
    ProductNotNegative(slice, e.usec);
    QuotientIsNat(slice * e.usec, Max(1, runtime));
    Min(MAX_U32_TIMESLICE, slice * e.usec / Max(1, runtime))
  }

  lemma ProductNotNegative(a: int, b: int)
    requires a >= 0 && b >= 0
    ensures a * b >= 0
  {
  }

  /** Before the cut, the slice aimed at is the largest that fits the time at the rate of the last run. */
  lemma BumpAims(e: Entry, slice: u32, runtime: u32)
    ensures var r := Bumped(e, slice, runtime);
      r == MAX_U32_TIMESLICE || r * Max(1, runtime) <= slice * e.usec < (r + 1) * Max(1, runtime)
  {
    ProductNotNegative(slice, e.usec);
    var q := Quotient(slice * e.usec, Max(1, runtime));
    assert (q + 1) * Max(1, runtime) == q * Max(1, runtime) + Max(1, runtime);
  }

  /** RC5-72: double, add the core's increment, or take off a quarter, by how far the run was from its target. */
  function Stepped(e: Entry, slice: u32, runtime: u32, inc: u32, b: Build): u32 {
    var band := e.usec / 20;
    if runtime < e.usec - band then
      Min(e.max, if b.gpu && runtime <= e.usec / 4 then Bumped(e, slice, runtime)
                 else if inc >= slice / 100 && e.usec - 5 * band < runtime then U32(slice + inc)
                 else if slice < TWO_31 then 2 * slice else slice)
    else if runtime > e.usec + band then
      Max(e.min, if b.nonPreemptive then (slice - slice / 4) / 4 else slice - slice / 4)
    else slice
  }

  /** The multiple of inc nearest to slice, but not 0. */
  function Rounded(slice: u32, inc: u32): u32 {
    if inc == 0 then slice
    else if slice < inc then inc
    else U32(slice + inc / 2) - U32(slice + inc / 2) % inc
  }

  function Adjusted(e: Entry, slice: u32, runtime: u32, inc: u32, b: Build): u32 {
    Rounded(Stepped(e, slice, runtime, inc, b), inc)
  }

  /** OGR: one step of a sliding average; `mean * 15 + sample` is computed in 32 bits. */
  function Slid(mean: nat, sample: u32): nat {
    U32(mean * 15 + sample) / 16
  }

  /** OGR: what the average rate would do in the time aimed at. */
  function AtAverageRate(e: Entry, ixes: nat, usecs: nat): u32
    requires usecs > 0
  {
    Clamped(e, U32(e.usec * ixes / usecs))
  }

  /** What one cruncher keeps for one contest, and its problem's slice. */
  datatype Tuning = Tuning(tslice: u32, optimal: u32, ixes: nat, usecs: nat)

  /** The tuning after a run that left the slice at t.tslice and took `runtime`. */
  function Tuned(t: Tuning, e: Entry, ogr: bool, finished: bool, runtime: u32, inc: u32, b: Build): Tuning {
    if finished then t.(optimal := Max(t.optimal, t.tslice))
    else if runtime == BAD_TIME then t
    else if !ogr then t.(tslice := Adjusted(e, t.tslice, runtime, inc, b))
    else
      var ixes, usecs := Slid(t.ixes, t.tslice), Slid(t.usecs, runtime);
      if usecs == 0 then t else t.(tslice := AtAverageRate(e, ixes, usecs), ixes := ixes, usecs := usecs)
  }

  class Controller {
    const entry: Entry
    const build: Build
    var tslice: u32
    var optimal: u32
    var ixes: nat
    var usecs: nat

    function Value(): Tuning
      reads this
    {
      Tuning(tslice, optimal, ixes, usecs)
    }

    constructor (entry: Entry, build: Build)
      ensures Value() == Tuning(OPTIMAL, OPTIMAL, 0, 0) && this.entry == entry && this.build == build
    {
      this.entry, this.build := entry, build;
      tslice, optimal, ixes, usecs := OPTIMAL, OPTIMAL, 0, 0;
    }

    /** Before a run: a problem that has not started yet gets the best slice so far. `slice` is 0 if none is used. */
    method Prepare(unstarted: bool, used: bool) returns (slice: u32)
      modifies this`tslice
      ensures tslice == if used && unstarted then optimal else old(tslice)
      ensures slice == if used then tslice else 0
    {
      slice := 0;
      if used {
        if unstarted {
          tslice := optimal;
        }
        slice := tslice;
      }
    }

    /** After the run; `prepared` is what Prepare gave. */
    method FineTune(prepared: u32, ogr: bool, finished: bool, runtime: u32, inc: u32)
      modifies this
      ensures Value() == if prepared == 0 then old(Value())
                         else Tuned(old(Value()), entry, ogr, finished, runtime, inc, build)
    {
      hide U32, Adjusted;
      if prepared == 0 {
        return;
      }
      var slice := tslice;
      if !finished {
        if runtime != BAD_TIME {
          if ogr {
            var newIxes: nat := U32(ixes * 15 + tslice) / 16;
            var newUsecs: nat := U32(usecs * 15 + runtime) / 16;
            if newUsecs != 0 {
              slice := U32(entry.usec * newIxes / newUsecs);
              if slice < entry.min {
                slice := entry.min;
              }
              if slice > entry.max {
                slice := entry.max;
              }
              ixes := newIxes;
              usecs := newUsecs;
            }
          } else {
            slice := AdjustSlice(slice, runtime, inc);
          }
          tslice := slice;
        }
      } else {
        if slice > optimal {
          optimal := slice;
        }
      }
    }

    method AdjustSlice(slice0: u32, runtime: u32, inc: u32) returns (slice: u32)
      ensures slice == Adjusted(entry, slice0, runtime, inc, build)
    {
      hide Stepped, Rounded;
      slice := StepSlice(slice0, runtime, inc);
      slice := RoundSlice(slice, inc);
    }

    method StepSlice(slice0: u32, runtime: u32, inc: u32) returns (slice: u32)
      ensures slice == Stepped(entry, slice0, runtime, inc, build)
    {
      hide U32;
      U32Cases(2 * slice0);
      slice := slice0;
      var usec := entry.usec;
      var band := usec / 20;
      if runtime < usec - band {
        if build.gpu && runtime <= usec / 4 {
          ProductNotNegative(slice, usec);
          QuotientIsNat(slice * usec, Max(1, runtime));
          var bumped := slice * usec / (if runtime != 0 then runtime else 1);
          slice := if bumped > MAX_U32_TIMESLICE then MAX_U32_TIMESLICE else bumped;
        } else if inc >= slice / 100 && usec - 5 * band < runtime {
          slice := U32(slice + inc);
        } else if slice < TWO_31 {
          slice := U32(slice * 2);
        }
        if slice > entry.max {
          slice := entry.max;
        }
      } else if runtime > usec + band {
        slice := slice - slice / 4;
        if build.nonPreemptive {
          slice := slice / 4;
        }
        if slice < entry.min {
          slice := entry.min;
        }
      }
    }

    method RoundSlice(slice0: u32, inc: u32) returns (slice: u32)
      ensures slice == Rounded(slice0, inc)
    {
      hide U32;
      slice := slice0;
      if inc != 0 {
        if slice < inc {
          slice := inc;
        } else {
          Remainder(U32(slice + inc / 2), inc);
          slice := U32(slice + inc / 2);
          slice := slice - slice % inc;
        }
      }
    }
  }

  // ---- RC5-72 with a core increment ----

  predicate Sound(e: Entry) {
    e.min <= e.max <= TWO_31
  }

  /** Slices the controller is handed: one not above the maximum, or one it has rounded before. */
  predicate Acceptable(e: Entry, slice: u32, inc: u32) {
    slice <= e.max || (inc > 0 && slice % inc == 0 && slice <= e.max + inc / 2)
  }

  lemma MultipleBounds(slice: int, inc: int, k: int, bound: int)
    requires inc > 0 && slice == k * inc && k >= 2 && slice <= bound
    ensures 2 * inc <= bound
  {
  }

  lemma Quotient(x: int, inc: int) returns (k: int)
    requires inc > 0 && x >= 0
    ensures k == x / inc && x == k * inc + x % inc && k >= 0 && 0 <= x % inc < inc
  {
    k := x / inc;
  }

  /** Adding the increment overflows for one slice only, and then the result is the slice unchanged. */
  lemma IncrementWrapsIff(e: Entry, slice: u32, inc: u32)
    requires Sound(e) && 0 < inc <= e.max && Acceptable(e, slice, inc)
    ensures slice + inc >= TWO_32 <==> slice == inc == TWO_31
    ensures slice == inc == TWO_31 ==> Rounded(U32(slice + inc), inc) == slice
  {
    if slice > e.max {
      var k := Quotient(slice, inc);
      if k >= 2 {
        MultipleBounds(slice, inc, k, e.max + inc / 2);
        if k >= 3 {
          Thrice(slice, inc, k);
        }
      } else {
        assert k == 1 || k == 0;
      }
    }
  }

  lemma Thrice(slice: int, inc: int, k: int)
    requires inc > 0 && slice == k * inc && k >= 3
    ensures 3 * inc <= slice
  {
  }

  /** Rounding finds the nearest multiple, and does not pass a multiple from below. */
  lemma RoundedIsNearest(slice: u32, inc: u32)
    requires 0 < inc && slice + inc / 2 < TWO_32
    ensures Rounded(slice, inc) % inc == 0 && Rounded(slice, inc) >= inc
    ensures slice < inc ==> Rounded(slice, inc) == inc
    ensures slice >= inc ==> slice - inc + inc / 2 < Rounded(slice, inc) <= slice + inc / 2
    ensures forall m | m % inc == 0 && slice <= m && inc <= m :: Rounded(slice, inc) <= m
  {
    hide Rounded, U32;
    RoundedForm(slice, inc);
    if slice < inc {
      OneMultiple(inc);
    } else {
      var x, r := slice + inc / 2, Rounded(slice, inc);
      Remainder(x, inc);
      assert r % inc == 0 && r <= x < r + inc;
      forall m | m % inc == 0 && slice <= m && inc <= m ensures r <= m {
        NextMultiple(x, m, inc);
      }
      if r < inc {
        SmallMultiple(r, inc);
      }
    }
  }

  lemma SmallMultiple(r: int, inc: int)
    requires 0 <= r < inc && r % inc == 0
    ensures r == 0
  {
  }

  lemma RoundedForm(slice: u32, inc: u32)
    requires 0 < inc && slice + inc / 2 < TWO_32
    ensures slice < inc ==> Rounded(slice, inc) == inc
    ensures slice >= inc ==> Rounded(slice, inc) == slice + inc / 2 - (slice + inc / 2) % inc
  {
    U32Cases(slice + inc / 2);
    hide U32;
  }

  lemma Remainder(x: int, inc: int)
    requires inc > 0 && x >= 0
    ensures 0 <= x % inc <= x && x % inc < inc && (x - x % inc) % inc == 0
  {
    var k := Quotient(x, inc);
    ProductIsMultiple(k, inc);
    if k >= 1 {
      Scale(1, k, inc);
    }
  }

  lemma NextMultiple(x: int, m: int, inc: int)
    requires inc > 0 && x >= 0 && m % inc == 0 && x < m + inc && m >= 0
    ensures x - x % inc <= m
  {
    var k := Quotient(x, inc);
    var j := Quotient(m, inc);
    if k > j {
      Scale(j + 1, k, inc);
    }
  }

  lemma OneMultiple(inc: int)
    requires inc > 0
    ensures inc % inc == 0
  {
  }

  lemma ProductIsMultiple(k: int, inc: int)
    requires inc > 0
    ensures (k * inc) % inc == 0
  {
    var q := (k * inc) / inc;
    var r := (k * inc) % inc;
    assert (k - q) * inc == r;
    if k - q >= 1 {
      Scale(1, k - q, inc);
    } else if k - q <= -1 {
      Scale(k - q, -1, inc);
    }
  }

  lemma Scale(a: int, b: int, c: int)
    requires a <= b && c >= 0
    ensures a * c <= b * c
  {
  }

  /**
   * For a core with an increment, every round gives a positive multiple of it, never more than half an increment
   * above the maximum, whatever the run times: the result is acceptable again.
   */
  lemma AdjustedIsMultiple(e: Entry, slice: u32, runtime: u32, inc: u32, b: Build)
    requires Sound(e) && 0 < inc <= e.max && Acceptable(e, slice, inc)
    ensures var r := Adjusted(e, slice, runtime, inc, b);
      r % inc == 0 && inc <= r <= e.max + inc / 2 && Acceptable(e, r, inc)
  {
    hide Rounded;
    IncrementWrapsIff(e, slice, inc);
    var s := Stepped(e, slice, runtime, inc, b);
    assert s <= Max(slice, e.max);
    RoundedOfStepped(e, slice, s, inc);
  }

  lemma RoundedOfStepped(e: Entry, slice: u32, s: u32, inc: u32)
    requires Sound(e) && 0 < inc <= e.max && Acceptable(e, slice, inc) && s <= Max(slice, e.max)
    ensures var r := Rounded(s, inc); r % inc == 0 && inc <= r <= e.max + inc / 2
  {
    hide Rounded;
    if slice > e.max {
      AcceptableAboveMax(e, slice, inc);
    }
    RoundedIsNearest(s, inc);
    if s > e.max {
      assert slice % inc == 0 && s <= slice && inc <= slice;
    }
  }

  /** The slice after rounds with these run times. */
  function AdjustedBy(e: Entry, slice: u32, runtimes: seq<u32>, inc: u32, b: Build): u32 {
    if runtimes == [] then slice
    else
      var k := |runtimes| - 1;
      Adjusted(e, AdjustedBy(e, slice, runtimes[..k], inc, b), runtimes[k], inc, b)
  }

  /** So it stays that way over any number of rounds, from any slice within the table's maximum. */
  lemma {:induction false} EveryRoundIsMultiple(e: Entry, slice: u32, runtimes: seq<u32>, inc: u32, b: Build)
    requires Sound(e) && 0 < inc <= e.max && slice <= e.max
    ensures var r := AdjustedBy(e, slice, runtimes, inc, b);
      && Acceptable(e, r, inc)
      && (runtimes != [] ==> r % inc == 0 && inc <= r <= e.max + inc / 2)
  {
    hide Adjusted;
    if runtimes != [] {
      var k := |runtimes| - 1;
      EveryRoundIsMultiple(e, slice, runtimes[..k], inc, b);
      AdjustedIsMultiple(e, AdjustedBy(e, slice, runtimes[..k], inc, b), runtimes[k], inc, b);
    }
  }

  lemma AcceptableAboveMax(e: Entry, slice: u32, inc: u32)
    requires Sound(e) && 0 < inc <= e.max < slice && Acceptable(e, slice, inc)
    ensures slice + inc / 2 < TWO_32
  {
    IncrementWrapsIff(e, slice, inc);
  }

  // ---- What one round does to the slice, for every increment and kind of system ----

  /** The positive multiple of inc nearest to the target, or the target itself if there is no increment. */
  predicate Nearest(r: int, target: int, inc: nat) {
    if inc == 0 then r == target
    else
      && r % inc == 0 && r >= inc
      && (if target < inc then r == inc else target - inc + inc / 2 < r <= target + inc / 2)
  }

  lemma RoundedNearest(s: u32, inc: u32)
    ensures s + inc / 2 < TWO_32 ==> Nearest(Rounded(s, inc), s, inc)
  {
    if inc > 0 && s + inc / 2 < TWO_32 {
      RoundedIsNearest(s, inc);
    }
  }

  /** After a run that was too long: three quarters of the slice, rounded up, or a quarter of that, but the minimum. */
  function LongTarget(e: Entry, slice: u32, nonPreemptive: bool): int {
    var rest := if nonPreemptive then (3 * slice + 3) / 4 / 4 else (3 * slice + 3) / 4;
    if rest < e.min then e.min else rest
  }

  lemma LongRunFalls(e: Entry, slice: u32, runtime: u32, inc: u32, b: Build)
    requires runtime > e.usec + e.usec / 20
    ensures var r, target := Adjusted(e, slice, runtime, inc, b), LongTarget(e, slice, b.nonPreemptive);
      && (target + inc / 2 < TWO_32 ==> Nearest(r, target, inc))
      && (inc == 0 && slice >= 4 && slice > e.min ==> r < slice)
      && (inc >= 3 && slice >= 3 * inc && slice > e.min + inc / 2 && slice < TWO_31 ==> r < slice)
  {
    hide Rounded, U32;
    var s := Stepped(e, slice, runtime, inc, b);
    assert s == LongTarget(e, slice, b.nonPreemptive);
    RoundedNearest(s, inc);
    NoIncrement(s);
  }

  lemma NoIncrement(s: u32)
    ensures Rounded(s, 0) == s
  {
  }

  /** A multiple shrinks exactly if what is taken off it is more than half an increment. */
  lemma LongRunShrinksIff(e: Entry, slice: u32, runtime: u32, inc: u32, b: Build)
    requires runtime > e.usec + e.usec / 20 && inc > 0 && slice % inc == 0
    requires inc <= LongTarget(e, slice, b.nonPreemptive) && LongTarget(e, slice, b.nonPreemptive) + inc / 2 < TWO_32
    ensures Adjusted(e, slice, runtime, inc, b) < slice <==> LongTarget(e, slice, b.nonPreemptive) + inc / 2 < slice
  {
    hide Rounded, U32;
    var target := LongTarget(e, slice, b.nonPreemptive);
    assert Stepped(e, slice, runtime, inc, b) == target;
    var r := Rounded(target, inc);
    RoundedNearest(target, inc);
    if r < slice {
      MultiplesApart(r, slice, inc);
    }
  }

  lemma MultiplesApart(r: int, m: int, inc: int)
    requires inc > 0 && 0 <= r < m && r % inc == 0 && m % inc == 0
    ensures r + inc <= m
  {
    var k := Quotient(r, inc);
    var j := Quotient(m, inc);
    if j <= k {
      Scale(j, k, inc);
    }
    Scale(k + 1, j, inc);
  }

  /** After a run that was too short: straight to the aim, or one increment more, or double; but the maximum. */
  function ShortTarget(e: Entry, slice: u32, runtime: u32, inc: u32, gpu: bool): int {
    var aim := if gpu && 4 * runtime <= e.usec then Bumped(e, slice, runtime)
               else if slice < 100 * (inc + 1) && runtime > e.usec - 5 * (e.usec / 20) then slice + inc
               else if slice < TWO_31 then slice + slice
               else slice;
    if aim > e.max then e.max else aim
  }

  /** It then rises, or stays where it is at the maximum. */
  lemma ShortRunRises(e: Entry, slice: u32, runtime: u32, inc: u32, b: Build)
    requires Sound(e) && inc <= e.max && Acceptable(e, slice, inc) && runtime + e.usec / 20 < e.usec
    ensures var r, target := Adjusted(e, slice, runtime, inc, b), ShortTarget(e, slice, runtime, inc, b.gpu);
      && Nearest(r, target, inc)
      && r <= e.max + inc / 2
      && (inc == 0 || slice % inc == 0 ==> r >= slice)
  {
    hide Rounded, U32, Bumped;
    var s, target := Stepped(e, slice, runtime, inc, b), ShortTarget(e, slice, runtime, inc, b.gpu);
    BumpedRises(e, slice, runtime);
    HundredOrMore(slice, inc);
    U32Cases(slice + inc);
    NoIncrement(s);
    if inc > 0 {
      IncrementWrapsIff(e, slice, inc);
    }
    assert s == target || (slice == inc == TWO_31 && s <= target == e.max == TWO_31);
    RoundedNearest(s, inc);
    if inc > 0 && slice % inc == 0 && Rounded(s, inc) < slice {
      MultiplesApart(Rounded(s, inc), slice, inc);
    }
  }

  lemma HundredOrMore(slice: nat, inc: nat)
    ensures inc >= slice / 100 <==> slice < 100 * (inc + 1)
  {
  }

  lemma BumpedRises(e: Entry, slice: u32, runtime: u32)
    requires runtime <= e.usec && 0 < e.usec
    ensures Bumped(e, slice, runtime) >= Min(slice, MAX_U32_TIMESLICE)
  {
    BumpAims(e, slice, runtime);
    var r, t := Bumped(e, slice, runtime), Max(1, runtime);
    if r < slice && r != MAX_U32_TIMESLICE {
      Scale(r + 1, slice, t);
      Scale(t, e.usec, slice);
    }
  }

  /** A run near its target leaves a multiple alone. */
  lemma GoodRunStays(e: Entry, slice: u32, runtime: u32, inc: u32, b: Build)
    requires e.usec - e.usec / 20 <= runtime <= e.usec + e.usec / 20
    ensures inc == 0 ==> Adjusted(e, slice, runtime, inc, b) == slice
    ensures slice + inc / 2 < TWO_32 ==> Nearest(Adjusted(e, slice, runtime, inc, b), slice, inc)
    ensures inc > 0 && slice > 0 && slice % inc == 0 && slice + inc / 2 < TWO_32 ==>
      Adjusted(e, slice, runtime, inc, b) == slice
  {
    hide Rounded, U32;
    NoIncrement(slice);
    RoundedNearest(slice, inc);
    if inc > 0 && slice > 0 && slice % inc == 0 && slice + inc / 2 < TWO_32 {
      var r := Rounded(slice, inc);
      MultiplesApart(0, slice, inc);
      if r < slice {
        MultiplesApart(r, slice, inc);
      } else if slice < r {
        MultiplesApart(slice, r, inc);
      }
    }
  }

  // ---- RC5-72 without one: where the run time ends up ----

  function Lo(e: Entry): int { e.usec - e.usec / 20 }
  function Hi(e: Entry): int { e.usec + e.usec / 20 }

  /** The exact run time of a slice at a given rate, in microseconds; the code sees its whole part. */
  function Exact(rate: real, slice: int): real { rate * slice as real }

  /** The controller's limits do not get in the way at this rate: slices near the target are within them. */
  predicate Unclamped(e: Entry, rate: real) {
    && 0 < e.usec <= TWO_31 && e.max <= TWO_31 && rate > 0.0
    && 4.0 * Exact(rate, 100) <= (3 * Hi(e)) as real
    && 4.0 * Exact(rate, e.min) <= (3 * Hi(e)) as real
    && (2 * Lo(e)) as real <= Exact(rate, e.max)
  }

  /** For RC5-72 these are rates from under a thousandth of a microsecond to three milliseconds per iteration. */
  lemma UnclampedRatesOfRc572(rate: real)
    ensures Unclamped(RC5_72, rate) <==> 1900000.0 / 2147483648.0 <= rate <= 3150000.0 / 1024.0
  {
  }

  /** Above three quarters of the upper threshold, and under twice the lower one. */
  predicate InEnvelope(e: Entry, rate: real, slice: int) {
    (3 * Hi(e)) as real < 4.0 * Exact(rate, slice) && Exact(rate, slice) < (2 * Lo(e)) as real
  }

  predicate Measurable(rate: real, slice: int) {
    slice >= 100 && slice < TWO_32 && rate > 0.0 && Exact(rate, slice) < BAD_TIME as real
  }

  lemma ExactIsPositive(rate: real, slice: int)
    requires rate > 0.0 && slice > 0
    ensures Exact(rate, slice) > 0.0
  {
  }

  /** The slice for the next round, at a steady rate, for a preemptive system and a core without an increment. */
  function NextSlice(e: Entry, rate: real, slice: int): u32
    requires Measurable(rate, slice)
  {
    ExactIsPositive(rate, slice);
    Adjusted(e, slice, Exact(rate, slice).Floor, 0, Build(false, false))
  }

  lemma ExactScales(rate: real, a: int, b: int, p: int, q: int)
    requires rate > 0.0 && p > 0 && q > 0 && p * a <= q * b
    ensures p as real * Exact(rate, a) <= q as real * Exact(rate, b)
  {
    assert (p * a) as real == p as real * a as real && (q * b) as real == q as real * b as real;
    RealScale(rate, (p * a) as real, (q * b) as real);
    assert p as real * Exact(rate, a) == rate * (p * a) as real;
    assert q as real * Exact(rate, b) == rate * (q * b) as real;
  }

  lemma RealScale(rate: real, a: real, b: real)
    requires rate > 0.0 && a <= b
    ensures rate * a <= rate * b
  {
  }

  lemma ExactOrders(rate: real, a: int, b: int)
    requires rate > 0.0 && Exact(rate, a) < Exact(rate, b)
    ensures a < b
  {
    if b <= a {
      RealScale(rate, b as real, a as real);
    }
  }

  lemma Aimed(e: Entry, rate: real)
    requires Unclamped(e, rate)
    ensures 3 * Hi(e) < 4 * Lo(e) && Hi(e) < 2 * Lo(e) && 0 < Lo(e) <= Hi(e)
  {
  }

  /** A run that was too short doubles the slice; nothing overflows and the maximum is not reached. */
  lemma ShortRunDoubles(e: Entry, rate: real, slice: int)
    requires Unclamped(e, rate) && Measurable(rate, slice) && Exact(rate, slice) < Lo(e) as real
    ensures NextSlice(e, rate, slice) == 2 * slice
    ensures Exact(rate, 2 * slice) == 2.0 * Exact(rate, slice) && 2 * slice < e.max
  {
    assert Exact(rate, 2 * slice) == 2.0 * Exact(rate, slice) by {
      ExactScales(rate, 2 * slice, slice, 1, 2);
      ExactScales(rate, slice, 2 * slice, 2, 1);
    }
    ExactOrders(rate, 2 * slice, e.max);
  }

  /** A run that was too long takes a quarter off, and no more; the minimum is not reached. */
  lemma LongRunShrinks(e: Entry, rate: real, slice: int)
    requires Unclamped(e, rate) && Measurable(rate, slice) && Exact(rate, slice).Floor > Hi(e)
    ensures NextSlice(e, rate, slice) == slice - slice / 4 >= 100
    ensures (3 * Hi(e)) as real < 4.0 * Exact(rate, slice - slice / 4)
    ensures Exact(rate, slice - slice / 4) <= Exact(rate, slice)
  {
    Aimed(e, rate);
    var next := slice - slice / 4;
    ExactScales(rate, slice, next, 3, 4);
    ExactScales(rate, next, slice, 1, 1);
    assert 3.0 * Exact(rate, slice) > (3 * Hi(e)) as real;
    ExactOrders(rate, 100, next);
    ExactOrders(rate, e.min, next);
  }

  lemma MiddleRunStays(e: Entry, rate: real, slice: int)
    requires Measurable(rate, slice) && Lo(e) as real <= Exact(rate, slice) && Exact(rate, slice).Floor <= Hi(e)
    ensures NextSlice(e, rate, slice) == slice
  {
  }

  lemma EnvelopeIsMeasurable(e: Entry, rate: real, slice: int)
    requires Unclamped(e, rate) && InEnvelope(e, rate, slice)
    ensures Measurable(rate, slice)
  {
    Aimed(e, rate);
    ExactOrders(rate, 100, slice);
    ExactOrders(rate, slice, e.max);
  }

  /** Once the run time is inside the envelope, it never leaves. */
  lemma EnvelopeIsKept(e: Entry, rate: real, slice: int)
    requires Unclamped(e, rate) && InEnvelope(e, rate, slice)
    ensures Measurable(rate, slice) && InEnvelope(e, rate, NextSlice(e, rate, slice))
  {
    hide Unclamped, NextSlice, Lo, Hi, Exact;
    EnvelopeIsMeasurable(e, rate, slice);
    Aimed(e, rate);
    if Exact(rate, slice) < Lo(e) as real {
      ShortRunDoubles(e, rate, slice);
    } else if Exact(rate, slice).Floor > Hi(e) {
      LongRunShrinks(e, rate, slice);
    } else {
      MiddleRunStays(e, rate, slice);
    }
  }

  /** The run time is in the envelope from round n on. */
  ghost predicate SettledFrom(e: Entry, rate: real, slice: int, n: nat) {
    forall m: nat | n <= m :: InEnvelope(e, rate, After(e, rate, slice, m))
  }

  /** The slice after n rounds; a round whose time cannot be measured changes nothing. */
  function After(e: Entry, rate: real, slice: int, n: nat): int {
    if n == 0 then slice
    else
      var s := After(e, rate, slice, n - 1);
      if Measurable(rate, s) then NextSlice(e, rate, s) else s
  }

  lemma {:induction false} AfterNext(e: Entry, rate: real, slice: int, n: nat)
    requires Measurable(rate, slice)
    ensures After(e, rate, slice, n + 1) == After(e, rate, NextSlice(e, rate, slice), n)
  {
    hide Measurable, NextSlice;
    if n > 0 {
      AfterNext(e, rate, slice, n - 1);
    }
  }

  lemma {:induction false} EnvelopeReachedFromBelow(e: Entry, rate: real, slice: int) returns (n: nat)
    requires Unclamped(e, rate) && Measurable(rate, slice) && Exact(rate, slice) < (2 * Lo(e)) as real
    ensures InEnvelope(e, rate, After(e, rate, slice, n))
    decreases Max(0, e.max - slice)
  {
    hide Unclamped, NextSlice, Exact, Lo, Hi, After;
    Aimed(e, rate);
    if InEnvelope(e, rate, slice) {
      ZeroRounds(e, rate, slice);
      n := 0;
    } else {
      var k := RiseOnce(e, rate, slice);
      var m := EnvelopeReachedFromBelow(e, rate, k);
      AfterNext(e, rate, slice, m);
      n := m + 1;
    }
  }

  lemma ZeroRounds(e: Entry, rate: real, slice: int)
    ensures After(e, rate, slice, 0) == slice
  {
  }

  lemma RiseOnce(e: Entry, rate: real, slice: int) returns (next: int)
    requires Unclamped(e, rate) && Measurable(rate, slice) && Exact(rate, slice) < Lo(e) as real
    ensures next == NextSlice(e, rate, slice) && slice < next < e.max
    ensures Measurable(rate, next) && Exact(rate, next) < (2 * Lo(e)) as real
  {
    hide NextSlice, Exact;
    ShortRunDoubles(e, rate, slice);
    next := 2 * slice;
  }

  lemma {:induction false} EnvelopeReachedFromAbove(e: Entry, rate: real, slice: int) returns (n: nat)
    requires Unclamped(e, rate) && Measurable(rate, slice) && (3 * Hi(e)) as real < 4.0 * Exact(rate, slice)
    ensures InEnvelope(e, rate, After(e, rate, slice, n))
    decreases slice
  {
    hide Unclamped, NextSlice, Exact, Lo, Hi, After;
    Aimed(e, rate);
    if InEnvelope(e, rate, slice) {
      ZeroRounds(e, rate, slice);
      n := 0;
    } else {
      LongRunShrinks(e, rate, slice);
      var m := EnvelopeReachedFromAbove(e, rate, slice - slice / 4);
      AfterNext(e, rate, slice, m);
      n := m + 1;
    }
  }

  lemma {:induction false} EnvelopeIsKeptForEver(e: Entry, rate: real, slice: int, n: nat, m: nat)
    requires Unclamped(e, rate) && InEnvelope(e, rate, After(e, rate, slice, n)) && n <= m
    ensures InEnvelope(e, rate, After(e, rate, slice, m))
    decreases m
  {
    if n < m {
      EnvelopeIsKeptForEver(e, rate, slice, n, m - 1);
      EnvelopeIsKept(e, rate, After(e, rate, slice, m - 1));
    }
  }

  /**
   * From any slice of 100 or more whose run can be timed at all, the run time is in the envelope after finitely
   * many rounds and stays in it from then on.
   */
  lemma RunTimeSettles(e: Entry, rate: real, slice: int)
    requires Unclamped(e, rate) && Measurable(rate, slice)
    ensures exists n :: SettledFrom(e, rate, slice, n)
  {
    hide Unclamped, After;
    Aimed(e, rate);
    var n: nat;
    if Exact(rate, slice) < (2 * Lo(e)) as real {
      n := EnvelopeReachedFromBelow(e, rate, slice);
    } else {
      n := EnvelopeReachedFromAbove(e, rate, slice);
    }
    forall m: nat | n <= m ensures InEnvelope(e, rate, After(e, rate, slice, m)) {
      EnvelopeIsKeptForEver(e, rate, slice, n, m);
    }
    assert SettledFrom(e, rate, slice, n);
  }

  // ---- OGR: the sliding averages ----

  /** A measured round: the slice done and the time it took. */
  datatype Sample = Sample(slice: u32, runtime: u32)

  /** The averages after rounds with these samples, from the start. */
  function Averages(samples: seq<Sample>): (r: (nat, nat)) {
    if samples == [] then (0, 0)
    else
      var k := |samples| - 1;
      var before := Averages(samples[..k]);
      var ixes, usecs := Slid(before.0, samples[k].slice), Slid(before.1, samples[k].runtime);
      if usecs == 0 then before else (ixes, usecs)
  }

  /** A cruncher's tuning after working rounds of an OGR problem with these samples. */
  function OgrRounds(e: Entry, samples: seq<Sample>, b: Build): Tuning {
    if samples == [] then Tuning(OPTIMAL, OPTIMAL, 0, 0)
    else
      var k := |samples| - 1;
      var before := OgrRounds(e, samples[..k], b).(tslice := samples[k].slice);
      Tuned(before, e, true, false, samples[k].runtime, 0, b)
  }

  lemma SlidNotZero(mean: nat, sample: u32)
    ensures 16 <= mean * 15 + sample < TWO_32 ==> Slid(mean, sample) > 0
  {
  }

  /** A round whose time is of no use changes nothing, one that ends the problem nothing but the best slice. */
  lemma RoundsThatTuneNothing(t: Tuning, e: Entry, ogr: bool, runtime: u32, inc: u32, b: Build)
    ensures Tuned(t, e, ogr, false, 0xffff_ffff, inc, b) == t
    ensures var u := Tuned(t, e, ogr, true, runtime, inc, b);
      u.tslice == t.tslice && u.ixes == t.ixes && u.usecs == t.usecs && t.optimal <= u.optimal && t.tslice <= u.optimal
    ensures !ogr && runtime != 0xffff_ffff ==>
      var u := Tuned(t, e, false, false, runtime, inc, b);
      u == Tuning(Adjusted(e, t.tslice, runtime, inc, b), t.optimal, t.ixes, t.usecs)
  {
    hide Adjusted, Slid, AtAverageRate;
  }

  /**
   * Over all rounds the controller's state is those averages, and a round's slice is within the table's bounds or
   * unchanged.
   */
  lemma {:induction false} OgrRoundsKeepAverages(e: Entry, samples: seq<Sample>, b: Build)
    requires Sound(e) && forall k | 0 <= k < |samples| :: samples[k].runtime != BAD_TIME
    ensures var t := OgrRounds(e, samples, b);
      && (t.ixes, t.usecs) == Averages(samples) && t.optimal == OPTIMAL
      && (samples != [] ==> e.min <= t.tslice <= e.max || t.tslice == samples[|samples| - 1].slice)
      && (samples != [] ==>
            var k := |samples| - 1;
            var sum := 15 * Averages(samples[..k]).1 + samples[k].runtime;
            16 <= sum < TWO_32 ==>
              t.usecs > 0 && (e.usec * t.ixes / t.usecs < TWO_32 ==> t.tslice == Clamped(e, e.usec * t.ixes / t.usecs)))
  {
    hide Slid, AtAverageRate;
    if samples != [] {
      var k := |samples| - 1;
      OgrRoundsKeepAverages(e, samples[..k], b);
      SlidNotZero(Averages(samples[..k]).1, samples[k].runtime);
      var t := OgrRounds(e, samples, b);
      if t.usecs > 0 {
        AverageRateIsExactIff(e, t.ixes, t.usecs);
        QuotientIsNat(e.usec * t.ixes, t.usecs);
      }
    }
  }

  /** An average whose product with 15 fits in an int. */
  predicate Fits(average: (nat, nat)) {
    15 * average.0 < TWO_31 && 15 * average.1 < TWO_31
  }

  predicate Bounded(samples: seq<Sample>, bound: nat) {
    forall k | 0 <= k < |samples| :: samples[k].slice <= bound && samples[k].runtime <= bound
  }

  const LARGEST_SAFE := 143165591

  lemma SlidStaysBelow(mean: nat, sample: u32, bound: nat)
    requires 15 <= bound <= LARGEST_SAFE && mean <= bound - 15 && sample <= bound
    ensures Slid(mean, sample) <= bound - 15
  {
    U32Cases(mean * 15 + sample);
    hide U32;
  }

  /** An average stays 15 below the largest sample. */
  lemma {:induction false} AveragesStayBelow(samples: seq<Sample>, bound: nat)
    requires Bounded(samples, bound) && 15 <= bound <= LARGEST_SAFE
    ensures Averages(samples).0 <= bound - 15 && Averages(samples).1 <= bound - 15
  {
    if samples != [] {
      var k := |samples| - 1;
      var before := Averages(samples[..k]);
      AveragesStayBelow(samples[..k], bound);
      SlidStaysBelow(before.0, samples[k].slice, bound);
      SlidStaysBelow(before.1, samples[k].runtime, bound);
      hide Slid;
    }
  }

  function Same(x: Sample, n: nat): seq<Sample> {
    seq(n, _ => x)
  }

  lemma SameSnoc(x: Sample, n: nat)
    ensures Same(x, n + 1)[..n] == Same(x, n) && Same(x, n + 1)[n] == x && |Same(x, n + 1)| == n + 1
  {
  }

  /** Under equal samples both averages climb to 15 below the sample. */
  lemma {:induction false} AveragesClimb(x: Sample, goal: nat) returns (n: nat)
    requires x.slice == x.runtime == LARGEST_SAFE + 1 && goal <= LARGEST_SAFE - 14
    ensures goal <= Averages(Same(x, n)).1
    decreases goal
  {
    if goal == 0 {
      return 0;
    }
    var m := AveragesClimb(x, goal - 1);
    if Averages(Same(x, m)).1 >= goal {
      return m;
    }
    SameSnoc(x, m);
    ClimbOnce(x, Averages(Same(x, m)).1);
    return m + 1;
  }

  lemma ClimbOnce(x: Sample, mean: nat)
    requires x.runtime == LARGEST_SAFE + 1 && mean < LARGEST_SAFE - 14
    ensures Slid(mean, x.runtime) > mean
  {
  }

  /**
   * The averages never leave the range of an int, over any number of rounds whose slices and run times are within
   * a bound, exactly when that bound is at most 143165591.
   */
  lemma AveragesFitIff(bound: nat)
    ensures bound <= LARGEST_SAFE <==> forall samples :: Bounded(samples, bound) ==> Fits(Averages(samples))
  {
    if bound <= LARGEST_SAFE {
      forall samples | Bounded(samples, bound) ensures Fits(Averages(samples)) {
        AveragesStayBelow(samples, Max(15, bound));
      }
    } else {
      var x := Sample(LARGEST_SAFE + 1, LARGEST_SAFE + 1);
      var n := AveragesClimb(x, LARGEST_SAFE - 14);
      assert Bounded(Same(x, n), bound);
      assert !Fits(Averages(Same(x, n)));
    }
  }

  /** In range, a step of an average is the exact weighted mean, rounded down, and lies between its two inputs. */
  lemma SlidIsMean(mean: nat, sample: u32)
    requires 15 * mean < TWO_31 && sample <= TWO_31
    ensures 16 * Slid(mean, sample) <= 15 * mean + sample < 16 * Slid(mean, sample) + 16
    ensures Min(mean, sample) <= Slid(mean, sample) <= Max(mean, sample)
  {
  }

  /**
   * The slice always lies within the table's bounds. It is the exact quotient so clamped if and only if that
   * quotient fits in 32 bits, or what is left of it after the cut is still at or above the maximum.
   */
  lemma AverageRateIsExactIff(e: Entry, ixes: nat, usecs: nat)
    requires Sound(e) && usecs > 0
    ensures var q := e.usec * ixes / usecs; var r := AtAverageRate(e, ixes, usecs);
      && e.min <= r <= e.max
      && (r == Clamped(e, q) <==> q < TWO_32 || q % TWO_32 >= e.max || e.min == e.max)
  {
    var q := e.usec * ixes / usecs;
    QuotientIsNat(e.usec * ixes, usecs);
    assert q >= 0;
    if q >= TWO_32 {
      assert Clamped(e, q) == e.max;
    }
  }

  lemma QuotientIsNat(a: nat, b: nat)
    requires b > 0
    ensures a / b >= 0
  {
  }

  /** Rounds of an OGR problem that does all it is asked to: each slice is the one the controller set. */
  function OgrRun(e: Entry, runtimes: seq<u32>, b: Build): Tuning {
    if runtimes == [] then Tuning(OPTIMAL, OPTIMAL, 0, 0)
    else Tuned(OgrRun(e, runtimes[..|runtimes| - 1], b), e, true, false, runtimes[|runtimes| - 1], 0, b)
  }

  function OwnSamples(e: Entry, runtimes: seq<u32>, b: Build): seq<Sample> {
    if runtimes == [] then []
    else
      var init := runtimes[..|runtimes| - 1];
      OwnSamples(e, init, b) + [Sample(OgrRun(e, init, b).tslice, runtimes[|runtimes| - 1])]
  }

  /** Such a run is one of rounds with these samples. */
  lemma {:induction false} OgrRunIsRounds(e: Entry, runtimes: seq<u32>, b: Build)
    ensures OgrRun(e, runtimes, b) == OgrRounds(e, OwnSamples(e, runtimes, b), b)
  {
    hide Tuned;
    if runtimes != [] {
      var init := runtimes[..|runtimes| - 1];
      OgrRunIsRounds(e, init, b);
      var samples := OwnSamples(e, runtimes, b);
      assert samples[..|samples| - 1] == OwnSamples(e, init, b);
    }
  }

  /**
   * The cut does bite: after two rounds of 16 and 6225 microseconds the controller asks for a slice of 8852191, where
   * the average rate calls for more than the maximum.
   */
  lemma CutQuotient(b: Build)
    ensures OgrRun(OGR, [16, 6225], b) == Tuning(8852191, OPTIMAL, 8392448, 390)
    ensures OGR.usec * 8392448 / 390 >= TWO_32 && Clamped(OGR, OGR.usec * 8392448 / 390) == OGR.max > 8852191
  {
    assert [16, 6225][..1] == [16] && [16][..0] == [];
    FirstRound(b);
    SecondRound(b);
    hide Tuned;
    assert OgrRun(OGR, [], b) == Tuning(OPTIMAL, OPTIMAL, 0, 0);
    assert OgrRun(OGR, [16], b) == Tuning(0x800_0000, OPTIMAL, 4096, 1);
  }

  lemma FirstRound(b: Build)
    ensures Tuned(Tuning(OPTIMAL, OPTIMAL, 0, 0), OGR, true, false, 16, 0, b) == Tuning(0x800_0000, OPTIMAL, 4096, 1)
  {
    assert Slid(0, OPTIMAL) == 4096 && Slid(0, 16) == 1;
    hide Slid;
    assert AtAverageRate(OGR, 4096, 1) == 0x800_0000;
    hide AtAverageRate;
  }

  lemma SecondRound(b: Build)
    ensures var first := Tuning(0x800_0000, OPTIMAL, 4096, 1);
      Tuned(first, OGR, true, false, 6225, 0, b) == Tuning(8852191, OPTIMAL, 8392448, 390)
  {
    assert Slid(4096, 0x800_0000) == 8392448 && Slid(1, 6225) == 390;
    hide Slid;
    assert AtAverageRate(OGR, 8392448, 390) == 8852191;
    hide AtAverageRate;
  }

  /** Any round of the controller: the slice it ended with, and how. */
  datatype Round = Round(slice: u32, ogr: bool, finished: bool, runtime: u32, inc: u32)

  function AfterRounds(e: Entry, rounds: seq<Round>, b: Build): Tuning {
    if rounds == [] then Tuning(OPTIMAL, OPTIMAL, 0, 0)
    else
      var r := rounds[|rounds| - 1];
      Tuned(AfterRounds(e, rounds[..|rounds| - 1], b).(tslice := r.slice), e, r.ogr, r.finished, r.runtime, r.inc, b)
  }

  /**
   * Over any rounds, a new problem starts with the largest slice a problem has finished with, or the table's if none
   * was larger.
   */
  lemma {:induction false} OptimalIsBestFinished(e: Entry, rounds: seq<Round>, b: Build)
    ensures var best := AfterRounds(e, rounds, b).optimal;
      && best >= OPTIMAL && (forall k | 0 <= k < |rounds| && rounds[k].finished :: rounds[k].slice <= best)
      && (best == OPTIMAL || exists k | 0 <= k < |rounds| :: rounds[k].finished && rounds[k].slice == best)
  {
    hide Adjusted, Slid, AtAverageRate;
    if rounds != [] {
      var init := rounds[..|rounds| - 1];
      OptimalIsBestFinished(e, init, b);
      assert forall k | 0 <= k < |init| :: init[k] == rounds[k];
    }
  }
}
