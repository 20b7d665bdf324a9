/** Turning a wrapping tick counter into seconds and microseconds (__clks2tv and CliClock in clitime.cpp). */
module TickConversion {
  import opened Machine

  const MICROS: int := 1000000

  /** Tick rates the conversion is exact for. */
  predicate Rate(hz: int) {
    hz > 0 && hz % 10 == 0 && MICROS % hz == 0
  }

  /** Sizes of the range of an unsigned long. */
  predicate Word(w: int) {
    w >= TWO_32 && w % 10 == 6
  }

  lemma MachineWords()
    ensures Word(TWO_32) && Word(TWO_64)
  {
  }

  datatype Timeval = Timeval(sec: int, usec: int)

  function Micros(t: Timeval): int {
    t.sec * MICROS + t.usec
  }

  /** The number of ticks since the counter started. */
  function Ticks(w: int, wrap: int, ticks: int): int {
    wrap * w + ticks
  }

  /** Ticks per wrap that are left over after whole seconds, and the whole seconds, as __clks2tv splits them. */
  function LeftOver(hz: int, w: int): int
    requires hz >= 10
  {
    6 + 10 * (((w - 1) / 10) % (hz / 10))
  }

  function WholeSeconds(hz: int, w: int): int
    requires hz >= 10
  {
    ((w - 1) / 10) / (hz / 10)
  }

  function Seconds(hz: int, w: int, wrap: int, ticks: int): int
    requires hz >= 10
  {
    ticks / hz + (wrap * WholeSeconds(hz, w) + (wrap * LeftOver(hz, w)) / hz)
  }

  /** The ticks beyond the whole seconds, up to almost twice the rate. */
  function Rest(hz: int, w: int, wrap: int, ticks: int): int
    requires hz >= 10
  {
    ticks % hz + (wrap * LeftOver(hz, w)) % hz
  }

  /** The length of a tick, rounded to whole microseconds. */
  function PerTick(hz: int): int
    requires hz > 0
  {
    (MICROS + hz / 2) / hz
  }

  /** The conversion without any overflow. */
  function Converted(hz: int, w: int, wrap: int, ticks: int): Timeval
    requires hz >= 10
  {
    Timeval(Seconds(hz, w, wrap, ticks), Rest(hz, w, wrap, ticks) * PerTick(hz))
  }

  /** The conversion in the arithmetic of a w-sized unsigned long. */
  function WordTime(hz: int, w: int, wrap: int, ticks: int): Timeval
    requires hz >= 10 && w > 0
  {
    var over := (wrap * LeftOver(hz, w)) % w;
    var adjust := ((wrap * WholeSeconds(hz, w)) % w + over / hz) % w;
    Timeval((ticks / hz + adjust) % w, ((ticks % hz + over % hz) * PerTick(hz)) % w)
  }

  /** Neither the left-over ticks of all wraps nor the seconds leave the word. */
  predicate Fits(hz: int, w: int, wrap: int, ticks: int)
    requires hz >= 10
  {
    wrap * LeftOver(hz, w) < w && Seconds(hz, w, wrap, ticks) < w
  }

  lemma MulMono(a: int, b: int, c: int)
    requires a <= b && c >= 0
    ensures a * c <= b * c
  {
  }

  lemma DivMod(x: int, d: int)
    requires d > 0
    ensures x == d * (x / d) + x % d && 0 <= x % d < d
    ensures x >= 0 ==> x / d >= 0
  {
  }

  lemma Distribute(a: int, b: int, c: int)
    ensures (a + b) * c == a * c + b * c && c * (a + b) == c * a + c * b
  {
  }

  lemma WrapTenths(hz: int, w: int)
    requires hz >= 10 && Word(w)
    ensures 0 <= LeftOver(hz, w) < hz && 0 <= WholeSeconds(hz, w)
    ensures 10 * (hz / 10 * WholeSeconds(hz, w)) + LeftOver(hz, w) == w
  {
    DivMod((w - 1) / 10, hz / 10);
  }

  lemma Tenfold(h: int, s: int)
    ensures s * (h * 10) == 10 * (h * s)
  {
  }

  /** Splitting the word size by the rate rounded down to tens: whole seconds and the ticks left over. */
  lemma WrapParts(hz: int, w: int)
    requires hz >= 10 && Word(w)
    ensures 0 <= LeftOver(hz, w) < hz && 0 <= WholeSeconds(hz, w)
    ensures WholeSeconds(hz, w) * (hz / 10 * 10) + LeftOver(hz, w) == w
  {
    hide LeftOver, WholeSeconds;
    WrapTenths(hz, w);
    Tenfold(hz / 10, WholeSeconds(hz, w));
  }

  /** At an exact rate, whole seconds and left-over ticks make up one wrap. */
  lemma WrapSplits(hz: int, w: int)
    requires Rate(hz) && Word(w)
    ensures hz >= 10 && WholeSeconds(hz, w) * hz + LeftOver(hz, w) == w
    ensures 0 <= LeftOver(hz, w) < hz && 0 <= WholeSeconds(hz, w) <= w / hz
  {
    hide LeftOver, WholeSeconds;
    WrapParts(hz, w);
    DivBound(w, hz, WholeSeconds(hz, w));
  }

  /** A word holds no more seconds than one wrap is taken for. */
  lemma WordSeconds(hz: int, w: int)
    requires hz >= 10 && Word(w)
    ensures w / hz <= WholeSeconds(hz, w) && 10 * WholeSeconds(hz, w) <= w
  {
    hide LeftOver, WholeSeconds;
    WrapParts(hz, w);
    var h, s := hz / 10 * 10, WholeSeconds(hz, w);
    MulMono(10, h, s);
    if w / hz > s {
      MulMono(s + 1, w / hz, h);
      Distribute(s, 1, h);
      MulMono(h, hz, w / hz);
      DivMod(w, hz);
      LeftOverBelow(hz, w);
    }
  }

  lemma LeftOverBelow(hz: int, w: int)
    requires hz >= 10
    ensures LeftOver(hz, w) < hz / 10 * 10
  {
  }

  lemma DivBound(w: int, hz: int, s: int)
    requires hz > 0 && s * hz <= w && w >= 0
    ensures s <= w / hz
  {
    if s > w / hz {
      MulMono(w / hz + 1, s, hz);
      Distribute(w / hz, 1, hz);
    }
  }

  /** At any rate it is the nearest whole number. */
  lemma PerTickIsNearest(hz: int)
    requires 0 < hz <= 1000000
    ensures 2 * PerTick(hz) * hz <= 2 * 1000000 + hz < 2 * (PerTick(hz) + 1) * hz + 2
    ensures PerTick(hz) > 0
  {
    DivMod(MICROS + hz / 2, hz);
    DivBound(MICROS + hz / 2, hz, 1);
    var u := PerTick(hz);
    assert 2 * u * hz == 2 * (hz * u) && 2 * (u + 1) * hz == 2 * (hz * u) + 2 * hz;
  }

  /** At these rates the rounding is exact. */
  lemma RoundedQuotient(hz: int)
    requires Rate(hz)
    ensures hz >= 10 && PerTick(hz) == MICROS / hz && hz * (MICROS / hz) == MICROS
  {
    var u := MICROS / hz;
    assert MICROS == hz * u;
    QuotientIs(hz * u + hz / 2, hz, u, hz / 2);
  }

  lemma QuotientIs(x: int, hz: int, q: int, r: int)
    requires hz > 0 && x == hz * q + r && 0 <= r < hz
    ensures x / hz == q && x % hz == r
  {
    var d := x / hz - q;
    assert hz * d == hz * (x / hz) - hz * q;
    assert x == hz * (x / hz) + x % hz;
    assert hz * d == r - x % hz;
    if d >= 1 {
      MulMono(1, d, hz);
    } else if d <= -1 {
      MulMono(d, -1, hz);
    }
  }

  lemma SplitAlgebra(hz: int, q1: int, r1: int, wrap: int, whole: int, over: int, q2: int, r2: int, w: int, ticks: int)
    requires ticks == hz * q1 + r1 && wrap * over == hz * q2 + r2 && whole * hz + over == w
    ensures hz * (q1 + (wrap * whole + q2)) + (r1 + r2) == wrap * w + ticks
  {
    Distribute(q1, wrap * whole + q2, hz);
    Distribute(wrap * whole, q2, hz);
    Distribute(whole * hz, over, wrap);
    assert hz * (wrap * whole) == wrap * (whole * hz);
  }

  lemma SplitParts(hz: int, q1: int, r1: int, wrap: int, whole: int, over: int, q2: int, r2: int, w: int, ticks: int)
    requires ticks == hz * q1 + r1 && wrap * over == hz * q2 + r2 && whole * hz + over == w
    requires 0 <= q1 && 0 <= r1 < hz && 0 <= wrap * whole && 0 <= q2 && 0 <= r2 < hz
    ensures hz * (q1 + (wrap * whole + q2)) + (r1 + r2) == wrap * w + ticks
    ensures 0 <= r1 + r2 <= 2 * hz - 2 && 0 <= q1 + (wrap * whole + q2)
  {
    SplitAlgebra(hz, q1, r1, wrap, whole, over, q2, r2, w, ticks);
  }

  lemma TickSplit(hz: int, w: int, wrap: int, ticks: int)
    requires Rate(hz) && Word(w) && wrap >= 0 && ticks >= 0
    ensures hz >= 10 && hz * Seconds(hz, w, wrap, ticks) + Rest(hz, w, wrap, ticks) == Ticks(w, wrap, ticks)
    ensures 0 <= Rest(hz, w, wrap, ticks) <= 2 * hz - 2 && 0 <= Seconds(hz, w, wrap, ticks)
    ensures wrap == 0 ==> Rest(hz, w, wrap, ticks) < hz
  {
    hide LeftOver, WholeSeconds;
    WrapSplits(hz, w);
    var over, whole := LeftOver(hz, w), WholeSeconds(hz, w);
    var left := wrap * over;
    MulMono(0, wrap, over);
    MulMono(0, wrap, whole);
    DivMod(ticks, hz);
    DivMod(left, hz);
    SplitParts(hz, ticks / hz, ticks % hz, wrap, whole, over, left / hz, left % hz, w, ticks);
  }

  lemma ScaleAlgebra(hz: int, u: int, sec: int, rest: int, n: int)
    requires hz * sec + rest == n
    ensures sec * (hz * u) + rest * u == n * u
  {
    Distribute(hz * sec, rest, u);
    assert sec * (hz * u) == (hz * sec) * u;
  }

  lemma ScaleBounds(hz: int, u: int, rest: int)
    requires u > 0 && 0 <= rest <= 2 * hz - 2
    ensures 0 <= rest * u < 2 * (hz * u)
    ensures rest < hz ==> rest * u < hz * u
  {
    MulMono(0, rest, u);
    MulMono(rest + 1, 2 * hz, u);
    Distribute(rest, 1, u);
    assert (2 * hz) * u == 2 * (hz * u);
    if rest < hz {
      MulMono(rest + 1, hz, u);
    }
  }

  /** The conversion loses nothing: it is the tick count scaled to microseconds. */
  lemma ConversionIsExact(hz: int, w: int, wrap: int, ticks: int)
    requires Rate(hz) && Word(w) && wrap >= 0 && ticks >= 0
    ensures hz >= 10 && Micros(Converted(hz, w, wrap, ticks)) == Ticks(w, wrap, ticks) * (MICROS / hz)
    ensures 0 <= Converted(hz, w, wrap, ticks).usec < 2 * MICROS && 0 <= Converted(hz, w, wrap, ticks).sec
    ensures wrap == 0 ==> Converted(hz, w, wrap, ticks).usec < MICROS
  {
    hide Seconds, Rest, Ticks;
    TickSplit(hz, w, wrap, ticks);
    RoundedQuotient(hz);
    ScaleAlgebra(hz, MICROS / hz, Seconds(hz, w, wrap, ticks), Rest(hz, w, wrap, ticks), Ticks(w, wrap, ticks));
    ScaleBounds(hz, MICROS / hz, Rest(hz, w, wrap, ticks));
  }

  /** A conversion that loses nothing, whether or not a tick is a whole number of microseconds. */
  predicate Lossless(hz: int, w: int, wrap: int, ticks: int)
    requires hz >= 10
  {
    Micros(Converted(hz, w, wrap, ticks)) * hz == Ticks(w, wrap, ticks) * MICROS
  }

  /** The rates at which every conversion loses nothing are exactly these. */
  lemma ConversionIsExactIff(hz: int, w: int)
    requires 10 <= hz <= MICROS && Word(w)
    ensures Rate(hz) <==>
            forall wrap, ticks | 0 <= wrap && 0 <= ticks < w && Fits(hz, w, wrap, ticks) ::
              Lossless(hz, w, wrap, ticks)
  {
    hide Lossless, Fits;
    if Rate(hz) {
      forall wrap, ticks | 0 <= wrap && 0 <= ticks < w ensures Lossless(hz, w, wrap, ticks) {
        ExactIsLossless(hz, w, wrap, ticks);
      }
    } else if forall wrap, ticks | 0 <= wrap && 0 <= ticks < w && Fits(hz, w, wrap, ticks) ::
                Lossless(hz, w, wrap, ticks) {
      SmallFits(hz, w);
      assert Lossless(hz, w, 0, 1) && Lossless(hz, w, 1, 0);
      FirstTickTells(hz, w);
      FirstWrapTells(hz, w);
    }
  }

  lemma ExactIsLossless(hz: int, w: int, wrap: int, ticks: int)
    requires Rate(hz) && Word(w) && wrap >= 0 && ticks >= 0
    ensures hz >= 10 && Lossless(hz, w, wrap, ticks)
  {
    hide Converted, Ticks;
    ConversionIsExact(hz, w, wrap, ticks);
    RoundedQuotient(hz);
    var n, u := Ticks(w, wrap, ticks), MICROS / hz;
    assert (n * u) * hz == n * (hz * u);
  }

  lemma SmallFits(hz: int, w: int)
    requires 10 <= hz <= MICROS && Word(w)
    ensures Fits(hz, w, 0, 1) && Fits(hz, w, 1, 0)
  {
    hide WholeSeconds, LeftOver;
    WrapParts(hz, w);
    WordSeconds(hz, w);
    var over := LeftOver(hz, w);
    NothingOver(hz);
    QuotientIs(over, hz, 0, over);
    QuotientIs(1, hz, 0, 1);
  }

  /** The first tick shows whether a tick is a whole number of microseconds. */
  lemma FirstTickTells(hz: int, w: int)
    requires 10 <= hz && Lossless(hz, w, 0, 1)
    ensures PerTick(hz) * hz == MICROS && MICROS % hz == 0
  {
    hide LeftOver, WholeSeconds, PerTick;
    QuotientIs(1, hz, 0, 1);
    NothingOver(hz);
    assert 0 * LeftOver(hz, w) == 0 && 0 * WholeSeconds(hz, w) == 0;
    QuotientIs(MICROS, hz, PerTick(hz), 0);
  }

  /** The first wrap shows whether a tenth of the rate is a whole number. */
  lemma FirstWrapTells(hz: int, w: int)
    requires 10 <= hz <= MICROS && Word(w) && PerTick(hz) * hz == MICROS && Lossless(hz, w, 1, 0)
    ensures hz % 10 == 0
  {
    hide LeftOver, WholeSeconds, PerTick;
    WrapParts(hz, w);
    var whole, over := WholeSeconds(hz, w), LeftOver(hz, w);
    NothingOver(hz);
    QuotientIs(over, hz, 0, over);
    assert Converted(hz, w, 1, 0) == Timeval(whole, over * PerTick(hz));
    assert (whole * MICROS + over * PerTick(hz)) * hz == (whole * hz + over) * MICROS by {
      Distribute(whole * MICROS, over * PerTick(hz), hz);
      Distribute(whole * hz, over, MICROS);
      assert over * PerTick(hz) * hz == over * (PerTick(hz) * hz);
    }
    assert whole * hz + over == w;
    assert hz == hz / 10 * 10 + hz % 10;
    assert whole * (hz % 10) == 0 by {
      Distribute(hz / 10 * 10, hz % 10, whole);
    }
    if whole == 0 {
      assert false;
    }
  }

  predicate LexLess(a: Timeval, b: Timeval) {
    a.sec < b.sec || (a.sec == b.sec && a.usec < b.usec)
  }

  /** The order in which times are compared: strict, total, and that of the microseconds for normalised times. */
  lemma LexLessIsOrder(a: Timeval, b: Timeval)
    ensures LexLess(a, b) <==> a != b && !LexLess(b, a)
    ensures 0 <= a.usec < 1000000 && 0 <= b.usec < 1000000 ==>
      (LexLess(a, b) <==> 1000000 * a.sec + a.usec < 1000000 * b.sec + b.usec)
  {
  }

  /** With the wrap count alone given, the microseconds are normalised. */
  lemma ConvertedAtWrap(hz: int, w: int, wrap: int)
    requires Rate(hz) && Word(w) && wrap >= 0
    ensures hz >= 10 && 0 <= Converted(hz, w, wrap, 0).usec < MICROS
  {
    hide LeftOver, WholeSeconds;
    RoundedQuotient(hz);
    ScaleBounds(hz, MICROS / hz, (wrap * LeftOver(hz, w)) % hz);
  }

  lemma DivModLess(hz: int, t1: int, t2: int)
    requires hz > 0 && 0 <= t1 < t2
    ensures t1 / hz < t2 / hz || (t1 / hz == t2 / hz && t1 % hz < t2 % hz)
  {
    if t1 / hz > t2 / hz {
      MulMono(t2 / hz + 1, t1 / hz, hz);
      Distribute(t2 / hz, 1, hz);
    }
  }

  /** Within one wrap a later tick is a later time. */
  lemma LaterTick(hz: int, w: int, wrap: int, t1: int, t2: int)
    requires Rate(hz) && Word(w) && wrap >= 0 && 0 <= t1 < t2
    ensures hz >= 10 && LexLess(Converted(hz, w, wrap, t1), Converted(hz, w, wrap, t2))
  {
    hide LeftOver, WholeSeconds;
    RoundedQuotient(hz);
    DivModLess(hz, t1, t2);
    var r1, r2, u := Rest(hz, w, wrap, t1), Rest(hz, w, wrap, t2), MICROS / hz;
    if r1 < r2 {
      MulMono(r1 + 1, r2, u);
      Distribute(r1, 1, u);
    }
  }

  lemma SecondsOf(t: Timeval)
    requires t.usec >= 0
    ensures t.sec <= Micros(t) / MICROS
    ensures t.usec < MICROS ==> t.sec == Micros(t) / MICROS
  {
  }

  /** A later reading of the counter is a later time, also across any number of wraps. */
  lemma ConversionIsMonotone(hz: int, w: int, wrap1: int, t1: int, wrap2: int, t2: int)
    requires Rate(hz) && Word(w) && 0 <= wrap1 && 0 <= wrap2 && 0 <= t1 < w && 0 <= t2 < w
    requires Ticks(w, wrap1, t1) < Ticks(w, wrap2, t2)
    ensures hz >= 10 && LexLess(Converted(hz, w, wrap1, t1), Converted(hz, w, wrap2, t2))
  {
    if wrap1 == wrap2 {
      LaterTick(hz, w, wrap1, t1, t2);
    } else {
      if wrap1 > wrap2 {
        MulMono(wrap2 + 1, wrap1, w);
        Distribute(wrap2, 1, w);
      }
      var a, b, c := Converted(hz, w, wrap1, t1), Converted(hz, w, wrap2, 0), Converted(hz, w, wrap2, t2);
      ConversionIsExact(hz, w, wrap1, t1);
      ConversionIsExact(hz, w, wrap2, 0);
      ConvertedAtWrap(hz, w, wrap2);
      MulMono(wrap1 + 1, wrap2, w);
      Distribute(wrap1, 1, w);
      RoundedQuotient(hz);
      MulMono(Ticks(w, wrap1, t1) + 1, Ticks(w, wrap2, 0), MICROS / hz);
      Distribute(Ticks(w, wrap1, t1), 1, MICROS / hz);
      assert Micros(a) < Micros(b);
      SecondsOf(a);
      SecondsOf(b);
      assert LexLess(a, b);
      if t2 > 0 {
        LaterTick(hz, w, wrap2, 0, t2);
      }
    }
  }

  lemma FittingMicros(hz: int, rest: int)
    requires 10 <= hz <= MICROS && 0 <= rest <= 2 * hz - 2
    ensures 0 <= rest * PerTick(hz) < 3 * MICROS
  {
    var u := PerTick(hz);
    DivMod(MICROS + hz / 2, hz);
    MulMono(0, rest, u);
    MulMono(rest, 2 * hz, u);
    assert (2 * hz) * u == 2 * (hz * u);
  }

  /** The adjustment for wraps, in the arithmetic of a w-sized unsigned long. */
  method WrapAdjustment(hz: int, w: int, wrap: int) returns (sadj: int, wadj: int)
    requires hz >= 10 && Word(w) && 0 <= wrap < w
    ensures sadj == ((wrap * WholeSeconds(hz, w)) % w + ((wrap * LeftOver(hz, w)) % w) / hz) % w
    ensures wadj == ((wrap * LeftOver(hz, w)) % w) % hz
  {
    sadj, wadj := 0, 0;
    if wrap != 0 {
      sadj := hz / 10;
      wadj := (wrap * (6 + 10 * (((w - 1) / 10) % (hz / 10)))) % w;
      sadj := (wrap * (((w - 1) / 10) / sadj)) % w;
      sadj := (sadj + wadj / hz) % w;
      wadj := wadj % hz;
    } else {
      hide LeftOver, WholeSeconds;
      assert wrap * LeftOver(hz, w) == 0 && wrap * WholeSeconds(hz, w) == 0;
      NothingOver(hz);
      NothingOver(w);
    }
  }

  /** __clks2tv in the arithmetic of a w-sized unsigned long. */
  method Clks2tv(hz: int, w: int, ticks: int, wrap: int) returns (tv: Timeval)
    requires 10 <= hz <= MICROS && Word(w) && 0 <= ticks < w && 0 <= wrap < w
    ensures tv == WordTime(hz, w, wrap, ticks)
    ensures tv == Converted(hz, w, wrap, ticks) <==> Fits(hz, w, wrap, ticks)
  {
    hide LeftOver, WholeSeconds, Fits, Converted;
    var sadj, wadj := WrapAdjustment(hz, w, wrap);
    tv := Timeval((ticks / hz + sadj) % w, ((ticks % hz + wadj) * ((MICROS + hz / 2) / hz)) % w);
    WordTimeIsConvertedIff(hz, w, wrap, ticks);
  }

  /** The machine's answer is the conversion without any overflow exactly if these two values stay in the word. */
  lemma WordTimeIsConvertedIff(hz: int, w: int, wrap: int, ticks: int)
    requires 10 <= hz <= MICROS && Word(w) && 0 <= ticks < w && 0 <= wrap
    ensures WordTime(hz, w, wrap, ticks) == Converted(hz, w, wrap, ticks) <==> Fits(hz, w, wrap, ticks)
  {
    hide LeftOver, WholeSeconds, PerTick;
    WrapParts(hz, w);
    var left, whole, secs := wrap * LeftOver(hz, w), wrap * WholeSeconds(hz, w), ticks / hz;
    MulMono(0, wrap, LeftOver(hz, w));
    MulMono(0, wrap, WholeSeconds(hz, w));
    DivMod(ticks, hz);
    DivMod(left, hz);
    DivMod(left, w);
    DivMod(left % w, hz);
    if secs + (whole + left / hz) < w {
      LowPart(hz, w, left);
      SmallMod(whole, w);
      SmallMod(whole + left % w / hz, w);
      SmallMod(secs + (whole + left % w / hz), w);
      if left < w {
        SmallMod(left, w);
        FittingMicros(hz, Rest(hz, w, wrap, ticks));
        SmallMod(Rest(hz, w, wrap, ticks) * PerTick(hz), w);
      }
    }
  }

  /** Cutting a number to the word leaves its quotient, or makes it smaller. */
  lemma LowPart(hz: int, w: int, x: int)
    requires 0 < hz <= w && x >= 0
    ensures 0 <= x % w / hz <= x / hz && (x >= w ==> x % w / hz < x / hz)
  {
    DivMod(x, w);
    DivMod(x % w, hz);
    DivMod(x, hz);
    if x < w {
      SmallMod(x, w);
    } else {
      DivBound(x, w, 1);
      MulMono(1, x / w, w);
      if x % w / hz >= x / hz {
        MulMono(x / hz, x % w / hz, hz);
      }
    }
  }

  lemma NothingOver(hz: int)
    requires hz > 0
    ensures 0 / hz == 0 && 0 % hz == 0
  {
  }

  lemma SmallMod(x: int, w: int)
    requires 0 <= x < w
    ensures x % w == x
  {
  }

  // ---- Up to which tick count the conversion fits ----

  /** The number of wraps after which the left-over ticks or the seconds no longer fit in the word. */
  function LastWrap(hz: int, w: int): int
    requires hz >= 10 && Word(w)
  {
    WrapParts(hz, w);
    LeftOverAbove(hz, w);
    var n := (w - 1) / LeftOver(hz, w) + 1;
    if n < hz then n else hz
  }

  lemma LeftOverAbove(hz: int, w: int)
    requires hz >= 10 && Word(w)
    ensures LeftOver(hz, w) >= 6
  {
  }

  function Horizon(hz: int, w: int): int
    requires hz >= 10 && Word(w)
  {
    LastWrap(hz, w) * w
  }

  lemma LastWrapIs(hz: int, w: int)
    requires hz >= 10 && Word(w)
    ensures var n, over := LastWrap(hz, w), LeftOver(hz, w);
      && 0 < n <= hz && 6 <= over < hz && (n - 1) * over < w && (n < hz ==> w <= n * over)
  {
    WrapParts(hz, w);
    LeftOverAbove(hz, w);
    hide LeftOver, WholeSeconds;
    var n, over := LastWrap(hz, w), LeftOver(hz, w);
    var q := (w - 1) / over;
    DivMod(w - 1, over);
    MulMono(n - 1, q, over);
    Distribute(q, 1, over);
  }

  /** Before the horizon the machine's time is the exact one. */
  lemma FitsBeforeHorizon(hz: int, w: int, wrap: int, ticks: int)
    requires Rate(hz) && Word(w) && 0 <= wrap && 0 <= ticks < w && hz >= 10 && Ticks(w, wrap, ticks) < Horizon(hz, w)
    ensures Fits(hz, w, wrap, ticks) && wrap < hz
    ensures hz <= MICROS && WordTime(hz, w, wrap, ticks) == Converted(hz, w, wrap, ticks)
  {
    hide LeftOver, WholeSeconds, LastWrap, Seconds, Rest, Converted, WordTime;
    LastWrapIs(hz, w);
    TickSplit(hz, w, wrap, ticks);
    var n, over := LastWrap(hz, w), LeftOver(hz, w);
    if wrap >= n {
      MulMono(n, wrap, w);
    }
    MulMono(wrap, n - 1, over);
    MulMono(n, hz, w);
    if Seconds(hz, w, wrap, ticks) >= w {
      MulMono(w, Seconds(hz, w, wrap, ticks), hz);
    }
    RateAtMost(hz);
    WordTimeIsConvertedIff(hz, w, wrap, ticks);
  }

  lemma RateAtMost(hz: int)
    requires Rate(hz)
    ensures 10 <= hz <= MICROS
  {
  }

  /** At the horizon it goes back. */
  lemma GoesBackAtHorizon(hz: int, w: int)
    requires Rate(hz) && Word(w)
    ensures hz >= 10 && LastWrap(hz, w) > 0
    ensures var n := LastWrap(hz, w);
      && LexLess(WordTime(hz, w, n, 0), WordTime(hz, w, n - 1, w - 1)) && !Fits(hz, w, n, 0)
      && Ticks(w, n, 0) == Horizon(hz, w) == Ticks(w, n - 1, w - 1) + 1
  {
    hide LeftOver, WholeSeconds, LastWrap, WordTime, Fits, Converted;
    RateAtMost(hz);
    LastWrapIs(hz, w);
    var n := LastWrap(hz, w);
    Distribute(n, -1, w);
    FitsBeforeHorizon(hz, w, n - 1, w - 1);
    SecondsBeforeHorizon(hz, w);
    SecondsAtHorizon(hz, w);
  }

  lemma SecondsBeforeHorizon(hz: int, w: int)
    requires Rate(hz) && Word(w)
    ensures hz >= 10
    ensures var n := LastWrap(hz, w);
      Converted(hz, w, n - 1, w - 1).sec == n * WholeSeconds(hz, w) + ((n - 1) * LeftOver(hz, w)) / hz
  {
    hide LeftOver, WholeSeconds, LastWrap;
    LastWrapIs(hz, w);
    WrapSplits(hz, w);
    var n, over, whole := LastWrap(hz, w), LeftOver(hz, w), WholeSeconds(hz, w);
    QuotientIs(w - 1, hz, whole, over - 1);
    Distribute(n, -1, whole);
  }

  /** The machine's seconds at the moment of a wrap. */
  lemma SecondsAtWrap(hz: int, w: int, wrap: int)
    requires hz >= 10 && Word(w)
    ensures WordTime(hz, w, wrap, 0).sec == (wrap * WholeSeconds(hz, w) % w + wrap * LeftOver(hz, w) % w / hz) % w
  {
    hide LeftOver, WholeSeconds, PerTick;
    NothingOver(hz);
    var s := wrap * WholeSeconds(hz, w) % w + wrap * LeftOver(hz, w) % w / hz;
    DivMod(s, w);
    SmallMod(s % w, w);
  }

  lemma SecondsAtHorizon(hz: int, w: int)
    requires Rate(hz) && Word(w)
    ensures hz >= 10
    ensures var n := LastWrap(hz, w);
      && !Fits(hz, w, n, 0)
      && WordTime(hz, w, n, 0).sec < n * WholeSeconds(hz, w) + ((n - 1) * LeftOver(hz, w)) / hz
  {
    LastWrapIs(hz, w);
    WrapSplits(hz, w);
    RateAtMost(hz);
    hide LeftOver, WholeSeconds, LastWrap, WordTime, Rate;
    var n, over, whole := LastWrap(hz, w), LeftOver(hz, w), WholeSeconds(hz, w);
    SecondsAtWrap(hz, w, n);
    Distribute(n, -1, over);
    NothingOver(hz);
    CutSeconds(hz, w, n, over, whole, n * over, n * whole);
  }

  lemma CutSeconds(hz: int, w: int, n: int, over: int, whole: int, left: int, a: int)
    requires 10 <= hz <= MICROS && Word(w) && 0 < over < hz && whole >= 0 && whole * hz + over == w && 0 < n <= hz
    requires left == n * over && a == n * whole && left - over < w && (n < hz ==> w <= left)
    ensures (a % w + left % w / hz) % w < a + (left - over) / hz && (w <= left || w <= a + left / hz)
  {
    if w <= left {
      OverHorizon(hz, w, n, over, whole);
    } else {
      MulMono(1, whole, hz);
      AtLastSecond(hz, w, over, left, a);
    }
  }

  /** The left-over ticks of all wraps have just left the word. */
  lemma OverHorizon(hz: int, w: int, n: int, over: int, whole: int)
    requires 10 <= hz <= MICROS && Word(w) && 0 < over < hz && whole >= 0 && whole * hz + over == w && 0 < n <= hz
    requires n * over - over < w <= n * over
    ensures (n * whole % w + n * over % w / hz) % w < n * whole + (n * over - over) / hz
  {
    var left := n * over;
    QuotientIs(left, w, 1, left - w);
    QuotientIs(left - w, hz, 0, left - w);
    DivBound(left - over, hz, 1);
    MulMono(n, hz, whole);
    MulMono(0, n, whole);
    SmallMod(n * whole, w);
  }

  /** The seconds have just left the word: x ticks are left over, and the whole seconds of all wraps are a. */
  lemma AtLastSecond(hz: int, w: int, over: int, x: int, a: int)
    requires hz > 0 && over > 0 && x == hz * over && x < w && a > 0 && a + over == w
    ensures (a % w + x % w / hz) % w == 0 < a + (x - over) / hz && a + x / hz == w
  {
    QuotientIs(x, hz, over, 0);
    MulMono(1, hz, over);
    DivMod(x - over, hz);
    FullWord(w, a, over, x, hz);
  }

  lemma FullWord(w: int, a: int, b: int, x: int, hz: int)
    requires 0 < a && 0 < b && a + b == w && 0 <= x < w && hz > 0 && x / hz == b
    ensures (a % w + x % w / hz) % w == 0
  {
    SmallMod(x, w);
    SmallMod(a, w);
    QuotientIs(w, w, 1, 0);
  }
}
