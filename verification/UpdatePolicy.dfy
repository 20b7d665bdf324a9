/** When this client updates its buffers: the need check and the exponential backoff (buffbase.cpp). */
module UpdatePolicy {
  import opened Machine

  // ---- BufferCheckIfUpdateNeeded ----

  /** One project as the check sees it; `outCount` and `inCount` are what GetBufferCount answers. */
  datatype Project = Project(
    supported: bool, userDisabled: bool, closed: bool, suspended: bool, loadPermitted: bool,
    outCount: int, inFull: bool, inCount: int, inUnits: nat, inThreshold: nat)

  /** The request: which directions to check, and BUFFUPDCHECK_TOPOFF and BUFFUPDCHECK_EITHER. */
  datatype Request = Request(fetch: bool, flush: bool, topOff: bool, either: bool)

  /** The clocks; `monotonic` is what CliClock gives, or -1 when it fails. */
  datatype Times = Times(lastUpdate: u32, scheduled: u32, wall: nat, monotonic: int)

  const PROJECTFLAGS_SUSPENDED_TTL: nat := 15 * 60

  predicate Eligible(p: Project) {
    p.supported && !p.userDisabled && p.loadPermitted
  }

  predicate ClosedExpired(t: Times) {
    t.lastUpdate == 0 || (t.scheduled != 0 && t.wall >= t.scheduled)
  }

  predicate SuspendExpired(t: Times) {
    ClosedExpired(t) || t.monotonic > U32(t.lastUpdate + PROJECTFLAGS_SUSPENDED_TTL)
  }

  predicate Flushable(p: Project, t: Times, single: bool) {
    single || !p.closed || ClosedExpired(t)
  }

  predicate Fetchable(p: Project, t: Times, single: bool) {
    single || (if p.closed then ClosedExpired(t) else p.suspended ==> SuspendExpired(t))
  }

  predicate WantsFlush(p: Project, t: Times, single: bool) {
    Eligible(p) && Flushable(p, t, single) && p.outCount > 0
  }

  predicate WantsFetch(p: Project, t: Times, single: bool, topOff: bool) {
    && Eligible(p) && Fetchable(p, t, single) && !p.inFull
    && (p.inCount <= 0 || (topOff && (if p.inUnits == 0 then p.inCount * 100 else p.inUnits) < p.inThreshold))
  }

  /**
   * What a project wants, by its state. A closed one waits until it is time for a scheduled update, a suspended one for
   * fetches only, and no longer than a quarter of an hour after the last update; asked for by number, neither waits.
   */
  lemma WantsByState(p: Project, t: Times, single: bool, topOff: bool)
    ensures var due := t.lastUpdate == 0 || (t.scheduled > 0 && t.scheduled <= t.wall);
      var hasWork := p.outCount >= 1;
      var lacks := !p.inFull
        && (p.inCount < 1 || (topOff && p.inUnits > 0 && p.inUnits < p.inThreshold)
            || (topOff && p.inUnits == 0 && 100 * p.inCount < p.inThreshold));
      var rested := due || t.monotonic > (t.lastUpdate + 900) % 0x1_0000_0000;
      if !p.supported || p.userDisabled || !p.loadPermitted then
        !WantsFlush(p, t, single) && !WantsFetch(p, t, single, topOff)
      else if single || (!p.closed && !p.suspended) then
        WantsFlush(p, t, single) == hasWork && WantsFetch(p, t, single, topOff) == lacks
      else if p.closed then
        WantsFlush(p, t, single) == (due && hasWork) && WantsFetch(p, t, single, topOff) == (due && lacks)
      else WantsFlush(p, t, single) == hasWork && WantsFetch(p, t, single, topOff) == (rested && lacks)
  {
  }

  /** All projects of the table count, or the one asked for. */
  lemma WantsOfTable(projects: seq<Project>, contest: nat, t: Times, topOff: bool)
    ensures AnyWantsFlush(projects, 0, |projects|, t, false) <==> exists p | p in projects :: WantsFlush(p, t, false)
    ensures AnyWantsFetch(projects, 0, |projects|, t, false, topOff) <==>
            exists p | p in projects :: WantsFetch(p, t, false, topOff)
    ensures contest < |projects| ==> var p := projects[contest];
      && AnyWantsFlush(projects, contest, contest + 1, t, true) == WantsFlush(p, t, true)
      && AnyWantsFetch(projects, contest, contest + 1, t, true, topOff) == WantsFetch(p, t, true, topOff)
  {
    hide WantsFlush, WantsFetch;
  }

  predicate AnyWantsFlush(projects: seq<Project>, lo: int, hi: int, t: Times, single: bool)
    requires 0 <= lo <= hi <= |projects|
  {
    exists i | lo <= i < hi :: WantsFlush(projects[i], t, single)
  }

  predicate AnyWantsFetch(projects: seq<Project>, lo: int, hi: int, t: Times, single: bool, topOff: bool)
    requires 0 <= lo <= hi <= |projects|
  {
    exists i | lo <= i < hi :: WantsFetch(projects[i], t, single, topOff)
  }

  /** The lazily computed expiry marks: -1 until the first project needs them, then zero for "not expired". */
  predicate Known(closedExpired: int, suspendExpired: int, t: Times) {
    closedExpired < 0
    || (suspendExpired >= 0 && (closedExpired > 0) == ClosedExpired(t) && (suspendExpired > 0) == SuspendExpired(t))
  }

  /** Deciding, for one project, whether its closed or suspended state still counts; expiry is -1 until it is needed. */
  method CheckExpiry(p: Project, t: Times, single: bool, closedExpired: int, suspendExpired: int)
    returns (closed: int, suspend: int, fetchable: bool, flushable: bool)
    requires Known(closedExpired, suspendExpired, t)
    ensures Known(closed, suspend, t)
    ensures fetchable == Fetchable(p, t, single) && flushable == Flushable(p, t, single)
  {
    closed, suspend, fetchable, flushable := closedExpired, suspendExpired, true, true;
    if !single && (p.closed || p.suspended) {
      if closed < 0 {
        suspend, closed := 0, 0;
        if t.lastUpdate == 0 {
          closed, suspend := 1, 1;
        } else if t.scheduled != 0 && t.wall >= t.scheduled {
          closed, suspend := 2, 2;
        } else if t.monotonic >= 0 {
          if t.monotonic > U32(t.lastUpdate + PROJECTFLAGS_SUSPENDED_TTL) {
            suspend := 3;
          }
        }
      }
      if p.closed {
        if closed == 0 {
          fetchable, flushable := false, false;
        }
      } else if p.suspended {
        if suspend == 0 {
          fetchable := false;
        }
      }
    }
  }

  /** The whole check. A `contest` outside the table means all projects. */
  method BufferCheckIfUpdateNeeded(projects: seq<Project>, contest: int, r: Request, t: Times)
    returns (fetch: bool, flush: bool)
    ensures var single := 0 <= contest < |projects|;
            var lo, hi := if single then contest else 0, if single then contest + 1 else |projects|;
            var someFlush := AnyWantsFlush(projects, lo, hi, t, single);
            var someFetch := AnyWantsFetch(projects, lo, hi, t, single, r.topOff);
      if r.fetch && r.flush && r.either then fetch == flush == (someFlush || someFetch)
      else fetch == (r.fetch && someFetch) && flush == (r.flush && someFlush)
  {
    fetch, flush := false, false;
    if !r.fetch && !r.flush {
      return;
    }
    var eitherOr := r.fetch && r.flush && r.either;
    var single := 0 <= contest < |projects|;
    var pos, end := if single then contest else 0, if single then contest + 1 else |projects|;
    ghost var lo := pos;
    var closedExpired, suspendExpired := -1, -1;
    while pos < end
      invariant lo <= pos <= end
      invariant Known(closedExpired, suspendExpired, t)
      invariant eitherOr ==>
        fetch == flush == (|| AnyWantsFlush(projects, lo, pos, t, single)
                           || AnyWantsFetch(projects, lo, pos, t, single, r.topOff))
      invariant !eitherOr ==> fetch == (r.fetch && AnyWantsFetch(projects, lo, pos, t, single, r.topOff))
      invariant !eitherOr ==> flush == (r.flush && AnyWantsFlush(projects, lo, pos, t, single))
    {
      var p := projects[pos];
      if Eligible(p) {
        var fetchable, flushable;
        closedExpired, suspendExpired, fetchable, flushable := CheckExpiry(p, t, single, closedExpired, suspendExpired);
        if r.flush && !flush && flushable {
          if p.outCount > 0 {
            flush := true;
            if eitherOr {
              fetch := true;
            }
          }
        }
        if r.fetch && !fetch && fetchable {
          if !p.inFull {
            if p.inCount <= 0 {
              fetch := true;
            } else if r.topOff {
              var units := if p.inUnits == 0 then p.inCount * 100 else p.inUnits;
              if units < p.inThreshold {
                fetch := true;
              }
            }
          }
          if fetch && eitherOr {
            flush := true;
          }
        }
      }
      pos := pos + 1;
      if flush && fetch {
        break;
      }
    }
  }

  // ---- The retry delay of BufferUpdate ----

  const FIRST_DELAY: nat := 30
  const MAX_DELAY: nat := 3600

  function NextDelay(delay: int): int {
    if delay < FIRST_DELAY then FIRST_DELAY
    else if delay <= 1800 then delay * 2
    else MAX_DELAY
  }

  /** The delay in force after k failures in a row. */
  function DelayAfter(k: nat): int {
    if k == 0 then 0 else NextDelay(DelayAfter(k - 1))
  }

  function Pow2(k: nat): nat {
    if k == 0 then 1 else 2 * Pow2(k - 1)
  }

  lemma DelayAfterFew(k: nat)
    requires 1 <= k <= 7
    ensures DelayAfter(k) == 30 * Pow2(k - 1) && DelayAfter(k) <= 1920
    ensures k <= 6 ==> DelayAfter(k) <= 960
  {
    if k > 1 {
      DelayAfterFew(k - 1);
    }
  }

  /** The delays double from half a minute and stay at an hour from the eighth failure on. */
  lemma {:induction false} DelaySchedule(k: nat)
    ensures DelayAfter(k) == if k == 0 then 0 else if k <= 7 then 30 * Pow2(k - 1) else 3600
  {
    if 1 <= k <= 7 {
      DelayAfterFew(k);
    } else if k == 8 {
      DelayAfterFew(7);
      assert Pow2(6) == 64 by {
        assert Pow2(2) == 4;
        assert Pow2(4) == 16;
      }
    } else if k > 8 {
      DelaySchedule(k - 1);
    }
  }

  /** A clock reading as BufferUpdate uses it: zero is its "no failure" mark, so a zero clock counts as one. */
  function Bumped(clock: nat): nat {
    if clock == 0 then 1 else clock
  }

  /**
   * One call: the clock on entry and exit (-1 when it fails), whether any update method is configured, and its result.
   */
  datatype Call = Call(entry: int, exit: int, configured: bool, transfers: bool)

  datatype Outcome = Delayed | Unconfigured | Transferred | NothingDone

  datatype Backoff = Backoff(failedTime: int, delay: int, updateTime: int)

  predicate Delays(b: Backoff, c: Call) {
    b.failedTime != 0 && c.entry >= 0 && b.failedTime + b.delay > Bumped(c.entry)
  }

  function OutcomeOf(b: Backoff, c: Call): Outcome {
    if Delays(b, c) then Delayed
    else if !c.configured then Unconfigured
    else if c.transfers then Transferred
    else NothingDone
  }

  /** The client's fields after the call. */
  function After(b: Backoff, c: Call): Backoff {
    match OutcomeOf(b, c)
    case Delayed => b
    case Unconfigured => b
    case Transferred => Backoff(0, 0, if c.exit >= 0 then Bumped(c.exit) else b.updateTime)
    case NothingDone => if c.exit >= 0 then Backoff(Bumped(c.exit), NextDelay(b.delay), b.updateTime) else b
  }

  /** The fields of the client that BufferUpdate keeps its retry state in. */
  class RetryState {
    var failedTime: int
    var delay: int
    var updateTime: int

    function Value(): Backoff
      reads this
    {
      Backoff(failedTime, delay, updateTime)
    }

    constructor ()
      ensures Value() == Backoff(0, 0, 0)
    {
      failedTime, delay, updateTime := 0, 0, 0;
    }

    method BufferUpdate(c: Call) returns (outcome: Outcome)
      modifies this
      ensures outcome == OutcomeOf(old(Value()), c)
      ensures Value() == After(old(Value()), c)
    {
      if failedTime != 0 && c.entry >= 0 {
        var sec := if c.entry == 0 then 1 else c.entry;
        if failedTime + delay > sec {
          return Delayed;
        }
      }
      if !c.configured {
        return Unconfigured;
      }
      if c.exit >= 0 {
        var sec := if c.exit == 0 then 1 else c.exit;
        if c.transfers {
          updateTime := sec;
        } else {
          failedTime := sec;
          if delay < 30 {
            delay := 30;
          } else if delay <= 1800 {
            delay := delay * 2;
          } else {
            delay := 3600;
          }
        }
      }
      if c.transfers {
        failedTime, delay := 0, 0;
        return Transferred;
      }
      return NothingDone;
    }
  }

  function RunOf(calls: seq<Call>): Backoff {
    if calls == [] then Backoff(0, 0, 0) else After(RunOf(calls[..|calls| - 1]), calls[|calls| - 1])
  }

  function OutcomeAt(calls: seq<Call>, i: nat): Outcome
    requires i < |calls|
  {
    OutcomeOf(RunOf(calls[..i]), calls[i])
  }

  /** How many attempts in a row, up to now, transferred nothing. */
  function FailuresInARow(calls: seq<Call>): nat {
    if calls == [] then 0 else
      var before, outcome := calls[..|calls| - 1], OutcomeAt(calls, |calls| - 1);
      if outcome == Transferred then 0
      else if outcome == NothingDone then 1 + FailuresInARow(before)
      else FailuresInARow(before)
  }

  /** The call that made the last of those attempts. */
  function LastFailure(calls: seq<Call>): nat
    requires FailuresInARow(calls) > 0
    ensures LastFailure(calls) < |calls|
  {
    if OutcomeAt(calls, |calls| - 1) == NothingDone then |calls| - 1 else LastFailure(calls[..|calls| - 1])
  }

  function Max(a: int, b: int): int {
    if a >= b then a else b
  }

  /** A call that is not turned away does what the configuration and the transfer make of it. */
  lemma OutcomeOfCall(calls: seq<Call>, i: nat)
    requires i < |calls| && OutcomeAt(calls, i) != Delayed
    ensures OutcomeAt(calls, i) == Unconfigured <==> !calls[i].configured
    ensures OutcomeAt(calls, i) == Transferred <==> calls[i].configured && calls[i].transfers
    ensures OutcomeAt(calls, i) == NothingDone <==> calls[i].configured && !calls[i].transfers
  {
  }

  /** A call with a clock that fails is never turned away, and leaves a failure as it was. */
  lemma WithoutClock(b: Backoff, c: Call)
    ensures c.entry < 0 ==> OutcomeOf(b, c) != Delayed
    ensures c.exit < 0 && OutcomeOf(b, c) == NothingDone ==> After(b, c) == b
    ensures c.exit < 0 && OutcomeOf(b, c) == Transferred ==> After(b, c) == Backoff(0, 0, b.updateTime)
    ensures OutcomeOf(b, c) == Delayed || OutcomeOf(b, c) == Unconfigured ==> After(b, c) == b
  {
  }

  lemma OutcomesBefore(calls: seq<Call>)
    requires calls != []
    ensures forall i: nat | i < |calls| - 1 :: OutcomeAt(calls[..|calls| - 1], i) == OutcomeAt(calls, i)
  {
    forall i: nat | i < |calls| - 1 ensures OutcomeAt(calls[..|calls| - 1], i) == OutcomeAt(calls, i) {
      assert calls[..|calls| - 1][..i] == calls[..i];
    }
  }

  /** The last call that transferred something, or -1. */
  function LastTransfer(calls: seq<Call>): (j: int)
    ensures -1 <= j < |calls| && (j >= 0 ==> OutcomeAt(calls, j) == Transferred)
    ensures forall i | j < i < |calls| :: OutcomeAt(calls, i) != Transferred
  {
    if calls == [] then -1
    else
      var n := |calls| - 1;
      OutcomesBefore(calls);
      if OutcomeAt(calls, n) == Transferred then n else LastTransfer(calls[..n])
  }

  /** The time of the last update is that of the last transfer, over every run. */
  lemma {:induction false} UpdateTimeIsLastTransfer(calls: seq<Call>)
    requires ClockWorks(calls)
    ensures var j := LastTransfer(calls); RunOf(calls).updateTime == if j < 0 then 0 else Max(1, calls[j].exit)
  {
    if calls != [] {
      UpdateTimeIsLastTransfer(calls[..|calls| - 1]);
    }
  }

  predicate ClockWorks(calls: seq<Call>) {
    forall i | 0 <= i < |calls| :: 0 <= calls[i].entry && 0 <= calls[i].exit
  }

  /**
   * Over every run: the mark is set exactly while attempts fail, and delay and time are those of the failures so far.
   */
  lemma {:induction false} BackoffTracksFailures(calls: seq<Call>)
    requires ClockWorks(calls)
    ensures var b, k := RunOf(calls), FailuresInARow(calls);
      && b.delay == DelayAfter(k)
      && (b.failedTime == 0 <==> k == 0)
      && (k > 0 ==> && OutcomeAt(calls, LastFailure(calls)) == NothingDone
                    && b.failedTime == Max(1, calls[LastFailure(calls)].exit))
  {
    if calls != [] {
      var n := |calls| - 1;
      BackoffTracksFailures(calls[..n]);
      assert calls[..n][..n] == calls[..n];
      if FailuresInARow(calls) > 0 && OutcomeAt(calls, n) != NothingDone {
        var j := LastFailure(calls[..n]);
        assert calls[..n][..j] == calls[..j];
      }
    }
  }

  /** After k failed attempts a call is turned away exactly when it comes less than the k-th delay after the last. */
  lemma AttemptsAreSpaced(calls: seq<Call>, c: Call)
    requires ClockWorks(calls) && c.entry >= 0
    ensures OutcomeOf(RunOf(calls), c) == Delayed <==>
            FailuresInARow(calls) > 0
            && Max(1, c.entry) < Max(1, calls[LastFailure(calls)].exit) + DelayAfter(FailuresInARow(calls))
  {
    BackoffTracksFailures(calls);
  }

  /**
   * A transfer forgets the failures: no later call is turned away because of them, and the next failure starts at 30
   * seconds.
   */
  lemma SuccessResets(calls: seq<Call>, c: Call, next: Call)
    requires ClockWorks(calls) && OutcomeOf(RunOf(calls), c) == Transferred
    ensures FailuresInARow(calls + [c]) == 0 && OutcomeOf(RunOf(calls + [c]), next) != Delayed
    ensures OutcomeOf(RunOf(calls + [c]), next) == NothingDone && next.exit >= 0 ==>
      RunOf(calls + [c] + [next]).delay == 30
  {
    assert (calls + [c])[..|calls|] == calls;
    assert (calls + [c] + [next])[..|calls| + 1] == calls + [c];
  }
}
