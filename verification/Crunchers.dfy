/**
 * The suspend and exit protocol of clirun.cpp: the main loop and N crunchers share flag words, and every step
 * below touches at most one of them. Steps of the main loop and of the crunchers interleave in any order.
 */
module Crunchers {

  /** Where a cruncher is in Go_mt. */
  datatype Phase =
    | Starting  // created, nothing stored yet
    | Announced // hasexited cleared
    | Head      // about to test do_exit
    | Check     // about to test the problem pointer and do_suspend
    | Committed // decided to run, is_suspended still set
    | Entered   // is_suspended cleared, ProblemRun not yet called
    | Running   // in ProblemRun
    | Returned  // back from ProblemRun, is_suspended still clear
    | Gone

  /** A cruncher's flags; `begun` counts its calls of ProblemRun. */
  datatype Cruncher = Cruncher(phase: Phase, doSuspend: bool, doExit: bool, isSuspended: bool, hasExited: bool,
                               begun: nat)

  /** What the cruncher finds when it looks at its problem. */
  datatype Problem = Missing | Uninitialised | Ready

  /** Which mode request the main loop finds: none, one that needs the crunchers out of the way, or another. */
  datatype Mode = NoMode | Exclusive | Shared

  /** Where the main loop is. `at` is the next list entry __gsc_flag_allthreads looks at. */
  datatype Main =
    | LoopHead
    | Pausing(at: nat)
    | Unpausing(at: nat)
    | Modes
    | Suspending(at: nat)
    | Waiting(at: nat, didSuspend: bool)
    | ModeRun(didSuspend: bool, exclusive: bool)
    | Resuming(at: nat)
    | Exiting(at: nat)      // about to store do_exit
    | Unsuspending(at: nat) // about to store do_suspend on the way out
    | Joining

  datatype State = State(crunchers: seq<Cruncher>, main: Main, wasPaused: bool)

  datatype Step =
    | Crunch(i: nat, problem: Problem)
    | Control(quit: bool, paused: bool, mode: Mode)

  function Initial(n: nat): State {
    State(seq(n, _ => Cruncher(Starting, false, false, false, true, 0)), LoopHead, false)
  }

  function Advance(c: Cruncher, problem: Problem): Cruncher {
    match c.phase
    case Starting => c.(hasExited := false, phase := Announced)
    case Announced => c.(isSuspended := true, phase := Head)
    case Head => if c.doExit then c.(hasExited := true, phase := Gone) else c.(phase := Check)
    case Check =>
      if problem == Missing || c.doSuspend || problem == Uninitialised then c.(phase := Head)
      else c.(phase := Committed)
    case Committed => c.(isSuspended := false, phase := Entered)
    case Entered => c.(begun := c.begun + 1, phase := Running)
    case Running => c.(phase := Returned)
    case Returned => c.(isSuspended := true, phase := Head)
    case Gone => c
  }

  function Store(s: State, at: nat, suspend: bool, main: Main): State
    requires at < |s.crunchers|
  {
    s.(crunchers := s.crunchers[at := s.crunchers[at].(doSuspend := suspend)], main := main)
  }

  function Next(s: State, step: Step): State {
    var n := |s.crunchers|;
    match step
    case Crunch(i, problem) =>
      if i < n then s.(crunchers := s.crunchers[i := Advance(s.crunchers[i], problem)]) else s
    case Control(quit, paused, mode) =>
      match s.main
      case LoopHead =>
        s.(main := if quit then Exiting(0)
                   else if paused && !s.wasPaused then Pausing(0)
                   else if !paused && s.wasPaused then Unpausing(0)
                   else Modes)
      case Pausing(at) => if at < n then Store(s, at, true, Pausing(at + 1)) else s.(main := Modes, wasPaused := true)
      case Unpausing(at) =>
        if at < n then Store(s, at, false, Unpausing(at + 1)) else s.(main := Modes, wasPaused := false)
      case Modes =>
        s.(main := if mode == NoMode then LoopHead
                   else if mode == Shared then ModeRun(false, false)
                   else if s.wasPaused then Waiting(0, false)
                   else Suspending(0))
      case Suspending(at) => if at < n then Store(s, at, true, Suspending(at + 1)) else s.(main := Waiting(0, true))
      case Waiting(at, did) =>
        s.(main := if at == n then ModeRun(did, true)
                   else if at < n && s.crunchers[at].isSuspended then Waiting(at + 1, did)
                   else Waiting(0, did))
      case ModeRun(did, _) => s.(main := if did then Resuming(0) else LoopHead)
      case Resuming(at) => if at < n then Store(s, at, false, Resuming(at + 1)) else s.(main := LoopHead)
      case Exiting(at) =>
        if at < n then s.(crunchers := s.crunchers[at := s.crunchers[at].(doExit := true)], main := Unsuspending(at))
        else s.(main := Joining)
      case Unsuspending(at) => if at < n then Store(s, at, false, Exiting(at + 1)) else s
      case Joining => s
  }

  function RunFrom(s: State, steps: seq<Step>): State {
    if steps == [] then s else Next(RunFrom(s, steps[..|steps| - 1]), steps[|steps| - 1])
  }

  lemma {:induction false} RunFromSplit(s: State, steps: seq<Step>, more: seq<Step>)
    ensures RunFrom(s, steps + more) == RunFrom(RunFrom(s, steps), more)
  {
    if more == [] {
      assert steps + more == steps;
    } else {
      var k := |more| - 1;
      assert (steps + more)[..|steps + more| - 1] == steps + more[..k];
      RunFromSplit(s, steps, more[..k]);
    }
  }

  lemma {:induction false} CruncherCount(s: State, steps: seq<Step>)
    ensures |RunFrom(s, steps).crunchers| == |s.crunchers|
  {
    if steps != [] {
      CruncherCount(s, steps[..|steps| - 1]);
    }
  }

  // ---- What holds in every reachable state ----

  /** is_suspended is clear just around a run (and before a thread has started); hasexited tells who is not running. */
  predicate Coherent(c: Cruncher) {
    && (c.isSuspended <==> c.phase in {Head, Check, Committed, Gone})
    && (c.hasExited <==> c.phase in {Starting, Gone})
    && (c.phase == Gone ==> c.doExit)
  }

  /** Crunchers before `at` have do_suspend == done, the others do_suspend == !done. */
  predicate Walked(s: State, at: nat, done: bool) {
    && at <= |s.crunchers|
    && forall j | 0 <= j < |s.crunchers| :: s.crunchers[j].doSuspend == if j < at then done else !done
  }

  predicate AllSuspended(s: State, value: bool) {
    forall j | 0 <= j < |s.crunchers| :: s.crunchers[j].doSuspend == value
  }

  predicate ExitWalked(s: State, at: nat) {
    && at <= |s.crunchers|
    && (forall j | 0 <= j < |s.crunchers| :: s.crunchers[j].doSuspend == (j >= at && s.wasPaused))
  }

  predicate Flags(s: State) {
    match s.main
    case LoopHead => AllSuspended(s, s.wasPaused)
    case Pausing(at) => !s.wasPaused && Walked(s, at, true)
    case Unpausing(at) => s.wasPaused && Walked(s, at, false)
    case Modes => AllSuspended(s, s.wasPaused)
    case Suspending(at) => !s.wasPaused && Walked(s, at, true)
    case Waiting(at, did) => at <= |s.crunchers| && did == !s.wasPaused && AllSuspended(s, true)
    case ModeRun(did, exclusive) =>
      did == (exclusive && !s.wasPaused) && AllSuspended(s, exclusive || s.wasPaused)
    case Resuming(at) => !s.wasPaused && Walked(s, at, false)
    case Exiting(at) => ExitWalked(s, at)
    case Unsuspending(at) => at < |s.crunchers| && ExitWalked(s, at)
    case Joining => AllSuspended(s, false)
  }

  /** How many crunchers have been told to exit. */
  function ToldToExit(s: State): nat {
    match s.main
    case Exiting(at) => at
    case Unsuspending(at) => at + 1
    case Joining => |s.crunchers|
    case _ => 0
  }

  predicate Consistent(s: State) {
    && Flags(s)
    && (forall j | 0 <= j < |s.crunchers| :: Coherent(s.crunchers[j]))
    && (forall j | 0 <= j < |s.crunchers| :: s.crunchers[j].doExit <==> j < ToldToExit(s))
  }

  /** A step of the main loop changes a cruncher's two request flags only, and never takes back a request to exit. */
  lemma ControlKeeps(s: State, step: Step, j: nat)
    requires step.Control? && j < |s.crunchers|
    ensures |Next(s, step).crunchers| == |s.crunchers|
    ensures var c, d := s.crunchers[j], Next(s, step).crunchers[j];
      d == c.(doSuspend := d.doSuspend, doExit := d.doExit) && (c.doExit ==> d.doExit)
  {
  }

  lemma CrunchIsConsistent(s: State, i: nat, problem: Problem)
    requires Consistent(s) && i < |s.crunchers|
    ensures Consistent(Next(s, Crunch(i, problem)))
  {
    var e := Next(s, Crunch(i, problem));
    AdvanceKeeps(s.crunchers[i], problem);
    hide Advance, Coherent;
    assert forall j | 0 <= j < |s.crunchers| && j != i :: e.crunchers[j] == s.crunchers[j];
    assert forall j | 0 <= j < |s.crunchers| :: e.crunchers[j].doSuspend == s.crunchers[j].doSuspend;
  }

  lemma AdvanceKeeps(c: Cruncher, problem: Problem)
    requires Coherent(c)
    ensures var d := Advance(c, problem); Coherent(d) && d.doSuspend == c.doSuspend && d.doExit == c.doExit
  {
  }

  lemma WalkStep(s: State, at: nat, done: bool, e: State)
    requires Walked(s, at, done)
    requires at < |s.crunchers| ==> e == Store(s, at, done, e.main)
    requires at == |s.crunchers| ==> e.crunchers == s.crunchers
    ensures at < |s.crunchers| ==> Walked(e, at + 1, done)
    ensures at == |s.crunchers| ==> AllSuspended(e, done)
  {
  }

  lemma WalkStart(s: State, done: bool, e: State)
    requires AllSuspended(s, !done) && e.crunchers == s.crunchers
    ensures Walked(e, 0, done)
  {
  }

  lemma SameFlags(s: State, value: bool, e: State)
    requires AllSuspended(s, value) && e.crunchers == s.crunchers
    ensures AllSuspended(e, value)
  {
  }

  lemma ControlFlags(s: State, step: Step)
    requires Flags(s) && step.Control?
    ensures Flags(Next(s, step))
  {
    if s.main.LoopHead? || s.main.Modes? || s.main.Joining? || s.main.Waiting? || s.main.ModeRun? {
      StandingFlags(s, step);
    } else if s.main.Exiting? || s.main.Unsuspending? {
      hide Walked;
    } else {
      WalkingFlags(s, step);
    }
  }

  lemma StandingFlags(s: State, step: Step)
    requires s.main.LoopHead? || s.main.Modes? || s.main.Joining? || s.main.Waiting? || s.main.ModeRun?
    requires Flags(s) && step.Control?
    ensures Flags(Next(s, step))
  {
    hide AllSuspended, Walked;
    var e := Next(s, step);
    var value := match s.main
                 case Waiting(_, _) => true
                 case ModeRun(_, exclusive) => exclusive || s.wasPaused
                 case Joining => false
                 case _ => s.wasPaused;
    SameFlags(s, value, e);
    WalkStart(s, !value, e);
    ExitStart(s, value, e);
  }

  lemma ExitStart(s: State, value: bool, e: State)
    requires AllSuspended(s, value) && e.crunchers == s.crunchers && e.wasPaused == s.wasPaused
    ensures value == s.wasPaused ==> ExitWalked(e, 0)
  {
  }

  lemma WalkingFlags(s: State, step: Step)
    requires s.main.Pausing? || s.main.Unpausing? || s.main.Suspending? || s.main.Resuming?
    requires Flags(s) && step.Control?
    ensures Flags(Next(s, step))
  {
    hide AllSuspended, Walked;
    WalkBound(s, s.main.at, s.main.Pausing? || s.main.Suspending?);
    WalkStep(s, s.main.at, s.main.Pausing? || s.main.Suspending?, Next(s, step));
  }

  lemma WalkBound(s: State, at: nat, done: bool)
    requires Walked(s, at, done)
    ensures at <= |s.crunchers|
  {
  }

  lemma ControlExits(s: State, step: Step, j: nat)
    requires Consistent(s) && step.Control? && j < |s.crunchers| == |Next(s, step).crunchers|
    ensures Next(s, step).crunchers[j].doExit <==> j < ToldToExit(Next(s, step))
  {
    hide Coherent, Walked, AllSuspended;
  }

  lemma ControlIsConsistent(s: State, step: Step)
    requires Consistent(s) && step.Control?
    ensures Consistent(Next(s, step))
  {
    hide Next, Flags, ToldToExit;
    var e := Next(s, step);
    ControlFlags(s, step);
    CountKept(s, step);
    forall j | 0 <= j < |s.crunchers|
      ensures Coherent(e.crunchers[j]) && (e.crunchers[j].doExit <==> j < ToldToExit(e)) {
      ControlKeeps(s, step, j);
      ControlExits(s, step, j);
      assert Coherent(s.crunchers[j]);
    }
  }

  lemma CountKept(s: State, step: Step)
    ensures |Next(s, step).crunchers| == |s.crunchers|
  {
  }

  lemma {:induction false} RunIsConsistent(n: nat, steps: seq<Step>)
    ensures Consistent(RunFrom(Initial(n), steps))
  {
    if steps != [] {
      var k := |steps| - 1;
      RunIsConsistent(n, steps[..k]);
      match steps[k]
      case Crunch(i, problem) =>
        if i < |RunFrom(Initial(n), steps[..k]).crunchers| {
          CrunchIsConsistent(RunFrom(Initial(n), steps[..k]), i, problem);
        }
      case Control(_, _, _) => ControlIsConsistent(RunFrom(Initial(n), steps[..k]), steps[k]);
    }
  }

  /** At the top of the main loop every cruncher's do_suspend equals wasPaused and none has been told to exit. */
  lemma FlagsAtLoopHead(n: nat, steps: seq<Step>, i: nat)
    requires i < n && RunFrom(Initial(n), steps).main == LoopHead
    ensures var s := RunFrom(Initial(n), steps);
      |s.crunchers| == n && s.crunchers[i].doSuspend == s.wasPaused && !s.crunchers[i].doExit
  {
    CruncherCount(Initial(n), steps);
    RunIsConsistent(n, steps);
  }

  /** is_suspended is clear exactly around a call of ProblemRun, or while the thread is still starting. */
  lemma SuspendedFlagIsHonest(n: nat, steps: seq<Step>, i: nat)
    requires i < n
    ensures var s := RunFrom(Initial(n), steps);
      && |s.crunchers| == n
      && (s.crunchers[i].isSuspended <==> s.crunchers[i].phase !in {Starting, Announced, Entered, Running, Returned})
      && (s.crunchers[i].phase == Running ==> !s.crunchers[i].isSuspended && !s.crunchers[i].hasExited)
  {
    CruncherCount(Initial(n), steps);
    RunIsConsistent(n, steps);
    assert Coherent(RunFrom(Initial(n), steps).crunchers[i]);
  }

  // ---- After a stop has been requested ----

  /** Past the test of do_suspend, and the run that follows from it not yet begun. */
  predicate Launching(c: Cruncher) {
    c.phase in {Committed, Entered}
  }

  /** Past the test of do_exit, and the run that may follow from it not yet begun. */
  predicate PastExitTest(c: Cruncher) {
    c.phase in {Check, Committed, Entered}
  }

  predicate StaysSuspended(s: State, steps: seq<Step>, i: nat) {
    forall k | 0 <= k <= |steps| ::
      i < |s.crunchers| == |RunFrom(s, steps[..k]).crunchers| && RunFrom(s, steps[..k]).crunchers[i].doSuspend
  }

  /** What a step does to cruncher i: its own step advances it, and any other only touches its request flags. */
  lemma CruncherStep(s: State, step: Step, i: nat)
    requires i < |s.crunchers|
    ensures i < |Next(s, step).crunchers|
    ensures var c, d := s.crunchers[i], Next(s, step).crunchers[i];
      if step.Crunch? && step.i == i then d == Advance(c, step.problem)
      else d == c.(doSuspend := d.doSuspend, doExit := d.doExit) && (c.doExit ==> d.doExit)
  {
    if step.Control? {
      ControlKeeps(s, step, i);
    }
  }

  /** While do_suspend stays set, the runs begun and the one still to begin do not grow. */
  lemma SuspendedStep(s: State, step: Step, i: nat)
    requires i < |s.crunchers| && s.crunchers[i].doSuspend
    ensures i < |Next(s, step).crunchers|
    ensures var c, d := s.crunchers[i], Next(s, step).crunchers[i];
      && d.begun + (if Launching(d) then 1 else 0) <= c.begun + (if Launching(c) then 1 else 0)
      && c.begun <= d.begun
  {
    CruncherStep(s, step, i);
    hide Next;
  }

  lemma StaysPrefix(s: State, steps: seq<Step>, i: nat)
    requires steps != [] && StaysSuspended(s, steps, i)
    ensures StaysSuspended(s, steps[..|steps| - 1], i)
  {
    var k := |steps| - 1;
    forall j | 0 <= j <= k
      ensures i < |s.crunchers| == |RunFrom(s, steps[..k][..j]).crunchers|
      ensures RunFrom(s, steps[..k][..j]).crunchers[i].doSuspend {
      assert steps[..k][..j] == steps[..j];
    }
  }

  lemma StaysAtEnd(s: State, steps: seq<Step>, i: nat)
    requires StaysSuspended(s, steps, i)
    ensures i < |s.crunchers| == |RunFrom(s, steps).crunchers| && s.crunchers[i].doSuspend
    ensures RunFrom(s, steps).crunchers[i].doSuspend
  {
    assert steps[..|steps|] == steps;
    assert RunFrom(s, steps[..0]) == s;
  }

  /**
   * From any state in which a cruncher's do_suspend is set, and for as long as it stays set, whatever the main
   * loop and the other crunchers do, that cruncher begins at most one more run, and none unless it was launching.
   */
  lemma {:induction false} AtMostOneRunOnceSuspended(s: State, steps: seq<Step>, i: nat)
    requires StaysSuspended(s, steps, i)
    ensures i < |s.crunchers| == |RunFrom(s, steps).crunchers|
    ensures var c, d := s.crunchers[i], RunFrom(s, steps).crunchers[i];
      c.begun <= d.begun && d.begun + (if Launching(d) then 1 else 0) <= c.begun + (if Launching(c) then 1 else 0)
  {
    hide Next;
    StaysAtEnd(s, steps, i);
    if steps != [] {
      var k := |steps| - 1;
      StaysPrefix(s, steps, i);
      StaysAtEnd(s, steps[..k], i);
      AtMostOneRunOnceSuspended(s, steps[..k], i);
      SuspendedStep(RunFrom(s, steps[..k]), steps[k], i);
    }
  }

  lemma LaunchedRun(s: State, i: nat, run: seq<Step>)
    requires i < |s.crunchers| && Launching(s.crunchers[i]) && run == [Crunch(i, Ready), Crunch(i, Ready)]
    ensures RunFrom(s, run[..0]) == s
    ensures forall k | 0 <= k <= 2 ::
      && |RunFrom(s, run[..k]).crunchers| == |s.crunchers|
      && RunFrom(s, run[..k]).crunchers[i].doSuspend == s.crunchers[i].doSuspend
    ensures var k := if s.crunchers[i].phase == Entered then 1 else 2;
      RunFrom(s, run[..k]).crunchers[i].begun == s.crunchers[i].begun + 1
  {
    hide RunFrom;
    RunPrefix(s, run, 0);
    RunPrefix(s, run, 1);
  }

  /** A suspended cruncher can begin another run exactly when it was launching: the tight form of the bound above. */
  lemma CanStillBeginIff(s: State, i: nat)
    requires i < |s.crunchers| && s.crunchers[i].doSuspend
    ensures Launching(s.crunchers[i]) <==> exists steps ::
              && StaysSuspended(s, steps, i) && i < |RunFrom(s, steps).crunchers|
              && RunFrom(s, steps).crunchers[i].begun > s.crunchers[i].begun
  {
    if Launching(s.crunchers[i]) {
      var run := [Crunch(i, Ready), Crunch(i, Ready)];
      var steps := if s.crunchers[i].phase == Entered then run[..1] else run;
      LaunchedRun(s, i, run);
      assert run[..2] == run && run[..1][..0] == run[..0] && run[..1][..1] == run[..1];
      assert StaysSuspended(s, steps, i);
    }
    hide Launching, RunFrom;
    forall steps | StaysSuspended(s, steps, i)
      ensures i < |RunFrom(s, steps).crunchers|
      ensures RunFrom(s, steps).crunchers[i].begun > s.crunchers[i].begun ==> Launching(s.crunchers[i]) {
      AtMostOneRunOnceSuspended(s, steps, i);
    }
  }

  lemma ExitStep(s: State, step: Step, i: nat)
    requires i < |s.crunchers| && s.crunchers[i].doExit
    ensures i < |Next(s, step).crunchers|
    ensures var c, d := s.crunchers[i], Next(s, step).crunchers[i];
      && d.doExit && c.begun <= d.begun
      && d.begun + (if PastExitTest(d) then 1 else 0) <= c.begun + (if PastExitTest(c) then 1 else 0)
  {
    CruncherStep(s, step, i);
    hide Next;
  }

  /** Once told to exit, a cruncher begins at most one more run, for ever, and none unless it was past the exit test. */
  lemma {:induction false} AtMostOneRunOnceExiting(s: State, steps: seq<Step>, i: nat)
    requires i < |s.crunchers| && s.crunchers[i].doExit
    ensures i < |RunFrom(s, steps).crunchers|
    ensures var c, d := s.crunchers[i], RunFrom(s, steps).crunchers[i];
      && d.doExit && c.begun <= d.begun
      && d.begun + (if PastExitTest(d) then 1 else 0) <= c.begun + (if PastExitTest(c) then 1 else 0)
  {
    hide Next;
    if steps != [] {
      var k := |steps| - 1;
      AtMostOneRunOnceExiting(s, steps[..k], i);
      ExitStep(RunFrom(s, steps[..k]), steps[k], i);
    }
  }

  /** The client was paused when it began to exit. */
  predicate LeavingPaused(s: State) {
    s.wasPaused && (s.main.Exiting? || s.main.Unsuspending? || s.main.Joining?)
  }

  /**
   * What a cruncher of a paused, leaving client may still begin: one run it was launching, and one before it sees
   * do_exit.
   */
  function MayBegin(c: Cruncher): nat {
    if c.doExit then (if PastExitTest(c) then 1 else 0) else (if Launching(c) then 1 else 0) + 1
  }

  lemma LeavingStep(s: State, step: Step, i: nat)
    requires Consistent(s) && LeavingPaused(s) && i < |s.crunchers|
    ensures LeavingPaused(Next(s, step)) && i < |Next(s, step).crunchers|
    ensures var c, d := s.crunchers[i], Next(s, step).crunchers[i]; d.begun + MayBegin(d) <= c.begun + MayBegin(c)
  {
    assert s.crunchers[i].doSuspend || s.crunchers[i].doExit;
    CruncherStep(s, step, i);
    LeavingStays(s, step);
    hide Next, Consistent;
  }

  lemma LeavingStays(s: State, step: Step)
    requires LeavingPaused(s)
    ensures LeavingPaused(Next(s, step))
  {
  }

  /**
   * Leaving while paused does not set the crunchers back to work: do_exit is set before do_suspend is cleared, so each
   * begins at most one run more, or two if it was launching one.
   */
  lemma {:induction false} LeavingPausedBound(n: nat, steps: seq<Step>, more: seq<Step>, i: nat)
    requires i < n && LeavingPaused(RunFrom(Initial(n), steps))
    ensures LeavingPaused(RunFrom(RunFrom(Initial(n), steps), more))
    ensures |RunFrom(Initial(n), steps).crunchers| == n == |RunFrom(RunFrom(Initial(n), steps), more).crunchers|
    ensures var c, d := RunFrom(Initial(n), steps).crunchers[i], RunFrom(RunFrom(Initial(n), steps), more).crunchers[i];
      d.begun + MayBegin(d) <= c.begun + MayBegin(c)
  {
    hide Next, MayBegin, LeavingPaused, Consistent, Initial;
    var s := RunFrom(Initial(n), steps);
    InitialCount(n);
    CruncherCount(Initial(n), steps);
    if more != [] {
      var k := |more| - 1;
      LeavingPausedBound(n, steps, more[..k], i);
      RunIsConsistent(n, steps + more[..k]);
      RunFromSplit(Initial(n), steps, more[..k]);
      LeavingStep(RunFrom(s, more[..k]), more[k], i);
      CountKept(RunFrom(s, more[..k]), more[k]);
    }
  }

  lemma InitialCount(n: nat)
    ensures |Initial(n).crunchers| == n
  {
  }

  // ---- Stops do happen ----

  /** How many steps cruncher i takes. */
  function OwnSteps(steps: seq<Step>, i: nat): nat {
    if steps == [] then 0
    else OwnSteps(steps[..|steps| - 1], i) + if steps[|steps| - 1].Crunch? && steps[|steps| - 1].i == i then 1 else 0
  }

  /** Steps a suspended cruncher may take before it has nothing left to run. */
  function ToQuiet(c: Cruncher): nat {
    match c.phase
    case Starting => 2
    case Announced => 1
    case Committed => 4
    case Entered => 3
    case Running => 2
    case Returned => 1
    case _ => 0
  }

  /** Steps a cruncher that was told to exit may take before it is gone. */
  function ToGone(c: Cruncher): nat {
    match c.phase
    case Starting => 3
    case Announced => 2
    case Head => 1
    case Check => 6
    case Committed => 5
    case Entered => 4
    case Running => 3
    case Returned => 2
    case Gone => 0
  }

  function Minus(a: nat, b: nat): nat { if a < b then 0 else a - b }

  lemma QuietStep(s: State, step: Step, i: nat)
    requires i < |s.crunchers| && s.crunchers[i].doSuspend
    ensures i < |Next(s, step).crunchers|
    ensures var own := if step.Crunch? && step.i == i then 1 else 0;
      ToQuiet(Next(s, step).crunchers[i]) == Minus(ToQuiet(s.crunchers[i]), own)
  {
    CruncherStep(s, step, i);
    hide Next;
  }

  /**
   * A cruncher that stays suspended is idle, its is_suspended set for good, after at most four steps of its own,
   * so the wait for the crunchers ends if ProblemRun returns.
   */
  lemma {:induction false} SuspendedBecomesQuiet(s: State, steps: seq<Step>, i: nat)
    requires StaysSuspended(s, steps, i)
    ensures i < |s.crunchers| == |RunFrom(s, steps).crunchers|
    ensures ToQuiet(RunFrom(s, steps).crunchers[i]) == Minus(ToQuiet(s.crunchers[i]), OwnSteps(steps, i))
    ensures OwnSteps(steps, i) >= 4 ==> RunFrom(s, steps).crunchers[i].phase in {Head, Check, Gone}
  {
    hide Next;
    StaysAtEnd(s, steps, i);
    if steps != [] {
      var k := |steps| - 1;
      StaysPrefix(s, steps, i);
      StaysAtEnd(s, steps[..k], i);
      SuspendedBecomesQuiet(s, steps[..k], i);
      QuietStep(RunFrom(s, steps[..k]), steps[k], i);
    }
  }

  lemma GoneStep(s: State, step: Step, i: nat)
    requires i < |s.crunchers| && s.crunchers[i].doExit
    ensures i < |Next(s, step).crunchers|
    ensures Next(s, step).crunchers[i].doExit
    ensures var own := if step.Crunch? && step.i == i then 1 else 0;
      ToGone(Next(s, step).crunchers[i]) <= Minus(ToGone(s.crunchers[i]), own)
  {
    CruncherStep(s, step, i);
    hide Next;
  }

  /** A cruncher told to exit is gone after at most six steps of its own, even if it was told to suspend before. */
  lemma {:induction false} ToldToExitIsGone(s: State, steps: seq<Step>, i: nat)
    requires i < |s.crunchers| && s.crunchers[i].doExit
    ensures i < |RunFrom(s, steps).crunchers| && RunFrom(s, steps).crunchers[i].doExit
    ensures ToGone(RunFrom(s, steps).crunchers[i]) <= Minus(ToGone(s.crunchers[i]), OwnSteps(steps, i))
    ensures OwnSteps(steps, i) >= 6 ==> RunFrom(s, steps).crunchers[i].phase == Gone
  {
    hide Next;
    if steps != [] {
      var k := |steps| - 1;
      ToldToExitIsGone(s, steps[..k], i);
      GoneStep(RunFrom(s, steps[..k]), steps[k], i);
    }
  }

  // ---- What an exclusive mode request gets ----

  predicate InExclusiveMode(s: State) {
    s.main.ModeRun? && s.main.exclusive
  }

  /**
   * While a test, benchmark or configuration runs, each cruncher begins at most one run, and only if it was launching.
   */
  lemma ModeRunDisturbance(n: nat, steps: seq<Step>, more: seq<Step>, i: nat)
    requires i < n
    requires forall k | 0 <= k <= |more| :: InExclusiveMode(RunFrom(RunFrom(Initial(n), steps), more[..k]))
    ensures var s := RunFrom(Initial(n), steps); var e := RunFrom(s, more);
      && |s.crunchers| == n == |e.crunchers|
      && s.crunchers[i].begun <= e.crunchers[i].begun
      && e.crunchers[i].begun <= s.crunchers[i].begun + if Launching(s.crunchers[i]) then 1 else 0
  {
    var s := RunFrom(Initial(n), steps);
    CruncherCount(Initial(n), steps);
    forall k | 0 <= k <= |more|
      ensures |RunFrom(s, more[..k]).crunchers| == n && RunFrom(s, more[..k]).crunchers[i].doSuspend {
      CruncherCount(s, more[..k]);
      RunFromSplit(Initial(n), steps, more[..k]);
      RunIsConsistent(n, steps + more[..k]);
      assert InExclusiveMode(RunFrom(s, more[..k]));
    }
    assert StaysSuspended(s, more, i);
    AtMostOneRunOnceSuspended(s, more, i);
  }

  ghost predicate WaitsOrServes(n: nat, steps: seq<Step>) {
    var e := RunFrom(Initial(n), steps);
    e.main.Waiting? || InExclusiveMode(e)
  }

  ghost predicate LooksAt(n: nat, steps: seq<Step>, i: nat) {
    var e := RunFrom(Initial(n), steps);
    && e.main.Waiting? && e.main.at == i < |e.crunchers|
    && e.crunchers[i].isSuspended && e.crunchers[i].doSuspend
  }

  /** The wait has looked at cruncher i and found it suspended, and has not begun anew since. */
  ghost predicate SeenSuspended(n: nat, steps: seq<Step>, i: nat, k: nat) {
    k < |steps| && LooksAt(n, steps[..k], i) && forall l | k < l <= |steps| :: WaitsOrServes(n, steps[..l])
  }

  lemma SeenLater(n: nat, steps: seq<Step>, i: nat, k: nat)
    requires steps != [] && SeenSuspended(n, steps[..|steps| - 1], i, k)
    requires WaitsOrServes(n, steps)
    ensures SeenSuspended(n, steps, i, k)
  {
    hide WaitsOrServes, LooksAt;
    var before := steps[..|steps| - 1];
    assert forall l | 0 <= l <= |before| :: before[..l] == steps[..l];
    assert steps[..|steps|] == steps;
  }

  /** A request that needs the crunchers stopped is served only after each of them has been found suspended. */
  lemma {:induction false} ServedOnlyAfterWait(n: nat, steps: seq<Step>, i: nat) returns (k: nat)
    requires i < n
    requires var e := RunFrom(Initial(n), steps); InExclusiveMode(e) || (e.main.Waiting? && i < e.main.at)
    ensures SeenSuspended(n, steps, i, k)
  {
    hide SeenSuspended;
    CruncherCount(Initial(n), steps);
    RunIsConsistent(n, steps);
    var l := |steps| - 1;
    var before := RunFrom(Initial(n), steps[..l]);
    CruncherCount(Initial(n), steps[..l]);
    RunIsConsistent(n, steps[..l]);
    if before.main.Waiting? && before.main.at == i && steps[l].Control? {
      k := l;
      SeenNow(n, steps, i);
    } else {
      k := ServedOnlyAfterWait(n, steps[..l], i);
      SeenLater(n, steps, i, k);
    }
  }

  lemma SeenNow(n: nat, steps: seq<Step>, i: nat)
    requires steps != [] && LooksAt(n, steps[..|steps| - 1], i) && WaitsOrServes(n, steps)
    ensures SeenSuspended(n, steps, i, |steps| - 1)
  {
    hide WaitsOrServes, LooksAt;
    assert steps[..|steps|] == steps;
  }

  /** A run of one cruncher that decides to run just before the suspend request and starts after the wait is over. */
  function LateStart(): seq<Step> {
    var cruncher, control := Crunch(0, Ready), Control(false, false, Exclusive);
    [cruncher, cruncher, cruncher, cruncher, control, control, control, control, control, control]
  }

  /** The wait does not exclude a run: with the request served, one may still begin. */
  lemma WaitDoesNotExcludeARun()
    ensures var s := RunFrom(Initial(1), LateStart()); var e := RunFrom(s, [Crunch(0, Ready), Crunch(0, Ready)]);
      && InExclusiveMode(s) && |s.crunchers| == 1 && s.crunchers[0].isSuspended && s.crunchers[0].doSuspend
      && InExclusiveMode(e) && |e.crunchers| == 1 && e.crunchers[0].phase == Running
      && e.crunchers[0].begun == s.crunchers[0].begun + 1
  {
    var l := LateStart();
    hide RunFrom;
    LateStartCommits();
    LateStartSuspends();
    RunPrefix(Initial(1), l, 7);
    RunPrefix(Initial(1), l, 8);
    RunPrefix(Initial(1), l, 9);
    assert l[..10] == l;
    var s := RunFrom(Initial(1), l);
    assert s == State([Cruncher(Committed, true, false, true, false, 0)], ModeRun(true, true), false);
    var twice := [Crunch(0, Ready), Crunch(0, Ready)];
    RunPrefix(s, twice, 0);
    RunPrefix(s, twice, 1);
    assert twice[..2] == twice;
  }

  lemma LateStartCommits()
    ensures var c := Cruncher(Committed, false, false, true, false, 0);
      RunFrom(Initial(1), LateStart()[..4]) == State([c], LoopHead, false)
  {
    hide RunFrom;
    RunPrefix(Initial(1), LateStart(), 0);
    RunPrefix(Initial(1), LateStart(), 1);
    RunPrefix(Initial(1), LateStart(), 2);
    RunPrefix(Initial(1), LateStart(), 3);
  }

  lemma LateStartSuspends()
    ensures var c := Cruncher(Committed, true, false, true, false, 0);
      RunFrom(Initial(1), LateStart()[..7]) == State([c], Suspending(1), false)
  {
    LateStartCommits();
    hide RunFrom;
    RunPrefix(Initial(1), LateStart(), 4);
    RunPrefix(Initial(1), LateStart(), 5);
    RunPrefix(Initial(1), LateStart(), 6);
  }

  lemma RunPrefix(s: State, steps: seq<Step>, k: nat)
    requires k < |steps|
    ensures RunFrom(s, steps[..k + 1]) == Next(RunFrom(s, steps[..k]), steps[k])
    ensures RunFrom(s, steps[..0]) == s
  {
    assert steps[..k + 1][..k] == steps[..k];
  }

  // ---- What the main loop does with what it finds ----

  function ControlSteps(steps: seq<Step>): nat {
    if steps == [] then 0
    else ControlSteps(steps[..|steps| - 1]) + if steps[|steps| - 1].Control? then 1 else 0
  }

  /** Steps of any crunchers, and of a main loop that finds the same each time. */
  predicate AllFind(steps: seq<Step>, found: Step) {
    forall k | 0 <= k < |steps| :: steps[k].Control? ==> steps[k] == found
  }

  /** A turn of the main loop in what it finds, with the wasPaused it began with. */
  datatype Turn =
    | PauseTurn(paused: bool, was: bool)
    | QuitTurn(was: bool)
    | RequestTurn(mode: Mode, was: bool)
    | ResumeTurn(did: bool, exclusive: bool, was: bool)

  /** Where it is after k steps of its own: the flags are stored in list order, one a step. */
  function Place(n: nat, turn: Turn, k: nat): Main {
    match turn
    case PauseTurn(paused, was) =>
      if k == 0 then LoopHead
      else if paused == was then (if k == 1 then Modes else LoopHead)
      else if k <= n + 1 then (if paused then Pausing(k - 1) else Unpausing(k - 1))
      else if k == n + 2 then Modes
      else LoopHead
    case QuitTurn(_) =>
      if k == 0 then LoopHead
      else if k > 2 * n + 1 then Joining
      else if k % 2 == 1 then Exiting(k / 2)
      else Unsuspending(k / 2 - 1)
    case RequestTurn(mode, was) =>
      if k == 0 then LoopHead
      else if k == 1 then Modes
      else if mode == Shared then ModeRun(false, false)
      else if was then Waiting(0, false)
      else if k <= n + 2 then Suspending(k - 2)
      else Waiting(0, true)
    case ResumeTurn(did, exclusive, _) =>
      if k == 0 then ModeRun(did, exclusive) else if did && k <= n + 1 then Resuming(k - 1) else LoopHead
  }

  function NotedPause(n: nat, turn: Turn, k: nat): bool {
    if turn.PauseTurn? && k >= n + 2 then turn.paused else turn.was
  }

  function Length(n: nat, turn: Turn): nat {
    match turn
    case PauseTurn(paused, was) => if paused == was then 2 else n + 3
    case QuitTurn(_) => 2 * n + 2
    case RequestTurn(mode, was) => if mode == Exclusive && !was then n + 3 else 2
    case ResumeTurn(did, _, _) => if did then n + 2 else 1
  }

  predicate FoundIn(found: Step, turn: Turn) {
    && found.Control?
    && match turn
       case PauseTurn(paused, _) => found == Control(false, paused, NoMode)
       case QuitTurn(_) => found.quit
       case RequestTurn(mode, was) => mode != NoMode && found == Control(false, was, mode)
       case ResumeTurn(_, _, _) => true
  }

  ghost predicate IsAt(s: State, n: nat, turn: Turn, k: nat) {
    |s.crunchers| == n && s.main == Place(n, turn, k) && s.wasPaused == NotedPause(n, turn, k)
  }

  lemma TurnStep(s: State, n: nat, turn: Turn, k: nat, found: Step)
    requires IsAt(s, n, turn, k) && k < Length(n, turn) && FoundIn(found, turn)
    ensures IsAt(Next(s, found), n, turn, k + 1)
  {
    CountKept(s, found);
  }

  lemma {:induction false} TurnTaken(s: State, n: nat, turn: Turn, found: Step, steps: seq<Step>)
    requires IsAt(s, n, turn, 0) && FoundIn(found, turn) && AllFind(steps, found)
    requires ControlSteps(steps) <= Length(n, turn)
    ensures IsAt(RunFrom(s, steps), n, turn, ControlSteps(steps))
  {
    hide Place, NotedPause, Next, Length, FoundIn;
    if steps != [] {
      var l := |steps| - 1;
      assert AllFind(steps[..l], found);
      TurnTaken(s, n, turn, found, steps[..l]);
      var before := RunFrom(s, steps[..l]);
      if steps[l].Control? {
        assert steps[l] == found;
        TurnStep(before, n, turn, ControlSteps(steps[..l]), found);
      } else {
        CrunchKeepsMain(before, steps[l]);
        CountKept(before, steps[l]);
      }
    }
  }

  lemma CrunchKeepsMain(s: State, step: Step)
    requires step.Crunch?
    ensures Next(s, step).main == s.main && Next(s, step).wasPaused == s.wasPaused
  {
  }

  /**
   * A main loop that finds the client paused, or not, and no request: whatever the crunchers do meanwhile, it is back
   * at its head after one turn, has noted it, and every cruncher has been told.
   */
  lemma PauseIsPassedOn(n: nat, steps: seq<Step>, turn: seq<Step>, paused: bool)
    requires RunFrom(Initial(n), steps).main == LoopHead && AllFind(turn, Control(false, paused, NoMode))
    requires ControlSteps(turn) == if paused == RunFrom(Initial(n), steps).wasPaused then 2 else n + 3
    ensures var e := RunFrom(RunFrom(Initial(n), steps), turn);
      && e.main == LoopHead && e.wasPaused == paused && |e.crunchers| == n
      && forall i | 0 <= i < n :: e.crunchers[i].doSuspend == paused && !e.crunchers[i].doExit
  {
    var s := RunFrom(Initial(n), steps);
    CruncherCount(Initial(n), steps);
    TurnTaken(s, n, PauseTurn(paused, s.wasPaused), Control(false, paused, NoMode), turn);
    AllAtLoopHead(n, steps, turn);
  }

  lemma AllAtLoopHead(n: nat, steps: seq<Step>, turn: seq<Step>)
    requires RunFrom(RunFrom(Initial(n), steps), turn).main == LoopHead
    ensures var e := RunFrom(RunFrom(Initial(n), steps), turn);
      && |e.crunchers| == n
      && forall i | 0 <= i < n :: e.crunchers[i].doSuspend == e.wasPaused && !e.crunchers[i].doExit
  {
    RunFromSplit(Initial(n), steps, turn);
    CruncherCount(Initial(n), steps + turn);
    forall i | 0 <= i < n
      ensures var c := RunFrom(Initial(n), steps + turn).crunchers[i];
        c.doSuspend == RunFrom(Initial(n), steps + turn).wasPaused && !c.doExit {
      FlagsAtLoopHead(n, steps + turn, i);
    }
  }

  /** A main loop that finds it has to quit tells every cruncher to exit, and takes back every request to suspend. */
  lemma QuitIsPassedOn(n: nat, steps: seq<Step>, turn: seq<Step>, paused: bool, mode: Mode)
    requires RunFrom(Initial(n), steps).main == LoopHead && AllFind(turn, Control(true, paused, mode))
    requires ControlSteps(turn) == 2 * n + 2
    ensures var e := RunFrom(RunFrom(Initial(n), steps), turn);
      && e.main == Joining && |e.crunchers| == n
      && forall i | 0 <= i < n :: e.crunchers[i].doExit && !e.crunchers[i].doSuspend
  {
    var s := RunFrom(Initial(n), steps);
    CruncherCount(Initial(n), steps);
    TurnTaken(s, n, QuitTurn(s.wasPaused), Control(true, paused, mode), turn);
    RunFromSplit(Initial(n), steps, turn);
    RunIsConsistent(n, steps + turn);
  }

  /** A request that needs the crunchers stopped has them all told so before it waits; any other is served at once. */
  lemma RequestIsTakenUp(n: nat, steps: seq<Step>, turn: seq<Step>, mode: Mode)
    requires mode != NoMode && RunFrom(Initial(n), steps).main == LoopHead
    requires AllFind(turn, Control(false, RunFrom(Initial(n), steps).wasPaused, mode))
    requires ControlSteps(turn) == if mode == Exclusive && !RunFrom(Initial(n), steps).wasPaused then n + 3 else 2
    ensures var s := RunFrom(Initial(n), steps); var e := RunFrom(s, turn);
      && |e.crunchers| == n && e.wasPaused == s.wasPaused
      && e.main == (if mode == Shared then ModeRun(false, false) else Waiting(0, !s.wasPaused))
      && (mode == Exclusive ==> forall i | 0 <= i < n :: e.crunchers[i].doSuspend)
  {
    var s := RunFrom(Initial(n), steps);
    CruncherCount(Initial(n), steps);
    TurnTaken(s, n, RequestTurn(mode, s.wasPaused), Control(false, s.wasPaused, mode), turn);
    RunFromSplit(Initial(n), steps, turn);
    RunIsConsistent(n, steps + turn);
  }

  /** Told to suspend and with nothing left to run. */
  predicate Quiet(c: Cruncher) {
    c.doSuspend && !c.doExit && c.isSuspended && c.phase in {Head, Check}
  }

  lemma QuietStaysQuiet(c: Cruncher, problem: Problem)
    requires Quiet(c)
    ensures Quiet(Advance(c, problem))
  {
  }

  /** Once all crunchers are quiet, the wait is over after looking at each of them once, and the request is served. */
  lemma {:induction false} WaitEnds(s: State, steps: seq<Step>)
    requires s.main.Waiting? && s.main.at <= |s.crunchers|
    requires forall i | 0 <= i < |s.crunchers| :: Quiet(s.crunchers[i])
    requires ControlSteps(steps) <= |s.crunchers| - s.main.at + 1
    ensures var n, at, e := |s.crunchers|, s.main.at + ControlSteps(steps), RunFrom(s, steps);
      && |e.crunchers| == n && e.wasPaused == s.wasPaused && (forall i | 0 <= i < n :: Quiet(e.crunchers[i]))
      && e.main == (if at <= n then Waiting(at, s.main.didSuspend) else ModeRun(s.main.didSuspend, true))
  {
    hide Quiet;
    CruncherCount(s, steps);
    if steps != [] {
      var l := |steps| - 1;
      WaitEnds(s, steps[..l]);
      CruncherCount(s, steps[..l]);
      hide RunFrom;
      WaitStep(RunFrom(s, steps[..l]), steps[l]);
      assert RunFrom(s, steps) == Next(RunFrom(s, steps[..l]), steps[l]) by {
        RunUnrolled(s, steps);
      }
    }
  }

  lemma RunUnrolled(s: State, steps: seq<Step>)
    requires steps != []
    ensures RunFrom(s, steps) == Next(RunFrom(s, steps[..|steps| - 1]), steps[|steps| - 1])
  {
  }

  lemma WaitStep(s: State, step: Step)
    requires step.Control? ==> s.main.Waiting? && s.main.at <= |s.crunchers|
    requires forall i | 0 <= i < |s.crunchers| :: Quiet(s.crunchers[i])
    ensures var e := Next(s, step);
      && |e.crunchers| == |s.crunchers| && e.wasPaused == s.wasPaused
      && (forall i | 0 <= i < |s.crunchers| :: Quiet(e.crunchers[i]))
      && e.main == (if step.Crunch? then s.main
                    else if s.main.at < |s.crunchers| then Waiting(s.main.at + 1, s.main.didSuspend)
                    else ModeRun(s.main.didSuspend, true))
  {
    if step.Crunch? && step.i < |s.crunchers| {
      QuietStaysQuiet(s.crunchers[step.i], step.problem);
    }
    hide Advance;
  }

  /** After a request has been served the loop is back at its head, and the crunchers are as it found them. */
  lemma ServedRequestIsUndone(n: nat, steps: seq<Step>, turn: seq<Step>, found: Step)
    requires var s := RunFrom(Initial(n), steps);
      && s.main.ModeRun? && found.Control? && AllFind(turn, found)
      && ControlSteps(turn) == if s.main.didSuspend then n + 2 else 1
    ensures var s := RunFrom(Initial(n), steps); var e := RunFrom(s, turn);
      && e.main == LoopHead && e.wasPaused == s.wasPaused && |e.crunchers| == n
      && forall i | 0 <= i < n :: e.crunchers[i].doSuspend == s.wasPaused && !e.crunchers[i].doExit
  {
    var s := RunFrom(Initial(n), steps);
    CruncherCount(Initial(n), steps);
    TurnTaken(s, n, ResumeTurn(s.main.didSuspend, s.main.exclusive, s.wasPaused), found, turn);
    AllAtLoopHead(n, steps, turn);
  }

  // ---- What a cruncher does with its problem ----

  /** Cruncher i finds this whenever it looks. */
  predicate Finds(steps: seq<Step>, i: nat, problem: Problem) {
    forall k | 0 <= k < |steps| :: steps[k].Crunch? && steps[k].i == i ==> steps[k].problem == problem
  }

  /** Cruncher i is told nothing. */
  predicate LeftAlone(s: State, steps: seq<Step>, i: nat) {
    forall k | 0 <= k <= |steps| ::
      var e := RunFrom(s, steps[..k]);
      i < |s.crunchers| == |e.crunchers| && !e.crunchers[i].doSuspend && !e.crunchers[i].doExit
  }

  /** How far a cruncher has come on its way to the next run but one, which is six steps after the last began. */
  function Pace(c: Cruncher): nat {
    match c.phase
    case Starting | Running => 0
    case Announced | Returned => 1
    case Head => 2
    case Check => 3
    case Committed => 4
    case Entered => 5
    case Gone => 0
  }

  lemma PaceStep(s: State, step: Step, i: nat)
    requires i < |s.crunchers| && s.crunchers[i].phase != Gone
    requires !s.crunchers[i].doSuspend && !s.crunchers[i].doExit
    requires step.Crunch? && step.i == i ==> step.problem == Ready
    ensures i < |Next(s, step).crunchers|
    ensures var c, d := s.crunchers[i], Next(s, step).crunchers[i];
      && d.phase != Gone
      && 6 * d.begun + Pace(d) == 6 * c.begun + Pace(c) + if step.Crunch? && step.i == i then 1 else 0
  {
    CruncherStep(s, step, i);
    hide Next;
  }

  /** A cruncher with a problem and no request begins a run every six steps of its own. */
  lemma {:induction false} LeftAloneItWorks(s: State, steps: seq<Step>, i: nat)
    requires LeftAlone(s, steps, i) && Finds(steps, i, Ready)
    ensures i < |s.crunchers| == |RunFrom(s, steps).crunchers|
    ensures s.crunchers[i].phase != Gone ==>
      var c, d := s.crunchers[i], RunFrom(s, steps).crunchers[i];
      d.phase != Gone && d.begun == c.begun + (Pace(c) + OwnSteps(steps, i)) / 6
  {
    LeftAloneSteps(s, steps, i);
    LeftAloneAtEnd(s, steps, i);
  }

  lemma LeftAloneAtEnd(s: State, steps: seq<Step>, i: nat)
    requires LeftAlone(s, steps, i)
    ensures i < |s.crunchers| == |RunFrom(s, steps).crunchers|
    ensures !RunFrom(s, steps).crunchers[i].doSuspend && !RunFrom(s, steps).crunchers[i].doExit
  {
    assert steps[..|steps|] == steps;
  }

  lemma LeftAloneBefore(s: State, steps: seq<Step>, i: nat)
    requires steps != [] && LeftAlone(s, steps, i)
    ensures LeftAlone(s, steps[..|steps| - 1], i)
  {
    var before := steps[..|steps| - 1];
    assert forall k | 0 <= k <= |before| :: before[..k] == steps[..k];
  }

  lemma {:induction false} LeftAloneSteps(s: State, steps: seq<Step>, i: nat)
    requires LeftAlone(s, steps, i) && Finds(steps, i, Ready)
    ensures i < |s.crunchers| == |RunFrom(s, steps).crunchers|
    ensures s.crunchers[i].phase != Gone ==>
      var c, d := s.crunchers[i], RunFrom(s, steps).crunchers[i];
      d.phase != Gone && 6 * d.begun + Pace(d) == 6 * c.begun + Pace(c) + OwnSteps(steps, i)
  {
    hide Next, Pace;
    LeftAloneAtEnd(s, steps, i);
    if steps != [] && s.crunchers[i].phase != Gone {
      var l := |steps| - 1;
      LeftAloneBefore(s, steps, i);
      LeftAloneAtEnd(s, steps[..l], i);
      assert Finds(steps[..l], i, Ready);
      LeftAloneSteps(s, steps[..l], i);
      PaceStep(RunFrom(s, steps[..l]), steps[l], i);
    }
  }

  /** A cruncher that never finds a problem ready begins no run but one it was launching. */
  lemma {:induction false} NoRunWithoutProblem(s: State, steps: seq<Step>, i: nat)
    requires i < |s.crunchers|
    requires forall k | 0 <= k < |steps| :: steps[k].Crunch? && steps[k].i == i ==> steps[k].problem != Ready
    ensures i < |RunFrom(s, steps).crunchers|
    ensures var c, d := s.crunchers[i], RunFrom(s, steps).crunchers[i];
      d.begun + (if Launching(d) then 1 else 0) <= c.begun + (if Launching(c) then 1 else 0)
  {
    hide Next;
    CruncherCount(s, steps);
    if steps != [] {
      var l := |steps| - 1;
      NoRunWithoutProblem(s, steps[..l], i);
      CruncherCount(s, steps[..l]);
      CruncherStep(RunFrom(s, steps[..l]), steps[l], i);
    }
  }

  // ---- The walk over the list, as the code is written ----

  class ThreadParams {
    var doSuspend: int
    var doExit: int
    var isSuspended: int
    const next: ThreadParams?
    ghost const rest: seq<ThreadParams> // this entry and those after it

    ghost predicate Linked()
      decreases |rest|
    {
      && |rest| > 0 && rest[0] == this
      && (next == null ==> |rest| == 1)
      && (next != null ==> next.rest == rest[1..] && next.Linked())
    }

    constructor (next: ThreadParams?)
      requires next != null ==> next.Linked()
      ensures Linked() && fresh(this) && this.next == next && doSuspend == doExit == isSuspended == 0
    {
      doSuspend, doExit, isSuspended := 0, 0, 0;
      this.next := next;
      rest := [this] + if next == null then [] else next.rest;
    }
  }

  ghost function Entries(list: ThreadParams?): seq<ThreadParams> {
    if list == null then [] else list.rest
  }

  /** What the walk does to an entry it has passed. */
  ghost predicate Flagged(t: ThreadParams, which: char)
    reads t
  {
    if which == 'c' then t.isSuspended != 0
    else t.doSuspend == (if which == 's' then 1 else 0) && (which == 'x' ==> t.doExit == 1)
  }

  /** What it leaves alone. */
  ghost predicate Kept(t: ThreadParams, which: char, isSuspended: int, doExit: int)
    reads t
  {
    t.isSuspended == isSuspended && (which != 'x' ==> t.doExit == doExit)
  }

  /** __gsc_flag_allthreads with nothing else running. */
  method FlagAllThreads(list: ThreadParams?, which: char) returns (rc: int)
    requires list != null ==> list.Linked()
    modifies if which == 'c' then {} else set t | t in Entries(list)
    ensures rc == 0 || rc == -1
    ensures rc == 0 <==> which != 'c' || forall t | t in Entries(list) :: t.isSuspended != 0
    ensures which == 's' ==> forall t | t in Entries(list) :: t.doSuspend == 1 && t.doExit == old(t.doExit)
    ensures which == 'x' ==> forall t | t in Entries(list) :: t.doSuspend == 0 && t.doExit == 1
    ensures which !in "csx" ==> forall t | t in Entries(list) :: t.doSuspend == 0 && t.doExit == old(t.doExit)
    ensures forall t | t in Entries(list) :: t.isSuspended == old(t.isSuspended)
  {
    hide ThreadParams.Linked;
    var isExit, isPause := 0, 0;
    if which == 'x' {
      isExit := 1;
    } else if which == 's' {
      isPause := 1;
    }
    var t := list;
    ghost var entries, done := Entries(list), 0;
    EntriesAt(list);
    while t != null
      invariant done <= |entries| && t == if done < |entries| then entries[done] else null
      invariant forall k | 0 <= k < done :: Flagged(entries[k], which)
      invariant which != 'c' ==>
        forall k | 0 <= k < |entries| :: Kept(entries[k], which, old(entries[k].isSuspended), old(entries[k].doExit))
      decreases |entries| - done
    {
      assert PointsOn(entries, done);
      if which == 'c' {
        if t.isSuspended == 0 {
          return -1;
        }
      } else {
        if isExit != 0 {
          t.doExit := isExit;
        }
        t.doSuspend := isPause;
      }
      t := t.next;
      done := done + 1;
    }
    return 0;
  }

  ghost predicate PointsOn(entries: seq<ThreadParams>, k: nat)
    requires k < |entries|
  {
    entries[k].next == if k + 1 < |entries| then entries[k + 1] else null
  }

  lemma {:induction false} LinkedAt(list: ThreadParams, k: nat)
    requires list.Linked() && k < |list.rest|
    ensures list.rest[0] == list && PointsOn(list.rest, k)
  {
    if k > 0 {
      LinkedAt(list.next, k - 1);
    } else if list.next != null {
      assert list.next.rest[0] == list.next;
    }
  }

  lemma EntriesAt(list: ThreadParams?)
    requires list != null ==> list.Linked()
    ensures list == (if |Entries(list)| > 0 then Entries(list)[0] else null)
    ensures forall k | 0 <= k < |Entries(list)| :: PointsOn(Entries(list), k)
  {
    if list != null {
      LinkedAt(list, 0);
      forall k | 0 <= k < |list.rest| ensures PointsOn(list.rest, k) {
        LinkedAt(list, k);
      }
    }
  }
}
