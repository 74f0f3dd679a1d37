/** The life cycle of a component: each operation begins and finishes in a critical section
    of the state mutex, with its action between the two. */
module LifeCycle {

  datatype Stage = STOPPED | RUNNING | TRIPPED | ERROR | RELEASED

  /** An operation whose action is in progress; a release may stop the component first. */
  datatype Op = Starting | Stopping | Releasing(doStop: bool) | Erring

  datatype State = State(stage: Stage, next: Stage, flight: seq<Op>)

  const CREATED := State(STOPPED, STOPPED, [])

  datatype Step =
    | BeginStart | BeginStop | BeginRelease | BeginConfigError | BeginFatalError
    | FinishStart(k: nat, ok: bool) | FinishStop(k: nat) | FinishRelease(k: nat, stopOk: bool, releaseOk: bool)
    | FinishError(k: nat)
    | UseRunning

  predicate Stable(s: State) {
    s.stage == s.next
  }

  predicate CanStart(stage: Stage) {
    stage == STOPPED || stage == TRIPPED
  }

  predicate Running(stage: Stage) {
    stage == RUNNING || stage == TRIPPED || stage == ERROR
  }

  /** The flight without its k-th operation. */
  function Landed(flight: seq<Op>, k: nat): seq<Op>
    requires k < |flight|
  {
    flight[..k] + flight[k + 1..]
  }

  predicate ReleaseInFlight(flight: seq<Op>) {
    exists k :: 0 <= k < |flight| && flight[k].Releasing?
  }

  /** A begin that takes effect: start, stop and release want a stable state, errors only a
      less critical next state. m_releaseMutex keeps releases apart. */
  predicate Enabled(s: State, step: Step) {
    match step
    case BeginStart => Stable(s) && CanStart(s.stage)
    case BeginStop => Stable(s) && Running(s.stage)
    case BeginRelease => Stable(s) && s.stage != RELEASED && !ReleaseInFlight(s.flight)
    case BeginConfigError => s.next == RUNNING
    case BeginFatalError => s.next == RUNNING || s.next == TRIPPED
    case FinishStart(k, _) => k < |s.flight| && s.flight[k].Starting?
    case FinishStop(k) => k < |s.flight| && s.flight[k].Stopping?
    case FinishRelease(k, _, _) => k < |s.flight| && s.flight[k].Releasing?
    case FinishError(k) => k < |s.flight| && s.flight[k].Erring?
    case UseRunning => Stable(s) && Running(s.stage)
  }

  function Released(s: State, k: nat, stopOk: bool, releaseOk: bool): State
    requires k < |s.flight| && s.flight[k].Releasing?
  {
    var t := s.(flight := Landed(s.flight, k));
    if (s.flight[k].doStop ==> stopOk) && releaseOk then t.(stage := RELEASED, next := RELEASED)
    else if s.flight[k].doStop && stopOk then t.(stage := STOPPED, next := STOPPED)
    else t.(next := s.stage)
  }

  function Apply(s: State, step: Step): State
    requires Enabled(s, step)
  {
    match step
    case BeginStart => s.(next := RUNNING, flight := s.flight + [Starting])
    case BeginStop => s.(next := STOPPED, flight := s.flight + [Stopping])
    case BeginRelease => s.(next := RELEASED, flight := s.flight + [Releasing(s.stage != STOPPED)])
    case BeginConfigError => s.(next := TRIPPED, flight := s.flight + [Erring])
    case BeginFatalError => s.(next := ERROR, flight := s.flight + [Erring])
    case FinishStart(k, ok) =>
      var t := s.(flight := Landed(s.flight, k));
      if ok then t.(stage := s.next) else t.(next := s.stage)
    case FinishStop(k) => s.(stage := s.next, flight := Landed(s.flight, k))
    case FinishRelease(k, stopOk, releaseOk) => Released(s, k, stopOk, releaseOk)
    case FinishError(k) => s.(stage := s.next, flight := Landed(s.flight, k))
    case UseRunning => s
  }

  predicate Allowed(s: State, steps: seq<Step>)
    decreases |steps|
  {
    |steps| == 0 || (Enabled(s, steps[0]) && Allowed(Apply(s, steps[0]), steps[1..]))
  }

  function Result(s: State, steps: seq<Step>): State
    requires Allowed(s, steps)
    decreases |steps|
  {
    if |steps| == 0 then s else Result(Apply(s, steps[0]), steps[1..])
  }

  // ---------- exclusion

  /** An error report takes effect only from a stable state. */
  predicate Disciplined(s: State, step: Step) {
    step.BeginConfigError? || step.BeginFatalError? ==> Stable(s)
  }

  predicate AllDisciplined(s: State, steps: seq<Step>)
    requires Allowed(s, steps)
    decreases |steps|
  {
    |steps| == 0 || (Disciplined(s, steps[0]) && AllDisciplined(Apply(s, steps[0]), steps[1..]))
  }

  /** One operation at most is in progress, and just then the state is a transition, of the
      kind the operation makes. */
  predicate Exclusive(s: State) {
    && |s.flight| <= 1
    && (Stable(s) <==> |s.flight| == 0)
    && (|s.flight| == 1 ==> Permitted(s.flight[0], s.stage, s.next))
  }

  /** The transitions an operation can make when it succeeds. */
  predicate Permitted(op: Op, stage: Stage, next: Stage) {
    match op
    case Starting => CanStart(stage) && next == RUNNING
    case Stopping => Running(stage) && next == STOPPED
    case Releasing(doStop) => stage != RELEASED && next == RELEASED && (doStop <==> stage != STOPPED)
    case Erring => (stage == RUNNING && next == TRIPPED) || ((stage == RUNNING || stage == TRIPPED) && next == ERROR)
  }

  lemma ExclusiveStep(s: State, step: Step)
    requires Exclusive(s) && Enabled(s, step) && Disciplined(s, step)
    ensures Exclusive(Apply(s, step))
  {
  }

  /** A step commits what the operation in progress was to reach, leaves the state as it was,
      or, when a release stopped the component and then failed, falls back to STOPPED. */
  lemma CommittedEdges(s: State, step: Step)
    requires Exclusive(s) && Enabled(s, step)
    ensures var t := Apply(s, step);
      t.stage != s.stage ==>
        && |s.flight| == 1
        && ((Permitted(s.flight[0], s.stage, t.stage) && t.stage == s.next)
            || (s.flight[0] == Releasing(true) && Running(s.stage) && t.stage == STOPPED))
  {
  }

  /** At every point of the run one operation at most is in progress. */
  predicate AlwaysOne(s: State, steps: seq<Step>)
    requires Allowed(s, steps)
    decreases |steps|
  {
    |s.flight| <= 1 && (|steps| == 0 || AlwaysOne(Apply(s, steps[0]), steps[1..]))
  }

  /** Operations exclude each other in exactly the runs whose error reports begin from stable
      states. */
  lemma {:induction false} ExclusionExact(s: State, steps: seq<Step>)
    requires Exclusive(s) && Allowed(s, steps)
    ensures AlwaysOne(s, steps) <==> AllDisciplined(s, steps)
    ensures AllDisciplined(s, steps) ==> Exclusive(Result(s, steps))
    decreases |steps|
  {
    if |steps| > 0 {
      if Disciplined(s, steps[0]) {
        ExclusiveStep(s, steps[0]);
        ExclusionExact(Apply(s, steps[0]), steps[1..]);
      }
    }
  }

  /** Queueing and flushing run while no operation is in progress. */
  lemma UsersExcluded(steps: seq<Step>)
    requires Allowed(CREATED, steps) && AllDisciplined(CREATED, steps)
    ensures var s := Result(CREATED, steps); Enabled(s, UseRunning) <==> |s.flight| == 0 && Running(s.stage)
  {
    ExclusionExact(CREATED, steps);
  }

  // ---------- what an operation leaves

  /** An operation from a stable state, with nothing else in progress before it finishes. */
  predicate Whole(s: State, begin: Step, finish: Step) {
    Exclusive(s) && Enabled(s, begin) && Stable(s) && Enabled(Apply(s, begin), finish)
  }

  function After(s: State, begin: Step, finish: Step): State
    requires Whole(s, begin, finish)
  {
    Apply(Apply(s, begin), finish)
  }

  /** Where operations exclude each other the step behind a begin is the finish of that same
      operation: nothing else is enabled. */
  lemma NothingBetween(s: State, begin: Step, next: Step)
    requires Exclusive(s) && Enabled(s, begin) && Disciplined(s, begin)
    requires |s.flight| == 0 && |Apply(s, begin).flight| > 0
    requires Enabled(Apply(s, begin), next) && Disciplined(Apply(s, begin), next)
    ensures match next
            case FinishStart(k, _) => k == 0 && begin == BeginStart
            case FinishStop(k) => k == 0 && begin == BeginStop
            case FinishRelease(k, _, _) => k == 0 && begin == BeginRelease
            case FinishError(k) => k == 0 && (begin == BeginConfigError || begin == BeginFatalError)
            case _ => false
  {
    ExclusiveStep(s, begin);
  }

  /** A start leads to RUNNING exactly when its action succeeds, and otherwise back to where
      it began. */
  lemma StartOutcome(s: State, ok: bool)
    requires Exclusive(s) && Enabled(s, BeginStart)
    ensures Whole(s, BeginStart, FinishStart(0, ok))
    ensures var t := After(s, BeginStart, FinishStart(0, ok));
      && (t.stage == RUNNING <==> ok) && (!ok ==> t.stage == s.stage) && Stable(t) && |t.flight| == 0
  {
  }

  /** A stop leads to STOPPED, whatever its action answers. */
  lemma StopOutcome(s: State)
    requires Exclusive(s) && Enabled(s, BeginStop)
    ensures Whole(s, BeginStop, FinishStop(0))
    ensures var t := After(s, BeginStop, FinishStop(0)); t.stage == STOPPED && Stable(t) && |t.flight| == 0
  {
  }

  /** A release leads to RELEASED exactly when the actions it needs succeed; it does not need
      to stop what is stopped. If only the release itself fails the component is stopped. */
  lemma ReleaseOutcome(s: State, stopOk: bool, releaseOk: bool)
    requires Exclusive(s) && Enabled(s, BeginRelease)
    ensures Whole(s, BeginRelease, FinishRelease(0, stopOk, releaseOk))
    ensures var t := After(s, BeginRelease, FinishRelease(0, stopOk, releaseOk));
      && (t.stage == RELEASED <==> (s.stage == STOPPED || stopOk) && releaseOk)
      && (t.stage == STOPPED <==> (s.stage == STOPPED || stopOk) && !releaseOk)
      && (s.stage != STOPPED && !stopOk ==> t.stage == s.stage)
      && Stable(t) && |t.flight| == 0
  {
  }

  /** A configuration error leads to TRIPPED and a fatal one to ERROR; TRIPPED can be left by
      a start again, ERROR by a stop or a release only. */
  lemma ErrorOutcome(s: State, fatal: bool)
    requires Exclusive(s) && Stable(s) && (s.stage == RUNNING || (fatal && s.stage == TRIPPED))
    ensures var begin := if fatal then BeginFatalError else BeginConfigError;
      && Whole(s, begin, FinishError(0))
      && var t := After(s, begin, FinishError(0));
         && t.stage == (if fatal then ERROR else TRIPPED) && Stable(t) && |t.flight| == 0
         && (Enabled(t, BeginStart) <==> !fatal) && Enabled(t, BeginStop) && Enabled(t, BeginRelease)
  {
  }

  /** In runs that report errors from stable states only, a component is running after a
      start finished exactly when the start's action succeeded. */
  lemma StartedExact(before: seq<Step>, k: nat, ok: bool)
    requires Allowed(CREATED, before) && AllDisciplined(CREATED, before)
    requires Enabled(Result(CREATED, before), FinishStart(k, ok))
    ensures var s, t := Result(CREATED, before), Apply(Result(CREATED, before), FinishStart(k, ok));
      && (t.stage == RUNNING <==> ok) && (!ok ==> t.stage == s.stage) && CanStart(s.stage) && Stable(t)
  {
    ExclusionExact(CREATED, before);
  }

  /** An error reported while a start is in progress is what the start commits. */
  lemma ErrorDuringStart(s: State, fatal: bool)
    requires Exclusive(s) && Enabled(s, BeginStart)
    ensures var t := Apply(s, BeginStart);
      var begin := if fatal then BeginFatalError else BeginConfigError;
      && Enabled(t, begin)
      && var u := Apply(t, begin);
         && Enabled(u, FinishStart(0, true))
         && Apply(u, FinishStart(0, true)).stage == (if fatal then ERROR else TRIPPED)
  {
  }

  // ---------- release is for ever

  /** Releases exclude each other in all runs. */
  predicate OneRelease(flight: seq<Op>) {
    forall i, j | 0 <= i < j < |flight| :: !(flight[i].Releasing? && flight[j].Releasing?)
  }

  lemma LandedAt(flight: seq<Op>, k: nat, i: nat)
    requires k < |flight| && i < |flight| - 1
    ensures |Landed(flight, k)| == |flight| - 1 && Landed(flight, k)[i] == flight[if i < k then i else i + 1]
  {
  }

  lemma LandedOne(flight: seq<Op>, k: nat)
    requires OneRelease(flight) && k < |flight|
    ensures OneRelease(Landed(flight, k))
    ensures flight[k].Releasing? ==> !ReleaseInFlight(Landed(flight, k))
    ensures !ReleaseInFlight(flight) ==> !ReleaseInFlight(Landed(flight, k))
  {
    forall i | 0 <= i < |flight| - 1
      ensures Landed(flight, k)[i] == flight[if i < k then i else i + 1]
    {
      LandedAt(flight, k, i);
    }
  }

  /** Both states are RELEASED and no release is in progress. */
  predicate Gone(s: State) {
    s.stage == RELEASED && s.next == RELEASED && !ReleaseInFlight(s.flight)
  }

  lemma OneReleaseStep(s: State, step: Step)
    requires OneRelease(s.flight) && Enabled(s, step)
    ensures OneRelease(Apply(s, step).flight)
    ensures Gone(s) ==> Gone(Apply(s, step))
    ensures step.FinishRelease? && Apply(s, step).stage == RELEASED && s.stage != RELEASED ==> Gone(Apply(s, step))
  {
    if step.FinishStart? || step.FinishStop? || step.FinishRelease? || step.FinishError? {
      LandedOne(s.flight, step.k);
    }
  }

  lemma {:induction false} OneReleaseRun(s: State, steps: seq<Step>)
    requires OneRelease(s.flight) && Allowed(s, steps)
    ensures OneRelease(Result(s, steps).flight)
    ensures Gone(s) ==> Gone(Result(s, steps))
    decreases |steps|
  {
    if |steps| > 0 {
      OneReleaseStep(s, steps[0]);
      OneReleaseRun(Apply(s, steps[0]), steps[1..]);
    }
  }

  /** Once a release succeeded both states stay RELEASED, whatever else was in progress and
      however errors were reported. */
  lemma ReleasedForEver(before: seq<Step>, k: nat, stopOk: bool, after: seq<Step>)
    requires Allowed(CREATED, before) && Enabled(Result(CREATED, before), FinishRelease(k, stopOk, true))
    requires Result(CREATED, before).flight[k].doStop ==> stopOk
    requires Allowed(Apply(Result(CREATED, before), FinishRelease(k, stopOk, true)), after)
    ensures var r := Result(Apply(Result(CREATED, before), FinishRelease(k, stopOk, true)), after);
      r.stage == RELEASED && r.next == RELEASED
  {
    var s := Result(CREATED, before);
    OneReleaseRun(CREATED, before);
    LandedOne(s.flight, k);
    OneReleaseStep(s, FinishRelease(k, stopOk, true));
    OneReleaseRun(Apply(s, FinishRelease(k, stopOk, true)), after);
  }

  // ---------- the component

  datatype Status = OK | DUPLICATE | BAD_STATE | WAITING

  class MfxC2Component {
    var stage: Stage
    var next: Stage

    ghost var flight: seq<Op>

    ghost function Now(): State
      reads this
    {
      State(stage, next, flight)
    }

    constructor ()
      ensures Now() == CREATED
    {
      stage, next, flight := STOPPED, STOPPED, [];
    }

    function CheckStateTransitionConflict(wanted: Stage): (res: Status)
      reads this
      ensures res == OK <==> Stable(Now())
      ensures res == DUPLICATE <==> !Stable(Now()) && next == wanted
    {
      if next != stage then if next == wanted then DUPLICATE else BAD_STATE else OK
    }

    /** start up to its action. */
    method PreStart() returns (res: Status)
      modifies this
      ensures res == OK <==> old(Enabled(Now(), Step.BeginStart))
      ensures if res == OK then Now() == old(Apply(Now(), Step.BeginStart)) else Now() == old(Now())
      ensures res == OK <==> old(stage == next && (stage == STOPPED || stage == TRIPPED))
      ensures stage == old(stage) && next == if res == OK then RUNNING else old(next)
      ensures res == DUPLICATE <==> !old(Stable(Now())) && old(next) == RUNNING
    {
      res := CheckStateTransitionConflict(RUNNING);
      if res == OK {
        match stage {
          case STOPPED => next := RUNNING;
          case TRIPPED => next := RUNNING;
          case _ => res := BAD_STATE;
        }
      }
      if res == OK {
        flight := flight + [Starting];
      }
    }

    /** start after its action. */
    method PostStart(ok: bool, ghost k: nat)
      requires Enabled(Now(), FinishStart(k, ok))
      modifies this
      ensures Now() == old(Apply(Now(), FinishStart(k, ok)))
      ensures ok ==> stage == next == old(next)
      ensures !ok ==> stage == next == old(stage)
    {
      if ok {
        stage := next;
      } else {
        next := stage;
      }
      flight := Landed(flight, k);
    }

    /** stop up to its action; during a transition the component made by itself it waits,
        which leaves the state to the others. */
    method PreStop() returns (res: Status, abort: bool)
      modifies this
      ensures res == OK <==> old(Enabled(Now(), Step.BeginStop))
      ensures if res == OK then Now() == old(Apply(Now(), Step.BeginStop)) else Now() == old(Now())
      ensures res == OK <==> old(stage == next && (stage == RUNNING || stage == TRIPPED || stage == ERROR))
      ensures stage == old(stage) && next == if res == OK then STOPPED else old(next)
      ensures res == OK ==> (abort <==> old(stage) == ERROR)
      ensures res == WAITING <==> !old(Stable(Now())) && (old(next) == ERROR || old(next) == TRIPPED)
    {
      abort := false;
      res := CheckStateTransitionConflict(STOPPED);
      if res == BAD_STATE {
        if next == ERROR || next == TRIPPED {
          return WAITING, abort;
        }
      }
      if res == OK {
        match stage {
          case RUNNING => next := STOPPED;
          case TRIPPED => next := STOPPED;
          case ERROR =>
            abort := true;
            next := STOPPED;
          case _ => res := BAD_STATE;
        }
      }
      if res == OK {
        flight := flight + [Stopping];
      }
    }

    method PostStop(ghost k: nat)
      requires Enabled(Now(), FinishStop(k))
      modifies this
      ensures Now() == old(Apply(Now(), FinishStop(k)))
      ensures stage == next == old(next)
    {
      stage := next;
      flight := Landed(flight, k);
    }

    /** release up to its actions, once the state is stable. */
    method PreRelease() returns (res: Status, doStop: bool)
      requires Stable(Now()) && !ReleaseInFlight(flight)
      modifies this
      ensures res == OK <==> old(Enabled(Now(), Step.BeginRelease))
      ensures if res == OK then Now() == old(Apply(Now(), Step.BeginRelease))
        else res == DUPLICATE && Now() == old(Now())
      ensures res == OK <==> old(stage) != RELEASED
      ensures stage == old(stage) && next == RELEASED
      ensures res == OK ==> (doStop <==> old(stage) != STOPPED)
    {
      res, doStop := OK, false;
      if stage == RELEASED {
        res := DUPLICATE;
      } else {
        next := RELEASED;
        if stage != STOPPED {
          doStop := true;
        }
        flight := flight + [Releasing(doStop)];
      }
    }

    method PostRelease(doStop: bool, stopOk: bool, releaseOk: bool, ghost k: nat)
      requires k < |flight| && flight[k] == Releasing(doStop)
      modifies this
      ensures Now() == old(Apply(Now(), FinishRelease(k, stopOk, releaseOk)))
      ensures stage == next
      ensures (doStop ==> stopOk) && releaseOk ==> stage == RELEASED
      ensures doStop && stopOk && !releaseOk ==> stage == STOPPED
      ensures (doStop && !stopOk) || (!doStop && !releaseOk) ==> stage == old(stage)
    {
      var ok := (doStop ==> stopOk) && releaseOk;
      if ok {
        stage, next := RELEASED, RELEASED;
      } else if doStop && stopOk {
        stage, next := STOPPED, STOPPED;
      } else {
        next := stage;
      }
      flight := Landed(flight, k);
    }

    method PreConfigError() returns (doPause: bool)
      modifies this
      ensures doPause <==> old(Enabled(Now(), Step.BeginConfigError))
      ensures Now() == if doPause then old(Apply(Now(), Step.BeginConfigError)) else old(Now())
      ensures (doPause <==> old(next) == RUNNING) && stage == old(stage)
      ensures next == if doPause then TRIPPED else old(next)
    {
      doPause := false;
      if next == RUNNING {
        next := TRIPPED;
        doPause := true;
        flight := flight + [Erring];
      }
    }

    method PreFatalError() returns (doPause: bool)
      modifies this
      ensures doPause <==> old(Enabled(Now(), Step.BeginFatalError))
      ensures Now() == if doPause then old(Apply(Now(), Step.BeginFatalError)) else old(Now())
      ensures (doPause <==> old(next) == RUNNING || old(next) == TRIPPED) && stage == old(stage)
      ensures next == if doPause then ERROR else old(next)
    {
      doPause := false;
      if next == RUNNING || next == TRIPPED {
        next := ERROR;
        doPause := true;
        flight := flight + [Erring];
      }
    }

    method PostError(ghost k: nat)
      requires Enabled(Now(), FinishError(k))
      modifies this
      ensures Now() == old(Apply(Now(), FinishError(k)))
      ensures stage == next == old(next)
    {
      stage := next;
      flight := Landed(flight, k);
    }
  }
}
