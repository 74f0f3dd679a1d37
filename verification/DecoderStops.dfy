/** The decoder's stop in all runs: what it leaves queued, and exactly when it is sure to
    settle all works. */
module DecoderStops {
  import opened DecoderPipeline
  import opened DecoderConservation
  import opened DecoderBounds
  import opened DecoderGuards
  import opened NullCommands

  /** Nothing is queued, in a thread's hands, pending or flushed. */
  predicate Settled(s: State) {
    && |InTasks(s.workQ)| == 0 && |InWorking(s.working)| == 0
    && |InWaits(s.waitQ)| == 0 && |InWaiting(s.waiting)| == 0 && |s.pending| == 0 && |s.flushed| == 0
  }

  predicate NoStart(steps: seq<Step>) {
    forall i | 0 <= i < |steps| :: !(steps[i].C? && steps[i].c.Start?)
  }

  /** A stop, with whatever the threads do until the next start. */
  predicate IsStop(steps: seq<Step>, abort: bool) {
    |steps| > 0 && steps[0] == C(BeginStop(abort)) && NoStart(steps[1..])
  }

  /** However the threads go on, the component is down with all works settled. */
  ghost predicate StopsClean(s: State, abort: bool) {
    forall steps | Allowed(s, steps) && IsStop(steps, abort) && Result(s, steps).client == Down ::
      Settled(Result(s, steps))
  }

  // ---------- what no thread gets to

  /** The tasks that stay queued when nothing but a stop happens: a live thread gets to its
      first null command, a thread that is not there gets to none. */
  function Stranded(s: State): seq<WorkTask> {
    if WorkingLive(s) then Behind(s.workQ, NullTask) else s.workQ
  }

  function StrandedWaits(s: State): seq<WaitTask> {
    if WaitingLive(s) then Behind(s.waitQ, NullWait) else s.waitQ
  }

  /** The waiting thread gets to what is pushed next. */
  predicate WaitingOpen(s: State) {
    WaitingLive(s) && NullWait !in s.waitQ
  }

  function InDrain(w: Working): seq<Work> {
    match w
    case Run(job) => InJob(job)
    case Gated(job) => InJob(job)
    case Counting(job) => InJob(job)
    case _ => []
  }

  /** The drain of an end-of-stream work is ahead of the first null command. */
  predicate EosAhead(q: seq<WorkTask>) {
    |q| > 0 && q[0] != NullTask && ((q[0].DrainTask? && q[0].eos.Some?) || EosAhead(q[1..]))
  }

  /** The working thread may push an end-of-stream work before it ends. */
  predicate EosComes(s: State) {
    WorkingLive(s) && (|InDrain(s.working)| > 0 || EosAhead(s.workQ))
  }

  predicate TasksReady(s: State) {
    |InTasks(Stranded(s))| == 0
  }

  predicate WaitsReady(s: State) {
    |InWaits(StrandedWaits(s))| == 0 && (EosComes(s) ==> WaitingOpen(s))
  }

  lemma {:induction false} EosAheadSnoc(q: seq<WorkTask>)
    ensures EosAhead(q + [NullTask]) <==> EosAhead(q)
  {
    if |q| > 0 {
      assert (q + [NullTask])[1..] == q[1..] + [NullTask];
      EosAheadSnoc(q[1..]);
    }
  }

  lemma {:induction false} TasksSnoc(q: seq<WorkTask>, t: WorkTask)
    ensures InTasks(q + [t]) == InTasks(q) + InTask(t)
  {
    if |q| == 0 {
      assert (q + [t])[1..] == [];
      assert InTask(t) + [] == InTask(t);
    } else {
      TasksSnoc(q[1..], t);
      assert (q + [t])[1..] == q[1..] + [t];
      assert InTask(q[0]) + (InTasks(q[1..]) + InTask(t)) == InTask(q[0]) + InTasks(q[1..]) + InTask(t);
    }
  }

  lemma Associate(a: seq<Work>, b: seq<Work>, c: seq<Work>)
    ensures a + (b + c) == a + b + c
  {
  }

  lemma {:induction false} InWaitsSnoc(q: seq<WaitTask>, t: WaitTask)
    ensures InWaits(q + [t]) == InWaits(q) + InWait(t)
  {
    if |q| == 0 {
      assert (q + [t])[1..] == [];
      assert InWait(t) + [] == InWait(t);
    } else {
      InWaitsSnoc(q[1..], t);
      assert (q + [t])[1..] == q[1..] + [t];
      Associate(InWait(q[0]), InWaits(q[1..]), InWait(t));
    }
  }

  /** A null command more strands no work. */
  lemma NullStrands(q: seq<WorkTask>)
    ensures InTasks(Behind(q + [NullTask], NullTask)) == InTasks(Behind(q, NullTask))
    ensures InTasks(q + [NullTask]) == InTasks(q)
  {
    BehindSnoc(q, NullTask, NullTask);
    TasksSnoc(q, NullTask);
    TasksSnoc(Behind(q, NullTask), NullTask);
    assert InTasks(q) + [] == InTasks(q) && InTasks(Behind(q, NullTask)) + [] == InTasks(Behind(q, NullTask));
    if NullTask !in q {
      BehindNone(q, NullTask);
    }
  }

  lemma NullWaitHolds(q: seq<WaitTask>)
    ensures InWaits(q + [NullWait]) == InWaits(q)
  {
    InWaitsSnoc(q, NullWait);
    assert InWaits(q) + [] == InWaits(q);
  }

  lemma NullWaitStrands(q: seq<WaitTask>)
    ensures InWaits(Behind(q + [NullWait], NullWait)) == InWaits(Behind(q, NullWait))
    ensures InWaits(q + [NullWait]) == InWaits(q)
  {
    BehindSnoc(q, NullWait, NullWait);
    NullWaitHolds(q);
    NullWaitHolds(Behind(q, NullWait));
    if NullWait !in q {
      BehindNone(q, NullWait);
    }
  }

  /** What is pushed for the waiting thread is stranded unless the thread gets to it. */
  lemma PushedWait(s: State, t: WaitTask)
    ensures InWaits(StrandedWaits(s.(waitQ := s.waitQ + [t])))
         == InWaits(StrandedWaits(s)) + if WaitingOpen(s) then [] else InWait(t)
  {
    BehindSnoc(s.waitQ, NullWait, t);
    InWaitsSnoc(s.waitQ, t);
    InWaitsSnoc(Behind(s.waitQ, NullWait), t);
    if NullWait !in s.waitQ {
      BehindNone(s.waitQ, NullWait);
    }
  }

  // ---------- a stop keeps them

  predicate Stopping(c: Client, abort: bool) {
    c == StopWorking(abort) || c == StopWaiting(abort) || c == StopJoining || c == StopPending || c == Down
  }

  /** Tasks stay stranded, and no others get stranded; waits stay so. */
  predicate Kept(s: State, t: State) {
    InTasks(Stranded(t)) == InTasks(Stranded(s)) && InWaits(StrandedWaits(s)) <= InWaits(StrandedWaits(t))
  }

  lemma WorkingKept(s: State, w: WorkingStep)
    requires WorkingEnabled(s, w)
    ensures Kept(s, WorkingApply(s, w))
    ensures WaitsReady(s) && !s.flushing ==> WaitsReady(WorkingApply(s, w))
  {
    var t := WorkingApply(s, w);
    WorkingEffect(s, w);
    assert StrandedWaits(s.(waitQ := t.waitQ)) == StrandedWaits(t);
    if |Pushes(s, w)| > 0 {
      assert Pushes(s, w) == [Pushes(s, w)[0]];
      PushedWait(s, Pushes(s, w)[0]);
    } else {
      assert t.waitQ == s.waitQ + [] == s.waitQ;
    }
    EosStaysAhead(s, w);
  }

  /** An end-of-stream work comes only from one that was to come. */
  lemma EosStaysAhead(s: State, w: WorkingStep)
    requires WorkingEnabled(s, w)
    ensures EosComes(WorkingApply(s, w)) ==> EosComes(s)
    ensures |Pushes(s, w)| > 0 && !Pushes(s, w)[0].WaitWork? ==> EosComes(s)
  {
    WorkingEffect(s, w);
  }

  lemma WaitingKept(s: State, a: WaitingStep)
    requires WaitingEnabled(s, a)
    ensures Kept(s, WaitingApply(s, a))
    ensures WaitsReady(s) ==> WaitsReady(WaitingApply(s, a))
  {
    WaitingEffect(s, a);
    if a.TakeWait? {
      assert s.waitQ == [s.waitQ[0]] + s.waitQ[1..];
    }
  }

  lemma BeginKept(s: State)
    requires ClientEnabled(s, BeginStop(false))
    ensures Kept(s, ClientApply(s, BeginStop(false)))
    ensures WaitsReady(s) ==> WaitsReady(ClientApply(s, BeginStop(false)))
  {
    NullStrands(s.workQ);
    EosAheadSnoc(s.workQ);
  }

  lemma ClientKept(s: State, c: ClientStep)
    requires Sound(s) && Stopping(s.client, false) && ClientEnabled(s, c) && !c.Start?
    ensures Kept(s, ClientApply(s, c)) && Stopping(ClientApply(s, c).client, false)
    ensures WaitsReady(s) ==> WaitsReady(ClientApply(s, c))
  {
    if c.BeginWaitingStop? {
      WaitingStopKept(s);
    }
  }

  /** The null command strands nothing: the working thread is gone, and no work is pushed. */
  lemma WaitingStopKept(s: State)
    requires Sound(s) && s.client == StopWaiting(false)
    ensures var t := ClientApply(s, BeginWaitingStop);
      Kept(s, t) && t.client == StopJoining && (WaitsReady(s) ==> WaitsReady(t))
  {
    NullWaitStrands(s.waitQ);
  }

  lemma StepKept(s: State, step: Step)
    requires Sound(s) && Stopping(s.client, false) && Enabled(s, step) && !(step.C? && step.c.Start?)
    ensures Kept(s, Apply(s, step)) && Stopping(Apply(s, step).client, false)
    ensures WaitsReady(s) ==> WaitsReady(Apply(s, step))
  {
    match step
    case C(c) => ClientKept(s, c);
    case W(w) =>
      WorkingEffect(s, w);
      WorkingKept(s, w);
    case A(a) =>
      WaitingEffect(s, a);
      WaitingKept(s, a);
  }

  /** What a stop without abort leaves queued: the works of the stranded tasks, no others. */
  lemma {:induction false} RunKept(s: State, steps: seq<Step>)
    requires Sound(s) && Stopping(s.client, false) && Allowed(s, steps) && NoStart(steps)
    ensures Kept(s, Result(s, steps)) && (WaitsReady(s) ==> WaitsReady(Result(s, steps)))
    decreases |steps|
  {
    if |steps| > 0 {
      StepKept(s, steps[0]);
      SoundStep(s, steps[0]);
      RunKept(Apply(s, steps[0]), steps[1..]);
    }
  }

  lemma DownSettled(s: State)
    requires Sound(s) && s.client == Down && TasksReady(s) && WaitsReady(s)
    ensures Settled(s)
  {
  }

  lemma StopSettlesReady(s: State, steps: seq<Step>)
    requires Sound(s) && s.client == Ready && TasksReady(s) && WaitsReady(s)
    requires Allowed(s, steps) && IsStop(steps, false) && Result(s, steps).client == Down
    ensures Settled(Result(s, steps))
  {
    BeginKept(s);
    SoundStep(s, steps[0]);
    RunKept(Apply(s, steps[0]), steps[1..]);
    SoundRun(s, steps);
    DownSettled(Result(s, steps));
  }

  // ---------- an aborted stop

  /** No task is stranded, and no wait once the waiting queue was emptied. */
  predicate Aborting(s: State) {
    && Sound(s) && Stopping(s.client, true) && TasksReady(s)
    && (s.client.StopWorking? || s.client.StopWaiting? || WaitsReady(s))
  }

  lemma AbortStep(s: State, step: Step)
    requires Aborting(s) && Enabled(s, step) && !(step.C? && step.c.Start?)
    ensures Aborting(Apply(s, step))
  {
    SoundStep(s, step);
    match step
    case C(c) => AbortClient(s, c);
    case W(w) =>
      WorkingEffect(s, w);
      WorkingKept(s, w);
    case A(a) =>
      WaitingEffect(s, a);
      WaitingKept(s, a);
  }

  lemma OnlyNullWait()
    ensures InWaits([NullWait]) == [] && Behind([NullWait], NullWait) == []
  {
    assert [NullWait][1..] == [];
  }

  lemma AbortWaits(s: State)
    requires Halted(s) && s.client == StopWaiting(true)
    ensures WaitsReady(ClientApply(s, BeginWaitingStop))
  {
    assert ClientApply(s, BeginWaitingStop).waitQ == [NullWait];
    OnlyNullWait();
  }

  lemma AbortClient(s: State, c: ClientStep)
    requires Aborting(s) && ClientEnabled(s, c) && !c.Start?
    ensures Stopping(ClientApply(s, c).client, true) && TasksReady(ClientApply(s, c))
    ensures var t := ClientApply(s, c); t.client.StopWorking? || t.client.StopWaiting? || WaitsReady(t)
  {
    if c.BeginWaitingStop? {
      AbortWaits(s);
    }
  }

  lemma {:induction false} AbortRun(s: State, steps: seq<Step>)
    requires Aborting(s) && Allowed(s, steps) && NoStart(steps)
    ensures Aborting(Result(s, steps))
    decreases |steps|
  {
    if |steps| > 0 {
      AbortStep(s, steps[0]);
      AbortRun(Apply(s, steps[0]), steps[1..]);
    }
  }

  lemma AbortSettles(s: State, steps: seq<Step>)
    requires Sound(s) && s.client == Ready
    requires Allowed(s, steps) && IsStop(steps, true) && Result(s, steps).client == Down
    ensures Settled(Result(s, steps))
  {
    SoundStep(s, steps[0]);
    assert InTasks([NullTask]) == [] && Behind([NullTask], NullTask) == [];
    AbortRun(Apply(s, steps[0]), steps[1..]);
    DownSettled(Result(s, steps));
  }

  // ---------- every stop can be finished

  lemma {:induction false} Concat(s: State, a: seq<Step>, b: seq<Step>)
    requires Allowed(s, a) && Allowed(Result(s, a), b)
    ensures Allowed(s, a + b) && Result(s, a + b) == Result(Result(s, a), b)
    decreases |a|
  {
    if |a| == 0 {
      assert a + b == b;
    } else {
      Concat(Apply(s, a[0]), a[1..], b);
      RunFrom(s, a[0], a[1..] + b);
      assert a + b == [a[0]] + (a[1..] + b);
    }
  }

  /** A next step that brings the working thread nearer to its end. */
  function NextWork(w: Working): WorkingStep {
    match w
    case Idle => Take(true)
    case Resetting => ResetDone
    case Got(_) => WorkingStep.Empty
    case Run(_) => Leave
    case Gated(_) => NoOutput
    case Counting(_) => Increment
    case DrainWait(_) => DrainDone(true)
    case Clearing(_) => ClearOthers
    case Finish(_, _) => Report(true)
    case Held(_, _) => Deliver
    case _ => ResetDone
  }

  function RunRank(job: Job): nat {
    match job
    case Decode(_) => 4
    case Change(_) => 8
    case Drain(_) => 2
  }

  function WorkRank(w: Working): nat {
    match w
    case Resetting => 1
    case Got(_) => 1
    case Run(job) => RunRank(job)
    case Gated(job) => RunRank(job) + 1
    case Counting(job) => RunRank(job) + 1
    case DrainWait(resume) => if resume.Some? then 6 else 1
    case Clearing(_) => 5
    case Finish(_, _) => 3
    case Held(_, _) => 1
    case _ => 0
  }

  lemma WorkNext(s: State)
    requires WorkingLive(s) && (s.working == Idle ==> |s.workQ| > 0)
    ensures WorkingEnabled(s, NextWork(s.working))
    ensures var t := WorkingApply(s, NextWork(s.working));
      if s.working == Idle then |t.workQ| < |s.workQ|
      else t.workQ == s.workQ && WorkRank(t.working) < WorkRank(s.working)
  {
    if s.working == Idle {
      WorkingEffect(s, Take(true));
    }
  }

  /** An end-of-stream work that comes while the waiting thread does not get to it, or one
      that is there already. */
  predicate EosStranded(s: State) {
    |InWaits(StrandedWaits(s))| > 0 || (EosComes(s) && !WaitingOpen(s))
  }

  lemma EosStrandedNext(s: State)
    requires WorkingLive(s) && (s.working == Idle ==> |s.workQ| > 0) && EosStranded(s) && !s.flushing
    requires WorkingEnabled(s, NextWork(s.working))
    ensures EosStranded(WorkingApply(s, NextWork(s.working)))
  {
    var w := NextWork(s.working);
    var t := WorkingApply(s, w);
    WorkingKept(s, w);
    WorkingEffect(s, w);
    if |InWaits(StrandedWaits(s))| == 0 && w.Leave? && |Pushes(s, w)| > 0 {
      PushedWait(s, Pushes(s, w)[0]);
      assert Pushes(s, w) == [Pushes(s, w)[0]];
      assert StrandedWaits(s.(waitQ := t.waitQ)) == StrandedWaits(t);
    } else if |InWaits(StrandedWaits(s))| == 0 {
      assert t.waitQ == s.waitQ + [] == s.waitQ;
    }
  }

  /** The working thread runs to its first null command. */
  lemma {:induction false} ReachNull(s: State) returns (steps: seq<Step>)
    requires Sound(s) && s.client == StopWorking(false) && WorkingLive(s) && NullTask in s.workQ
    ensures Allowed(s, steps) && NoStart(steps)
    ensures Result(s, steps).client == s.client && Result(s, steps).working == Left
    ensures EosStranded(s) ==> EosStranded(Result(s, steps))
    decreases |s.workQ|, WorkRank(s.working)
  {
    WorkNext(s);
    var step := W(NextWork(s.working));
    var t := Apply(s, step);
    WorkingEffect(s, step.w);
    SoundStep(s, step);
    if EosStranded(s) {
      EosStrandedNext(s);
    }
    if t.working == Left {
      steps := [];
    } else {
      if s.working == Idle {
        FirstPopped(s.workQ, NullTask);
      }
      steps := ReachNull(t);
    }
    RunFrom(s, step, steps);
    steps := [step] + steps;
  }

  function NextWait(a: Waiting): WaitingStep {
    match a
    case Free => TakeWait
    case Syncing => Match(0, {})
    case Leaving => Decrement
    case _ => Notify
  }

  function WaitRank(a: Waiting): nat {
    match a
    case Syncing => 3
    case Matched(_) => 2
    case Leaving => 1
    case Eos(_) => 1
    case _ => 0
  }

  /** The waiting thread runs to its first null command. */
  lemma {:induction false} ReachNullWait(s: State) returns (steps: seq<Step>)
    requires s.client == StopJoining && WaitingLive(s) && NullWait in s.waitQ
    ensures Allowed(s, steps) && NoStart(steps)
    ensures Result(s, steps).client == StopJoining && Result(s, steps).waiting == Gone
    decreases |s.waitQ|, WaitRank(s.waiting)
  {
    var step := A(NextWait(s.waiting));
    var t := Apply(s, step);
    WaitingEffect(s, step.a);
    if t.waiting == Gone {
      steps := [];
    } else {
      if s.waiting == Free {
        assert s.waitQ == [s.waitQ[0]] + s.waitQ[1..];
      }
      steps := ReachNullWait(t);
    }
    RunFrom(s, step, steps);
    steps := [step] + steps;
  }

  lemma JoinWaits(s: State) returns (steps: seq<Step>)
    requires s.client == StopJoining && !WaitingLive(s)
    ensures Allowed(s, steps) && NoStart(steps) && Result(s, steps).client == Down
  {
    var t := Apply(s, C(JoinWaiting));
    RunFrom(t, C(ClearPending), []);
    RunFrom(s, C(JoinWaiting), [C(ClearPending)] + []);
    steps := [C(JoinWaiting)] + ([C(ClearPending)] + []);
  }

  lemma FinishWaiting(s: State) returns (steps: seq<Step>)
    requires s.client == StopWaiting(false)
    ensures Allowed(s, steps) && NoStart(steps) && Result(s, steps).client == Down
  {
    var t := Apply(s, C(BeginWaitingStop));
    assert t.waitQ[|s.waitQ|] == NullWait;
    if WaitingLive(t) {
      steps := ReachNullWait(t);
      var rest := JoinWaits(Result(t, steps));
      Concat(t, steps, rest);
      steps := steps + rest;
    } else {
      steps := JoinWaits(t);
    }
    RunFrom(s, C(BeginWaitingStop), steps);
    steps := [C(BeginWaitingStop)] + steps;
  }

  lemma JoinWorks(s: State) returns (steps: seq<Step>)
    requires s.client == StopWorking(false) && !WorkingLive(s)
    ensures Allowed(s, steps) && NoStart(steps) && Result(s, steps).client == Down
  {
    var rest := FinishWaiting(Apply(s, C(JoinWorking)));
    RunFrom(s, C(JoinWorking), rest);
    steps := [C(JoinWorking)] + rest;
  }

  lemma FinishWorking(s: State) returns (steps: seq<Step>)
    requires Sound(s) && s.client == StopWorking(false) && (WorkingLive(s) ==> NullTask in s.workQ)
    ensures Allowed(s, steps) && NoStart(steps) && Result(s, steps).client == Down
    ensures EosStranded(s) ==> |InWaits(StrandedWaits(Result(s, steps)))| > 0
  {
    steps := [];
    if WorkingLive(s) {
      steps := ReachNull(s);
    }
    var t := Result(s, steps);
    SoundRun(s, steps);
    var rest := JoinWorks(t);
    Concat(s, steps, rest);
    RunKept(t, rest);
    steps := steps + rest;
  }

  /** Every stop has a run in which the component goes down, with an end-of-stream work left
      if one may get stranded. */
  lemma StopFinishes(s: State) returns (steps: seq<Step>)
    requires Sound(s) && s.client == Ready
    ensures Allowed(s, steps) && IsStop(steps, false) && Result(s, steps).client == Down
    ensures EosStranded(s) ==> |InWaits(StrandedWaits(Result(s, steps)))| > 0
  {
    var t := Apply(s, C(BeginStop(false)));
    BeginKept(s);
    EosAheadSnoc(s.workQ);
    SoundStep(s, C(BeginStop(false)));
    assert t.workQ[|s.workQ|] == NullTask;
    var rest := FinishWorking(t);
    RunFrom(s, C(BeginStop(false)), rest);
    steps := [C(BeginStop(false))] + rest;
  }

  // ---------- the exact condition

  lemma StrandedLeft(s: State, steps: seq<Step>)
    requires Sound(s) && s.client == Ready && Allowed(s, steps) && IsStop(steps, false)
    ensures InTasks(Stranded(Result(s, steps))) == InTasks(Stranded(s))
    ensures InWaits(StrandedWaits(s)) <= InWaits(StrandedWaits(Result(s, steps)))
  {
    BeginKept(s);
    SoundStep(s, steps[0]);
    RunKept(Apply(s, steps[0]), steps[1..]);
  }

  /** In every state a run reaches a stop is sure to settle all works exactly when it aborts,
      or no work is stranded in either queue and none can get stranded. */
  lemma StopExact(depth: nat, before: seq<Step>, abort: bool)
    requires Allowed(Initial(depth), before) && Result(Initial(depth), before).client == Ready
    ensures var s := Result(Initial(depth), before);
      StopsClean(s, abort) <==> abort || (TasksReady(s) && WaitsReady(s))
  {
    var s := Result(Initial(depth), before);
    SoundInitially(depth);
    SoundRun(Initial(depth), before);
    if abort || (TasksReady(s) && WaitsReady(s)) {
      forall steps | Allowed(s, steps) && IsStop(steps, abort) && Result(s, steps).client == Down
        ensures Settled(Result(s, steps))
      {
        if abort {
          AbortSettles(s, steps);
        } else {
          StopSettlesReady(s, steps);
        }
      }
    } else {
      var steps := StopFinishes(s);
      SoundRun(s, steps);
      StrandedLeft(s, steps);
      assert !Settled(Result(s, steps));
    }
  }

  /** After such a stop, whatever happened before it, every accepted work was notified,
      returned by a flush or dropped by an abort, exactly once; without an abort none was
      dropped. */
  lemma StopSettles(depth: nat, before: seq<Step>, stop: seq<Step>, abort: bool, x: Work)
    requires Allowed(Initial(depth), before) && Result(Initial(depth), before).client == Ready
    requires abort || (TasksReady(Result(Initial(depth), before)) && WaitsReady(Result(Initial(depth), before)))
    requires Allowed(Result(Initial(depth), before), stop) && IsStop(stop, abort)
    requires Result(Result(Initial(depth), before), stop).client == Down
    ensures var r := Result(Result(Initial(depth), before), stop);
      && Count(r.notified, x) + Count(r.returned, x) + Count(r.aborted, x) == (if x in r.accepted then 1 else 0)
      && (!Aborts(before) && !Aborts(stop) && x in r.accepted ==> x in r.notified || x in r.returned)
  {
    var s := Initial(depth);
    Concat(s, before, stop);
    StopExact(depth, before, abort);
    var r := Result(s, before + stop);
    assert Settled(r);
    ExactlyOnePlace(depth, before + stop, x);
    SettledPlaces(r, x);
    CountMember(r.notified, x);
    CountMember(r.returned, x);
    if !Aborts(before) && !Aborts(stop) {
      NotAborted(s, before + stop);
    }
  }

  lemma SettledPlaces(r: State, x: Work)
    requires Settled(r)
    ensures Places(r, p => Count(p, x)) == Count(r.notified, x) + Count(r.returned, x) + Count(r.aborted, x)
  {
    assert InTasks(r.workQ) == InWorking(r.working) == InWaits(r.waitQ) == InWaiting(r.waiting) == [];
    assert r.pending == r.flushed == [];
  }

  lemma NoNullTask(q: seq<WorkTask>)
    requires DecoderBounds.WorkEnds(q, false)
    ensures NullTask !in q
  {
  }

  lemma NoNullWait(q: seq<WaitTask>)
    requires WaitEnds(q, false)
    ensures NullWait !in q
  {
  }

  /** Where every earlier stop found started threads, and the threads were started now, the
      condition holds. */
  lemma StartedReady(s: State)
    requires InStep(s) && s.client == Ready && s.working != Absent
    ensures TasksReady(s) && WaitsReady(s)
  {
    NoNullTask(s.workQ);
    NoNullWait(s.waitQ);
    BehindNone(s.workQ, NullTask);
    BehindNone(s.waitQ, NullWait);
  }

  lemma UnstartedLeavesNull(depth: nat) returns (steps: seq<Step>)
    ensures Allowed(Initial(depth), steps) && !Aborts(steps)
    ensures var s := Result(Initial(depth), steps);
      && s.client == Down && s.working == Absent && s.workQ == [NullTask] && s.waitQ == [NullWait]
      && s.accepted == []
  {
    var s := Initial(depth);
    var s1 := Apply(s, C(Start(false)));
    UnstartedStop(s1);
    RunFrom(s, C(Start(false)), STOP);
    steps := [C(Start(false))] + STOP;
    assert [] + [NullWait] == [NullWait] && [] + [NullTask] == [NullTask];
    StopsOnce(steps);
  }

  lemma StopsOnce(steps: seq<Step>)
    requires steps == [C(Start(false))] + STOP
    ensures !Aborts(steps)
  {
  }

  /** A thread that is there is not enough: after a stop of unstarted threads the next start's
      working thread ends at the null command left, and the work queued then stays queued. */
  lemma StaleNull(depth: nat, w: Work) returns (steps: seq<Step>)
    requires w.valid && !w.eos
    ensures Allowed(Initial(depth), steps)
    ensures var s := Result(Initial(depth), steps);
      s.client == Ready && s.working == Left && s.workQ == [DoWork(w)] && !StopsClean(s, false)
  {
    var before := UnstartedLeavesNull(depth);
    var rest := StaleNullQueues(Result(Initial(depth), before), w);
    Concat(Initial(depth), before, rest);
    steps := before + rest;
    assert InTasks([DoWork(w)]) == [w] + InTasks([]);
    StopExact(depth, steps, false);
  }

  lemma StaleNullQueues(s: State, w: Work) returns (rest: seq<Step>)
    requires s.client == Down && s.working == Absent && s.workQ == [NullTask] && w !in s.accepted && w.valid && !w.eos
    ensures Allowed(s, rest)
    ensures var t := Result(s, rest); t.client == Ready && t.working == Left && t.workQ == [DoWork(w)]
  {
    var t1 := Apply(s, C(Start(true)));
    var t2 := Apply(t1, W(Take(true)));
    RunFrom(t2, C(QueueWork(w)), []);
    RunFrom(t1, W(Take(true)), [C(QueueWork(w))] + []);
    rest := [W(Take(true))] + ([C(QueueWork(w))] + []);
    RunFrom(s, C(Start(true)), rest);
    rest := [C(Start(true))] + rest;
    assert [] + [DoWork(w)] == [DoWork(w)];
  }
}
