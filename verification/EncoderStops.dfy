/** The encoder's stop in all runs: what it leaves queued, and exactly when it is sure to
    answer all works. */
module EncoderStops {
  import opened EncoderPipeline
  import opened EncoderOrder
  import opened EncoderDelivery
  import opened NullCommands

  predicate WorkingLive(s: State) {
    s.working != Absent && s.working != Left
  }

  predicate WaitingLive(s: State) {
    s.waiting != Missing && s.waiting != Gone
  }

  /** What joining the threads leaves in all runs. */
  predicate Sound(s: State) {
    match s.client
    case StopWaiting => s.working == Absent
    case StopJoining => s.working == Absent
    case StopPending => s.working == Absent && s.waiting == Missing
    case Down => s.working == Absent && s.waiting == Missing && |s.pending| == 0
    case _ => true
  }

  /** What the working thread's steps change and what they leave alone. */
  predicate WorkingStep(step: Step) {
    step.Take? || step.Fail? || step.RetainFrame? || step.Enter? || step.Count? || step.DrainOutput? || step.DrainFail?
    || step.DrainEnd? || step.PushEos? || step.DropOne? || step.DropEnd?
  }

  predicate WaitingStep(step: Step) {
    step.TakeWait? || step.Notify?
  }

  lemma WorkingEffect(s: State, step: Step)
    requires WorkingStep(step) && Enabled(s, step)
    ensures var t := Apply(s, step);
      && t.client == s.client && t.waiting == s.waiting && WorkingLive(s) && s.waitQ <= t.waitQ
      && (if step.Take? then
            t.workQ == s.workQ[1..] && t.working != Absent && (t.working == Left <==> s.workQ[0] == NullTask)
          else t.workQ == s.workQ && WorkingLive(t))
  {
  }

  lemma WaitingEffect(s: State, step: Step)
    requires WaitingStep(step) && Enabled(s, step)
    ensures var t := Apply(s, step);
      && t.client == s.client && t.working == s.working && t.workQ == s.workQ && t.pending == s.pending
      && WaitingLive(s) && t.waiting != Missing
      && (if step.TakeWait? then t.waitQ == s.waitQ[1..] && (t.waiting == Gone <==> s.waitQ[0] == NullWait)
          else t.waitQ == s.waitQ && WaitingLive(t))
  {
  }

  lemma SoundStep(s: State, step: Step)
    requires Sound(s) && Enabled(s, step)
    ensures Sound(Apply(s, step))
  {
    if WorkingStep(step) {
      WorkingEffect(s, step);
    } else if WaitingStep(step) {
      WaitingEffect(s, step);
    }
  }

  lemma {:induction false} SoundRun(s: State, steps: seq<Step>)
    requires Sound(s) && Allowed(s, steps)
    ensures Sound(Result(s, steps))
    decreases |steps|
  {
    if |steps| > 0 {
      SoundStep(s, steps[0]);
      SoundRun(Apply(s, steps[0]), steps[1..]);
    }
  }

  /** No work is queued, in a thread's hands or pending. */
  predicate Settled(s: State) {
    && |InTasks(s.workQ)| == 0 && |InWorking(s.working)| == 0
    && |InWaits(s.waitQ)| == 0 && |InHand(s.waiting)| == 0 && |s.pending| == 0
  }

  predicate NoStart(steps: seq<Step>) {
    forall i | 0 <= i < |steps| :: !steps[i].Start?
  }

  /** A stop, with whatever the threads do until the next start. */
  predicate IsStop(steps: seq<Step>) {
    |steps| > 0 && steps[0] == BeginStop && NoStart(steps[1..])
  }

  /** However the threads go on, the component is down with all works settled. */
  ghost predicate StopsClean(s: State) {
    forall steps | Allowed(s, steps) && IsStop(steps) && Result(s, steps).client == Down :: Settled(Result(s, steps))
  }

  // ---------- what no thread gets to

  /** The tasks that stay queued when nothing but a stop happens: a live thread gets to its
      first null command, a thread that is not there gets to none. */
  function Stranded(s: State): seq<WorkTask> {
    if WorkingLive(s) then Behind(s.workQ, NullTask) else s.workQ
  }

  function StrandedWaits(s: State): seq<WaitTask> {
    if WaitingLive(s) then Behind(s.waitQ, NullWait) else s.waitQ
  }

  /** The waiting thread gets to what is pushed next. */
  predicate WaitingOpen(s: State) {
    WaitingLive(s) && NullWait !in s.waitQ
  }

  /** What the thread has in hand may end in a push of a work. */
  predicate PushInHand(w: Working, pending: seq<Work>) {
    match w
    case Encoding(_) => true
    case Entering(_, output) => output
    case Counting(drain) => drain.Some? && (drain.value.Some? || |pending| > 0)
    case Draining(eos) => eos.Some? || |pending| > 0
    case DrainFailed(eos) => eos.Some?
    case _ => false
  }

  /** There are pending works for the next drain. */
  predicate PendsForDrain(w: Working, pending: seq<Work>) {
    match w
    case Idle => |pending| > 0
    case Counting(drain) => drain.None? && |pending| > 0
    case Entering(_, _) => true
    case _ => false
  }

  /** A task ahead of the first null command may push a work. */
  predicate PushAhead(q: seq<WorkTask>, pends: bool) {
    && |q| > 0
    && match q[0]
       case NullTask => false
       case DoWork(_) => true
       case DrainTask(eos) => eos.Some? || pends || PushAhead(q[1..], pends)
  }

  /** The working thread may push a work before it ends. */
  predicate PushComes(s: State) {
    && WorkingLive(s)
    && (PushInHand(s.working, s.pending) || PushAhead(s.workQ, PendsForDrain(s.working, s.pending)))
  }

  predicate TasksReady(s: State) {
    |InTasks(Stranded(s))| == 0
  }

  predicate WaitsReady(s: State) {
    |InWaits(StrandedWaits(s))| == 0 && (PushComes(s) ==> WaitingOpen(s))
  }

  lemma {:induction false} PushAheadSnoc(q: seq<WorkTask>, pends: bool)
    ensures PushAhead(q + [NullTask], pends) <==> PushAhead(q, pends)
  {
    if |q| > 0 {
      assert (q + [NullTask])[1..] == q[1..] + [NullTask];
      PushAheadSnoc(q[1..], pends);
    }
  }

  /** With pending works more tasks may push. */
  lemma {:induction false} PushAheadMore(q: seq<WorkTask>, pends: bool)
    requires PushAhead(q, pends)
    ensures PushAhead(q, true)
  {
    if !q[0].DoWork? && !q[0].eos.Some? && !pends {
      PushAheadMore(q[1..], pends);
    }
  }

  /** A null command more strands no work. */
  lemma NullStrands(q: seq<WorkTask>)
    ensures InTasks(Behind(q + [NullTask], NullTask)) == InTasks(Behind(q, NullTask))
    ensures InTasks(q + [NullTask]) == InTasks(q)
  {
    BehindSnoc(q, NullTask, NullTask);
    TasksSnoc(q, NullTask);
    TasksSnoc(Behind(q, NullTask), NullTask);
    assert InTasks(q) + [] == InTasks(q) && InTasks(Behind(q, NullTask)) + [] == InTasks(Behind(q, NullTask));
    if NullTask !in q {
      BehindNone(q, NullTask);
    }
  }

  lemma NullWaitHolds(q: seq<WaitTask>)
    ensures InWaits(q + [NullWait]) == InWaits(q)
  {
    WaitsSnoc(q, NullWait);
    assert InWaits(q) + [] == InWaits(q);
  }

  lemma NullWaitStrands(q: seq<WaitTask>)
    ensures InWaits(Behind(q + [NullWait], NullWait)) == InWaits(Behind(q, NullWait))
    ensures InWaits(q + [NullWait]) == InWaits(q)
  {
    BehindSnoc(q, NullWait, NullWait);
    NullWaitHolds(q);
    NullWaitHolds(Behind(q, NullWait));
    if NullWait !in q {
      BehindNone(q, NullWait);
    }
  }

  /** What is pushed for the waiting thread is stranded unless the thread gets to it. */
  lemma PushedWait(s: State, t: WaitTask)
    ensures InWaits(StrandedWaits(s.(waitQ := s.waitQ + [t])))
         == InWaits(StrandedWaits(s)) + if WaitingOpen(s) then [] else InWait(t)
  {
    BehindSnoc(s.waitQ, NullWait, t);
    WaitsSnoc(s.waitQ, t);
    WaitsSnoc(Behind(s.waitQ, NullWait), t);
    if NullWait !in s.waitQ {
      BehindNone(s.waitQ, NullWait);
    }
  }

  // ---------- a stop keeps them

  predicate Stopping(c: Client) {
    c == StopWorking || c == StopWaiting || c == StopJoining || c == StopPending || c == Down
  }

  /** Tasks stay stranded, and no others get stranded; waits stay so. */
  predicate Kept(s: State, t: State) {
    InTasks(Stranded(t)) == InTasks(Stranded(s)) && InWaits(StrandedWaits(s)) <= InWaits(StrandedWaits(t))
  }

  /** What a step of the working thread pushes: one task, or a frame and nothing else. */
  function Pushes(s: State, step: Step): seq<WaitTask>
    requires Enabled(s, step)
  {
    match step
    case RetainFrame(_) => [Retain]
    case Enter => if s.working.output then [WaitWork((s.pending + [s.working.w])[0])] else []
    case DrainOutput => [WaitWork(s.pending[0])]
    case DrainEnd => if s.working.eos.Some? then [EosTask(s.working.eos.value)] else []
    case PushEos => if s.working.eos.Some? then [EosTask(s.working.eos.value)] else []
    case _ => []
  }

  lemma PushesAre(s: State, step: Step)
    requires WorkingStep(step) && Enabled(s, step)
    ensures Apply(s, step).waitQ == s.waitQ + Pushes(s, step)
    ensures |Pushes(s, step)| > 0 && Pushes(s, step)[0] != Retain ==> PushInHand(s.working, s.pending)
    ensures |Pushes(s, step)| > 0 ==> Pushes(s, step)[0] != NullWait
  {
    assert s.waitQ + [] == s.waitQ;
  }

  /** A push comes only where one was to come. */
  lemma PushStaysAhead(s: State, step: Step)
    requires WorkingStep(step) && Enabled(s, step)
    ensures PushComes(Apply(s, step)) ==> PushComes(s)
  {
    var t := Apply(s, step);
    WorkingEffect(s, step);
    if PushAhead(t.workQ, PendsForDrain(t.working, t.pending)) {
      PushAheadMore(t.workQ, PendsForDrain(t.working, t.pending));
    }
  }

  lemma WorkingKept(s: State, step: Step)
    requires WorkingStep(step) && Enabled(s, step)
    ensures Kept(s, Apply(s, step))
    ensures WaitsReady(s) ==> WaitsReady(Apply(s, step))
  {
    var t := Apply(s, step);
    WorkingEffect(s, step);
    PushesAre(s, step);
    assert StrandedWaits(s.(waitQ := t.waitQ)) == StrandedWaits(t);
    if |Pushes(s, step)| > 0 {
      assert Pushes(s, step) == [Pushes(s, step)[0]];
      PushedWait(s, Pushes(s, step)[0]);
    } else {
      assert t.waitQ == s.waitQ + [] == s.waitQ;
    }
    PushStaysAhead(s, step);
  }

  lemma WaitingKept(s: State, step: Step)
    requires WaitingStep(step) && Enabled(s, step)
    ensures Kept(s, Apply(s, step))
    ensures WaitsReady(s) ==> WaitsReady(Apply(s, step))
  {
    WaitingEffect(s, step);
    if step.TakeWait? {
      assert s.waitQ == [s.waitQ[0]] + s.waitQ[1..];
    }
  }

  lemma BeginKept(s: State)
    requires Enabled(s, BeginStop)
    ensures Kept(s, Apply(s, BeginStop))
    ensures PushComes(Apply(s, BeginStop)) <==> PushComes(s)
  {
    NullStrands(s.workQ);
    PushAheadSnoc(s.workQ, PendsForDrain(s.working, s.pending));
  }

  lemma ClientKept(s: State, step: Step)
    requires Sound(s) && Stopping(s.client) && Enabled(s, step)
    requires !step.Start? && !WorkingStep(step) && !WaitingStep(step)
    ensures Kept(s, Apply(s, step)) && Stopping(Apply(s, step).client)
    ensures WaitsReady(s) ==> WaitsReady(Apply(s, step))
  {
    if step.BeginWaitingStop? {
      WaitingStopKept(s);
    }
  }

  /** The null command strands nothing: the working thread is gone, and no work is pushed. */
  lemma WaitingStopKept(s: State)
    requires Sound(s) && s.client == StopWaiting
    ensures var t := Apply(s, BeginWaitingStop);
      Kept(s, t) && t.client == StopJoining && (WaitsReady(s) ==> WaitsReady(t))
  {
    NullWaitStrands(s.waitQ);
  }

  lemma StepKept(s: State, step: Step)
    requires Sound(s) && Stopping(s.client) && Enabled(s, step) && !step.Start?
    ensures Kept(s, Apply(s, step)) && Stopping(Apply(s, step).client)
    ensures WaitsReady(s) ==> WaitsReady(Apply(s, step))
  {
    if WorkingStep(step) {
      WorkingEffect(s, step);
      WorkingKept(s, step);
    } else if WaitingStep(step) {
      WaitingEffect(s, step);
      WaitingKept(s, step);
    } else {
      ClientKept(s, step);
    }
  }

  lemma {:induction false} RunKept(s: State, steps: seq<Step>)
    requires Sound(s) && Stopping(s.client) && Allowed(s, steps) && NoStart(steps)
    ensures Kept(s, Result(s, steps)) && (WaitsReady(s) ==> WaitsReady(Result(s, steps)))
    decreases |steps|
  {
    if |steps| > 0 {
      StepKept(s, steps[0]);
      SoundStep(s, steps[0]);
      RunKept(Apply(s, steps[0]), steps[1..]);
    }
  }

  /** What a stop leaves queued: the works of the stranded tasks, and those of the stranded
      waits among others. */
  lemma StrandedLeft(s: State, steps: seq<Step>)
    requires Sound(s) && s.client == Ready && Allowed(s, steps) && IsStop(steps)
    ensures InTasks(Stranded(Result(s, steps))) == InTasks(Stranded(s))
    ensures InWaits(StrandedWaits(s)) <= InWaits(StrandedWaits(Result(s, steps)))
    ensures WaitsReady(s) ==> WaitsReady(Result(s, steps))
  {
    BeginKept(s);
    RunKept(Apply(s, steps[0]), steps[1..]);
  }

  lemma DownSettled(s: State)
    requires Sound(s) && s.client == Down && TasksReady(s) && WaitsReady(s)
    ensures Settled(s)
  {
  }

  // ---------- every stop can be finished

  lemma RunFrom(s: State, step: Step, rest: seq<Step>)
    requires Enabled(s, step) && Allowed(Apply(s, step), rest)
    ensures Allowed(s, [step] + rest) && Result(s, [step] + rest) == Result(Apply(s, step), rest)
  {
    assert ([step] + rest)[1..] == rest;
  }

  lemma {:induction false} Concat(s: State, a: seq<Step>, b: seq<Step>)
    requires Allowed(s, a) && Allowed(Result(s, a), b)
    ensures Allowed(s, a + b) && Result(s, a + b) == Result(Result(s, a), b)
    decreases |a|
  {
    if |a| == 0 {
      assert a + b == b;
    } else {
      Concat(Apply(s, a[0]), a[1..], b);
      RunFrom(s, a[0], a[1..] + b);
      assert a + b == [a[0]] + (a[1..] + b);
    }
  }

  /** A next step that brings the working thread nearer to its end, pushing what it can. */
  function NextWork(w: Working, pending: seq<Work>): Step {
    match w
    case Encoding(_) => RetainFrame(true)
    case Entering(_, _) => Enter
    case Counting(_) => Count
    case Draining(_) => if |pending| > 0 then DrainOutput else DrainEnd
    case DrainFailed(_) => PushEos
    case Dropping => if |pending| > 0 then DropOne else DropEnd
    case _ => Take
  }

  function WorkRank(w: Working, n: nat): nat {
    match w
    case Encoding(_) => 4
    case Entering(_, _) => 3
    case Counting(drain) => if drain.Some? then 2 * n + 2 else 1
    case Draining(_) => 2 * n + 1
    case DrainFailed(_) => n + 2
    case Dropping => n + 1
    case _ => 0
  }

  lemma WorkNext(s: State)
    requires WorkingLive(s) && (s.working == Idle ==> |s.workQ| > 0)
    ensures Enabled(s, NextWork(s.working, s.pending)) && WorkingStep(NextWork(s.working, s.pending))
    ensures var t := Apply(s, NextWork(s.working, s.pending));
      if s.working == Idle then |t.workQ| < |s.workQ|
      else t.workQ == s.workQ && WorkRank(t.working, |t.pending|) < WorkRank(s.working, |s.pending|)
  {
  }

  /** A work that comes while the waiting thread does not get to it, or one there already. */
  predicate WaitStranded(s: State) {
    |InWaits(StrandedWaits(s))| > 0 || (PushComes(s) && !WaitingOpen(s))
  }

  /** A push that comes is made by the next step, or still comes after it. */
  lemma PushNext(s: State)
    requires WorkingLive(s) && (s.working == Idle ==> |s.workQ| > 0) && PushComes(s)
    requires Enabled(s, NextWork(s.working, s.pending))
    ensures var step := NextWork(s.working, s.pending);
      (|Pushes(s, step)| > 0 && |InWait(Pushes(s, step)[0])| > 0) || PushComes(Apply(s, step))
  {
  }

  lemma WaitStrandedNext(s: State)
    requires WorkingLive(s) && (s.working == Idle ==> |s.workQ| > 0) && WaitStranded(s)
    requires Enabled(s, NextWork(s.working, s.pending)) && WorkingStep(NextWork(s.working, s.pending))
    ensures WaitStranded(Apply(s, NextWork(s.working, s.pending)))
  {
    var step := NextWork(s.working, s.pending);
    var t := Apply(s, step);
    WorkingKept(s, step);
    WorkingEffect(s, step);
    PushesAre(s, step);
    if |InWaits(StrandedWaits(s))| == 0 {
      PushNext(s);
      if |Pushes(s, step)| > 0 {
        PushedWait(s, Pushes(s, step)[0]);
        assert Pushes(s, step) == [Pushes(s, step)[0]];
        assert StrandedWaits(s.(waitQ := t.waitQ)) == StrandedWaits(t);
      } else {
        assert t.waitQ == s.waitQ + [] == s.waitQ;
      }
    }
  }

  /** The working thread runs to its first null command. */
  lemma {:induction false} ReachNull(s: State) returns (steps: seq<Step>)
    requires s.client == StopWorking && WorkingLive(s) && NullTask in s.workQ
    ensures Allowed(s, steps) && NoStart(steps)
    ensures Result(s, steps).client == s.client && Result(s, steps).working == Left
    ensures WaitStranded(s) ==> WaitStranded(Result(s, steps))
    decreases |s.workQ|, WorkRank(s.working, |s.pending|)
  {
    WorkNext(s);
    var step := NextWork(s.working, s.pending);
    var t := Apply(s, step);
    WorkingEffect(s, step);
    if WaitStranded(s) {
      WaitStrandedNext(s);
    }
    if t.working == Left {
      steps := [];
    } else {
      if s.working == Idle {
        FirstPopped(s.workQ, NullTask);
      }
      steps := ReachNull(t);
    }
    RunFrom(s, step, steps);
    steps := [step] + steps;
  }

  /** The waiting thread runs to its first null command. */
  lemma {:induction false} ReachNullWait(s: State) returns (steps: seq<Step>)
    requires s.client == StopJoining && WaitingLive(s) && NullWait in s.waitQ
    ensures Allowed(s, steps) && NoStart(steps)
    ensures Result(s, steps).client == StopJoining && Result(s, steps).waiting == Gone
    decreases |s.waitQ|, if s.waiting.Holding? then 1 else 0
  {
    var step := if s.waiting.Holding? then Notify else TakeWait;
    var t := Apply(s, step);
    if t.waiting == Gone {
      steps := [];
    } else {
      if s.waiting == Free {
        assert s.waitQ == [s.waitQ[0]] + s.waitQ[1..];
      }
      steps := ReachNullWait(t);
    }
    RunFrom(s, step, steps);
    steps := [step] + steps;
  }

  lemma {:induction false} ClearAll(s: State) returns (steps: seq<Step>)
    requires s.client == StopPending
    ensures Allowed(s, steps) && NoStart(steps) && Result(s, steps).client == Down
    decreases |s.pending|
  {
    var step := if |s.pending| > 0 then StopClear else EndStop;
    steps := [];
    if |s.pending| > 0 {
      steps := ClearAll(Apply(s, step));
    }
    RunFrom(s, step, steps);
    steps := [step] + steps;
  }

  lemma JoinWaits(s: State) returns (steps: seq<Step>)
    requires s.client == StopJoining && !WaitingLive(s)
    ensures Allowed(s, steps) && NoStart(steps) && Result(s, steps).client == Down
  {
    steps := ClearAll(Apply(s, JoinWaiting));
    RunFrom(s, JoinWaiting, steps);
    steps := [JoinWaiting] + steps;
  }

  lemma FinishWaiting(s: State) returns (steps: seq<Step>)
    requires s.client == StopWaiting
    ensures Allowed(s, steps) && NoStart(steps) && Result(s, steps).client == Down
  {
    var t := Apply(s, BeginWaitingStop);
    assert t.waitQ[|s.waitQ|] == NullWait;
    if WaitingLive(t) {
      steps := ReachNullWait(t);
      var rest := JoinWaits(Result(t, steps));
      Concat(t, steps, rest);
      steps := steps + rest;
    } else {
      steps := JoinWaits(t);
    }
    RunFrom(s, BeginWaitingStop, steps);
    steps := [BeginWaitingStop] + steps;
  }

  lemma JoinWorks(s: State) returns (steps: seq<Step>)
    requires s.client == StopWorking && !WorkingLive(s)
    ensures Allowed(s, steps) && NoStart(steps) && Result(s, steps).client == Down
  {
    var rest := FinishWaiting(Apply(s, JoinWorking));
    RunFrom(s, JoinWorking, rest);
    steps := [JoinWorking] + rest;
  }

  lemma FinishWorking(s: State) returns (steps: seq<Step>)
    requires Sound(s) && s.client == StopWorking && (WorkingLive(s) ==> NullTask in s.workQ)
    ensures Allowed(s, steps) && NoStart(steps) && Result(s, steps).client == Down
    ensures WaitStranded(s) ==> |InWaits(StrandedWaits(Result(s, steps)))| > 0
  {
    steps := [];
    if WorkingLive(s) {
      steps := ReachNull(s);
    }
    var t := Result(s, steps);
    SoundRun(s, steps);
    var rest := JoinWorks(t);
    Concat(s, steps, rest);
    RunKept(t, rest);
    steps := steps + rest;
  }

  /** Every stop has a run in which the component goes down, with a work left for the waiting
      thread if one may get stranded. */
  lemma StopFinishes(s: State) returns (steps: seq<Step>)
    requires Sound(s) && s.client == Ready
    ensures Allowed(s, steps) && IsStop(steps) && Result(s, steps).client == Down
    ensures WaitStranded(s) ==> |InWaits(StrandedWaits(Result(s, steps)))| > 0
  {
    var t := Apply(s, BeginStop);
    BeginKept(s);
    assert t.workQ[|s.workQ|] == NullTask;
    var rest := FinishWorking(t);
    RunFrom(s, BeginStop, rest);
    steps := [BeginStop] + rest;
  }

  // ---------- the exact condition

  lemma SettledExact(s: State)
    requires Sound(s) && s.client == Ready
    ensures StopsClean(s) <==> TasksReady(s) && WaitsReady(s)
  {
    if TasksReady(s) && WaitsReady(s) {
      forall steps | Allowed(s, steps) && IsStop(steps) && Result(s, steps).client == Down
        ensures Settled(Result(s, steps))
      {
        StrandedLeft(s, steps);
        SoundRun(s, steps);
        DownSettled(Result(s, steps));
      }
    } else {
      var steps := StopFinishes(s);
      SoundRun(s, steps);
      StrandedLeft(s, steps);
      assert !Settled(Result(s, steps));
    }
  }

  /** In every state a run reaches a stop is sure to leave no work behind exactly when none is
      stranded in either queue and none can get stranded. */
  lemma StopExact(before: seq<Step>)
    requires Allowed(INITIAL, before) && Result(INITIAL, before).client == Ready
    ensures StopsClean(Result(INITIAL, before))
      <==> TasksReady(Result(INITIAL, before)) && WaitsReady(Result(INITIAL, before))
  {
    SoundRun(INITIAL, before);
    SettledExact(Result(INITIAL, before));
  }

  /** After such a stop every accepted work was answered directly, dropped with an error or
      delivered, once in all, and no other work was. */
  lemma StopAnswers(before: seq<Step>, stop: seq<Step>, w: Work)
    requires Allowed(INITIAL, before) && Result(INITIAL, before).client == Ready
    requires TasksReady(Result(INITIAL, before)) && WaitsReady(Result(INITIAL, before))
    requires Allowed(Result(INITIAL, before), stop) && IsStop(stop)
    requires Result(Result(INITIAL, before), stop).client == Down
    ensures var r := Result(Result(INITIAL, before), stop);
      Times(r.direct, w) + Times(Dropped(r.exits), w) + Times(r.delivered, w) == if w in r.accepted then 1 else 0
  {
    Concat(INITIAL, before, stop);
    StopExact(before);
    var r := Result(INITIAL, before + stop);
    assert Settled(r);
    ExactlyOnePlace(before + stop, w);
  }

  /** A start whose session set-up failed starts no threads, and a stop then leaves the works
      queued since unanswered. */
  lemma UnstartedStop(w: Work) returns (before: seq<Step>)
    requires !w.empty && !w.eos
    ensures Allowed(INITIAL, before)
    ensures Result(INITIAL, before).client == Ready && Result(INITIAL, before).workQ == [DoWork(w)]
    ensures !StopsClean(Result(INITIAL, before))
  {
    var s1 := Apply(INITIAL, Start(false));
    RunFrom(s1, QueueWork(w), []);
    RunFrom(INITIAL, Start(false), [QueueWork(w)] + []);
    before := [Start(false)] + ([QueueWork(w)] + []);
    assert [] + [DoWork(w)] == [DoWork(w)];
    assert InTasks([DoWork(w)]) == [w] + InTasks([]);
    StopExact(before);
  }
}
