/** How the threads of the decoder keep in step: the queues, the flush, the counter and the
    stop, over runs in which a component is stopped only after its threads were started. */
module DecoderBounds {
  import opened DecoderPipeline
  import opened DecoderConservation

  /** The decoder is stopped only if the session was set up, so that DoStart started both
      threads. */
  predicate Disciplined(s: State, step: Step) {
    step.C? && step.c.BeginStop? ==> s.working != Absent
  }

  predicate AllDisciplined(s: State, steps: seq<Step>)
    requires Allowed(s, steps)
    decreases |steps|
  {
    |steps| == 0 || (Disciplined(s, steps[0]) && AllDisciplined(Apply(s, steps[0]), steps[1..]))
  }

  // ---------- the queues

  /** No null command, except at the end when one has to be there. */
  predicate WorkEnds(q: seq<WorkTask>, closed: bool) {
    && (closed ==> |q| > 0 && q[|q| - 1] == NullTask)
    && forall k | 0 <= k < if closed then |q| - 1 else |q| :: q[k] != NullTask
  }

  predicate WaitEnds(q: seq<WaitTask>, closed: bool) {
    && (closed ==> |q| > 0 && q[|q| - 1] == NullWait)
    && forall k | 0 <= k < if closed then |q| - 1 else |q| :: q[k] != NullWait
  }

  predicate WorkingLive(s: State) {
    s.working != Absent && s.working != Left
  }

  predicate WaitingLive(s: State) {
    s.waiting != Missing && s.waiting != Gone
  }

  /** The waiting thread is there with no null command ahead, or is being stopped, or is gone
      with an empty queue; or neither thread was started. */
  predicate WaitingInLane(s: State) {
    match s.client
    case Down => s.working == Absent && s.waiting == Missing && |s.waitQ| == 0
    case StopWorking(_) => s.working != Absent && WaitingLive(s) && WaitEnds(s.waitQ, false)
    case StopWaiting(_) => s.working == Absent && WaitingLive(s) && WaitEnds(s.waitQ, false)
    case StopJoining =>
      && s.working == Absent
      && if WaitingLive(s) then WaitEnds(s.waitQ, true) else s.waiting == Gone && |s.waitQ| == 0
    case StopPending => s.working == Absent && s.waiting == Missing && |s.waitQ| == 0
    case _ =>
      if s.working == Absent then s.waiting == Missing && |s.waitQ| == 0
      else WaitingLive(s) && WaitEnds(s.waitQ, false)
  }

  /** The same for the working thread. */
  predicate WorkingInLane(s: State) {
    match s.client
    case StopWorking(_) => if WorkingLive(s) then WorkEnds(s.workQ, true) else |s.workQ| == 0
    case Down => |s.workQ| == 0
    case StopWaiting(_) => |s.workQ| == 0
    case StopJoining => |s.workQ| == 0
    case StopPending => |s.workQ| == 0
    case _ => WorkEnds(s.workQ, false) && s.working != Left
  }

  predicate InStep(s: State) {
    WaitingInLane(s) && WorkingInLane(s)
  }

  lemma ClientInLane(s: State, c: ClientStep)
    requires WaitingInLane(s) && ClientEnabled(s, c) && Disciplined(s, C(c))
    ensures WaitingInLane(ClientApply(s, c))
  {
  }

  lemma ClientInStep(s: State, c: ClientStep)
    requires InStep(s) && ClientEnabled(s, c) && Disciplined(s, C(c))
    ensures InStep(ClientApply(s, c))
  {
    ClientInLane(s, c);
  }

  /** What a step of the working thread pushes for the waiting thread. */
  function Pushes(s: State, w: WorkingStep): seq<WaitTask>
    requires WorkingEnabled(s, w)
  {
    if w.Output? then [WaitWork]
    else if w.Leave? && s.working.job.Drain? && s.working.job.eos.Some? then [EosTask(s.working.job.eos.value)]
    else []
  }

  /** What steps of the working thread change and what they leave alone. */
  lemma WorkingEffect(s: State, w: WorkingStep)
    requires WorkingEnabled(s, w)
    ensures var t := WorkingApply(s, w);
      && t.client == s.client && t.waiting == s.waiting && t.lost == s.lost && t.depth == s.depth &&
        t.aborted == s.aborted
      && t.waitQ == s.waitQ + Pushes(s, w) && t.synced == s.synced + (if w.Increment? then 1 else 0)
      && WorkingLive(s) && (t.working.Counting? <==> w.Output?) && (t.working.Gated? <==> w.Gate?)
      && (if w.Take? then
            t.workQ == s.workQ[1..] && t.working != Absent && (t.working == Left <==> s.workQ[0] == NullTask)
          else t.workQ == s.workQ && WorkingLive(t))
  {
    assert s.waitQ + [] == s.waitQ;
    if w.Take? {
      TakeEffect(s, w.initialized);
    }
  }

  lemma TakeEffect(s: State, initialized: bool)
    requires WorkingEnabled(s, Take(initialized))
    ensures var t := Taken(s, initialized);
      && t.client == s.client && t.waiting == s.waiting && t.lost == s.lost && t.depth == s.depth &&
        t.aborted == s.aborted
      && t.waitQ == s.waitQ && t.synced == s.synced && !t.working.Counting? && !t.working.Gated?
      && t.workQ == s.workQ[1..] && t.working != Absent && (t.working == Left <==> s.workQ[0] == NullTask)
  {
  }

  lemma WorkEndsPopped(q: seq<WorkTask>, closed: bool)
    requires |q| > 0 && WorkEnds(q, closed)
    ensures q[0] == NullTask ==> closed && |q[1..]| == 0
    ensures q[0] != NullTask ==> WorkEnds(q[1..], closed)
  {
  }

  lemma WaitEndsPopped(q: seq<WaitTask>, closed: bool)
    requires |q| > 0 && WaitEnds(q, closed)
    ensures q[0] == NullWait ==> closed && |q[1..]| == 0
    ensures q[0] != NullWait ==> WaitEnds(q[1..], closed)
  {
  }

  lemma WorkingKeepsLane(s: State, w: WorkingStep)
    requires WaitingInLane(s) && WorkingEnabled(s, w)
    ensures WaitingInLane(WorkingApply(s, w))
  {
    WorkingEffect(s, w);
    assert WaitEnds(s.waitQ, false) ==> WaitEnds(s.waitQ + Pushes(s, w), false);
  }

  lemma WorkingInStep(s: State, w: WorkingStep)
    requires InStep(s) && WorkingEnabled(s, w)
    ensures InStep(WorkingApply(s, w))
  {
    WorkingKeepsLane(s, w);
    WorkingEffect(s, w);
    if w.Take? {
      WorkEndsPopped(s.workQ, s.client.StopWorking?);
    }
  }

  lemma WaitingEffect(s: State, a: WaitingStep)
    requires WaitingEnabled(s, a)
    ensures var t := WaitingApply(s, a);
      && t.client == s.client && t.working == s.working && t.lost == s.lost && t.depth == s.depth && t.workQ == s.workQ
      && t.aborted == s.aborted && t.synced == s.synced - (if a.Decrement? then 1 else 0) && WaitingLive(s) &&
        t.waiting != Missing
      && (if a.TakeWait? then t.waitQ == s.waitQ[1..] && (t.waiting == Gone <==> s.waitQ[0] == NullWait)
            && (t.waiting.Syncing? <==> s.waitQ[0].WaitWork?) && !t.waiting.Matched? && !t.waiting.Leaving?
          else t.waitQ == s.waitQ && WaitingLive(t))
  {
  }

  lemma WaitingKeepsLane(s: State, a: WaitingStep)
    requires WaitingInLane(s) && WaitingEnabled(s, a)
    ensures WaitingInLane(WaitingApply(s, a))
  {
    WaitingEffect(s, a);
    if a.TakeWait? {
      WaitEndsPopped(s.waitQ, s.client == StopJoining);
    }
  }

  lemma WaitingInStep(s: State, a: WaitingStep)
    requires InStep(s) && WaitingEnabled(s, a)
    ensures InStep(WaitingApply(s, a))
  {
    WaitingKeepsLane(s, a);
    WaitingEffect(s, a);
  }

  // ---------- the counter

  /** Outputs queued or being waited for. */
  function Outstanding(s: State): nat {
    Waits(s.waitQ) + if s.waiting.Syncing? || s.waiting.Matched? || s.waiting.Leaving? then 1 else 0
  }

  function Uncounted(s: State): nat {
    if s.working.Counting? then 1 else 0
  }

  /** The counter is the number of outstanding outputs but for the one about to be counted
      and those an abort dropped, and there are never more than AsyncDepth of them. */
  predicate Counted(s: State) {
    && s.synced == Outstanding(s) + s.lost - Uncounted(s)
    && (WorkingLive(s) ==> s.lost == 0)
    && Outstanding(s) <= s.depth
    && (s.working.Gated? ==> Outstanding(s) < s.depth)
  }

  lemma WaitsNonNull(q: seq<WaitTask>)
    ensures |q| == 0 ==> Waits(q) == 0
    ensures |q| > 0 ==> Waits(q) == Waits(q[1..]) + if q[0].WaitWork? then 1 else 0
  {
  }

  lemma {:induction false} WaitsSnoc(q: seq<WaitTask>, t: WaitTask)
    ensures Waits(q + [t]) == Waits(q) + if t.WaitWork? then 1 else 0
  {
    WaitsNonNull(q + [t]);
    if |q| == 0 {
      assert (q + [t])[1..] == [];
    } else {
      WaitsSnoc(q[1..], t);
      assert (q + [t])[1..] == q[1..] + [t];
    }
  }

  /** Only a start, which sets the counter to 0, counts on the waiting queue to be empty. */
  lemma ClientCounted(s: State, c: ClientStep)
    requires Counted(s) && ClientEnabled(s, c)
    requires s.client.StopWaiting? || s.client == Down ==> s.working == Absent
    requires c.Start? ==> s.waiting == Missing && Waits(s.waitQ) == 0
    ensures Counted(ClientApply(s, c))
  {
    if c.BeginWaitingStop? {
      WaitsSnoc(s.waitQ, NullWait);
      WaitsSnoc([], NullWait);
    } else if c.Start? {
      WaitsNonNull(s.waitQ);
    } else {
      ClientEffect(s, c);
    }
  }

  lemma ClientEffect(s: State, c: ClientStep)
    requires ClientEnabled(s, c) && !c.BeginWaitingStop? && !c.Start?
    ensures var t := ClientApply(s, c);
      && t.waitQ == s.waitQ && t.synced == s.synced && t.lost == s.lost && t.depth == s.depth
      && (c.JoinWorking? || t.working == s.working) && (c.JoinWorking? ==> t.working == Absent && !WorkingLive(s))
      && (c.JoinWaiting? || t.waiting == s.waiting) && (c.JoinWaiting? ==> t.waiting == Missing && !WaitingLive(s))
  {
  }

  lemma WorkingCounted(s: State, w: WorkingStep)
    requires Counted(s) && WorkingEnabled(s, w) && s.depth < 0x1_0000_0000
    ensures Counted(WorkingApply(s, w))
  {
    WorkingEffect(s, w);
    assert s.waitQ + [] == s.waitQ;
    if |Pushes(s, w)| > 0 {
      WaitsSnoc(s.waitQ, Pushes(s, w)[0]);
      assert Pushes(s, w) == [Pushes(s, w)[0]];
    }
  }

  lemma WaitingCounted(s: State, a: WaitingStep)
    requires Counted(s) && WaitingEnabled(s, a)
    ensures Counted(WaitingApply(s, a))
  {
    WaitingEffect(s, a);
    WaitsNonNull(s.waitQ);
  }

  // ---------- flushing

  /** The thread goes by a flush that it saw. */
  predicate Tainted(w: Working) {
    (w.Finish? && w.flushing) || (w.Held? && w.flushing)
  }

  predicate AtRest(s: State) {
    |s.workQ| == 0 && (s.working == Idle || s.working == Resetting)
  }

  /** Works get flushed only between the begin of a flush and its return: the reset is the
      last task queued, so once the queue was seen empty the thread is at rest. */
  predicate FlushInStep(s: State) {
    match s.client
    case FlushSet => s.flushing
    case FlushPushed => s.flushing && (AtRest(s) || (|s.workQ| > 0 && s.workQ[|s.workQ| - 1] == ResetTask))
    case FlushWorked => s.flushing && AtRest(s)
    case FlushWaited => s.flushing && AtRest(s)
    case FlushCleared => !s.flushing && AtRest(s)
    case FlushMoved => !s.flushing && AtRest(s)
    case _ => !s.flushing && |s.flushed| == 0 && !Tainted(s.working)
  }

  lemma ClientFlush(s: State, c: ClientStep)
    requires FlushInStep(s) && ClientEnabled(s, c)
    ensures FlushInStep(ClientApply(s, c))
  {
  }

  lemma TakeFlush(s: State, initialized: bool)
    requires FlushInStep(s) && WorkingEnabled(s, Take(initialized))
    ensures FlushInStep(Taken(s, initialized))
  {
    var t := Taken(s, initialized);
    assert t.client == s.client && t.flushing == s.flushing && !Tainted(t.working);
    assert !s.flushing ==> t.flushed == s.flushed;
    assert t.workQ == s.workQ[1..];
    assert s.workQ[0] == ResetTask ==> t.working == Resetting;
  }

  /** Without a flush nothing is flushed. */
  lemma WorkingFlushEffect(s: State, w: WorkingStep)
    requires WorkingEnabled(s, w) && !w.Take?
    ensures var t := WorkingApply(s, w);
      && t.client == s.client && t.flushing == s.flushing && t.workQ == s.workQ
      && (!s.flushing && !Tainted(s.working) ==> t.flushed == s.flushed && !Tainted(t.working))
      && (s.working == Idle || s.working == Resetting ==> t.working == Idle)
  {
  }

  lemma WorkingFlush(s: State, w: WorkingStep)
    requires FlushInStep(s) && WorkingEnabled(s, w)
    ensures FlushInStep(WorkingApply(s, w))
  {
    if w.Take? {
      TakeFlush(s, w.initialized);
    } else {
      WorkingFlushEffect(s, w);
    }
  }

  lemma WaitingFlush(s: State, a: WaitingStep)
    requires FlushInStep(s) && WaitingEnabled(s, a)
    ensures FlushInStep(WaitingApply(s, a))
  {
    var t := WaitingApply(s, a);
    WaitingEffect(s, a);
    assert t.flushing == s.flushing && t.flushed == s.flushed;
  }

  /** A component that is down has nothing pending. */
  predicate DownClear(s: State) {
    s.client == Down ==> |s.pending| == 0
  }

  // ---------- all runs

  predicate Inv(s: State) {
    InStep(s) && Counted(s) && FlushInStep(s) && DownClear(s) && s.depth < 0x1_0000_0000
  }

  lemma ClientInv(s: State, c: ClientStep)
    requires Inv(s) && ClientEnabled(s, c) && Disciplined(s, C(c))
    ensures Inv(ClientApply(s, c))
  {
    ClientInStep(s, c);
    ClientCounted(s, c);
    ClientFlush(s, c);
    assert ClientApply(s, c).depth == s.depth;
    assert DownClear(ClientApply(s, c));
  }

  lemma WorkingInv(s: State, w: WorkingStep)
    requires Inv(s) && WorkingEnabled(s, w)
    ensures Inv(WorkingApply(s, w))
  {
    WorkingInStep(s, w);
    WorkingCounted(s, w);
    WorkingFlush(s, w);
    WorkingEffect(s, w);
  }

  lemma WaitingInv(s: State, a: WaitingStep)
    requires Inv(s) && WaitingEnabled(s, a)
    ensures Inv(WaitingApply(s, a))
  {
    WaitingInStep(s, a);
    WaitingCounted(s, a);
    WaitingFlush(s, a);
    WaitingEffect(s, a);
  }

  lemma InvStep(s: State, step: Step)
    requires Inv(s) && Enabled(s, step) && Disciplined(s, step)
    ensures Inv(Apply(s, step))
  {
    match step
    case C(c) => ClientInv(s, c);
    case W(w) => WorkingInv(s, w);
    case A(a) => WaitingInv(s, a);
  }

  lemma {:induction false} InvRun(s: State, steps: seq<Step>)
    requires Inv(s) && Allowed(s, steps) && AllDisciplined(s, steps)
    ensures Inv(Result(s, steps))
    decreases |steps|
  {
    if |steps| > 0 {
      InvStep(s, steps[0]);
      InvRun(Apply(s, steps[0]), steps[1..]);
    }
  }

  /** Every run begins in step. */
  lemma InvInitially(depth: nat)
    requires depth < 0x1_0000_0000
    ensures Inv(Initial(depth))
  {
  }

  /** An aborted stop. */
  predicate Aborts(steps: seq<Step>) {
    C(BeginStop(true)) in steps
  }

  lemma {:induction false} NotAborted(s: State, steps: seq<Step>)
    requires Allowed(s, steps) && !Aborts(steps) && |s.aborted| == 0 && s.client != StopWorking(true) &&
      s.client != StopWaiting(true)
    ensures |Result(s, steps).aborted| == 0
    decreases |steps|
  {
    if |steps| > 0 {
      assert steps[0] in steps;
      NotAbortedStep(s, steps[0]);
      NotAborted(Apply(s, steps[0]), steps[1..]);
    }
  }

  lemma NotAbortedStep(s: State, step: Step)
    requires Enabled(s, step) && step != C(BeginStop(true)) && |s.aborted| == 0
    requires s.client != StopWorking(true) && s.client != StopWaiting(true)
    ensures var t := Apply(s, step); |t.aborted| == 0 && t.client != StopWorking(true) && t.client != StopWaiting(true)
  {
    match step
    case C(c) =>
      assert ClientApply(s, c).aborted == s.aborted;
    case W(w) => WorkingEffect(s, w);
    case A(a) => WaitingEffect(s, a);
  }

  // ---------- what the discipline is for

  const STOP: seq<Step> :=
    [C(BeginStop(false)), C(JoinWorking), C(BeginWaitingStop), C(JoinWaiting), C(ClearPending)]

  lemma RunFrom(s: State, step: Step, rest: seq<Step>)
    requires Enabled(s, step) && Allowed(Apply(s, step), rest)
    ensures Allowed(s, [step] + rest) && Result(s, [step] + rest) == Result(Apply(s, step), rest)
  {
    assert ([step] + rest)[1..] == rest;
  }

  lemma UnstartedWaitingStop(s: State)
    requires s.client == StopWaiting(false) && s.waiting == Missing
    ensures Allowed(s, STOP[2..])
    ensures var r := Result(s, STOP[2..]);
      && r.client == Down && r.workQ == s.workQ && r.waitQ == s.waitQ + [NullWait]
      && r.working == s.working && r.accepted == s.accepted
      && r.returned == s.returned && r.aborted == s.aborted + [] && r.notified == s.notified + s.pending
  {
    var s3 := Apply(s, C(BeginWaitingStop));
    var s4 := Apply(s3, C(JoinWaiting));
    RunFrom(s4, C(ClearPending), []);
    RunFrom(s3, C(JoinWaiting), STOP[4..]);
    RunFrom(s, C(BeginWaitingStop), STOP[3..]);
  }

  /** Stopping a component whose threads were never started leaves its queued works queued,
      and a null command in both queues. */
  lemma UnstartedStop(s: State)
    requires s.client == Ready && s.working == Absent && s.waiting == Missing
    ensures Allowed(s, STOP)
    ensures var r := Result(s, STOP);
      && r.client == Down && r.workQ == s.workQ + [NullTask] && r.waitQ == s.waitQ + [NullWait]
      && r.working == Absent && r.accepted == s.accepted
      && r.returned == s.returned && r.aborted == s.aborted && r.notified == s.notified + s.pending
  {
    var s1 := Apply(s, C(BeginStop(false)));
    var s2 := Apply(s1, C(JoinWorking));
    assert s.aborted + [] + [] == s.aborted;
    UnstartedWaitingStop(s2);
    RunFrom(s1, C(JoinWorking), STOP[2..]);
    RunFrom(s, C(BeginStop(false)), STOP[1..]);
  }
}
