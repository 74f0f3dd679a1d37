/** The end of the encoder's stream: the work that ends it is followed by a drain, and the drain
    leaves no work behind. */
module EncoderEos {
  import opened EncoderPipeline
  import opened EncoderOrder
  import opened EncoderDelivery
  import opened EncoderStops

  /** A work with data that ends the stream. */
  predicate EndsStream(t: WorkTask) {
    t.DoWork? && t.w.eos
  }

  /** What may be at i: a work with data, behind it a drain if it ends the stream; an empty work
      that ends the stream; a drain behind a work that does; a null command. The client may
      be about to push the last drain. */
  predicate TaskFits(q: seq<WorkTask>, i: nat, open: bool)
    requires i < |q|
  {
    match q[i]
    case DoWork(w) => !w.empty && (w.eos ==> if i + 1 < |q| then q[i + 1] == DrainTask(None) else open)
    case DrainTask(eos) => if eos.Some? then eos.value.eos && eos.value.empty else i == 0 || EndsStream(q[i - 1])
    case NullTask => true
  }

  ghost predicate QueueFits(q: seq<WorkTask>, open: bool) {
    && (forall i | 0 <= i < |q| :: TaskFits(q, i, open))
    && (open && |q| > 0 ==> EndsStream(q[|q| - 1]))
  }

  ghost predicate TasksFit(s: State) {
    QueueFits(s.workQ, s.client == QueuedEos)
  }

  /** While the client is to push a drain it pushes nothing else. */
  lemma FitsSnoc(q: seq<WorkTask>, open: bool, t: WorkTask)
    requires QueueFits(q, open) && (open <==> t == DrainTask(None))
    requires match t
             case DoWork(w) => !w.empty
             case DrainTask(eos) => eos.Some? ==> eos.value.eos && eos.value.empty
             case NullTask => true
    ensures QueueFits(q + [t], EndsStream(t))
  {
    var r := q + [t];
    forall i | 0 <= i < |r|
      ensures TaskFits(r, i, EndsStream(t))
    {
      if i < |q| {
        assert TaskFits(q, i, open);
      }
    }
  }

  lemma FitsPopped(q: seq<WorkTask>, open: bool)
    requires |q| > 0 && QueueFits(q, open)
    ensures QueueFits(q[1..], open) && TaskFits(q, 0, open)
  {
    var r := q[1..];
    forall i | 0 <= i < |r|
      ensures TaskFits(r, i, open)
    {
      assert TaskFits(q, i + 1, open);
    }
  }

  /** The next task is the drain, or it is about to be pushed. */
  predicate DrainNext(s: State) {
    if |s.workQ| > 0 then s.workQ[0] == DrainTask(None) else s.client == QueuedEos
  }

  /** The last work taken ended the stream. */
  predicate TakenToEnd(s: State) {
    |s.taken| > 0 && s.taken[|s.taken| - 1].eos
  }

  /** Then the drain comes next, or is under way, or has left nothing pending. */
  predicate Drains(s: State) {
    match s.working
    case Encoding(_) => DrainNext(s)
    case Entering(_, _) => DrainNext(s)
    case Counting(drain) => drain.Some? || DrainNext(s)
    case Idle => DrainNext(s) || |s.pending| == 0
    case Left => |s.pending| == 0
    case Absent => |s.pending| == 0
    case _ => true
  }

  ghost predicate EosInv(s: State) {
    TasksFit(s) && (TakenToEnd(s) ==> Drains(s))
  }

  lemma PushFits(s: State, step: Step)
    requires TasksFit(s) && Enabled(s, step) && !step.Take?
    ensures TasksFit(Apply(s, step))
  {
    match step
    case QueueWork(w) =>
      if !w.empty {
        FitsSnoc(s.workQ, false, DoWork(w));
      } else if w.eos {
        FitsSnoc(s.workQ, false, DrainTask(Some(w)));
      }
    case QueueDrain => FitsSnoc(s.workQ, true, DrainTask(None));
    case BeginStop => FitsSnoc(s.workQ, false, NullTask);
    case _ =>
  }

  lemma TakeDrains(s: State)
    requires EosInv(s) && Enabled(s, Take)
    ensures var t := Apply(s, Take); TakenToEnd(t) ==> Drains(t)
  {
    FitsPopped(s.workQ, s.client == QueuedEos);
    assert s.taken + [] == s.taken;
  }

  lemma OthersDrain(s: State, step: Step)
    requires EosInv(s) && Enabled(s, step) && !step.Take?
    ensures var t := Apply(s, step); TakenToEnd(t) ==> Drains(t)
  {
    if WorkingStep(step) {
      WorkerDrains(s, step);
    } else {
      RestDrains(s, step);
    }
  }

  /** What the thread does between two takes. */
  lemma WorkerDrains(s: State, step: Step)
    requires Enabled(s, step) && WorkingStep(step) && !step.Take?
    ensures var t := Apply(s, step); t.taken == s.taken && (Drains(s) ==> Drains(t))
  {
  }

  /** The others may push behind a drain or the end of the stream, and clear what is pending. */
  lemma RestDrains(s: State, step: Step)
    requires TasksFit(s) && Enabled(s, step) && !WorkingStep(step)
    ensures var t := Apply(s, step); t.taken == s.taken && (Drains(s) ==> Drains(t))
  {
  }

  lemma {:induction false} EosRun(s: State, steps: seq<Step>)
    requires EosInv(s) && Allowed(s, steps)
    ensures EosInv(Result(s, steps))
    decreases |steps|
  {
    if |steps| > 0 {
      if steps[0].Take? {
        FitsPopped(s.workQ, s.client == QueuedEos);
        TakeDrains(s);
      } else {
        PushFits(s, steps[0]);
        OthersDrain(s, steps[0]);
      }
      EosRun(Apply(s, steps[0]), steps[1..]);
    }
  }

  /** In every run, unless the client is just about to push it, a drain is queued right behind
      each work with data that ends the stream, and behind no other. */
  lemma DrainBehindEnd(steps: seq<Step>, i: nat)
    requires Allowed(INITIAL, steps) && i < |Result(INITIAL, steps).workQ|
    ensures var s := Result(INITIAL, steps);
      && (EndsStream(s.workQ[i]) && s.client != QueuedEos ==>
            i + 1 < |s.workQ| && s.workQ[i + 1] == DrainTask(None))
      && (i + 1 < |s.workQ| && s.workQ[i + 1] == DrainTask(None) ==> EndsStream(s.workQ[i]))
  {
    var s := Result(INITIAL, steps);
    EosRun(INITIAL, steps);
    assert TaskFits(s.workQ, i, s.client == QueuedEos);
    if i + 1 < |s.workQ| {
      assert TaskFits(s.workQ, i + 1, s.client == QueuedEos);
    }
  }

  lemma ThroughLast(accepted: seq<Work>)
    requires |accepted| > 0 && accepted[|accepted| - 1].eos
    ensures |Through(accepted)| > 0 && Through(accepted)[|Through(accepted)| - 1] == accepted[|accepted| - 1]
  {
  }

  /** End to end: when the last work accepted ended the stream and the working thread has come
      to the end of its queue, no work is pending. Each was answered directly, dropped with
      an error, delivered, or is on its way through the waiting thread, once. */
  lemma EndOfStreamDrains(steps: seq<Step>, w: Work)
    requires Allowed(INITIAL, steps)
    requires var r := Result(INITIAL, steps);
      && |r.accepted| > 0 && r.accepted[|r.accepted| - 1].eos
      && r.client != QueuedEos && |r.workQ| == 0 && (r.working == Idle || r.working == Left || r.working == Absent)
    ensures var r := Result(INITIAL, steps);
      && |r.pending| == 0
      && Times(InWaits(r.waitQ), w) + Times(InHand(r.waiting), w) + Times(r.direct, w) + Times(Dropped(r.exits), w)
         + Times(r.delivered, w) == if w in r.accepted then 1 else 0
  {
    var r := Result(INITIAL, steps);
    EosRun(INITIAL, steps);
    EndRun(INITIAL, steps);
    ThroughLast(r.accepted);
    assert r.taken + [] == r.taken;
    ExactlyOnePlace(steps, w);
    assert InTasks(r.workQ) == InWorking(r.working) == r.pending == [];
  }

  // ---------- the frame before its output

  /** While a work enters, the frame kept for it is the last thing in the waiting queue, unless
      the waiting thread took it. */
  predicate FrameLast(s: State) {
    && (s.working.Entering? && |s.waitQ| > 0 ==> s.waitQ[|s.waitQ| - 1] == Retain)
    && (s.client == StopWaiting || s.client == StopJoining ==> s.working == Absent)
  }

  lemma FrameStep(s: State, step: Step)
    requires FrameLast(s) && Enabled(s, step)
    ensures FrameLast(Apply(s, step))
  {
  }

  lemma {:induction false} FrameRun(s: State, steps: seq<Step>)
    requires FrameLast(s) && Allowed(s, steps)
    ensures FrameLast(Result(s, steps))
    decreases |steps|
  {
    if |steps| > 0 {
      FrameStep(s, steps[0]);
      FrameRun(Apply(s, steps[0]), steps[1..]);
    }
  }

  /** In every run the frame of an encode that gives an output at once goes right before that
      output, whichever work gets it. */
  lemma FrameBeforeOutput(steps: seq<Step>)
    requires Allowed(INITIAL, steps) && Enabled(Result(INITIAL, steps), Enter)
    requires Result(INITIAL, steps).working.output && |Result(INITIAL, steps).waitQ| > 0
    ensures var q := Apply(Result(INITIAL, steps), Enter).waitQ;
      |q| >= 2 && q[|q| - 1].WaitWork? && q[|q| - 2] == Retain
  {
    FrameRun(INITIAL, steps);
  }
}
