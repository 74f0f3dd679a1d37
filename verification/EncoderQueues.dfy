/** Both queues of the encoder are command queues in every run. */
module EncoderQueues {
  import opened EncoderPipeline
  import opened EncoderStops
  import opened QueueViews

  function WorkNulls(q: seq<WorkTask>): seq<bool> {
    seq(|q|, i requires 0 <= i < |q| => q[i].NullTask?)
  }

  function WaitNulls(q: seq<WaitTask>): seq<bool> {
    seq(|q|, i requires 0 <= i < |q| => q[i].NullWait?)
  }

  function WorkView(s: State): View {
    View(WorkNulls(s.workQ),
         match s.working case Absent => NotJoinable case Left => Ended case Idle => AtQueue case _ => Executing,
         s.client == StopWorking)
  }

  function WaitView(s: State): View {
    View(WaitNulls(s.waitQ),
         match s.waiting case Missing => NotJoinable case Gone => Ended case Free => AtQueue case _ => Executing,
         s.client == StopJoining)
  }

  /** What a step does to the working queue. */
  function WorkMove(s: State, step: Step): Move
    requires Enabled(s, step)
  {
    match step
    case Start(ok) => if ok then StartThread else Stay
    case QueueWork(w) => if w.empty && !w.eos then Stay else PushOne
    case QueueDrain => PushOne
    case BeginStop => BeginShut(false)
    case JoinWorking => EndShut
    case Take => PopOne
    case _ => if WorkingStep(step) && Apply(s, step).working == Idle then FinishOne else Stay
  }

  /** What a step does to the waiting queue: an encode that gives an output at once pushes a
      frame, and the output when the work has entered. */
  function WaitMove(s: State, step: Step): Move
    requires Enabled(s, step)
  {
    match step
    case Start(ok) => if ok then StartThread else Stay
    case BeginWaitingStop => BeginShut(false)
    case JoinWaiting => EndShut
    case TakeWait => if s.waitQ[0] == Retain then PopDone else PopOne
    case Notify => FinishOne
    case _ => if |Pushes(s, step)| > 0 then PushOne else Stay
  }

  lemma WorkNullsPushed(q: seq<WorkTask>, t: WorkTask)
    ensures WorkNulls(q + [t]) == WorkNulls(q) + [t.NullTask?]
    ensures |q| > 0 ==> WorkNulls(q[1..]) == WorkNulls(q)[1..]
  {
  }

  lemma WaitNullsPushed(q: seq<WaitTask>, t: WaitTask)
    ensures WaitNulls(q + [t]) == WaitNulls(q) + [t.NullWait?]
    ensures |q| > 0 ==> WaitNulls(q[1..]) == WaitNulls(q)[1..]
  {
  }

  /** Steps other than a pop push one task or leave the working queue alone. */
  lemma StepOnWork(s: State, step: Step)
    requires Enabled(s, step) && !step.Take?
    ensures var t := Apply(s, step);
      if WorkMove(s, step) == PushOne || step.BeginStop? then
        && |t.workQ| == |s.workQ| + 1 && t.workQ == s.workQ + [t.workQ[|s.workQ|]]
        && (t.workQ[|s.workQ|] == NullTask <==> step.BeginStop?)
      else t.workQ == s.workQ
  {
  }

  ghost predicate ThreadMoved(s: State, step: Step)
    requires Enabled(s, step)
  {
    var v, t := WorkView(s), WorkView(Apply(s, step));
    CanMove(v, WorkMove(s, step)) && t == Moved(v, WorkMove(s, step)).(nulls := t.nulls)
  }

  lemma WorkerMoves(s: State, step: Step)
    requires Enabled(s, step) && !step.Take? && WorkingStep(step)
    ensures ThreadMoved(s, step)
  {
  }

  lemma OthersMove(s: State, step: Step)
    requires Enabled(s, step) && !WorkingStep(step)
    ensures ThreadMoved(s, step)
  {
  }

  lemma NullsMove(s: State, step: Step)
    requires Enabled(s, step) && !step.Take? && CanMove(WorkView(s), WorkMove(s, step))
    ensures WorkNulls(Apply(s, step).workQ) == Moved(WorkView(s), WorkMove(s, step)).nulls
  {
    StepOnWork(s, step);
    var q, r := s.workQ, Apply(s, step).workQ;
    if |r| > |q| {
      WorkNullsPushed(q, r[|q|]);
    }
  }

  lemma MovesWork(s: State, step: Step)
    requires Enabled(s, step)
    ensures CanMove(WorkView(s), WorkMove(s, step))
    ensures WorkView(Apply(s, step)) == Moved(WorkView(s), WorkMove(s, step))
  {
    if step.Take? {
      WorkNullsPushed(s.workQ, NullTask);
    } else {
      if WorkingStep(step) {
        WorkerMoves(s, step);
      } else {
        OthersMove(s, step);
      }
      NullsMove(s, step);
    }
  }

  lemma MovesWait(s: State, step: Step)
    requires Enabled(s, step)
    ensures CanMove(WaitView(s), WaitMove(s, step))
    ensures WaitView(Apply(s, step)) == Moved(WaitView(s), WaitMove(s, step))
  {
    WaitNullsPushed(s.waitQ, NullWait);
    if WorkingStep(step) {
      WorkingEffect(s, step);
      PushesAre(s, step);
      if |Pushes(s, step)| > 0 {
        WaitNullsPushed(s.waitQ, Pushes(s, step)[0]);
        assert Pushes(s, step) == [Pushes(s, step)[0]];
      } else {
        assert s.waitQ + [] == s.waitQ;
      }
    }
  }

  lemma {:induction false} QueuesFrom(s: State, steps: seq<Step>)
    requires Allowed(s, steps) && Reached(WorkView(s)) && Reached(WaitView(s))
    ensures Reached(WorkView(Result(s, steps))) && Reached(WaitView(Result(s, steps)))
    decreases |steps|
  {
    if |steps| > 0 {
      MovesWork(s, steps[0]);
      MovesWait(s, steps[0]);
      ReachedNext(WorkView(s), WorkMove(s, steps[0]));
      ReachedNext(WaitView(s), WaitMove(s, steps[0]));
      QueuesFrom(Apply(s, steps[0]), steps[1..]);
    }
  }

  /** In every run of the encoder what is seen of either queue and its thread is what a run of
      the command queue leads to. */
  lemma QueuesRun(steps: seq<Step>)
    requires Allowed(INITIAL, steps)
    ensures Reached(WorkView(Result(INITIAL, steps))) && Reached(WaitView(Result(INITIAL, steps)))
  {
    ReachedFirst();
    assert WorkView(INITIAL) == WaitView(INITIAL) == View([], NotJoinable, false);
    QueuesFrom(INITIAL, steps);
  }
}
