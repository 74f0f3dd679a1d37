/** Both queues of the decoder are command queues in every run. */
module DecoderQueues {
  import opened DecoderPipeline
  import opened DecoderBounds
  import opened QueueViews

  function WorkNulls(q: seq<WorkTask>): seq<bool> {
    seq(|q|, i requires 0 <= i < |q| => q[i].NullTask?)
  }

  function WaitNulls(q: seq<WaitTask>): seq<bool> {
    seq(|q|, i requires 0 <= i < |q| => q[i].NullWait?)
  }

  function WorkView(s: State): View {
    View(WorkNulls(s.workQ),
         match s.working case Absent => NotJoinable case Left => Ended case Idle => AtQueue case _ => Executing,
         s.client.StopWorking?)
  }

  function WaitView(s: State): View {
    View(WaitNulls(s.waitQ),
         match s.waiting case Missing => NotJoinable case Gone => Ended case Free => AtQueue case _ => Executing,
         s.client == StopJoining)
  }

  /** What a step does to the working queue. */
  function WorkMove(s: State, step: Step): Move
    requires Enabled(s, step)
  {
    match step
    case C(Start(ok)) => if ok then StartThread else Stay
    case C(QueueWork(w)) => if w.valid then PushOne else Stay
    case C(QueueDrain) => PushOne
    case C(PushReset) => PushOne
    case C(BeginStop(abort)) => BeginShut(abort)
    case C(JoinWorking) => EndShut
    case C(_) => Stay
    case W(Take(_)) => if s.workQ[0] != NullTask && Apply(s, step).working == Idle then PopDone else PopOne
    case W(_) => if Apply(s, step).working == Idle then FinishOne else Stay
    case A(_) => Stay
  }

  /** And to the waiting queue. */
  function WaitMove(s: State, step: Step): Move
    requires Enabled(s, step)
  {
    match step
    case C(Start(ok)) => if ok then StartThread else Stay
    case C(BeginWaitingStop) => BeginShut(s.client.abort)
    case C(JoinWaiting) => EndShut
    case C(_) => Stay
    case W(w) => if |Pushes(s, w)| > 0 then PushOne else Stay
    case A(TakeWait) => PopOne
    case A(_) => if Apply(s, step).waiting == Free then FinishOne else Stay
  }

  lemma WorkNullsPushed(q: seq<WorkTask>, t: WorkTask)
    ensures WorkNulls(q + [t]) == WorkNulls(q) + [t.NullTask?]
    ensures |q| > 0 ==> WorkNulls(q[1..]) == WorkNulls(q)[1..]
  {
  }

  lemma WaitNullsPushed(q: seq<WaitTask>, t: WaitTask)
    ensures WaitNulls(q + [t]) == WaitNulls(q) + [t.NullWait?]
    ensures |q| > 0 ==> WaitNulls(q[1..]) == WaitNulls(q)[1..]
  {
  }

  /** The client's steps push one task or leave the working queue alone, but for a stop. */
  lemma ClientOnWork(s: State, c: ClientStep)
    requires ClientEnabled(s, c) && !c.BeginStop?
    ensures var t := ClientApply(s, c);
      && (if WorkMove(s, C(c)) == PushOne then
            |t.workQ| == |s.workQ| + 1 && t.workQ == s.workQ + [t.workQ[|s.workQ|]] && t.workQ[|s.workQ|] != NullTask
          else t.workQ == s.workQ)
      && (c.Start? || c.JoinWorking? || t.working == s.working)
      && (t.client.StopWorking? ==> s.client.StopWorking?) && (s.client.StopWorking? ==> c.JoinWorking?)
  {
  }

  lemma ClientMovesWork(s: State, c: ClientStep)
    requires ClientEnabled(s, c)
    ensures CanMove(WorkView(s), WorkMove(s, C(c)))
    ensures WorkView(ClientApply(s, c)) == Moved(WorkView(s), WorkMove(s, C(c)))
  {
    var t := ClientApply(s, c);
    if c.BeginStop? {
      WorkNullsPushed(s.workQ, NullTask);
      WorkNullsPushed([], NullTask);
    } else {
      ClientOnWork(s, c);
      if WorkMove(s, C(c)) == PushOne {
        WorkNullsPushed(s.workQ, t.workQ[|s.workQ|]);
      }
    }
  }

  lemma ClientOnWait(s: State, c: ClientStep)
    requires ClientEnabled(s, c) && !c.BeginWaitingStop?
    ensures var t := ClientApply(s, c);
      && t.waitQ == s.waitQ && (c.Start? || c.JoinWaiting? || t.waiting == s.waiting)
      && t.client != StopJoining && (s.client == StopJoining ==> c.JoinWaiting?)
  {
  }

  lemma ClientMovesWait(s: State, c: ClientStep)
    requires ClientEnabled(s, c)
    ensures CanMove(WaitView(s), WaitMove(s, C(c)))
    ensures WaitView(ClientApply(s, c)) == Moved(WaitView(s), WaitMove(s, C(c)))
  {
    if c.BeginWaitingStop? {
      WaitNullsPushed(s.waitQ, NullWait);
      WaitNullsPushed([], NullWait);
    } else {
      ClientOnWait(s, c);
    }
  }

  lemma WorkingMoves(s: State, w: WorkingStep)
    requires WorkingEnabled(s, w)
    ensures CanMove(WorkView(s), WorkMove(s, W(w)))
    ensures WorkView(WorkingApply(s, w)) == Moved(WorkView(s), WorkMove(s, W(w)))
    ensures CanMove(WaitView(s), WaitMove(s, W(w)))
    ensures WaitView(WorkingApply(s, w)) == Moved(WaitView(s), WaitMove(s, W(w)))
  {
    WorkingEffect(s, w);
    WorkNullsPushed(s.workQ, NullTask);
    if |Pushes(s, w)| > 0 {
      WaitNullsPushed(s.waitQ, Pushes(s, w)[0]);
      assert Pushes(s, w) == [Pushes(s, w)[0]];
    } else {
      assert s.waitQ + [] == s.waitQ;
    }
  }

  lemma WaitingMoves(s: State, a: WaitingStep)
    requires WaitingEnabled(s, a)
    ensures CanMove(WorkView(s), WorkMove(s, A(a)))
    ensures WorkView(WaitingApply(s, a)) == Moved(WorkView(s), WorkMove(s, A(a)))
    ensures CanMove(WaitView(s), WaitMove(s, A(a)))
    ensures WaitView(WaitingApply(s, a)) == Moved(WaitView(s), WaitMove(s, A(a)))
  {
    WaitingEffect(s, a);
    WaitNullsPushed(s.waitQ, NullWait);
  }

  lemma {:induction false} QueuesFrom(s: State, steps: seq<Step>)
    requires Allowed(s, steps) && Reached(WorkView(s)) && Reached(WaitView(s))
    ensures Reached(WorkView(Result(s, steps))) && Reached(WaitView(Result(s, steps)))
    decreases |steps|
  {
    if |steps| > 0 {
      match steps[0] {
        case C(c) =>
          ClientMovesWork(s, c);
          ClientMovesWait(s, c);
        case W(w) => WorkingMoves(s, w);
        case A(a) => WaitingMoves(s, a);
      }
      ReachedNext(WorkView(s), WorkMove(s, steps[0]));
      ReachedNext(WaitView(s), WaitMove(s, steps[0]));
      QueuesFrom(Apply(s, steps[0]), steps[1..]);
    }
  }

  /** In every run of the decoder what is seen of either queue and its thread is what a run of
      the command queue leads to. */
  lemma QueuesRun(depth: nat, steps: seq<Step>)
    requires Allowed(Initial(depth), steps)
    ensures Reached(WorkView(Result(Initial(depth), steps)))
    ensures Reached(WaitView(Result(Initial(depth), steps)))
  {
    ReachedFirst();
    assert WorkView(Initial(depth)) == WaitView(Initial(depth)) == View([], NotJoinable, false);
    QueuesFrom(Initial(depth), steps);
  }
}
