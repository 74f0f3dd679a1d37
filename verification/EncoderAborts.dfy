/** A stop of the encoder that aborts: it drops what is queued when it comes to each queue. */
module EncoderAborts {
  import opened EncoderPipeline
  import opened EncoderOrder
  import opened EncoderDelivery
  import opened EncoderStops

  function AbortedWorking(s: State): State {
    s.(client := StopWorking, workQ := [NullTask])
  }

  function AbortedWaiting(s: State): State {
    s.(client := StopJoining, waitQ := [NullWait])
  }

  /** Between the queues' shutdowns and after them the threads and the client go on as in any
      stop: first leads to the second shutdown, second to the end. */
  ghost predicate IsAbort(s: State, first: seq<Step>, second: seq<Step>) {
    && s.client == Ready && Allowed(AbortedWorking(s), first) && NoStart(first)
    && BeforeWaiting(s, first).client == StopWaiting
    && Allowed(AbortedWaiting(BeforeWaiting(s, first)), second) && NoStart(second)
    && AfterAbort(s, first, second).client == Down
  }

  function BeforeWaiting(s: State, first: seq<Step>): State
    requires Allowed(AbortedWorking(s), first)
  {
    Result(AbortedWorking(s), first)
  }

  function AfterAbort(s: State, first: seq<Step>, second: seq<Step>): State
    requires Allowed(AbortedWorking(s), first) && Allowed(AbortedWaiting(BeforeWaiting(s, first)), second)
  {
    Result(AbortedWaiting(BeforeWaiting(s, first)), second)
  }

  /** Nothing is left behind, in whatever state the stop began. */
  lemma AbortSettles(s: State, first: seq<Step>, second: seq<Step>)
    requires Sound(s) && IsAbort(s, first, second)
    ensures Settled(AfterAbort(s, first, second))
  {
    SoundRun(AbortedWorking(s), first);
    RunKept(AbortedWorking(s), first);
    var c := AbortedWaiting(BeforeWaiting(s, first));
    SoundRun(c, second);
    RunKept(c, second);
    DownSettled(AfterAbort(s, first, second));
  }

  // ---------- what a stop's steps do to the places of a work

  /** The steps of a stop read and write nothing that the client noted down. */
  lemma AcceptedUnread(s: State, step: Step, x: seq<Work>)
    requires Stopping(s.client) && Enabled(s, step)
    ensures Enabled(s.(accepted := x), step) && Apply(s.(accepted := x), step) == Apply(s, step).(accepted := x)
  {
  }

  lemma {:induction false} AcceptedUnreadRun(s: State, steps: seq<Step>, x: seq<Work>)
    requires Sound(s) && Stopping(s.client) && Allowed(s, steps) && NoStart(steps)
    ensures Allowed(s.(accepted := x), steps) && Result(s.(accepted := x), steps) == Result(s, steps).(accepted := x)
    decreases |steps|
  {
    if |steps| > 0 {
      AcceptedUnread(s, steps[0], x);
      SoundStep(s, steps[0]);
      StepKept(s, steps[0]);
      AcceptedUnreadRun(Apply(s, steps[0]), steps[1..], x);
    }
  }

  /** So they hold on to a work, wherever it is. */
  lemma StopHolds(s: State, steps: seq<Step>, w: Work)
    requires Sound(s) && Stopping(s.client) && Fifo(s) && Allowed(s, steps) && NoStart(steps)
    ensures Held(Result(s, steps), w) == Held(s, w) && Fifo(Result(s, steps))
  {
    var x := InTasks(s.workQ) + InWorking(s.working) + s.direct + s.entered + Ends(s.pushed);
    var t := s.(accepted := x);
    TimesAdditive(w);
    SumOfFive(InTasks(s.workQ), InWorking(s.working), s.direct, s.entered, Ends(s.pushed), w);
    AcceptedUnreadRun(s, steps, x);
    FifoRun(t, steps);
    RunConserves(t, steps, p => Times(p, w));
    HeldCounts(t, w);
    HeldCounts(Result(t, steps), w);
  }

  lemma SumOfFive(a: seq<Work>, b: seq<Work>, c: seq<Work>, d: seq<Work>, e: seq<Work>, w: Work)
    ensures Times(a + b + c + d + e, w) == Times(a, w) + Times(b, w) + Times(c, w) + Times(d, w) + Times(e, w)
  {
    TimesAppend(a, b, w);
    TimesAppend(a + b, c, w);
    TimesAppend(a + b + c, d, w);
    TimesAppend(a + b + c + d, e, w);
  }

  /** Behind the abort of the waiting queue its thread delivers what it has in hand at most. */
  ghost predicate Emptied(s: State) {
    && s.working == Absent && |InWaits(s.waitQ)| == 0
    && (s.client == StopJoining || s.client == StopPending || s.client == Down)
  }

  lemma ClearHolds(s: State, w: Work)
    requires Enabled(s, StopClear)
    ensures Held(Apply(s, StopClear), w) == Held(s, w)
  {
    var x := s.pending[0];
    assert s.pending == [x] + s.pending[1..];
    TimesAppend([x], s.pending[1..], w);
    assert (s.exits + [Exit(x, false)])[..|s.exits|] == s.exits;
    TimesAppend(Dropped(s.exits), [x], w);
  }

  lemma EmptiedStep(s: State, step: Step, w: Work)
    requires Emptied(s) && Enabled(s, step) && !step.Start?
    ensures var t := Apply(s, step);
      && Emptied(t) && Held(t, w) == Held(s, w) && t.pushed == s.pushed
      && t.delivered + InHand(t.waiting) == s.delivered + InHand(s.waiting)
  {
    match step
    case StopClear => ClearHolds(s, w);
    case TakeWait => WaitsFront(s.waitQ);
    case Notify =>
      TimesAppend(s.delivered, [s.waiting.w], w);
      assert s.delivered + [s.waiting.w] + [] == s.delivered + [s.waiting.w];
    case _ =>
  }

  lemma {:induction false} EmptiedRun(s: State, steps: seq<Step>, w: Work)
    requires Emptied(s) && Allowed(s, steps) && NoStart(steps)
    ensures var t := Result(s, steps);
      && Held(t, w) == Held(s, w) && t.pushed == s.pushed
      && t.delivered + InHand(t.waiting) == s.delivered + InHand(s.waiting)
    decreases |steps|
  {
    if |steps| > 0 {
      EmptiedStep(s, steps[0], w);
      EmptiedRun(Apply(s, steps[0]), steps[1..], w);
    }
  }

  // ---------- one answer, or dropped by the abort

  /** After an aborted stop every accepted work was answered directly, dropped with an error,
      delivered, or dropped from one of the queues, once in all, and no other work was. The
      deliveries still are the first of what was pushed. */
  lemma AbortAnswers(before: seq<Step>, first: seq<Step>, second: seq<Step>, w: Work)
    requires Allowed(INITIAL, before) && IsAbort(Result(INITIAL, before), first, second)
    ensures var s := Result(INITIAL, before);
      var b, r := BeforeWaiting(s, first), AfterAbort(s, first, second);
      && Times(r.direct, w) + Times(Dropped(r.exits), w) + Times(r.delivered, w)
         + Times(InTasks(s.workQ), w) + Times(InWaits(b.waitQ), w)
         == (if w in s.accepted then 1 else 0)
      && r.delivered <= PushedWorks(r.pushed)
  {
    var s := Result(INITIAL, before);
    var a, b := AbortedWorking(s), BeforeWaiting(s, first);
    SoundRun(INITIAL, before);
    FifoRun(INITIAL, before);
    ExactlyOnePlace(before, w);
    StopHolds(a, first, w);
    SoundRun(a, first);
    EmptiedRun(AbortedWaiting(b), second, w);
    AbortSettles(s, first, second);
    SettledHeld(AfterAbort(s, first, second), w);
  }

  lemma SettledHeld(s: State, w: Work)
    requires Settled(s)
    ensures Held(s, w) == Times(s.direct, w) + Times(Dropped(s.exits), w) + Times(s.delivered, w)
    ensures s.delivered + InHand(s.waiting) == s.delivered
  {
  }
}
