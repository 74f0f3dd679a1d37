/** The decoder in all runs, also when it is stopped without started threads: exactly when a
    stop settles all works and exactly when the counter can be trusted. */
module DecoderGuards {
  import opened DecoderPipeline
  import opened DecoderConservation
  import opened DecoderBounds

  // ---------- what holds in all runs

  predicate EndsNull(q: seq<WaitTask>) {
    |q| == 0 || q[|q| - 1] == NullWait
  }

  /** After the threads were joined what is left in the waiting queue ends with the null
      command of the stop. */
  predicate Halted(s: State) {
    match s.client
    case StopWaiting(_) => s.working == Absent
    case StopJoining => s.working == Absent && EndsNull(s.waitQ)
    case StopPending => s.working == Absent && s.waiting == Missing && EndsNull(s.waitQ)
    case Down => s.working == Absent && s.waiting == Missing && EndsNull(s.waitQ)
    case _ => true
  }

  predicate Sound(s: State) {
    Halted(s) && FlushInStep(s) && DownClear(s)
  }

  lemma ClientSound(s: State, c: ClientStep)
    requires Sound(s) && ClientEnabled(s, c)
    ensures Sound(ClientApply(s, c)) && ClientApply(s, c).depth == s.depth
  {
    ClientFlush(s, c);
  }

  lemma WorkingSound(s: State, w: WorkingStep)
    requires Sound(s) && WorkingEnabled(s, w)
    ensures Sound(WorkingApply(s, w)) && WorkingApply(s, w).depth == s.depth
  {
    WorkingFlush(s, w);
    WorkingEffect(s, w);
  }

  lemma WaitingSound(s: State, a: WaitingStep)
    requires Sound(s) && WaitingEnabled(s, a)
    ensures Sound(WaitingApply(s, a)) && WaitingApply(s, a).depth == s.depth
  {
    WaitingFlush(s, a);
    WaitingEffect(s, a);
  }

  lemma SoundStep(s: State, step: Step)
    requires Sound(s) && Enabled(s, step)
    ensures Sound(Apply(s, step)) && Apply(s, step).depth == s.depth
  {
    match step
    case C(c) => ClientSound(s, c);
    case W(w) => WorkingSound(s, w);
    case A(a) => WaitingSound(s, a);
  }

  lemma SoundInitially(depth: nat)
    ensures Sound(Initial(depth)) && Counted(Initial(depth))
  {
  }

  lemma {:induction false} SoundRun(s: State, steps: seq<Step>)
    requires Sound(s) && Allowed(s, steps)
    ensures Sound(Result(s, steps)) && Result(s, steps).depth == s.depth
    decreases |steps|
  {
    if |steps| > 0 {
      SoundStep(s, steps[0]);
      SoundRun(Apply(s, steps[0]), steps[1..]);
    }
  }

  // ---------- the counter in all runs

  /** Every start finds no output waiting to be delivered. */
  predicate StartsClear(s: State, steps: seq<Step>)
    requires Allowed(s, steps)
    decreases |steps|
  {
    |steps| > 0 ==>
      && (steps[0].C? && steps[0].c.Start? ==> Waits(s.waitQ) == 0)
      && StartsClear(Apply(s, steps[0]), steps[1..])
  }

  predicate AlwaysCounted(s: State, steps: seq<Step>)
    requires Allowed(s, steps)
    decreases |steps|
  {
    Counted(s) && (|steps| > 0 ==> AlwaysCounted(Apply(s, steps[0]), steps[1..]))
  }

  /** The counter stays right over every step but a start that finds outputs left. */
  lemma CountedStep(s: State, step: Step)
    requires Sound(s) && Counted(s) && s.depth < 0x1_0000_0000 && Enabled(s, step)
    ensures Counted(Apply(s, step)) <==> (step.C? && step.c.Start? ==> Waits(s.waitQ) == 0)
  {
    match step
    case C(c) =>
      if !(c.Start? && Waits(s.waitQ) > 0) {
        ClientCounted(s, c);
      }
    case W(w) => WorkingCounted(s, w);
    case A(a) => WaitingCounted(s, a);
  }

  lemma {:induction false} CounterFrom(s: State, steps: seq<Step>)
    requires Sound(s) && Counted(s) && s.depth < 0x1_0000_0000 && Allowed(s, steps)
    ensures AlwaysCounted(s, steps) <==> StartsClear(s, steps)
    ensures StartsClear(s, steps) ==> Counted(Result(s, steps))
    decreases |steps|
  {
    if |steps| > 0 {
      CountedStep(s, steps[0]);
      SoundStep(s, steps[0]);
      if Counted(Apply(s, steps[0])) {
        CounterFrom(Apply(s, steps[0]), steps[1..]);
      }
    }
  }

  /** What the gate and the drain's wait read is the number of outstanding outputs, and that
      is never above AsyncDepth. */
  predicate CounterRight(s: State) {
    && Outstanding(s) <= s.depth
    && (s.working.Run? || s.working.DrainWait? ==> Unsigned(s.synced) == Outstanding(s))
  }

  lemma RightWhenCounted(s: State)
    requires Counted(s) && s.depth < 0x1_0000_0000
    ensures CounterRight(s)
  {
  }

  /** In every run the counter counts the outstanding outputs at every point exactly when every
      start finds none left in the waiting queue; it is then read right. */
  lemma CounterExact(depth: nat, steps: seq<Step>)
    requires depth < 0x1_0000_0000 && Allowed(Initial(depth), steps)
    ensures AlwaysCounted(Initial(depth), steps) <==> StartsClear(Initial(depth), steps)
    ensures StartsClear(Initial(depth), steps) ==> CounterRight(Result(Initial(depth), steps))
  {
    SoundInitially(depth);
    CounterFrom(Initial(depth), steps);
    SoundRun(Initial(depth), steps);
    if StartsClear(Initial(depth), steps) {
      RightWhenCounted(Result(Initial(depth), steps));
    }
  }

  /** The working thread looks at the counter between calls of DecodeFrame and while it
      drains; where every start finds no output left it then sees the number of outstanding
      outputs, never a wrapped value, and there are never more of them than AsyncDepth. */
  lemma BoundedPipeline(depth: nat, steps: seq<Step>)
    requires depth < 0x1_0000_0000 && Allowed(Initial(depth), steps) && StartsClear(Initial(depth), steps)
    ensures var s := Result(Initial(depth), steps);
      && Outstanding(s) <= depth
      && (s.working.Run? || s.working.DrainWait? ==> Unsigned(s.synced) == Outstanding(s))
      && (WorkingEnabled(s, DrainDone(false)) ==> Outstanding(s) == 0)
  {
    CounterExact(depth, steps);
    SoundInitially(depth);
    SoundRun(Initial(depth), steps);
  }

  /** A client that stops only started threads always starts with a clear waiting queue. */
  lemma {:induction false} DisciplinedClear(s: State, steps: seq<Step>)
    requires WaitingInLane(s) && Allowed(s, steps) && AllDisciplined(s, steps)
    ensures StartsClear(s, steps)
    decreases |steps|
  {
    if |steps| > 0 {
      match steps[0] {
        case C(c) => ClientInLane(s, c);
        case W(w) => WorkingKeepsLane(s, w);
        case A(a) => WaitingKeepsLane(s, a);
      }
      DisciplinedClear(Apply(s, steps[0]), steps[1..]);
    }
  }
}
