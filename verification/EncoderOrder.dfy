/** The order in which the encoder gives outputs and notifications, in every interleaving. */
module EncoderOrder {
  import opened EncoderPipeline

  lemma OutputFifo(s: State, back: Option<Option<Work>>)
    requires Fifo(s) && |s.pending| > 0
    ensures Fifo(Output(s, back))
  {
    var w := s.pending[0];
    ExitSnoc(s.exits, Exit(w, true));
    PushedSnoc(s.pushed, Out(w));
    WaitsSnoc(s.waitQ, WaitWork(w));
    assert Departed(s.exits) + [w] + s.pending[1..] == Departed(s.exits) + s.pending;
    SameDelivery(s, WaitWork(w), w);
  }

  lemma SameDelivery(s: State, t: WaitTask, w: Work)
    requires s.delivered + InHand(s.waiting) + InWaits(s.waitQ) == PushedWorks(s.pushed)
    requires InWaits(s.waitQ + [t]) == InWaits(s.waitQ) + [w]
    ensures s.delivered + InHand(s.waiting) + InWaits(s.waitQ + [t]) == PushedWorks(s.pushed) + [w]
  {
  }

  lemma DropFifo(s: State)
    requires Fifo(s) && |s.pending| > 0
    ensures Fifo(Drop(s))
  {
    var w := s.pending[0];
    ExitSnoc(s.exits, Exit(w, false));
    assert Departed(s.exits) + [w] + s.pending[1..] == Departed(s.exits) + s.pending;
  }

  lemma EndedFifo(s: State, eos: Option<Work>, clean: bool)
    requires Fifo(s)
    ensures Fifo(Ended(s, eos, clean))
  {
    if eos.Some? {
      PushedSnoc(s.pushed, End(eos.value, clean, s.taken));
      WaitsSnoc(s.waitQ, EosTask(eos.value));
      SameDelivery(s, EosTask(eos.value), eos.value);
    }
  }

  lemma EnterFifo(s: State)
    requires Fifo(s) && Enabled(s, Enter)
    ensures Fifo(Apply(s, Enter))
  {
    var w := s.working.w;
    var t := s.(pending := s.pending + [w], entered := s.entered + [w], working := Idle);
    assert Departed(s.exits) + (s.pending + [w]) == Departed(s.exits) + s.pending + [w];
    if s.working.output {
      OutputFifo(t, None);
    }
  }

  lemma RetainFifo(s: State, output: bool)
    requires Fifo(s) && Enabled(s, RetainFrame(output))
    ensures Fifo(Apply(s, RetainFrame(output)))
  {
    WaitsSnoc(s.waitQ, Retain);
    assert InWaits(s.waitQ) + [] == InWaits(s.waitQ);
  }

  lemma TakeWaitFifo(s: State)
    requires Fifo(s) && Enabled(s, TakeWait)
    ensures Fifo(Apply(s, TakeWait))
  {
    WaitsFront(s.waitQ);
    Associate(s.delivered, InWait(s.waitQ[0]), InWaits(s.waitQ[1..]));
    assert InHand(s.waiting) == [] && InHand(Apply(s, TakeWait).waiting) == InWait(s.waitQ[0]);
  }

  lemma NullFifo(s: State)
    requires Fifo(s) && Enabled(s, BeginWaitingStop)
    ensures Fifo(Apply(s, BeginWaitingStop))
  {
    WaitsSnoc(s.waitQ, NullWait);
    assert InWaits(s.waitQ) + [] == InWaits(s.waitQ);
  }

  lemma NotifyFifo(s: State)
    requires Fifo(s) && Enabled(s, Notify)
    ensures Fifo(Apply(s, Notify))
  {
    assert s.delivered + [s.waiting.w] + [] == s.delivered + [s.waiting.w];
  }

  lemma FifoStep(s: State, step: Step)
    requires Fifo(s) && Enabled(s, step)
    ensures Fifo(Apply(s, step))
  {
    match step
    case Enter => EnterFifo(s);
    case RetainFrame(output) => RetainFifo(s, output);
    case DrainOutput => OutputFifo(s, Some(s.working.eos));
    case DrainEnd => EndedFifo(s, s.working.eos, true);
    case PushEos => EndedFifo(s, s.working.eos, false);
    case DropOne => DropFifo(s);
    case StopClear => DropFifo(s);
    case TakeWait => TakeWaitFifo(s);
    case BeginWaitingStop => NullFifo(s);
    case Notify => NotifyFifo(s);
    case _ => OtherFifo(s, step);
  }

  predicate LeavesOrder(step: Step) {
    step.QueueWork? || step.Start? || step.QueueDrain? || step.BeginStop? || step.JoinWorking? || step.JoinWaiting? ||
    step.EndStop? || step.Take? || step.Fail? || step.Count? || step.DrainFail? || step.DropEnd?
  }

  lemma OtherEffect(s: State, step: Step)
    requires Enabled(s, step) && LeavesOrder(step)
    ensures var t := Apply(s, step);
      && t.exits == s.exits && t.pending == s.pending && t.entered == s.entered && t.pushed == s.pushed
      && t.delivered == s.delivered && InHand(t.waiting) == InHand(s.waiting) && t.waitQ == s.waitQ
  {
  }

  lemma OtherFifo(s: State, step: Step)
    requires Fifo(s) && Enabled(s, step) && LeavesOrder(step)
    ensures Fifo(Apply(s, step))
  {
    OtherEffect(s, step);
  }

  lemma {:induction false} FifoRun(s: State, steps: seq<Step>)
    requires Fifo(s) && Allowed(s, steps)
    ensures Fifo(Result(s, steps))
    decreases |steps|
  {
    if |steps| > 0 {
      FifoStep(s, steps[0]);
      FifoRun(Apply(s, steps[0]), steps[1..]);
    }
  }

  // ---------- each work once

  ghost predicate Additive(m: seq<Work> -> int) {
    m([]) == 0 && forall a, b :: m(a + b) == m(a) + m(b)
  }

  function InTask(t: WorkTask): seq<Work> {
    match t
    case DoWork(w) => [w]
    case DrainTask(eos) => Opt(eos)
    case NullTask => []
  }

  function InTasks(q: seq<WorkTask>): seq<Work> {
    if |q| == 0 then [] else InTask(q[0]) + InTasks(q[1..])
  }

  function InWorking(w: Working): seq<Work> {
    match w
    case Encoding(x) => [x]
    case Entering(x, _) => [x]
    case Counting(drain) => if drain.Some? then Opt(drain.value) else []
    case Draining(eos) => Opt(eos)
    case DrainFailed(eos) => Opt(eos)
    case _ => []
  }

  function Ends(pushed: seq<Pushed>): seq<Work> {
    if |pushed| == 0 then [] else
      Ends(pushed[..|pushed| - 1]) + if pushed[|pushed| - 1].End? then [pushed[|pushed| - 1].w] else []
  }

  /** A work is queued, in the working thread's hands, answered directly, entered into the
      pending works, or pushed as an end of stream. */
  ghost predicate Conserved(s: State, m: seq<Work> -> int) {
    m(s.accepted) == m(InTasks(s.workQ)) + m(InWorking(s.working)) + m(s.direct) + m(s.entered) + m(Ends(s.pushed))
  }

  lemma EndsSnoc(pushed: seq<Pushed>, x: Pushed)
    ensures Ends(pushed + [x]) == Ends(pushed) + if x.End? then [x.w] else []
  {
    assert (pushed + [x])[..|pushed|] == pushed;
  }

  lemma TasksPopped(q: seq<WorkTask>, m: seq<Work> -> int)
    requires Additive(m) && |q| > 0
    ensures m(InTasks(q)) == m(InTask(q[0])) + m(InTasks(q[1..]))
  {
  }

  lemma {:induction false} TasksPushed(q: seq<WorkTask>, t: WorkTask, m: seq<Work> -> int)
    requires Additive(m)
    ensures m(InTasks(q + [t])) == m(InTasks(q)) + m(InTask(t))
  {
    TasksPopped(q + [t], m);
    if |q| == 0 {
      assert (q + [t])[1..] == [];
    } else {
      TasksPopped(q, m);
      TasksPushed(q[1..], t, m);
      assert (q + [t])[1..] == q[1..] + [t];
    }
  }

  lemma OutputConserves(s: State, back: Option<Option<Work>>)
    requires |s.pending| > 0
    ensures var t := Output(s, back);
      && t.accepted == s.accepted && t.workQ == s.workQ && t.direct == s.direct && t.entered == s.entered
      && Ends(t.pushed) == Ends(s.pushed) && t.working == Counting(back)
  {
    EndsSnoc(s.pushed, Out(s.pending[0]));
    assert Ends(s.pushed) + [] == Ends(s.pushed);
  }

  lemma EndedConserves(s: State, eos: Option<Work>, clean: bool, after: Working, m: seq<Work> -> int)
    requires Additive(m) && Conserved(s, m) && InWorking(s.working) == Opt(eos) && InWorking(after) == []
    ensures Conserved(Ended(s, eos, clean).(working := after), m)
  {
    if eos.Some? {
      EndsSnoc(s.pushed, End(eos.value, clean, s.taken));
    }
  }

  lemma QueueConserves(s: State, w: Work, m: seq<Work> -> int)
    requires Additive(m) && Conserved(s, m)
    ensures Conserved(Queued(s, w), m)
  {
    TasksPushed(s.workQ, DrainTask(Some(w)), m);
    TasksPushed(s.workQ, DoWork(w), m);
  }

  lemma TakeConserves(s: State, m: seq<Work> -> int)
    requires Additive(m) && Conserved(s, m) && Enabled(s, Take)
    ensures Conserved(Apply(s, Take), m)
  {
    TasksPopped(s.workQ, m);
  }

  function Entered(s: State, w: Work): State {
    s.(pending := s.pending + [w], entered := s.entered + [w], working := Idle)
  }

  lemma EnteredConserves(s: State, m: seq<Work> -> int)
    requires Additive(m) && Conserved(s, m) && Enabled(s, Enter)
    ensures Conserved(Entered(s, s.working.w), m)
  {
  }

  lemma EnterConserves(s: State, m: seq<Work> -> int)
    requires Additive(m) && Conserved(s, m) && Enabled(s, Enter)
    ensures Conserved(Apply(s, Enter), m)
  {
    var t := Entered(s, s.working.w);
    EnteredConserves(s, m);
    if s.working.output {
      OutputConserves(t, None);
      assert InWorking(Output(t, None).working) == InWorking(t.working);
    }
  }

  lemma DrainMoves(s: State)
    requires Enabled(s, DrainOutput)
    ensures var t := Apply(s, DrainOutput);
      && t.accepted == s.accepted && t.workQ == s.workQ && t.direct == s.direct && t.entered == s.entered
      && Ends(t.pushed) == Ends(s.pushed) && InWorking(t.working) == InWorking(s.working)
  {
    OutputConserves(s, Some(s.working.eos));
  }

  lemma DrainConserves(s: State, m: seq<Work> -> int)
    requires Conserved(s, m) && Enabled(s, DrainOutput)
    ensures Conserved(Apply(s, DrainOutput), m)
  {
    DrainMoves(s);
  }

  lemma OtherConserves(s: State, step: Step, m: seq<Work> -> int)
    requires Additive(m) && Conserved(s, m) && Enabled(s, step)
    requires step.RetainFrame? || step.Start? || step in {JoinWorking, BeginWaitingStop, JoinWaiting, StopClear,
      EndStop, Fail, Count, DrainFail, DropOne, DropEnd, TakeWait, Notify}
    ensures Conserved(Apply(s, step), m)
  {
    var t := Apply(s, step);
    assert t.accepted == s.accepted && t.workQ == s.workQ && t.entered == s.entered && t.pushed == s.pushed;
    assert step.Fail? ==>
      t.direct == s.direct + [s.working.w] && InWorking(t.working) == [] && InWorking(s.working) == [s.working.w];
    assert !step.Fail? ==> t.direct == s.direct && InWorking(t.working) == InWorking(s.working);
  }

  lemma StepConserves(s: State, step: Step, m: seq<Work> -> int)
    requires Additive(m) && Conserved(s, m) && Enabled(s, step)
    ensures Conserved(Apply(s, step), m)
  {
    match step
    case QueueWork(w) => QueueConserves(s, w, m);
    case QueueDrain => TasksPushed(s.workQ, DrainTask(None), m);
    case BeginStop => TasksPushed(s.workQ, NullTask, m);
    case Take => TakeConserves(s, m);
    case Enter => EnterConserves(s, m);
    case DrainOutput => DrainConserves(s, m);
    case DrainEnd => EndedConserves(s, s.working.eos, true, Idle, m);
    case PushEos => EndedConserves(s, s.working.eos, false, Dropping, m);
    case _ => OtherConserves(s, step, m);
  }

  lemma {:induction false} RunConserves(s: State, steps: seq<Step>, m: seq<Work> -> int)
    requires Additive(m) && Conserved(s, m) && Allowed(s, steps)
    ensures Conserved(Result(s, steps), m)
    decreases |steps|
  {
    if |steps| > 0 {
      StepConserves(s, steps[0], m);
      RunConserves(Apply(s, steps[0]), steps[1..], m);
    }
  }

  function Times(p: seq<Work>, x: Work): nat {
    if |p| == 0 then 0 else Times(p[..|p| - 1], x) + if p[|p| - 1] == x then 1 else 0
  }

  lemma {:induction false} TimesAppend(a: seq<Work>, b: seq<Work>, x: Work)
    ensures Times(a + b, x) == Times(a, x) + Times(b, x)
  {
    if |b| == 0 {
      assert a + b == a;
    } else {
      TimesAppend(a, b[..|b| - 1], x);
      assert (a + b)[..|a + b| - 1] == a + b[..|b| - 1];
    }
  }

  lemma {:induction false} TimesMember(p: seq<Work>, x: Work)
    ensures Times(p, x) == 0 <==> x !in p
  {
    if |p| > 0 {
      TimesMember(p[..|p| - 1], x);
      assert p == p[..|p| - 1] + [p[|p| - 1]];
    }
  }

  lemma {:induction false} AcceptedOnce(s: State, steps: seq<Step>, x: Work)
    requires Times(s.accepted, x) <= 1 && Allowed(s, steps)
    ensures Times(Result(s, steps).accepted, x) <= 1
    decreases |steps|
  {
    if |steps| > 0 {
      var t := Apply(s, steps[0]);
      if steps[0].QueueWork? {
        TimesMember(s.accepted, steps[0].w);
        TimesAppend(s.accepted, [steps[0].w], x);
        assert [steps[0].w][..0] == [];
        assert t.accepted == s.accepted + [steps[0].w];
      } else {
        assert t.accepted == s.accepted;
      }
      AcceptedOnce(t, steps[1..], x);
    }
  }

  ghost predicate Different(p: seq<Work>) {
    forall i, j | 0 <= i < j < |p| :: p[i] != p[j]
  }

  lemma {:induction false} OnceDifferent(p: seq<Work>)
    requires forall x :: Times(p, x) <= 1
    ensures Different(p)
  {
    if |p| > 0 {
      var t, y := p[..|p| - 1], p[|p| - 1];
      forall x
        ensures Times(t, x) <= 1
      {
        assert Times(p, x) <= 1;
      }
      OnceDifferent(t);
      TimesMember(t, y);
      assert Times(p, y) <= 1;
      forall i | 0 <= i < |t|
        ensures p[i] != y
      {
        assert t[i] in t;
      }
    }
  }

  /** No work enters the pending works twice. */
  lemma EnteredDifferent(steps: seq<Step>)
    requires Allowed(INITIAL, steps)
    ensures Different(Result(INITIAL, steps).entered)
  {
    var r := Result(INITIAL, steps);
    forall x
      ensures Times(r.entered, x) <= 1
    {
      EnteredOnce(steps, x);
    }
    OnceDifferent(r.entered);
  }

  lemma EnteredOnce(steps: seq<Step>, x: Work)
    requires Allowed(INITIAL, steps)
    ensures Times(Result(INITIAL, steps).entered, x) <= 1
  {
    var m := p => Times(p, x);
    forall a, b
      ensures m(a + b) == m(a) + m(b)
    {
      TimesAppend(a, b, x);
    }
    RunConserves(INITIAL, steps, m);
    AcceptedOnce(INITIAL, steps, x);
  }

  // ---------- the k-th output

  /** No work was dropped before a later one got an output. */
  predicate NoneDropped(exits: seq<Exit>) {
    forall i, j | 0 <= i < j < |exits| :: exits[j].ok ==> exits[i].ok
  }

  lemma {:induction false} DepartedAt(exits: seq<Exit>, k: nat)
    requires k < |exits|
    ensures |Departed(exits)| == |exits| && Departed(exits)[k] == exits[k].w
  {
    if k < |exits| - 1 {
      DepartedAt(exits[..|exits| - 1], k);
    } else {
      DepartedLength(exits[..|exits| - 1]);
    }
  }

  lemma {:induction false} DepartedLength(exits: seq<Exit>)
    ensures |Departed(exits)| == |exits|
  {
    if |exits| > 0 {
      DepartedLength(exits[..|exits| - 1]);
    }
  }

  /** Outputs that start without a drop are given to the works in the order they left. */
  lemma {:induction false} OutputsInOrder(exits: seq<Exit>)
    requires NoneDropped(exits)
    ensures Outputs(exits) <= Departed(exits)
    ensures (forall i | 0 <= i < |exits| :: exits[i].ok) ==> Outputs(exits) == Departed(exits)
  {
    if |exits| > 0 {
      var t, x := exits[..|exits| - 1], exits[|exits| - 1];
      OutputsInOrder(t);
      if x.ok {
        forall i | 0 <= i < |t|
          ensures t[i].ok
        {
          assert exits[i].ok;
        }
      } else {
        assert Outputs(t) + [] == Outputs(t);
      }
    }
  }

  lemma {:induction false} OutputsShort(exits: seq<Exit>, i: nat)
    requires i < |exits| && !exits[i].ok
    ensures |Outputs(exits)| < |exits|
  {
    if i < |exits| - 1 {
      OutputsShort(exits[..|exits| - 1], i);
    } else {
      OutputsLength(exits[..|exits| - 1]);
    }
  }

  lemma {:induction false} OutputsLength(exits: seq<Exit>)
    ensures |Outputs(exits)| <= |exits|
  {
    if |exits| > 0 {
      OutputsLength(exits[..|exits| - 1]);
    }
  }

  /** Where the output of an exit is among the outputs. */
  lemma {:induction false} OutputPosition(exits: seq<Exit>, j: nat)
    requires j < |exits| && exits[j].ok
    ensures |Outputs(exits[..j])| < |Outputs(exits)| && Outputs(exits)[|Outputs(exits[..j])|] == exits[j].w
  {
    var t := exits[..|exits| - 1];
    if j < |t| {
      OutputPosition(t, j);
      assert t[..j] == exits[..j];
    } else {
      assert exits[..j] == t;
    }
  }

  /** An output after a drop goes to a work that left later than its number says. */
  lemma {:induction false} OutputsShift(exits: seq<Exit>, i: nat, j: nat)
    requires i < j < |exits| && !exits[i].ok && exits[j].ok && Different(Departed(exits))
    ensures !(Outputs(exits) <= Departed(exits))
  {
    var p := |Outputs(exits[..j])|;
    OutputsShort(exits[..j], i);
    OutputPosition(exits, j);
    DepartedAt(exits, j);
    DepartedAt(exits, p);
  }

  /** In every run the k-th output goes to the k-th work that entered exactly when no failed
      drain and no stop dropped a work before an output. */
  lemma KthOutput(steps: seq<Step>)
    requires Allowed(INITIAL, steps)
    ensures var r := Result(INITIAL, steps); Outputs(r.exits) <= r.entered <==> NoneDropped(r.exits)
  {
    var r := Result(INITIAL, steps);
    FifoRun(INITIAL, steps);
    EnteredDifferent(steps);
    DepartedLength(r.exits);
    OutputsLength(r.exits);
    assert forall k | 0 <= k < |Departed(r.exits)| :: Departed(r.exits)[k] == r.entered[k];
    if NoneDropped(r.exits) {
      OutputsInOrder(r.exits);
    } else {
      var i, j :| 0 <= i < j < |r.exits| && r.exits[j].ok && !r.exits[i].ok;
      OutputsShift(r.exits, i, j);
    }
  }

  /** The waiting thread notifies in the order of pushing. */
  lemma DeliveredInOrder(steps: seq<Step>)
    requires Allowed(INITIAL, steps)
    ensures var r := Result(INITIAL, steps); r.delivered <= PushedWorks(r.pushed)
  {
    FifoRun(INITIAL, steps);
  }

  // ---------- the end of the stream

  /** The work was answered with an error or without output, or pushed before the n-th push. */
  ghost predicate Answered(direct: seq<Work>, exits: seq<Exit>, pushed: seq<Pushed>, w: Work, n: nat)
    requires n <= |pushed|
  {
    w in direct || Exit(w, false) in exits || exists k :: 0 <= k < n && pushed[k].w == w
  }

  ghost predicate AnsweredNow(s: State, w: Work) {
    Answered(s.direct, s.exits, s.pushed, w, |s.pushed|)
  }

  /** All works taken before a clean end of stream were answered or pushed before it. */
  ghost predicate CleanEnds(s: State) {
    forall i, w | 0 <= i < |s.pushed| && s.pushed[i].End? && s.pushed[i].clean && w in s.pushed[i].before &&
      w != s.pushed[i].w ::
      Answered(s.direct, s.exits, s.pushed, w, i)
  }

  /** A work taken is in the thread's hands, pending, or answered. */
  ghost predicate TakenSomewhere(s: State) {
    forall w | w in s.taken :: w in InWorking(s.working) || w in s.pending || AnsweredNow(s, w)
  }

  ghost predicate Grows(s: State, t: State) {
    && s.direct <= t.direct && s.exits <= t.exits && s.pushed <= t.pushed
  }

  lemma AnsweredGrows(s: State, t: State, w: Work, n: nat)
    requires Grows(s, t) && n <= |s.pushed| && Answered(s.direct, s.exits, s.pushed, w, n)
    ensures Answered(t.direct, t.exits, t.pushed, w, n)
    ensures Answered(t.direct, t.exits, t.pushed, w, |t.pushed|)
  {
    if w in s.direct {
      var k :| 0 <= k < |s.direct| && s.direct[k] == w;
      assert t.direct[k] == w;
    } else if Exit(w, false) in s.exits {
      var k :| 0 <= k < |s.exits| && s.exits[k] == Exit(w, false);
      assert t.exits[k] == Exit(w, false);
    } else {
      var k :| 0 <= k < n && s.pushed[k].w == w;
      assert t.pushed[k].w == w;
    }
  }

  lemma StepGrows(s: State, step: Step)
    requires Enabled(s, step)
    ensures Grows(s, Apply(s, step))
  {
  }

  /** Clean ends stay clean; a new one is when nothing is in hand or pending but its work. */
  lemma EndsStayClean(s: State, t: State)
    requires CleanEnds(s) && Grows(s, t)
    requires forall i | |s.pushed| <= i < |t.pushed| && t.pushed[i].End? && t.pushed[i].clean ::
      i == |s.pushed| && forall w | w in t.pushed[i].before && w != t.pushed[i].w :: AnsweredNow(s, w)
    ensures CleanEnds(t)
  {
    forall i, w | 0 <= i < |t.pushed| && t.pushed[i].End? && t.pushed[i].clean && w in t.pushed[i].before &&
      w != t.pushed[i].w
      ensures Answered(t.direct, t.exits, t.pushed, w, i)
    {
      if i < |s.pushed| {
        assert t.pushed[i] == s.pushed[i];
        AnsweredGrows(s, t, w, i);
      } else {
        AnsweredGrows(s, t, w, |s.pushed|);
      }
    }
  }

  lemma CleanStep(s: State, step: Step)
    requires CleanEnds(s) && TakenSomewhere(s) && Enabled(s, step)
    ensures CleanEnds(Apply(s, step))
  {
    var t := Apply(s, step);
    StepGrows(s, step);
    PushesOf(s, step);
    EndsStayClean(s, t);
  }

  lemma PushesOf(s: State, step: Step)
    requires TakenSomewhere(s) && Enabled(s, step)
    ensures var t := Apply(s, step);
      forall i | |s.pushed| <= i < |t.pushed| && t.pushed[i].End? && t.pushed[i].clean ::
        i == |s.pushed| && forall w | w in t.pushed[i].before && w != t.pushed[i].w :: AnsweredNow(s, w)
  {
  }

  ghost predicate SomewhereNow(t: State, w: Work) {
    w in InWorking(t.working) || w in t.pending || AnsweredNow(t, w)
  }

  /** The works that were in hand or pending are still there or get answered. */
  lemma HeldSomewhere(s: State, step: Step, w: Work)
    requires Enabled(s, step) && (w in InWorking(s.working) || w in s.pending)
    ensures SomewhereNow(Apply(s, step), w)
  {
    var t := Apply(s, step);
    if step.Enter? {
      EnterSomewhere(s, w);
    } else if step.DrainOutput? || step.DropOne? || step.StopClear? {
      FrontSomewhere(s, step, w);
    } else if step.Fail? {
      assert t.pending == s.pending;
      assert w in s.pending || w in t.direct;
    } else if step.DrainEnd? || step.PushEos? {
      assert t.pending == s.pending;
      assert w in s.pending || t.pushed[|s.pushed|].w == w;
    } else {
      assert t.pending == s.pending;
      assert InWorking(s.working) != [] ==> InWorking(t.working) == InWorking(s.working);
    }
  }

  lemma FrontSomewhere(s: State, step: Step, w: Work)
    requires Enabled(s, step) && (step.DrainOutput? || step.DropOne? || step.StopClear?)
    requires w in InWorking(s.working) || w in s.pending
    ensures SomewhereNow(Apply(s, step), w)
  {
    var t := Apply(s, step);
    var front := s.pending[0];
    assert s.pending == [front] + t.pending;
    assert InWorking(t.working) == InWorking(s.working);
    if w == front {
      if step.DrainOutput? {
        assert t.pushed[|s.pushed|].w == w;
      } else {
        assert t.exits[|s.exits|] == Exit(w, false);
      }
    }
  }

  lemma EnterSomewhere(s: State, w: Work)
    requires Enabled(s, Enter) && (w in InWorking(s.working) || w in s.pending)
    ensures SomewhereNow(Apply(s, Enter), w)
  {
    var t := Apply(s, Enter);
    var all := s.pending + [s.working.w];
    assert w in all;
    if s.working.output {
      assert all == [all[0]] + t.pending;
      if w == all[0] {
        assert t.pushed[|s.pushed|].w == w;
      }
    }
  }

  lemma SomewhereStep(s: State, step: Step)
    requires TakenSomewhere(s) && Enabled(s, step)
    ensures TakenSomewhere(Apply(s, step))
  {
    var t := Apply(s, step);
    StepGrows(s, step);
    forall w | w in t.taken
      ensures SomewhereNow(t, w)
    {
      TakenNow(s, step, w);
    }
  }

  lemma TakenNow(s: State, step: Step, w: Work)
    requires TakenSomewhere(s) && Enabled(s, step) && Grows(s, Apply(s, step)) && w in Apply(s, step).taken
    ensures SomewhereNow(Apply(s, step), w)
  {
    TakenBefore(s, step, w);
    if w in s.taken {
      if w in InWorking(s.working) || w in s.pending {
        HeldSomewhere(s, step, w);
      } else {
        AnsweredGrows(s, Apply(s, step), w, |s.pushed|);
      }
    }
  }

  lemma TakenBefore(s: State, step: Step, w: Work)
    requires Enabled(s, step) && w in Apply(s, step).taken
    ensures w in s.taken || w in InWorking(Apply(s, step).working)
  {
  }

  /** The works that go through the working thread's queue, in the order accepted. */
  function Through(accepted: seq<Work>): seq<Work> {
    if |accepted| == 0 then [] else
      var w := accepted[|accepted| - 1];
      Through(accepted[..|accepted| - 1]) + if w.empty && !w.eos then [] else [w]
  }

  lemma ThroughSnoc(accepted: seq<Work>, w: Work)
    ensures Through(accepted + [w]) == Through(accepted) + if w.empty && !w.eos then [] else [w]
  {
    assert (accepted + [w])[..|accepted|] == accepted;
  }

  /** The thread takes works in the order the client queued them. */
  ghost predicate InOrder(s: State) {
    && s.taken + InTasks(s.workQ) == Through(s.accepted)
    && (forall w | w in s.accepted && w.empty && !w.eos :: w in s.direct)
    && (forall i | 0 <= i < |s.pushed| && s.pushed[i].End? ::
          s.pushed[i].before <= s.taken && s.pushed[i].w in s.pushed[i].before)
    && (forall w | w in InWorking(s.working) :: w in s.taken)
  }

  lemma {:induction false} TasksSnoc(q: seq<WorkTask>, t: WorkTask)
    ensures InTasks(q + [t]) == InTasks(q) + InTask(t)
  {
    if |q| == 0 {
      assert (q + [t])[1..] == [];
      assert InTask(t) + [] == InTask(t);
    } else {
      TasksSnoc(q[1..], t);
      assert (q + [t])[1..] == q[1..] + [t];
      assert InTask(q[0]) + (InTasks(q[1..]) + InTask(t)) == InTask(q[0]) + InTasks(q[1..]) + InTask(t);
    }
  }

  lemma QueueInOrder(s: State, w: Work)
    requires InOrder(s)
    ensures InOrder(Queued(s, w))
  {
    ThroughSnoc(s.accepted, w);
    TasksSnoc(s.workQ, if w.empty then DrainTask(Some(w)) else DoWork(w));
    assert s.taken + (InTasks(s.workQ) + [w]) == s.taken + InTasks(s.workQ) + [w];
    assert Through(s.accepted) + [] == Through(s.accepted);
  }

  lemma TakeEffect(s: State)
    requires Enabled(s, Take)
    ensures var t := Apply(s, Take);
      && t.taken == s.taken + InTask(s.workQ[0]) && t.workQ == s.workQ[1..]
      && t.accepted == s.accepted && t.direct == s.direct && t.pushed == s.pushed
      && (forall w | w in InWorking(t.working) :: w in InTask(s.workQ[0]))
  {
    Associate(s.taken, [], []);
  }

  lemma TakeInOrder(s: State)
    requires InOrder(s) && Enabled(s, Take)
    ensures InOrder(Apply(s, Take))
  {
    var task := InTask(s.workQ[0]);
    TakeEffect(s);
    Associate(s.taken, task, InTasks(s.workQ[1..]));
    assert s.taken <= s.taken + task;
  }

  lemma DrainInOrder(s: State)
    requires InOrder(s) && Enabled(s, QueueDrain)
    ensures InOrder(Apply(s, QueueDrain))
  {
    TasksSnoc(s.workQ, DrainTask(None));
    assert InTasks(s.workQ) + [] == InTasks(s.workQ);
  }

  lemma StopInOrder(s: State)
    requires InOrder(s) && Enabled(s, BeginStop)
    ensures InOrder(Apply(s, BeginStop))
  {
    TasksSnoc(s.workQ, NullTask);
    assert InTasks(s.workQ) + [] == InTasks(s.workQ);
  }

  /** What other steps do to the order's parts. */
  lemma OrderEffect(s: State, step: Step)
    requires Enabled(s, step) && !step.QueueWork? && !step.Take? && !step.QueueDrain? && !step.BeginStop?
    ensures var t := Apply(s, step);
      && t.taken == s.taken && t.workQ == s.workQ && t.accepted == s.accepted
      && (forall w | w in InWorking(t.working) :: w in InWorking(s.working))
      && (|t.pushed| == |s.pushed| ==> t.pushed == s.pushed)
      && (|t.pushed| != |s.pushed| ==>
            exists x :: t.pushed == s.pushed + [x] && (x.End? ==> x.before == s.taken && x.w in InWorking(s.working)))
  {
    var t := Apply(s, step);
    if |t.pushed| != |s.pushed| {
      assert t.pushed == s.pushed + [t.pushed[|s.pushed|]];
    }
  }

  lemma OrderStep(s: State, step: Step)
    requires InOrder(s) && Enabled(s, step)
    ensures InOrder(Apply(s, step))
  {
    match step
    case QueueWork(w) => QueueInOrder(s, w);
    case QueueDrain => DrainInOrder(s);
    case BeginStop => StopInOrder(s);
    case Take => TakeInOrder(s);
    case _ => OtherInOrder(s, step);
  }

  lemma OtherInOrder(s: State, step: Step)
    requires InOrder(s) && Enabled(s, step)
    requires !step.QueueWork? && !step.QueueDrain? && !step.BeginStop? && !step.Take?
    ensures InOrder(Apply(s, step))
  {
    OrderEffect(s, step);
    StepGrows(s, step);
    DirectGrows(s, Apply(s, step));
    assert s.taken <= s.taken;
  }

  lemma DirectGrows(s: State, t: State)
    requires Grows(s, t)
    ensures forall w | w in s.direct :: w in t.direct
  {
    assert t.direct[..|s.direct|] == s.direct;
  }

  ghost predicate EndInv(s: State) {
    CleanEnds(s) && TakenSomewhere(s) && InOrder(s)
  }

  lemma {:induction false} EndRun(s: State, steps: seq<Step>)
    requires EndInv(s) && Allowed(s, steps)
    ensures EndInv(Result(s, steps))
    decreases |steps|
  {
    if |steps| > 0 {
      CleanStep(s, steps[0]);
      SomewhereStep(s, steps[0]);
      OrderStep(s, steps[0]);
      EndRun(Apply(s, steps[0]), steps[1..]);
    }
  }

  lemma {:induction false} ThroughPosition(accepted: seq<Work>, a: nat)
    requires a < |accepted| && !(accepted[a].empty && !accepted[a].eos)
    ensures |Through(accepted[..a])| < |Through(accepted)| && Through(accepted)[|Through(accepted[..a])|] == accepted[a]
  {
    var t := accepted[..|accepted| - 1];
    if a < |t| {
      ThroughPosition(t, a);
      assert t[..a] == accepted[..a];
    } else {
      assert accepted[..a] == t;
    }
  }

  lemma {:induction false} ThroughTimes(accepted: seq<Work>, x: Work)
    ensures Times(Through(accepted), x) <= Times(accepted, x)
  {
    if |accepted| > 0 {
      var t, w := accepted[..|accepted| - 1], accepted[|accepted| - 1];
      ThroughTimes(t, x);
      TimesAppend(Through(t), [w], x);
      assert [w][..0] == [];
      assert Through(t) + [] == Through(t);
    }
  }

  lemma ThroughDifferent(steps: seq<Step>)
    requires Allowed(INITIAL, steps)
    ensures Different(Through(Result(INITIAL, steps).accepted))
  {
    var r := Result(INITIAL, steps);
    forall x
      ensures Times(Through(r.accepted), x) <= 1
    {
      AcceptedOnce(INITIAL, steps, x);
      ThroughTimes(r.accepted, x);
    }
    OnceDifferent(Through(r.accepted));
  }

  /** Works accepted before the end of the stream were taken before it. */
  lemma TakenBeforeEnd(accepted: seq<Work>, before: seq<Work>, a: nat, b: nat)
    requires a < b < |accepted| && Different(Through(accepted)) && before <= Through(accepted) && accepted[b] in before
    requires !(accepted[a].empty && !accepted[a].eos) && !(accepted[b].empty && !accepted[b].eos)
    ensures accepted[a] in before && accepted[a] != accepted[b]
  {
    ThroughPosition(accepted, b);
    ThroughPosition(accepted, a);
    ThroughPosition(accepted[..b], a);
    assert accepted[..b][..a] == accepted[..a];
    var pa, pb := |Through(accepted[..a])|, |Through(accepted[..b])|;
    var q :| 0 <= q < |before| && before[q] == accepted[b];
    assert Through(accepted)[q] == before[q] == Through(accepted)[pb];
    assert q == pb;
    assert before[pa] == Through(accepted)[pa];
  }

  /** When a drain's encodes all succeed, its end-of-stream work is notified after every work
      queued before it: those were answered directly, dropped with an error, or delivered
      before it. */
  lemma EndOfStreamLast(steps: seq<Step>, i: nat, a: nat, b: nat)
    requires Allowed(INITIAL, steps)
    requires var r := Result(INITIAL, steps);
      && i < |r.delivered| && i < |r.pushed| && r.pushed[i].End? && r.pushed[i].clean
      && a < b < |r.accepted| && r.accepted[b] == r.pushed[i].w
    ensures var r := Result(INITIAL, steps);
      && r.delivered[i] == r.pushed[i].w
      && (|| r.accepted[a] in r.direct
          || Exit(r.accepted[a], false) in r.exits
          || exists k :: 0 <= k < i && r.delivered[k] == r.accepted[a])
  {
    var r := Result(INITIAL, steps);
    EndRun(INITIAL, steps);
    FifoRun(INITIAL, steps);
    PushedAt(r.pushed);
    assert forall k | 0 <= k < |r.delivered| :: r.delivered[k] == PushedWorks(r.pushed)[k];
    var w := r.accepted[a];
    if !(w.empty && !w.eos) {
      ThroughDifferent(steps);
      EndWorkThrough(r, i, b);
      TakenBeforeEnd(r.accepted, r.pushed[i].before, a, b);
      AnsweredDelivered(r, w, i);
    }
  }

  lemma EndWorkThrough(r: State, i: nat, b: nat)
    requires InOrder(r) && i < |r.pushed| && r.pushed[i].End? && b < |r.accepted| && r.accepted[b] == r.pushed[i].w
    ensures r.pushed[i].before <= Through(r.accepted)
    ensures !(r.accepted[b].empty && !r.accepted[b].eos)
  {
    var w := r.accepted[b];
    ThroughOnly(r.accepted);
    assert w in Through(r.accepted) by {
      var before := r.pushed[i].before;
      var q :| 0 <= q < |before| && before[q] == w;
      assert Through(r.accepted)[q] == w;
    }
  }

  lemma {:induction false} ThroughOnly(accepted: seq<Work>)
    ensures forall w | w in Through(accepted) :: !(w.empty && !w.eos)
  {
    if |accepted| > 0 {
      ThroughOnly(accepted[..|accepted| - 1]);
    }
  }

  lemma {:induction false} PushedAt(pushed: seq<Pushed>)
    ensures |PushedWorks(pushed)| == |pushed|
    ensures forall k | 0 <= k < |pushed| :: PushedWorks(pushed)[k] == pushed[k].w
  {
    if |pushed| > 0 {
      PushedAt(pushed[..|pushed| - 1]);
    }
  }

  lemma AnsweredDelivered(r: State, w: Work, i: nat)
    requires CleanEnds(r) && i < |r.delivered| && i < |r.pushed| && r.pushed[i].End? && r.pushed[i].clean
    requires w in r.pushed[i].before && w != r.pushed[i].w
    requires forall k | 0 <= k < |r.delivered| :: k < |r.pushed| && r.delivered[k] == r.pushed[k].w
    ensures w in r.direct || Exit(w, false) in r.exits || exists k :: 0 <= k < i && r.delivered[k] == w
  {
    assert Answered(r.direct, r.exits, r.pushed, w, i);
    if w !in r.direct && Exit(w, false) !in r.exits {
      var k :| 0 <= k < i && r.pushed[k].w == w;
      assert r.delivered[k] == w;
    }
  }
}
