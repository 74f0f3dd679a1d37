/** Every work the decoder accepts is in exactly one place, in every interleaving. */
module DecoderConservation {
  import opened DecoderPipeline

  function InJob(job: Job): seq<Work> {
    if job.Drain? then Opt(job.eos) else []
  }

  function InWorking(w: Working): seq<Work> {
    match w
    case Got(x) => [x]
    case Run(job) => InJob(job)
    case Gated(job) => InJob(job)
    case Counting(job) => InJob(job)
    case Held(x, _) => [x]
    case _ => []
  }

  function InWaiting(a: Waiting): seq<Work> {
    match a
    case Matched(o) => Opt(o)
    case Eos(x) => [x]
    case _ => []
  }

  /** A way to weigh lists of works that adds up, such as counting one of them. */
  ghost predicate Additive(m: seq<Work> -> int) {
    m([]) == 0 && forall a, b :: m(a + b) == m(a) + m(b)
  }

  /** The weight of all places a work can be in: queued for either thread, in a thread's
      hands, pending, flushed, notified, returned by a flush, dropped by an abort. */
  function Places(s: State, m: seq<Work> -> int): int {
    m(InTasks(s.workQ)) + m(InWorking(s.working)) + m(InWaits(s.waitQ)) + m(InWaiting(s.waiting))
      + m(s.pending) + m(s.flushed) + m(s.notified) + m(s.returned) + m(s.aborted)
  }

  ghost predicate Conserved(s: State, m: seq<Work> -> int) {
    m(s.accepted) == Places(s, m)
  }

  lemma TasksPopped(q: seq<WorkTask>, m: seq<Work> -> int)
    requires Additive(m) && |q| > 0
    ensures m(InTasks(q)) == m(InTask(q[0])) + m(InTasks(q[1..]))
  {
  }

  lemma {:induction false} TasksPushed(q: seq<WorkTask>, t: WorkTask, m: seq<Work> -> int)
    requires Additive(m)
    ensures m(InTasks(q + [t])) == m(InTasks(q)) + m(InTask(t))
  {
    TasksPopped(q + [t], m);
    if |q| == 0 {
      assert (q + [t])[1..] == [];
    } else {
      TasksPopped(q, m);
      TasksPushed(q[1..], t, m);
      assert (q + [t])[1..] == q[1..] + [t];
    }
  }

  lemma WaitsPopped(q: seq<WaitTask>, m: seq<Work> -> int)
    requires Additive(m) && |q| > 0
    ensures m(InWaits(q)) == m(InWait(q[0])) + m(InWaits(q[1..]))
  {
  }

  lemma {:induction false} WaitsPushed(q: seq<WaitTask>, t: WaitTask, m: seq<Work> -> int)
    requires Additive(m)
    ensures m(InWaits(q + [t])) == m(InWaits(q)) + m(InWait(t))
  {
    WaitsPopped(q + [t], m);
    if |q| == 0 {
      assert (q + [t])[1..] == [];
    } else {
      WaitsPopped(q, m);
      WaitsPushed(q[1..], t, m);
      assert (q + [t])[1..] == q[1..] + [t];
    }
  }

  lemma RemoveAt(p: seq<Work>, k: nat, m: seq<Work> -> int)
    requires Additive(m) && k < |p|
    ensures m(p) == m(p[..k] + p[k + 1..]) + m([p[k]])
  {
    assert p == p[..k] + [p[k]] + p[k + 1..];
  }

  lemma WithoutWorks(p: seq<Work>, index: nat, m: seq<Work> -> int)
    requires Additive(m)
    ensures m(p) == m(Without(p, index)) + m(Opt(Replaced(p, index)))
  {
    var k := Position(p, index);
    if k < |p| && p[k].index == index {
      RemoveAt(p, k, m);
    }
  }

  lemma InsertedWorks(p: seq<Work>, w: Work, m: seq<Work> -> int)
    requires Additive(m)
    ensures m(p) + m([w]) == m(Inserted(p, w)) + m(Opt(Replaced(p, w.index)))
  {
    var q := Without(p, w.index);
    var k := Position(q, w.index);
    WithoutWorks(p, w.index, m);
    assert q == q[..k] + q[k..];
  }

  lemma {:induction false} SplitWorks(p: seq<Work>, index: nat, m: seq<Work> -> int)
    requires Additive(m)
    ensures m(p) == m(Only(p, index)) + m(Others(p, index))
  {
    if |p| > 0 {
      var t := p[..|p| - 1];
      SplitWorks(t, index, m);
      assert p == t + [p[|p| - 1]];
    }
  }

  lemma QueueConserves(s: State, w: Work, m: seq<Work> -> int)
    requires Additive(m) && Conserved(s, m) && ClientEnabled(s, QueueWork(w))
    ensures Conserved(Queued(s, w), m)
  {
    TasksPushed(s.workQ, PendTask(w), m);
    TasksPushed(s.workQ, DrainTask(Some(w)), m);
    TasksPushed(s.workQ, DoWork(w), m);
  }

  lemma StopConserves(s: State, abort: bool, m: seq<Work> -> int)
    requires Additive(m) && Conserved(s, m) && s.client == Ready
    ensures Conserved(ClientApply(s, BeginStop(abort)), m)
  {
    TasksPushed(s.workQ, NullTask, m);
    TasksPushed([], NullTask, m);
  }

  lemma StopWaitingConserves(s: State, m: seq<Work> -> int)
    requires Additive(m) && Conserved(s, m) && s.client.StopWaiting?
    ensures Conserved(ClientApply(s, BeginWaitingStop), m)
  {
    WaitsPushed(s.waitQ, NullWait, m);
    WaitsPushed([], NullWait, m);
  }

  lemma ClientConserves(s: State, c: ClientStep, m: seq<Work> -> int)
    requires Additive(m) && Conserved(s, m) && ClientEnabled(s, c)
    ensures Conserved(ClientApply(s, c), m)
  {
    match c
    case QueueWork(w) => QueueConserves(s, w, m);
    case QueueDrain => TasksPushed(s.workQ, DrainTask(None), m);
    case PushReset => TasksPushed(s.workQ, ResetTask, m);
    case BeginStop(abort) => StopConserves(s, abort, m);
    case BeginWaitingStop => StopWaitingConserves(s, m);
    case _ =>
  }

  lemma TakeDrain(s: State, initialized: bool, m: seq<Work> -> int)
    requires Additive(m) && Conserved(s, m) && WorkingEnabled(s, Take(initialized)) && s.workQ[0].DrainTask?
    ensures Conserved(Taken(s, initialized), m)
  {
    TasksPopped(s.workQ, m);
  }

  lemma TakeWork(s: State, initialized: bool, m: seq<Work> -> int)
    requires Additive(m) && Conserved(s, m) && WorkingEnabled(s, Take(initialized)) && s.workQ[0].DoWork?
    ensures Conserved(Taken(s, initialized), m)
  {
    TasksPopped(s.workQ, m);
  }

  lemma TakePend(s: State, initialized: bool, m: seq<Work> -> int)
    requires Additive(m) && Conserved(s, m) && WorkingEnabled(s, Take(initialized)) && s.workQ[0].PendTask?
    ensures Conserved(Taken(s, initialized), m)
  {
    TasksPopped(s.workQ, m);
    PendConserves(s, s.workQ[0].w, m);
  }

  lemma TakeConserves(s: State, initialized: bool, m: seq<Work> -> int)
    requires Additive(m) && Conserved(s, m) && WorkingEnabled(s, Take(initialized))
    ensures Conserved(Taken(s, initialized), m)
  {
    match s.workQ[0]
    case DoWork(_) => TakeWork(s, initialized, m);
    case DrainTask(_) => TakeDrain(s, initialized, m);
    case PendTask(_) => TakePend(s, initialized, m);
    case _ => TasksPopped(s.workQ, m);
  }

  lemma PendConserves(s: State, w: Work, m: seq<Work> -> int)
    requires Additive(m)
    ensures m(Inserted(s.pending, w)) + m(s.notified + Opt(Replaced(s.pending, w.index)))
      == m(s.pending) + m([w]) + m(s.notified)
  {
    InsertedWorks(s.pending, w, m);
  }

  lemma InterruptedConserves(s: State, job: Job, m: seq<Work> -> int)
    requires Additive(m) && Conserved(s, m) && InWorking(s.working) == InJob(job)
    ensures Conserved(Interrupted(s, job), m)
  {
  }

  lemma DoneConserves(s: State, job: Job, m: seq<Work> -> int)
    requires Additive(m) && Conserved(s, m) && InWorking(s.working) == InJob(job)
    ensures Conserved(Done(s, job), m)
  {
    if job.Drain? && job.eos.Some? {
      WaitsPushed(s.waitQ, EosTask(job.eos.value), m);
    }
  }

  lemma ReportConserves(s: State, i: nat, flushing: bool, take: bool, m: seq<Work> -> int)
    requires Additive(m) && Conserved(s, m) && InWorking(s.working) == []
    ensures Conserved(Reported(s, i, flushing, take), m)
  {
    WithoutWorks(s.pending, i, m);
  }

  lemma DeliverConserves(s: State, m: seq<Work> -> int)
    requires Additive(m) && Conserved(s, m) && WorkingEnabled(s, Deliver)
    ensures Conserved(WorkingApply(s, Deliver), m)
  {
  }

  lemma ClearConserves(s: State, m: seq<Work> -> int)
    requires Additive(m) && Conserved(s, m) && WorkingEnabled(s, ClearOthers)
    ensures Conserved(WorkingApply(s, ClearOthers), m)
  {
    SplitWorks(s.pending, s.working.index, m);
  }

  lemma WorkingConserves(s: State, w: WorkingStep, m: seq<Work> -> int)
    requires Additive(m) && Conserved(s, m) && WorkingEnabled(s, w)
    ensures Conserved(WorkingApply(s, w), m)
  {
    match w
    case Take(initialized) => TakeConserves(s, initialized, m);
    case Pend => PendConserves(s, s.working.w, m);
    case Output => WaitsPushed(s.waitQ, WaitWork, m);
    case Busy => InterruptedConserves(s, s.working.job, m);
    case SkipDrain => InterruptedConserves(s, s.working.job, m);
    case Leave => DoneConserves(s, s.working.job, m);
    case ClearOthers => ClearConserves(s, m);
    case Report(take) => ReportConserves(s, s.working.index, s.working.flushing, take, m);
    case Deliver => DeliverConserves(s, m);
    case _ =>
  }

  lemma MatchConserves(s: State, ready: nat, alike: set<nat>, m: seq<Work> -> int)
    requires Additive(m) && Conserved(s, m) && WaitingEnabled(s, Match(ready, alike))
    ensures Conserved(WaitingApply(s, Match(ready, alike)), m)
  {
    var k := FirstMatch(s.pending, ready, alike);
    if k < |s.pending| {
      RemoveAt(s.pending, k, m);
    }
  }

  lemma TakeWaitConserves(s: State, m: seq<Work> -> int)
    requires Additive(m) && Conserved(s, m) && WaitingEnabled(s, TakeWait)
    ensures Conserved(WaitingApply(s, TakeWait), m)
  {
    var t := WaitingApply(s, TakeWait);
    WaitsPopped(s.waitQ, m);
    assert InWaiting(t.waiting) == InWait(s.waitQ[0]);
    assert t.waitQ == s.waitQ[1..];
    SamePlaces(s, t, m);
  }

  /** Places that differ only in the waiting thread and its queue. */
  lemma SamePlaces(s: State, t: State, m: seq<Work> -> int)
    requires Conserved(s, m) && t == s.(waitQ := t.waitQ, waiting := t.waiting)
    requires m(InWaits(s.waitQ)) + m(InWaiting(s.waiting)) == m(InWaits(t.waitQ)) + m(InWaiting(t.waiting))
    ensures Conserved(t, m)
  {
  }

  lemma NotifyConserves(s: State, m: seq<Work> -> int)
    requires Additive(m) && Conserved(s, m) && WaitingEnabled(s, Notify)
    ensures Conserved(WaitingApply(s, Notify), m)
  {
  }

  lemma WaitingConserves(s: State, a: WaitingStep, m: seq<Work> -> int)
    requires Additive(m) && Conserved(s, m) && WaitingEnabled(s, a)
    ensures Conserved(WaitingApply(s, a), m)
  {
    match a
    case TakeWait => TakeWaitConserves(s, m);
    case Match(ready, alike) => MatchConserves(s, ready, alike, m);
    case Notify => NotifyConserves(s, m);
    case Decrement =>
  }

  /** In every run every additive weight of the works accepted is the weight of the places. */
  lemma {:induction false} RunConserves(s: State, steps: seq<Step>, m: seq<Work> -> int)
    requires Additive(m) && Conserved(s, m) && Allowed(s, steps)
    ensures Conserved(Result(s, steps), m)
    decreases |steps|
  {
    if steps != [] {
      StepConserves(s, steps[0], m);
      RunConserves(Apply(s, steps[0]), steps[1..], m);
    }
  }

  lemma StepConserves(s: State, step: Step, m: seq<Work> -> int)
    requires Additive(m) && Conserved(s, m) && Enabled(s, step)
    ensures Conserved(Apply(s, step), m)
  {
    match step
    case C(c) => ClientConserves(s, c, m);
    case W(w) => WorkingConserves(s, w, m);
    case A(a) => WaitingConserves(s, a, m);
  }

  // ---------- each work in exactly one place

  function Count(p: seq<Work>, x: Work): nat {
    if |p| == 0 then 0 else Count(p[..|p| - 1], x) + if p[|p| - 1] == x then 1 else 0
  }

  lemma {:induction false} CountAppend(a: seq<Work>, b: seq<Work>, x: Work)
    ensures Count(a + b, x) == Count(a, x) + Count(b, x)
  {
    if |b| == 0 {
      assert a + b == a;
    } else {
      CountAppend(a, b[..|b| - 1], x);
      assert (a + b)[..|a + b| - 1] == a + b[..|b| - 1];
    }
  }

  lemma {:induction false} CountMember(p: seq<Work>, x: Work)
    ensures Count(p, x) == 0 <==> x !in p
  {
    if |p| > 0 {
      CountMember(p[..|p| - 1], x);
      assert p == p[..|p| - 1] + [p[|p| - 1]];
    }
  }

  /** The client hands over each work once. */
  ghost predicate Distinct(s: State) {
    forall x :: Count(s.accepted, x) <= 1
  }

  lemma QueueDistinct(s: State, w: Work)
    requires Distinct(s) && w !in s.accepted
    ensures Distinct(Queued(s, w))
  {
    forall x
      ensures Count(s.accepted + [w], x) <= 1
    {
      CountMember(s.accepted, w);
      CountAppend(s.accepted, [w], x);
      assert [w][..0] == [];
    }
  }

  lemma {:induction false} RunDistinct(s: State, steps: seq<Step>)
    requires Distinct(s) && Allowed(s, steps)
    ensures Distinct(Result(s, steps))
    decreases |steps|
  {
    if steps != [] {
      var t := Apply(s, steps[0]);
      if steps[0].C? && steps[0].c.QueueWork? {
        QueueDistinct(s, steps[0].c.w);
      } else {
        assert t.accepted == s.accepted;
      }
      RunDistinct(t, steps[1..]);
    }
  }

  /** In every interleaving each accepted work is in exactly one place, and nothing else is
      anywhere. */
  lemma ExactlyOnePlace(depth: nat, steps: seq<Step>, x: Work)
    requires Allowed(Initial(depth), steps)
    ensures Places(Result(Initial(depth), steps), p => Count(p, x))
      == if x in Result(Initial(depth), steps).accepted then 1 else 0
  {
    var m := p => Count(p, x);
    forall a, b
      ensures m(a + b) == m(a) + m(b)
    {
      CountAppend(a, b, x);
    }
    var s := Initial(depth);
    var r := Result(s, steps);
    RunConserves(s, steps, m);
    RunDistinct(s, steps);
    CountMember(r.accepted, x);
  }
}
