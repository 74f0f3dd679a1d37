/** What a null command left in the waiting queue does to the counter: after a restart with
    one, outputs can be left over into the next session, which starts to count from 0. */
module DecoderRestarts {
  import opened DecoderPipeline
  import opened DecoderBounds
  import opened DecoderGuards
  import opened NullCommands
  import opened DecoderStops

  // ---------- runs of a client that aborts nothing and stops only started threads

  predicate Regular(s: State, step: Step) {
    Disciplined(s, step) && step != C(BeginStop(true))
  }

  predicate AllRegular(s: State, steps: seq<Step>)
    requires Allowed(s, steps)
    decreases |steps|
  {
    |steps| == 0 || (Regular(s, steps[0]) && AllRegular(Apply(s, steps[0]), steps[1..]))
  }

  ghost predicate Reaches(s: State, steps: seq<Step>, t: State) {
    Allowed(s, steps) && AllRegular(s, steps) && Result(s, steps) == t
  }

  /** The second state comes after the first in such a run. */
  ghost predicate Leads(s: State, t: State) {
    exists steps :: Reaches(s, steps, t)
  }

  lemma {:induction false} RegularSnoc(s: State, steps: seq<Step>, t: State, step: Step)
    requires Reaches(s, steps, t) && Enabled(t, step) && Regular(t, step)
    ensures Reaches(s, steps + [step], Apply(t, step))
    decreases |steps|
  {
    if |steps| == 0 {
      assert steps + [step] == [step] && [step][1..] == [];
    } else {
      RegularSnoc(Apply(s, steps[0]), steps[1..], t, step);
      assert (steps + [step])[1..] == steps[1..] + [step];
    }
  }

  lemma LeadsSelf(s: State)
    ensures Leads(s, s)
  {
    assert Reaches(s, [], s);
  }

  lemma On(s: State, t: State, step: Step) returns (u: State)
    requires Leads(s, t) && Enabled(t, step) && Regular(t, step)
    ensures u == Apply(t, step) && Leads(s, u)
  {
    var steps :| Reaches(s, steps, t);
    u := Apply(t, step);
    RegularSnoc(s, steps, t, step);
  }

  // ---------- the waiting thread meets the null command

  /** The waiting thread's steps change nothing of this. */
  predicate SameSession(s: State, t: State) {
    && t.client == s.client && t.working == s.working && t.workQ == s.workQ && t.depth == s.depth
    && t.flushing == s.flushing && t.eosReceived == s.eosReceived
  }

  lemma ServeOne(s0: State, s: State) returns (t: State)
    requires Leads(s0, s) && s.waiting == Free && |s.waitQ| > 0 && s.waitQ[0] != NullWait
    ensures Leads(s0, t) && SameSession(s, t) && t.waiting == Free && t.waitQ == s.waitQ[1..]
    ensures t.synced == s.synced - if s.waitQ[0].WaitWork? then 1 else 0
  {
    t := On(s0, s, A(TakeWait));
    if t.waiting == Syncing {
      t := On(s0, t, A(Match(0, {})));
      t := On(s0, t, A(Notify));
      t := On(s0, t, A(Decrement));
    } else {
      t := On(s0, t, A(Notify));
    }
  }

  /** Everything before the null command is served, then the thread ends. */
  lemma {:induction false} ServeToNull(s0: State, s: State) returns (t: State)
    requires Leads(s0, s) && s.waiting == Free && |s.waitQ| > 0 && EndsNull(s.waitQ)
    ensures Leads(s0, t) && SameSession(s, t) && t.waiting == Gone && t.waitQ == Behind(s.waitQ, NullWait)
    ensures Waits(s.waitQ) == 0 ==> t.synced == s.synced
    decreases |s.waitQ|
  {
    if s.waitQ[0] == NullWait {
      t := On(s0, s, A(TakeWait));
    } else {
      t := ServeOne(s0, s);
      t := ServeToNull(s0, t);
    }
  }

  // ---------- the working thread gets on

  lemma DriveOne(s0: State, s: State) returns (t: State)
    requires Leads(s0, s) && s.working == Idle && |s.workQ| > 0 && s.workQ[0] != NullTask && !s.flushing
    ensures Leads(s0, t)
    ensures t == s.(workQ := s.workQ[1..], pending := t.pending, notified := t.notified)
  {
    t := On(s0, s, W(DecoderPipeline.Take(false)));
    if t.working.Got? {
      t := On(s0, t, W(WorkingStep.Empty));
    } else if t.working == Resetting {
      t := On(s0, t, W(ResetDone));
    }
  }

  /** The first i tasks are answered without output. */
  lemma {:induction false} DriveTo(s0: State, s: State, i: nat) returns (t: State)
    requires Leads(s0, s) && s.working == Idle && !s.flushing
    requires i <= |s.workQ| && NullTask !in s.workQ[..i]
    ensures Leads(s0, t)
    ensures t == s.(workQ := s.workQ[i..], pending := t.pending, notified := t.notified)
    decreases i
  {
    t := s;
    if i > 0 {
      assert s.workQ[0] in s.workQ[..i];
      t := DriveOne(s0, s);
      assert t.workQ[..i - 1] == s.workQ[..i][1..] && t.workQ[i - 1..] == s.workQ[i..];
      t := DriveTo(s0, t, i - 1);
    }
  }

  // ---------- sessions

  /** The threads were just started, with a null command in the waiting queue. */
  predicate Fresh(s: State) {
    && s.client == Ready && s.working == Idle && s.waiting == Free && !s.flushing && !s.eosReceived && s.synced == 0
    && |s.waitQ| > 0 && EndsNull(s.waitQ)
  }

  /** Where the first null command is, at the end of the queue if there is none. */
  predicate FirstNull(q: seq<WorkTask>, i: nat) {
    i <= |q| && NullTask !in q[..i] && (i < |q| ==> q[i] == NullTask)
  }

  lemma {:induction false} FindNull(q: seq<WorkTask>) returns (i: nat)
    ensures FirstNull(q, i)
  {
    i := 0;
    if |q| > 0 && q[0] != NullTask {
      var j := FindNull(q[1..]);
      i := j + 1;
      assert q[..i] == [q[0]] + q[1..][..j];
    }
  }

  lemma CloseWorking(s0: State, s: State, i: nat) returns (t: State)
    requires Leads(s0, s) && s.client == Ready && s.working == Idle && !s.flushing && FirstNull(s.workQ, i)
    ensures Leads(s0, t) && t.client == StopWaiting(false) && t.working == Absent && !t.flushing
    ensures t.waiting == s.waiting && t.waitQ == s.waitQ && t.depth == s.depth
    ensures t.workQ == (s.workQ + [NullTask])[i + 1..]
  {
    t := On(s0, s, C(BeginStop(false)));
    assert t.workQ[..i] == s.workQ[..i];
    ghost var q := t.workQ;
    t := DriveTo(s0, t, i);
    assert t.workQ == q[i..] && t.workQ[0] == NullTask;
    t := On(s0, t, W(DecoderPipeline.Take(false)));
    t := On(s0, t, C(JoinWorking));
  }

  /** With the waiting thread gone the stop's null command is left, and found by the start. */
  lemma CloseWaiting(s0: State, s: State) returns (t: State)
    requires Leads(s0, s) && s.client == StopWaiting(false) && s.waiting == Gone
    ensures Leads(s0, t)
    ensures t == s.(client := StopPending, waiting := Missing, waitQ := s.waitQ + [NullWait], aborted := t.aborted)
  {
    t := On(s0, s, C(BeginWaitingStop));
    t := On(s0, t, C(JoinWaiting));
  }

  lemma CloseAndStart(s0: State, s: State) returns (t: State)
    requires Leads(s0, s) && s.client == StopWaiting(false) && s.working == Absent && s.waiting == Gone && !s.flushing
    ensures Leads(s0, t) && Fresh(t) && t.depth == s.depth
    ensures t.workQ == s.workQ && t.waitQ == s.waitQ + [NullWait]
  {
    t := CloseWaiting(s0, s);
    t := On(s0, t, C(ClearPending));
    t := On(s0, t, C(Start(true)));
  }

  lemma Restart(s0: State, s: State, i: nat) returns (t: State)
    requires Leads(s0, s) && s.client == Ready && s.working == Idle && s.waiting == Gone && !s.flushing
    requires FirstNull(s.workQ, i)
    ensures Leads(s0, t) && Fresh(t) && t.depth == s.depth
    ensures t.workQ == (s.workQ + [NullTask])[i + 1..] && t.waitQ == s.waitQ + [NullWait]
  {
    t := CloseWorking(s0, s, i);
    t := CloseAndStart(s0, t);
  }

  lemma Larger(p: seq<Work>) returns (n: nat)
    ensures forall w | w in p :: w.id < n
  {
    n := 0;
    for i := 0 to |p|
      invariant forall j | 0 <= j < i :: p[j].id < n
    {
      n := if p[i].id < n then n else p[i].id + 1;
    }
  }

  /** A new work joins the queue. */
  lemma QueueNew(s0: State, s: State) returns (t: State, w: Work)
    requires Leads(s0, s) && s.client == Ready && !s.eosReceived
    ensures Leads(s0, t) && t == s.(accepted := t.accepted, workQ := s.workQ + [DoWork(w)])
  {
    var id := Larger(s.accepted);
    w := Work(id, 0, 0, false, false, true);
    t := On(s0, s, C(QueueWork(w)));
  }

  /** The front work is taken and pending, about to be decoded. */
  lemma WorkPends(s0: State, s: State) returns (t: State)
    requires Leads(s0, s) && s.working == Idle && !s.flushing && |s.workQ| > 0 && s.workQ[0].DoWork?
    ensures Leads(s0, t) && t.working.Run? && t.working.job.Decode?
    ensures t == s.(workQ := s.workQ[1..], working := t.working, pending := t.pending, notified := t.notified)
  {
    t := On(s0, s, W(DecoderPipeline.Take(true)));
    t := On(s0, t, W(Pend));
  }

  /** It gives an output, and the thread is done with it. */
  lemma OutputMade(s0: State, s: State) returns (t: State)
    requires Leads(s0, s) && s.working.Run? && s.working.job.Decode? && s.synced == 0 && s.depth > 0
    ensures Leads(s0, t) && t == s.(waitQ := s.waitQ + [WaitWork], working := Idle, synced := 1)
  {
    t := On(s0, s, W(Gate));
    t := On(s0, t, W(Output));
    t := On(s0, t, W(Increment));
    t := On(s0, t, W(Leave));
    t := On(s0, t, W(Report(false)));
  }

  // ---------- the counter is misread

  /** A read of 0 with an output outstanding. */
  predicate Misread(s: State) {
    s.working.Run? && s.synced == 0 && Outstanding(s) > 0
  }

  lemma {:induction false} WaitsPositive(q: seq<WaitTask>)
    requires WaitWork in q
    ensures Waits(q) > 0
  {
    if q[0] != WaitWork {
      assert q == [q[0]] + q[1..];
      WaitsPositive(q[1..]);
    }
  }

  /** A work at the front, and behind it nothing, or a null command and a second one. */
  predicate InPlace(q: seq<WorkTask>, k: nat) {
    && k < |q| && q[k].DoWork?
    && (k + 1 < |q| ==> q[k + 1] == NullTask && k + 2 < |q| && q[k + 2].DoWork?)
  }

  /** The last session: an output was left over before it, and its first work is decoded. */
  lemma ReadsLeftOver(s0: State, s: State) returns (t: State)
    requires Leads(s0, s) && Fresh(s) && WaitWork in s.waitQ
    requires |s.workQ| == 0 || s.workQ[0].DoWork?
    ensures Leads(s0, t) && Misread(t) && t.waitQ == s.waitQ && t.waiting == Free && t.depth == s.depth
  {
    t := s;
    if |s.workQ| == 0 {
      var w;
      t, w := QueueNew(s0, s);
      assert t.workQ == [DoWork(w)];
    }
    t := WorkPends(s0, t);
    WaitsPositive(t.waitQ);
  }

  /** The session before it: the output is made with the waiting thread gone. */
  lemma LeavesOutput(s0: State, s: State) returns (t: State)
    requires Leads(s0, s) && Fresh(s) && s.depth > 0 && Waits(s.waitQ) == 0 && InPlace(s.workQ, 0)
    ensures Leads(s0, t) && Misread(t) && t.waitQ == Behind(s.waitQ, NullWait) + [WaitWork, NullWait]
    ensures t.waiting == Free && t.depth == s.depth
  {
    t := ServeToNull(s0, s);
    t := WorkPends(s0, t);
    t := OutputMade(s0, t);
    assert FirstNull(t.workQ, 0);
    ghost var q, wq := t.workQ, t.waitQ;
    t := Restart(s0, t, 0);
    assert |q| > 0 ==> t.workQ[0] == q[1];
    LeftInQueue(Behind(s.waitQ, NullWait), wq, t.waitQ);
    t := ReadsLeftOver(s0, t);
  }

  lemma LeftInQueue(b: seq<WaitTask>, q: seq<WaitTask>, r: seq<WaitTask>)
    requires q == b + [WaitWork] && r == q + [NullWait]
    ensures r == b + [WaitWork, NullWait] && WaitWork in r
  {
    assert r[|b|] == WaitWork;
  }

  lemma RestartPlace(q: seq<WorkTask>, i: nat, k: nat)
    requires FirstNull(q, i) && i < k && InPlace(q, k) && k + 1 < |q|
    ensures InPlace((q + [NullTask])[i + 1..], k - i - 1) && k - i < |(q + [NullTask])[i + 1..]|
  {
  }

  /** Session after session the works come to the front. */
  lemma {:induction false} Misreads(s0: State, s: State, k: nat) returns (t: State)
    requires Leads(s0, s) && Fresh(s) && s.depth > 0 && InPlace(s.workQ, k)
    requires k + 1 < |s.workQ| || NullTask !in s.workQ
    ensures Leads(s0, t) && Misread(t)
    decreases k
  {
    var i := FindNull(s.workQ);
    if i < k {
      t := ServeToNull(s0, s);
      t := Restart(s0, t, i);
      RestartPlace(s.workQ, i, k);
      t := Misreads(s0, t, k - i - 1);
    } else {
      assert NullTask !in s.workQ[..k] by {
        assert forall x | x in s.workQ[..k] :: x in s.workQ[..i];
      }
      t := DriveTo(s0, s, k);
      if Waits(s.waitQ) > 0 {
        t := WorkPends(s0, t);
      } else {
        t := LeavesOutput(s0, t);
      }
    }
  }

  // ---------- the exact condition

  /** After a start from s the counter is read right in every run whose stops find started
      threads; without aborted ones, or with them. */
  ghost predicate CounterKept(s: State, aborts: bool)
    requires s.client == Down
  {
    var s0 := Apply(s, C(Start(true)));
    forall steps | Allowed(s0, steps) && AllDisciplined(s0, steps) && (aborts || !Aborts(steps)) ::
      CounterRight(Result(s0, steps))
  }

  lemma {:induction false} CountedRun(s: State, steps: seq<Step>)
    requires WaitingInLane(s) && Counted(s) && s.depth < 0x1_0000_0000
    requires Allowed(s, steps) && AllDisciplined(s, steps)
    ensures Counted(Result(s, steps)) && Result(s, steps).depth == s.depth
    decreases |steps|
  {
    if |steps| > 0 {
      CountedLaneStep(s, steps[0]);
      CountedRun(Apply(s, steps[0]), steps[1..]);
    }
  }

  lemma CountedLaneStep(s: State, step: Step)
    requires WaitingInLane(s) && Counted(s) && s.depth < 0x1_0000_0000 && Enabled(s, step) && Disciplined(s, step)
    ensures WaitingInLane(Apply(s, step)) && Counted(Apply(s, step)) && Apply(s, step).depth == s.depth
  {
    match step
    case C(c) =>
      ClientInLane(s, c);
      ClientCounted(s, c);
    case W(w) =>
      WorkingKeepsLane(s, w);
      WorkingCounted(s, w);
      WorkingEffect(s, w);
    case A(a) =>
      WaitingKeepsLane(s, a);
      WaitingCounted(s, a);
      WaitingEffect(s, a);
  }

  lemma CounterKeptFrom(s: State, steps: seq<Step>)
    requires Sound(s) && s.client == Down && s.depth < 0x1_0000_0000 && |s.waitQ| == 0
    requires var s0 := Apply(s, C(Start(true))); Allowed(s0, steps) && AllDisciplined(s0, steps)
    ensures CounterRight(Result(Apply(s, C(Start(true))), steps))
  {
    var s0 := Apply(s, C(Start(true)));
    CountedRun(s0, steps);
    RightWhenCounted(Result(s0, steps));
  }

  /** The works are queued: one if no null command is in the way, else another one a session
      later. */
  lemma CounterLost(s: State) returns (t: State)
    requires Sound(s) && s.client == Down && s.depth > 0 && |s.waitQ| > 0
    ensures Leads(Apply(s, C(Start(true))), t) && Misread(t)
  {
    var s0 := Apply(s, C(Start(true)));
    LeadsSelf(s0);
    var i := FindNull(s.workQ);
    var w;
    t, w := QueueNew(s0, s0);
    if i == |s.workQ| {
      assert s.workQ[..i] == s.workQ && NullTask !in t.workQ;
      t := Misreads(s0, t, i);
    } else {
      ghost var q := t.workQ;
      assert q[..i] == s.workQ[..i];
      t := ServeToNull(s0, t);
      t := Restart(s0, t, i);
      assert t.workQ == q[i + 1..] + [NullTask];
      var k := |q| - i - 2;
      t, w := QueueNew(s0, t);
      t := Misreads(s0, t, k);
    }
  }

  lemma {:induction false} RegularRun(s: State, steps: seq<Step>)
    requires Allowed(s, steps) && AllRegular(s, steps)
    ensures AllDisciplined(s, steps) && !Aborts(steps)
    decreases |steps|
  {
    if |steps| > 0 {
      RegularRun(Apply(s, steps[0]), steps[1..]);
      assert steps == [steps[0]] + steps[1..];
    }
  }

  /** Once the threads are started from a state reached by any run, the counter is sure to be
      read right over all later sessions exactly when no null command was left in the waiting
      queue, whether stops may abort or not. One left in the working queue does not matter. */
  lemma CounterGuard(depth: nat, steps: seq<Step>, aborts: bool)
    requires 0 < depth < 0x1_0000_0000 && Allowed(Initial(depth), steps)
    requires Result(Initial(depth), steps).client == Down
    ensures CounterKept(Result(Initial(depth), steps), aborts) <==> NullWait !in Result(Initial(depth), steps).waitQ
  {
    var s := Result(Initial(depth), steps);
    SoundInitially(depth);
    SoundRun(Initial(depth), steps);
    assert |s.waitQ| > 0 <==> NullWait in s.waitQ;
    var s0 := Apply(s, C(Start(true)));
    if |s.waitQ| == 0 {
      forall more | Allowed(s0, more) && AllDisciplined(s0, more) && (aborts || !Aborts(more))
        ensures CounterRight(Result(s0, more))
      {
        CounterKeptFrom(s, more);
      }
    } else {
      var t := CounterLost(s);
      var more :| Reaches(s0, more, t);
      RegularRun(s0, more);
      assert !CounterRight(Result(s0, more));
    }
  }

  // ---------- the counter wraps

  /** The gate reads 2^32 - 1 and stays closed with nothing outstanding. */
  predicate Wrapped(s: State) {
    && s.working.Run? && s.synced == -1 && Unsigned(s.synced) == 0xFFFF_FFFF
    && Outstanding(s) == 0 && !WorkingEnabled(s, Gate)
  }

  /** The output left over is delivered while the work is decoded. */
  lemma LateDelivery(s0: State, s: State) returns (t: State)
    requires Leads(s0, s) && Misread(s) && s.waiting == Free && s.waitQ == [WaitWork, NullWait]
    requires s.depth < 0x1_0000_0000
    ensures Leads(s0, t) && Wrapped(t)
  {
    t := ServeOne(s0, s);
    assert t.waitQ == [NullWait] && Waits([NullWait]) == 0;
  }

  /** Three sessions after a stop of unstarted threads, which left a null command in both
      queues: a work is queued in each of the first two. */
  lemma WrapsFrom(s: State) returns (t: State)
    requires Sound(s) && s.client == Down && 0 < s.depth < 0x1_0000_0000
    requires s.workQ == [NullTask] && s.waitQ == [NullWait]
    ensures Leads(Apply(s, C(Start(true))), t) && Wrapped(t)
  {
    var s0 := Apply(s, C(Start(true)));
    LeadsSelf(s0);
    var v, w;
    t, v := QueueNew(s0, s0);
    t := ServeToNull(s0, t);
    assert t.workQ == [NullTask, DoWork(v)] && FirstNull(t.workQ, 0);
    t := Restart(s0, t, 0);
    assert t.workQ == [DoWork(v), NullTask] && t.waitQ == [NullWait];
    t, w := QueueNew(s0, t);
    assert t.workQ == [DoWork(v), NullTask, DoWork(w)] && Waits([NullWait]) == 0;
    t := LeavesOutput(s0, t);
    assert Behind([NullWait], NullWait) == [];
    assert [] + [WaitWork, NullWait] == [WaitWork, NullWait];
    t := LateDelivery(s0, t);
  }

  /** A stop of threads that were never started is enough for the counter to wrap, without any
      abort: later the output left over is delivered into a session that has not counted it. */
  lemma WrappedCounter(depth: nat) returns (steps: seq<Step>)
    requires 0 < depth < 0x1_0000_0000
    ensures Allowed(Initial(depth), steps) && Wrapped(Result(Initial(depth), steps)) && !Aborts(steps)
  {
    var s := Initial(depth);
    var before := UnstartedLeavesNull(depth);
    SoundInitially(depth);
    SoundRun(s, before);
    var r := Result(s, before);
    var t := WrapsFrom(r);
    var s0 := Apply(r, C(Start(true)));
    var rest :| Reaches(s0, rest, t);
    RegularRun(s0, rest);
    RunFrom(r, C(Start(true)), rest);
    Concat(s, before, [C(Start(true))] + rest);
    steps := before + ([C(Start(true))] + rest);
  }
}
