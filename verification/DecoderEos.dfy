/** The end of the decoder's stream: what is queued for works before it, at it and behind it. */
module DecoderEos {
  import opened DecoderPipeline
  import opened DecoderConservation
  import opened DecoderBounds
  import opened PendingWorksMap
  import opened StepHistory

  // ---------- the flag

  predicate QueuesEnd(step: Step) {
    step.C? && step.c.QueueWork? && step.c.w.valid && step.c.w.eos
  }

  /** A start, and the return of a flush. */
  predicate Reopens(step: Step) {
    step.C? && (step.c.Start? || step.c.ReturnFlushed?)
  }

  lemma EosStep(s: State, step: Step)
    requires Enabled(s, step)
    ensures Apply(s, step).eosReceived <==> QueuesEnd(step) || (s.eosReceived && !Reopens(step))
  {
    match step
    case C(c) =>
    case W(w) => WorkingKeepsEos(s, w);
    case A(a) =>
  }

  lemma WorkingKeepsEos(s: State, w: WorkingStep)
    requires WorkingEnabled(s, w)
    ensures WorkingApply(s, w).eosReceived == s.eosReceived
  {
    if w.Take? {
      assert Taken(s, w.initialized).eosReceived == s.eosReceived;
    }
  }

  lemma {:induction false} EosSince(s: State, steps: seq<Step>)
    requires Allowed(s, steps)
    ensures Result(s, steps).eosReceived
      <==> SetSince(steps, QueuesEnd, Reopens) || (s.eosReceived && Never(steps, Reopens))
    decreases |steps|
  {
    if |steps| > 0 {
      EosStep(s, steps[0]);
      EosSince(Apply(s, steps[0]), steps[1..]);
      SetFirst(steps, QueuesEnd, Reopens);
    }
  }

  /** In every run the component has the end of the stream exactly when a valid work with the
      flag was queued and neither a start nor the return of a flush came since. */
  lemma EosReceivedExact(depth: nat, steps: seq<Step>)
    requires Allowed(Initial(depth), steps)
    ensures Result(Initial(depth), steps).eosReceived <==> SetSince(steps, QueuesEnd, Reopens)
  {
    EosSince(Initial(depth), steps);
  }

  /** So an invalid work is answered at once; a work behind the end of the stream is made
      pending by the working thread, never decoded; an empty one that ends the stream drains
      the decoder; any other is decoded, and a drain is pushed next if it ends the stream. */
  lemma QueuedAs(depth: nat, before: seq<Step>, w: Work)
    requires Allowed(Initial(depth), before) && ClientEnabled(Result(Initial(depth), before), QueueWork(w))
    ensures var s, t := Result(Initial(depth), before), ClientApply(Result(Initial(depth), before), QueueWork(w));
      && (!w.valid ==> t.workQ == s.workQ && t.notified == s.notified + [w])
      && (w.valid && SetSince(before, QueuesEnd, Reopens) ==> t.workQ == s.workQ + [PendTask(w)])
      && (w.valid && !SetSince(before, QueuesEnd, Reopens) ==>
            t.workQ == s.workQ + [if w.eos && w.empty then DrainTask(Some(w)) else DoWork(w)])
      && (ClientEnabled(t, QueueDrain)
          <==> w.valid && w.eos && !w.empty && !SetSince(before, QueuesEnd, Reopens))
  {
    EosReceivedExact(depth, before);
  }

  lemma {:induction false} QueuedInTasks(q: seq<WorkTask>, w: Work)
    ensures DoWork(w) in q || DrainTask(Some(w)) in q ==> w in InTasks(q)
  {
    if |q| > 0 {
      QueuedInTasks(q[1..], w);
      assert q == [q[0]] + q[1..];
    }
  }

  /** The work is not decoded now, and no task queued will decode it. */
  predicate NotDecoded(s: State, w: Work) {
    w in s.accepted && DoWork(w) !in s.workQ && s.working != Got(w)
  }

  lemma NotDecodedStep(s: State, step: Step, w: Work)
    requires NotDecoded(s, w) && Enabled(s, step)
    ensures NotDecoded(Apply(s, step), w)
  {
    match step
    case C(c) => ClientNotDecoded(s, c, w);
    case W(x) => WorkingNotDecoded(s, x, w);
    case A(a) =>
      WaitingEffect(s, a);
      assert WaitingApply(s, a).accepted == s.accepted;
  }

  lemma ClientNotDecoded(s: State, c: ClientStep, w: Work)
    requires NotDecoded(s, w) && ClientEnabled(s, c)
    ensures NotDecoded(ClientApply(s, c), w)
  {
  }

  lemma WorkingNotDecoded(s: State, step: WorkingStep, w: Work)
    requires NotDecoded(s, w) && WorkingEnabled(s, step)
    ensures NotDecoded(WorkingApply(s, step), w)
  {
    WorkingEffect(s, step);
    if step.Take? {
      TakeNotDecoded(s, step.initialized, w);
    } else {
      WorkingAccepts(s, step);
    }
  }

  lemma TakeNotDecoded(s: State, initialized: bool, w: Work)
    requires NotDecoded(s, w) && |s.workQ| > 0
    ensures Taken(s, initialized).accepted == s.accepted && Taken(s, initialized).working != Got(w)
    ensures DoWork(w) !in s.workQ[1..]
  {
    assert s.workQ == [s.workQ[0]] + s.workQ[1..];
    assert s.workQ[0] != DoWork(w);
  }

  /** Only a take brings a new work into hand. */
  lemma WorkingAccepts(s: State, step: WorkingStep)
    requires WorkingEnabled(s, step) && !step.Take?
    ensures WorkingApply(s, step).accepted == s.accepted && !WorkingApply(s, step).working.Got?
  {
  }

  lemma {:induction false} NotDecodedRun(s: State, steps: seq<Step>, w: Work)
    requires NotDecoded(s, w) && Allowed(s, steps)
    ensures NotDecoded(Result(s, steps), w)
    decreases |steps|
  {
    if |steps| > 0 {
      NotDecodedStep(s, steps[0], w);
      NotDecodedRun(Apply(s, steps[0]), steps[1..], w);
    }
  }

  lemma NewWork(depth: nat, before: seq<Step>, w: Work)
    requires Allowed(Initial(depth), before) && w !in Result(Initial(depth), before).accepted
    ensures var s := Result(Initial(depth), before); DoWork(w) !in s.workQ && s.working != Got(w)
  {
    var s := Result(Initial(depth), before);
    ExactlyOnePlace(depth, before, w);
    QueuedInTasks(s.workQ, w);
    CountMember(InTasks(s.workQ), w);
    CountMember(InWorking(s.working), w);
  }

  /** A work queued behind the end of the stream is never decoded, in whatever run follows. */
  lemma BehindEndNotDecoded(depth: nat, before: seq<Step>, w: Work, after: seq<Step>)
    requires Allowed(Initial(depth), before) && ClientEnabled(Result(Initial(depth), before), QueueWork(w))
    requires SetSince(before, QueuesEnd, Reopens)
    requires Allowed(ClientApply(Result(Initial(depth), before), QueueWork(w)), after)
    ensures NotDecoded(Result(ClientApply(Result(Initial(depth), before), QueueWork(w)), after), w)
  {
    QueuedAs(depth, before, w);
    NewWork(depth, before, w);
    NotDecodedRun(ClientApply(Result(Initial(depth), before), QueueWork(w)), after, w);
  }

  /** When the working thread comes to it, it becomes pending, in place of one of its index. */
  lemma TakenPends(s: State, w: Work, initialized: bool)
    requires s.working == Idle && |s.workQ| > 0 && s.workQ[0] == PendTask(w) && Ordered(s.pending)
    ensures var t := WorkingApply(s, Take(initialized));
      t.working == Idle && forall x :: x in t.pending <==> x == w || (x in s.pending && x.index != w.index)
  {
    InsertedOrdered(s.pending, w);
  }

  // ---------- the drain behind the end

  /** A work with data that ends the stream. */
  predicate EndsStream(t: WorkTask) {
    t.DoWork? && t.w.eos
  }

  predicate TaskFits(q: seq<WorkTask>, i: nat, open: bool)
    requires i < |q|
  {
    match q[i]
    case DoWork(w) =>
      w.valid && !(w.eos && w.empty) && (w.eos ==> if i + 1 < |q| then q[i + 1] == DrainTask(None) else open)
    case DrainTask(eos) =>
      if eos.Some? then eos.value.valid && eos.value.eos && eos.value.empty else i == 0 || EndsStream(q[i - 1])
    case PendTask(w) => w.valid
    case _ => true
  }

  ghost predicate QueueFits(q: seq<WorkTask>, open: bool) {
    && (forall i | 0 <= i < |q| :: TaskFits(q, i, open))
    && (open && |q| > 0 ==> EndsStream(q[|q| - 1]))
  }

  ghost predicate TasksFit(s: State) {
    QueueFits(s.workQ, s.client == QueuedEos)
  }

  lemma FitsSnoc(q: seq<WorkTask>, open: bool, t: WorkTask)
    requires QueueFits(q, open) && (open <==> t == DrainTask(None))
    requires match t
             case DoWork(w) => w.valid && !(w.eos && w.empty)
             case DrainTask(eos) => eos.Some? ==> eos.value.valid && eos.value.eos && eos.value.empty
             case PendTask(w) => w.valid
             case _ => true
    ensures QueueFits(q + [t], EndsStream(t))
  {
    var r := q + [t];
    forall i | 0 <= i < |r|
      ensures TaskFits(r, i, EndsStream(t))
    {
      if i < |q| {
        assert TaskFits(q, i, open);
      }
    }
  }

  lemma FitsPopped(q: seq<WorkTask>, open: bool)
    requires |q| > 0 && QueueFits(q, open)
    ensures QueueFits(q[1..], open)
  {
    var r := q[1..];
    forall i | 0 <= i < |r|
      ensures TaskFits(r, i, open)
    {
      assert TaskFits(q, i + 1, open);
    }
  }

  lemma ClientFits(s: State, c: ClientStep)
    requires TasksFit(s) && ClientEnabled(s, c)
    ensures TasksFit(ClientApply(s, c))
  {
    match c
    case QueueWork(w) =>
      if w.valid {
        FitsSnoc(s.workQ, false,
          if s.eosReceived then PendTask(w) else if w.eos && w.empty then DrainTask(Some(w)) else DoWork(w));
      }
    case QueueDrain => FitsSnoc(s.workQ, true, DrainTask(None));
    case PushReset => FitsSnoc(s.workQ, false, ResetTask);
    case BeginStop(abort) => FitsSnoc(if abort then [] else s.workQ, false, NullTask);
    case _ =>
  }

  lemma FitsStep(s: State, step: Step)
    requires TasksFit(s) && Enabled(s, step)
    ensures TasksFit(Apply(s, step))
  {
    match step
    case C(c) => ClientFits(s, c);
    case W(w) =>
      WorkingEffect(s, w);
      if w.Take? {
        FitsPopped(s.workQ, s.client == QueuedEos);
      }
    case A(a) => WaitingEffect(s, a);
  }

  lemma {:induction false} FitsRun(s: State, steps: seq<Step>)
    requires TasksFit(s) && Allowed(s, steps)
    ensures TasksFit(Result(s, steps))
    decreases |steps|
  {
    if |steps| > 0 {
      FitsStep(s, steps[0]);
      FitsRun(Apply(s, steps[0]), steps[1..]);
    }
  }

  /** In every run, unless the client is just about to push it, a drain is queued right behind
      each work with data that ends the stream, and behind no other. */
  lemma DrainBehindEnd(depth: nat, steps: seq<Step>, i: nat)
    requires Allowed(Initial(depth), steps) && i < |Result(Initial(depth), steps).workQ|
    ensures var s := Result(Initial(depth), steps);
      && (EndsStream(s.workQ[i]) && s.client != QueuedEos ==>
            i + 1 < |s.workQ| && s.workQ[i + 1] == DrainTask(None))
      && (i + 1 < |s.workQ| && s.workQ[i + 1] == DrainTask(None) ==> EndsStream(s.workQ[i]))
  {
    var s := Result(Initial(depth), steps);
    FitsRun(Initial(depth), steps);
    assert TaskFits(s.workQ, i, s.client == QueuedEos);
    if i + 1 < |s.workQ| {
      assert TaskFits(s.workQ, i + 1, s.client == QueuedEos);
    }
  }

  // ---------- nothing is decoded behind the end

  /** A work to be decoded or to drain the decoder for. */
  predicate Decodes(t: WorkTask) {
    t.DoWork? || (t.DrainTask? && t.eos.Some?)
  }

  predicate Ends(t: WorkTask) {
    EndsStream(t) || (t.DrainTask? && t.eos.Some?)
  }

  predicate OneEnd(q: seq<WorkTask>) {
    forall i, j | 0 <= i < j < |q| :: Ends(q[i]) ==> !Decodes(q[j])
  }

  predicate NoEnd(q: seq<WorkTask>) {
    forall i | 0 <= i < |q| :: !Ends(q[i])
  }

  predicate EndInQueue(s: State) {
    OneEnd(s.workQ) && (!s.eosReceived ==> NoEnd(s.workQ))
  }

  lemma ClientEnd(s: State, c: ClientStep)
    requires EndInQueue(s) && Inv(s) && ClientEnabled(s, c)
    ensures EndInQueue(ClientApply(s, c))
  {
  }

  lemma EndStep(s: State, step: Step)
    requires EndInQueue(s) && Inv(s) && Enabled(s, step)
    ensures EndInQueue(Apply(s, step))
  {
    match step
    case C(c) => ClientEnd(s, c);
    case W(w) =>
      WorkingEffect(s, w);
      WorkingKeepsEos(s, w);
    case A(a) =>
      WaitingEffect(s, a);
      assert WaitingApply(s, a).eosReceived == s.eosReceived;
  }

  lemma {:induction false} EndRun(s: State, steps: seq<Step>)
    requires EndInQueue(s) && Inv(s) && Allowed(s, steps) && AllDisciplined(s, steps)
    ensures EndInQueue(Result(s, steps))
    decreases |steps|
  {
    if |steps| > 0 {
      EndStep(s, steps[0]);
      InvStep(s, steps[0]);
      EndRun(Apply(s, steps[0]), steps[1..]);
    }
  }

  /** Where every stop found started threads, no work to decode or to drain for is queued
      behind a task that ends the stream. */
  lemma NothingBehindEnd(depth: nat, steps: seq<Step>, i: nat, j: nat)
    requires depth < 0x1_0000_0000 && Allowed(Initial(depth), steps) && AllDisciplined(Initial(depth), steps)
    requires i < j < |Result(Initial(depth), steps).workQ| && Ends(Result(Initial(depth), steps).workQ[i])
    ensures !Decodes(Result(Initial(depth), steps).workQ[j])
  {
    EndRun(Initial(depth), steps);
  }
}
