/** What the decoder's working thread goes through with one task: a decode ends in its report, a
    resolution change reports the other pending works, a drain hands on its work. */
module DecoderPhases {
  import opened DecoderPipeline
  import opened DecoderConservation
  import opened DecoderBounds
  import opened DecoderFlush
  import opened PendingWorksMap

  /** Between two calls of DecodeFrame or in one. */
  predicate InCalls(w: Working, job: Job) {
    w == Run(job) || w == Gated(job) || w == Counting(job)
  }

  /** Draining because of a resolution change met while decoding work i. */
  predicate Changing(w: Working, i: nat) {
    InCalls(w, Job.Change(i)) || w == DrainWait(Some(i)) || w == Clearing(i)
  }

  /** While work i is decoded the thread stays in its calls, meets a resolution change, or
      comes to the report; the flush it then reports to is one that is going on. */
  lemma DecodeStep(s: State, i: nat, step: WorkingStep)
    requires InCalls(s.working, Decode(i)) && WorkingEnabled(s, step)
    ensures var t := WorkingApply(s, step).working;
      InCalls(t, Decode(i)) || Changing(t, i) || t == Finish(i, false) || (t == Finish(i, true) && s.flushing)
    ensures Changing(WorkingApply(s, step).working, i) <==> step == NewFormat
    ensures WorkingApply(s, step).notified == s.notified && WorkingApply(s, step).pending == s.pending
  {
  }

  /** After a resolution change the thread decodes work i again only when every other pending
      work was notified; none but work i is pending then. */
  lemma ChangeStep(s: State, i: nat, step: WorkingStep)
    requires Changing(s.working, i) && WorkingEnabled(s, step)
    ensures var t := WorkingApply(s, step);
      || (Changing(t.working, i) && t.pending == s.pending && t.notified == s.notified)
      || (t.working == Run(Decode(i))
          && (forall w :: w in t.pending <==> w in s.pending && w.index == i)
          && (forall w | w in s.pending && w.index != i :: w in t.notified))
  {
    OthersMembers(s.pending, i);
  }

  /** The work was notified, or the waiting thread is about to do so, or the change is not over. */
  predicate Leaving(s: State, i: nat, w: Work) {
    w in s.notified || w in InWaiting(s.waiting) || (Changing(s.working, i) && w in s.pending)
  }

  lemma WorkingNotifies(s: State, step: WorkingStep, w: Work)
    requires WorkingEnabled(s, step) && w in s.notified
    ensures w in WorkingApply(s, step).notified
  {
    if step.Take? {
      assert w in Taken(s, step.initialized).notified;
    }
  }

  lemma LeavingStep(s: State, step: Step, i: nat, w: Work)
    requires FlushLane(s) && Leaving(s, i, w) && w.index != i && Enabled(s, step)
    ensures Leaving(Apply(s, step), i, w)
  {
    match step
    case C(c) => LeavingClient(s, c, i, w);
    case W(x) => LeavingWorking(s, x, i, w);
    case A(a) => LeavingWaiting(s, a, i, w);
  }

  lemma LeavingClient(s: State, c: ClientStep, i: nat, w: Work)
    requires FlushLane(s) && Leaving(s, i, w) && ClientEnabled(s, c)
    ensures Leaving(ClientApply(s, c), i, w)
  {
  }

  lemma LeavingWorking(s: State, step: WorkingStep, i: nat, w: Work)
    requires Leaving(s, i, w) && w.index != i && WorkingEnabled(s, step)
    ensures Leaving(WorkingApply(s, step), i, w)
  {
    WorkingEffect(s, step);
    if w in s.notified {
      WorkingNotifies(s, step, w);
    } else if Changing(s.working, i) && w in s.pending {
      ChangeStep(s, i, step);
    }
  }

  lemma LeavingWaiting(s: State, a: WaitingStep, i: nat, w: Work)
    requires Leaving(s, i, w) && WaitingEnabled(s, a)
    ensures Leaving(WaitingApply(s, a), i, w)
  {
    WaitingEffect(s, a);
    if a.Match? {
      var k := FirstMatch(s.pending, a.ready, a.alike);
      if k < |s.pending| {
        assert s.pending == s.pending[..k] + [s.pending[k]] + s.pending[k + 1..];
      }
    }
  }

  lemma {:induction false} LeavingRun(s: State, steps: seq<Step>, i: nat, w: Work)
    requires FlushLane(s) && Leaving(s, i, w) && w.index != i && Allowed(s, steps)
    ensures Leaving(Result(s, steps), i, w)
    decreases |steps|
  {
    if |steps| > 0 {
      LeavingStep(s, steps[0], i, w);
      LaneStep(s, steps[0]);
      LeavingRun(Apply(s, steps[0]), steps[1..], i, w);
    }
  }

  /** In every run a resolution change met while decoding work i gets every other pending work
      notified, or into the hands of the waiting thread, before it is over. */
  lemma ChangeReports(depth: nat, before: seq<Step>, after: seq<Step>, i: nat, w: Work)
    requires Allowed(Initial(depth), before) && Changing(Result(Initial(depth), before).working, i)
    requires w in Result(Initial(depth), before).pending && w.index != i
    requires Allowed(Result(Initial(depth), before), after)
    requires !Changing(Result(Result(Initial(depth), before), after).working, i)
    ensures var r := Result(Result(Initial(depth), before), after); w in r.notified || w in InWaiting(r.waiting)
  {
    LaneRun(Initial(depth), before);
    LeavingRun(Result(Initial(depth), before), after, i, w);
  }

  /** The report takes out the work it is about, and nothing else, if it is still pending; it
      is flushed if the decode saw a flush and notified otherwise. */
  lemma ReportDelivers(s: State, i: nat, flushing: bool, w: Work)
    requires s.working == Finish(i, flushing) && Ordered(s.pending) && w in s.pending && w.index == i
    ensures var t := WorkingApply(s, Report(true));
      && t.working == Held(w, flushing)
      && (forall x :: x in t.pending <==> x in s.pending && x != w)
      && var u := WorkingApply(t, Deliver);
         && u.working == Idle && u.pending == t.pending
         && (if flushing then u.flushed == s.flushed + [w] && u.notified == s.notified
             else u.notified == s.notified + [w] && u.flushed == s.flushed)
  {
    OnlyThat(s.pending, i, w);
  }

  lemma OnlyThat(p: seq<Work>, i: nat, w: Work)
    requires Ordered(p) && w in p && w.index == i
    ensures Replaced(p, i) == Some(w) && forall x :: x in Without(p, i) <==> x in p && x != w
  {
    WithoutIndex(p, i);
    assert Replaced(p, i) == Some(w);
    forall x | x in p && x.index == i
      ensures x == w
    {
      assert Replaced(p, i) == Some(x);
    }
  }

  /** A drain ends with its work behind all outputs in the waiting queue, or on the list of a
      flush that is going on; then the thread waits for the counter. */
  lemma DrainStep(s: State, eos: Option<Work>, step: WorkingStep)
    requires InCalls(s.working, Drain(eos)) && WorkingEnabled(s, step)
    ensures var t := WorkingApply(s, step);
      || (InCalls(t.working, Drain(eos)) && t.flushed == s.flushed && InWaits(t.waitQ) == InWaits(s.waitQ))
      || (t.working == DrainWait(None) && t.flushed == s.flushed
          && t.waitQ == s.waitQ + if eos.Some? then [EosTask(eos.value)] else [])
      || (t.working == DrainWait(None) && s.flushing && t.flushed == s.flushed + Opt(eos) && t.waitQ == s.waitQ)
  {
    if step == Output {
      OutputHolds(s.waitQ);
    }
    assert s.waitQ + [] == s.waitQ && s.flushed + [] == s.flushed;
  }

  lemma {:induction false} OutputHolds(q: seq<WaitTask>)
    ensures InWaits(q + [WaitWork]) == InWaits(q)
  {
    if |q| == 0 {
      assert (q + [WaitWork])[1..] == [];
    } else {
      OutputHolds(q[1..]);
      assert (q + [WaitWork])[1..] == q[1..] + [WaitWork];
    }
  }

  /** A drain task of a decoder not yet initialised is answered at once. */
  lemma UninitialisedDrain(s: State, eos: Option<Work>)
    requires s.working == Idle && |s.workQ| > 0 && s.workQ[0] == DrainTask(eos)
    ensures WorkingApply(s, Take(false)).working == Idle
    ensures WorkingApply(s, Take(false)).notified == s.notified + Opt(eos)
    ensures InCalls(WorkingApply(s, Take(true)).working, Drain(eos))
  {
  }
}
