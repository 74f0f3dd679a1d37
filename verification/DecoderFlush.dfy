/** What a flush of the decoder returns, over all runs and whatever the threads do meanwhile. */
module DecoderFlush {
  import opened DecoderPipeline
  import opened DecoderConservation
  import opened DecoderBounds
  import opened DecoderStops

  predicate InFlush(c: Client) {
    c == FlushSet || c == FlushPushed || c == FlushWorked || c == FlushWaited || c == FlushCleared || c == FlushMoved
  }

  /** Both queues were seen empty. */
  predicate SeenEmpty(c: Client) {
    c == FlushWaited || c == FlushCleared || c == FlushMoved
  }

  /** A queue seen empty stays so, and what was moved stays moved. */
  predicate FlushLane(s: State) {
    FlushInStep(s) && (SeenEmpty(s.client) ==> |s.waitQ| == 0) && (s.client == FlushMoved ==> |s.pending| == 0)
  }

  /** The thread at rest pushes nothing and leaves the lists alone. */
  lemma RestEffect(s: State, w: WorkingStep)
    requires AtRest(s) && WorkingEnabled(s, w)
    ensures WorkingApply(s, w) == s.(working := Idle)
  {
  }

  lemma LaneStep(s: State, step: Step)
    requires FlushLane(s) && Enabled(s, step)
    ensures FlushLane(Apply(s, step))
  {
    match step
    case C(c) => ClientLane(s, c);
    case W(w) => WorkingLane(s, w);
    case A(a) =>
      WaitingFlush(s, a);
      WaitingEffect(s, a);
  }

  lemma ClientLane(s: State, c: ClientStep)
    requires FlushLane(s) && ClientEnabled(s, c)
    ensures FlushLane(ClientApply(s, c))
  {
    ClientFlush(s, c);
  }

  lemma WorkingLane(s: State, w: WorkingStep)
    requires FlushLane(s) && WorkingEnabled(s, w)
    ensures FlushLane(WorkingApply(s, w))
  {
    WorkingFlush(s, w);
    WorkingEffect(s, w);
    if AtRest(s) {
      RestEffect(s, w);
    }
  }

  lemma {:induction false} LaneRun(s: State, steps: seq<Step>)
    requires FlushLane(s) && Allowed(s, steps)
    ensures FlushLane(Result(s, steps))
    decreases |steps|
  {
    if |steps| > 0 {
      LaneStep(s, steps[0]);
      LaneRun(Apply(s, steps[0]), steps[1..]);
    }
  }

  // ---------- after a flush

  /** In every run a flush that returns leaves nothing queued, nothing in the working thread's
      hands, nothing pending and nothing flushed; the stream is open again. Each work accepted
      until then was notified, returned or dropped by an abort, once, or is in the hands of
      the waiting thread, which notifies it. */
  lemma FlushSettles(depth: nat, before: seq<Step>, x: Work)
    requires Allowed(Initial(depth), before) && Result(Initial(depth), before).client == FlushMoved
    ensures var r := ClientApply(Result(Initial(depth), before), ReturnFlushed);
      && r.client == Ready && !r.flushing && !r.eosReceived
      && |r.workQ| == 0 && |r.waitQ| == 0 && |r.pending| == 0 && |r.flushed| == 0 && |InWorking(r.working)| == 0
      && Count(r.notified, x) + Count(r.returned, x) + Count(r.aborted, x) + Count(InWaiting(r.waiting), x)
         == if x in r.accepted then 1 else 0
  {
    var s := Result(Initial(depth), before);
    LaneRun(Initial(depth), before);
    ExactlyOnePlace(depth, before, x);
    CountAppend(s.returned, s.flushed, x);
    FlushPlaces(s, x);
  }

  lemma FlushPlaces(s: State, x: Work)
    requires FlushLane(s) && s.client == FlushMoved
    ensures Places(s, p => Count(p, x))
      == Count(s.notified, x) + Count(s.returned, x) + Count(s.flushed, x) + Count(s.aborted, x)
         + Count(InWaiting(s.waiting), x)
  {
    assert InTasks(s.workQ) == InWorking(s.working) == InWaits(s.waitQ) == s.pending == [];
  }

  // ---------- which works a flush returns

  /** The work is returned, or is where the flush in progress is sure to find it: on the list,
      queued for decoding, about to be delivered by a thread that saw the flush, or pending
      with no output left that it could be matched with. */
  predicate Returning(s: State, w: Work) {
    || w in s.returned
    || (InFlush(s.client) && w in s.flushed)
    || (InFlush(s.client) && s.flushing && (DoWork(w) in s.workQ || s.working == Held(w, true)))
    || ((s.client == FlushWaited || s.client == FlushCleared) && s.waiting != Syncing && w in s.pending)
  }

  lemma TaskPopped(q: seq<WorkTask>, t: WorkTask)
    requires |q| > 0 && t in q && t != q[0]
    ensures t in q[1..]
  {
    assert q == [q[0]] + q[1..];
  }

  lemma ClientReturning(s: State, c: ClientStep, w: Work)
    requires FlushLane(s) && ClientEnabled(s, c) && Returning(s, w)
    ensures Returning(ClientApply(s, c), w)
  {
    if c == PushReset && DoWork(w) in s.workQ {
      assert DoWork(w) in s.workQ + [ResetTask];
    }
  }

  lemma WorkingReturning(s: State, step: WorkingStep, w: Work)
    requires FlushLane(s) && WorkingEnabled(s, step) && Returning(s, w)
    ensures Returning(WorkingApply(s, step), w)
  {
    if AtRest(s) {
      RestEffect(s, step);
    } else {
      BusyReturning(s, step, w);
    }
  }

  lemma BusyReturning(s: State, step: WorkingStep, w: Work)
    requires FlushLane(s) && WorkingEnabled(s, step) && Returning(s, w) && !AtRest(s)
    ensures Returning(WorkingApply(s, step), w)
  {
    var t := WorkingApply(s, step);
    WorkingKeepsLists(s, step, w);
    if s.flushing && InFlush(s.client) && w !in s.returned && w !in s.flushed {
      if s.working == Held(w, true) {
        assert step == Deliver && w in t.flushed;
      } else if step.Take? {
        if s.workQ[0] == DoWork(w) {
          assert w in t.flushed;
        } else {
          TaskPopped(s.workQ, DoWork(w));
        }
      }
    }
  }

  lemma WorkingKeepsLists(s: State, step: WorkingStep, w: Work)
    requires WorkingEnabled(s, step)
    ensures var t := WorkingApply(s, step);
      && t.client == s.client && t.flushing == s.flushing && t.returned == s.returned
      && (w in s.flushed ==> w in t.flushed) && (!step.Take? ==> t.workQ == s.workQ)
  {
    WorkingEffect(s, step);
    if step.Take? {
      TakeKeepsLists(s, step.initialized, w);
    }
  }

  lemma TakeKeepsLists(s: State, initialized: bool, w: Work)
    requires |s.workQ| > 0
    ensures var t := Taken(s, initialized);
      t.flushing == s.flushing && t.returned == s.returned && (w in s.flushed ==> w in t.flushed)
  {
  }

  lemma WaitingReturning(s: State, a: WaitingStep, w: Work)
    requires FlushLane(s) && WaitingEnabled(s, a) && Returning(s, w)
    ensures Returning(WaitingApply(s, a), w)
  {
    var t := WaitingApply(s, a);
    WaitingEffect(s, a);
    assert t.flushing == s.flushing && t.flushed == s.flushed && t.returned == s.returned;
    assert !a.Match? ==> t.pending == s.pending;
  }

  lemma {:induction false} ReturningRun(s: State, steps: seq<Step>, w: Work)
    requires FlushLane(s) && Returning(s, w) && Allowed(s, steps)
    ensures Returning(Result(s, steps), w)
    decreases |steps|
  {
    if |steps| > 0 {
      match steps[0] {
        case C(c) => ClientReturning(s, c, w);
        case W(step) => WorkingReturning(s, step, w);
        case A(a) => WaitingReturning(s, a, w);
      }
      LaneStep(s, steps[0]);
      ReturningRun(Apply(s, steps[0]), steps[1..], w);
    }
  }

  lemma InOnePlace(depth: nat, steps: seq<Step>, w: Work)
    requires Allowed(Initial(depth), steps) && w in Result(Initial(depth), steps).returned
    ensures w !in Result(Initial(depth), steps).notified && w !in Result(Initial(depth), steps).aborted
  {
    var r := Result(Initial(depth), steps);
    ExactlyOnePlace(depth, steps, w);
    CountMember(r.returned, w);
    CountMember(r.notified, w);
    CountMember(r.aborted, w);
  }

  /** A work queued for decoding when a flush begins is returned by it and not notified. */
  lemma QueuedReturned(depth: nat, before: seq<Step>, flush: seq<Step>, w: Work)
    requires Allowed(Initial(depth), before) && Result(Initial(depth), before).client == Ready
    requires DoWork(w) in Result(Initial(depth), before).workQ
    requires Allowed(Result(Initial(depth), before), flush) && |flush| > 0 && flush[0] == C(SetFlushing)
    requires !InFlush(Result(Result(Initial(depth), before), flush).client)
    ensures var r := Result(Result(Initial(depth), before), flush); w in r.returned && w !in r.notified
  {
    var s := Result(Initial(depth), before);
    LaneRun(Initial(depth), before);
    LaneStep(s, C(SetFlushing));
    ReturningRun(Apply(s, C(SetFlushing)), flush[1..], w);
    Concat(Initial(depth), before, flush);
    InOnePlace(depth, before + flush, w);
  }

  /** A work that a thread delivers after it saw the flush, or one on the list, is returned. */
  lemma FlushedReturned(depth: nat, before: seq<Step>, after: seq<Step>, w: Work)
    requires Allowed(Initial(depth), before) && InFlush(Result(Initial(depth), before).client)
    requires var s := Result(Initial(depth), before); w in s.flushed || (s.flushing && s.working == Held(w, true))
    requires Allowed(Result(Initial(depth), before), after)
    requires !InFlush(Result(Result(Initial(depth), before), after).client)
    ensures var r := Result(Result(Initial(depth), before), after); w in r.returned && w !in r.notified
  {
    LaneRun(Initial(depth), before);
    ReturningRun(Result(Initial(depth), before), after, w);
    Concat(Initial(depth), before, after);
    InOnePlace(depth, before + after, w);
  }

  // ---------- the pending works

  /** Whatever the threads do, every work pending now is returned and not notified. */
  ghost predicate PendingReturned(s: State) {
    forall steps, w | w in s.pending && Allowed(s, steps) && !InFlush(Result(s, steps).client) ::
      w in Result(s, steps).returned && w !in Result(s, steps).notified
  }

  lemma RestReturned(depth: nat, before: seq<Step>)
    requires Allowed(Initial(depth), before) && Result(Initial(depth), before).client == FlushCleared
    requires var s := Result(Initial(depth), before); s.waiting != Syncing || |s.pending| == 0
    ensures PendingReturned(Result(Initial(depth), before))
  {
    var s := Result(Initial(depth), before);
    LaneRun(Initial(depth), before);
    forall steps, w | w in s.pending && Allowed(s, steps) && !InFlush(Result(s, steps).client)
      ensures w in Result(s, steps).returned && w !in Result(s, steps).notified
    {
      ReturningRun(s, steps, w);
      Concat(Initial(depth), before, steps);
      InOnePlace(depth, before + steps, w);
    }
  }

  /** The waiting thread, still at an output, matches the first pending work. */
  lemma MatchedInstead(s: State) returns (steps: seq<Step>)
    requires s.client == FlushCleared && s.waiting == Syncing && |s.pending| > 0
    ensures Allowed(s, steps) && Result(s, steps).client == Ready && s.pending[0] in Result(s, steps).notified
  {
    var s1 := Apply(s, A(Match(s.pending[0].timestamp, {})));
    var s2 := Apply(s1, A(Notify));
    var s3 := Apply(s2, C(MovePending));
    RunFrom(s3, C(ReturnFlushed), []);
    RunFrom(s2, C(MovePending), [C(ReturnFlushed)] + []);
    RunFrom(s1, A(Notify), [C(MovePending)] + ([C(ReturnFlushed)] + []));
    steps := [A(Notify)] + ([C(MovePending)] + ([C(ReturnFlushed)] + []));
    RunFrom(s, A(Match(s.pending[0].timestamp, {})), steps);
    steps := [A(Match(s.pending[0].timestamp, {}))] + steps;
  }

  /** What is pending when flushing mode ends is sure to be returned, and not notified, exactly
      when nothing is pending or the waiting thread is past its last output: the queue was
      seen empty, but its last command may not have ended. */
  lemma PendingExact(depth: nat, before: seq<Step>)
    requires Allowed(Initial(depth), before) && Result(Initial(depth), before).client == FlushCleared
    ensures var s := Result(Initial(depth), before);
      PendingReturned(s) <==> s.waiting != Syncing || |s.pending| == 0
  {
    var s := Result(Initial(depth), before);
    if s.waiting != Syncing || |s.pending| == 0 {
      RestReturned(depth, before);
    } else {
      var steps := MatchedInstead(s);
      assert s.pending[0] in s.pending;
    }
  }
}
