/** The encoder's Drain as the working thread runs it, shown to be a run of the pipeline's
    steps. */
module EncoderComponent {
  import opened EncoderPipeline

  lemma {:induction false} RunThen(s: State, steps: seq<Step>, step: Step)
    requires Allowed(s, steps) && Enabled(Result(s, steps), step)
    ensures Allowed(s, steps + [step]) && Result(s, steps + [step]) == Apply(Result(s, steps), step)
    decreases |steps|
  {
    if |steps| == 0 {
      assert steps + [step] == [step] && [step][1..] == [];
    } else {
      RunThen(Apply(s, steps[0]), steps[1..], step);
      assert (steps + [step])[1..] == steps[1..] + [step];
    }
  }

  function OutputTasks(works: seq<Work>): seq<WaitTask> {
    seq(|works|, i requires 0 <= i < |works| => WaitWork(works[i]))
  }

  lemma OutputTasksSnoc(works: seq<Work>, w: Work)
    ensures OutputTasks(works + [w]) == OutputTasks(works) + [WaitWork(w)]
  {
  }

  class MfxC2EncoderComponent {
    var pendingWorks: seq<Work>
    var waitingQueue: seq<WaitTask>
    var notified: seq<Work>  // by the working thread

    ghost var state: State
    ghost var start: State
    ghost var steps: seq<Step>

    /** The fields are those of the state that the steps so far lead to. */
    ghost predicate Valid()
      reads this
    {
      && Allowed(start, steps) && state == Result(start, steps)
      && pendingWorks == state.pending && waitingQueue == state.waitQ
    }

    ghost method Step(step: Step)
      requires Allowed(start, steps) && state == Result(start, steps) && Enabled(state, step)
      modifies this`state, this`steps
      ensures Allowed(start, steps) && state == Result(start, steps)
      ensures state == Apply(old(state), step) && steps == old(steps) + [step]
    {
      RunThen(start, steps, step);
      state := Apply(state, step);
      steps := steps + [step];
    }

    /** An output was made: it goes to the front of the pending works. */
    method PushOutput(ghost eos: Option<Work>)
      requires Valid() && |pendingWorks| > 0 && state.working == Draining(eos)
      modifies this
      ensures Valid() && start == old(start) && state.working == Draining(eos) && notified == old(notified)
      ensures pendingWorks == old(pendingWorks)[1..] &&
        waitingQueue == old(waitingQueue) + [WaitWork(old(pendingWorks)[0])]
    {
      var work := pendingWorks[0];
      pendingWorks := pendingWorks[1..];
      waitingQueue := waitingQueue + [WaitWork(work)];
      Step(DrainOutput);
      Step(Count);
    }

    /** The first of the pending works is notified and erased. */
    method DropFirst()
      requires Valid() && state.working == Dropping && |pendingWorks| > 0
      modifies this
      ensures Valid() && start == old(start) && state.working == Dropping && waitingQueue == old(waitingQueue)
      ensures notified == old(notified) + [old(pendingWorks)[0]] && pendingWorks == old(pendingWorks)[1..]
    {
      notified := notified + [pendingWorks[0]];
      pendingWorks := pendingWorks[1..];
      Step(DropOne);
    }

    /** The loop after a failure: what is left is notified. */
    method DropPending()
      requires Valid() && state.working == Dropping
      modifies this
      ensures Valid() && start == old(start) && state.working == Idle && |pendingWorks| == 0
      ensures waitingQueue == old(waitingQueue) && notified == old(notified) + old(pendingWorks)
    {
      ghost var all := pendingWorks;
      while |pendingWorks| > 0
        invariant Valid() && start == old(start) && state.working == Dropping && waitingQueue == old(waitingQueue)
        invariant notified + pendingWorks == old(notified) + all
        decreases |pendingWorks|
      {
        assert pendingWorks == [pendingWorks[0]] + pendingWorks[1..];
        DropFirst();
      }
      Step(DropEnd);
    }

    /** The loop that fetches outputs; made tells how many encodes in a row succeed. */
    method FetchOutputs(ghost eos: Option<Work>, made: nat)
      requires Valid() && state.working == Draining(eos) && made <= |pendingWorks|
      modifies this
      ensures Valid() && start == old(start) && state.working == Draining(eos) && notified == old(notified)
      ensures pendingWorks == old(pendingWorks)[made..]
      ensures waitingQueue == old(waitingQueue) + OutputTasks(old(pendingWorks)[..made])
    {
      ghost var all := pendingWorks;
      var k := 0;
      assert OutputTasks(all[..0]) == [];
      while k < made
        invariant 0 <= k <= made && Valid() && start == old(start) && state.working == Draining(eos)
        invariant pendingWorks == all[k..] && notified == old(notified)
        invariant waitingQueue == old(waitingQueue) + OutputTasks(all[..k])
      {
        OutputTasksSnoc(all[..k], all[k]);
        assert all[..k + 1] == all[..k] + [all[k]];
        PushOutput(eos);
        k := k + 1;
      }
    }

    /** The end-of-stream work, and what follows a failure. */
    method EndDrain(eos: Option<Work>)
      requires Valid() && state.working == Draining(eos)
      modifies this
      ensures Valid() && start == old(start) && state.working == Idle && |pendingWorks| == 0
      ensures waitingQueue == old(waitingQueue) + if eos.Some? then [EosTask(eos.value)] else []
      ensures notified == old(notified) + old(pendingWorks)
    {
      var failed := |pendingWorks| > 0;
      if failed {
        Step(DrainFail);
      }
      if eos.Some? {
        waitingQueue := waitingQueue + [EosTask(eos.value)];
      }
      if failed {
        Step(PushEos);
        DropPending();
      } else {
        Step(DrainEnd);
      }
    }

    /** Drain: an output for each pending work as long as the encoder gives one, then the
        end-of-stream work; after a failure the rest is notified. */
    method Drain(eos: Option<Work>, made: nat)
      requires Valid() && state.working == Draining(eos) && made <= |pendingWorks|
      modifies this
      ensures Valid() && start == old(start) && state.working == Idle && |pendingWorks| == 0
      ensures waitingQueue == old(waitingQueue) + OutputTasks(old(pendingWorks)[..made])
        + if eos.Some? then [EosTask(eos.value)] else []
      ensures notified == old(notified) + old(pendingWorks)[made..]
    {
      FetchOutputs(eos, made);
      EndDrain(eos);
    }
  }
}
