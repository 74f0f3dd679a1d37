/** The queues of the pipelines are command queues: what a pipeline does to one of its queues
    and its thread is made of the command queue's own steps. */
module QueueViews {
  import opened CmdQueue

  datatype Thread = NotJoinable | AtQueue | Executing | Ended

  /** What is seen of a queue: which of the commands in it are null, what its thread is at,
      and whether a shutdown waits for the thread. */
  datatype View = View(nulls: seq<bool>, thread: Thread, stopping: bool)

  /** What a pipeline does to a queue: PopDone pops a command and executes it at once. */
  datatype Move = Stay | PushOne | BeginShut(abort: bool) | EndShut | StartThread | PopOne | PopDone | FinishOne

  function ThreadOf(w: Worker): Thread {
    match w
    case NotStarted => NotJoinable
    case Waiting => AtQueue
    case Running(_) => Executing
    case Exited => Ended
  }

  function NullsOf(q: seq<Cmd>): seq<bool> {
    seq(|q|, i requires 0 <= i < |q| => q[i].Null?)
  }

  /** v is seen of c, a queue that is not paused and has one shutdown at most. */
  predicate Seen(c: State, v: View) {
    && c.lo <= |c.pushed| && !c.paused && c.stopping == (if v.stopping then 1 else 0)
    && NullsOf(c.pushed[c.lo..]) == v.nulls && ThreadOf(c.worker) == v.thread
  }

  predicate CanMove(v: View, m: Move) {
    match m
    case BeginShut(_) => !v.stopping
    case EndShut => v.stopping && (v.thread == NotJoinable || v.thread == Ended)
    case PopOne => v.thread == AtQueue && |v.nulls| > 0
    case PopDone => v.thread == AtQueue && |v.nulls| > 0 && !v.nulls[0]
    case FinishOne => v.thread == Executing
    case _ => true
  }

  function Moved(v: View, m: Move): View
    requires CanMove(v, m)
  {
    match m
    case Stay => v
    case PushOne => v.(nulls := v.nulls + [false])
    case BeginShut(abort) => v.(nulls := (if abort then [] else v.nulls) + [true], stopping := true)
    case EndShut => v.(thread := NotJoinable, stopping := false)
    case StartThread => if v.thread == NotJoinable then v.(thread := AtQueue) else v
    case PopOne => v.(nulls := v.nulls[1..], thread := if v.nulls[0] then Ended else Executing)
    case PopDone => v.(nulls := v.nulls[1..])
    case FinishOne => v.(thread := AtQueue)
  }

  function QueueSteps(m: Move): seq<Step> {
    match m
    case Stay => []
    case PushOne => [Push(0)]
    case BeginShut(abort) => [Begin(abort)]
    case EndShut => [End]
    case StartThread => [Start]
    case PopOne => [Pop]
    case PopDone => [Pop, Finish]
    case FinishOne => [Finish]
  }

  lemma {:induction false} OneStep(c: State, step: Step)
    requires Enabled(c, step)
    ensures Allowed(c, [step]) && Result(c, [step]) == Apply(c, step)
  {
    assert [step][1..] == [];
  }

  lemma {:induction false} TwoSteps(c: State, a: Step, b: Step)
    requires Enabled(c, a) && Enabled(Apply(c, a), b)
    ensures Allowed(c, [a, b]) && Result(c, [a, b]) == Apply(Apply(c, a), b)
  {
    assert [a, b][1..] == [b];
    OneStep(Apply(c, a), b);
  }

  lemma SeenPush(c: State, v: View, cmd: Cmd)
    requires Seen(c, v)
    ensures NullsOf((c.pushed + [cmd])[c.lo..]) == v.nulls + [cmd.Null?]
    ensures NullsOf((c.pushed + [cmd])[|c.pushed|..]) == [] + [cmd.Null?]
  {
    assert (c.pushed + [cmd])[c.lo..] == c.pushed[c.lo..] + [cmd];
    assert (c.pushed + [cmd])[|c.pushed|..] == [cmd];
  }

  lemma SeenPop(c: State, v: View)
    requires Seen(c, v) && |v.nulls| > 0
    ensures c.lo < |c.pushed| && (c.pushed[c.lo].Null? <==> v.nulls[0])
    ensures NullsOf(c.pushed[c.lo + 1..]) == v.nulls[1..]
  {
    assert c.pushed[c.lo..][0] == c.pushed[c.lo] && c.pushed[c.lo..][1..] == c.pushed[c.lo + 1..];
  }

  /** Each move is made by the queue's steps. */
  lemma MoveMakes(c: State, v: View, m: Move)
    requires Seen(c, v) && CanMove(v, m)
    ensures Allowed(c, QueueSteps(m)) && Seen(Result(c, QueueSteps(m)), Moved(v, m))
  {
    match m
    case Stay =>
    case PushOne =>
      SeenPush(c, v, Task(0));
      OneStep(c, Push(0));
    case BeginShut(abort) =>
      SeenPush(c, v, Null);
      OneStep(c, Begin(abort));
    case PopOne =>
      SeenPop(c, v);
      OneStep(c, Pop);
    case PopDone =>
      SeenPop(c, v);
      TwoSteps(c, Pop, Finish);
    case EndShut => OneStep(c, End);
    case StartThread => OneStep(c, Start);
    case FinishOne => OneStep(c, Finish);
  }

  lemma {:induction false} Concat(c: State, a: seq<Step>, b: seq<Step>)
    requires Allowed(c, a) && Allowed(Result(c, a), b)
    ensures Allowed(c, a + b) && Result(c, a + b) == Result(Result(c, a), b)
    decreases |a|
  {
    if |a| == 0 {
      assert a + b == b;
    } else {
      Concat(Apply(c, a[0]), a[1..], b);
      assert (a + b)[1..] == a[1..] + b;
    }
  }

  /** A view is reached by a run of the queue. */
  ghost predicate Reached(v: View) {
    exists steps :: ReachedBy(steps, v)
  }

  ghost predicate ReachedBy(steps: seq<Step>, v: View) {
    Allowed(INITIAL, steps) && Seen(Result(INITIAL, steps), v)
  }

  lemma ReachedFirst()
    ensures Reached(View([], NotJoinable, false))
  {
    assert ReachedBy([], View([], NotJoinable, false));
  }

  lemma ReachedNext(v: View, m: Move)
    requires Reached(v) && CanMove(v, m)
    ensures Reached(Moved(v, m))
  {
    var steps :| ReachedBy(steps, v);
    MoveMakes(Result(INITIAL, steps), v, m);
    Concat(INITIAL, steps, QueueSteps(m));
    assert ReachedBy(steps + QueueSteps(m), Moved(v, m));
  }
}
