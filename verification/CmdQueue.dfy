/** The command queue: a thread executes pushed commands, a null command ends it. Steps are
    the critical sections of the two mutexes and the execution of a command. */
module CmdQueue {
  import opened StepHistory

  datatype Cmd = Task(id: nat) | Null

  /** The working thread: not joinable, waiting to pop, executing the command pushed as number
      index, or out of its loop and waiting to be joined. */
  datatype Worker = NotStarted | Waiting | Running(index: nat) | Exited

  /** The queue with its history: data is pushed[lo..], popped and dropped tell what became of
      the commands before lo, finished which tasks were executed, stopping how many shutdowns
      have pushed their null command and not joined yet. */
  datatype State = State(
    pushed: seq<Cmd>, lo: nat, paused: bool, worker: Worker, stopping: nat,
    popped: seq<nat>, finished: seq<nat>, dropped: set<nat>)
  {
    predicate Live() {
      worker.Waiting? || worker.Running?
    }
  }

  const INITIAL := State([], 0, false, NotStarted, 0, [], [], {})

  datatype Step = Push(id: nat) | Begin(abort: bool) | End | Start | Pause | Resume | Pop | Finish | SeeEmpty

  predicate Enabled(s: State, step: Step) {
    s.lo <= |s.pushed| &&
    match step
    case Pop => s.worker.Waiting? && !s.paused && s.lo < |s.pushed|
    case Finish => s.worker.Running?
    case End => s.stopping > 0 && !s.Live()
    case SeeEmpty => s.lo == |s.pushed|
    case _ => true
  }

  function Between(lo: nat, hi: nat): (b: set<nat>)
    ensures forall i :: i in b <==> lo <= i < hi
  {
    if hi <= lo then {} else Between(lo, hi - 1) + {hi - 1}
  }

  function Apply(s: State, step: Step): State
    requires Enabled(s, step)
  {
    match step
    case Push(id) => s.(pushed := s.pushed + [Task(id)])
    case Begin(abort) =>
      var t := if abort then s.(lo := |s.pushed|, dropped := s.dropped + Between(s.lo, |s.pushed|)) else s;
      t.(pushed := s.pushed + [Null], paused := false, stopping := s.stopping + 1)
    case End => s.(worker := NotStarted, stopping := s.stopping - 1)
    case Start => if s.worker.NotStarted? then s.(worker := Waiting) else s
    case Pause => s.(paused := true)
    case Resume => s.(paused := false)
    case Pop =>
      s.(lo := s.lo + 1, popped := s.popped + [s.lo],
         worker := if s.pushed[s.lo].Null? then Exited else Running(s.lo))
    case Finish => s.(worker := Waiting, finished := s.finished + [s.worker.index])
    case SeeEmpty => s
  }

  predicate Allowed(s: State, steps: seq<Step>)
    decreases |steps|
  {
    |steps| == 0 || (Enabled(s, steps[0]) && Allowed(Apply(s, steps[0]), steps[1..]))
  }

  function Result(s: State, steps: seq<Step>): State
    requires Allowed(s, steps)
    decreases |steps|
  {
    if |steps| == 0 then s else Result(Apply(s, steps[0]), steps[1..])
  }

  // ---------- what every run keeps

  /** The numbers below n that were not dropped, in order. */
  function Kept(n: nat, dropped: set<nat>): seq<nat> {
    if n == 0 then [] else Kept(n - 1, dropped) + if n - 1 in dropped then [] else [n - 1]
  }

  function TasksOf(popped: seq<nat>, pushed: seq<Cmd>): seq<nat> {
    if |popped| == 0 then [] else
      TasksOf(popped[..|popped| - 1], pushed)
        + if popped[|popped| - 1] < |pushed| && pushed[popped[|popped| - 1]].Task? then [popped[|popped| - 1]] else []
  }

  function InHand(w: Worker): seq<nat> {
    if w.Running? then [w.index] else []
  }

  /** Commands were popped in push order, all but the dropped ones; the tasks among them were
      executed in that order, all but the one in hand. */
  ghost predicate Inv(s: State) {
    && s.lo <= |s.pushed|
    && (forall i | i in s.dropped :: i < s.lo)
    && s.popped == Kept(s.lo, s.dropped)
    && TasksOf(s.popped, s.pushed) == s.finished + InHand(s.worker)
    && (s.worker.Running? ==> s.popped != [] && s.popped[|s.popped| - 1] == s.worker.index)
  }

  lemma {:induction false} KeptMembers(n: nat, dropped: set<nat>)
    ensures forall i :: i in Kept(n, dropped) <==> 0 <= i < n && i !in dropped
    ensures forall i, j | 0 <= i < j < |Kept(n, dropped)| :: Kept(n, dropped)[i] < Kept(n, dropped)[j]
  {
    if n > 0 {
      KeptMembers(n - 1, dropped);
      var k := Kept(n - 1, dropped);
      assert forall i | 0 <= i < |k| :: k[i] in k;
    }
  }

  lemma {:induction false} KeptSame(n: nat, a: set<nat>, b: set<nat>)
    requires forall i | 0 <= i < n :: i in a <==> i in b
    ensures Kept(n, a) == Kept(n, b)
  {
    if n > 0 {
      KeptSame(n - 1, a, b);
    }
  }

  /** Dropping everything up to a number keeps what was kept. */
  lemma {:induction false} KeptDrop(lo: nat, hi: nat, dropped: set<nat>)
    requires lo <= hi
    ensures Kept(hi, dropped + Between(lo, hi)) == Kept(lo, dropped)
    decreases hi - lo
  {
    if lo < hi {
      var all := dropped + Between(lo, hi);
      KeptDrop(lo, hi - 1, dropped);
      KeptSame(hi - 1, all, dropped + Between(lo, hi - 1));
      assert hi - 1 in all;
    } else {
      assert dropped + Between(lo, hi) == dropped;
    }
  }

  lemma {:induction false} TasksOfLonger(popped: seq<nat>, pushed: seq<Cmd>, c: Cmd)
    requires forall i | 0 <= i < |popped| :: popped[i] < |pushed|
    ensures TasksOf(popped, pushed + [c]) == TasksOf(popped, pushed)
  {
    if popped != [] {
      TasksOfLonger(popped[..|popped| - 1], pushed, c);
    }
  }

  lemma TasksOfSnoc(popped: seq<nat>, pushed: seq<Cmd>, i: nat)
    requires i < |pushed|
    ensures TasksOf(popped + [i], pushed) == TasksOf(popped, pushed) + if pushed[i].Task? then [i] else []
  {
    assert (popped + [i])[..|popped|] == popped;
  }

  /** Every run begins with it. */
  lemma InvInitially()
    ensures Inv(INITIAL)
  {
  }

  lemma PushKeeps(s: State, c: Cmd)
    requires Inv(s)
    ensures TasksOf(s.popped, s.pushed + [c]) == TasksOf(s.popped, s.pushed)
  {
    KeptMembers(s.lo, s.dropped);
    forall k | 0 <= k < |s.popped|
      ensures s.popped[k] < |s.pushed|
    {
      assert s.popped[k] in s.popped;
    }
    TasksOfLonger(s.popped, s.pushed, c);
  }

  lemma InvBegin(s: State, abort: bool)
    requires Inv(s)
    ensures Inv(Apply(s, Begin(abort)))
  {
    PushKeeps(s, Null);
    if abort {
      KeptDrop(s.lo, |s.pushed|, s.dropped);
    }
  }

  lemma InvPop(s: State)
    requires Inv(s) && Enabled(s, Pop)
    ensures Inv(Apply(s, Pop))
  {
    assert s.lo !in s.dropped;
    TasksOfSnoc(s.popped, s.pushed, s.lo);
    assert s.finished + [] == s.finished;
  }

  lemma InvFinish(s: State)
    requires Inv(s) && Enabled(s, Finish)
    ensures Inv(Apply(s, Finish))
  {
    var done := s.finished + [s.worker.index];
    assert done + [] == done;
  }

  /** Every step keeps the order of execution. */
  lemma BeginPushes(s: State, abort: bool)
    requires s.lo <= |s.pushed|
    ensures var t := Apply(s, Begin(abort));
      t.lo <= |t.pushed| && t.pushed[t.lo..] == (if abort then [] else s.pushed[s.lo..]) + [Null]
  {
  }

  lemma InvStep(s: State, step: Step)
    requires Inv(s) && Enabled(s, step)
    ensures Inv(Apply(s, step))
  {
    match step
    case Push(id) => PushKeeps(s, Task(id));
    case Begin(abort) => InvBegin(s, abort);
    case Pop => InvPop(s);
    case Finish => InvFinish(s);
    case _ =>
  }

  lemma {:induction false} InvRun(s: State, steps: seq<Step>)
    requires Inv(s) && Allowed(s, steps)
    ensures Inv(Result(s, steps))
    decreases |steps|
  {
    if steps != [] {
      InvStep(s, steps[0]);
      InvRun(Apply(s, steps[0]), steps[1..]);
    }
  }

  lemma {:induction false} TasksMembers(popped: seq<nat>, pushed: seq<Cmd>)
    ensures forall i :: i in TasksOf(popped, pushed) <==> i in popped && i < |pushed| && pushed[i].Task?
  {
    if popped != [] {
      var t := popped[..|popped| - 1];
      TasksMembers(t, pushed);
      assert popped == t + [popped[|popped| - 1]];
    }
  }

  lemma FinishedMembers(s: State)
    requires Inv(s)
    ensures forall i :: i in s.finished || i in InHand(s.worker) <==>
      0 <= i < s.lo && i !in s.dropped && s.pushed[i].Task?
  {
    KeptMembers(s.lo, s.dropped);
    TasksMembers(s.popped, s.pushed);
  }

  // ---------- waiting for an empty queue

  /** When the queue is seen empty every command was popped or dropped, and every task popped
      was executed, but for the last command popped, which may be in hand. */
  lemma EmptySeen(s: State)
    requires Inv(s) && Enabled(s, SeeEmpty)
    ensures forall i | 0 <= i < |s.pushed| :: i in s.popped || i in s.dropped
    ensures forall i | i in s.popped && i != s.popped[|s.popped| - 1] ::
      i < |s.pushed| && (s.pushed[i].Task? ==> i in s.finished)
    ensures forall i | i in s.popped ::
      i < |s.pushed| && (s.pushed[i].Task? ==> i in s.finished || s.worker == Running(i))
  {
    KeptMembers(s.lo, s.dropped);
    FinishedMembers(s);
  }

  // ---------- pausing

  predicate IsPause(step: Step) {
    step == Pause
  }

  /** A shutdown ends a pause too. */
  predicate EndsPause(step: Step) {
    step == Resume || step.Begin?
  }

  lemma {:induction false} PausedSince(s: State, steps: seq<Step>)
    requires Allowed(s, steps)
    ensures Result(s, steps).paused
      <==> SetSince(steps, IsPause, EndsPause) || (s.paused && Never(steps, EndsPause))
    decreases |steps|
  {
    if |steps| > 0 {
      PausedSince(Apply(s, steps[0]), steps[1..]);
      SetFirst(steps, IsPause, EndsPause);
    }
  }

  /** In every run a waiting thread gets the next command exactly when there is one and no
      pause was asked for since the last resume or shutdown. */
  lemma PopExact(steps: seq<Step>)
    requires Allowed(INITIAL, steps)
    ensures var s := Result(INITIAL, steps);
      s.worker.Waiting? && s.lo < |s.pushed| ==> (Enabled(s, Pop) <==> !SetSince(steps, IsPause, EndsPause))
  {
    PausedSince(INITIAL, steps);
  }

  // ---------- stopping

  predicate Quiet(steps: seq<Step>) {
    forall k | 0 <= k < |steps| :: !steps[k].Begin? && !steps[k].End?
  }

  /** All tasks that wait in s were executed in r. */
  ghost predicate AllRun(s: State, r: State) {
    forall i | s.lo <= i < |s.pushed| && s.pushed[i].Task? :: i in r.finished
  }

  /** A Stop begun in s, with no other shutdown before its join, ends with all tasks pushed
      before it executed, whatever else happens. */
  ghost predicate StopsClean(s: State)
    requires s.lo <= |s.pushed|
  {
    forall steps: seq<Step> | Quiet(steps) && Allowed(Apply(s, Begin(false)), steps) &&
      Enabled(Result(Apply(s, Begin(false)), steps), End) ::
      AllRun(s, Result(Apply(s, Begin(false)), steps))
  }

  /** Every waiting task has a live thread and no null command before it. */
  predicate Ready(s: State) {
    forall i | s.lo <= i < |s.pushed| && s.pushed[i].Task? :: s.Live() && forall k | s.lo <= k < i :: s.pushed[k].Task?
  }

  /** f is the first null command from lo on. */
  predicate FirstNull(cmds: seq<Cmd>, lo: nat, f: nat) {
    lo <= f < |cmds| && cmds[f].Null? && forall k | lo <= k < f :: cmds[k].Task?
  }

  /** Between the begin and the end of the one shutdown in progress: the first null command
      is not passed; a thread that was live lives up to it. */
  predicate Draining(s: State, cmds: seq<Cmd>, lo: nat, f: nat, dropped: set<nat>, live: bool) {
    && s.stopping == 1 && cmds <= s.pushed && FirstNull(cmds, lo, f) && s.dropped == dropped
    && lo <= s.lo <= f + 1 && (s.lo == f + 1 ==> s.worker.Exited?)
    && (live ==> s.Live() || (s.worker.Exited? && s.lo == f + 1))
  }

  lemma DrainStep(s: State, step: Step, cmds: seq<Cmd>, lo: nat, f: nat, dropped: set<nat>, live: bool)
    requires Draining(s, cmds, lo, f, dropped, live) && Enabled(s, step) && !step.Begin? && !step.End?
    ensures Draining(Apply(s, step), cmds, lo, f, dropped, live)
  {
    if step.Pop? {
      assert s.lo <= f && s.pushed[s.lo] == cmds[s.lo];
    }
  }

  lemma {:induction false} DrainRun(s: State, steps: seq<Step>, cmds: seq<Cmd>, lo: nat, f: nat, dropped: set<nat>,
    live: bool)
    requires Draining(s, cmds, lo, f, dropped, live) && Allowed(s, steps) && Quiet(steps)
    ensures Draining(Result(s, steps), cmds, lo, f, dropped, live)
    decreases |steps|
  {
    if steps != [] {
      DrainStep(s, steps[0], cmds, lo, f, dropped, live);
      DrainRun(Apply(s, steps[0]), steps[1..], cmds, lo, f, dropped, live);
    }
  }

  lemma FindNull(cmds: seq<Cmd>, lo: nat) returns (f: nat)
    requires lo < |cmds| && cmds[|cmds| - 1].Null?
    ensures FirstNull(cmds, lo, f)
  {
    f := lo;
    while cmds[f].Task?
      invariant lo <= f < |cmds| && forall k | lo <= k < f :: cmds[k].Task?
      decreases |cmds| - f
    {
      f := f + 1;
    }
  }

  /** The begun Stop is draining. */
  lemma StopBegun(s: State) returns (f: nat)
    requires Inv(s) && s.stopping == 0
    ensures var t := Apply(s, Begin(false)); Inv(t) && Draining(t, t.pushed, s.lo, f, s.dropped, s.Live())
  {
    InvStep(s, Begin(false));
    f := FindNull(s.pushed + [Null], s.lo);
  }

  /** Nothing behind the null command of a Stop is executed before the thread is joined. */
  lemma NothingBehind(s: State, steps: seq<Step>)
    requires Inv(s) && s.stopping == 0 && Quiet(steps) && Allowed(Apply(s, Begin(false)), steps)
    ensures Result(Apply(s, Begin(false)), steps).lo <= |s.pushed| + 1
  {
    var t := Apply(s, Begin(false));
    var f := StopBegun(s);
    DrainRun(t, steps, t.pushed, s.lo, f, s.dropped, s.Live());
  }

  /** A stopped queue executes nothing until it is started. */
  lemma {:induction false} StoppedStays(s: State, steps: seq<Step>)
    requires s.worker.NotStarted? && Allowed(s, steps) && Start !in steps
    ensures Result(s, steps).popped == s.popped && Result(s, steps).finished == s.finished
    ensures Result(s, steps).worker.NotStarted?
    decreases |steps|
  {
    if steps != [] {
      StoppedStays(Apply(s, steps[0]), steps[1..]);
    }
  }

  lemma ReadyStops(s: State, steps: seq<Step>)
    requires Inv(s) && s.stopping == 0 && Ready(s)
    requires Quiet(steps) && Allowed(Apply(s, Begin(false)), steps) &&
      Enabled(Result(Apply(s, Begin(false)), steps), End)
    ensures AllRun(s, Result(Apply(s, Begin(false)), steps))
  {
    var t := Apply(s, Begin(false));
    var r := Result(t, steps);
    var f := StopBegun(s);
    DrainRun(t, steps, t.pushed, s.lo, f, s.dropped, s.Live());
    InvRun(t, steps);
    FinishedMembers(r);
    assert f < |s.pushed| ==> t.pushed[f] == s.pushed[f];
    forall i | s.lo <= i < |s.pushed| && s.pushed[i].Task?
      ensures i in r.finished
    {
      assert t.pushed[i] == s.pushed[i] == r.pushed[i];
    }
  }

  /** Some run ends with the thread stopped at the first null command. */
  lemma {:induction false} StopAtFirstNull(s: State, cmds: seq<Cmd>, lo: nat, f: nat, dropped: set<nat>)
    returns (steps: seq<Step>)
    requires Draining(s, cmds, lo, f, dropped, true) && !s.paused && s.lo <= f + 1
    ensures Quiet(steps) && Allowed(s, steps) && Enabled(Result(s, steps), End) && Result(s, steps).lo == f + 1
    decreases f + 1 - s.lo, if s.worker.Running? then 1 else 0
  {
    if s.worker.Exited? {
      steps := [];
    } else {
      var step := if s.worker.Running? then Finish else Pop;
      DrainStep(s, step, cmds, lo, f, dropped, true);
      var rest := StopAtFirstNull(Apply(s, step), cmds, lo, f, dropped);
      steps := [step] + rest;
      assert steps[1..] == rest;
    }
  }

  /** A Stop is sure to execute everything pushed before it exactly when every waiting task
      has a live thread and no null command before it; a null command is left behind when
      a shutdown finds no thread or two of them meet one. */
  lemma StopExact(s: State)
    requires Inv(s) && s.stopping == 0
    ensures StopsClean(s) <==> Ready(s)
  {
    if Ready(s) {
      forall steps: seq<Step> | Quiet(steps) && Allowed(Apply(s, Begin(false)), steps) &&
        Enabled(Result(Apply(s, Begin(false)), steps), End)
        ensures AllRun(s, Result(Apply(s, Begin(false)), steps))
      {
        ReadyStops(s, steps);
      }
    } else {
      NotReadyLeaves(s);
    }
  }

  /** A stop that ends before the task i is reached. */
  lemma StopShort(s: State, i: nat) returns (steps: seq<Step>)
    requires Inv(s) && s.stopping == 0 && s.lo <= i < |s.pushed|
    requires s.Live() ==> exists k | s.lo <= k < i :: s.pushed[k].Null?
    ensures Quiet(steps) && Allowed(Apply(s, Begin(false)), steps)
    ensures Enabled(Result(Apply(s, Begin(false)), steps), End) && Result(Apply(s, Begin(false)), steps).lo <= i
  {
    var t := Apply(s, Begin(false));
    var f := StopBegun(s);
    steps := [];
    if s.Live() {
      steps := StopAtFirstNull(t, t.pushed, s.lo, f, s.dropped);
      var k :| s.lo <= k < i && s.pushed[k].Null?;
      assert t.pushed[k] == s.pushed[k] && f <= k;
    }
  }

  lemma NotReached(s: State, i: nat, steps: seq<Step>)
    requires Inv(s) && Allowed(s, steps) && Result(s, steps).lo <= i
    ensures i !in Result(s, steps).finished
  {
    InvRun(s, steps);
    FinishedMembers(Result(s, steps));
  }

  lemma NotReadyLeaves(s: State)
    requires Inv(s) && s.stopping == 0 && !Ready(s)
    ensures !StopsClean(s)
  {
    var i :| s.lo <= i < |s.pushed| && s.pushed[i].Task?
      && !(s.Live() && forall k | s.lo <= k < i :: s.pushed[k].Task?);
    var steps := StopShort(s, i);
    InvStep(s, Begin(false));
    NotReached(Apply(s, Begin(false)), i, steps);
    assert !AllRun(s, Result(Apply(s, Begin(false)), steps));
  }

  // ---------- shutdowns that find one live thread each

  predicate Disciplined(s: State, step: Step) {
    step.Begin? ==> s.Live() && s.stopping == 0
  }

  predicate AllDisciplined(s: State, steps: seq<Step>)
    requires Allowed(s, steps)
    decreases |steps|
  {
    |steps| == 0 || (Disciplined(s, steps[0]) && AllDisciplined(Apply(s, steps[0]), steps[1..]))
  }

  predicate NoNull(s: State) {
    forall k | s.lo <= k < |s.pushed| :: s.pushed[k].Task?
  }

  predicate OnlyNull(s: State, f: nat) {
    s.lo <= f < |s.pushed| && s.pushed[f].Null? && forall k | s.lo <= k < |s.pushed| && k != f :: s.pushed[k].Task?
  }

  /** The one null command of the shutdown in progress is the only one there is. */
  ghost predicate NoneLeft(s: State) {
    && s.stopping <= 1
    && (s.stopping == 0 ==> NoNull(s) && !s.worker.Exited?)
    && (s.stopping == 1 ==> if s.Live() then exists f: nat :: OnlyNull(s, f) else s.worker.Exited? && NoNull(s))
  }

  lemma NoneLeftStep(s: State, step: Step)
    requires NoneLeft(s) && Enabled(s, step) && Disciplined(s, step)
    ensures NoneLeft(Apply(s, step))
  {
    var t := Apply(s, step);
    if step.Begin? {
      assert OnlyNull(t, |s.pushed|);
    } else if s.stopping == 1 && s.Live() {
      var f: nat :| OnlyNull(s, f);
      assert t.pushed[f] == s.pushed[f];
      assert t.Live() ==> OnlyNull(t, f);
    }
  }

  /** With such shutdowns only, every Stop executes all that was pushed before it. */
  lemma {:induction false} DisciplinedStops(s: State, steps: seq<Step>)
    requires NoneLeft(s) && Inv(s) && Allowed(s, steps) && AllDisciplined(s, steps)
    ensures var r := Result(s, steps); Inv(r) && NoneLeft(r) && (r.stopping == 0 && r.Live() ==> StopsClean(r))
    decreases |steps|
  {
    if steps == [] {
      if s.stopping == 0 && s.Live() {
        StopExact(s);
      }
    } else {
      NoneLeftStep(s, steps[0]);
      InvStep(s, steps[0]);
      DisciplinedStops(Apply(s, steps[0]), steps[1..]);
    }
  }

  // ---------- the queue object

  datatype Thread = Absent | Popping | Busy(cmd: Cmd) | Left

  class MfxCmdQueue {
    var data: seq<Cmd>
    var paused: bool
    var thread: Thread  // m_workingThread is joinable unless it is absent

    ghost var history: State

    ghost predicate Valid()
      reads this
    {
      && Inv(history) && data == history.pushed[history.lo..] && paused == history.paused
      && match history.worker
         case NotStarted => thread == Absent
         case Waiting => thread == Popping
         case Running(i) => i < |history.pushed| && thread == Busy(history.pushed[i])
         case Exited => thread == Left
    }

    constructor ()
      ensures Valid() && history == INITIAL
    {
      data, paused, thread, history := [], false, Absent, INITIAL;
    }

    method Start()
      requires Valid()
      modifies this
      ensures Valid() && history == Apply(old(history), Step.Start)
      ensures thread == if old(thread) == Absent then Popping else old(thread)
      ensures data == old(data) && paused == old(paused)
    {
      if thread == Absent {
        thread := Popping;
      }
      history := Apply(history, Step.Start);
    }

    method Push(id: nat)
      requires Valid()
      modifies this
      ensures Valid() && history == Apply(old(history), Step.Push(id))
      ensures data == old(data) + [Task(id)] && paused == old(paused) && thread == old(thread)
    {
      InvStep(history, Step.Push(id));
      data := data + [Task(id)];
      history := Apply(history, Step.Push(id));
    }

    method Pause()
      requires Valid()
      modifies this
      ensures Valid() && history == Apply(old(history), Step.Pause)
      ensures paused && data == old(data) && thread == old(thread)
    {
      paused := true;
      history := Apply(history, Step.Pause);
    }

    method Resume()
      requires Valid()
      modifies this
      ensures Valid() && history == Apply(old(history), Step.Resume)
      ensures !paused && data == old(data) && thread == old(thread)
    {
      paused := false;
      history := Apply(history, Step.Resume);
    }

    /** The first section of Shutdown: the null command goes behind what is left. */
    method BeginShutdown(abort: bool)
      requires Valid()
      modifies this
      ensures Valid() && history == Apply(old(history), Begin(abort))
      ensures data == (if abort then [] else old(data)) + [Null] && !paused && thread == old(thread)
    {
      InvStep(history, Begin(abort));
      BeginPushes(history, abort);
      if abort {
        data := [];
      }
      data := data + [Null];
      paused := false;
      history := Apply(history, Begin(abort));
    }

    /** The second section: a thread that left its loop is joined. */
    method EndShutdown()
      requires Valid() && Enabled(history, End)
      modifies this
      ensures Valid() && history == Apply(old(history), End)
      ensures thread == Absent && data == old(data) && paused == old(paused)
    {
      if thread != Absent {
        thread := Absent;
      }
      history := Apply(history, End);
    }

    /** WaitingPop, once its condition holds, and the test for the null command behind it. */
    method WaitingPop() returns (command: Cmd)
      requires Valid() && thread == Popping && !paused && data != []
      modifies this
      ensures Valid() && Enabled(old(history), Pop) && history == Apply(old(history), Pop)
      ensures command == old(data)[0] && data == old(data)[1..] && !paused
      ensures thread == if command == Null then Left else Busy(command)
    {
      InvStep(history, Pop);
      command := data[0];
      data := data[1..];
      thread := if command == Null then Left else Busy(command);
      history := Apply(history, Pop);
    }

    /** The command returned. */
    method FinishCommand()
      requires Valid() && thread.Busy?
      modifies this
      ensures Valid() && Enabled(old(history), Finish) && history == Apply(old(history), Finish)
      ensures thread == Popping && data == old(data) && paused == old(paused)
    {
      InvStep(history, Finish);
      thread := Popping;
      history := Apply(history, Finish);
    }

    /** The condition WaitForEmpty waits for. */
    method IsEmpty() returns (empty: bool)
      requires Valid()
      ensures (empty <==> Enabled(history, SeeEmpty)) && (empty <==> data == [])
    {
      empty := data == [];
    }
  }
}
