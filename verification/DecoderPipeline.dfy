/** The decoder's three threads as steps between critical sections: the client queues,
    flushes and stops, the working thread decodes, the waiting thread delivers. What the
    codec and the clock answer is part of a step. */
module DecoderPipeline {

  datatype Option<T> = None | Some(value: T)

  /** A piece of work; ids tell apart works with equal indices. */
  datatype Work = Work(id: nat, index: nat, timestamp: nat, eos: bool, empty: bool, valid: bool)

  datatype WorkTask = DoWork(w: Work) | DrainTask(eos: Option<Work>) | PendTask(w: Work) | ResetTask | NullTask

  datatype WaitTask = WaitWork | EosTask(w: Work) | NullWait

  /** Who calls DecodeFrame: DoWork, the drain of a resolution change, or the Drain task. */
  datatype Job = Decode(index: nat) | Change(index: nat) | Drain(eos: Option<Work>)

  datatype Working =
    | Absent | Left | Idle | Resetting
    | Got(w: Work)                           // a work not yet pending
    | Run(job: Job)                          // between two calls of DecodeFrame
    | Gated(job: Job)                        // past the gate of DecodeFrameAsync
    | Counting(job: Job)                     // an output is pushed and not yet counted
    | DrainWait(resume: Option<nat>)         // waiting for the counter to become 0
    | Clearing(index: nat)                   // about to remove the other pending works
    | Finish(index: nat, flushing: bool)     // about to look for its work
    | Held(w: Work, flushing: bool)          // about to deliver it

  datatype Waiting = Missing | Gone | Free | Syncing | Matched(work: Option<Work>) | Leaving | Eos(w: Work)

  datatype Client =
    | Down | Ready | QueuedEos
    | FlushSet | FlushPushed | FlushWorked | FlushWaited | FlushCleared | FlushMoved
    | StopWorking(abort: bool) | StopWaiting(abort: bool) | StopJoining | StopPending

  datatype State = State(
    client: Client, eosReceived: bool, flushing: bool, depth: nat,
    workQ: seq<WorkTask>, working: Working, waitQ: seq<WaitTask>, waiting: Waiting,
    pending: seq<Work>, flushed: seq<Work>, synced: int, lost: nat,
    accepted: seq<Work>, notified: seq<Work>, returned: seq<Work>, aborted: seq<Work>)

  function Initial(depth: nat): State {
    State(Down, false, false, depth, [], Absent, [], Missing, [], [], 0, 0,
          [], [], [], [])
  }

  datatype ClientStep =
    | Start(ok: bool) | QueueWork(w: Work) | QueueDrain
    | SetFlushing | PushReset | SeeWorkEmpty | SeeWaitEmpty | ClearFlushing | MovePending | ReturnFlushed
    | BeginStop(abort: bool) | JoinWorking | BeginWaitingStop | JoinWaiting | ClearPending

  datatype WorkingStep =
    | Take(initialized: bool) | ResetDone | Empty | Pend | Gate | Output | NoOutput | NewFormat | Busy
    | Increment | Leave | SkipDrain | DrainDone(timeout: bool) | ClearOthers | Report(take: bool) | Deliver

  datatype WaitingStep = TakeWait | Match(ready: nat, alike: set<nat>) | Notify | Decrement

  datatype Step = C(c: ClientStep) | W(w: WorkingStep) | A(a: WaitingStep)

  // ---------- works in tasks and lists

  function Opt(o: Option<Work>): seq<Work> {
    if o.Some? then [o.value] else []
  }

  function InTask(t: WorkTask): seq<Work> {
    match t
    case DoWork(w) => [w]
    case DrainTask(eos) => Opt(eos)
    case PendTask(w) => [w]
    case _ => []
  }

  function InTasks(q: seq<WorkTask>): seq<Work> {
    if |q| == 0 then [] else InTask(q[0]) + InTasks(q[1..])
  }

  function InWait(t: WaitTask): seq<Work> {
    if t.EosTask? then [t.w] else []
  }

  function InWaits(q: seq<WaitTask>): seq<Work> {
    if |q| == 0 then [] else InWait(q[0]) + InWaits(q[1..])
  }

  /** The outputs that wait in the queue. */
  function Waits(q: seq<WaitTask>): nat {
    if |q| == 0 then 0 else (if q[0].WaitWork? then 1 else 0) + Waits(q[1..])
  }

  // ---------- the pending works, in order of their indices

  /** The first position whose index is not below the given one. */
  function Position(p: seq<Work>, index: nat): (k: nat)
    ensures k <= |p|
  {
    if |p| == 0 || p[0].index >= index then 0 else 1 + Position(p[1..], index)
  }

  function Replaced(p: seq<Work>, index: nat): Option<Work> {
    var k := Position(p, index);
    if k < |p| && p[k].index == index then Some(p[k]) else None
  }

  function Without(p: seq<Work>, index: nat): seq<Work> {
    var k := Position(p, index);
    if k < |p| && p[k].index == index then p[..k] + p[k + 1..] else p
  }

  /** w in its place; a work of the same index is replaced. */
  function Inserted(p: seq<Work>, w: Work): seq<Work> {
    var q, k := Without(p, w.index), Position(Without(p, w.index), w.index);
    q[..k] + [w] + q[k..]
  }

  function Only(p: seq<Work>, index: nat): seq<Work> {
    if |p| == 0 then [] else
      Only(p[..|p| - 1], index) + if p[|p| - 1].index == index then [p[|p| - 1]] else []
  }

  function Others(p: seq<Work>, index: nat): seq<Work> {
    if |p| == 0 then [] else
      Others(p[..|p| - 1], index) + if p[|p| - 1].index != index then [p[|p| - 1]] else []
  }

  /** The first work whose timestamp, or whose converted timestamp, is the output's. */
  function FirstMatch(p: seq<Work>, ready: nat, alike: set<nat>): (k: nat)
    ensures k <= |p|
  {
    if |p| == 0 || p[0].timestamp == ready || p[0].timestamp in alike then 0 else 1 + FirstMatch(p[1..], ready, alike)
  }

  // ---------- the client

  predicate ClientEnabled(s: State, c: ClientStep) {
    match c
    case Start(_) => s.client == Down
    case QueueWork(w) => s.client == Ready && w !in s.accepted
    case QueueDrain => s.client == QueuedEos
    case SetFlushing => s.client == Ready
    case PushReset => s.client == FlushSet
    case SeeWorkEmpty => s.client == FlushPushed && s.workQ == []
    case SeeWaitEmpty => s.client == FlushWorked && s.waitQ == []
    case ClearFlushing => s.client == FlushWaited
    case MovePending => s.client == FlushCleared
    case ReturnFlushed => s.client == FlushMoved
    case BeginStop(_) => s.client == Ready
    case JoinWorking => s.client.StopWorking? && (s.working == Absent || s.working == Left)
    case BeginWaitingStop => s.client.StopWaiting?
    case JoinWaiting => s.client == StopJoining && (s.waiting == Missing || s.waiting == Gone)
    case ClearPending => s.client == StopPending
  }

  /** Works after the end of the stream go to the pending works, behind the drain. */
  function Queued(s: State, w: Work): State {
    var t := s.(accepted := s.accepted + [w]);
    if !w.valid then t.(notified := s.notified + [w])
    else if s.eosReceived then t.(workQ := s.workQ + [PendTask(w)])
    else if w.eos && w.empty then t.(eosReceived := true, workQ := s.workQ + [DrainTask(Some(w))])
    else t.(workQ := s.workQ + [DoWork(w)], eosReceived := w.eos, client := if w.eos then QueuedEos else Ready)
  }

  function ClientApply(s: State, c: ClientStep): State
    requires ClientEnabled(s, c)
  {
    match c
    case Start(ok) =>
      var t := s.(client := Ready, synced := 0, lost := 0, eosReceived := false);
      if ok then t.(working := if s.working == Absent then Idle else s.working,
                    waiting := if s.waiting == Missing then Free else s.waiting) else t
    case QueueWork(w) => Queued(s, w)
    case QueueDrain => s.(client := Ready, workQ := s.workQ + [DrainTask(None)])
    case SetFlushing => s.(client := FlushSet, flushing := true)
    case PushReset => s.(client := FlushPushed, workQ := s.workQ + [ResetTask])
    case SeeWorkEmpty => s.(client := FlushWorked)
    case SeeWaitEmpty => s.(client := FlushWaited)
    case ClearFlushing => s.(client := FlushCleared, flushing := false)
    case MovePending => s.(client := FlushMoved, flushed := s.flushed + s.pending, pending := [])
    case ReturnFlushed =>
      s.(client := Ready, returned := s.returned + s.flushed, flushed := [], eosReceived := false)
    case BeginStop(abort) =>
      s.(client := StopWorking(abort), workQ := (if abort then [] else s.workQ) + [NullTask],
         aborted := s.aborted + if abort then InTasks(s.workQ) else [])
    case JoinWorking => s.(client := StopWaiting(s.client.abort), working := Absent)
    case BeginWaitingStop =>
      var abort := s.client.abort;
      s.(client := StopJoining, waitQ := (if abort then [] else s.waitQ) + [NullWait],
         aborted := s.aborted + (if abort then InWaits(s.waitQ) else []),
         lost := s.lost + if abort then Waits(s.waitQ) else 0)
    case JoinWaiting => s.(client := StopPending, waiting := Missing)
    case ClearPending => s.(client := Down, notified := s.notified + s.pending, pending := [])
  }

  // ---------- the working thread

  /** The counter is read as an unsigned number. */
  function Unsigned(x: int): nat {
    x % 0x1_0000_0000
  }

  predicate WorkingEnabled(s: State, w: WorkingStep) {
    match w
    case Take(_) => s.working == Idle && s.workQ != []
    case ResetDone => s.working == Resetting
    case Empty => s.working.Got?
    case Pend => s.working.Got?
    case Gate => s.working.Run? && Unsigned(s.synced) < s.depth
    case Output => s.working.Gated?
    case NoOutput => s.working.Gated?
    case NewFormat => s.working.Gated? && s.working.job.Decode?
    case Busy => s.working.Gated? && s.flushing
    case Increment => s.working.Counting?
    case Leave => s.working.Run?
    case SkipDrain => s.working.Run? && !s.working.job.Decode? && s.flushing
    case DrainDone(timeout) => s.working.DrainWait? && (timeout || Unsigned(s.synced) == 0)
    case ClearOthers => s.working.Clearing?
    case Report(take) => s.working.Finish? && (s.working.flushing ==> take)
    case Deliver => s.working.Held?
  }

  function Pended(s: State, w: Work): State {
    s.(pending := Inserted(s.pending, w), notified := s.notified + Opt(Replaced(s.pending, w.index)))
  }

  function Taken(s: State, initialized: bool): State
    requires s.workQ != []
  {
    var t := s.(workQ := s.workQ[1..]);
    match s.workQ[0]
    case DoWork(w) => if s.flushing then t.(flushed := s.flushed + [w]) else t.(working := Got(w))
    case DrainTask(eos) =>
      if initialized then t.(working := Run(Drain(eos))) else t.(notified := s.notified + Opt(eos))
    case PendTask(w) => Pended(t, w)
    case ResetTask => t.(working := Resetting)
    case NullTask => t.(working := Left)
  }

  /** A drain interrupted by a flush: the end-of-stream work is flushed. */
  function Interrupted(s: State, job: Job): State {
    match job
    case Decode(i) => s.(working := Finish(i, true))
    case Change(i) => s.(working := DrainWait(Some(i)))
    case Drain(eos) =>
      s.(working := DrainWait(None), flushed := if eos.Some? then s.flushed + [eos.value] else s.flushed)
  }

  /** No more calls of DecodeFrame: the end-of-stream work goes behind the last output. */
  function Done(s: State, job: Job): State {
    match job
    case Decode(i) => s.(working := Finish(i, false))
    case Change(i) => s.(working := DrainWait(Some(i)))
    case Drain(eos) =>
      s.(working := DrainWait(None), waitQ := if eos.Some? then s.waitQ + [EosTask(eos.value)] else s.waitQ)
  }

  function Reported(s: State, i: nat, flushing: bool, take: bool): State {
    if take && Replaced(s.pending, i).Some? then
      s.(working := Held(Replaced(s.pending, i).value, flushing), pending := Without(s.pending, i))
    else s.(working := Idle)
  }

  function WorkingApply(s: State, w: WorkingStep): State
    requires WorkingEnabled(s, w)
  {
    match w
    case Take(initialized) => Taken(s, initialized)
    case ResetDone => s.(working := Idle)
    case Empty => s.(working := Idle, notified := s.notified + [s.working.w])
    case Pend => Pended(s, s.working.w).(working := Run(Decode(s.working.w.index)))
    case Gate => s.(working := Gated(s.working.job))
    case Output => s.(working := Counting(s.working.job), waitQ := s.waitQ + [WaitWork])
    case NoOutput => s.(working := Run(s.working.job))
    case NewFormat => s.(working := Run(Change(s.working.job.index)))
    case Busy => Interrupted(s, s.working.job)
    case Increment => s.(working := Run(s.working.job), synced := s.synced + 1)
    case Leave => Done(s, s.working.job)
    case SkipDrain => Interrupted(s, s.working.job)
    case DrainDone(_) => s.(working := if s.working.resume.Some? then Clearing(s.working.resume.value) else Idle)
    case ClearOthers =>
      var i := s.working.index;
      s.(working := Run(Decode(i)), pending := Only(s.pending, i), notified := s.notified + Others(s.pending, i))
    case Report(take) => Reported(s, s.working.index, s.working.flushing, take)
    case Deliver =>
      if s.working.flushing then s.(working := Idle, flushed := s.flushed + [s.working.w])
      else s.(working := Idle, notified := s.notified + [s.working.w])
  }

  // ---------- the waiting thread

  predicate WaitingEnabled(s: State, a: WaitingStep) {
    match a
    case TakeWait => s.waiting == Free && s.waitQ != []
    case Match(_, _) => s.waiting == Syncing
    case Notify => s.waiting.Matched? || s.waiting.Eos?
    case Decrement => s.waiting == Leaving
  }

  function WaitingApply(s: State, a: WaitingStep): State
    requires WaitingEnabled(s, a)
  {
    match a
    case TakeWait =>
      var t := s.(waitQ := s.waitQ[1..]);
      (match s.waitQ[0]
       case WaitWork => t.(waiting := Syncing)
       case EosTask(w) => t.(waiting := Eos(w))
       case NullWait => t.(waiting := Gone))
    case Match(ready, alike) =>
      var k := FirstMatch(s.pending, ready, alike);
      if k < |s.pending| then s.(waiting := Matched(Some(s.pending[k])), pending := s.pending[..k] + s.pending[k + 1..])
      else s.(waiting := Matched(None))
    case Notify =>
      if s.waiting.Eos? then s.(waiting := Free, notified := s.notified + [s.waiting.w])
      else s.(waiting := Leaving, notified := s.notified + Opt(s.waiting.work))
    case Decrement => s.(waiting := Free, synced := s.synced - 1)
  }

  // ---------- runs

  predicate Enabled(s: State, step: Step) {
    match step
    case C(c) => ClientEnabled(s, c)
    case W(w) => WorkingEnabled(s, w)
    case A(a) => WaitingEnabled(s, a)
  }

  function Apply(s: State, step: Step): State
    requires Enabled(s, step)
  {
    match step
    case C(c) => ClientApply(s, c)
    case W(w) => WorkingApply(s, w)
    case A(a) => WaitingApply(s, a)
  }

  predicate Allowed(s: State, steps: seq<Step>)
    decreases |steps|
  {
    |steps| == 0 || (Enabled(s, steps[0]) && Allowed(Apply(s, steps[0]), steps[1..]))
  }

  function Result(s: State, steps: seq<Step>): State
    requires Allowed(s, steps)
    decreases |steps|
  {
    if |steps| == 0 then s else Result(Apply(s, steps[0]), steps[1..])
  }
}
