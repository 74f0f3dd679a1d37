/** The encoder's client and threads as steps between critical sections: works enter a first-in
    first-out queue when they are encoded, the outputs go to its front, and the waiting thread
    notifies them. */
module EncoderPipeline {

  datatype Option<T> = None | Some(value: T)

  datatype Work = Work(id: nat, eos: bool, empty: bool)

  datatype WorkTask = DoWork(w: Work) | DrainTask(eos: Option<Work>) | NullTask

  datatype WaitTask = Retain | WaitWork(w: Work) | EosTask(w: Work) | NullWait

  datatype Client = Down | Ready | QueuedEos | StopWorking | StopWaiting | StopJoining | StopPending

  datatype Working =
    | Absent | Left | Idle
    | Encoding(w: Work)                       // before EncodeFrameAsync
    | Entering(w: Work, output: bool)         // its frame is retained
    | Counting(drain: Option<Option<Work>>)   // an output is pushed and not yet counted
    | Draining(eos: Option<Work>)
    | DrainFailed(eos: Option<Work>)
    | Dropping                                // notifying what is left after a failed drain

  datatype Waiting = Missing | Gone | Free | Holding(w: Work)

  /** How a work left the pending works: with an output, or with an error. */
  datatype Exit = Exit(w: Work, ok: bool)

  /** What was pushed for the waiting thread: an output's work, or an end-of-stream work,
      whether its drain's encodes all succeeded, and the works taken so far. */
  datatype Pushed = Out(w: Work) | End(w: Work, clean: bool, before: seq<Work>)

  datatype State = State(
    client: Client, workQ: seq<WorkTask>, working: Working, waitQ: seq<WaitTask>, waiting: Waiting, pending: seq<Work>,
    // history
    accepted: seq<Work>, taken: seq<Work>, entered: seq<Work>, exits: seq<Exit>, direct: seq<Work>,
    pushed: seq<Pushed>, delivered: seq<Work>)

  const INITIAL := State(Down, [], Absent, [], Missing, [], [], [], [], [], [], [], [])

  datatype Step =
    | Start(ok: bool) | QueueWork(w: Work) | QueueDrain
    | BeginStop | JoinWorking | BeginWaitingStop | JoinWaiting | StopClear | EndStop
    | Take | Fail | RetainFrame(output: bool) | Enter | Count
    | DrainOutput | DrainFail | DrainEnd | PushEos | DropOne | DropEnd
    | TakeWait | Notify

  function Opt(o: Option<Work>): seq<Work> {
    if o.Some? then [o.value] else []
  }

  predicate Enabled(s: State, step: Step) {
    match step
    case Start(_) => s.client == Down
    case QueueWork(w) => s.client == Ready && w !in s.accepted
    case QueueDrain => s.client == QueuedEos
    case BeginStop => s.client == Ready
    case JoinWorking => s.client == StopWorking && (s.working == Absent || s.working == Left)
    case BeginWaitingStop => s.client == StopWaiting
    case JoinWaiting => s.client == StopJoining && (s.waiting == Missing || s.waiting == Gone)
    case StopClear => s.client == StopPending && |s.pending| > 0
    case EndStop => s.client == StopPending && |s.pending| == 0
    case Take => s.working == Idle && |s.workQ| > 0
    case Fail => s.working.Encoding?
    case RetainFrame(_) => s.working.Encoding?
    case Enter => s.working.Entering?
    case Count => s.working.Counting?
    case DrainOutput => s.working.Draining? && |s.pending| > 0
    case DrainFail => s.working.Draining? && |s.pending| > 0
    case DrainEnd => s.working.Draining? && |s.pending| == 0
    case PushEos => s.working.DrainFailed?
    case DropOne => s.working == Dropping && |s.pending| > 0
    case DropEnd => s.working == Dropping && |s.pending| == 0
    case TakeWait => s.waiting == Free && |s.waitQ| > 0
    case Notify => s.waiting.Holding?
  }

  /** An empty work without the end-of-stream flag is returned at once. */
  function Queued(s: State, w: Work): State {
    var t := s.(accepted := s.accepted + [w]);
    if w.empty then
      if w.eos then t.(workQ := s.workQ + [DrainTask(Some(w))]) else t.(direct := s.direct + [w])
    else t.(workQ := s.workQ + [DoWork(w)], client := if w.eos then QueuedEos else Ready)
  }

  /** The front of the pending works gets the output. */
  function Output(s: State, back: Option<Option<Work>>): State
    requires |s.pending| > 0
  {
    var w := s.pending[0];
    s.(pending := s.pending[1..], exits := s.exits + [Exit(w, true)], waitQ := s.waitQ + [WaitWork(w)],
       pushed := s.pushed + [Out(w)], working := Counting(back))
  }

  function Drop(s: State): State
    requires |s.pending| > 0
  {
    s.(pending := s.pending[1..], exits := s.exits + [Exit(s.pending[0], false)])
  }

  function Ended(s: State, eos: Option<Work>, clean: bool): State {
    if eos.Some? then
      s.(waitQ := s.waitQ + [EosTask(eos.value)], pushed := s.pushed + [End(eos.value, clean, s.taken)])
    else s
  }

  function Apply(s: State, step: Step): State
    requires Enabled(s, step)
  {
    match step
    case Start(ok) =>
      if ok then s.(client := Ready, working := if s.working == Absent then Idle else s.working,
                    waiting := if s.waiting == Missing then Free else s.waiting)
      else s.(client := Ready)
    case QueueWork(w) => Queued(s, w)
    case QueueDrain => s.(client := Ready, workQ := s.workQ + [DrainTask(None)])
    case BeginStop => s.(client := StopWorking, workQ := s.workQ + [NullTask])
    case JoinWorking => s.(client := StopWaiting, working := Absent)
    case BeginWaitingStop => s.(client := StopJoining, waitQ := s.waitQ + [NullWait])
    case JoinWaiting => s.(client := StopPending, waiting := Missing)
    case StopClear => Drop(s)
    case EndStop => s.(client := Down)
    case Take =>
      var t := s.(workQ := s.workQ[1..]);
      (match s.workQ[0]
       case DoWork(w) => t.(working := Encoding(w), taken := s.taken + [w])
       case DrainTask(eos) => t.(working := Draining(eos), taken := s.taken + Opt(eos))
       case NullTask => t.(working := Left))
    case Fail => s.(working := Idle, direct := s.direct + [s.working.w])
    case RetainFrame(output) => s.(working := Entering(s.working.w, output), waitQ := s.waitQ + [Retain])
    case Enter =>
      var t := s.(pending := s.pending + [s.working.w], entered := s.entered + [s.working.w], working := Idle);
      if s.working.output then Output(t, None) else t
    case Count => s.(working := if s.working.drain.Some? then Draining(s.working.drain.value) else Idle)
    case DrainOutput => Output(s, Some(s.working.eos))
    case DrainFail => s.(working := DrainFailed(s.working.eos))
    case DrainEnd => Ended(s, s.working.eos, true).(working := Idle)
    case PushEos => Ended(s, s.working.eos, false).(working := Dropping)
    case DropOne => Drop(s)
    case DropEnd => s.(working := Idle)
    case TakeWait =>
      var t := s.(waitQ := s.waitQ[1..]);
      (match s.waitQ[0]
       case Retain => t
       case WaitWork(w) => t.(waiting := Holding(w))
       case EosTask(w) => t.(waiting := Holding(w))
       case NullWait => t.(waiting := Gone))
    case Notify => s.(waiting := Free, delivered := s.delivered + [s.waiting.w])
  }

  predicate Allowed(s: State, steps: seq<Step>)
    decreases |steps|
  {
    |steps| == 0 || (Enabled(s, steps[0]) && Allowed(Apply(s, steps[0]), steps[1..]))
  }

  function Result(s: State, steps: seq<Step>): State
    requires Allowed(s, steps)
    decreases |steps|
  {
    if |steps| == 0 then s else Result(Apply(s, steps[0]), steps[1..])
  }

  // ---------- first in, first out

  function Departed(exits: seq<Exit>): seq<Work> {
    if |exits| == 0 then [] else Departed(exits[..|exits| - 1]) + [exits[|exits| - 1].w]
  }

  /** The works that got outputs, in the order of the outputs. */
  function Outputs(exits: seq<Exit>): seq<Work> {
    if |exits| == 0 then [] else
      Outputs(exits[..|exits| - 1]) + if exits[|exits| - 1].ok then [exits[|exits| - 1].w] else []
  }

  function PushedWorks(pushed: seq<Pushed>): seq<Work> {
    if |pushed| == 0 then [] else PushedWorks(pushed[..|pushed| - 1]) + [pushed[|pushed| - 1].w]
  }

  function Outs(pushed: seq<Pushed>): seq<Work> {
    if |pushed| == 0 then [] else
      Outs(pushed[..|pushed| - 1]) + if pushed[|pushed| - 1].Out? then [pushed[|pushed| - 1].w] else []
  }

  function InWait(t: WaitTask): seq<Work> {
    match t
    case Retain => []
    case WaitWork(w) => [w]
    case EosTask(w) => [w]
    case NullWait => []
  }

  function InWaits(q: seq<WaitTask>): seq<Work> {
    if |q| == 0 then [] else InWaits(q[..|q| - 1]) + InWait(q[|q| - 1])
  }

  function InHand(a: Waiting): seq<Work> {
    if a.Holding? then [a.w] else []
  }

  /** Works leave the pending works in the order they entered them, whatever becomes of
      them; the waiting thread delivers in the order of pushing; each output is pushed. */
  ghost predicate Fifo(s: State) {
    && Departed(s.exits) + s.pending == s.entered
    && s.delivered + InHand(s.waiting) + InWaits(s.waitQ) == PushedWorks(s.pushed)
    && Outputs(s.exits) == Outs(s.pushed)
  }

  lemma ExitSnoc(exits: seq<Exit>, e: Exit)
    ensures Departed(exits + [e]) == Departed(exits) + [e.w]
    ensures Outputs(exits + [e]) == Outputs(exits) + if e.ok then [e.w] else []
  {
    assert (exits + [e])[..|exits|] == exits;
  }

  lemma PushedSnoc(pushed: seq<Pushed>, x: Pushed)
    ensures PushedWorks(pushed + [x]) == PushedWorks(pushed) + [x.w]
    ensures Outs(pushed + [x]) == Outs(pushed) + if x.Out? then [x.w] else []
  {
    assert (pushed + [x])[..|pushed|] == pushed;
  }

  lemma Associate(a: seq<Work>, b: seq<Work>, c: seq<Work>)
    ensures a + (b + c) == a + b + c && a + [] == a
  {
  }

  lemma WaitsSnoc(q: seq<WaitTask>, t: WaitTask)
    ensures InWaits(q + [t]) == InWaits(q) + InWait(t)
  {
    assert (q + [t])[..|q|] == q;
  }

  lemma {:induction false} WaitsFront(q: seq<WaitTask>)
    requires |q| > 0
    ensures InWaits(q) == InWait(q[0]) + InWaits(q[1..])
  {
    if |q| == 1 {
      assert q[..0] == [] && q[1..] == [];
      assert [] + InWait(q[0]) == InWait(q[0]) + [];
    } else {
      var t, x := q[..|q| - 1], q[|q| - 1];
      WaitsFront(t);
      assert t[1..] + [x] == q[1..];
      WaitsSnoc(t[1..], x);
      assert InWait(q[0]) + InWaits(t[1..]) + InWait(x) == InWait(q[0]) + (InWaits(t[1..]) + InWait(x));
    }
  }
}
