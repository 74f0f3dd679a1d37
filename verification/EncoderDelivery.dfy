/** What the encoder's client sees: outputs in the order it queued the works, and exactly one
    answer for each work once the component has stopped. */
module EncoderDelivery {
  import opened EncoderPipeline
  import opened EncoderOrder

  // ---------- subsequences

  /** a is b with some elements left out. */
  predicate Subsequence(a: seq<Work>, b: seq<Work>) {
    || |a| == 0
    || (|b| > 0 && var c := b[..|b| - 1];
        Subsequence(a, c) || (a[|a| - 1] == b[|b| - 1] && Subsequence(a[..|a| - 1], c)))
  }

  lemma SubsequenceSnoc(a: seq<Work>, b: seq<Work>, x: Work)
    requires Subsequence(a, b)
    ensures Subsequence(a, b + [x]) && Subsequence(a + [x], b + [x])
  {
    assert (b + [x])[..|b|] == b && (a + [x])[..|a|] == a;
  }

  lemma {:induction false} SubsequenceOfPrefix(a: seq<Work>, b: seq<Work>)
    requires a <= b
    ensures Subsequence(a, b)
  {
    if |a| > 0 {
      if |a| == |b| {
        assert a == b;
        SubsequenceOfPrefix(a[..|a| - 1], b[..|b| - 1]);
      } else {
        SubsequenceOfPrefix(a, b[..|b| - 1]);
      }
    }
  }

  lemma {:induction false} SubsequenceTransitive(a: seq<Work>, b: seq<Work>, c: seq<Work>)
    requires Subsequence(a, b) && Subsequence(b, c)
    ensures Subsequence(a, c)
    decreases |c|
  {
    if |a| > 0 {
      var b', c' := b[..|b| - 1], c[..|c| - 1];
      if Subsequence(b, c') {
        SubsequenceTransitive(a, b, c');
      } else if Subsequence(a, b') {
        SubsequenceTransitive(a, b', c');
      } else {
        SubsequenceTransitive(a[..|a| - 1], b', c');
      }
    }
  }

  lemma {:induction false} SubsequenceMembers(a: seq<Work>, b: seq<Work>)
    requires Subsequence(a, b)
    ensures forall x | x in a :: x in b
    decreases |b|
  {
    if |a| > 0 {
      var c := b[..|b| - 1];
      assert b == c + [b[|b| - 1]];
      if Subsequence(a, c) {
        SubsequenceMembers(a, c);
      } else {
        SubsequenceMembers(a[..|a| - 1], c);
        assert a == a[..|a| - 1] + [a[|a| - 1]];
      }
    }
  }

  /** Elements of a subsequence come in the order they have in the whole. */
  lemma {:induction false} SubsequenceKeepsOrder(a: seq<Work>, b: seq<Work>, i: nat, j: nat, p: nat, q: nat)
    requires Subsequence(a, b) && Different(b)
    requires i < j < |a| && p < |b| && q < |b| && b[p] == a[i] && b[q] == a[j]
    ensures p < q
    decreases |b|
  {
    var c := b[..|b| - 1];
    var whole := Subsequence(a, c);
    var a' := if whole then a else a[..|a| - 1];
    SubsequenceMembers(a', c);
    assert a[i] in a';
    var p' :| 0 <= p' < |c| && c[p'] == a[i];
    assert p == p';
    if whole || j < |a| - 1 {
      assert a[j] in a';
      var q' :| 0 <= q' < |c| && c[q'] == a[j];
      assert q == q';
      SubsequenceKeepsOrder(a', c, i, j, p, q);
    }
  }

  // ---------- works enter in the order queued

  function Encoded(w: Working): seq<Work> {
    match w
    case Encoding(x) => [x]
    case Entering(x, _) => [x]
    case _ => []
  }

  /** What entered, with the work being encoded, was taken in that order. */
  ghost predicate EntersInOrder(s: State) {
    Subsequence(s.entered + Encoded(s.working), s.taken)
  }

  lemma EntersStep(s: State, step: Step)
    requires EntersInOrder(s) && Enabled(s, step)
    ensures EntersInOrder(Apply(s, step))
  {
    if step.Take? {
      TakeEnters(s);
    } else if step.Fail? {
      SubsequenceOfPrefix(s.entered, s.entered + [s.working.w]);
      SubsequenceTransitive(s.entered, s.entered + [s.working.w], s.taken);
      assert Apply(s, step).entered + [] == s.entered;
    } else {
      KeepsEntered(s, step);
    }
  }

  lemma KeepsEntered(s: State, step: Step)
    requires Enabled(s, step) && !step.Take? && !step.Fail?
    ensures var t := Apply(s, step);
      t.taken == s.taken && t.entered + Encoded(t.working) == s.entered + Encoded(s.working)
  {
  }

  lemma TakeEnters(s: State)
    requires EntersInOrder(s) && Enabled(s, Take)
    ensures EntersInOrder(Apply(s, Take))
  {
    assert s.entered + [] == s.entered;
    match s.workQ[0]
    case DoWork(w) => SubsequenceSnoc(s.entered, s.taken, w);
    case DrainTask(eos) =>
      if eos.Some? {
        SubsequenceSnoc(s.entered, s.taken, eos.value);
      } else {
        assert s.taken + [] == s.taken;
      }
    case NullTask =>
  }

  lemma {:induction false} EntersRun(s: State, steps: seq<Step>)
    requires EntersInOrder(s) && Allowed(s, steps)
    ensures EntersInOrder(Result(s, steps))
    decreases |steps|
  {
    if |steps| > 0 {
      EntersStep(s, steps[0]);
      EntersRun(Apply(s, steps[0]), steps[1..]);
    }
  }

  lemma {:induction false} ThroughSubsequence(accepted: seq<Work>)
    ensures Subsequence(Through(accepted), accepted)
  {
    if |accepted| > 0 {
      var t, w := accepted[..|accepted| - 1], accepted[|accepted| - 1];
      ThroughSubsequence(t);
      SubsequenceSnoc(Through(t), t, w);
      assert accepted == t + [w] && Through(t) + [] == Through(t);
    }
  }

  /** In every run works enter the pending works in the order the client queued them. */
  lemma EnteredInQueueOrder(steps: seq<Step>)
    requires Allowed(INITIAL, steps)
    ensures Subsequence(Result(INITIAL, steps).entered, Result(INITIAL, steps).accepted)
  {
    var r := Result(INITIAL, steps);
    EntersRun(INITIAL, steps);
    EndRun(INITIAL, steps);
    ThroughSubsequence(r.accepted);
    SubsequenceOfPrefix(r.taken, Through(r.accepted));
    SubsequenceTransitive(r.taken, Through(r.accepted), r.accepted);
    SubsequenceOfPrefix(r.entered, r.entered + Encoded(r.working));
    SubsequenceTransitive(r.entered, r.entered + Encoded(r.working), r.taken);
    SubsequenceTransitive(r.entered, r.taken, r.accepted);
  }

  // ---------- outputs are delivered in that order

  lemma {:induction false} OutputsSubsequence(exits: seq<Exit>)
    ensures Subsequence(Outputs(exits), Departed(exits))
  {
    if |exits| > 0 {
      var t, x := exits[..|exits| - 1], exits[|exits| - 1];
      OutputsSubsequence(t);
      SubsequenceSnoc(Outputs(t), Departed(t), x.w);
      assert Outputs(t) + [] == Outputs(t);
    }
  }

  /** The exit that gave the k-th output. */
  lemma {:induction false} OutputExit(exits: seq<Exit>, k: nat) returns (j: nat)
    requires k < |Outputs(exits)|
    ensures j < |exits| && exits[j].ok && |Outputs(exits[..j])| == k && Outputs(exits)[k] == exits[j].w
  {
    var t := exits[..|exits| - 1];
    if k < |Outputs(t)| {
      j := OutputExit(t, k);
      assert exits[..j] == t[..j];
    } else {
      j := |exits| - 1;
    }
  }

  /** No work was dropped before one that got one of the first n outputs. */
  predicate NoneDroppedBefore(exits: seq<Exit>, n: nat) {
    forall i, j | 0 <= i < j < |exits| && exits[j].ok && |Outputs(exits[..j])| < n :: exits[i].ok
  }

  lemma OutputsOfEntered(exits: seq<Exit>, d: seq<Work>)
    requires d <= Outputs(exits) && NoneDroppedBefore(exits, |d|)
    ensures d <= Departed(exits)
  {
    DepartedLength(exits);
    OutputsLength(exits);
    forall k | 0 <= k < |d|
      ensures d[k] == Departed(exits)[k]
    {
      var j := OutputExit(exits, k);
      ghost var e := exits[..j];
      forall i, l | 0 <= i < l < |e|
        ensures e[l].ok ==> e[i].ok
      {
        assert exits[i].ok;
      }
      OutputsInOrder(e);
      DepartedLength(e);
      DepartedAt(exits, j);
      assert forall i | 0 <= i < |e| :: exits[i].ok;
    }
  }

  lemma {:induction false} DroppedShifts(exits: seq<Exit>, d: seq<Work>, i: nat, j: nat)
    requires d <= Outputs(exits) && Different(Departed(exits))
    requires i < j < |exits| && exits[j].ok && |Outputs(exits[..j])| < |d| && !exits[i].ok
    ensures !(d <= Departed(exits))
  {
    var p := |Outputs(exits[..j])|;
    OutputsShort(exits[..j], i);
    OutputPosition(exits, j);
    DepartedAt(exits, j);
    DepartedAt(exits, p);
    assert d[p] == Departed(exits)[j] != Departed(exits)[p];
  }

  lemma {:induction false} OutsPrefix(pushed: seq<Pushed>, n: nat)
    requires n <= |pushed|
    ensures Outs(pushed[..n]) <= Outs(pushed)
  {
    if n < |pushed| {
      OutsPrefix(pushed[..|pushed| - 1], n);
      assert pushed[..|pushed| - 1][..n] == pushed[..n];
    } else {
      assert pushed[..n] == pushed;
    }
  }

  /** The works notified with outputs, in the order of the notifications. */
  function DeliveredOuts(r: State): seq<Work>
    requires |r.delivered| <= |r.pushed|
  {
    Outs(r.pushed[..|r.delivered|])
  }

  /** In every run the outputs are notified in the order the client queued their works, and
      the k-th notified is that of the k-th work that entered exactly when no failed drain
      and no stop dropped a work before one of them. */
  lemma DeliveredOutputs(steps: seq<Step>)
    requires Allowed(INITIAL, steps)
    ensures var r := Result(INITIAL, steps);
      && |r.delivered| <= |r.pushed| && r.delivered <= PushedWorks(r.pushed)
      && Subsequence(DeliveredOuts(r), r.accepted)
      && (DeliveredOuts(r) <= r.entered <==> NoneDroppedBefore(r.exits, |DeliveredOuts(r)|))
  {
    var r := Result(INITIAL, steps);
    FifoRun(INITIAL, steps);
    PushedAt(r.pushed);
    OutsPrefix(r.pushed, |r.delivered|);
    DeliveredFollow(steps, DeliveredOuts(r));
    DeliveredExact(steps, DeliveredOuts(r));
  }

  lemma DeliveredFollow(steps: seq<Step>, d: seq<Work>)
    requires Allowed(INITIAL, steps) && d <= Outs(Result(INITIAL, steps).pushed)
    ensures Subsequence(d, Result(INITIAL, steps).accepted)
  {
    var r := Result(INITIAL, steps);
    FifoRun(INITIAL, steps);
    EnteredInQueueOrder(steps);
    OutputsSubsequence(r.exits);
    SubsequenceOfPrefix(d, Outputs(r.exits));
    SubsequenceTransitive(d, Outputs(r.exits), Departed(r.exits));
    SubsequenceOfPrefix(Departed(r.exits), r.entered);
    SubsequenceTransitive(d, Departed(r.exits), r.entered);
    SubsequenceTransitive(d, r.entered, r.accepted);
  }

  lemma DeliveredExact(steps: seq<Step>, d: seq<Work>)
    requires Allowed(INITIAL, steps) && d <= Outs(Result(INITIAL, steps).pushed)
    ensures d <= Result(INITIAL, steps).entered <==> NoneDroppedBefore(Result(INITIAL, steps).exits, |d|)
  {
    var r := Result(INITIAL, steps);
    FifoRun(INITIAL, steps);
    EnteredDifferent(steps);
    DepartedLength(r.exits);
    OutputsLength(r.exits);
    assert forall k | 0 <= k < |Departed(r.exits)| :: Departed(r.exits)[k] == r.entered[k];
    if NoneDroppedBefore(r.exits, |d|) {
      OutputsOfEntered(r.exits, d);
    } else {
      var i, j :| 0 <= i < j < |r.exits| && r.exits[j].ok && |Outputs(r.exits[..j])| < |d| && !r.exits[i].ok;
      DroppedShifts(r.exits, d, i, j);
    }
  }

  /** So of two works notified with outputs the one notified first was queued first. */
  lemma NotifiedInQueueOrder(steps: seq<Step>, i: nat, j: nat, p: nat, q: nat)
    requires Allowed(INITIAL, steps) && |Result(INITIAL, steps).delivered| <= |Result(INITIAL, steps).pushed|
    requires i < j < |DeliveredOuts(Result(INITIAL, steps))|
    requires p < |Result(INITIAL, steps).accepted| && q < |Result(INITIAL, steps).accepted|
    requires Result(INITIAL, steps).accepted[p] == DeliveredOuts(Result(INITIAL, steps))[i]
    requires Result(INITIAL, steps).accepted[q] == DeliveredOuts(Result(INITIAL, steps))[j]
    ensures p < q
  {
    var r := Result(INITIAL, steps);
    DeliveredOutputs(steps);
    forall x
      ensures Times(r.accepted, x) <= 1
    {
      AcceptedOnce(INITIAL, steps, x);
    }
    OnceDifferent(r.accepted);
    SubsequenceKeepsOrder(DeliveredOuts(r), r.accepted, i, j, p, q);
  }

  // ---------- one answer for each work

  /** The works that left the pending works with an error. */
  function Dropped(exits: seq<Exit>): seq<Work> {
    if |exits| == 0 then [] else
      Dropped(exits[..|exits| - 1]) + if exits[|exits| - 1].ok then [] else [exits[|exits| - 1].w]
  }

  lemma {:induction false} DepartedTimes(exits: seq<Exit>, x: Work)
    ensures Times(Departed(exits), x) == Times(Outputs(exits), x) + Times(Dropped(exits), x)
  {
    if |exits| > 0 {
      var t, e := exits[..|exits| - 1], exits[|exits| - 1];
      DepartedTimes(t, x);
      TimesAppend(Departed(t), [e.w], x);
      TimesAppend(Outputs(t), if e.ok then [e.w] else [], x);
      TimesAppend(Dropped(t), if e.ok then [] else [e.w], x);
    }
  }

  lemma {:induction false} PushedTimes(pushed: seq<Pushed>, x: Work)
    ensures Times(PushedWorks(pushed), x) == Times(Outs(pushed), x) + Times(Ends(pushed), x)
  {
    if |pushed| > 0 {
      var t, e := pushed[..|pushed| - 1], pushed[|pushed| - 1];
      PushedTimes(t, x);
      TimesAppend(PushedWorks(t), [e.w], x);
      TimesAppend(Outs(t), if e.Out? then [e.w] else [], x);
      TimesAppend(Ends(t), if e.Out? then [] else [e.w], x);
    }
  }

  lemma TimesAdditive(x: Work)
    ensures Additive(p => Times(p, x))
  {
    forall a, b
      ensures (p => Times(p, x))(a + b) == Times(a, x) + Times(b, x)
    {
      TimesAppend(a, b, x);
    }
  }

  /** How often a work is queued for either thread, in their hands, pending, answered directly,
      dropped with an error, or delivered. */
  function Held(s: State, w: Work): nat {
    Times(InTasks(s.workQ), w) + Times(InWorking(s.working), w) + Times(InWaits(s.waitQ), w)
      + Times(InHand(s.waiting), w) + Times(s.pending, w)
      + Times(s.direct, w) + Times(Dropped(s.exits), w) + Times(s.delivered, w)
  }

  lemma HeldCounts(s: State, w: Work)
    requires Fifo(s) && Conserved(s, p => Times(p, w))
    ensures Held(s, w) == Times(s.accepted, w)
  {
    DepartedTimes(s.exits, w);
    PushedTimes(s.pushed, w);
    TimesAppend(Departed(s.exits), s.pending, w);
    TimesAppend(s.delivered + InHand(s.waiting), InWaits(s.waitQ), w);
    TimesAppend(s.delivered, InHand(s.waiting), w);
  }

  /** In every run each accepted work is in exactly one of those places. */
  lemma ExactlyOnePlace(steps: seq<Step>, w: Work)
    requires Allowed(INITIAL, steps)
    ensures Held(Result(INITIAL, steps), w) == if w in Result(INITIAL, steps).accepted then 1 else 0
  {
    FifoRun(INITIAL, steps);
    TimesAdditive(w);
    RunConserves(INITIAL, steps, p => Times(p, w));
    HeldCounts(Result(INITIAL, steps), w);
    AcceptedOnce(INITIAL, steps, w);
    TimesMember(Result(INITIAL, steps).accepted, w);
  }
}
