/** What a run's steps say about a flag: it was set, and not reset since. */
module StepHistory {

  ghost predicate Never<T>(steps: seq<T>, off: T -> bool) {
    forall i | 0 <= i < |steps| :: !off(steps[i])
  }

  /** Some step sets the flag and no later one resets it. */
  ghost predicate SetSince<T>(steps: seq<T>, on: T -> bool, off: T -> bool) {
    exists i :: 0 <= i < |steps| && on(steps[i]) && Never(steps[i + 1..], off)
  }

  /** Of the steps behind the first one: the same places, one further. */
  lemma SetLater<T>(steps: seq<T>, on: T -> bool, off: T -> bool, i: nat)
    requires 0 < i < |steps| && on(steps[i]) && Never(steps[i + 1..], off)
    ensures SetSince(steps[1..], on, off)
  {
    var rest := steps[1..];
    assert on(rest[i - 1]) && rest[i - 1 + 1..] == steps[i + 1..];
  }

  lemma SetEarlier<T>(steps: seq<T>, on: T -> bool, off: T -> bool)
    requires |steps| > 0 && SetSince(steps[1..], on, off)
    ensures SetSince(steps, on, off)
  {
    var rest := steps[1..];
    var i :| 0 <= i < |rest| && on(rest[i]) && Never(rest[i + 1..], off);
    assert on(steps[i + 1]) && steps[i + 1 + 1..] == rest[i + 1..];
  }

  lemma NeverFirst<T>(steps: seq<T>, off: T -> bool)
    requires |steps| > 0
    ensures Never(steps, off) <==> !off(steps[0]) && Never(steps[1..], off)
  {
    assert steps == [steps[0]] + steps[1..];
  }

  lemma SetFirst<T>(steps: seq<T>, on: T -> bool, off: T -> bool)
    requires |steps| > 0
    ensures SetSince(steps, on, off)
      <==> SetSince(steps[1..], on, off) || (on(steps[0]) && Never(steps[1..], off))
    ensures Never(steps, off) <==> !off(steps[0]) && Never(steps[1..], off)
  {
    NeverFirst(steps, off);
    if SetSince(steps, on, off) {
      var i :| 0 <= i < |steps| && on(steps[i]) && Never(steps[i + 1..], off);
      if i > 0 {
        SetLater(steps, on, off, i);
      }
    }
    if SetSince(steps[1..], on, off) {
      SetEarlier(steps, on, off);
    }
    if on(steps[0]) && Never(steps[1..], off) {
      assert steps[0 + 1..] == steps[1..];
    }
  }
}
