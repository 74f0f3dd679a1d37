/** The decoder's map of pending works: what its searches, insertions and removals do. */
module PendingWorksMap {
  import opened DecoderPipeline

  /** The map's order: no two works have the same index. */
  ghost predicate Ordered(p: seq<Work>) {
    forall i, j | 0 <= i < j < |p| :: p[i].index < p[j].index
  }

  lemma {:induction false} PositionIs(p: seq<Work>, index: nat, k: nat)
    requires k <= |p| && (forall i | 0 <= i < k :: p[i].index < index) && (k < |p| ==> p[k].index >= index)
    ensures Position(p, index) == k
  {
    if k > 0 {
      PositionIs(p[1..], index, k - 1);
    }
  }

  lemma {:induction false} PositionSplits(p: seq<Work>, index: nat)
    ensures forall i | 0 <= i < Position(p, index) :: p[i].index < index
    ensures Position(p, index) < |p| ==> p[Position(p, index)].index >= index
  {
    if |p| > 0 && p[0].index < index {
      PositionSplits(p[1..], index);
      forall i | 0 <= i < Position(p, index)
        ensures p[i].index < index
      {
        assert i > 0 ==> p[i] == p[1..][i - 1];
      }
    }
  }

  /** Only the work of an index is removed with it, and none of that index stays. */
  lemma WithoutIndex(p: seq<Work>, index: nat)
    requires Ordered(p)
    ensures Ordered(Without(p, index))
    ensures forall w :: w in Without(p, index) <==> w in p && w.index != index
    ensures forall w :: w in p && w.index == index <==> Replaced(p, index) == Some(w)
  {
    var k := Position(p, index);
    OnlyIndexed(p, index, k);
    if k < |p| && p[k].index == index {
      WithoutOne(p, k);
    }
  }

  /** Only the position found can have the index. */
  lemma OnlyIndexed(p: seq<Work>, index: nat, k: nat)
    requires Ordered(p) && k == Position(p, index)
    ensures forall w :: w in p && w.index == index <==> k < |p| && p[k].index == index && w == p[k]
  {
    PositionSplits(p, index);
    forall w | w in p && w.index == index
      ensures k < |p| && p[k].index == index && w == p[k]
    {
      var i :| 0 <= i < |p| && p[i] == w;
      assert i == k;
    }
  }

  lemma WithoutOne(p: seq<Work>, k: nat)
    requires Ordered(p) && k < |p|
    ensures Ordered(p[..k] + p[k + 1..])
    ensures forall w :: w in p[..k] + p[k + 1..] <==> w in p && w.index != p[k].index
  {
    assert p == p[..k] + [p[k]] + p[k + 1..];
  }

  lemma OrderedInsert(q: seq<Work>, k: nat, w: Work)
    requires Ordered(q) && k <= |q|
    requires forall i | 0 <= i < k :: q[i].index < w.index
    requires forall i | k <= i < |q| :: q[i].index > w.index
    ensures Ordered(q[..k] + [w] + q[k..])
  {
    var r := q[..k] + [w] + q[k..];
    forall i | 0 <= i < |r|
      ensures r[i] == if i < k then q[i] else if i == k then w else q[i - 1]
    {
    }
  }

  lemma InsertMembers(q: seq<Work>, k: nat, w: Work)
    requires k <= |q|
    ensures forall x :: x in q[..k] + [w] + q[k..] <==> x == w || x in q
  {
    assert q == q[..k] + q[k..];
  }

  /** Pushing keeps the order: the new work is there, the one it replaces is not. */
  lemma InsertedOrdered(p: seq<Work>, w: Work)
    requires Ordered(p)
    ensures Ordered(Inserted(p, w))
    ensures forall x :: x in Inserted(p, w) <==> x == w || (x in p && x.index != w.index)
  {
    var q := Without(p, w.index);
    var k := Position(q, w.index);
    WithoutIndex(p, w.index);
    PositionSplits(q, w.index);
    AboveInserted(q, k, w.index);
    OrderedInsert(q, k, w);
    InsertMembers(q, k, w);
  }

  lemma AboveInserted(q: seq<Work>, k: nat, index: nat)
    requires Ordered(q) && k <= |q| && (k < |q| ==> q[k].index >= index) && forall w | w in q :: w.index != index
    ensures forall i | k <= i < |q| :: q[i].index > index
  {
    forall i | k <= i < |q|
      ensures q[i].index > index
    {
      assert q[k] in q;
    }
  }

  lemma {:induction false} MatchIs(p: seq<Work>, ready: nat, alike: set<nat>, k: nat)
    requires k <= |p| && forall i | 0 <= i < k :: p[i].timestamp != ready && p[i].timestamp !in alike
    requires k < |p| ==> p[k].timestamp == ready || p[k].timestamp in alike
    ensures FirstMatch(p, ready, alike) == k
  {
    if k > 0 {
      MatchIs(p[1..], ready, alike, k - 1);
    }
  }

  lemma OnlySnoc(p: seq<Work>, x: Work, index: nat)
    ensures Only(p + [x], index) == Only(p, index) + if x.index == index then [x] else []
    ensures Others(p + [x], index) == Others(p, index) + if x.index != index then [x] else []
  {
    assert (p + [x])[..|p|] == p;
  }

  lemma {:induction false} OnlyNone(p: seq<Work>, index: nat)
    requires forall i | 0 <= i < |p| :: p[i].index != index
    ensures |Only(p, index)| == 0
  {
    if |p| > 0 {
      OnlyNone(p[..|p| - 1], index);
    }
  }

  lemma {:induction false} OthersMembers(p: seq<Work>, index: nat)
    ensures forall w :: w in Others(p, index) <==> w in p && w.index != index
    ensures forall w :: w in Only(p, index) <==> w in p && w.index == index
  {
    if |p| > 0 {
      OthersMembers(p[..|p| - 1], index);
      assert p == p[..|p| - 1] + [p[|p| - 1]];
    }
  }

  /** One work at most stays. */
  lemma {:induction false} OnlyOne(p: seq<Work>, index: nat)
    requires Ordered(p)
    ensures |Only(p, index)| <= 1
  {
    if |p| > 0 {
      var t := p[..|p| - 1];
      if p[|p| - 1].index == index {
        OnlyNone(t, index);
      } else {
        OnlyOne(t, index);
      }
    }
  }

  // ---------- the order in runs

  lemma OrderedWithout(p: seq<Work>, k: nat)
    requires Ordered(p) && k < |p|
    ensures Ordered(p[..k] + p[k + 1..])
  {
  }

  lemma WorkingOrdered(s: State, w: WorkingStep)
    requires WorkingEnabled(s, w) && Ordered(s.pending)
    ensures Ordered(WorkingApply(s, w).pending)
  {
    match w
    case Take(_) =>
      if s.workQ[0].PendTask? {
        InsertedOrdered(s.pending, s.workQ[0].w);
      }
    case Pend => InsertedOrdered(s.pending, s.working.w);
    case ClearOthers => OnlyOne(s.pending, s.working.index);
    case Report(_) => WithoutIndex(s.pending, s.working.index);
    case _ =>
  }

  lemma OrderedStep(s: State, step: Step)
    requires Enabled(s, step) && Ordered(s.pending)
    ensures Ordered(Apply(s, step).pending)
  {
    match step
    case C(_) =>
    case W(w) => WorkingOrdered(s, w);
    case A(a) =>
      if a.Match? && FirstMatch(s.pending, a.ready, a.alike) < |s.pending| {
        OrderedWithout(s.pending, FirstMatch(s.pending, a.ready, a.alike));
      }
  }

  /** In every run the pending works stay in the order of their indices, one work an index. */
  lemma {:induction false} OrderedRun(s: State, steps: seq<Step>)
    requires Allowed(s, steps) && Ordered(s.pending)
    ensures Ordered(Result(s, steps).pending)
    decreases |steps|
  {
    if steps != [] {
      OrderedStep(s, steps[0]);
      OrderedRun(Apply(s, steps[0]), steps[1..]);
    }
  }

  // ---------- timestamps that several works have

  predicate IsDuplicated(duplicates: seq<(nat, nat)>, timestamp: nat) {
    exists i | 0 <= i < |duplicates| :: duplicates[i].0 == timestamp
  }

  /** The record of duplicated timestamps after a push; a timestamp of 0 is never taken for a
      duplicate. The pending work found is recorded only with a new timestamp. */
  function Noted(p: seq<Work>, duplicates: seq<(nat, nat)>, w: Work): seq<(nat, nat)> {
    var k := FirstMatch(p, w.timestamp, {});
    if k < |p| && w.timestamp != 0 then
      (if IsDuplicated(duplicates, w.timestamp) then duplicates else duplicates + [(w.timestamp, p[k].index)])
        + [(w.timestamp, w.index)]
    else duplicates
  }

  /** A timestamp that two works share is on record. */
  ghost predicate SharedNoted(p: seq<Work>, duplicates: seq<(nat, nat)>) {
    forall a, b | a in p && b in p && a != b && a.timestamp == b.timestamp != 0 :: IsDuplicated(duplicates, a.timestamp)
  }

  lemma NotedGrows(p: seq<Work>, duplicates: seq<(nat, nat)>, w: Work, timestamp: nat)
    requires IsDuplicated(duplicates, timestamp)
    ensures IsDuplicated(Noted(p, duplicates, w), timestamp)
  {
    var i :| 0 <= i < |duplicates| && duplicates[i].0 == timestamp;
    assert Noted(p, duplicates, w)[i] == duplicates[i];
  }

  lemma {:induction false} NoMatchBefore(p: seq<Work>, ready: nat)
    ensures FirstMatch(p, ready, {}) == |p| ==> forall a | a in p :: a.timestamp != ready
  {
    if |p| > 0 {
      NoMatchBefore(p[1..], ready);
      assert p == [p[0]] + p[1..];
    }
  }

  lemma IncomingNoted(p: seq<Work>, duplicates: seq<(nat, nat)>, w: Work, a: Work)
    requires a in p && a.timestamp == w.timestamp != 0
    ensures IsDuplicated(Noted(p, duplicates, w), w.timestamp)
  {
    NoMatchBefore(p, w.timestamp);
    var n := Noted(p, duplicates, w);
    assert n[|n| - 1] == (w.timestamp, w.index);
  }

  lemma {:induction false} MatchExact(p: seq<Work>, ready: nat)
    ensures FirstMatch(p, ready, {}) < |p| <==> exists a :: a in p && a.timestamp == ready
  {
    if |p| > 0 {
      MatchExact(p[1..], ready);
      assert p == [p[0]] + p[1..];
      if p[0].timestamp == ready {
        assert p[0] in p;
      }
    }
  }

  /** A push puts its own timestamp on record, exactly when it is not 0 and a pending work has
      it too, and no other. */
  lemma NotedExact(p: seq<Work>, duplicates: seq<(nat, nat)>, w: Work, timestamp: nat)
    ensures IsDuplicated(Noted(p, duplicates, w), timestamp)
      <==> (IsDuplicated(duplicates, timestamp)
            || (timestamp == w.timestamp != 0 && exists a :: a in p && a.timestamp == timestamp))
  {
    MatchExact(p, w.timestamp);
    var n, k := Noted(p, duplicates, w), FirstMatch(p, w.timestamp, {});
    if IsDuplicated(duplicates, timestamp) {
      NotedGrows(p, duplicates, w, timestamp);
    } else if k < |p| && w.timestamp != 0 {
      MatchAt(p, w.timestamp);
      assert n[|n| - 1] == (w.timestamp, w.index);
      assert forall i | 0 <= i < |n| :: n[i] in duplicates || n[i].0 == w.timestamp;
    }
  }

  lemma {:induction false} MatchAt(p: seq<Work>, ready: nat)
    requires FirstMatch(p, ready, {}) < |p|
    ensures p[FirstMatch(p, ready, {})].timestamp == ready
  {
    if p[0].timestamp != ready {
      MatchAt(p[1..], ready);
    }
  }

  /** A push keeps every shared timestamp on record. */
  lemma PushNotes(p: seq<Work>, duplicates: seq<(nat, nat)>, w: Work)
    requires Ordered(p) && SharedNoted(p, duplicates)
    ensures SharedNoted(Inserted(p, w), Noted(p, duplicates, w))
  {
    InsertedOrdered(p, w);
    var q := Inserted(p, w);
    forall a, b | a in q && b in q && a != b && a.timestamp == b.timestamp != 0
      ensures IsDuplicated(Noted(p, duplicates, w), a.timestamp)
    {
      if a in p && b in p {
        NotedGrows(p, duplicates, w, a.timestamp);
      } else {
        IncomingNoted(p, duplicates, w, if a in p then a else b);
      }
    }
  }

  class PendingWorks {
    var works: seq<Work>
    var duplicates: seq<(nat, nat)>

    ghost predicate Valid()
      reads this
    {
      Ordered(works) && SharedNoted(works, duplicates)
    }

    constructor ()
      ensures Valid() && works == [] && duplicates == []
    {
      works, duplicates := [], [];
    }

    /** Whether a timestamp is on record. */
    method IsDuplicatedTimeStamp(timestamp: nat) returns (found: bool)
      ensures found == IsDuplicated(duplicates, timestamp)
    {
      var i := 0;
      while i < |duplicates| && duplicates[i].0 != timestamp
        invariant 0 <= i <= |duplicates| && forall j | 0 <= j < i :: duplicates[j].0 != timestamp
      {
        i := i + 1;
      }
      found := i < |duplicates|;
    }

    /** The first pending work of the incoming one's timestamp, and the record of both. */
    method NoteDuplicate(w: Work)
      modifies this`duplicates
      ensures duplicates == Noted(works, old(duplicates), w)
    {
      var k := 0;
      while k < |works| && !(works[k].timestamp == w.timestamp && w.timestamp != 0)
        invariant 0 <= k <= |works|
        invariant w.timestamp != 0 ==> forall i | 0 <= i < k :: works[i].timestamp != w.timestamp
      {
        k := k + 1;
      }
      if w.timestamp != 0 {
        MatchIs(works, w.timestamp, {}, k);
      }
      if k < |works| {
        var known := IsDuplicatedTimeStamp(works[k].timestamp);
        if !known {
          duplicates := duplicates + [(works[k].timestamp, works[k].index)];
        }
        duplicates := duplicates + [(w.timestamp, w.index)];
      }
    }

    /** The first work whose index is not below the given one. */
    method LowerBound(index: nat) returns (k: nat)
      ensures k == Position(works, index)
    {
      k := 0;
      while k < |works| && works[k].index < index
        invariant 0 <= k <= |works| && forall i | 0 <= i < k :: works[i].index < index
      {
        k := k + 1;
      }
      PositionIs(works, index, k);
    }

    /** Finds the work of an index and erases it. */
    method Take(index: nat) returns (work: Option<Work>)
      requires Valid()
      modifies this`works
      ensures Valid() && works == Without(old(works), index) && work == Replaced(old(works), index)
    {
      WithoutIndex(works, index);
      var k := LowerBound(index);
      if k < |works| && works[k].index == index {
        work := Some(works[k]);
        works := works[..k] + works[k + 1..];
      } else {
        work := None;
      }
    }

    /** PushPending: a timestamp already pending is recorded; a work of the same index is
        taken out and reported. */
    method PushPending(w: Work) returns (replaced: Option<Work>)
      requires Valid()
      modifies this
      ensures Valid() && works == Inserted(old(works), w) && replaced == Replaced(old(works), w.index)
      ensures duplicates == Noted(old(works), old(duplicates), w)
    {
      InsertedOrdered(works, w);
      PushNotes(works, duplicates, w);
      replaced := Insert(w);
    }

    method Insert(w: Work) returns (replaced: Option<Work>)
      requires Valid()
      modifies this
      ensures works == Inserted(old(works), w) && replaced == Replaced(old(works), w.index)
      ensures duplicates == Noted(old(works), old(duplicates), w)
    {
      NoteDuplicate(w);
      assert SharedNoted(works, duplicates) by {
        forall a, b | a in works && b in works && a != b && a.timestamp == b.timestamp != 0
          ensures IsDuplicated(duplicates, a.timestamp)
        {
          NotedGrows(works, old(duplicates), w, a.timestamp);
        }
      }
      replaced := Take(w.index);
      var k := LowerBound(w.index);
      works := works[..k] + [w] + works[k..];
    }

    /** WaitWork's search by timestamp. */
    method TakeMatch(ready: nat, alike: set<nat>) returns (work: Option<Work>)
      requires Valid()
      modifies this`works
      ensures Valid() && var k := FirstMatch(old(works), ready, alike);
        if k < |old(works)| then work == Some(old(works)[k]) && works == old(works)[..k] + old(works)[k + 1..]
        else work == None && works == old(works)
      ensures match work
              case Some(w) => w in old(works) && (w.timestamp == ready || w.timestamp in alike)
              case None => forall w | w in old(works) :: w.timestamp != ready && w.timestamp !in alike
    {
      var k := 0;
      while k < |works| && works[k].timestamp != ready && works[k].timestamp !in alike
        invariant 0 <= k <= |works|
        invariant forall i | 0 <= i < k :: works[i].timestamp != ready && works[i].timestamp !in alike
      {
        k := k + 1;
      }
      MatchIs(works, ready, alike, k);
      if k < |works| {
        work := Some(works[k]);
        works := works[..k] + works[k + 1..];
      } else {
        work := None;
      }
    }

    /** The loop after a resolution change: all but the work of the given index go. */
    method RemoveOthers(index: nat) returns (removed: seq<Work>)
      requires Valid()
      modifies this`works
      ensures Valid() && works == Only(old(works), index) && removed == Others(old(works), index)
      ensures forall w :: w in works <==> w in old(works) && w.index == index
      ensures forall w :: w in removed <==> w in old(works) && w.index != index
    {
      OnlyOne(works, index);
      OthersMembers(works, index);
      removed := EraseOthers(index);
    }

    method EraseOthers(index: nat) returns (removed: seq<Work>)
      modifies this`works
      ensures works == Only(old(works), index) && removed == Others(old(works), index)
    {
      ghost var all, done := works, 0;
      removed := [];
      var k := 0;
      while k < |works|
        invariant 0 <= k <= |works| && 0 <= done <= |all| && works == Only(all[..done], index) + all[done..]
        invariant k == |Only(all[..done], index)| && removed == Others(all[..done], index)
        decreases |works| - k
      {
        NextOther(all, done, index, works, k);
        if works[k].index != index {
          removed := removed + [works[k]];
          works := works[..k] + works[k + 1..];
        } else {
          k := k + 1;
        }
        done := done + 1;
      }
      assert all[done..] == [] && all[..done] == all;
    }
  }

  /** One round of the loop: what was kept, then the rest. */
  lemma NextOther(all: seq<Work>, done: nat, index: nat, works: seq<Work>, k: nat)
    requires done <= |all| && works == Only(all[..done], index) + all[done..] &&
      k == |Only(all[..done], index)| < |works|
    ensures done < |all| && works[k] == all[done]
    ensures Others(all[..done + 1], index)
      == Others(all[..done], index) + if works[k].index != index then [works[k]] else []
    ensures Only(all[..done + 1], index) + all[done + 1..]
      == if works[k].index != index then works[..k] + works[k + 1..] else works
    ensures |Only(all[..done + 1], index)| == if works[k].index != index then k else k + 1
  {
    assert all[..done + 1] == all[..done] + [all[done]];
    OnlySnoc(all[..done], all[done], index);
    assert works[..k] == Only(all[..done], index) && works[k + 1..] == all[done + 1..];
  }
}
