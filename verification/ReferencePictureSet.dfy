/** A short-term reference picture set as the HEVC parser keeps it: two parallel arrays that
    are sorted in place. */
module ReferencePictureSets {
  import opened RefPicSets

  const MAX_NUM_REF_PICS: nat := 16

  lemma InsertedAt(t: seq<Pic>, x: Pic, p: nat, i: nat)
    requires p <= |t| && i <= |t|
    ensures (t[..p] + [x] + t[p..])[i] == if i < p then t[i] else if i == p then x else t[i - 1]
  {
  }

  /** Inserting the next element keeps the beginning sorted. */
  lemma SortNext(s: seq<Pic>, j: nat)
    requires j < |s|
    ensures Ascending(InsertionSort(s[..j]))
    ensures InsertionSort(s[..j + 1]) == Insert(InsertionSort(s[..j]), s[j])
  {
    InsertionSortSorts(s[..j]);
    assert s[..j + 1] == s[..j] + [s[j]];
    SortAppend(s[..j], s[j]);
  }

  lemma SortOne(s: seq<Pic>) returns (t: seq<Pic>)
    ensures |t| == (if 1 < |s| then 1 else |s|) && t <= s && t == InsertionSort(s[..|t|])
  {
    t := if s == [] then [] else [s[0]];
    if s != [] {
      assert s[..1] == [s[0]] && s[..1][..0] == [];
    }
  }

  class ReferencePictureSet {
    var interPrediction: bool
    var numNegative: nat
    var numPositive: nat
    var numPics: nat
    const deltaPOC: array<int>
    const used: array<bool>

    ghost predicate Valid()
    {
      deltaPOC.Length == MAX_NUM_REF_PICS && used.Length == MAX_NUM_REF_PICS && deltaPOC as object != used
    }

    function At(i: nat): Pic
      requires Valid() && i < MAX_NUM_REF_PICS
      reads deltaPOC, used
    {
      Pic(deltaPOC[i], used[i])
    }

    /** The arrays hold s in their first slots. */
    ghost predicate Holds(s: seq<Pic>)
      requires Valid()
      reads deltaPOC, used
    {
      |s| <= MAX_NUM_REF_PICS && forall i | 0 <= i < |s| :: At(i) == s[i]
    }

    constructor ()
      ensures Valid() && fresh(deltaPOC) && fresh(used)
      ensures numNegative == numPositive == numPics == 0 && !interPrediction
      ensures forall i | 0 <= i < MAX_NUM_REF_PICS :: At(i) == Pic(0, false)
    {
      deltaPOC := new int[MAX_NUM_REF_PICS](i => 0);
      used := new bool[MAX_NUM_REF_PICS](i => false);
      interPrediction, numNegative, numPositive, numPics := false, 0, 0, 0;
    }

    method SetSlot(i: nat, p: Pic)
      requires Valid() && i < MAX_NUM_REF_PICS
      modifies deltaPOC, used
      ensures At(i) == p
      ensures forall k | 0 <= k < MAX_NUM_REF_PICS && k != i :: At(k) == old(At(k))
    {
      deltaPOC[i] := p.delta;
      used[i] := p.used;
    }

    /** Stores p in slot i and q in slot j. */
    method SetSlots(i: nat, p: Pic, j: nat, q: Pic)
      requires Valid() && i < MAX_NUM_REF_PICS && j < MAX_NUM_REF_PICS && i != j
      modifies deltaPOC, used
      ensures forall k | 0 <= k < MAX_NUM_REF_PICS :: At(k) == if k == i then p else if k == j then q else old(At(k))
    {
      SetSlot(i, p);
      SetSlot(j, q);
    }

    /** t with x put in at p fills the slots up to |t|. */
    ghost predicate HoldsWith(t: seq<Pic>, x: Pic, p: nat)
      requires Valid() && p <= |t| < MAX_NUM_REF_PICS
      reads deltaPOC, used
    {
      forall i {:trigger At(i)} | 0 <= i <= |t| :: At(i) == if i < p then t[i] else if i == p then x else t[i - 1]
    }

    /** The inner loop: the element of slot j moves left past the greater ones. */
    method MoveLeft(j: nat, ghost t: seq<Pic>)
      requires Valid() && |t| == j < MAX_NUM_REF_PICS && Ascending(t) && Holds(t)
      modifies deltaPOC, used
      ensures Holds(Insert(t, old(At(j))))
      ensures forall i | j < i < MAX_NUM_REF_PICS :: At(i) == old(At(i))
    {
      var x := At(j);
      var k := j - 1;
      ghost var p := j;
      while k >= 0
        invariant -1 <= k < p <= j && HoldsWith(t, x, p)
        invariant forall i | j < i < MAX_NUM_REF_PICS :: At(i) == old(At(i))
        invariant forall i | p <= i < j :: x.delta < t[i].delta
        invariant p > k + 1 ==> t[p - 1].delta <= x.delta
      {
        var temp := At(k);
        if x.delta < temp.delta {
          if p > k + 1 {
            AscendingPair(t, k, p - 1);
          }
          SetSlots(k + 1, temp, k, x);
          p := k;
        }
        k := k - 1;
      }
      InsertAt(t, x, p);
      forall i | 0 <= i <= j
        ensures At(i) == Insert(t, x)[i]
      {
        InsertedAt(t, x, p, i);
      }
    }

    /** The first j of n slots are exchanged with the last j of them. */
    ghost predicate HoldsFlipped(t: seq<Pic>, n: nat, j: nat)
      requires Valid() && j <= n <= |t| <= MAX_NUM_REF_PICS
      reads deltaPOC, used
    {
      forall i {:trigger At(i)} | 0 <= i < |t| :: At(i) == t[if i < j || n - j <= i < n then n - 1 - i else i]
    }

    /** Two slots of the prefix are exchanged. */
    method FlipPair(j: nat, k: nat, ghost n: nat, ghost t: seq<Pic>)
      requires Valid() && j < k == n - 1 - j && n <= |t| <= MAX_NUM_REF_PICS && HoldsFlipped(t, n, j)
      modifies deltaPOC, used
      ensures HoldsFlipped(t, n, j + 1)
      ensures forall i | |t| <= i < MAX_NUM_REF_PICS :: At(i) == old(At(i))
    {
      SetSlots(j, At(k), k, At(j));
    }

    /** Reverses the first n slots. */
    method ReversePrefix(n: nat, ghost t: seq<Pic>)
      requires Valid() && n <= |t| && Holds(t)
      modifies deltaPOC, used
      ensures Holds(Reverse(t[..n]) + t[n..])
      ensures forall i | |t| <= i < MAX_NUM_REF_PICS :: At(i) == old(At(i))
    {
      var j, k := 0, n - 1;
      while j < n / 2
        invariant 0 <= j <= n / 2 && k == n - 1 - j && HoldsFlipped(t, n, j)
        invariant forall i | |t| <= i < MAX_NUM_REF_PICS :: At(i) == old(At(i))
      {
        FlipPair(j, k, n, t);
        j := j + 1;
        k := k - 1;
      }
      FlippedHolds(n, t);
    }

    lemma FlippedHolds(n: nat, t: seq<Pic>)
      requires Valid() && n <= |t| <= MAX_NUM_REF_PICS && HoldsFlipped(t, n, n / 2)
      ensures Holds(Reverse(t[..n]) + t[n..])
    {
      forall i | 0 <= i < |t|
        ensures At(i) == (Reverse(t[..n]) + t[n..])[i]
      {
        FlippedAt(t, n, i);
      }
    }

    /** Sorts the first numPics slots and reverses the first numNegative ones. */
    method SortDeltaPOC(ghost s: seq<Pic>)
      requires Valid() && |s| == numPics && Holds(s) && numNegative <= numPics
      modifies deltaPOC, used
      ensures Holds(Sorted(s, numNegative))
      ensures forall i | numPics <= i < MAX_NUM_REF_PICS :: At(i) == old(At(i))
    {
      var j := 1;
      ghost var t := SortOne(s);
      while j < numPics
        invariant 1 <= j && |t| == (if j < |s| then j else |s|) && t == InsertionSort(s[..|t|]) && Holds(t)
        invariant forall i | j <= i < |s| :: At(i) == s[i]
        invariant forall i | |s| <= i < MAX_NUM_REF_PICS :: At(i) == old(At(i))
      {
        SortNext(s, j);
        MoveLeft(j, t);
        t := Insert(t, s[j]);
        j := j + 1;
      }
      assert s[..|s|] == s;
      ReversePrefix(numNegative, t);
    }
  }
}
