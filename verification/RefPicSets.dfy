/** Short-term reference picture sets: what sorting in place computes, and the derivation of
    a predicted set in section 7.4.8 of H.265. */
module RefPicSets {
  /** One picture of a set: its POC difference and whether the current picture uses it. */
  datatype Pic = Pic(delta: int, used: bool)

  // ---------- sorting

  /** x moved left past every greater element at the end of s. */
  function Insert(s: seq<Pic>, x: Pic): (r: seq<Pic>)
    ensures |r| == |s| + 1
  {
    if s == [] then [x]
    else if x.delta < s[|s| - 1].delta then Insert(s[..|s| - 1], x) + [s[|s| - 1]]
    else s + [x]
  }

  function InsertionSort(s: seq<Pic>): (r: seq<Pic>)
    ensures |r| == |s|
  {
    if s == [] then [] else Insert(InsertionSort(s[..|s| - 1]), s[|s| - 1])
  }

  function Reverse(s: seq<Pic>): (r: seq<Pic>)
    ensures |r| == |s|
  {
    seq(|s|, i requires 0 <= i < |s| => s[|s| - 1 - i])
  }

  /** What sortDeltaPOC leaves in the first |s| slots. */
  function Sorted(s: seq<Pic>, negatives: nat): (r: seq<Pic>)
    requires negatives <= |s|
    ensures |r| == |s|
  {
    var t := InsertionSort(s);
    Reverse(t[..negatives]) + t[negatives..]
  }

  ghost predicate Ascending(s: seq<Pic>) {
    |s| < 2 || (s[|s| - 2].delta <= s[|s| - 1].delta && Ascending(s[..|s| - 1]))
  }

  lemma {:induction false} AscendingPair(s: seq<Pic>, i: nat, j: nat)
    requires Ascending(s) && i <= j < |s|
    ensures s[i].delta <= s[j].delta
  {
    if j < |s| - 1 {
      AscendingPair(s[..|s| - 1], i, j);
    } else if i < j {
      AscendingPair(s[..|s| - 1], i, j - 1);
    }
  }

  /** Where Insert puts its element. */
  lemma {:induction false} InsertAt(s: seq<Pic>, x: Pic, p: nat)
    requires p <= |s| && forall i | p <= i < |s| :: x.delta < s[i].delta
    requires p > 0 ==> s[p - 1].delta <= x.delta
    ensures Insert(s, x) == s[..p] + [x] + s[p..]
  {
    if p < |s| {
      var t := s[..|s| - 1];
      InsertAt(t, x, p);
      assert t[..p] == s[..p] && t[p..] + [s[|s| - 1]] == s[p..];
    }
  }

  lemma {:induction false} InsertAscending(s: seq<Pic>, x: Pic)
    requires Ascending(s)
    ensures Ascending(Insert(s, x))
    ensures Insert(s, x)[|s|] == x || (s != [] && Insert(s, x)[|s|] == s[|s| - 1])
  {
    if s != [] && x.delta < s[|s| - 1].delta {
      var t, y := s[..|s| - 1], s[|s| - 1];
      InsertAscending(t, x);
      assert (Insert(t, x) + [y])[..|s|] == Insert(t, x);
    } else {
      assert (s + [x])[..|s|] == s;
    }
  }

  lemma {:induction false} InsertMultiset(s: seq<Pic>, x: Pic)
    ensures multiset(Insert(s, x)) == multiset(s) + multiset{x}
  {
    if s != [] && x.delta < s[|s| - 1].delta {
      InsertMultiset(s[..|s| - 1], x);
      assert s == s[..|s| - 1] + [s[|s| - 1]];
    }
  }

  lemma {:induction false} InsertionSortSorts(s: seq<Pic>)
    ensures Ascending(InsertionSort(s))
    ensures multiset(InsertionSort(s)) == multiset(s)
  {
    if s != [] {
      var t, x := s[..|s| - 1], s[|s| - 1];
      assert s == t + [x];
      InsertionSortSorts(t);
      InsertAscending(InsertionSort(t), x);
      InsertMultiset(InsertionSort(t), x);
    }
  }

  lemma {:induction false} ReverseMultiset(s: seq<Pic>)
    ensures multiset(Reverse(s)) == multiset(s)
  {
    if s != [] {
      var t, x := s[..|s| - 1], s[|s| - 1];
      ReverseMultiset(t);
      assert s == t + [x] && Reverse(s) == [x] + Reverse(t);
    }
  }

  // ---------- negatives and positives

  function Negatives(s: seq<Pic>): (r: seq<Pic>)
    ensures |r| <= |s|
  {
    if s == [] then [] else
      Negatives(s[..|s| - 1]) + if s[|s| - 1].delta < 0 then [s[|s| - 1]] else []
  }

  function Positives(s: seq<Pic>): seq<Pic> {
    if s == [] then [] else
      Positives(s[..|s| - 1]) + if s[|s| - 1].delta > 0 then [s[|s| - 1]] else []
  }

  lemma {:induction false} InsertNegatives(s: seq<Pic>, x: Pic)
    ensures |Negatives(Insert(s, x))| == |Negatives(s)| + if x.delta < 0 then 1 else 0
  {
    if s != [] && x.delta < s[|s| - 1].delta {
      var t, y := s[..|s| - 1], s[|s| - 1];
      InsertNegatives(t, x);
      assert (Insert(t, x) + [y])[..|s|] == Insert(t, x);
    } else {
      assert (s + [x])[..|s|] == s;
    }
  }

  lemma {:induction false} InsertionSortNegatives(s: seq<Pic>)
    ensures |Negatives(InsertionSort(s))| == |Negatives(s)|
  {
    if s != [] {
      InsertionSortNegatives(s[..|s| - 1]);
      InsertNegatives(InsertionSort(s[..|s| - 1]), s[|s| - 1]);
    }
  }

  /** The negatives of an ascending sequence are its beginning. */
  lemma {:induction false} AscendingSplit(s: seq<Pic>)
    requires Ascending(s)
    ensures Negatives(s) == s[..|Negatives(s)|]
    ensures forall i | 0 <= i < |s| :: s[i].delta < 0 <==> i < |Negatives(s)|
  {
    if s != [] {
      var t := s[..|s| - 1];
      AscendingSplit(t);
      assert s == t + [s[|s| - 1]];
      if s[|s| - 1].delta < 0 {
        forall i | 0 <= i < |t|
          ensures t[i].delta < 0
        {
          AscendingPair(s, i, |s| - 1);
        }
        assert |Negatives(t)| == |t|;
      }
    }
  }

  /** The first n elements, and only they, are negative and they descend; the others ascend. */
  ghost predicate NegativesFirst(r: seq<Pic>, n: nat) {
    && (forall i | 0 <= i < |r| :: r[i].delta < 0 <==> i < n)
    && (forall i, j | 0 <= i < j < n && j < |r| :: r[i].delta >= r[j].delta)
    && (forall i, j | n <= i < j < |r| :: r[i].delta <= r[j].delta)
  }

  lemma SortedAt(s: seq<Pic>, n: nat, i: nat)
    requires n <= |s| && i < |s|
    ensures Sorted(s, n)[i] == InsertionSort(s)[if i < n then n - 1 - i else i]
  {
    FlippedAt(InsertionSort(s), n, i);
  }

  lemma FlippedAt(t: seq<Pic>, n: nat, i: nat)
    requires n <= |t| && i < |t|
    ensures (Reverse(t[..n]) + t[n..])[i] == t[if i < n then n - 1 - i else i]
  {
    var head := t[..n];
    ReverseAt(head, i);
  }

  lemma ReverseAt(s: seq<Pic>, i: nat)
    ensures i < |s| ==> Reverse(s)[i] == s[|s| - 1 - i]
  {
  }

  /** Reversing the negatives an ascending sequence starts with. */
  lemma FlipNegatives(t: seq<Pic>, r: seq<Pic>, n: nat)
    requires |r| == |t| && n <= |t| && Ascending(t)
    requires forall i | 0 <= i < |t| :: t[i].delta < 0 <==> i < n
    requires forall i | 0 <= i < |r| :: r[i] == t[if i < n then n - 1 - i else i]
    ensures NegativesFirst(r, n)
  {
    forall i, j | 0 <= i < j < n
      ensures r[i].delta >= r[j].delta
    {
      AscendingPair(t, n - 1 - j, n - 1 - i);
    }
    forall i, j | n <= i < j < |r|
      ensures r[i].delta <= r[j].delta
    {
      AscendingPair(t, i, j);
    }
  }

  /** sortDeltaPOC keeps the (delta, used) pairs, and when the count of negatives is right
      it leaves them first, descending, and the others after them, ascending. */
  lemma SortedOrder(s: seq<Pic>)
    ensures multiset(Sorted(s, |Negatives(s)|)) == multiset(s)
    ensures NegativesFirst(Sorted(s, |Negatives(s)|), |Negatives(s)|)
  {
    var n := |Negatives(s)|;
    SortedMultiset(s, n);
    InsertionSortSorts(s);
    InsertionSortNegatives(s);
    AscendingSplit(InsertionSort(s));
    forall i | 0 <= i < |s|
      ensures Sorted(s, n)[i] == InsertionSort(s)[if i < n then n - 1 - i else i]
    {
      SortedAt(s, n, i);
    }
    FlipNegatives(InsertionSort(s), Sorted(s, n), n);
  }

  lemma SortedMultiset(s: seq<Pic>, n: nat)
    requires n <= |s|
    ensures multiset(Sorted(s, n)) == multiset(s)
  {
    var t := InsertionSort(s);
    InsertionSortSorts(s);
    ReverseMultiset(t[..n]);
    assert t == t[..n] + t[n..];
  }

  // ---------- prediction from another set

  /** A candidate of a predicted set, and whether the bitstream keeps it. */
  datatype Candidate = Candidate(pic: Pic, kept: bool)

  function Keep(c: seq<Candidate>): seq<Pic> {
    if c == [] then [] else
      Keep(c[..|c| - 1]) + if c[|c| - 1].kept then [c[|c| - 1].pic] else []
  }

  function ReverseCandidates(c: seq<Candidate>): (r: seq<Candidate>)
    ensures |r| == |c|
  {
    seq(|c|, i requires 0 <= i < |c| => c[|c| - 1 - i])
  }

  /** The three passes of equations 7-61 and 7-62 over the candidates c, of which the first
      n come from the reference set's negative pictures, the last is the reference itself
      and the others come from its positive pictures. */
  function PassesS0(c: seq<Candidate>, n: nat): seq<Pic>
    requires n < |c|
  {
    Negatives(Keep(ReverseCandidates(c[n..|c| - 1]) + [c[|c| - 1]] + c[..n]))
  }

  function PassesS1(c: seq<Candidate>, n: nat): seq<Pic>
    requires n < |c|
  {
    Positives(Keep(SecondPassOrder(c, n)))
  }

  /** The candidates, read in the second pass order, ascend strictly. */
  ghost predicate CandidatesOrdered(c: seq<Candidate>, n: nat)
    requires n < |c|
  {
    && (forall i, j | 0 <= i < j < n :: c[i].pic.delta > c[j].pic.delta)
    && (forall i, j | n <= i < j < |c| - 1 :: c[i].pic.delta < c[j].pic.delta)
    && (forall i | 0 <= i < n :: c[i].pic.delta < c[|c| - 1].pic.delta)
    && (forall i | n <= i < |c| - 1 :: c[|c| - 1].pic.delta < c[i].pic.delta)
  }

  ghost predicate NoKeptZero(c: seq<Candidate>) {
    forall i | 0 <= i < |c| :: c[i].kept ==> c[i].pic.delta != 0
  }

  lemma KeepLast(c: seq<Candidate>)
    requires c != []
    ensures Keep(c) == if c[|c| - 1].kept then Keep(c[..|c| - 1]) + [c[|c| - 1].pic] else Keep(c[..|c| - 1])
  {
    assert Keep(c[..|c| - 1]) + [] == Keep(c[..|c| - 1]);
  }

  lemma {:induction false} KeepConcat(a: seq<Candidate>, b: seq<Candidate>)
    ensures Keep(a + b) == Keep(a) + Keep(b)
  {
    if b == [] {
      assert a + b == a;
    } else {
      KeepConcat(a, b[..|b| - 1]);
      assert (a + b)[..|a + b| - 1] == a + b[..|b| - 1];
    }
  }

  lemma {:induction false} KeepReverse(c: seq<Candidate>)
    ensures Keep(ReverseCandidates(c)) == Reverse(Keep(c))
  {
    if c != [] {
      var t, x := c[..|c| - 1], c[|c| - 1];
      KeepReverse(t);
      assert ReverseCandidates(c) == [x] + ReverseCandidates(t);
      KeepConcat([x], ReverseCandidates(t));
      assert [x][..0] == [];
    }
  }

  lemma {:induction false} NegativesReverse(s: seq<Pic>)
    ensures Negatives(Reverse(s)) == Reverse(Negatives(s))
  {
    if s != [] {
      var t, x := s[..|s| - 1], s[|s| - 1];
      NegativesReverse(t);
      assert Reverse(s) == [x] + Reverse(t);
      NegativesConcat([x], Reverse(t));
      assert [x][..0] == [];
    }
  }

  lemma {:induction false} NegativesConcat(a: seq<Pic>, b: seq<Pic>)
    ensures Negatives(a + b) == Negatives(a) + Negatives(b)
  {
    if b == [] {
      assert a + b == a;
    } else {
      NegativesConcat(a, b[..|b| - 1]);
      assert (a + b)[..|a + b| - 1] == a + b[..|b| - 1];
    }
  }

  // ---------- the sorted candidates are the passes' result

  lemma {:induction false} KeepAbove(c: seq<Candidate>, d: int)
    requires forall i | 0 <= i < |c| :: c[i].pic.delta > d
    ensures forall i | 0 <= i < |Keep(c)| :: Keep(c)[i].delta > d
  {
    if c != [] {
      KeepAbove(c[..|c| - 1], d);
    }
  }

  lemma {:induction false} KeepBelow(c: seq<Candidate>, d: int)
    requires forall i | 0 <= i < |c| :: c[i].pic.delta < d
    ensures forall i | 0 <= i < |Keep(c)| :: Keep(c)[i].delta < d
  {
    if c != [] {
      KeepBelow(c[..|c| - 1], d);
    }
  }

  lemma SortAppend(s: seq<Pic>, x: Pic)
    ensures InsertionSort(s + [x]) == Insert(InsertionSort(s), x)
  {
    assert (s + [x])[..|s|] == s;
  }

  /** A descending run gets reversed. */
  lemma {:induction false} SortDescending(c: seq<Candidate>)
    requires forall i, j | 0 <= i < j < |c| :: c[i].pic.delta > c[j].pic.delta
    ensures InsertionSort(Keep(c)) == Reverse(Keep(c))
  {
    if c != [] {
      var t, x := c[..|c| - 1], c[|c| - 1];
      KeepLast(c);
      SortDescending(t);
      if x.kept {
        var k := Keep(t);
        KeepAbove(t, x.pic.delta);
        SortAppend(k, x.pic);
        InsertAt(Reverse(k), x.pic, 0);
        assert Reverse(k + [x.pic]) == [x.pic] + Reverse(k);
      }
    }
  }

  /** An ascending run of elements greater than all before stays where it is. */
  lemma {:induction false} SortAscending(s: seq<Pic>, c: seq<Candidate>, d: int)
    requires forall i, j | 0 <= i < j < |c| :: c[i].pic.delta < c[j].pic.delta
    requires forall i | 0 <= i < |c| :: c[i].pic.delta > d
    requires forall i | 0 <= i < |s| :: InsertionSort(s)[i].delta < d
    ensures InsertionSort(s + Keep(c)) == InsertionSort(s) + Keep(c)
  {
    if c == [] {
      assert s + [] == s;
    } else {
      var t, x := c[..|c| - 1], c[|c| - 1];
      KeepLast(c);
      SortAscending(s, t, d);
      if x.kept {
        var k := Keep(t);
        KeepBelow(t, x.pic.delta);
        SortAppend(s + k, x.pic);
        assert s + k + [x.pic] == s + (k + [x.pic]);
        InsertLast(InsertionSort(s) + k, x.pic);
        assert InsertionSort(s) + k + [x.pic] == InsertionSort(s) + (k + [x.pic]);
      }
    }
  }

  lemma InsertLast(s: seq<Pic>, x: Pic)
    requires s != [] ==> s[|s| - 1].delta <= x.delta
    ensures Insert(s, x) == s + [x]
  {
  }

  /** Sorting the kept candidates puts them in the order of the second pass. */
  lemma SortCandidates(c: seq<Candidate>, n: nat)
    requires n < |c| && CandidatesOrdered(c, n)
    ensures InsertionSort(Keep(c)) == Keep(SecondPassOrder(c, n))
  {
    var down, up, z := c[..n], c[n..|c| - 1], c[|c| - 1];
    var a, b := Keep(down), Keep(up);
    SortDescending(down);
    KeepBelow(down, z.pic.delta);
    SortAscending(a, up, z.pic.delta);
    KeepAbove(up, z.pic.delta);
    KeepWhole(c, n);
    KeepOrder(c, n);
    if z.kept {
      SortMiddle(a, b, z.pic);
    } else {
      assert a + b + [] == a + b && Reverse(a) + [] == Reverse(a);
    }
  }

  lemma SortMiddle(a: seq<Pic>, b: seq<Pic>, x: Pic)
    requires InsertionSort(a + b) == Reverse(a) + b
    requires forall i | 0 <= i < |a| :: a[i].delta < x.delta
    requires forall i | 0 <= i < |b| :: x.delta < b[i].delta
    ensures InsertionSort(a + b + [x]) == Reverse(a) + [x] + b
  {
    SortAppend(a + b, x);
    InsertBetween(Reverse(a), b, x);
  }

  lemma InsertBetween(s: seq<Pic>, b: seq<Pic>, x: Pic)
    requires s != [] ==> s[|s| - 1].delta <= x.delta
    requires forall i | 0 <= i < |b| :: x.delta < b[i].delta
    ensures Insert(s + b, x) == s + [x] + b
  {
    InsertAt(s + b, x, |s|);
    assert (s + b)[..|s|] == s && (s + b)[|s|..] == b;
  }

  function One(z: Candidate): seq<Pic> {
    if z.kept then [z.pic] else []
  }

  lemma KeepOne(z: Candidate)
    ensures Keep([z]) == One(z)
  {
    KeepLast([z]);
    assert [z][..0] == [];
  }

  /** The candidates in the order of the second pass. */
  function SecondPassOrder(c: seq<Candidate>, n: nat): (r: seq<Candidate>)
    requires n < |c|
    ensures |r| == |c|
  {
    ReverseCandidates(c[..n]) + [c[|c| - 1]] + c[n..|c| - 1]
  }

  lemma KeepWhole(c: seq<Candidate>, n: nat)
    requires n < |c|
    ensures Keep(c) == Keep(c[..n]) + Keep(c[n..|c| - 1]) + One(c[|c| - 1])
  {
    var init := c[..|c| - 1];
    assert init[..n] == c[..n] && init[n..] == c[n..|c| - 1];
    KeepConcat(init[..n], init[n..]);
    assert init == init[..n] + init[n..];
  }

  lemma KeepOrder(c: seq<Candidate>, n: nat)
    requires n < |c|
    ensures Keep(SecondPassOrder(c, n)) == Reverse(Keep(c[..n])) + One(c[|c| - 1]) + Keep(c[n..|c| - 1])
  {
    var down, up, z := c[..n], c[n..|c| - 1], [c[|c| - 1]];
    KeepReverse(down);
    KeepOne(c[|c| - 1]);
    KeepConcat(ReverseCandidates(down), z);
    KeepConcat(ReverseCandidates(down) + z, up);
  }

  lemma SignLast(s: seq<Pic>)
    requires s != []
    ensures var t, x := s[..|s| - 1], s[|s| - 1];
      && Negatives(s) == (if x.delta < 0 then Negatives(t) + [x] else Negatives(t))
      && Positives(s) == (if x.delta > 0 then Positives(t) + [x] else Positives(t))
  {
    assert Negatives(s[..|s| - 1]) + [] == Negatives(s[..|s| - 1]);
    assert Positives(s[..|s| - 1]) + [] == Positives(s[..|s| - 1]);
  }

  lemma {:induction false} AllNegative(s: seq<Pic>)
    requires forall i | 0 <= i < |s| :: s[i].delta < 0
    ensures Negatives(s) == s && Positives(s) == []
  {
    if s != [] {
      AllNegative(s[..|s| - 1]);
      SignLast(s);
    }
  }

  ghost predicate HasZero(s: seq<Pic>) {
    exists i | 0 <= i < |s| :: s[i].delta == 0
  }

  lemma HasZeroLast(s: seq<Pic>)
    requires s != []
    ensures HasZero(s) <==> HasZero(s[..|s| - 1]) || s[|s| - 1].delta == 0
  {
    var t := s[..|s| - 1];
    if HasZero(t) {
      var i :| 0 <= i < |t| && t[i].delta == 0;
      assert s[i].delta == 0;
    }
    if HasZero(s) {
      var i :| 0 <= i < |s| && s[i].delta == 0;
      assert i < |t| ==> t[i].delta == 0;
    }
  }

  /** Without a zero an ascending sequence is its negatives and its positives; with one it
      is longer. */
  lemma {:induction false} SignSplit(s: seq<Pic>)
    requires Ascending(s)
    ensures !HasZero(s) ==> s == Negatives(s) + Positives(s)
    ensures HasZero(s) ==> |Negatives(s)| + |Positives(s)| < |s|
  {
    if s != [] {
      var t, x := s[..|s| - 1], s[|s| - 1];
      if x.delta < 0 {
        AscendingBelow(s);
        AllNegative(s);
        assert s + [] == s;
      } else {
        SignSplit(t);
        SignSplitStep(s, t, x);
      }
    }
  }

  lemma SignSplitStep(s: seq<Pic>, t: seq<Pic>, x: Pic)
    requires s != [] && t == s[..|s| - 1] && x == s[|s| - 1] && x.delta >= 0
    requires !HasZero(t) ==> t == Negatives(t) + Positives(t)
    requires HasZero(t) ==> |Negatives(t)| + |Positives(t)| < |t|
    ensures !HasZero(s) ==> s == Negatives(s) + Positives(s)
    ensures HasZero(s) ==> |Negatives(s)| + |Positives(s)| < |s|
  {
    SignLast(s);
    HasZeroLast(s);
    if x.delta > 0 && !HasZero(t) {
      SnocAssociative(Negatives(t), Positives(t), x);
      assert s == t + [x];
    }
  }

  lemma SnocAssociative(n: seq<Pic>, p: seq<Pic>, x: Pic)
    ensures n + p + [x] == n + (p + [x])
  {
  }

  lemma AscendingBelow(s: seq<Pic>)
    requires Ascending(s) && s != [] && s[|s| - 1].delta < 0
    ensures forall i | 0 <= i < |s| :: s[i].delta < 0
  {
    forall i | 0 <= i < |s|
      ensures s[i].delta < 0
    {
      AscendingPair(s, i, |s| - 1);
    }
  }

  lemma {:induction false} KeepZero(c: seq<Candidate>)
    ensures NoKeptZero(c) <==> !HasZero(Keep(c))
  {
    if c != [] {
      var t, x := c[..|c| - 1], c[|c| - 1];
      KeepZero(t);
      KeepLast(c);
      assert c == t + [x];
      assert NoKeptZero(c) <==> NoKeptZero(t) && (x.kept ==> x.pic.delta != 0);
      if x.kept {
        assert (Keep(t) + [x.pic])[|Keep(t)|] == x.pic;
        assert forall i | 0 <= i < |Keep(t)| :: (Keep(t) + [x.pic])[i] == Keep(t)[i];
      }
    }
  }

  /** The set the code derives equals the set of the three ordered passes exactly when no
      kept candidate has difference 0: the code counts such a candidate as positive, the
      passes drop it. */
  lemma PredictionExact(c: seq<Candidate>, n: nat)
    requires n < |c| && CandidatesOrdered(c, n)
    ensures var k := Keep(c); var m := |Negatives(k)|;
      && Sorted(k, m)[..m] == PassesS0(c, n)
      && (Sorted(k, m)[m..] == PassesS1(c, n) <==> NoKeptZero(c))
  {
    var k := Keep(c);
    var m := |Negatives(k)|;
    var order := SecondPassOrder(c, n);
    var u := Keep(order);
    SortCandidates(c, n);
    InsertionSortSorts(k);
    InsertionSortNegatives(k);
    SortedParts(k, u, m);
    FirstPassOrder(c, n);
    KeepReverse(order);
    NegativesReverse(u);
    SignSplit(u);
    KeepZero(order);
    SameKeptZero(c, order, n);
  }

  lemma SortedParts(k: seq<Pic>, u: seq<Pic>, m: nat)
    requires u == InsertionSort(k) && Ascending(u) && m == |Negatives(u)|
    ensures m <= |k| && Sorted(k, m)[..m] == Reverse(Negatives(u)) && Sorted(k, m)[m..] == u[m..]
    ensures u[..m] == Negatives(u)
  {
    AscendingSplit(u);
  }

  lemma FirstPassOrder(c: seq<Candidate>, n: nat)
    requires n < |c|
    ensures ReverseCandidates(SecondPassOrder(c, n)) ==
      ReverseCandidates(c[n..|c| - 1]) + [c[|c| - 1]] + c[..n]
  {
  }

  lemma SecondPassIndex(c: seq<Candidate>, n: nat, i: nat)
    requires n < |c| && i < |c|
    ensures SecondPassOrder(c, n)[i] == c[if i < n then n - 1 - i else if i == n then |c| - 1 else i - 1]
  {
  }

  lemma SameKeptZero(c: seq<Candidate>, order: seq<Candidate>, n: nat)
    requires n < |c| && order == SecondPassOrder(c, n)
    ensures NoKeptZero(c) <==> NoKeptZero(order)
  {
    forall i | 0 <= i < |c|
      ensures order[i] == c[if i < n then n - 1 - i else if i == n then |c| - 1 else i - 1]
    {
      SecondPassIndex(c, n, i);
    }
    forall i | 0 <= i < |c|
      ensures c[i] == order[if i < n then n - 1 - i else if i == |c| - 1 then n else i + 1]
    {
      SecondPassIndex(c, n, if i < n then n - 1 - i else if i == |c| - 1 then n else i + 1);
    }
  }

  lemma {:induction false} KeepStrictlyUp(c: seq<Candidate>)
    requires forall i, j | 0 <= i < j < |c| :: c[i].pic.delta < c[j].pic.delta
    ensures forall i, j | 0 <= i < j < |Keep(c)| :: Keep(c)[i].delta < Keep(c)[j].delta
  {
    if c != [] {
      var t := c[..|c| - 1];
      KeepLast(c);
      KeepStrictlyUp(t);
      KeepBelow(t, c[|c| - 1].pic.delta);
    }
  }

  lemma SecondPassAscends(c: seq<Candidate>, n: nat)
    requires n < |c| && CandidatesOrdered(c, n)
    ensures var o := SecondPassOrder(c, n);
      forall i, j | 0 <= i < j < |o| :: o[i].pic.delta < o[j].pic.delta
  {
    var o := SecondPassOrder(c, n);
    forall i, j | 0 <= i < j < |o|
      ensures o[i].pic.delta < o[j].pic.delta
    {
      SecondPassIndex(c, n, i);
      SecondPassIndex(c, n, j);
    }
  }

  /** Negatives strictly descending, then positives strictly ascending, all between lo and hi. */
  ghost predicate WellOrdered(r: seq<Pic>, negatives: int, lo: int, hi: int) {
    && (forall i | 0 <= i < |r| :: lo < r[i].delta < hi && r[i].delta != 0 && (r[i].delta < 0 <==> i < negatives))
    && (forall i, j | 0 <= i < j < |r| && j < negatives :: r[i].delta > r[j].delta)
    && (forall i, j | 0 <= i < j < |r| && negatives <= i :: r[i].delta < r[j].delta)
  }

  /** A predicted set: strictly descending negatives, then strictly ascending positives, all
      within the candidates' range. */
  lemma PredictionWellFormed(c: seq<Candidate>, n: nat, lo: int, hi: int)
    requires n < |c| && CandidatesOrdered(c, n) && NoKeptZero(c)
    requires forall i | 0 <= i < |c| :: lo < c[i].pic.delta < hi
    ensures WellOrdered(Sorted(Keep(c), |Negatives(Keep(c))|), |Negatives(Keep(c))|, lo, hi)
  {
    var k, o := Keep(c), SecondPassOrder(c, n);
    var m, u := |Negatives(k)|, Keep(o);
    SortCandidates(c, n);
    SortedOrder(k);
    SecondPassAscends(c, n);
    KeepStrictlyUp(o);
    SecondPassRange(c, n, lo, hi);
    SameKeptZero(c, o, n);
    KeepZero(o);
    forall i | 0 <= i < |k|
      ensures Sorted(k, m)[i] == u[if i < m then m - 1 - i else i]
    {
      SortedAt(k, m, i);
    }
    StrictFlip(u, Sorted(k, m), m, lo, hi);
  }

  lemma SecondPassRange(c: seq<Candidate>, n: nat, lo: int, hi: int)
    requires n < |c| && forall i | 0 <= i < |c| :: lo < c[i].pic.delta < hi
    ensures var u := Keep(SecondPassOrder(c, n)); forall i | 0 <= i < |u| :: lo < u[i].delta < hi
  {
    var o := SecondPassOrder(c, n);
    forall i | 0 <= i < |o|
      ensures lo < o[i].pic.delta < hi
    {
      SecondPassIndex(c, n, i);
    }
    KeepAbove(o, lo);
    KeepBelow(o, hi);
  }

  lemma StrictFlip(u: seq<Pic>, r: seq<Pic>, m: nat, lo: int, hi: int)
    requires |r| == |u| && m <= |u| && !HasZero(u)
    requires forall i, j | 0 <= i < j < |u| :: u[i].delta < u[j].delta
    requires forall i | 0 <= i < |u| :: lo < u[i].delta < hi
    requires forall i | 0 <= i < |r| :: r[i] == u[if i < m then m - 1 - i else i]
    requires forall i | 0 <= i < |r| :: r[i].delta < 0 <==> i < m
    ensures WellOrdered(r, m, lo, hi)
  {
  }
}
