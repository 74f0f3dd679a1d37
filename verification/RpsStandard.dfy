/** The lists that section 7.4.8 of H.265 derives, stated over the coded values and the lists of
    the reference set, and what the parser's derivation has to do with them. */
module RpsStandard {
  import opened BitReader
  import opened RefPicSets
  import opened RpsSyntax

  // ---------- sets coded explicitly

  /** The sum of the coded differences, each one more than coded. */
  function Distance(coded: seq<Coded>): nat {
    if |coded| == 0 then 0 else Distance(coded[..|coded| - 1]) + coded[|coded| - 1].deltaMinus1 + 1
  }

  /** Without prediction picture i is the sum of the first i + 1 differences away. */
  function Summed(coded: seq<Coded>, sign: int): (pics: seq<Pic>)
    ensures |pics| == |coded|
  {
    seq(|coded|, i requires 0 <= i < |coded| => Pic(sign * Distance(coded[..i + 1]), coded[i].used))
  }

  /** So far before or after the current picture. */
  function Away(distance: int, down: bool): int {
    if down then -distance else distance
  }

  lemma Int32Step(x: int, y: int)
    ensures Int32(Int32(x) + y) == Int32(x + y)
  {
  }

  /** Whatever is coded, picture i is the sum away, in 32 bits, and has the coded flag. */
  lemma {:induction false} ChainSums(coded: seq<Coded>, down: bool, i: nat)
    requires i < |coded|
    ensures Chain(coded, down)[i] == Pic(Int32(Away(Distance(coded[..i + 1]), down)), coded[i].used)
    decreases |coded|
  {
    var t, x := coded[..|coded| - 1], coded[|coded| - 1];
    if i < |t| {
      ChainSums(t, down, i);
      assert t[..i + 1] == coded[..i + 1];
    } else {
      assert coded[..i + 1] == coded;
      if |t| > 0 {
        ChainSums(t, down, |t| - 1);
        assert t[..|t|] == t;
        Int32Step(Away(Distance(t), down), Away(x.deltaMinus1 + 1, down));
      }
    }
  }

  lemma {:induction false} DistanceBound(coded: seq<Coded>)
    requires forall i | 0 <= i < |coded| :: coded[i].deltaMinus1 <= MAX_DELTA_MINUS1
    ensures Distance(coded) <= 0x8000 * |coded|
  {
    if |coded| > 0 {
      DistanceBound(coded[..|coded| - 1]);
    }
  }

  lemma ChainIsSummed(coded: seq<Coded>, down: bool)
    requires |coded| < 16 && forall i | 0 <= i < |coded| :: coded[i].deltaMinus1 <= MAX_DELTA_MINUS1
    ensures Chain(coded, down) == Summed(coded, if down then -1 else 1)
  {
    forall i | 0 <= i < |coded|
      ensures Chain(coded, down)[i] == Summed(coded, if down then -1 else 1)[i]
    {
      ChainSums(coded, down, i);
      DistanceBound(coded[..i + 1]);
      Int32Identity(Away(Distance(coded[..i + 1]), down));
    }
  }

  /** An explicitly coded set in the standard's range is the standard's, list by list. */
  lemma ExplicitIsStandard(s: Syntax, refs: seq<Rps>)
    requires s.Explicit? && Conforming(s, refs)
    ensures var r := Derive(s, refs);
      && r.numNegative == |s.negatives| && r.numPositive == |s.positives|
      && SameLists(r, Summed(s.negatives, -1), Summed(s.positives, 1))
  {
    ChainIsSummed(s.negatives, true);
    ChainIsSummed(s.positives, false);
  }

  // ---------- sets predicted

  /** A picture of the list being built: kept by use_delta_flag, with used_by_curr_pic_flag. */
  function Picked(dPoc: int, flags: RefIdc, negative: bool): seq<Pic> {
    if (if negative then dPoc < 0 else dPoc > 0) && flags != Dropped then [Pic(dPoc, flags == Used)] else []
  }

  /** A pass over a list of the reference set from its last picture to its first; the flags of
      its picture j are number first + j. */
  function PassDown(list: seq<Pic>, deltaRps: int, flags: seq<RefIdc>, first: nat, negative: bool): seq<Pic>
    requires first + |list| <= |flags|
  {
    if |list| == 0 then [] else
      var j := |list| - 1;
      Picked(list[j].delta + deltaRps, flags[first + j], negative)
        + PassDown(list[..j], deltaRps, flags, first, negative)
  }

  /** A pass from the first picture to the last. */
  function PassUp(list: seq<Pic>, deltaRps: int, flags: seq<RefIdc>, first: nat, negative: bool): seq<Pic>
    requires first + |list| <= |flags|
  {
    if |list| == 0 then [] else
      var j := |list| - 1;
      PassUp(list[..j], deltaRps, flags, first, negative) + Picked(list[j].delta + deltaRps, flags[first + j], negative)
  }

  /** Equation 7-61: the reference's later pictures backwards, the reference itself, its
      earlier pictures. */
  function StandardS0(s0: seq<Pic>, s1: seq<Pic>, deltaRps: int, flags: seq<RefIdc>): seq<Pic>
    requires |flags| == |s0| + |s1| + 1
  {
    PassDown(s1, deltaRps, flags, |s0|, true) + Picked(deltaRps, flags[|s0| + |s1|], true)
      + PassUp(s0, deltaRps, flags, 0, true)
  }

  /** Equation 7-62. */
  function StandardS1(s0: seq<Pic>, s1: seq<Pic>, deltaRps: int, flags: seq<RefIdc>): seq<Pic>
    requires |flags| == |s0| + |s1| + 1
  {
    PassDown(s0, deltaRps, flags, 0, false) + Picked(deltaRps, flags[|s0| + |s1|], false)
      + PassUp(s1, deltaRps, flags, |s0|, false)
  }

  /** The pictures kept of one sign, in the order of the candidates. */
  function Signed(c: seq<Candidate>, negative: bool): seq<Pic> {
    if negative then Negatives(Keep(c)) else Positives(Keep(c))
  }

  lemma {:induction false} PositivesConcat(a: seq<Pic>, b: seq<Pic>)
    ensures Positives(a + b) == Positives(a) + Positives(b)
  {
    if |b| == 0 {
      assert a + b == a;
    } else {
      PositivesConcat(a, b[..|b| - 1]);
      assert (a + b)[..|a + b| - 1] == a + b[..|b| - 1];
    }
  }

  lemma SignedConcat(a: seq<Candidate>, b: seq<Candidate>, negative: bool)
    ensures Signed(a + b, negative) == Signed(a, negative) + Signed(b, negative)
  {
    KeepConcat(a, b);
    if negative {
      NegativesConcat(Keep(a), Keep(b));
    } else {
      PositivesConcat(Keep(a), Keep(b));
    }
  }

  /** A candidate at this difference, kept and used as its flags say. */
  function Flagged(dPoc: int, flags: RefIdc): Candidate {
    Candidate(Pic(dPoc, flags.Used?), !flags.Dropped?)
  }

  lemma SignedOne(dPoc: int, flags: RefIdc, negative: bool)
    ensures Signed([Flagged(dPoc, flags)], negative) == Picked(dPoc, flags, negative)
  {
    var x := Flagged(dPoc, flags);
    KeepOne(x);
    if x.kept {
      SignLast([x.pic]);
      assert [x.pic][..0] == [];
    }
  }

  /** x are the candidates made from list, whose flags begin at first. */
  ghost predicate MadeFrom(x: seq<Candidate>, list: seq<Pic>, deltaRps: int, flags: seq<RefIdc>, first: nat) {
    && |x| == |list| && first + |list| <= |flags|
    && forall i | 0 <= i < |x| :: x[i] == Flagged(list[i].delta + deltaRps, flags[first + i])
  }

  lemma MadeSnoc(x: seq<Candidate>, list: seq<Pic>, deltaRps: int, flags: seq<RefIdc>, first: nat)
    requires |x| > 0 && MadeFrom(x, list, deltaRps, flags, first)
    ensures var j := |x| - 1;
      && MadeFrom(x[..j], list[..j], deltaRps, flags, first)
      && x == x[..j] + [Flagged(list[j].delta + deltaRps, flags[first + j])]
  {
  }

  lemma SignedSnoc(x: seq<Candidate>, dPoc: int, flags: RefIdc, negative: bool)
    ensures Signed(x + [Flagged(dPoc, flags)], negative) == Signed(x, negative) + Picked(dPoc, flags, negative)
    ensures Signed(ReverseCandidates(x + [Flagged(dPoc, flags)]), negative)
      == Picked(dPoc, flags, negative) + Signed(ReverseCandidates(x), negative)
  {
    var z := Flagged(dPoc, flags);
    SignedOne(dPoc, flags, negative);
    SignedConcat(x, [z], negative);
    SignedConcat([z], ReverseCandidates(x), negative);
    ReverseSnoc(x, z);
  }

  lemma ReverseSnoc(x: seq<Candidate>, z: Candidate)
    ensures ReverseCandidates(x + [z]) == [z] + ReverseCandidates(x)
  {
  }

  lemma {:induction false} UpIs(x: seq<Candidate>, list: seq<Pic>, deltaRps: int, flags: seq<RefIdc>, first: nat,
    negative: bool)
    requires MadeFrom(x, list, deltaRps, flags, first)
    ensures Signed(x, negative) == PassUp(list, deltaRps, flags, first, negative)
    decreases |x|
  {
    if |x| > 0 {
      var j := |x| - 1;
      MadeSnoc(x, list, deltaRps, flags, first);
      UpIs(x[..j], list[..j], deltaRps, flags, first, negative);
      SignedSnoc(x[..j], list[j].delta + deltaRps, flags[first + j], negative);
    }
  }

  lemma {:induction false} DownIs(x: seq<Candidate>, list: seq<Pic>, deltaRps: int, flags: seq<RefIdc>, first: nat,
    negative: bool)
    requires MadeFrom(x, list, deltaRps, flags, first)
    ensures Signed(ReverseCandidates(x), negative) == PassDown(list, deltaRps, flags, first, negative)
    decreases |x|
  {
    if |x| > 0 {
      var j := |x| - 1;
      MadeSnoc(x, list, deltaRps, flags, first);
      DownIs(x[..j], list[..j], deltaRps, flags, first, negative);
      SignedSnoc(x[..j], list[j].delta + deltaRps, flags[first + j], negative);
    }
  }

  /** A pass down, one picture and a pass up, of candidates. */
  lemma ThreePasses(down: seq<Candidate>, z: Candidate, up: seq<Candidate>, negative: bool)
    ensures Signed(ReverseCandidates(down) + [z] + up, negative)
      == Signed(ReverseCandidates(down), negative) + Signed([z], negative) + Signed(up, negative)
  {
    SignedConcat(ReverseCandidates(down), [z], negative);
    SignedConcat(ReverseCandidates(down) + [z], up, negative);
  }

  /** The passes over the candidates are the standard's. */
  lemma PassesAreStandard(c: seq<Candidate>, s0: seq<Pic>, s1: seq<Pic>, deltaRps: int, flags: seq<RefIdc>)
    requires |c| == |flags| == |s0| + |s1| + 1
    requires MadeFrom(c[..|s0|], s0, deltaRps, flags, 0) && MadeFrom(c[|s0|..|c| - 1], s1, deltaRps, flags, |s0|)
    requires c[|c| - 1] == Flagged(deltaRps, flags[|c| - 1])
    ensures PassesS0(c, |s0|) == StandardS0(s0, s1, deltaRps, flags)
    ensures PassesS1(c, |s0|) == StandardS1(s0, s1, deltaRps, flags)
  {
    var x, y, z := c[..|s0|], c[|s0|..|c| - 1], c[|c| - 1];
    FirstIsStandard(x, y, z, s0, s1, deltaRps, flags);
    SecondIsStandard(x, y, z, s0, s1, deltaRps, flags);
  }

  lemma FirstIsStandard(x: seq<Candidate>, y: seq<Candidate>, z: Candidate, s0: seq<Pic>, s1: seq<Pic>,
    deltaRps: int, flags: seq<RefIdc>)
    requires MadeFrom(x, s0, deltaRps, flags, 0) && MadeFrom(y, s1, deltaRps, flags, |s0|)
    requires |flags| == |s0| + |s1| + 1 && z == Flagged(deltaRps, flags[|s0| + |s1|])
    ensures Signed(ReverseCandidates(y) + [z] + x, true) == StandardS0(s0, s1, deltaRps, flags)
  {
    ThreePasses(y, z, x, true);
    SignedOne(deltaRps, flags[|s0| + |s1|], true);
    DownIs(y, s1, deltaRps, flags, |s0|, true);
    UpIs(x, s0, deltaRps, flags, 0, true);
  }

  lemma SecondIsStandard(x: seq<Candidate>, y: seq<Candidate>, z: Candidate, s0: seq<Pic>, s1: seq<Pic>,
    deltaRps: int, flags: seq<RefIdc>)
    requires MadeFrom(x, s0, deltaRps, flags, 0) && MadeFrom(y, s1, deltaRps, flags, |s0|)
    requires |flags| == |s0| + |s1| + 1 && z == Flagged(deltaRps, flags[|s0| + |s1|])
    ensures Signed(ReverseCandidates(x) + [z] + y, false) == StandardS1(s0, s1, deltaRps, flags)
  {
    ThreePasses(x, z, y, false);
    SignedOne(deltaRps, flags[|s0| + |s1|], false);
    DownIs(x, s0, deltaRps, flags, 0, false);
    UpIs(y, s1, deltaRps, flags, |s0|, false);
  }

  lemma CandidatesMade(ref: Rps, bound: int, deltaRps: int, flags: seq<RefIdc>)
    requires WellFormed(ref, bound) && 0 <= bound <= 0x4000_0000 && -0x8000 <= deltaRps <= 0x8000
    requires |flags| == |ref.pics| + 1
    ensures var c, n := Candidates(ref.pics, deltaRps, flags), ref.numNegative;
      && MadeFrom(c[..n], ref.pics[..n], deltaRps, flags, 0)
      && MadeFrom(c[n..|c| - 1], ref.pics[n..], deltaRps, flags, n)
      && c[|c| - 1] == Flagged(deltaRps, flags[|c| - 1])
  {
    CandidatesInOrder(ref, bound, deltaRps, flags);
  }

  /** No kept picture lands on the current one. */
  ghost predicate NoneAtZero(ref: seq<Pic>, deltaRps: int, flags: seq<RefIdc>)
    requires |flags| == |ref| + 1
  {
    && (flags[|ref|] != Dropped ==> deltaRps != 0)
    && forall j | 0 <= j < |ref| :: flags[j] != Dropped ==> ref[j].delta + deltaRps != 0
  }

  lemma NoneAtZeroIs(ref: Rps, bound: int, deltaRps: int, flags: seq<RefIdc>)
    requires WellFormed(ref, bound) && 0 <= bound <= 0x4000_0000 && -0x8000 <= deltaRps <= 0x8000
    requires |flags| == |ref.pics| + 1
    ensures NoKeptZero(Candidates(ref.pics, deltaRps, flags)) <==> NoneAtZero(ref.pics, deltaRps, flags)
  {
    CandidatesInOrder(ref, bound, deltaRps, flags);
    var c := Candidates(ref.pics, deltaRps, flags);
    assert forall j | 0 <= j < |flags| :: c[j].kept <==> flags[j] != Dropped;
    assert forall j | 0 <= j < |ref.pics| :: c[j].pic.delta == ref.pics[j].delta + deltaRps;
    if NoKeptZero(c) {
      assert c[|ref.pics|].pic.delta == deltaRps;
    }
  }

  /** The derived set has the standard's lists. */
  ghost predicate StandardLists(r: Rps, ref: Rps, deltaRps: int, flags: seq<RefIdc>)
    requires r.numNegative <= |r.pics| && ref.numNegative <= |ref.pics| && |flags| == |ref.pics| + 1
  {
    var s0, s1 := ref.pics[..ref.numNegative], ref.pics[ref.numNegative..];
    SameLists(r, StandardS0(s0, s1, deltaRps, flags), StandardS1(s0, s1, deltaRps, flags))
  }

  lemma KeptIsStandard(ref: Rps, bound: int, deltaRps: int, flags: seq<RefIdc>)
    requires WellFormed(ref, bound) && 0 <= bound <= 0x4000_0000 && -0x8000 <= deltaRps <= 0x8000
    requires |flags| == |ref.pics| + 1
    ensures StandardLists(FromKept(Keep(Candidates(ref.pics, deltaRps, flags))), ref, deltaRps, flags)
      <==> NoneAtZero(ref.pics, deltaRps, flags)
  {
    var n := ref.numNegative;
    StepMatches(ref, bound, deltaRps, flags);
    CandidatesMade(ref, bound, deltaRps, flags);
    NoneAtZeroIs(ref, bound, deltaRps, flags);
    PassesAreStandard(Candidates(ref.pics, deltaRps, flags), ref.pics[..n], ref.pics[n..], deltaRps, flags);
  }

  /** A set predicted from the one delta_idx_minus1 + 1 before it, deltaRps being
      (1 - 2 * delta_rps_sign) * (abs_delta_rps_minus1 + 1), is the standard's exactly when no
      kept picture lands on the current one. */
  lemma PredictedIsStandard(s: Syntax, refs: seq<Rps>, bound: int)
    requires s.Predicted? && s.deltaIdxMinus1 < |refs| && s.absMinus1 <= MAX_DELTA_MINUS1
    requires WellFormed(refs[|refs| - (s.deltaIdxMinus1 + 1)], bound) && 0 <= bound <= 0x4000_0000
    requires |s.idcs| == |refs[|refs| - (s.deltaIdxMinus1 + 1)].pics| + 1
    ensures var ref := refs[|refs| - (s.deltaIdxMinus1 + 1)];
      var deltaRps := (if s.negative then -1 else 1) * (s.absMinus1 + 1);
      StandardLists(Derive(s, refs), ref, deltaRps, s.idcs) <==> NoneAtZero(ref.pics, deltaRps, s.idcs)
  {
    DeltaRpsIs(s.negative, s.absMinus1);
    KeptByStep(s, refs, bound, DeltaRps(s.negative, s.absMinus1));
  }

  lemma KeptByStep(s: Syntax, refs: seq<Rps>, bound: int, deltaRps: int)
    requires s.Predicted? && Fits(s, refs) && deltaRps == DeltaRps(s.negative, s.absMinus1)
    requires WellFormed(refs[|refs| - 1 - s.deltaIdxMinus1], bound) && 0 <= bound <= 0x4000_0000
    requires -0x8000 <= deltaRps <= 0x8000
    ensures var ref := refs[|refs| - 1 - s.deltaIdxMinus1];
      StandardLists(Derive(s, refs), ref, deltaRps, s.idcs) <==> NoneAtZero(ref.pics, deltaRps, s.idcs)
  {
    KeptIsStandard(refs[|refs| - 1 - s.deltaIdxMinus1], bound, deltaRps, s.idcs);
  }

  lemma DeltaRpsIs(negative: bool, absMinus1: nat)
    requires absMinus1 <= MAX_DELTA_MINUS1
    ensures DeltaRps(negative, absMinus1) == (if negative then -1 else 1) * (absMinus1 + 1)
    ensures -0x8000 <= DeltaRps(negative, absMinus1) <= 0x8000
  {
    DeltaRange(negative, absMinus1);
  }

  // ---------- lists of sets

  /** r is what the standard derives from the syntax s of the set behind refs. */
  ghost predicate Standard(s: Syntax, refs: seq<Rps>, r: Rps) {
    && |r.pics| == r.numNegative + r.numPositive
    && match s
       case Explicit(negatives, positives) => SameLists(r, Summed(negatives, -1), Summed(positives, 1))
       case Predicted(_, _, _, _) => StandardPredicted(s, refs, r)
  }

  ghost predicate StandardPredicted(s: Syntax, refs: seq<Rps>, r: Rps)
    requires s.Predicted? && r.numNegative <= |r.pics|
  {
    && s.deltaIdxMinus1 < |refs|
    && var ref := refs[|refs| - (s.deltaIdxMinus1 + 1)];
       && ref.numNegative <= |ref.pics| && |s.idcs| == |ref.pics| + 1
       && StandardLists(r, ref, (if s.negative then -1 else 1) * (s.absMinus1 + 1), s.idcs)
  }

  lemma NextPredicted(s: Syntax, refs: seq<Rps>, i: nat, bound: int)
    requires s.Predicted? && Fits(s, refs) && Conforming(s, refs) && i == |refs| - 1 - s.deltaIdxMinus1
    requires WellFormed(refs[i], bound) && 0 <= bound <= 0x4000_0000
    requires Derive(s, refs).numNegative <= |Derive(s, refs).pics|
    ensures StandardPredicted(s, refs, Derive(s, refs))
  {
    DeltaRpsIs(s.negative, s.absMinus1);
    NoneAtZeroIs(refs[i], bound, DeltaRps(s.negative, s.absMinus1), s.idcs);
    KeptByStep(s, refs, bound, DeltaRps(s.negative, s.absMinus1));
  }

  lemma NextStandard(s: Syntax, refs: seq<Rps>)
    requires Fits(s, refs) && Conforming(s, refs) && |refs| < 65
    requires forall i | 0 <= i < |refs| :: WellFormed(refs[i], (15 + i) * 0x8000)
    requires |Derive(s, refs).pics| == Derive(s, refs).numNegative + Derive(s, refs).numPositive
    ensures Standard(s, refs, Derive(s, refs))
  {
    if s.Explicit? {
      ExplicitIsStandard(s, refs);
    } else {
      var i := |refs| - 1 - s.deltaIdxMinus1;
      NextPredicted(s, refs, i, (15 + i) * 0x8000);
    }
  }

  /** Every set of an accepted conforming list is the one the standard derives, coded or
      predicted from sets before it. */
  lemma {:induction false} ListIsStandard(syntaxes: seq<Syntax>, sets: seq<Rps>, maxDec: nat, i: nat)
    requires AcceptedList(syntaxes, sets, maxDec) && ConformingList(syntaxes, sets) && i < |sets| <= 65
    ensures Standard(syntaxes[i], sets[..i], sets[i])
    decreases |sets|
  {
    var n := |sets| - 1;
    if i < n {
      ListIsStandard(syntaxes[..n], sets[..n], maxDec, i);
      assert sets[..n][..i] == sets[..i];
    } else {
      LastIsStandard(syntaxes, sets, maxDec);
    }
  }

  lemma LastIsStandard(syntaxes: seq<Syntax>, sets: seq<Rps>, maxDec: nat)
    requires AcceptedList(syntaxes, sets, maxDec) && ConformingList(syntaxes, sets) && 0 < |sets| <= 65
    ensures var n := |sets| - 1; Standard(syntaxes[n], sets[..n], sets[n])
  {
    var n := |sets| - 1;
    var refs := sets[..n];
    ListWellFormed(syntaxes[..n], refs, maxDec);
    ListWellFormed(syntaxes, sets, maxDec);
    assert WellFormed(sets[n], (15 + n) * 0x8000);
    NextStandard(syntaxes[n], refs);
  }
}
