/** The st_ref_pic_set syntax (section 7.3.7 of H.265), the set the parser derives from it,
    and the lists of sets a sequence parameter set carries. */
module RpsSyntax {
  import opened BitStrings
  import opened ExpGolomb
  import opened BitReader
  import opened RefPicSets

  const MAX_DELTA_MINUS1: nat := 0x7FFF  // the standard's bound on the coded differences

  /** used_by_curr_pic_flag and use_delta_flag of one candidate. */
  datatype RefIdc = Dropped | Used | DeltaOnly {
    function Bits(): seq<bool> {
      match this
      case Used => [true]
      case DeltaOnly => [false, true]
      case Dropped => [false, false]
    }
  }

  /** delta_poc_minus1 and used_by_curr_pic_flag of one picture. */
  datatype Coded = Coded(deltaMinus1: nat, used: bool) {
    function Bits(): seq<bool> {
      UeBits(deltaMinus1) + [used]
    }
  }

  datatype Syntax =
    | Predicted(deltaIdxMinus1: nat, negative: bool, absMinus1: nat, idcs: seq<RefIdc>)
    | Explicit(negatives: seq<Coded>, positives: seq<Coded>)

  /** A set: the negative pictures first, then the others. */
  datatype Rps = Rps(inter: bool, numNegative: nat, numPositive: nat, pics: seq<Pic>)

  // ---------- bits

  function IdcsBits(idcs: seq<RefIdc>): seq<bool> {
    if idcs == [] then [] else IdcsBits(idcs[..|idcs| - 1]) + idcs[|idcs| - 1].Bits()
  }

  function CodedBits(coded: seq<Coded>): seq<bool> {
    if coded == [] then [] else CodedBits(coded[..|coded| - 1]) + coded[|coded| - 1].Bits()
  }

  /** The bits of set idx of numSets: every set but the first has a prediction flag. */
  function SyntaxBits(s: Syntax, idx: nat, numSets: nat): seq<bool> {
    (if idx == 0 then [] else [s.Predicted?]) + BodyBits(s, idx, numSets)
  }

  /** The index difference is coded only in a slice header, where idx is numSets. */
  function BodyBits(s: Syntax, idx: nat, numSets: nat): seq<bool> {
    match s
    case Predicted(deltaIdxMinus1, negative, absMinus1, idcs) =>
      (if idx == numSets then UeBits(deltaIdxMinus1) else []) + StepBits(negative, absMinus1, idcs)
    case Explicit(negatives, positives) =>
      UeBits(|negatives|) + (UeBits(|positives|) + (CodedBits(negatives) + CodedBits(positives)))
  }

  function StepBits(negative: bool, absMinus1: nat, idcs: seq<RefIdc>): seq<bool> {
    [negative] + (UeBits(absMinus1) + IdcsBits(idcs))
  }

  // ---------- reading, bit by bit

  datatype Refusal = BadCode | BadIndex | TooManyPictures | BufferExceeded | TooManySets

  /** What reading at a position gives: a value and the position after it, or an exception. */
  datatype Outcome<T> = Read(value: T, pos: nat) | Refused(why: Refusal)

  function UeAt(b: seq<bool>, p: nat): (o: Outcome<nat>)
    requires p <= |b|
    ensures o.Read? ==> p <= o.pos <= |b|
  {
    if CodeFits(b, p) && LeadingZeros(b, p) <= 31 then Read(CodeNum(b, p), p + 2 * LeadingZeros(b, p) + 1)
    else Refused(BadCode)
  }

  function BitAt(b: seq<bool>, p: nat): (o: Outcome<bool>)
    requires p <= |b|
    ensures o.Read? ==> p <= o.pos <= |b|
  {
    if p < |b| then Read(b[p], p + 1) else Refused(BadCode)
  }

  function IdcAt(b: seq<bool>, p: nat): (o: Outcome<RefIdc>)
    requires p <= |b|
    ensures o.Read? ==> p <= o.pos <= |b|
  {
    if p < |b| && b[p] then Read(Used, p + 1)
    else if p + 1 < |b| then Read(if b[p + 1] then DeltaOnly else Dropped, p + 2)
    else Refused(BadCode)
  }

  function CodedAt(b: seq<bool>, p: nat): (o: Outcome<Coded>)
    requires p <= |b|
    ensures o.Read? ==> p <= o.pos <= |b|
  {
    match UeAt(b, p)
    case Refused(why) => Refused(why)
    case Read(v, q) =>
      match BitAt(b, q)
      case Refused(why) => Refused(why)
      case Read(u, q') => Read(Coded(v, u), q')
  }

  function IdcsAt(b: seq<bool>, p: nat, n: nat): (o: Outcome<seq<RefIdc>>)
    requires p <= |b|
    ensures o.Read? ==> p <= o.pos <= |b| && |o.value| == n
  {
    if n == 0 then Read([], p) else
      match IdcsAt(b, p, n - 1)
      case Refused(why) => Refused(why)
      case Read(t, q) =>
        match IdcAt(b, q)
        case Refused(why) => Refused(why)
        case Read(x, q') => Read(t + [x], q')
  }

  function CodedListAt(b: seq<bool>, p: nat, n: nat): (o: Outcome<seq<Coded>>)
    requires p <= |b|
    ensures o.Read? ==> p <= o.pos <= |b| && |o.value| == n
  {
    if n == 0 then Read([], p) else
      match CodedListAt(b, p, n - 1)
      case Refused(why) => Refused(why)
      case Read(t, q) =>
        match CodedAt(b, q)
        case Refused(why) => Refused(why)
        case Read(x, q') => Read(t + [x], q')
  }

  function PredictedAt(b: seq<bool>, p: nat, numSets: nat, refs: seq<Rps>): (o: Outcome<Syntax>)
    requires p <= |b| && refs != []
    ensures o.Read? ==> p <= o.pos <= |b| && o.value.Predicted? && Fits(o.value, refs)
  {
    match IndexAt(b, p, |refs| == numSets)
    case Refused(why) => Refused(why)
    case Read(deltaIdx, q) => if deltaIdx > |refs| - 1 then Refused(BadIndex) else StepAt(b, q, deltaIdx, refs)
  }

  function IndexAt(b: seq<bool>, p: nat, coded: bool): (o: Outcome<nat>)
    requires p <= |b|
    ensures o.Read? ==> p <= o.pos <= |b|
  {
    if coded then UeAt(b, p) else Read(0, p)
  }

  function StepAt(b: seq<bool>, p: nat, deltaIdx: nat, refs: seq<Rps>): (o: Outcome<Syntax>)
    requires p <= |b| && deltaIdx < |refs|
    ensures o.Read? ==> p <= o.pos <= |b| && o.value.Predicted? && Fits(o.value, refs)
  {
    match BitAt(b, p)
    case Refused(why) => Refused(why)
    case Read(negative, q1) =>
      match UeAt(b, q1)
      case Refused(why) => Refused(why)
      case Read(absMinus1, q2) =>
        match IdcsAt(b, q2, |refs[|refs| - 1 - deltaIdx].pics| + 1)
        case Refused(why) => Refused(why)
        case Read(idcs, q3) => Read(Predicted(deltaIdx, negative, absMinus1, idcs), q3)
  }

  function ExplicitAt(b: seq<bool>, p: nat): (o: Outcome<Syntax>)
    requires p <= |b|
    ensures o.Read? ==> p <= o.pos <= |b| && o.value.Explicit?
  {
    match UeAt(b, p)
    case Refused(why) => Refused(why)
    case Read(n, q0) =>
      match UeAt(b, q0)
      case Refused(why) => Refused(why)
      case Read(m, q1) =>
        if n + m >= 16 then Refused(TooManyPictures) else PicturesAt(b, q1, n, m)
  }

  function PicturesAt(b: seq<bool>, p: nat, n: nat, m: nat): (o: Outcome<Syntax>)
    requires p <= |b|
    ensures o.Read? ==> p <= o.pos <= |b| && o.value.Explicit?
  {
    match CodedListAt(b, p, n)
    case Refused(why) => Refused(why)
    case Read(negatives, q) =>
      match CodedListAt(b, q, m)
      case Refused(why) => Refused(why)
      case Read(positives, q') => Read(Explicit(negatives, positives), q')
  }

  /** Set |refs| of numSets; the first one is never predicted. */
  function SyntaxAt(b: seq<bool>, p: nat, numSets: nat, refs: seq<Rps>): (o: Outcome<Syntax>)
    requires p <= |b|
    ensures o.Read? ==> p <= o.pos <= |b| && Fits(o.value, refs)
  {
    if refs == [] then ExplicitAt(b, p) else
      match BitAt(b, p)
      case Refused(why) => Refused(why)
      case Read(flag, q) => if flag then PredictedAt(b, q, numSets, refs) else ExplicitAt(b, q)
  }

  // ---------- derivation, in the parser's 32-bit arithmetic

  function DeltaRps(negative: bool, absMinus1: nat): int {
    Int32(if negative then -(absMinus1 + 1) else absMinus1 + 1)
  }

  function CandidateAt(ref: seq<Pic>, deltaRps: int, idcs: seq<RefIdc>, j: nat): Candidate
    requires j < |idcs|
  {
    Candidate(Pic(Int32(deltaRps + if j < |ref| then ref[j].delta else 0), idcs[j].Used?), !idcs[j].Dropped?)
  }

  function Candidates(ref: seq<Pic>, deltaRps: int, idcs: seq<RefIdc>): (c: seq<Candidate>)
    ensures |c| == |idcs|
  {
    seq(|idcs|, j requires 0 <= j < |idcs| => CandidateAt(ref, deltaRps, idcs, j))
  }

  /** Each difference is one more than coded away from the previous one. */
  function Chain(coded: seq<Coded>, down: bool): (pics: seq<Pic>)
    ensures |pics| == |coded|
  {
    if coded == [] then [] else
      var before := Chain(coded[..|coded| - 1], down);
      var prev := if before == [] then 0 else before[|before| - 1].delta;
      before + [Pic(Step(prev, coded[|coded| - 1], down), coded[|coded| - 1].used)]
  }

  function Step(prev: int, x: Coded, down: bool): int {
    Int32(if down then prev - x.deltaMinus1 - 1 else prev + x.deltaMinus1 + 1)
  }

  function FromKept(kept: seq<Pic>): Rps {
    var n := |Negatives(kept)|;
    Rps(true, n, |kept| - n, Sorted(kept, n))
  }

  /** The references are there, and there is a flag for each candidate. */
  predicate Fits(s: Syntax, refs: seq<Rps>) {
    s.Predicted? ==>
      && s.deltaIdxMinus1 < |refs|
      && |s.idcs| == |refs[|refs| - 1 - s.deltaIdxMinus1].pics| + 1
  }

  function Derive(s: Syntax, refs: seq<Rps>): Rps
    requires Fits(s, refs)
  {
    match s
    case Predicted(deltaIdxMinus1, negative, absMinus1, idcs) =>
      FromKept(Keep(Candidates(refs[|refs| - 1 - deltaIdxMinus1].pics, DeltaRps(negative, absMinus1), idcs)))
    case Explicit(negatives, positives) =>
      Rps(false, |negatives|, |positives|, Chain(negatives, true) + Chain(positives, false))
  }

  // ---------- well-formed sets

  /** Negatives strictly descending, then positives strictly ascending, none beyond bound. */
  ghost predicate WellFormed(r: Rps, bound: int) {
    |r.pics| == r.numNegative + r.numPositive && WellOrdered(r.pics, r.numNegative, -bound - 1, bound + 1)
  }

  /** Coded differences within the standard's range, and no kept candidate at difference 0. */
  ghost predicate Conforming(s: Syntax, refs: seq<Rps>)
    requires Fits(s, refs)
  {
    match s
    case Predicted(deltaIdxMinus1, negative, absMinus1, idcs) =>
      && absMinus1 <= MAX_DELTA_MINUS1
      && NoKeptZero(Candidates(refs[|refs| - 1 - deltaIdxMinus1].pics, DeltaRps(negative, absMinus1), idcs))
    case Explicit(negatives, positives) =>
      && |negatives| + |positives| < 16
      && (forall i | 0 <= i < |negatives| :: negatives[i].deltaMinus1 <= MAX_DELTA_MINUS1)
      && (forall i | 0 <= i < |positives| :: positives[i].deltaMinus1 <= MAX_DELTA_MINUS1)
  }

  lemma Int32Identity(x: int)
    requires -0x8000_0000 <= x < 0x8000_0000
    ensures Int32(x) == x
  {
  }

  /** The candidates of a well-formed reference come in the order the passes count on. */
  lemma CandidatesInOrder(ref: Rps, bound: int, deltaRps: int, idcs: seq<RefIdc>)
    requires WellFormed(ref, bound) && 0 <= bound <= 0x4000_0000 && -0x8000 <= deltaRps <= 0x8000
    requires |idcs| == |ref.pics| + 1
    ensures CandidatesOrdered(Candidates(ref.pics, deltaRps, idcs), ref.numNegative)
    ensures forall j | 0 <= j < |idcs| ::
      Candidates(ref.pics, deltaRps, idcs)[j].pic.delta == deltaRps + if j < |ref.pics| then ref.pics[j].delta else 0
  {
    forall j | 0 <= j < |idcs|
      ensures Candidates(ref.pics, deltaRps,
        idcs)[j].pic.delta == deltaRps + if j < |ref.pics| then ref.pics[j].delta else 0
    {
      Int32Identity(deltaRps + if j < |ref.pics| then ref.pics[j].delta else 0);
    }
  }

  predicate SameLists(r: Rps, s0: seq<Pic>, s1: seq<Pic>)
    requires r.numNegative <= |r.pics|
  {
    r.pics[..r.numNegative] == s0 && r.pics[r.numNegative..] == s1
  }

  lemma DeltaRange(negative: bool, absMinus1: nat)
    requires absMinus1 <= MAX_DELTA_MINUS1
    ensures -0x8000 <= DeltaRps(negative, absMinus1) <= 0x8000
  {
  }

  lemma StepMatches(ref: Rps, bound: int, deltaRps: int, idcs: seq<RefIdc>)
    requires WellFormed(ref, bound) && 0 <= bound <= 0x4000_0000 && -0x8000 <= deltaRps <= 0x8000
    requires |idcs| == |ref.pics| + 1
    ensures ref.numNegative < |idcs|
    ensures var c := Candidates(ref.pics, deltaRps, idcs);
      SameLists(FromKept(Keep(c)), PassesS0(c, ref.numNegative), PassesS1(c, ref.numNegative)) <==> NoKeptZero(c)
  {
    CandidatesInOrder(ref, bound, deltaRps, idcs);
    FromKeptMatches(Candidates(ref.pics, deltaRps, idcs), ref.numNegative);
  }

  lemma FromKeptMatches(c: seq<Candidate>, n: nat)
    requires n < |c| && CandidatesOrdered(c, n)
    ensures SameLists(FromKept(Keep(c)), PassesS0(c, n), PassesS1(c, n)) <==> NoKeptZero(c)
  {
    PredictionExact(c, n);
  }

  /** Inter prediction: filtering, sorting in place and reversing give the two lists of the
      standard's ordered passes exactly when no kept candidate has difference 0. */
  lemma PredictedMatchesPasses(s: Syntax, refs: seq<Rps>, bound: int)
    requires s.Predicted? && Fits(s, refs) && s.absMinus1 <= MAX_DELTA_MINUS1
    requires WellFormed(refs[|refs| - 1 - s.deltaIdxMinus1], bound) && 0 <= bound <= 0x4000_0000
    ensures var ref, r := refs[|refs| - 1 - s.deltaIdxMinus1], Derive(s, refs);
      var c := Candidates(ref.pics, DeltaRps(s.negative, s.absMinus1), s.idcs);
      && ref.numNegative < |c|
      && (SameLists(r, PassesS0(c, ref.numNegative), PassesS1(c, ref.numNegative)) <==> NoKeptZero(c))
  {
    DeltaRange(s.negative, s.absMinus1);
    StepMatches(refs[|refs| - 1 - s.deltaIdxMinus1], bound, DeltaRps(s.negative, s.absMinus1), s.idcs);
  }

  /** With a reference picture 1 back, predicting 1 forward and keeping it gives the code one
      picture at difference 0, counted as positive, where the passes give none. */
  lemma KeptZeroExample()
    ensures var ref := Rps(false, 1, 0, [Pic(-1, true)]);
      var s := Predicted(0, false, 0, [Used, Dropped]);
      && WellFormed(ref, 1) && Fits(s, [ref])
      && Derive(s, [ref]) == Rps(true, 0, 1, [Pic(0, true)])
      && var c := Candidates(ref.pics, 1, s.idcs); PassesS0(c, 1) == [] && PassesS1(c, 1) == []
  {
    var ref := Rps(false, 1, 0, [Pic(-1, true)]);
    var s := Predicted(0, false, 0, [Used, Dropped]);
    var z := Candidate(Pic(0, true), true);
    var last := Candidate(Pic(1, false), false);
    assert Candidates(ref.pics, 1, s.idcs) == [z, last];
    KeptZeroDerived(z, last);
    KeptZeroPasses(z, last);
  }

  lemma KeptZeroDerived(z: Candidate, last: Candidate)
    requires z.kept && !last.kept && z.pic.delta == 0
    ensures FromKept(Keep([z, last])) == Rps(true, 0, 1, [z.pic])
  {
    KeepLast([z, last]);
    assert [z, last][..1] == [z];
    KeepOne(z);
    OneNonNegative(z.pic);
  }

  lemma OneNonNegative(x: Pic)
    requires x.delta >= 0
    ensures FromKept([x]) == Rps(true, 0, 1, [x])
  {
    var k := [x];
    SignLast(k);
    assert k[..0] == [];
    assert InsertionSort(k) == k by {
      SortAppend([], x);
      assert [] + [x] == k;
      InsertLast([], x);
    }
    assert Reverse(k[..0]) == [];
  }

  lemma KeptZeroPasses(z: Candidate, last: Candidate)
    requires z.kept && !last.kept && z.pic.delta == 0
    ensures PassesS0([z, last], 1) == [] && PassesS1([z, last], 1) == []
  {
    var c := [z, last];
    var o := SecondPassOrder(c, 1);
    SecondPassIndex(c, 1, 0);
    SecondPassIndex(c, 1, 1);
    assert o == c;
    FirstPassOrder(c, 1);
    KeepReverse(o);
    KeepLast(c);
    assert c[..1] == [z];
    KeepOne(z);
    assert Keep(o) == [z.pic];
    SignLast([z.pic]);
    assert [z.pic][..0] == [];
    assert Reverse([z.pic]) == [z.pic];
  }

  lemma {:induction false} ChainUp(coded: seq<Coded>)
    requires |coded| < 16 && forall i | 0 <= i < |coded| :: coded[i].deltaMinus1 <= MAX_DELTA_MINUS1
    ensures forall i | 0 <= i < |coded| :: 0 < Chain(coded, false)[i].delta <= 0x8000 * (i + 1)
    ensures forall i, j | 0 <= i < j < |coded| :: Chain(coded, false)[i].delta < Chain(coded, false)[j].delta
  {
    if coded != [] {
      var t, x := coded[..|coded| - 1], coded[|coded| - 1];
      ChainUp(t);
      var before, p := Chain(t, false), Chain(coded, false);
      var prev := if before == [] then 0 else before[|before| - 1].delta;
      Int32Identity(prev + x.deltaMinus1 + 1);
      assert p == before + [Pic(prev + x.deltaMinus1 + 1, x.used)];
      forall i | 0 <= i < |t|
        ensures p[i] == before[i] && p[i].delta <= prev
      {
      }
    }
  }

  /** Chains downwards mirror chains upwards. */
  lemma {:induction false} ChainMirror(coded: seq<Coded>)
    requires |coded| < 16 && forall i | 0 <= i < |coded| :: coded[i].deltaMinus1 <= MAX_DELTA_MINUS1
    ensures forall i | 0 <= i < |coded| :: Chain(coded, true)[i].delta == -Chain(coded, false)[i].delta
  {
    if coded != [] {
      var t, x := coded[..|coded| - 1], coded[|coded| - 1];
      ChainMirror(t);
      ChainUp(t);
      var up, down := Chain(t, false), Chain(t, true);
      var prev := if up == [] then 0 else up[|up| - 1].delta;
      Int32Identity(prev + x.deltaMinus1 + 1);
      Int32Identity(-prev - x.deltaMinus1 - 1);
      assert down != [] ==> down[|down| - 1].delta == -prev;
      assert Chain(coded, true) == down + [Pic(Step(-prev, x, true), x.used)];
      assert Chain(coded, false) == up + [Pic(Step(prev, x, false), x.used)];
    }
  }

  lemma ExplicitWellFormed(s: Syntax, refs: seq<Rps>)
    requires s.Explicit? && Conforming(s, refs)
    ensures WellFormed(Derive(s, refs), 15 * 0x8000)
  {
    ChainUp(s.negatives);
    ChainMirror(s.negatives);
    ChainUp(s.positives);
    ExplicitParts(Derive(s, refs), Chain(s.negatives, true), Chain(s.positives, false));
  }

  lemma ExplicitParts(r: Rps, n: seq<Pic>, p: seq<Pic>)
    requires r.pics == n + p && r.numNegative == |n| && r.numPositive == |p|
    requires forall i | 0 <= i < |n| :: 0 < -n[i].delta <= 15 * 0x8000
    requires forall i, j | 0 <= i < j < |n| :: n[i].delta > n[j].delta
    requires forall i | 0 <= i < |p| :: 0 < p[i].delta <= 15 * 0x8000
    requires forall i, j | 0 <= i < j < |p| :: p[i].delta < p[j].delta
    ensures WellFormed(r, 15 * 0x8000)
  {
  }

  lemma FromKeptShape(k: seq<Pic>, m: nat, bound: int)
    requires m == |Negatives(k)| && WellOrdered(Sorted(k, m), m, -bound - 1, bound + 1)
    ensures WellFormed(FromKept(k), bound)
  {
  }

  /** Prediction from a well-formed set gives a well-formed set, a step further away. */
  lemma PredictedWellFormed(s: Syntax, refs: seq<Rps>, bound: int)
    requires s.Predicted? && Fits(s, refs) && Conforming(s, refs)
    requires WellFormed(refs[|refs| - 1 - s.deltaIdxMinus1], bound) && 0 <= bound <= 0x4000_0000
    ensures WellFormed(Derive(s, refs), bound + 0x8000)
  {
    DeltaRange(s.negative, s.absMinus1);
    StepWellFormed(refs[|refs| - 1 - s.deltaIdxMinus1], bound, DeltaRps(s.negative, s.absMinus1), s.idcs);
  }

  lemma StepWellFormed(ref: Rps, bound: int, deltaRps: int, idcs: seq<RefIdc>)
    requires WellFormed(ref, bound) && 0 <= bound <= 0x4000_0000 && -0x8000 <= deltaRps <= 0x8000
    requires |idcs| == |ref.pics| + 1 && NoKeptZero(Candidates(ref.pics, deltaRps, idcs))
    ensures WellFormed(FromKept(Keep(Candidates(ref.pics, deltaRps, idcs))), bound + 0x8000)
  {
    var c := Candidates(ref.pics, deltaRps, idcs);
    CandidatesInOrder(ref, bound, deltaRps, idcs);
    PredictionWellFormed(c, ref.numNegative, -bound - 0x8001, bound + 0x8001);
    FromKeptShape(Keep(c), |Negatives(Keep(c))|, bound + 0x8000);
  }

  // ---------- lists of sets

  /** The check GetSequenceParamSet makes on each set. */
  predicate Accepted(r: Rps, maxDec: nat) {
    r.numNegative <= maxDec && r.numPositive <= maxDec - r.numNegative
  }

  /** sets is what the syntaxes give, each set accepted before the next one is derived. */
  ghost predicate AcceptedList(syntaxes: seq<Syntax>, sets: seq<Rps>, maxDec: nat)
    decreases |sets|
  {
    && |syntaxes| == |sets|
    && (sets != [] ==>
          var n := |sets| - 1;
          && AcceptedList(syntaxes[..n], sets[..n], maxDec)
          && Fits(syntaxes[n], sets[..n]) && sets[n] == Derive(syntaxes[n], sets[..n]) && Accepted(sets[n], maxDec))
  }

  ghost predicate ConformingList(syntaxes: seq<Syntax>, sets: seq<Rps>)
    requires |syntaxes| == |sets|
    decreases |sets|
  {
    sets != [] ==>
      var n := |sets| - 1;
      ConformingList(syntaxes[..n], sets[..n]) && Fits(syntaxes[n], sets[..n]) && Conforming(syntaxes[n], sets[..n])
  }

  /** Every set of an accepted list is well formed, whether coded or predicted; the bound
      suits the 64 sets a parameter set can have and one more. */
  lemma {:induction false} ListWellFormed(syntaxes: seq<Syntax>, sets: seq<Rps>, maxDec: nat)
    requires AcceptedList(syntaxes, sets, maxDec) && ConformingList(syntaxes, sets) && |sets| <= 65
    ensures forall i | 0 <= i < |sets| :: WellFormed(sets[i], (15 + i) * 0x8000) && |sets[i].pics| <= maxDec
    decreases |sets|
  {
    if sets != [] {
      var n := |sets| - 1;
      ListWellFormed(syntaxes[..n], sets[..n], maxDec);
      NextWellFormed(syntaxes[n], sets[..n], maxDec);
      forall i | 0 <= i < |sets|
        ensures WellFormed(sets[i], (15 + i) * 0x8000) && |sets[i].pics| <= maxDec
      {
        if i < n {
          assert sets[i] == sets[..n][i];
        }
      }
    }
  }

  lemma NextWellFormed(s: Syntax, refs: seq<Rps>, maxDec: nat)
    requires Fits(s, refs) && Conforming(s, refs) && Accepted(Derive(s, refs), maxDec) && |refs| < 65
    requires forall i | 0 <= i < |refs| :: WellFormed(refs[i], (15 + i) * 0x8000)
    ensures WellFormed(Derive(s, refs), (15 + |refs|) * 0x8000) && |Derive(s, refs).pics| <= maxDec
  {
    if s.Explicit? {
      ExplicitWellFormed(s, refs);
      WellFormedWeaken(Derive(s, refs), 15 * 0x8000, (15 + |refs|) * 0x8000);
    } else {
      var r := |refs| - 1 - s.deltaIdxMinus1;
      PredictedWellFormed(s, refs, (15 + r) * 0x8000);
      WellFormedWeaken(Derive(s, refs), (15 + r) * 0x8000 + 0x8000, (15 + |refs|) * 0x8000);
    }
  }

  /** What the loop over the sets of a parameter set reads: the first n of numSets sets. */
  function SetsAt(b: seq<bool>, p: nat, n: nat, numSets: nat, maxDec: nat): (o: Outcome<(seq<Syntax>, seq<Rps>)>)
    requires p <= |b|
    ensures o.Read? ==> p <= o.pos <= |b| && |o.value.0| == |o.value.1| == n
  {
    if n == 0 then Read(([], []), p) else
      match SetsAt(b, p, n - 1, numSets, maxDec)
      case Refused(why) => Refused(why)
      case Read((syntaxes, sets), q) => SetAfter(b, q, syntaxes, sets, numSets, maxDec)
  }

  /** One more set, after those of sets. */
  function SetAfter(b: seq<bool>, p: nat, syntaxes: seq<Syntax>, sets: seq<Rps>, numSets: nat, maxDec: nat)
    : (o: Outcome<(seq<Syntax>, seq<Rps>)>)
    requires p <= |b|
    ensures o.Read? ==> p <= o.pos <= |b| && |o.value.0| == |syntaxes| + 1 && |o.value.1| == |sets| + 1
  {
    match SyntaxAt(b, p, numSets, sets)
    case Refused(why) => Refused(why)
    case Read(s, q) =>
      if !Accepted(Derive(s, sets), maxDec) then Refused(BufferExceeded)
      else Read((syntaxes + [s], sets + [Derive(s, sets)]), q)
  }

  /** What the loop reads is an accepted list. */
  lemma {:induction false} SetsAtAccepted(b: seq<bool>, p: nat, n: nat, numSets: nat, maxDec: nat,
                                          o: (seq<Syntax>, seq<Rps>), q: nat)
    requires p <= |b| && SetsAt(b, p, n, numSets, maxDec) == Read(o, q)
    ensures AcceptedList(o.0, o.1, maxDec)
  {
    if n > 0 {
      var before, m := SetsBefore(b, p, n, numSets, maxDec, o, q);
      SetsAtAccepted(b, p, n - 1, numSets, maxDec, before, m);
      SetAfterAccepted(b, m, before.0, before.1, numSets, maxDec, o, q);
    }
  }

  lemma SetsBefore(b: seq<bool>, p: nat, n: nat, numSets: nat, maxDec: nat, o: (seq<Syntax>, seq<Rps>), q: nat)
    returns (before: (seq<Syntax>, seq<Rps>), m: nat)
    requires p <= |b| && n > 0 && SetsAt(b, p, n, numSets, maxDec) == Read(o, q)
    ensures m <= |b| && SetsAt(b, p, n - 1, numSets, maxDec) == Read(before, m)
    ensures SetAfter(b, m, before.0, before.1, numSets, maxDec) == Read(o, q)
  {
    var t := SetsAt(b, p, n - 1, numSets, maxDec);
    before, m := t.value, t.pos;
  }

  lemma AcceptedSnoc(syntaxes: seq<Syntax>, sets: seq<Rps>, s: Syntax, r: Rps, maxDec: nat)
    requires AcceptedList(syntaxes, sets, maxDec) && Fits(s, sets) && r == Derive(s, sets) && Accepted(r, maxDec)
    ensures AcceptedList(syntaxes + [s], sets + [r], maxDec)
  {
    assert (sets + [r])[..|sets|] == sets && (syntaxes + [s])[..|sets|] == syntaxes;
  }

  lemma SetAfterAccepted(b: seq<bool>, p: nat, syntaxes: seq<Syntax>, sets: seq<Rps>, numSets: nat, maxDec: nat,
                         o: (seq<Syntax>, seq<Rps>), q: nat)
    requires p <= |b| && AcceptedList(syntaxes, sets, maxDec)
    requires SetAfter(b, p, syntaxes, sets, numSets, maxDec) == Read(o, q)
    ensures AcceptedList(o.0, o.1, maxDec)
  {
    var s := SyntaxAt(b, p, numSets, sets).value;
    AcceptedSnoc(syntaxes, sets, s, Derive(s, sets), maxDec);
  }

  // ---------- the sixteen slots

  lemma CandidatesSnoc(ref: seq<Pic>, deltaRps: int, idcs: seq<RefIdc>, x: RefIdc)
    ensures Candidates(ref, deltaRps, idcs + [x]) ==
      Candidates(ref, deltaRps, idcs) + [CandidateAt(ref, deltaRps, idcs + [x], |idcs|)]
  {
  }

  /** The candidates the flags keep. */
  function KeptCount(idcs: seq<RefIdc>): nat {
    if idcs == [] then 0 else KeptCount(idcs[..|idcs| - 1]) + if idcs[|idcs| - 1].Dropped? then 0 else 1
  }

  lemma {:induction false} KeptCounted(ref: seq<Pic>, deltaRps: int, idcs: seq<RefIdc>)
    ensures |Keep(Candidates(ref, deltaRps, idcs))| == KeptCount(idcs)
  {
    if idcs != [] {
      var t, x := idcs[..|idcs| - 1], idcs[|idcs| - 1];
      KeptCounted(ref, deltaRps, t);
      assert t + [x] == idcs;
      CandidatesSnoc(ref, deltaRps, t, x);
      KeepLast(Candidates(ref, deltaRps, idcs));
      assert Candidates(ref, deltaRps, idcs)[..|t|] == Candidates(ref, deltaRps, t);
    }
  }

  lemma {:induction false} KeptCountAll(idcs: seq<RefIdc>)
    ensures KeptCount(idcs) <= |idcs|
    ensures KeptCount(idcs) == |idcs| <==> forall i | 0 <= i < |idcs| :: !idcs[i].Dropped?
  {
    if idcs != [] {
      KeptCountAll(idcs[..|idcs| - 1]);
    }
  }

  /** Prediction keeping every candidate adds a picture. */
  lemma KeepingAllGrows(s: Syntax, refs: seq<Rps>)
    requires s.Predicted? && Fits(s, refs) && forall i | 0 <= i < |s.idcs| :: !s.idcs[i].Dropped?
    ensures |Derive(s, refs).pics| == |refs[|refs| - 1 - s.deltaIdxMinus1].pics| + 1
  {
    KeptCountAll(s.idcs);
    KeptCounted(refs[|refs| - 1 - s.deltaIdxMinus1].pics, DeltaRps(s.negative, s.absMinus1), s.idcs);
  }

  /** A set predicted from one of up to 16 pictures fits the 16 slots exactly when that one
      has at most 15 or a candidate is dropped. */
  lemma SlotsExact(ref: seq<Pic>, deltaRps: int, idcs: seq<RefIdc>)
    requires |ref| <= 16 && |idcs| == |ref| + 1
    ensures |Keep(Candidates(ref, deltaRps, idcs))| <= 16 <==>
      |ref| <= 15 || exists i | 0 <= i < |idcs| :: idcs[i].Dropped?
  {
    KeptCounted(ref, deltaRps, idcs);
    KeptCountAll(idcs);
  }

  /** An accepted set is within the picture buffer. */
  lemma {:induction false} AcceptedBound(syntaxes: seq<Syntax>, sets: seq<Rps>, maxDec: nat)
    requires AcceptedList(syntaxes, sets, maxDec)
    ensures forall i | 0 <= i < |sets| :: |sets[i].pics| <= maxDec
    decreases |sets|
  {
    if sets != [] {
      var n := |sets| - 1;
      AcceptedBound(syntaxes[..n], sets[..n], maxDec);
      forall i | 0 <= i < n
        ensures |sets[i].pics| <= maxDec
      {
        assert sets[i] == sets[..n][i];
      }
    }
  }

  /** With a buffer of 16 pictures or more: from 15 coded pictures a set of 16 is predicted
      and accepted, and from that one a set of 17, which is one more than there are slots. */
  lemma SeventeenPictures(maxDec: nat) returns (syntaxes: seq<Syntax>, sets: seq<Rps>, s: Syntax)
    requires maxDec >= 16
    ensures AcceptedList(syntaxes, sets, maxDec) && |sets| == 2 && |sets[1].pics| == 16
    ensures s.Predicted? && Fits(s, sets) && |Derive(s, sets).pics| == 17
    ensures maxDec == 16 ==> !Accepted(Derive(s, sets), maxDec)
  {
    var s0 := Explicit(seq(15, i => Coded(0, true)), []);
    var r0 := Derive(s0, []);
    var s1 := Predicted(0, true, 0, seq(16, i => Used));
    KeepingAllGrows(s1, [r0]);
    syntaxes, sets := [s0, s1], [r0, Derive(s1, [r0])];
    AcceptedSnoc([], [], s0, r0, maxDec);
    AcceptedSnoc([s0], [r0], s1, sets[1], maxDec);
    s := Predicted(0, true, 0, seq(17, i => Used));
    KeepingAllGrows(s, sets);
  }

  /** Whatever sets were accepted, no set predicted from them needs more than the 16 slots. */
  ghost predicate SlotsSuffice(maxDec: nat) {
    forall syntaxes: seq<Syntax>, sets: seq<Rps>, s | AcceptedList(syntaxes, sets, maxDec) && Fits(s, sets) ::
      s.Predicted? ==> |Derive(s, sets).pics| <= 16
  }

  /** That holds exactly for picture buffers below 16; the parser admits 16. */
  lemma SixteenSlots(maxDec: nat)
    ensures SlotsSuffice(maxDec) <==> maxDec <= 15
  {
    if maxDec <= 15 {
      forall syntaxes: seq<Syntax>, sets: seq<Rps>, s | AcceptedList(syntaxes, sets, maxDec)
          && Fits(s, sets) && s.Predicted?
        ensures |Derive(s, sets).pics| <= 16
      {
        AcceptedBound(syntaxes, sets, maxDec);
        SlotsExact(sets[|sets| - 1 - s.deltaIdxMinus1].pics, DeltaRps(s.negative, s.absMinus1), s.idcs);
      }
    } else {
      var syntaxes, sets, s := SeventeenPictures(maxDec);
    }
  }

  lemma WellFormedWeaken(r: Rps, a: int, b: int)
    requires WellFormed(r, a) && a <= b
    ensures WellFormed(r, b)
  {
  }
}
