/** The parser of reference picture sets: it reads bits and fills a set's arrays. */
module RpsParser {
  import opened BitStrings
  import opened ExpGolomb
  import opened BitReader
  import opened RefPicSets
  import opened ReferencePictureSets
  import opened RpsSyntax
  import opened RpsStandard

  datatype Status = Ok | Failed(why: Refusal)

  /** The set object's counts and arrays are those of r. */
  ghost predicate Filled(rps: ReferencePictureSet, r: Rps)
    requires rps.Valid()
    reads rps, rps.deltaPOC, rps.used
  {
    && rps.numNegative == r.numNegative && rps.numPositive == r.numPositive
    && rps.numPics == |r.pics| && rps.Holds(r.pics)
  }

  // ---------- the bits the reader needs

  /** A code word may start at p: the guard words are behind it. */
  predicate CodeAhead(b: seq<bool>, p: nat) {
    p + 64 < |b|
  }

  /** n differences and flags: each starts before the guard words. */
  predicate CodedAhead(b: seq<bool>, p: nat, n: nat) {
    && p <= |b|
    && (n > 0 ==>
          && CodedAhead(b, p, n - 1)
          && (CodedListAt(b, p, n - 1).Read? ==> CodeAhead(b, CodedListAt(b, p, n - 1).pos)))
  }

  predicate PicturesAhead(b: seq<bool>, p: nat, n: nat, m: nat) {
    CodedAhead(b, p, n) && (CodedListAt(b, p, n).Read? ==> CodedAhead(b, CodedListAt(b, p, n).pos, m))
  }

  predicate ExplicitAhead(b: seq<bool>, p: nat) {
    && CodeAhead(b, p)
    && match UeAt(b, p)
       case Refused(_) => true
       case Read(n, q0) =>
         && CodeAhead(b, q0)
         && match UeAt(b, q0)
            case Refused(_) => true
            case Read(m, q1) => n + m < 16 ==> PicturesAhead(b, q1, n, m)
  }

  predicate FlagAhead(b: seq<bool>, p: nat) {
    p <= |b| && IdcAt(b, p).Read?
  }

  /** The flags of n candidates are there and keep no more than there are slots. */
  predicate FlagsAhead(b: seq<bool>, p: nat, n: nat) {
    p <= |b| && IdcsAt(b, p, n).Read? && KeptCount(IdcsAt(b, p, n).value) <= MAX_NUM_REF_PICS
  }

  predicate StepAhead(b: seq<bool>, p: nat, ref: seq<Pic>) {
    CodeAhead(b, p + 1) && (UeAt(b, p + 1).Read? ==> FlagsAhead(b, UeAt(b, p + 1).pos, |ref| + 1))
  }

  predicate PredictedAhead(b: seq<bool>, p: nat, numSets: nat, refs: seq<Rps>) {
    && p <= |b| && (|refs| == numSets ==> CodeAhead(b, p))
    && match IndexAt(b, p, |refs| == numSets)
       case Refused(_) => true
       case Read(deltaIdx, q) => deltaIdx < |refs| ==> StepAhead(b, q, refs[|refs| - 1 - deltaIdx].pics)
  }

  /** The bits of set |refs| of numSets; a set predicted keeps no more candidates than there
      are slots. */
  predicate SetAhead(b: seq<bool>, p: nat, numSets: nat, refs: seq<Rps>) {
    if refs == [] then ExplicitAhead(b, p) else
      p < |b| && if b[p] then PredictedAhead(b, p + 1, numSets, refs) else ExplicitAhead(b, p + 1)
  }

  /** The first n of numSets sets, as far as they are accepted. */
  predicate SetsAhead(b: seq<bool>, p: nat, n: nat, numSets: nat, maxDec: nat) {
    && p <= |b|
    && (n > 0 ==>
          && SetsAhead(b, p, n - 1, numSets, maxDec)
          && match SetsAt(b, p, n - 1, numSets, maxDec)
             case Refused(_) => true
             case Read((_, sets), q) => SetAhead(b, q, numSets, sets))
  }

  lemma {:induction false} CodedAheadOf(b: seq<bool>, p: nat, n: nat, k: nat)
    requires CodedAhead(b, p, n) && k < n
    ensures CodedListAt(b, p, k).Read? ==> CodeAhead(b, CodedListAt(b, p, k).pos)
  {
    if k < n - 1 {
      CodedAheadOf(b, p, n - 1, k);
    }
  }

  lemma {:induction false} FlagsAheadOf(b: seq<bool>, p: nat, n: nat, k: nat)
    requires FlagsAhead(b, p, n) && k < n
    ensures IdcsAt(b, p, k).Read? && IdcAt(b, IdcsAt(b, p, k).pos).Read? && FlagsAhead(b, p, k + 1)
  {
    if k < n - 1 {
      var t := IdcsAt(b, p, n - 1).value;
      assert IdcsAt(b, p, n).value[..n - 1] == t;
      FlagsAheadOf(b, p, n - 1, k);
    }
  }

  lemma {:induction false} SetsAheadOf(b: seq<bool>, p: nat, n: nat, numSets: nat, maxDec: nat, k: nat,
                                       syntaxes: seq<Syntax>, sets: seq<Rps>, q: nat)
    requires SetsAhead(b, p, n, numSets, maxDec) && k < n
    requires SetsAt(b, p, k, numSets, maxDec) == Read((syntaxes, sets), q)
    ensures SetAhead(b, q, numSets, sets)
  {
    if k < n - 1 {
      SetsAheadBefore(b, p, n, numSets, maxDec);
      SetsAheadOf(b, p, n - 1, numSets, maxDec, k, syntaxes, sets, q);
    }
  }

  lemma SetsAheadBefore(b: seq<bool>, p: nat, n: nat, numSets: nat, maxDec: nat)
    requires SetsAhead(b, p, n, numSets, maxDec) && n > 0
    ensures SetsAhead(b, p, n - 1, numSets, maxDec)
  {
  }

  // ---------- they are there for every list accepted

  lemma {:induction false} CodedAheadWhenRead(b: seq<bool>, p: nat, n: nat)
    requires p <= |b| && CodedListAt(b, p, n).Read? && CodedListAt(b, p, n).pos + 64 <= |b|
    ensures CodedAhead(b, p, n)
  {
    if n > 0 {
      CodedAheadWhenRead(b, p, n - 1);
    }
  }

  lemma ExplicitAheadWhenRead(b: seq<bool>, p: nat)
    requires p <= |b| && ExplicitAt(b, p).Read? && ExplicitAt(b, p).pos + 64 <= |b|
    ensures ExplicitAhead(b, p)
  {
    var n := UeAt(b, p);
    var m := UeAt(b, n.pos);
    var negatives := CodedListAt(b, m.pos, n.value);
    CodedAheadWhenRead(b, m.pos, n.value);
    CodedAheadWhenRead(b, negatives.pos, m.value);
  }

  lemma StepAheadWhenRead(b: seq<bool>, p: nat, deltaIdx: nat, refs: seq<Rps>)
    requires p <= |b| && deltaIdx < |refs| && StepAt(b, p, deltaIdx, refs).Read?
    requires StepAt(b, p, deltaIdx, refs).pos + 64 <= |b|
    requires |Derive(StepAt(b, p, deltaIdx, refs).value, refs).pics| <= MAX_NUM_REF_PICS
    ensures StepAhead(b, p, refs[|refs| - 1 - deltaIdx].pics)
  {
    var s := StepAt(b, p, deltaIdx, refs).value;
    KeptCounted(refs[|refs| - 1 - deltaIdx].pics, DeltaRps(s.negative, s.absMinus1), s.idcs);
  }

  /** What is read, and that it has a slot for every picture and two words behind it. */
  ghost predicate LeavesWords(b: seq<bool>, o: Outcome<Syntax>, refs: seq<Rps>) {
    o.Read? && Fits(o.value, refs) && o.pos + 64 <= |b| && |Derive(o.value, refs).pics| <= MAX_NUM_REF_PICS
  }

  lemma PredictedAheadWhenRead(b: seq<bool>, p: nat, numSets: nat, refs: seq<Rps>)
    requires |refs| > 0 && p <= |b| && LeavesWords(b, PredictedAt(b, p, numSets, refs), refs)
    ensures PredictedAhead(b, p, numSets, refs)
  {
    var deltaIdx := IndexAt(b, p, |refs| == numSets);
    StepAheadWhenRead(b, deltaIdx.pos, deltaIdx.value, refs);
  }

  lemma SetAheadWhenRead(b: seq<bool>, p: nat, numSets: nat, refs: seq<Rps>)
    requires p <= |b| && LeavesWords(b, SyntaxAt(b, p, numSets, refs), refs)
    ensures SetAhead(b, p, numSets, refs)
  {
    if |refs| == 0 {
      ExplicitAheadWhenRead(b, p);
    } else {
      FlaggedAheadWhenRead(b, p, numSets, refs);
    }
  }

  lemma FlaggedAheadWhenRead(b: seq<bool>, p: nat, numSets: nat, refs: seq<Rps>)
    requires |refs| > 0 && p <= |b| && LeavesWords(b, SyntaxAt(b, p, numSets, refs), refs)
    ensures p < |b| && if b[p] then PredictedAhead(b, p + 1, numSets, refs) else ExplicitAhead(b, p + 1)
  {
    if b[p] {
      PredictedAheadWhenRead(b, p + 1, numSets, refs);
    } else {
      ExplicitAheadWhenRead(b, p + 1);
    }
  }

  /** A list accepted for a buffer of up to 16 pictures has all the reader needs when two
      words are left behind it: no slot is missing, and no code word starts in those words. */
  lemma {:induction false} SetsAheadWhenRead(b: seq<bool>, p: nat, n: nat, numSets: nat, maxDec: nat)
    requires p <= |b| && SetsAt(b, p, n, numSets, maxDec).Read? && maxDec <= MAX_NUM_REF_PICS
    requires SetsAt(b, p, n, numSets, maxDec).pos + 64 <= |b|
    ensures SetsAhead(b, p, n, numSets, maxDec)
  {
    if n > 0 {
      var o := SetsAt(b, p, n, numSets, maxDec);
      var before, m := SetsBefore(b, p, n, numSets, maxDec, o.value, o.pos);
      SetsAheadWhenRead(b, p, n - 1, numSets, maxDec);
      NextAheadWhenRead(b, m, before.0, before.1, numSets, maxDec);
    }
  }

  lemma NextAheadWhenRead(b: seq<bool>, p: nat, syntaxes: seq<Syntax>, sets: seq<Rps>, numSets: nat, maxDec: nat)
    requires p <= |b| && SetAfter(b, p, syntaxes, sets, numSets, maxDec).Read? && maxDec <= MAX_NUM_REF_PICS
    requires SetAfter(b, p, syntaxes, sets, numSets, maxDec).pos + 64 <= |b|
    ensures SetAhead(b, p, numSets, sets)
  {
    SetAheadWhenRead(b, p, numSets, sets);
  }

  // ---------- the parser

  /** One ue(v), or an exception. */
  method ReadUe(r: AVCBaseBitstream) returns (status: Status, v: nat)
    requires r.Valid() && CodeAhead(r.bits, r.Pos())
    modifies r
    ensures r.Valid()
    ensures match status
            case Ok => UeAt(r.bits, old(r.Pos())) == Read(v, r.Pos()) && r.Pos() <= old(r.Pos()) + 63
            case Failed(why) => UeAt(r.bits, old(r.Pos())) == Refused(why)
  {
    var ok;
    ok, v := r.GetVLCElementU();
    status := if ok then Ok else Failed(BadCode);
  }

  method ReadFlag(r: AVCBaseBitstream) returns (flag: bool)
    requires r.Valid() && r.Pos() < |r.bits|
    modifies r
    ensures r.Valid() && r.Pos() == old(r.Pos()) + 1
    ensures BitAt(r.bits, old(r.Pos())) == Read(flag, r.Pos())
  {
    var bit := r.Get1Bit();
    flag := bit == 1;
  }

  method ReadIdc(r: AVCBaseBitstream) returns (idc: RefIdc)
    requires r.Valid() && FlagAhead(r.bits, r.Pos())
    modifies r
    ensures r.Valid()
    ensures IdcAt(r.bits, old(r.Pos())) == Read(idc, r.Pos())
  {
    var used := ReadFlag(r);
    if used {
      return Used;
    }
    var useDelta := ReadFlag(r);
    idc := if useDelta then DeltaOnly else Dropped;
  }

  /** The candidates kept so far, with one more considered. */
  lemma KeptNext(ref: seq<Pic>, deltaRps: int, idcs: seq<RefIdc>, x: RefIdc)
    ensures var c := CandidateAt(ref, deltaRps, idcs + [x], |idcs|);
      var kept := Keep(Candidates(ref, deltaRps, idcs));
      && Keep(Candidates(ref, deltaRps, idcs + [x])) == (if x.Dropped? then kept else kept + [c.pic])
      && |Negatives(kept + [c.pic])| == |Negatives(kept)| + if c.pic.delta < 0 then 1 else 0
  {
    var c := CandidateAt(ref, deltaRps, idcs + [x], |idcs|);
    var cs := Candidates(ref, deltaRps, idcs);
    CandidatesSnoc(ref, deltaRps, idcs, x);
    KeepLast(cs + [c]);
    assert (cs + [c])[..|cs|] == cs;
    var kept := Keep(cs);
    SignLast(kept + [c.pic]);
    assert (kept + [c.pic])[..|kept|] == kept;
  }

  /** One candidate's flags; when it is kept it fills slot k, which is there. */
  method ReadCandidate(r: AVCBaseBitstream, rps: ReferencePictureSet, delta: int, k: nat, ghost kept: seq<Pic>)
    returns (idc: RefIdc)
    requires r.Valid() && rps.Valid() && |kept| == k && rps.Holds(kept) && FlagAhead(r.bits, r.Pos())
    requires IdcAt(r.bits, r.Pos()).value.Dropped? || k < MAX_NUM_REF_PICS
    modifies r, rps.deltaPOC, rps.used
    ensures r.Valid() && IdcAt(r.bits, old(r.Pos())) == Read(idc, r.Pos())
    ensures rps.Holds(if idc.Dropped? then kept else kept + [Pic(delta, idc.Used?)])
  {
    idc := ReadIdc(r);
    if !idc.Dropped? {
      rps.SetSlot(k, Pic(delta, idc.Used?));
    }
  }

  /** idcs are the flags read from p on, kept the candidates they keep, counted by sign. */
  ghost predicate KeptSoFar(b: seq<bool>, p: nat, q: nat, ref: seq<Pic>, deltaRps: int,
                            idcs: seq<RefIdc>, kept: seq<Pic>, k0: nat, k1: nat)
    requires p <= |b|
  {
    && IdcsAt(b, p, |idcs|) == Read(idcs, q) && kept == Keep(Candidates(ref, deltaRps, idcs))
    && k0 == |Negatives(kept)| && k0 + k1 == |kept| <= |idcs|
  }

  lemma KeptSoFarNext(b: seq<bool>, p: nat, q: nat, ref: seq<Pic>, deltaRps: int, idcs: seq<RefIdc>, kept: seq<Pic>,
                      k0: nat, k1: nat, x: RefIdc, q': nat)
    requires p <= |b| && KeptSoFar(b, p, q, ref, deltaRps, idcs, kept, k0, k1) && IdcAt(b, q) == Read(x, q')
    ensures var pic := CandidateAt(ref, deltaRps, idcs + [x], |idcs|).pic;
      if x.Dropped? then KeptSoFar(b, p, q', ref, deltaRps, idcs + [x], kept, k0, k1)
      else KeptSoFar(b, p, q', ref, deltaRps, idcs + [x], kept + [pic],
                     if pic.delta < 0 then k0 + 1 else k0, if pic.delta < 0 then k1 else k1 + 1)
  {
    KeptNext(ref, deltaRps, idcs, x);
    IdcsNext(b, p, idcs, q, x, q');
  }

  lemma IdcsNext(b: seq<bool>, p: nat, idcs: seq<RefIdc>, q: nat, x: RefIdc, q': nat)
    requires p <= |b| && IdcsAt(b, p, |idcs|) == Read(idcs, q) && IdcAt(b, q) == Read(x, q')
    ensures IdcsAt(b, p, |idcs + [x]|) == Read(idcs + [x], q')
  {
  }

  lemma KeptNone(b: seq<bool>, p: nat, ref: seq<Pic>, deltaRps: int)
    requires p <= |b|
    ensures KeptSoFar(b, p, p, ref, deltaRps, [], [], 0, 0)
  {
    assert Candidates(ref, deltaRps, []) == [];
  }

  /** A candidate kept next has a slot. */
  lemma SlotThere(b: seq<bool>, p: nat, q: nat, ref: seq<Pic>, deltaRps: int, idcs: seq<RefIdc>)
    requires FlagsAhead(b, p, |idcs| + 1) && IdcsAt(b, p, |idcs|) == Read(idcs, q)
    ensures FlagAhead(b, q)
    ensures IdcAt(b, q).value.Dropped? || |Keep(Candidates(ref, deltaRps, idcs))| < MAX_NUM_REF_PICS
  {
    var x := IdcAt(b, q).value;
    assert IdcsAt(b, p, |idcs| + 1).value == idcs + [x] && (idcs + [x])[..|idcs|] == idcs;
    KeptCounted(ref, deltaRps, idcs);
  }

  /** The next candidate, counted when it is kept. */
  method CountCandidate(r: AVCBaseBitstream, rps: ReferencePictureSet, ref: seq<Pic>, deltaRps: int, j: nat,
                        neg: nat, pos: nat, ghost p: nat, ghost was: seq<RefIdc>, ghost held: seq<Pic>)
    returns (k0: nat, k1: nat, ghost idcs: seq<RefIdc>, ghost kept: seq<Pic>)
    requires r.Valid() && rps.Valid() && |was| == j && FlagsAhead(r.bits, p, j + 1)
    requires KeptSoFar(r.bits, p, r.Pos(), ref, deltaRps, was, held, neg, pos) && rps.Holds(held)
    modifies r, rps.deltaPOC, rps.used
    ensures r.Valid() && |idcs| == j + 1
    ensures KeptSoFar(r.bits, p, r.Pos(), ref, deltaRps, idcs, kept, k0, k1) && rps.Holds(kept)
  {
    var delta := Int32(deltaRps + if j < |ref| then ref[j].delta else 0);
    SlotThere(r.bits, p, r.Pos(), ref, deltaRps, was);
    var idc := ReadCandidate(r, rps, delta, neg + pos, held);
    KeptSoFarNext(r.bits, p, old(r.Pos()), ref, deltaRps, was, held, neg, pos, idc, r.Pos());
    k0, k1, idcs, kept := neg, pos, was + [idc], if idc.Dropped? then held else held + [Pic(delta, idc.Used?)];
    if !idc.Dropped? {
      if delta < 0 {
        k0 := k0 + 1;
      } else {
        k1 := k1 + 1;
      }
    }
  }

  /** The candidates in turn; the kept ones fill the slots and are counted by sign. */
  method ReadCandidates(r: AVCBaseBitstream, rps: ReferencePictureSet, ref: seq<Pic>, deltaRps: int)
    returns (k0: nat, k1: nat, ghost idcs: seq<RefIdc>, ghost kept: seq<Pic>)
    requires r.Valid() && rps.Valid() && FlagsAhead(r.bits, r.Pos(), |ref| + 1)
    modifies r, rps.deltaPOC, rps.used
    ensures r.Valid() && IdcsAt(r.bits, old(r.Pos()), |ref| + 1) == Read(idcs, r.Pos())
    ensures kept == Keep(Candidates(ref, deltaRps, idcs))
    ensures rps.Holds(kept) && k0 == |Negatives(kept)| && k0 + k1 == |kept|
  {
    ghost var b, p := r.bits, r.Pos();
    k0, k1, idcs, kept := 0, 0, [], [];
    var j := 0;
    KeptNone(b, p, ref, deltaRps);
    while j <= |ref|
      invariant 0 <= j == |idcs| <= |ref| + 1 && r.Valid()
      invariant KeptSoFar(b, p, r.Pos(), ref, deltaRps, idcs, kept, k0, k1) && rps.Holds(kept)
    {
      FlagsAheadOf(b, p, |ref| + 1, j);
      k0, k1, idcs, kept := CountCandidate(r, rps, ref, deltaRps, j, k0, k1, p, idcs, kept);
      j := j + 1;
    }
  }

  /** The candidates, the counts and the sort. */
  method PredictFrom(r: AVCBaseBitstream, rps: ReferencePictureSet, ref: seq<Pic>, deltaRps: int)
    returns (ghost idcs: seq<RefIdc>)
    requires r.Valid() && rps.Valid() && FlagsAhead(r.bits, r.Pos(), |ref| + 1)
    modifies r, rps, rps.deltaPOC, rps.used
    ensures r.Valid() && IdcsAt(r.bits, old(r.Pos()), |ref| + 1) == Read(idcs, r.Pos())
    ensures Filled(rps, FromKept(Keep(Candidates(ref, deltaRps, idcs))))
    ensures rps.interPrediction == old(rps.interPrediction)
  {
    var k0, k1;
    ghost var kept;
    k0, k1, idcs, kept := ReadCandidates(r, rps, ref, deltaRps);
    rps.numPics := k0 + k1;
    rps.numNegative := k0;
    rps.numPositive := k1;
    rps.SortDeltaPOC(kept);
  }

  lemma StepIs(b: seq<bool>, p: nat, deltaIdx: nat, refs: seq<Rps>, negative: bool, q: nat, absMinus1: nat,
               idcs: seq<RefIdc>, q': nat)
    requires deltaIdx < |refs| && p + 1 <= |b| && q <= |b| && BitAt(b, p) == Read(negative, p + 1)
    requires UeAt(b, p + 1) == Read(absMinus1, q)
    requires IdcsAt(b, q, |refs[|refs| - 1 - deltaIdx].pics| + 1) == Read(idcs, q')
    ensures StepAt(b, p, deltaIdx, refs) == Read(Predicted(deltaIdx, negative, absMinus1, idcs), q')
  {
  }

  lemma StepDerives(deltaIdx: nat, refs: seq<Rps>, negative: bool, absMinus1: nat, idcs: seq<RefIdc>)
    requires deltaIdx < |refs| && |idcs| == |refs[|refs| - 1 - deltaIdx].pics| + 1
    ensures var s := Predicted(deltaIdx, negative, absMinus1, idcs);
      && Fits(s, refs)
      && Derive(s, refs)
        == FromKept(Keep(Candidates(refs[|refs| - 1 - deltaIdx].pics, DeltaRps(negative, absMinus1), idcs)))
  {
  }

  /** A predicted set, from the sign of the step on. */
  method ReadStep(r: AVCBaseBitstream, rps: ReferencePictureSet, deltaIdx: nat, refs: seq<Rps>)
    returns (status: Status, ghost s: Syntax)
    requires r.Valid() && rps.Valid() && deltaIdx < |refs|
    requires StepAhead(r.bits, r.Pos(), refs[|refs| - 1 - deltaIdx].pics)
    modifies r, rps, rps.deltaPOC, rps.used
    ensures r.Valid() && rps.interPrediction == old(rps.interPrediction)
    ensures match status
            case Ok =>
              StepAt(r.bits, old(r.Pos()), deltaIdx, refs) == Read(s, r.Pos()) && Filled(rps, Derive(s, refs))
            case Failed(why) => StepAt(r.bits, old(r.Pos()), deltaIdx, refs) == Refused(why)
  {
    var ref := refs[|refs| - 1 - deltaIdx].pics;
    var negative := ReadFlag(r);
    var absMinus1;
    status, absMinus1 := ReadUe(r);
    s := Predicted(deltaIdx, negative, 0, []);
    if status.Ok? {
      ghost var q := r.Pos();
      ghost var idcs := PredictFrom(r, rps, ref, DeltaRps(negative, absMinus1));
      StepIs(r.bits, old(r.Pos()), deltaIdx, refs, negative, q, absMinus1, idcs, r.Pos());
      StepDerives(deltaIdx, refs, negative, absMinus1, idcs);
      s := Predicted(deltaIdx, negative, absMinus1, idcs);
    }
  }

  method ReadCoded(r: AVCBaseBitstream) returns (status: Status, x: Coded)
    requires r.Valid() && CodeAhead(r.bits, r.Pos())
    modifies r
    ensures r.Valid()
    ensures match status
            case Ok => CodedAt(r.bits, old(r.Pos())) == Read(x, r.Pos())
            case Failed(why) => CodedAt(r.bits, old(r.Pos())) == Refused(why)
  {
    var delta, used := 0, false;
    status, delta := ReadUe(r);
    if status.Ok? {
      used := ReadFlag(r);
    }
    x := Coded(delta, used);
  }

  lemma ChainNext(coded: seq<Coded>, x: Coded, down: bool)
    ensures var before := Chain(coded, down);
      Chain(coded + [x], down) ==
        before + [Pic(Step(if before == [] then 0 else before[|before| - 1].delta, x, down), x.used)]
  {
    assert (coded + [x])[..|coded|] == coded;
  }

  lemma {:induction false} RefusedLonger(b: seq<bool>, p: nat, n: nat, m: nat, why: Refusal)
    requires p <= |b| && n <= m && CodedListAt(b, p, n) == Refused(why)
    ensures CodedListAt(b, p, m) == Refused(why)
  {
    if n < m {
      RefusedLonger(b, p, n, m - 1, why);
    }
  }

  /** The last of a chain, where the next difference starts. */
  function LastOf(chain: seq<Pic>): int {
    if chain == [] then 0 else chain[|chain| - 1].delta
  }

  /** coded was read from p on; it gives chain. */
  ghost predicate ChainSoFar(b: seq<bool>, p: nat, q: nat, coded: seq<Coded>, chain: seq<Pic>, down: bool)
    requires p <= |b|
  {
    CodedListAt(b, p, |coded|) == Read(coded, q) && chain == Chain(coded, down)
  }

  lemma ChainNone(b: seq<bool>, p: nat, down: bool, held: seq<Pic>)
    requires p <= |b|
    ensures ChainSoFar(b, p, p, [], Chain([], down), down) && LastOf(Chain([], down)) == 0
    ensures held + Chain([], down) == held
  {
  }

  /** One difference, put after the ones held. */
  method ReadDifference(r: AVCBaseBitstream, rps: ReferencePictureSet, slot: nat, prev: int, down: bool,
                        ghost p: nat, ghost n: nat, ghost was: seq<Coded>, ghost chain: seq<Pic>, ghost held: seq<Pic>)
    returns (status: Status, poc: int, ghost coded: seq<Coded>)
    requires r.Valid() && rps.Valid() && CodeAhead(r.bits, r.Pos()) && slot == |held + chain| < 16
    requires rps.Holds(held + chain)
    requires |was| < n && p <= |r.bits| && ChainSoFar(r.bits, p, r.Pos(), was, chain, down) && prev == LastOf(chain)
    modifies r, rps.deltaPOC, rps.used
    ensures r.Valid() && |coded| == |was| + 1
    ensures match status
            case Ok =>
              && rps.Holds(held + Chain(coded, down))
              && ChainSoFar(r.bits, p, r.Pos(), coded, Chain(coded, down), down) && poc == LastOf(Chain(coded, down))
            case Failed(why) => CodedListAt(r.bits, p, n) == Refused(why)
  {
    var x;
    status, x := ReadCoded(r);
    poc := Step(prev, x, down);
    coded := was + [x];
    ChainNext(was, x, down);
    if status.Ok? {
      rps.SetSlot(slot, Pic(poc, x.used));
      assert held + chain + [Pic(poc, x.used)] == held + (chain + [Pic(poc, x.used)]);
    } else {
      RefusedLonger(r.bits, p, |was| + 1, n, status.why);
    }
  }

  /** From slot from on the arrays hold the sums of the coded differences, in 32 bits, with the
      coded flags. */
  ghost predicate HoldsSums(rps: ReferencePictureSet, from: nat, coded: seq<Coded>, down: bool)
    requires rps.Valid()
    reads rps, rps.deltaPOC, rps.used
  {
    && from + |coded| <= MAX_NUM_REF_PICS
    && forall i | 0 <= i < |coded| ::
         && rps.deltaPOC[from + i] == Int32(Away(Distance(coded[..i + 1]), down))
         && rps.used[from + i] == coded[i].used
  }

  lemma ChainHoldsSums(rps: ReferencePictureSet, held: seq<Pic>, coded: seq<Coded>, down: bool, rest: seq<Pic>)
    requires rps.Valid() && rps.Holds(held + Chain(coded, down) + rest)
    ensures HoldsSums(rps, |held|, coded, down)
  {
    var all := held + Chain(coded, down) + rest;
    forall i | 0 <= i < |coded|
      ensures rps.deltaPOC[|held| + i] == Int32(Away(Distance(coded[..i + 1]), down))
      ensures rps.used[|held| + i] == coded[i].used
    {
      ChainSums(coded, down, i);
      assert rps.At(|held| + i) == all[|held| + i] == Chain(coded, down)[i];
    }
  }

  /** A loop over coded differences: they follow the pictures already held. */
  method ReadDifferences(r: AVCBaseBitstream, rps: ReferencePictureSet, from: nat, n: nat, down: bool,
    ghost held: seq<Pic>)
    returns (status: Status, ghost coded: seq<Coded>)
    requires r.Valid() && rps.Valid() && |held| == from && from + n < 16 && rps.Holds(held)
    requires CodedAhead(r.bits, r.Pos(), n)
    modifies r, rps.deltaPOC, rps.used
    ensures r.Valid()
    ensures match status
            case Ok =>
              && CodedListAt(r.bits, old(r.Pos()), n) == Read(coded, r.Pos())
              && |coded| == n && rps.Holds(held + Chain(coded, down))
            case Failed(why) => CodedListAt(r.bits, old(r.Pos()), n) == Refused(why)
    ensures status.Ok? ==> HoldsSums(rps, from, coded, down)
  {
    ghost var b, p := r.bits, r.Pos();
    status, coded := Ok, [];
    var prev, j := 0, from;
    ChainNone(b, p, down, held);
    while j < from + n
      invariant status == Ok && 0 <= j == from + |coded| <= from + n && r.Valid()
      invariant ChainSoFar(b, p, r.Pos(), coded, Chain(coded, down), down) && prev == LastOf(Chain(coded, down))
      invariant rps.Holds(held + Chain(coded, down))
    {
      CodedAheadOf(b, p, n, |coded|);
      status, prev, coded := ReadDifference(r, rps, j, prev, down, p, n, coded, Chain(coded, down), held);
      if status.Failed? {
        return;
      }
      j := j + 1;
    }
    assert held + Chain(coded, down) + [] == held + Chain(coded, down);
    ChainHoldsSums(rps, held, coded, down, []);
  }

  /** An explicitly coded set. */
  method ReadExplicit(r: AVCBaseBitstream, rps: ReferencePictureSet) returns (status: Status, ghost s: Syntax)
    requires r.Valid() && rps.Valid() && ExplicitAhead(r.bits, r.Pos())
    modifies r, rps, rps.deltaPOC, rps.used
    ensures r.Valid() && rps.interPrediction == old(rps.interPrediction)
    ensures match status
            case Ok =>
              ExplicitAt(r.bits, old(r.Pos())) == Read(s, r.Pos()) && Filled(rps, Derive(s, []))
            case Failed(why) => ExplicitAt(r.bits, old(r.Pos())) == Refused(why)
  {
    var n, m := 0, 0;
    s := Explicit([], []);
    status, n := ReadUe(r);
    if status.Failed? {
      return;
    }
    rps.numNegative := n;
    status, m := ReadUe(r);
    if status.Failed? {
      return;
    }
    rps.numPositive := m;
    if n >= MAX_NUM_REF_PICS || m >= MAX_NUM_REF_PICS || m + n >= MAX_NUM_REF_PICS {
      return Failed(TooManyPictures), s;
    }
    status, s := ReadPictures(r, rps, n, m);
  }

  method ReadPictures(r: AVCBaseBitstream, rps: ReferencePictureSet, n: nat, m: nat) returns (status: Status,
    ghost s: Syntax)
    requires r.Valid() && rps.Valid() && n + m < 16 && PicturesAhead(r.bits, r.Pos(), n, m)
    requires rps.numNegative == n && rps.numPositive == m
    modifies r, rps, rps.deltaPOC, rps.used
    ensures r.Valid() && rps.interPrediction == old(rps.interPrediction)
    ensures match PicturesAt(r.bits, old(r.Pos()), n, m)
            case Refused(why) => status == Failed(why)
            case Read(e, q) =>
              status == Ok && s == e && q == r.Pos() && Filled(rps, Derive(s, []))
  {
    ghost var negatives, positives := [], [];
    s := Explicit([], []);
    status, negatives := ReadDifferences(r, rps, 0, n, true, []);
    if status.Failed? {
      return;
    }
    assert [] + Chain(negatives, true) == Chain(negatives, true);
    status, positives := ReadDifferences(r, rps, n, m, false, Chain(negatives, true));
    if status.Failed? {
      return;
    }
    rps.numPics := n + m;
    s := Explicit(negatives, positives);
  }

  method ReadPredicted(r: AVCBaseBitstream, rps: ReferencePictureSet, numSets: nat, refs: seq<Rps>)
    returns (status: Status, ghost s: Syntax)
    requires r.Valid() && rps.Valid() && refs != [] && PredictedAhead(r.bits, r.Pos(), numSets, refs)
    modifies r, rps, rps.deltaPOC, rps.used
    ensures r.Valid() && rps.interPrediction == old(rps.interPrediction)
    ensures match PredictedAt(r.bits, old(r.Pos()), numSets, refs)
            case Refused(why) => status == Failed(why)
            case Read(e, q) =>
              status == Ok && s == e && q == r.Pos() && Filled(rps, Derive(s, refs))
  {
    var deltaIdx := 0;
    status := Ok;
    s := Explicit([], []);
    if |refs| == numSets {
      status, deltaIdx := ReadUe(r);
    }
    if status.Failed? {
      return;
    }
    if deltaIdx > |refs| - 1 {
      return Failed(BadIndex), s;
    }
    status, s := ReadStep(r, rps, deltaIdx, refs);
  }

  /** The counts and the arrays are the coded ones, negative pictures first. */
  ghost predicate HoldsCoded(rps: ReferencePictureSet, negatives: seq<Coded>, positives: seq<Coded>)
    requires rps.Valid()
    reads rps, rps.deltaPOC, rps.used
  {
    && rps.numNegative == |negatives| && rps.numPositive == |positives| && rps.numPics == |negatives| + |positives|
    && HoldsSums(rps, 0, negatives, true) && HoldsSums(rps, |negatives|, positives, false)
  }

  lemma DerivedHoldsCoded(rps: ReferencePictureSet, s: Syntax, refs: seq<Rps>)
    requires rps.Valid() && s.Explicit? && Filled(rps, Derive(s, refs))
    ensures HoldsCoded(rps, s.negatives, s.positives)
  {
    var n, p := Chain(s.negatives, true), Chain(s.positives, false);
    assert [] + n + p == n + p == n + p + [];
    ChainHoldsSums(rps, [], s.negatives, true, p);
    ChainHoldsSums(rps, n, s.positives, false, []);
  }

  /** One set: set |refs| of numSets, predicted from the earlier ones or coded explicitly. */
  method ParseShortTermRefPicSet(r: AVCBaseBitstream, rps: ReferencePictureSet, numSets: nat, refs: seq<Rps>)
    returns (status: Status, ghost s: Syntax)
    requires r.Valid() && rps.Valid() && SetAhead(r.bits, r.Pos(), numSets, refs)
    modifies r, rps, rps.deltaPOC, rps.used
    ensures r.Valid()
    ensures match SyntaxAt(r.bits, old(r.Pos()), numSets, refs)
            case Refused(why) => status == Failed(why)
            case Read(e, q) =>
              && status == Ok && s == e && q == r.Pos() && Filled(rps, Derive(s, refs))
              && rps.interPrediction == Derive(s, refs).inter
    ensures status.Ok? && s.Explicit? ==> HoldsCoded(rps, s.negatives, s.positives)
  {
    var flag := false;
    if |refs| > 0 {
      flag := ReadFlag(r);
    }
    rps.interPrediction := flag;
    if flag {
      status, s := ReadPredicted(r, rps, numSets, refs);
    } else {
      status, s := ReadExplicit(r, rps);
    }
    if status.Ok? && s.Explicit? {
      DerivedHoldsCoded(rps, s, refs);
    }
  }

  /** The object's counts and slots as a value. */
  method Snapshot(rps: ReferencePictureSet, ghost r: Rps) returns (value: Rps)
    requires rps.Valid() && Filled(rps, r) && rps.interPrediction == r.inter
    ensures value == r
  {
    var pics := [];
    for i := 0 to rps.numPics
      invariant pics == r.pics[..i]
    {
      pics := pics + [rps.At(i)];
    }
    assert r.pics[..|r.pics|] == r.pics;
    value := Rps(rps.interPrediction, rps.numNegative, rps.numPositive, pics);
  }

  lemma {:induction false} SetsRefused(b: seq<bool>, p: nat, n: nat, numSets: nat, maxDec: nat, why: Refusal)
    requires p <= |b| && n <= numSets && SetsAt(b, p, n, numSets, maxDec) == Refused(why)
    ensures SetsAt(b, p, numSets, numSets, maxDec) == Refused(why)
    decreases numSets - n
  {
    if n < numSets {
      assert SetsAt(b, p, n + 1, numSets, maxDec) == Refused(why);
      SetsRefused(b, p, n + 1, numSets, maxDec, why);
    }
  }

  /** What a loop over sets returns is what the outcome says. */
  ghost predicate SetsCameOut(o: Outcome<(seq<Syntax>, seq<Rps>)>, status: Status, syntaxes: seq<Syntax>,
    sets: seq<Rps>, q: int)
  {
    match o
    case Refused(why) => status == Failed(why)
    case Read(v, p) => status == Ok && (syntaxes, sets) == v && q == p
  }

  lemma SetsNext(b: seq<bool>, p: nat, n: nat, numSets: nat, maxDec: nat, syntaxes: seq<Syntax>, sets: seq<Rps>, q: nat)
    requires p <= |b| && n < numSets && q <= |b| && SetsAt(b, p, n, numSets, maxDec) == Read((syntaxes, sets), q)
    ensures SetsAt(b, p, n + 1, numSets, maxDec) == SetAfter(b, q, syntaxes, sets, numSets, maxDec)
    ensures SetAfter(b, q, syntaxes, sets, numSets, maxDec).Refused? ==>
      SetsAt(b, p, numSets, numSets, maxDec) == SetAfter(b, q, syntaxes, sets, numSets, maxDec)
  {
    var o := SetAfter(b, q, syntaxes, sets, numSets, maxDec);
    assert SetsAt(b, p, n + 1, numSets, maxDec) == o;
    if o.Refused? {
      SetsRefused(b, p, n + 1, numSets, maxDec, o.why);
    }
  }

  /** One round of the loop: a set, then the check against the picture buffer. */
  method ParseNextSet(r: AVCBaseBitstream, numSets: nat, maxDec: nat, refs: seq<Rps>, ghost was: seq<Syntax>)
    returns (status: Status, sets: seq<Rps>, ghost syntaxes: seq<Syntax>)
    requires r.Valid() && SetAhead(r.bits, r.Pos(), numSets, refs)
    modifies r
    ensures r.Valid()
    ensures SetsCameOut(SetAfter(r.bits, old(r.Pos()), was, refs, numSets, maxDec), status, syntaxes, sets, r.Pos())
  {
    ghost var s;
    sets, syntaxes := refs, was;
    var rps := new ReferencePictureSet();
    status, s := ParseShortTermRefPicSet(r, rps, numSets, refs);
    if status.Failed? {
      return;
    }
    if rps.numNegative > maxDec || rps.numPositive > maxDec - rps.numNegative {
      return Failed(BufferExceeded), refs, was;
    }
    var value := Snapshot(rps, Derive(s, refs));
    sets, syntaxes := refs + [value], was + [s];
  }

  /** Set i of the list whose sets before it start at p. */
  method ParseSetOf(r: AVCBaseBitstream, n: nat, maxDec: nat, ghost i: nat, ghost p: nat, refs: seq<Rps>,
    ghost was: seq<Syntax>) returns (status: Status, sets: seq<Rps>, ghost syntaxes: seq<Syntax>)
    requires r.Valid() && SetsAhead(r.bits, p, n, n, maxDec) && i < n
    requires SetsAt(r.bits, p, i, n, maxDec) == Read((was, refs), r.Pos())
    modifies r
    ensures r.Valid()
    ensures match status
            case Ok => SetsAt(r.bits, p, i + 1, n, maxDec) == Read((syntaxes, sets), r.Pos())
            case Failed(why) => SetsAt(r.bits, p, n, n, maxDec) == Refused(why)
  {
    SetsAheadOf(r.bits, p, n, n, maxDec, i, was, refs, r.Pos());
    SetsNext(r.bits, p, i, n, maxDec, was, refs, r.Pos());
    status, sets, syntaxes := ParseNextSet(r, n, maxDec, refs, was);
  }

  /** The loop over n sets. */
  method ParseList(r: AVCBaseBitstream, n: nat, maxDec: nat) returns (status: Status, sets: seq<Rps>,
    ghost syntaxes: seq<Syntax>)
    requires r.Valid() && SetsAhead(r.bits, r.Pos(), n, n, maxDec)
    modifies r
    ensures r.Valid()
    ensures SetsCameOut(SetsAt(r.bits, old(r.Pos()), n, n, maxDec), status, syntaxes, sets, r.Pos())
  {
    ghost var p := r.Pos();
    status, sets, syntaxes := Ok, [], [];
    var i := 0;
    while i < n
      invariant status == Ok && 0 <= i <= n && r.Valid()
      invariant SetsAt(r.bits, p, i, n, maxDec) == Read((syntaxes, sets), r.Pos())
    {
      status, sets, syntaxes := ParseSetOf(r, n, maxDec, i, p, sets, syntaxes);
      if status.Failed? {
        return;
      }
      i := i + 1;
    }
  }

  /** The sets of a parameter set. */
  method ParseSets(r: AVCBaseBitstream, maxDec: nat) returns (status: Status, sets: seq<Rps>,
    ghost syntaxes: seq<Syntax>)
    requires r.Valid() && CodeAhead(r.bits, r.Pos())
    requires match UeAt(r.bits, r.Pos())
             case Refused(_) => true
             case Read(n, q) => n <= 64 ==> SetsAhead(r.bits, q, n, n, maxDec)
    modifies r
    ensures r.Valid()
    ensures match UeAt(r.bits, old(r.Pos()))
            case Refused(why) => status == Failed(why)
            case Read(n, q) =>
              if n > 64 then status == Failed(TooManySets) else
                match SetsAt(r.bits, q, n, n, maxDec)
                case Refused(why) => status == Failed(why)
                case Read(o, q') => status == Ok && (syntaxes, sets) == o && q' == r.Pos()
  {
    var n;
    sets, syntaxes := [], [];
    status, n := ReadUe(r);
    if status.Failed? {
      return;
    }
    if n > 64 {
      return Failed(TooManySets), sets, syntaxes;
    }
    status, sets, syntaxes := ParseList(r, n, maxDec);
  }
}
