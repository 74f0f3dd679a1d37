/** Reading a set is the inverse of its bit syntax: it gives a syntax exactly when that
    syntax's bits come next. */
module RpsReading {
  import opened BitStrings
  import opened ExpGolomb
  import opened RpsSyntax

  predicate SmallCode(v: nat) {
    Log2(v + 1) <= 31
  }

  lemma UeInverse(b: seq<bool>, p: nat, v: nat, q: nat)
    requires p <= |b|
    ensures UeAt(b, p) == Read(v, q) <==> Lies(b, p, q, UeBits(v)) && SmallCode(v)
  {
    if CodeFits(b, p) {
      EncodeDecoded(b, p);
    }
    if Lies(b, p, q, UeBits(v)) {
      DecodeUe(b, p, v);
    }
  }

  lemma BitInverse(b: seq<bool>, p: nat, x: bool, q: nat)
    requires p <= |b|
    ensures BitAt(b, p) == Read(x, q) <==> Lies(b, p, q, [x])
  {
    if Lies(b, p, q, [x]) {
      assert b[p..q][0] == b[p];
    }
  }

  lemma IdcInverse(b: seq<bool>, p: nat, x: RefIdc, q: nat)
    requires p <= |b|
    ensures IdcAt(b, p) == Read(x, q) <==> Lies(b, p, q, x.Bits())
  {
    if Lies(b, p, q, x.Bits()) {
      assert b[p..q][0] == b[p];
      assert !x.Used? ==> b[p..q][1] == b[p + 1];
    }
  }

  /** A code word at the front is read and the rest stays. */
  lemma UeFirst(b: seq<bool>, p: nat, q: nat, v: nat, rest: seq<bool>) returns (m: nat)
    requires Lies(b, p, q, UeBits(v) + rest) && SmallCode(v)
    ensures p <= m <= |b| && UeAt(b, p) == Read(v, m) && Lies(b, m, q, rest)
  {
    var u := UeBits(v);
    m := p + |u|;
    LiesSplit(b, p, q, u, rest);
    UeInverse(b, p, v, m);
  }

  lemma BitFirst(b: seq<bool>, p: nat, q: nat, x: bool, rest: seq<bool>)
    requires Lies(b, p, q, [x] + rest)
    ensures p + 1 <= |b| && BitAt(b, p) == Read(x, p + 1) && Lies(b, p + 1, q, rest)
  {
    LiesSplit(b, p, q, [x], rest);
    BitInverse(b, p, x, p + 1);
  }

  lemma CodedInverse(b: seq<bool>, p: nat, x: Coded, q: nat)
    requires p <= |b|
    ensures CodedAt(b, p) == Read(x, q) <==> Lies(b, p, q, x.Bits()) && SmallCode(x.deltaMinus1)
  {
    if UeAt(b, p).Read? {
      var v, m := UeAt(b, p).value, UeAt(b, p).pos;
      UeInverse(b, p, v, m);
      if BitAt(b, m).Read? {
        BitInverse(b, m, BitAt(b, m).value, BitAt(b, m).pos);
        LiesJoin(b, p, m, BitAt(b, m).pos, UeBits(v), [BitAt(b, m).value]);
      }
    }
    if Lies(b, p, q, x.Bits()) && SmallCode(x.deltaMinus1) {
      LiesSplit(b, p, q, UeBits(x.deltaMinus1), [x.used]);
      UeInverse(b, p, x.deltaMinus1, p + |UeBits(x.deltaMinus1)|);
      BitInverse(b, p + |UeBits(x.deltaMinus1)|, x.used, q);
    }
  }

  lemma {:induction false} IdcsRead(b: seq<bool>, p: nat, n: nat)
    requires p <= |b| && IdcsAt(b, p, n).Read?
    ensures var o := IdcsAt(b, p, n); Lies(b, p, o.pos, IdcsBits(o.value))
  {
    if n > 0 {
      var t := IdcsAt(b, p, n - 1);
      IdcsRead(b, p, n - 1);
      var x := IdcAt(b, t.pos);
      IdcInverse(b, t.pos, x.value, x.pos);
      LiesJoin(b, p, t.pos, x.pos, IdcsBits(t.value), x.value.Bits());
      assert (t.value + [x.value])[..n - 1] == t.value;
    }
  }

  lemma IdcLast(b: seq<bool>, p: nat, q: nat, before: seq<bool>, x: RefIdc) returns (m: nat)
    requires Lies(b, p, q, before + x.Bits())
    ensures Lies(b, p, m, before) && IdcAt(b, m) == Read(x, q)
  {
    m := p + |before|;
    LiesSplit(b, p, q, before, x.Bits());
    IdcInverse(b, m, x, q);
  }

  lemma {:induction false} IdcsWritten(b: seq<bool>, p: nat, idcs: seq<RefIdc>, q: nat)
    requires Lies(b, p, q, IdcsBits(idcs))
    ensures IdcsAt(b, p, |idcs|) == Read(idcs, q)
  {
    if idcs != [] {
      var t, x := idcs[..|idcs| - 1], idcs[|idcs| - 1];
      var m := IdcLast(b, p, q, IdcsBits(t), x);
      IdcsWritten(b, p, t, m);
      assert t + [x] == idcs;
    }
  }

  predicate SmallCodes(coded: seq<Coded>) {
    forall i | 0 <= i < |coded| :: SmallCode(coded[i].deltaMinus1)
  }

  lemma {:induction false} CodedListRead(b: seq<bool>, p: nat, n: nat)
    requires p <= |b| && CodedListAt(b, p, n).Read?
    ensures var o := CodedListAt(b, p, n); Lies(b, p, o.pos, CodedBits(o.value)) && SmallCodes(o.value)
  {
    if n > 0 {
      var t := CodedListAt(b, p, n - 1);
      CodedListRead(b, p, n - 1);
      var x := CodedAt(b, t.pos);
      CodedInverse(b, t.pos, x.value, x.pos);
      LiesJoin(b, p, t.pos, x.pos, CodedBits(t.value), x.value.Bits());
      assert (t.value + [x.value])[..n - 1] == t.value;
    }
  }

  lemma CodedLast(b: seq<bool>, p: nat, q: nat, before: seq<bool>, x: Coded) returns (m: nat)
    requires Lies(b, p, q, before + x.Bits()) && SmallCode(x.deltaMinus1)
    ensures Lies(b, p, m, before) && CodedAt(b, m) == Read(x, q)
  {
    m := p + |before|;
    LiesSplit(b, p, q, before, x.Bits());
    CodedInverse(b, m, x, q);
  }

  lemma {:induction false} CodedListWritten(b: seq<bool>, p: nat, coded: seq<Coded>, q: nat)
    requires Lies(b, p, q, CodedBits(coded)) && SmallCodes(coded)
    ensures CodedListAt(b, p, |coded|) == Read(coded, q)
  {
    if coded != [] {
      var t, x := coded[..|coded| - 1], coded[|coded| - 1];
      var m := CodedLast(b, p, q, CodedBits(t), x);
      CodedListWritten(b, p, t, m);
      assert t + [x] == coded;
    }
  }

  /** What the parser accepts: a flag for each candidate of a set it has, fewer than 16
      coded pictures, no code of 32 or more leading zeros, and no index difference where
      none is coded. */
  predicate Readable(s: Syntax, numSets: nat, refs: seq<Rps>) {
    && Fits(s, refs)
    && match s
       case Predicted(deltaIdxMinus1, _, absMinus1, _) =>
         && SmallCode(absMinus1)
         && if |refs| == numSets then SmallCode(deltaIdxMinus1) else deltaIdxMinus1 == 0
       case Explicit(negatives, positives) =>
         |negatives| + |positives| < 16 && SmallCodes(negatives) && SmallCodes(positives)
  }

  lemma ExplicitRead(b: seq<bool>, p: nat)
    requires p <= |b| && ExplicitAt(b, p).Read?
    ensures var o := ExplicitAt(b, p);
      o.value.Explicit? && Lies(b, p, o.pos, BodyBits(o.value, 0, 0)) && Readable(o.value, 0, [])
  {
    var n := UeAt(b, p);
    UeInverse(b, p, n.value, n.pos);
    var m := UeAt(b, n.pos);
    UeInverse(b, n.pos, m.value, m.pos);
    var neg := CodedListAt(b, m.pos, n.value);
    CodedListRead(b, m.pos, n.value);
    var pos := CodedListAt(b, neg.pos, m.value);
    CodedListRead(b, neg.pos, m.value);
    LiesJoin(b, m.pos, neg.pos, pos.pos, CodedBits(neg.value), CodedBits(pos.value));
    LiesJoin(b, n.pos, m.pos, pos.pos, UeBits(m.value), CodedBits(neg.value) + CodedBits(pos.value));
    LiesJoin(b, p, n.pos, pos.pos, UeBits(n.value), UeBits(m.value) + (CodedBits(neg.value) + CodedBits(pos.value)));
  }

  lemma ExplicitWritten(b: seq<bool>, p: nat, s: Syntax, q: nat)
    requires s.Explicit? && Readable(s, 0, []) && Lies(b, p, q, BodyBits(s, 0, 0))
    ensures ExplicitAt(b, p) == Read(s, q)
  {
    ghost var lists := CodedBits(s.negatives) + CodedBits(s.positives);
    CountSmall(|s.negatives|);
    CountSmall(|s.positives|);
    var q0 := UeFirst(b, p, q, |s.negatives|, UeBits(|s.positives|) + lists);
    var q1 := UeFirst(b, q0, q, |s.positives|, lists);
    var q2 := ListsWritten(b, q1, q, s.negatives, s.positives);
  }

  lemma ListsWritten(b: seq<bool>, p: nat, q: nat, negatives: seq<Coded>, positives: seq<Coded>) returns (m: nat)
    requires Lies(b, p, q, CodedBits(negatives) + CodedBits(positives))
    requires SmallCodes(negatives) && SmallCodes(positives)
    ensures p <= m <= |b| && CodedListAt(b, p, |negatives|) == Read(negatives, m)
    ensures CodedListAt(b, m, |positives|) == Read(positives, q)
  {
    LiesSplit(b, p, q, CodedBits(negatives), CodedBits(positives));
    m := p + |CodedBits(negatives)|;
    CodedListWritten(b, p, negatives, m);
    CodedListWritten(b, m, positives, q);
  }

  lemma CountSmall(n: nat)
    requires n < 16
    ensures SmallCode(n)
  {
    Log2Bounds(n + 1);
    if Log2(n + 1) > 31 {
      Pow2Monotone(31, Log2(n + 1));
      Pow2Values();
    }
  }

  lemma StepRead(b: seq<bool>, p: nat, deltaIdx: nat, refs: seq<Rps>)
    requires p <= |b| && deltaIdx < |refs| && StepAt(b, p, deltaIdx, refs).Read?
    ensures var o := StepAt(b, p, deltaIdx, refs);
      && o.value.Predicted? && o.value.deltaIdxMinus1 == deltaIdx && SmallCode(o.value.absMinus1)
      && Lies(b, p, o.pos, StepBits(o.value.negative, o.value.absMinus1, o.value.idcs)) && Fits(o.value, refs)
  {
    var neg := BitAt(b, p);
    BitInverse(b, p, neg.value, neg.pos);
    var abs := UeAt(b, neg.pos);
    UeInverse(b, neg.pos, abs.value, abs.pos);
    var n := |refs[|refs| - 1 - deltaIdx].pics| + 1;
    var idcs := IdcsAt(b, abs.pos, n);
    IdcsRead(b, abs.pos, n);
    LiesJoin(b, neg.pos, abs.pos, idcs.pos, UeBits(abs.value), IdcsBits(idcs.value));
    LiesJoin(b, p, neg.pos, idcs.pos, [neg.value], UeBits(abs.value) + IdcsBits(idcs.value));
  }

  lemma StepWritten(b: seq<bool>, p: nat, s: Syntax, q: nat, refs: seq<Rps>)
    requires s.Predicted? && Fits(s, refs) && SmallCode(s.absMinus1)
    requires Lies(b, p, q, StepBits(s.negative, s.absMinus1, s.idcs))
    ensures StepAt(b, p, s.deltaIdxMinus1, refs) == Read(s, q)
  {
    BitFirst(b, p, q, s.negative, UeBits(s.absMinus1) + IdcsBits(s.idcs));
    var m := UeFirst(b, p + 1, q, s.absMinus1, IdcsBits(s.idcs));
    IdcsWritten(b, m, s.idcs, q);
  }

  lemma PredictedRead(b: seq<bool>, p: nat, numSets: nat, refs: seq<Rps>)
    requires p <= |b| && refs != [] && PredictedAt(b, p, numSets, refs).Read?
    ensures var o := PredictedAt(b, p, numSets, refs);
      o.value.Predicted? && Lies(b, p, o.pos, BodyBits(o.value, |refs|, numSets)) && Readable(o.value, numSets, refs)
  {
    var coded := |refs| == numSets;
    var d := IndexAt(b, p, coded);
    if coded {
      UeInverse(b, p, d.value, d.pos);
    }
    StepRead(b, d.pos, d.value, refs);
    var o := StepAt(b, d.pos, d.value, refs);
    LiesJoin(b, p, d.pos, o.pos, if coded then UeBits(d.value) else [],
      StepBits(o.value.negative, o.value.absMinus1, o.value.idcs));
  }

  lemma PredictedWritten(b: seq<bool>, p: nat, s: Syntax, q: nat, numSets: nat, refs: seq<Rps>)
    requires s.Predicted? && Readable(s, numSets, refs) && Lies(b, p, q, BodyBits(s, |refs|, numSets))
    ensures PredictedAt(b, p, numSets, refs) == Read(s, q)
  {
    ghost var rest := StepBits(s.negative, s.absMinus1, s.idcs);
    var m := IndexWritten(b, p, q, |refs| == numSets, s.deltaIdxMinus1, rest);
    StepWritten(b, m, s, q, refs);
  }

  lemma IndexWritten(b: seq<bool>, p: nat, q: nat, coded: bool, deltaIdx: nat, rest: seq<bool>) returns (m: nat)
    requires Lies(b, p, q, (if coded then UeBits(deltaIdx) else []) + rest)
    requires if coded then SmallCode(deltaIdx) else deltaIdx == 0
    ensures p <= m <= |b| && IndexAt(b, p, coded) == Read(deltaIdx, m) && Lies(b, m, q, rest)
  {
    if coded {
      m := UeFirst(b, p, q, deltaIdx, rest);
    } else {
      assert [] + rest == rest;
      m := p;
    }
  }

  /** Reading gives a syntax exactly when its bits lie there and the parser accepts it; so
      no two syntaxes share their bits, and no accepted one is refused. */
  lemma ReadingInvertsWriting(b: seq<bool>, p: nat, numSets: nat, refs: seq<Rps>, s: Syntax, q: nat)
    requires p <= |b|
    ensures SyntaxAt(b, p, numSets, refs) == Read(s, q) <==>
      Readable(s, numSets, refs) && Lies(b, p, q, SyntaxBits(s, |refs|, numSets))
  {
    if SyntaxAt(b, p, numSets, refs) == Read(s, q) {
      SyntaxRead(b, p, numSets, refs);
    }
    if Readable(s, numSets, refs) && Lies(b, p, q, SyntaxBits(s, |refs|, numSets)) {
      SyntaxWritten(b, p, s, q, numSets, refs);
    }
  }

  lemma SyntaxRead(b: seq<bool>, p: nat, numSets: nat, refs: seq<Rps>)
    requires p <= |b| && SyntaxAt(b, p, numSets, refs).Read?
    ensures var o := SyntaxAt(b, p, numSets, refs);
      Readable(o.value, numSets, refs) && Lies(b, p, o.pos, SyntaxBits(o.value, |refs|, numSets))
  {
    var o := SyntaxAt(b, p, numSets, refs);
    var q := if refs == [] then p else p + 1;
    if refs != [] {
      BitInverse(b, p, BitAt(b, p).value, BitAt(b, p).pos);
    }
    if refs != [] && b[p] {
      PredictedRead(b, q, numSets, refs);
    } else {
      ExplicitRead(b, q);
    }
    LiesJoin(b, p, q, o.pos, if refs == [] then [] else [o.value.Predicted?], BodyBits(o.value, |refs|, numSets));
  }

  lemma SyntaxWritten(b: seq<bool>, p: nat, s: Syntax, q: nat, numSets: nat, refs: seq<Rps>)
    requires Readable(s, numSets, refs) && Lies(b, p, q, SyntaxBits(s, |refs|, numSets))
    ensures SyntaxAt(b, p, numSets, refs) == Read(s, q)
  {
    if |refs| == 0 {
      LiesSplit(b, p, q, [], BodyBits(s, 0, numSets));
      ExplicitWritten(b, p, s, q);
    } else {
      LiesSplit(b, p, q, [s.Predicted?], BodyBits(s, |refs|, numSets));
      BitInverse(b, p, s.Predicted?, p + 1);
      if s.Predicted? {
        PredictedWritten(b, p + 1, s, q, numSets, refs);
      } else {
        ExplicitWritten(b, p + 1, s, q);
      }
    }
  }
}
