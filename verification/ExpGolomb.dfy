/** Exp-Golomb codes, bit by bit, as section 9.1 of H.264 (9.2 of H.265) defines them. */
module ExpGolomb {
  import opened BitStrings

  /** The position of the highest set bit of v + 1. */
  function Log2(v: nat): nat
    requires v > 0
  {
    if v == 1 then 0 else 1 + Log2(v / 2)
  }

  lemma {:induction false} Log2Bounds(v: nat)
    requires v > 0
    ensures Pow2(Log2(v)) <= v < Pow2(Log2(v) + 1)
  {
    if v > 1 {
      Log2Bounds(v / 2);
    }
  }

  lemma Log2Unique(v: nat, n: nat)
    requires Pow2(n) <= v < Pow2(n + 1)
    ensures Log2(v) == n
  {
    Log2Bounds(v);
    if Log2(v) < n {
      Pow2Monotone(Log2(v) + 1, n);
    } else if Log2(v) > n {
      Pow2Monotone(n + 1, Log2(v));
    }
  }

  /** The ue(v) code word: as many zeros as v + 1 has bits after its highest one, then v + 1. */
  function UeBits(v: nat): (b: seq<bool>)
    ensures |b| == 2 * Log2(v + 1) + 1
  {
    Zeros(Log2(v + 1)) + ToBits(v + 1, Log2(v + 1) + 1)
  }

  /** The codeNum that stands for v in se(v) (Table 9-3 of H.264). */
  function SeCode(v: int): nat {
    if v <= 0 then -2 * v else 2 * v - 1
  }

  function SeValue(code: nat): int {
    if code % 2 == 1 then (code + 1) / 2 else -(code / 2)
  }

  function SeBits(v: int): seq<bool> {
    UeBits(SeCode(v))
  }

  lemma SeInverse(v: int, code: nat)
    ensures SeValue(SeCode(v)) == v
    ensures SeCode(SeValue(code)) == code
  {
  }

  /** leadingZeroBits: the run of zero bits at position p. */
  function LeadingZeros(b: seq<bool>, p: nat): (n: nat)
    requires p <= |b|
    ensures p + n <= |b|
    ensures forall i | p <= i < p + n :: !b[i]
    ensures p + n < |b| ==> b[p + n]
    decreases |b| - p
  {
    if p == |b| || b[p] then 0 else 1 + LeadingZeros(b, p + 1)
  }

  /** A whole code word, with its marking one and its suffix, lies at p. */
  predicate CodeFits(b: seq<bool>, p: nat)
    requires p <= |b|
  {
    p + 2 * LeadingZeros(b, p) + 1 <= |b|
  }

  /** codeNum = 2^leadingZeroBits - 1 + read_bits(leadingZeroBits). */
  function CodeNum(b: seq<bool>, p: nat): nat
    requires p <= |b| && CodeFits(b, p)
  {
    var n := LeadingZeros(b, p);
    Pow2(n) - 1 + Val(b[p + n + 1..p + 2 * n + 1])
  }

  lemma LeadingZerosUnique(b: seq<bool>, p: nat, n: nat)
    requires p + n < |b| && b[p + n]
    requires forall i | p <= i < p + n :: !b[i]
    ensures LeadingZeros(b, p) == n
  {
  }

  /** One followed by a suffix of n bits denotes Pow2(n) plus the suffix. */
  lemma {:induction false} ValMarked(s: seq<bool>)
    ensures Val([true] + s) == Pow2(|s|) + Val(s)
  {
    if s == [] {
      assert [true] + s == [true];
    } else {
      ValMarked(s[..|s| - 1]);
      assert ([true] + s)[..|s|] == [true] + s[..|s| - 1];
    }
  }

  /** The bits of a number whose highest set bit has weight Pow2(n). */
  lemma MarkedBits(v: nat, n: nat)
    requires Pow2(n) <= v < Pow2(n + 1)
    ensures ToBits(v, n + 1)[0]
    ensures v == Pow2(n) + Val(ToBits(v, n + 1)[1..])
  {
    var b := ToBits(v, n + 1);
    ToBitsVal(v, n + 1);
    ValBound(b[1..]);
    assert b == [b[0]] + b[1..];
    if b[0] {
      ValMarked(b[1..]);
    } else {
      ValUnmarked(b[1..]);
    }
  }

  lemma {:induction false} ValUnmarked(s: seq<bool>)
    ensures Val([false] + s) == Val(s)
  {
    if s == [] {
      assert [false] + s == [false];
    } else {
      ValUnmarked(s[..|s| - 1]);
      assert ([false] + s)[..|s|] == [false] + s[..|s| - 1];
    }
  }

  /** Decoding a written code word gives the written value and its length. */
  lemma DecodeUe(b: seq<bool>, p: nat, v: nat)
    requires p + |UeBits(v)| <= |b| && b[p..p + |UeBits(v)|] == UeBits(v)
    ensures LeadingZeros(b, p) == Log2(v + 1)
    ensures CodeFits(b, p) && CodeNum(b, p) == v
  {
    var n := Log2(v + 1);
    Log2Bounds(v + 1);
    MarkedBits(v + 1, n);
    DecodeMarked(b, p, n, ToBits(v + 1, n + 1));
  }

  lemma DecodeMarked(b: seq<bool>, p: nat, n: nat, m: seq<bool>)
    requires |m| == n + 1 && m[0]
    requires p + 2 * n + 1 <= |b| && b[p..p + 2 * n + 1] == Zeros(n) + m
    ensures LeadingZeros(b, p) == n && CodeFits(b, p)
    ensures CodeNum(b, p) == Pow2(n) - 1 + Val(m[1..])
  {
    var u := b[p..p + 2 * n + 1];
    assert forall i | p <= i < p + 2 * n + 1 :: b[i] == u[i - p];
    LeadingZerosUnique(b, p, n);
    assert b[p + n + 1..p + 2 * n + 1] == m[1..];
  }

  /** What the bit-by-bit definition decodes is the code word of the value it gives. */
  lemma EncodeDecoded(b: seq<bool>, p: nat)
    requires p <= |b| && CodeFits(b, p)
    ensures var n := LeadingZeros(b, p); b[p..p + 2 * n + 1] == UeBits(CodeNum(b, p))
    ensures Log2(CodeNum(b, p) + 1) == LeadingZeros(b, p)
  {
    var n := LeadingZeros(b, p);
    var s := b[p + n + 1..p + 2 * n + 1];
    var v := CodeNum(b, p);
    ValBound(s);
    ValMarked(s);
    Log2Unique(v + 1, n);
    ValToBits([true] + s);
    assert b[p..p + 2 * n + 1] == Zeros(n) + ([true] + s);
  }

  /** No code word is a proper prefix of another. */
  lemma UePrefixFree(v: nat, w: nat)
    requires UeBits(v) <= UeBits(w)
    ensures v == w
  {
    DecodeUe(UeBits(w), 0, v);
    assert UeBits(w)[0..|UeBits(w)|] == UeBits(w);
    DecodeUe(UeBits(w), 0, w);
  }
}
