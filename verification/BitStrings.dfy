/** Bit strings, most significant bit first, the numbers they denote, and the machine's
    shifts and masks on such numbers. */
module BitStrings {
  type Byte = x: int | 0 <= x < 0x100
  type Word = x: int | 0 <= x < 0x1_0000_0000

  function Pow2(n: nat): (p: nat)
    ensures p > 0
  {
    if n == 0 then 1 else 2 * Pow2(n - 1)
  }

  /** v >> n */
  function Shr(v: nat, n: nat): nat {
    if n == 0 then v else Shr(v / 2, n - 1)
  }

  /** v << n, without truncation */
  function Shl(v: nat, n: nat): nat {
    if n == 0 then v else 2 * Shl(v, n - 1)
  }

  /** v & (2^n - 1) */
  function Low(v: nat, n: nat): nat {
    if n == 0 then 0 else 2 * Low(v / 2, n - 1) + v % 2
  }

  /** The number a bit string denotes. */
  function Val(b: seq<bool>): nat {
    if |b| == 0 then 0 else 2 * Val(b[..|b| - 1]) + if b[|b| - 1] then 1 else 0
  }

  /** Bit i of v, counted from the low-order end: (v >> i) & 1. */
  predicate Bit(v: nat, i: nat) {
    Shr(v, i) % 2 == 1
  }

  /** The n low-order bits of v. */
  function ToBits(v: nat, n: nat): (b: seq<bool>)
    ensures |b| == n
  {
    seq(n, i requires 0 <= i < n => Bit(v, n - 1 - i))
  }

  function Zeros(n: nat): (b: seq<bool>)
    ensures |b| == n
  {
    seq(n, i => false)
  }

  /** The bits of a byte sequence. */
  function BytesBits(bytes: seq<Byte>): (b: seq<bool>)
    ensures |b| == 8 * |bytes|
  {
    seq(8 * |bytes|, i requires 0 <= i < 8 * |bytes| => ToBits(bytes[i / 8], 8)[i % 8])
  }

  /** The bits of a sequence of 32-bit words. */
  function WordsBits(words: seq<Word>): (b: seq<bool>)
    ensures |b| == 32 * |words|
  {
    seq(32 * |words|, i requires 0 <= i < 32 * |words| => ToBits(words[i / 32], 32)[i % 32])
  }

  /** The complete bytes of a bit string; up to seven trailing bits are left over. */
  function Octets(b: seq<bool>): (bytes: seq<Byte>)
    ensures |bytes| == |b| / 8
  {
    seq(|b| / 8, i requires 0 <= i < |b| / 8 => OctetAt(b, i))
  }

  function OctetAt(b: seq<bool>, i: nat): Byte
    requires 8 * i + 8 <= |b|
  {
    ByteBound(b[8 * i..8 * i + 8]);
    Val(b[8 * i..8 * i + 8])
  }

  /** The big-endian 32-bit word made of four bytes. */
  function WordOf(b0: Byte, b1: Byte, b2: Byte, b3: Byte): Word {
    ((b0 * 256 + b1) * 256 + b2) * 256 + b3
  }

  /** The complete big-endian words of a byte sequence. */
  function PackWords(bytes: seq<Byte>): (words: seq<Word>)
    ensures |words| == |bytes| / 4
  {
    seq(|bytes| / 4, i requires 0 <= i < |bytes| / 4 =>
      WordOf(bytes[4 * i], bytes[4 * i + 1], bytes[4 * i + 2], bytes[4 * i + 3]))
  }

  lemma Pow2Values()
    ensures Pow2(0) == 1 && Pow2(7) == 128 && Pow2(8) == 256 && Pow2(31) == 0x8000_0000
    ensures Pow2(32) == 0x1_0000_0000
  {
    assert Pow2(4) == 16 && Pow2(12) == 4096 && Pow2(16) == 0x1_0000 && Pow2(20) == 0x10_0000;
    assert Pow2(24) == 0x100_0000 && Pow2(28) == 0x1000_0000;
  }

  lemma {:induction false} Pow2Monotone(m: nat, n: nat)
    requires m <= n
    ensures Pow2(m) <= Pow2(n)
  {
    if m < n {
      Pow2Monotone(m, n - 1);
    }
  }

  lemma {:induction false} ValBound(b: seq<bool>)
    ensures Val(b) < Pow2(|b|)
  {
    if |b| > 0 {
      ValBound(b[..|b| - 1]);
    }
  }

  lemma ByteBound(b: seq<bool>)
    requires |b| <= 8
    ensures Val(b) < 256
  {
    ValBound(b);
    Pow2Monotone(|b|, 8);
    Pow2Values();
  }

  lemma ValSnoc(b: seq<bool>, x: bool)
    ensures Val(b + [x]) == 2 * Val(b) + if x then 1 else 0
  {
    assert (b + [x])[..|b|] == b;
  }

  /** Shifting right drops the low-order bits, masking keeps them. */
  lemma {:induction false} ValSplit(a: seq<bool>, b: seq<bool>)
    ensures Shr(Val(a + b), |b|) == Val(a)
    ensures Low(Val(a + b), |b|) == Val(b)
  {
    if |b| == 0 {
      assert a + b == a;
    } else {
      var c, x := b[..|b| - 1], b[|b| - 1];
      assert a + b == a + c + [x] && b == c + [x];
      ValSnoc(a + c, x);
      ValSnoc(c, x);
      ValSplit(a, c);
    }
  }

  /** Shifting left appends zeros. */
  lemma {:induction false} ValShl(a: seq<bool>, n: nat)
    ensures Shl(Val(a), n) == Val(a + Zeros(n))
  {
    if n == 0 {
      assert a + Zeros(0) == a;
    } else {
      ValShl(a, n - 1);
      ValSnoc(a + Zeros(n - 1), false);
      assert a + Zeros(n) == a + Zeros(n - 1) + [false];
    }
  }

  /** Adding a number below the zeros puts its bits in their place. */
  lemma {:induction false} ValJoin(a: seq<bool>, b: seq<bool>)
    ensures Val(a + Zeros(|b|)) + Val(b) == Val(a + b)
  {
    if |b| == 0 {
      assert a + Zeros(0) == a == a + b;
    } else {
      var c, x := b[..|b| - 1], b[|b| - 1];
      ValJoin(a, c);
      ValSnoc(a + Zeros(|c|), false);
      ValSnoc(a + c, x);
      ValSnoc(c, x);
      assert a + Zeros(|b|) == a + Zeros(|c|) + [false];
      assert a + b == a + c + [x] && b == c + [x];
    }
  }

  lemma {:induction false} ShrStep(v: nat, i: nat)
    ensures Shr(v, i + 1) == Shr(v / 2, i)
  {
  }

  lemma ToBitsStep(v: nat, n: nat)
    requires n > 0
    ensures ToBits(v, n) == ToBits(v / 2, n - 1) + [v % 2 == 1]
  {
    forall i | 0 <= i < n - 1
      ensures ToBits(v, n)[i] == ToBits(v / 2, n - 1)[i]
    {
      var k := n - 2 - i;
      ShrStep(v, k);
      assert ToBits(v, n)[i] == Bit(v, k + 1) && ToBits(v / 2, n - 1)[i] == Bit(v / 2, k);
    }
    assert ToBits(v, n)[n - 1] == Bit(v, 0);
  }

  lemma {:induction false} ToBitsVal(v: nat, n: nat)
    requires v < Pow2(n)
    ensures Val(ToBits(v, n)) == v
  {
    if n > 0 {
      ToBitsVal(v / 2, n - 1);
      ToBitsStep(v, n);
      ValSnoc(ToBits(v / 2, n - 1), v % 2 == 1);
    }
  }

  lemma WordVal(w: Word)
    ensures Val(ToBits(w, 32)) == w
  {
    Pow2Values();
    ToBitsVal(w, 32);
  }

  lemma ByteVal(x: Byte)
    ensures Val(ToBits(x, 8)) == x
  {
    Pow2Values();
    ToBitsVal(x, 8);
  }

  lemma {:induction false} ValToBits(b: seq<bool>)
    ensures ToBits(Val(b), |b|) == b
  {
    if |b| > 0 {
      var c := b[..|b| - 1];
      ValToBits(c);
      ToBitsStep(Val(b), |b|);
      assert b == c + [b[|b| - 1]];
    }
  }

  lemma {:induction false} ValZeroIff(b: seq<bool>)
    ensures Val(b) == 0 <==> forall i | 0 <= i < |b| :: !b[i]
  {
    if b != [] {
      ValZeroIff(b[..|b| - 1]);
      assert forall i | 0 <= i < |b| - 1 :: b[i] == b[..|b| - 1][i];
    }
  }

  lemma ToBitsZero(n: nat)
    ensures ToBits(0, n) == Zeros(n)
  {
    ValZeroIff(Zeros(n));
    ValToBits(Zeros(n));
  }

  /** Appending a byte to a number appends its bits. */
  lemma AppendByteBits(hi: nat, lo: Byte, m: nat)
    ensures ToBits(hi * 256 + lo, m + 8) == ToBits(hi, m) + ToBits(lo, 8)
  {
    AppendLowBits(hi, lo, m, 8, 256);
  }

  lemma {:induction false} AppendLowBits(hi: nat, lo: nat, m: nat, n: nat, p: nat)
    requires p == Pow2(n) && lo < p && n <= 8
    ensures ToBits(hi * p + lo, m + n) == ToBits(hi, m) + ToBits(lo, n)
    decreases n
  {
    if n == 0 {
      assert p == 1 && ToBits(hi, m) + ToBits(lo, 0) == ToBits(hi, m);
    } else {
      var v := hi * p + lo;
      var q := p / 2;
      assert p == 2 * q && hi * p == 2 * (hi * q);
      assert v / 2 == hi * q + lo / 2 && v % 2 == lo % 2;
      AppendLowBits(hi, lo / 2, m, n - 1, q);
      ToBitsStep(v, m + n);
      ToBitsStep(lo, n);
    }
  }

  /** A word's bits are its bytes' bits, first byte first. */
  lemma WordBits(b0: Byte, b1: Byte, b2: Byte, b3: Byte)
    ensures ToBits(WordOf(b0, b1, b2, b3), 32) == ToBits(b0, 8) + ToBits(b1, 8) + ToBits(b2, 8) + ToBits(b3, 8)
  {
    var h1 := b0 * 256 + b1;
    var h2 := h1 * 256 + b2;
    AppendByteBits(b0, b1, 8);
    AppendByteBits(h1, b2, 16);
    AppendByteBits(h2, b3, 24);
  }

  lemma PackWordsBit(bytes: seq<Byte>, k: nat, m: nat, j: nat)
    requires 4 * k + 4 <= |bytes| && m < 4 && j < 8
    ensures WordsBits(PackWords(bytes))[32 * k + 8 * m + j] == BytesBits(bytes)[8 * (4 * k + m) + j]
  {
    WordBits(bytes[4 * k], bytes[4 * k + 1], bytes[4 * k + 2], bytes[4 * k + 3]);
    var i := 32 * k + 8 * m + j;
    assert i / 32 == k && i % 32 == 8 * m + j;
    assert PackWords(bytes)[k] == WordOf(bytes[4 * k], bytes[4 * k + 1], bytes[4 * k + 2], bytes[4 * k + 3]);
  }

  /** Packing bytes into words keeps the bit string. */
  lemma PackWordsBits(bytes: seq<Byte>)
    requires |bytes| % 4 == 0
    ensures WordsBits(PackWords(bytes)) == BytesBits(bytes)
  {
    forall i | 0 <= i < 8 * |bytes|
      ensures WordsBits(PackWords(bytes))[i] == BytesBits(bytes)[i]
    {
      var k, r := i / 32, i % 32;
      var m, j := r / 8, r % 8;
      PackWordsBit(bytes, k, m, j);
    }
  }

  /** Cutting a bit string into bytes keeps its complete bytes' bits. */
  lemma OctetsBits(b: seq<bool>)
    ensures BytesBits(Octets(b)) == b[..8 * (|b| / 8)]
  {
    forall i | 0 <= i < 8 * (|b| / 8)
      ensures BytesBits(Octets(b))[i] == b[i]
    {
      var k := i / 8;
      ValToBits(b[8 * k..8 * k + 8]);
    }
  }

  lemma WordsBitsSlice(words: seq<Word>, k: nat)
    requires k < |words|
    ensures WordsBits(words)[32 * k..32 * k + 32] == ToBits(words[k], 32)
  {
  }

  /** The given bits lie from p to q. */
  predicate Lies(b: seq<bool>, p: nat, q: nat, bits: seq<bool>) {
    p <= q <= |b| && b[p..q] == bits
  }

  lemma LiesJoin(b: seq<bool>, p: nat, m: nat, q: nat, x: seq<bool>, y: seq<bool>)
    requires Lies(b, p, m, x) && Lies(b, m, q, y)
    ensures Lies(b, p, q, x + y)
  {
  }

  lemma LiesSplit(b: seq<bool>, p: nat, q: nat, x: seq<bool>, y: seq<bool>)
    requires Lies(b, p, q, x + y)
    ensures Lies(b, p, p + |x|, x) && Lies(b, p + |x|, q, y)
  {
    assert b[p..q][..|x|] == x && b[p..q][|x|..] == y;
  }
}
