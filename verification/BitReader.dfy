/** The bit readers of both parsers: a cursor of a word index and a bit offset (31 for the
    high-order bit) over words, with get, peek and unget, and the two Exp-Golomb decoders
    that read a byte at a time. */
module BitReader {
  import opened BitStrings
  import opened ExpGolomb

  /** The 32-bit two's complement number with the low-order bits of x. */
  function Int32(x: int): (r: int)
    ensures -0x8000_0000 <= r < 0x8000_0000
  {
    (x + 0x8000_0000) % 0x1_0000_0000 - 0x8000_0000
  }

  lemma ReadOneWord(w: Word, o: nat, n: nat)
    requires o < 32 && 1 <= n <= o + 1
    ensures Low(Shr(w, o - n + 1), n) == Val(ToBits(w, 32)[31 - o..31 - o + n])
  {
    var b := ToBits(w, 32);
    var a, s, c := b[..31 - o], b[31 - o..31 - o + n], b[31 - o + n..];
    WordVal(w);
    ValSplit(a + s, c);
    ValSplit(a, s);
    assert b == a + s + c;
  }

  lemma KeepLow(b: seq<bool>, n: nat)
    requires n <= |b|
    ensures Low(Val(b), n) == Val(b[|b| - n..])
  {
    ValSplit(b[..|b| - n], b[|b| - n..]);
    assert b == b[..|b| - n] + b[|b| - n..];
  }

  /** The end of w joined to the start of v, off being the offset after the read. */
  function Joined(w: Word, v: Word, off: nat): nat
    requires off < 32
  {
    Low(Shr(Shr(v, off), 1) + Low(Shl(w, 31 - off), 32), 32)
  }

  lemma {:induction false} ShrTwice(v: nat, k: nat)
    ensures Shr(Shr(v, k), 1) == Shr(v, k + 1)
  {
    if k > 0 {
      ShrTwice(v / 2, k - 1);
    }
  }

  /** The start of the second word, shifted right in two steps. */
  lemma ShiftedRight(v: Word, m: nat)
    requires m <= 31
    ensures Shr(Shr(v, 31 - m), 1) == Val(ToBits(v, 32)[..m])
  {
    var c := ToBits(v, 32);
    WordVal(v);
    ShrTwice(v, 31 - m);
    ValSplit(c[..m], c[m..]);
    assert c == c[..m] + c[m..];
  }

  /** The end of the first word, shifted left within 32 bits. */
  lemma ShiftedLeft(w: Word, m: nat)
    requires m <= 31
    ensures Low(Shl(w, m), 32) == Val(ToBits(w, 32)[m..] + Zeros(m))
  {
    var a := ToBits(w, 32);
    WordVal(w);
    ValShl(a, m);
    KeepLow(a + Zeros(m), 32);
    assert (a + Zeros(m))[m..] == a[m..] + Zeros(m);
  }

  lemma JoinedHalves(a: seq<bool>, t: seq<bool>, n: nat)
    requires |a| + |t| == n
    ensures Low(Val(t) + Val(a + Zeros(|t|)), n) == Val(a + t)
  {
    ValJoin(a, t);
    KeepLow(a + t, n);
    assert (a + t)[0..] == a + t;
  }

  lemma JoinedVal(w: Word, v: Word, m: nat)
    requires m <= 31
    ensures Joined(w, v, 31 - m) == Val(ToBits(w, 32)[m..] + ToBits(v, 32)[..m])
  {
    ShiftedRight(v, m);
    ShiftedLeft(w, m);
    JoinedHalves(ToBits(w, 32)[m..], ToBits(v, 32)[..m], 32);
  }

  /** Joining the end of one word to the start of the next. */
  lemma ReadTwoWords(w: Word, v: Word, o: nat, n: nat)
    requires o < 32 && o + 1 <= n <= 32
    ensures Low(Joined(w, v, o - n + 32), n) == Val(ToBits(w, 32)[31 - o..] + ToBits(v, 32)[..n - o - 1])
  {
    var m := n - o - 1;
    JoinedVal(w, v, m);
    MaskJoined(ToBits(w, 32), ToBits(v, 32)[..m], o, n);
  }

  lemma MaskJoined(a: seq<bool>, t: seq<bool>, o: nat, n: nat)
    requires |a| == 32 && o < 32 && o + 1 + |t| == n <= 32
    ensures Low(Val(a[|t|..] + t), n) == Val(a[31 - o..] + t)
  {
    ghost var b := a[|t|..] + t;
    assert b[32 - n..] == a[31 - o..] + t;
    KeepLow(b, n);
  }

  lemma SliceOfSlice(b: seq<bool>, i: nat, x: nat, y: nat)
    requires i + 32 <= |b| && x <= y <= 32
    ensures b[i..i + 32][x..y] == b[i + x..i + y]
  {
    var c := b[i..i + 32];
    forall j | 0 <= j < y - x
      ensures c[x..y][j] == b[i + x..i + y][j]
    {
      assert c[x..y][j] == c[x + j] == b[i + x + j];
    }
  }

  /** The n bits at offset o of word k: the shifts and masks of _avcGetBits. The word after
      it is read when the n bits reach its start. */
  function BitsAt(data: seq<Word>, k: nat, o: nat, n: nat): (w: nat)
    requires k < |data| && o < 32 && 1 <= n <= 32
    requires n > o ==> k + 1 < |data|
  {
    if n <= o then
      Low(Shr(data[k], o - n + 1), n)
    else
      Low(Joined(data[k], data[k + 1], o - n + 32), n)
  }

  /** b is the concatenation of the words' bits. */
  ghost predicate IsBitsOf(b: seq<bool>, data: seq<Word>) {
    && |b| == 32 * |data|
    && forall k {:trigger data[k]} | 0 <= k < |data| :: b[32 * k..32 * k + 32] == ToBits(data[k], 32)
  }

  lemma WordsBitsAre(data: seq<Word>)
    ensures IsBitsOf(WordsBits(data), data)
  {
    forall k | 0 <= k < |data|
      ensures WordsBits(data)[32 * k..32 * k + 32] == ToBits(data[k], 32)
    {
      WordsBitsSlice(data, k);
    }
  }

  lemma AcrossWords(b: seq<bool>, data: seq<Word>, k: nat, o: nat, m: nat)
    requires IsBitsOf(b, data) && k + 1 < |data| && o < 32 && m <= 31
    ensures var p := 32 * k + 31 - o;
      b[p..p + o + 1 + m] == ToBits(data[k], 32)[31 - o..] + ToBits(data[k + 1], 32)[..m]
  {
    var q := 32 * k + 32;
    SliceOfSlice(b, 32 * k, 31 - o, 32);
    SliceOfSlice(b, q, 0, m);
    assert b[q - o - 1..q + m] == b[q - o - 1..q] + b[q..q + m];
  }

  lemma BitsAtVal(b: seq<bool>, data: seq<Word>, k: nat, o: nat, n: nat)
    requires IsBitsOf(b, data) && k < |data| && o < 32 && 1 <= n <= 32
    requires n > o ==> k + 1 < |data|
    ensures var p := 32 * k + 31 - o;
      p + n <= 32 * |data| && BitsAt(data, k, o, n) == Val(b[p..p + n])
  {
    if n <= o {
      InOneWord(b, data, k, o, n);
      ReadOneWord(data[k], o, n);
    } else {
      AcrossWords(b, data, k, o, n - o - 1);
      ReadTwoWords(data[k], data[k + 1], o, n);
    }
  }

  lemma InOneWord(b: seq<bool>, data: seq<Word>, k: nat, o: nat, n: nat)
    requires IsBitsOf(b, data) && k < |data| && o < 32 && n <= o + 1
    ensures var p := 32 * k + 31 - o; b[p..p + n] == ToBits(data[k], 32)[31 - o..31 - o + n]
  {
    SliceOfSlice(b, 32 * k, 31 - o, 31 - o + n);
  }

  lemma ValBit(b: seq<bool>)
    requires |b| == 1
    ensures Val(b) == if b[0] then 1 else 0
  {
  }

  /** The high-order bit of a byte. */
  lemma TopBit(b: seq<bool>)
    requires |b| == 8
    ensures Val(b) / 128 % 2 == if b[0] then 1 else 0
  {
    assert b == [b[0]] + b[1..] && Pow2(7) == 128;
    ValBound(b[1..]);
    if b[0] {
      ValMarked(b[1..]);
    } else {
      ValUnmarked(b[1..]);
    }
  }

  lemma ShiftOutZero(b: seq<bool>, t: nat)
    requires t < |b| == 8 && !b[t]
    ensures Val(b[t..] + Zeros(t)) * 2 == Val(b[t + 1..] + Zeros(t + 1)) < 0x1_0000_0000
  {
    var rest := b[t + 1..] + Zeros(t);
    assert b[t..] + Zeros(t) == [false] + rest;
    ValUnmarked(rest);
    ValSnoc(rest, false);
    assert b[t + 1..] + Zeros(t + 1) == rest + [false];
    ByteBound(rest + [false]);
  }

  lemma FirstBitSet(b: seq<bool>, p: nat)
    requires p < |b| && b[p]
    ensures LeadingZeros(b, p) == 0 && CodeFits(b, p) && CodeNum(b, p) == 0
  {
    assert Pow2(0) == 1;
  }

  /** A zero byte read is part of the leading zeros. */
  lemma ByteZero(b: seq<bool>, p: nat, length: nat)
    requires 9 <= length && p + length <= |b| && Val(b[p + length - 8..p + length]) == 0
    requires forall i | p <= i < p + length - 8 :: !b[i]
    ensures forall i | p <= i < p + length :: !b[i]
    ensures length <= LeadingZeros(b, p)
  {
    var c := b[p + length - 8..p + length];
    ValZeroIff(c);
    forall i | p <= i < p + length
      ensures !b[i]
    {
      if i >= p + length - 8 {
        assert b[i] == c[i - (p + length - 8)];
      }
    }
  }

  /** Where the first one lies, once the byte that holds it was read. */
  lemma MarkingOne(b: seq<bool>, p: nat, length: nat, t: nat)
    requires 9 <= length && p + length <= |b| && t < 8
    requires forall i | p <= i < p + length - 8 :: !b[i]
    requires var c := b[p + length - 8..p + length]; c[t] && forall i | 0 <= i < t :: !c[i]
    ensures LeadingZeros(b, p) == length - (8 - t)
  {
    var c := b[p + length - 8..p + length];
    forall i | p <= i < p + length - 8 + t
      ensures !b[i]
    {
      if i >= p + length - 8 {
        assert b[i] == c[i - (p + length - 8)];
      }
    }
    assert b[p + length - 8 + t] == c[t];
    LeadingZerosUnique(b, p, length - 8 + t);
  }

  /** What the bounded search for the marking one knows. */
  lemma SearchResult(b: seq<bool>, p: nat, length: nat, code: nat, t: nat)
    requires 9 <= length && p + length <= |b| && code == Val(b[p + length - 8..p + length])
    requires forall i | p <= i < p + length - 8 :: !b[i]
    requires code != 0 ==>
      t < 8 && (var c := b[p + length - 8..p + length]; c[t] && forall i | 0 <= i < t :: !c[i])
    ensures code == 0 ==> LeadingZeros(b, p) >= length
    ensures code != 0 ==> LeadingZeros(b, p) == length - 8 + t
  {
    if code == 0 {
      ByteZero(b, p, length);
    } else {
      MarkingOne(b, p, length, t);
    }
  }

  lemma CodeNumBound(b: seq<bool>, p: nat)
    requires p <= |b| && CodeFits(b, p) && LeadingZeros(b, p) <= 31
    ensures CodeNum(b, p) < 0xFFFF_FFFF
  {
    var n := LeadingZeros(b, p);
    ValBound(b[p + n + 1..p + 2 * n + 1]);
    Pow2Monotone(n, 31);
    Pow2Values();
  }

  class AVCBaseBitstream {
    const data: seq<Word>  // the words from m_pbsBase on; the reader never writes them
    const maxSize: nat     // m_uMaxBsSize, in bytes
    var pbs: nat
    var bitOffset: int

    ghost const bits: seq<bool>  // the bits of data

    ghost predicate Valid()
      reads this
    {
      0 <= bitOffset <= 31 && IsBitsOf(bits, data)
    }

    function Pos(): (p: nat)
      requires 0 <= bitOffset <= 31
      reads this
    {
      32 * pbs + 31 - bitOffset
    }

    constructor (data: seq<Word>, maxSize: nat)
      ensures Valid() && Pos() == 0 && this.data == data && this.maxSize == maxSize
      ensures bits == WordsBits(data)
    {
      WordsBitsAre(data);
      this.data, this.maxSize := data, maxSize;
      pbs, bitOffset, bits := 0, 31, WordsBits(data);
    }

    /** Reads n bits. One more bit than it reads has to be there, because a read that ends
        on a word boundary also touches the next word. */
    method GetBits(n: nat) returns (w: nat)
      requires Valid() && 1 <= n <= 32 && Pos() + n < |bits|
      modifies this
      ensures Valid() && Pos() == old(Pos()) + n
      ensures w == Val(bits[old(Pos())..old(Pos()) + n]) && w < Pow2(n)
    {
      BitsAtVal(bits, data, pbs, bitOffset, n);
      ValBound(bits[Pos()..Pos() + n]);
      w := BitsAt(data, pbs, bitOffset, n);
      bitOffset := bitOffset - n;
      if bitOffset < 0 {
        bitOffset := bitOffset + 32;
        pbs := pbs + 1;
      }
    }

    /** Reads one bit; unlike GetBits it touches one word only. */
    method Get1Bit() returns (w: nat)
      requires Valid() && Pos() < |bits|
      modifies this
      ensures Valid() && Pos() == old(Pos()) + 1
      ensures w == if bits[old(Pos())] then 1 else 0
    {
      ReadOneWord(data[pbs], bitOffset, 1);
      InOneWord(bits, data, pbs, bitOffset, 1);
      ValBit(bits[Pos()..Pos() + 1]);
      w := Shr(data[pbs], bitOffset) % 2;
      bitOffset := bitOffset - 1;
      if bitOffset < 0 {
        bitOffset := 31;
        pbs := pbs + 1;
      }
    }

    /** The next n bits, which stay unread. */
    method NextBits(n: nat) returns (w: nat)
      requires Valid() && 1 <= n <= 32 && Pos() + n < |bits|
      ensures w == Val(bits[Pos()..Pos() + n])
    {
      BitsAtVal(bits, data, pbs, bitOffset, n);
      w := BitsAt(data, pbs, bitOffset, n);
    }

    /** Goes back over n bits. */
    method UngetBits(n: nat)
      requires Valid() && n <= 32 && n <= Pos()
      modifies this
      ensures Valid() && Pos() == old(Pos()) - n
    {
      bitOffset := bitOffset + n;
      if bitOffset > 31 {
        bitOffset := bitOffset - 32;
        pbs := pbs - 1;
      }
    }

    /** Whole bytes read. */
    function BytesDecoded(): (n: nat)
      requires 0 <= bitOffset <= 31
      reads this
      ensures n == Pos() / 8
    {
      4 * pbs + (31 - bitOffset) / 8
    }

    /** Bytes not read yet; buffers stay below 2^31 bytes, where the casts change nothing. */
    function BytesLeft(): (n: int)
      requires 0 <= bitOffset <= 31
      reads this
      ensures n == maxSize - Pos() / 8
    {
      maxSize - BytesDecoded()
    }

    /** The byte in hand once the zeros at its front are shifted out: t of them were. */
    method LeadingOne(byte: nat, ghost b: seq<bool>) returns (t: nat)
      requires |b| == 8 && byte == Val(b) && byte != 0
      ensures t < 8 && b[t] && forall i | 0 <= i < t :: !b[i]
    {
      var code := byte;
      t := 0;
      ValZeroIff(b);
      assert b[0..] + Zeros(0) == b;
      while code / 128 % 2 == 0
        invariant t < 8 && (forall i | 0 <= i < t :: !b[i])
        invariant code == Val(b[t..] + Zeros(t))
        decreases 8 - t
      {
        TopBit(b[t..] + Zeros(t));
        ShiftOutZero(b, t);
        code := code * 2 % 0x1_0000_0000;
        t := t + 1;
      }
      TopBit(b[t..] + Zeros(t));
    }

    /** Reads bytes up to the first one that is not zero. */
    method SkipZeroBytes(ghost p: nat) returns (code: nat, length: nat)
      requires Valid() && Pos() == p + 1 < |bits| && !bits[p]
      requires p + LeadingZeros(bits, p) + 8 < |bits|
      modifies this
      ensures Valid() && Pos() == p + length < |bits| && length >= 9
      ensures code == Val(bits[p + length - 8..p + length]) && code != 0
      ensures forall i | p <= i < p + length - 8 :: !bits[i]
    {
      ghost var b, n := bits, LeadingZeros(bits, p);
      code := GetBits(8);
      length := 9;
      while code == 0
        invariant Valid() && Pos() == p + length < |b| && 9 <= length <= n + 8
        invariant code == Val(b[p + length - 8..p + length])
        invariant forall i | p <= i < p + length - 8 :: !b[i]
        decreases n + 8 - length
      {
        ByteZero(b, p, length);
        code := GetBits(8);
        length := length + 8;
      }
    }

    /** ue(v) or se(v) the way the AVC parser reads it, a byte at a time with look-ahead.
        The caller has to know of a one within the next 32 bits, and of the bits looked at. */
    method DecodeExpGolombOne(isSigned: bool) returns (dst: int)
      requires Valid() && Pos() < |bits| && LeadingZeros(bits, Pos()) <= 31
      requires Pos() + 2 * LeadingZeros(bits, Pos()) + 8 < |bits|
      modifies this
      ensures Valid() && Pos() == old(Pos()) + 2 * LeadingZeros(bits, old(Pos())) + 1
      ensures CodeFits(bits, old(Pos()))
      ensures dst == if isSigned then SeValue(CodeNum(bits, old(Pos()))) else Int32(CodeNum(bits, old(Pos())))
    {
      ghost var b, p := bits, Pos();
      var code := GetBits(1);
      ValBit(b[p..p + 1]);
      if code != 0 {
        FirstBitSet(b, p);
        return 0;
      }
      var length;
      code, length := SkipZeroBytes(p);
      var chunk := LeadingOne(code, b[p + length - 8..p + length]);
      MarkingOne(b, p, length, chunk);
      length := length - (8 - chunk);
      UngetBits(8 - (chunk + 1));
      dst := ReadInfo(length, isSigned, p);
    }

    /** The suffix of a code word at p whose marking one was read, and the value coded. */
    method ReadInfo(length: nat, isSigned: bool, ghost p: nat) returns (dst: int)
      requires Valid() && 1 <= length <= 31 && p + 2 * length + 1 < |bits|
      requires length == LeadingZeros(bits, p) && Pos() == p + length + 1
      modifies this
      ensures Valid() && Pos() == p + 2 * length + 1 && CodeFits(bits, p)
      ensures dst == if isSigned then SeValue(CodeNum(bits, p)) else Int32(CodeNum(bits, p))
    {
      var info := GetBits(length);
      dst := Finish(length, info, isSigned);
    }

    static method Finish(length: nat, info: nat, isSigned: bool) returns (dst: int)
      requires length <= 31 && info < Pow2(length)
      ensures var k := Pow2(length) - 1 + info; dst == if isSigned then SeValue(k) else Int32(k)
    {
      Pow2Monotone(length, 31);
      Pow2Values();
      var sval := Pow2(length) + info - 1;
      if isSigned {
        dst := if sval % 2 == 1 then (sval + 1) / 2 else -(sval / 2);
      } else {
        dst := Int32(sval);
      }
    }

    /** The same search with the HEVC parser's bound of 32 rounds: a zero byte takes them all. */
    method LeadingOneH265(byte: nat, ghost b: seq<bool>) returns (t: nat)
      requires |b| == 8 && byte == Val(b)
      ensures byte != 0 ==> t < 8 && b[t] && forall i | 0 <= i < t :: !b[i]
      ensures byte == 0 ==> t == 32
    {
      var code := byte;
      t := 0;
      ValZeroIff(b);
      assert b[0..] + Zeros(0) == b;
      while code / 128 % 2 == 0 && 32 > t
        invariant byte == 0 ==> code == 0 && t <= 32
        invariant byte != 0 ==> t < 8 && (forall i | 0 <= i < t :: !b[i]) && code == Val(b[t..] + Zeros(t))
        decreases 32 - t
      {
        if byte != 0 {
          TopBit(b[t..] + Zeros(t));
          ShiftOutZero(b, t);
        }
        code := code * 2 % 0x1_0000_0000;
        t := t + 1;
      }
      if byte != 0 {
        TopBit(b[t..] + Zeros(t));
      }
    }

    /** Reads bytes up to the first one that is not zero, four at most. */
    method SkipZeroBytesH265(ghost p: nat) returns (code: nat, length: nat)
      requires Valid() && Pos() == p + 1 && p + 33 < |bits| && !bits[p]
      modifies this
      ensures Valid() && Pos() == p + length && 9 <= length <= 33
      ensures code == Val(bits[p + length - 8..p + length])
      ensures code == 0 ==> length == 33
      ensures forall i | p <= i < p + length - 8 :: !bits[i]
    {
      ghost var b := bits;
      code := GetBits(8);
      length := 9;
      while code == 0 && 32 > length
        invariant Valid() && Pos() == p + length && length in {9, 17, 25, 33}
        invariant code == Val(b[p + length - 8..p + length])
        invariant forall i | p <= i < p + length - 8 :: !b[i]
        decreases 33 - length
      {
        ByteZero(b, p, length);
        code := GetBits(8);
        length := length + 8;
      }
    }

    /** Skips length bits, from an offset that going back may have left negative. */
    method SkipLongCode(length: nat)
      requires -32 < bitOffset <= 31 && bitOffset < length && IsBitsOf(bits, data)
      modifies this
      ensures Valid() && Pos() == old(32 * pbs + 31 - bitOffset) + length
    {
      var rest := length - (bitOffset + 1);
      var dwords := rest / 32;
      pbs := pbs + dwords + 1;
      bitOffset := 31 - (rest - 32 * dwords);
    }

    /** ue(v) or se(v) the way the HEVC parser reads it: any bits will do, and a code of 32
        or more leading zeros is refused after it has been skipped. */
    method DecodeExpGolombOne_H265(isSigned: bool) returns (ok: bool, dst: int)
      requires Valid() && Pos() + 64 < |bits|
      modifies this
      ensures Valid() && (ok <==> LeadingZeros(bits, old(Pos())) <= 31)
      ensures ok ==> Pos() == old(Pos()) + 2 * LeadingZeros(bits, old(Pos())) + 1 && CodeFits(bits, old(Pos()))
      ensures ok ==> dst == if isSigned then SeValue(CodeNum(bits, old(Pos()))) else Int32(CodeNum(bits, old(Pos())))
      ensures !ok ==> dst == 0 && Pos() == old(Pos()) + if LeadingZeros(bits, old(Pos())) == 32 then 65 else 115
    {
      ghost var b, p := bits, Pos();
      var code := GetBits(1);
      ValBit(b[p..p + 1]);
      if code != 0 {
        FirstBitSet(b, p);
        return true, 0;
      }
      var length: int;
      code, length := SkipZeroBytesH265(p);
      var chunk := LeadingOneH265(code, b[p + length - 8..p + length]);
      SearchResult(b, p, length, code, chunk);
      length := length + chunk - 8;
      // going back by 7 - chunk bits; with chunk == 32 the offset loses 25 and may get negative
      bitOffset := bitOffset + 7 - chunk;
      if bitOffset > 31 {
        bitOffset := bitOffset - 32;
        pbs := pbs - 1;
      }
      if 32 <= length || 32 <= chunk {
        SkipLongCode(length);
        return false, 0;
      }
      dst := ReadInfo(length, isSigned, p);
      ok := true;
    }

    /** GetVLCElement of the AVC parser, whose decoder reports no error. */
    method GetVLCElement(isSigned: bool) returns (v: int)
      requires Valid() && Pos() < |bits| && LeadingZeros(bits, Pos()) <= 31
      requires Pos() + 2 * LeadingZeros(bits, Pos()) + 8 < |bits|
      modifies this
      ensures Valid() && Pos() == old(Pos()) + 2 * LeadingZeros(bits, old(Pos())) + 1
      ensures CodeFits(bits, old(Pos()))
      ensures v == if isSigned then SeValue(CodeNum(bits, old(Pos()))) else Int32(CodeNum(bits, old(Pos())))
    {
      v := DecodeExpGolombOne(isSigned);
    }

    /** GetVLCElementU of the HEVC parser; a refused code is an exception. */
    method GetVLCElementU() returns (ok: bool, v: nat)
      requires Valid() && Pos() + 64 < |bits|
      modifies this
      ensures Valid() && (ok <==> LeadingZeros(bits, old(Pos())) <= 31)
      ensures ok ==> Pos() == old(Pos()) + 2 * LeadingZeros(bits, old(Pos())) + 1
      ensures ok ==> CodeFits(bits, old(Pos())) && v == CodeNum(bits, old(Pos()))
    {
      var sval;
      ok, sval := DecodeExpGolombOne_H265(false);
      if ok {
        CodeNumBound(bits, old(Pos()));
      }
      v := sval % 0x1_0000_0000;
    }

    /** GetVLCElementS of the HEVC parser. */
    method GetVLCElementS() returns (ok: bool, v: int)
      requires Valid() && Pos() + 64 < |bits|
      modifies this
      ensures Valid() && (ok <==> LeadingZeros(bits, old(Pos())) <= 31)
      ensures ok ==> Pos() == old(Pos()) + 2 * LeadingZeros(bits, old(Pos())) + 1
      ensures ok ==> CodeFits(bits, old(Pos())) && v == SeValue(CodeNum(bits, old(Pos())))
    {
      ok, v := DecodeExpGolombOne_H265(true);
    }
  }
}
