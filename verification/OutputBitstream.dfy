/** The bit writer: bits are appended to a byte buffer, most significant bit first, and
    each byte completed is escaped on the spot. */
module OutputBitstreams {
  import opened BitStrings
  import opened Closing
  import opened Emulation
  import opened ExpGolomb

  /** The completed bytes of a stream of bits. */
  function Completed(bits: seq<bool>, emulation: bool): seq<Byte> {
    if emulation then Escape(Octets(bits)) else Octets(bits)
  }

  /** The bits of the byte still being filled. */
  function Tail(bits: seq<bool>): (t: seq<bool>)
    ensures |t| == |bits| % 8
  {
    bits[8 * (|bits| / 8)..]
  }

  /** A byte that starts with the given bits and has zeros after them. */
  function Partial(tail: seq<bool>): Byte
    requires |tail| <= 8
  {
    ByteBound(tail + Zeros(8 - |tail|));
    Val(tail + Zeros(8 - |tail|))
  }

  /** A byte with its first off bits kept, the given bit after them and zeros below:
      the source's mask and shifts. */
  function SetBit(x: nat, off: nat, bit: nat): nat
    requires off < 8
  {
    Shl(Shr(x, 8 - off), 8 - off) + Shl(bit, 7 - off)
  }

  /** The bytes a buffer holds after the given bits were put into it. */
  function Encoded(bits: seq<bool>, emulation: bool): seq<Byte> {
    Completed(bits, emulation) + if |bits| % 8 == 0 then [] else [Partial(Tail(bits))]
  }

  /** The bits PutTrailingBits adds: a one, then zeros up to the next byte boundary. */
  function TrailingBits(n: nat): (b: seq<bool>)
    ensures (n + |b|) % 8 == 0
  {
    [true] + Zeros(7 - n % 8)
  }

  lemma TrailingCloses(bits: seq<bool>)
    ensures Closes(bits, bits + TrailingBits(|bits|))
  {
    assert (bits + TrailingBits(|bits|))[..|bits|] == bits;
  }

  lemma OctetsNext(bits: seq<bool>, b: bool)
    ensures |bits| % 8 != 7 ==> Octets(bits + [b]) == Octets(bits) && Tail(bits + [b]) == Tail(bits) + [b]
    ensures |bits| % 8 == 7 ==> Octets(bits + [b]) == Octets(bits) + [Partial(Tail(bits) + [b])]
  {
    var n := |bits| / 8;
    assert forall i | 0 <= i < n :: (bits + [b])[8 * i..8 * i + 8] == bits[8 * i..8 * i + 8];
    if |bits| % 8 == 7 {
      assert (bits + [b])[8 * n..8 * n + 8] == Tail(bits) + [b] + Zeros(0);
    }
  }

  lemma SetBitOf(head: seq<bool>, rest: seq<bool>, b: bool)
    requires |head| < 8 && |head| + |rest| == 8
    ensures SetBit(Val(head + rest), |head|, if b then 1 else 0) == Partial(head + [b])
  {
    var n := 7 - |head|;
    ValSplit(head, rest);
    ValShl(head, n + 1);
    ValShl([b], n);
    assert [b][..0] == [] && Val([b]) == if b then 1 else 0;
    ValJoin(head, [b] + Zeros(n));
    PartialOf(head, b, n);
  }

  lemma PartialOf(head: seq<bool>, b: bool, n: nat)
    requires |head| + 1 + n == 8
    ensures Partial(head + [b]) == Val(head + ([b] + Zeros(n)))
  {
    assert head + ([b] + Zeros(n)) == head + [b] + Zeros(n);
  }

  /** Or-ing a bit into the byte below its first |tail| bits. */
  lemma PartialNext(x: Byte, tail: seq<bool>, b: bool)
    requires |tail| < 8
    requires tail == [] || x == Partial(tail)
    ensures SetBit(x, |tail|, if b then 1 else 0) == Partial(tail + [b])
  {
    if tail == [] {
      ByteVal(x);
      assert [] + ToBits(x, 8) == ToBits(x, 8);
      SetBitOf([], ToBits(x, 8), b);
    } else {
      SetBitOf(tail, Zeros(8 - |tail|), b);
    }
  }

  lemma EncodedNext(bits: seq<bool>, b: bool, emulation: bool)
    ensures |Encoded(bits, emulation)| <= |Encoded(bits + [b], emulation)|
    ensures |bits| % 8 != 7 ==> Completed(bits + [b], emulation) == Completed(bits, emulation)
    ensures |bits| % 8 == 7 ==> var x := Partial(Tail(bits) + [b]); var c := Completed(bits, emulation);
      Completed(bits + [b], emulation) == if emulation then EscapeNext(c, x) else c + [x]
  {
    OctetsNext(bits, b);
    if |bits| % 8 == 7 {
      EscapeAppend(Octets(bits), Partial(Tail(bits) + [b]));
    }
  }

  lemma {:induction false} EncodedGrows(a: seq<bool>, b: seq<bool>, emulation: bool)
    ensures |Encoded(a, emulation)| <= |Encoded(a + b, emulation)|
  {
    if b == [] {
      assert a + b == a;
    } else {
      var b' := b[..|b| - 1];
      EncodedGrows(a, b', emulation);
      assert a + b == (a + b') + [b[|b| - 1]];
      EncodedNext(a + b', b[|b| - 1], emulation);
    }
  }

  /** Putting the bits of b one by one needs no more room than putting them all. */
  lemma NextBit(before: seq<bool>, b: seq<bool>, k: nat, emulation: bool)
    requires k < |b|
    ensures before + b[..k] + [b[k]] == before + b[..k + 1]
    ensures |Encoded(before + b[..k + 1], emulation)| <= |Encoded(before + b, emulation)|
  {
    EncodedGrows(before + b[..k + 1], b[k + 1..], emulation);
    assert before + b == before + b[..k + 1] + b[k + 1..];
  }

  lemma NextBitOf(before: seq<bool>, val: nat, nbits: nat, n: nat, emulation: bool)
    requires 0 < n <= nbits
    ensures var b := ToBits(val, nbits);
      && before + b[..nbits - n] + [Shr(val, n - 1) % 2 == 1] == before + b[..nbits - n + 1]
      && |Encoded(before + b[..nbits - n + 1], emulation)| <= |Encoded(before + b, emulation)|
  {
    var b := ToBits(val, nbits);
    BitAt(val, nbits, n);
    NextBit(before, b, nbits - n, emulation);
  }

  lemma BitAt(val: nat, nbits: nat, n: nat)
    requires 0 < n <= nbits
    ensures ToBits(val, nbits)[nbits - n] == (Shr(val, n - 1) % 2 == 1)
  {
    assert ToBits(val, nbits)[nbits - n] == Bit(val, n - 1);
  }

  lemma UeZero()
    ensures UeBits(0) == [true]
  {
    assert ToBits(1, 1) == [true];
  }

  lemma {:induction false} ShrPositive(v: nat, n: nat)
    ensures Shr(v, n) > 0 <==> v >= Pow2(n)
  {
    if n > 0 {
      ShrPositive(v / 2, n - 1);
    }
  }

  lemma UePartsGrow(bits: seq<bool>, a: seq<bool>, b: seq<bool>, emulation: bool)
    ensures bits + a + b == bits + (a + b)
    ensures |Encoded(bits + a, emulation)| <= |Encoded(bits + (a + b), emulation)|
  {
    assert bits + a + b == bits + (a + b);
    EncodedGrows(bits + a, b, emulation);
  }

  lemma UeParts(v: nat, n: nat, bits: seq<bool>, emulation: bool)
    requires n > 0 && Pow2(n - 1) <= v < Pow2(n)
    ensures v > 0 && bits + ToBits(0, n - 1) + ToBits(v, n) == bits + UeBits(v - 1)
    ensures |Encoded(bits + ToBits(0, n - 1), emulation)| <= |Encoded(bits + UeBits(v - 1), emulation)|
  {
    Log2Unique(v, n - 1);
    ToBitsZero(n - 1);
    UePartsGrow(bits, ToBits(0, n - 1), ToBits(v, n), emulation);
  }

  class OutputBitstream {
    const buf: array<Byte>
    var ptr: nat
    var bitOff: nat
    const emulation: bool
    ghost var bits: seq<bool>  // everything put so far

    ghost predicate Valid()
      reads this, buf
    {
      && bitOff == |bits| % 8
      && ptr == |Completed(bits, emulation)| <= buf.Length
      && buf[..ptr] == Completed(bits, emulation)
      && (bitOff > 0 ==> ptr < buf.Length && buf[ptr] == Partial(Tail(bits)))
    }

    constructor (buf: array<Byte>, emulation: bool := true)
      modifies buf
      ensures Valid() && this.buf == buf && this.emulation == emulation && bits == []
    {
      this.buf, this.emulation := buf, emulation;
      ptr, bitOff, bits := 0, 0, [];
      new;
      if ptr < buf.Length {
        buf[ptr] := 0;
      }
    }

    /** The completed bytes never hold a start code, and without their preventing bytes
        they are the bits put so far, in bytes. */
    lemma CompletedBytesAreSafe()
      requires Valid() && emulation
      ensures WellEscaped(buf[..ptr])
      ensures Unescape(buf[..ptr]) == Octets(bits)
      ensures BytesBits(Unescape(buf[..ptr])) == bits[..|bits| - bitOff]
    {
      EscapeWellEscaped(Octets(bits));
      UnescapeEscape(Octets(bits));
      OctetsBits(bits);
      assert |bits| == 8 * (|bits| / 8) + bitOff;
    }

    /** The bits put so far and eight more for each preventing byte inserted. */
    method GetNumBits() returns (n: nat)
      requires Valid()
      ensures n == 8 * |Completed(bits, emulation)| + |bits| % 8
      ensures n == |bits| + 8 * (|Completed(bits, emulation)| - |Octets(bits)|)
      ensures !emulation ==> n == |bits|
    {
      n := 8 * ptr + bitOff;
    }

    /** Closes the byte just filled, with a preventing byte before it when one is needed. */
    method FinishByte(ghost done: seq<Byte>) returns (ok: bool)
      requires bitOff == 8 && ptr == |done| < buf.Length && buf[..ptr] == done
      modifies this`ptr, this`bitOff, buf
      ensures var next := if emulation then EscapeNext(done, old(buf[ptr])) else done + [old(buf[ptr])];
        && (ok <==> |next| <= buf.Length)
        && (ok ==> bitOff == 0 && ptr == |next| && buf[..ptr] == next)
      ensures !ok ==> ptr == old(ptr) && bitOff == 8 && buf[..ptr] == done
    {
      assert EndsWithTwoZeros(done) <==> ptr >= 2 && buf[ptr - 1] == 0 && buf[ptr - 2] == 0;
      if emulation && ptr >= 2 && buf[ptr] < 4 && buf[ptr - 1] == 0 && buf[ptr - 2] == 0 {
        if ptr + 1 >= buf.Length {
          return false;
        }
        buf[ptr + 1] := buf[ptr];
        buf[ptr] := 3;
        ptr := ptr + 1;
      }
      bitOff := 0;
      ptr := ptr + 1;
      if ptr < buf.Length {
        buf[ptr] := 0;
      }
      ok := true;
    }

    /** Appends one bit. It fails exactly when the bytes needed do not fit; the completed
        bytes then stay as they were. A failure to insert a preventing byte leaves the bit
        offset at 8, and the writer is not usable after that. */
    method PutBit(bit: nat) returns (ok: bool)
      requires Valid() && bit <= 1
      modifies this, buf
      ensures ok <==> |Encoded(old(bits) + [bit == 1], emulation)| <= buf.Length
      ensures ok ==> Valid() && bits == old(bits) + [bit == 1]
      ensures ok ==> bitOff == if old(bitOff) == 7 then 0 else old(bitOff) + 1
      ensures !ok ==> bits == old(bits) && ptr == old(ptr) && buf[..ptr] == old(buf[..ptr])
      ensures !ok ==> bitOff == if old(ptr) == buf.Length then old(bitOff) else 8
    {
      ghost var c, t := Completed(bits, emulation), Tail(bits);
      EncodedNext(bits, bit == 1, emulation);
      OctetsNext(bits, bit == 1);
      if ptr >= buf.Length {
        return false;
      }
      PartialNext(buf[ptr], t, bit == 1);
      buf[ptr] := SetBit(buf[ptr], bitOff, bit);
      bitOff := bitOff + 1;
      ok := true;
      if bitOff == 8 {
        ok := FinishByte(c);
      }
      if ok {
        bits := bits + [bit == 1];
      }
    }

    /** One round of PutBits, n of the nbits bits of val being left. */
    method PutNext(val: Word, n: nat, nbits: nat, ghost before: seq<bool>) returns (ok: bool)
      requires Valid() && 0 < n <= nbits
      requires bits == before + ToBits(val, nbits)[..nbits - n]
      modifies this, buf
      ensures ok ==> Valid() && bits == before + ToBits(val, nbits)[..nbits - n + 1]
      ensures !ok ==> |Encoded(before + ToBits(val, nbits), emulation)| > buf.Length
    {
      NextBitOf(before, val, nbits, n, emulation);
      ok := PutBit(Shr(val, n - 1) % 2);
    }

    /** After the last round of PutBits all bits are there, and they fit. */
    lemma AllPut(val: Word, nbits: nat, before: seq<bool>)
      requires Valid() && bits == before + ToBits(val, nbits)[..nbits]
      ensures bits == before + ToBits(val, nbits)
      ensures |Encoded(before + ToBits(val, nbits), emulation)| <= buf.Length
    {
      assert ToBits(val, nbits)[..nbits] == ToBits(val, nbits);
    }

    /** Appends the nbits low-order bits of val, high-order bit first. */
    method PutBits(val: Word, nbits: nat) returns (ok: bool)
      requires Valid() && nbits <= 32
      modifies this, buf
      ensures ok <==> |Encoded(old(bits) + ToBits(val, nbits), emulation)| <= buf.Length
      ensures ok ==> Valid() && bits == old(bits) + ToBits(val, nbits)
    {
      ghost var before := bits;
      var n := nbits;
      while n > 0
        invariant 0 <= n <= nbits && Valid()
        invariant bits == before + ToBits(val, nbits)[..nbits - n]
      {
        ok := PutNext(val, n, nbits, before);
        if !ok {
          return;
        }
        n := n - 1;
      }
      AllPut(val, nbits, before);
      ok := true;
    }

    /** The number of bits of v up to its highest set one. */
    static method BitLength(v: nat) returns (nbits: nat)
      requires 0 < v < 0x8000_0000
      ensures 1 <= nbits <= 31 && Pow2(nbits - 1) <= v < Pow2(nbits)
    {
      nbits := 1;
      Pow2Values();
      ShrPositive(v, nbits);
      while Shr(v, nbits) > 0
        invariant 1 <= nbits <= 31 && v >= Pow2(nbits - 1) && (Shr(v, nbits) > 0 <==> v >= Pow2(nbits))
        decreases 31 - nbits
      {
        nbits := nbits + 1;
        ShrPositive(v, nbits);
      }
    }

    /** Appends ue(val). The bound keeps the incremented value below 2^31, the range in
        which the bit counting shifts are defined. */
    method PutUe(val: nat) returns (ok: bool)
      requires Valid() && val <= 0x7FFF_FFFE
      modifies this, buf
      ensures ok <==> |Encoded(old(bits) + UeBits(val), emulation)| <= buf.Length
      ensures ok ==> Valid() && bits == old(bits) + UeBits(val)
    {
      if val == 0 {
        UeZero();
        ok := PutBit(1);
      } else {
        var v := val + 1;
        var nbits := BitLength(v);
        UeParts(v, nbits, bits, emulation);
        ok := PutBits(0, nbits - 1);
        if ok {
          ok := PutBits(v, nbits);
        }
      }
    }

    /** Appends se(val), for values whose codeNum PutUe takes. */
    method PutSe(val: int) returns (ok: bool)
      requires Valid() && -0x3FFF_FFFF <= val <= 0x3FFF_FFFF
      modifies this, buf
      ensures ok <==> |Encoded(old(bits) + SeBits(val), emulation)| <= buf.Length
      ensures ok ==> Valid() && bits == old(bits) + SeBits(val)
    {
      if val <= 0 {
        ok := PutUe(-2 * val);
      } else {
        ok := PutUe(2 * val - 1);
      }
    }

    /** Bit k of t, which is to follow the bits before. */
    method PutNextOf(bit: nat, ghost before: seq<bool>, ghost t: seq<bool>, ghost k: nat) returns (ok: bool)
      requires Valid() && bit <= 1 && k < |t| && t[k] == (bit == 1) && bits == before + t[..k]
      modifies this, buf
      ensures ok ==> Valid() && bits == before + t[..k + 1]
      ensures ok ==> bitOff == if old(bitOff) == 7 then 0 else old(bitOff) + 1
      ensures !ok ==> |Encoded(before + t, emulation)| > buf.Length
    {
      NextBit(before, t, k, emulation);
      ok := PutBit(bit);
    }

    /** The loop that fills the byte. */
    method FillByte(ghost before: seq<bool>, ghost t: seq<bool>) returns (ok: bool)
      requires Valid() && 1 <= |t| <= 8 && (forall i | 1 <= i < |t| :: !t[i]) && bits == before + t[..1]
      requires if |t| == 1 then bitOff == 0 else bitOff == 9 - |t|
      modifies this, buf
      ensures ok ==> Valid() && bits == before + t && bitOff == 0
      ensures !ok ==> |Encoded(before + t, emulation)| > buf.Length
    {
      ghost var k := 1;
      while bitOff != 0
        invariant 1 <= k <= |t| && Valid() && bits == before + t[..k]
        invariant if k == |t| then bitOff == 0 else bitOff == 8 - (|t| - k)
        decreases |t| - k
      {
        ok := PutNextOf(0, before, t, k);
        if !ok {
          return;
        }
        k := k + 1;
      }
      assert t[..k] == t;
      ok := true;
    }

    /** Appends a one bit and fills the byte with zeros. */
    method PutTrailingBits() returns (ok: bool)
      requires Valid()
      modifies this, buf
      ensures ok <==> |Encoded(old(bits) + TrailingBits(|old(bits)|), emulation)| <= buf.Length
      ensures ok ==> Valid() && Closes(old(bits), bits) && bits == old(bits) + TrailingBits(|old(bits)|)
      ensures ok ==> bitOff == 0
    {
      ghost var before, t := bits, TrailingBits(|bits|);
      assert bits == before + t[..0] && |t| == 8 - bitOff;
      TrailingCloses(before);
      ok := PutNextOf(1, before, t, 0);
      if ok {
        ok := FillByte(before, t);
      }
    }
  }
}
