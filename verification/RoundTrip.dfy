/** From syntax elements to bytes and back: writing, removing the preventing bytes, packing
    into words and reading compose to the identity. */
module RoundTrip {
  import opened BitStrings
  import opened Closing
  import opened Emulation
  import opened ExpGolomb
  import opened OutputBitstreams
  import opened BytesSwapper
  import opened BitReader

  datatype Shape = FixedShape(nbits: nat) | UeShape | SeShape

  datatype Element = Fixed(val: Word, nbits: nat) | Ue(code: nat) | Se(value: int) {
    /** The values the writer's shifts and increments are defined for. */
    predicate InRange() {
      match this
      case Fixed(val, nbits) => 1 <= nbits <= 32 && val < Pow2(nbits)
      case Ue(code) => code <= 0x7FFF_FFFE
      case Se(value) => -0x3FFF_FFFF <= value <= 0x3FFF_FFFF
    }

    function Bits(): seq<bool> {
      match this
      case Fixed(val, nbits) => ToBits(val, nbits)
      case Ue(code) => UeBits(code)
      case Se(value) => SeBits(value)
    }

    function Shape(): Shape {
      match this
      case Fixed(_, nbits) => FixedShape(nbits)
      case Ue(_) => UeShape
      case Se(_) => SeShape
    }
  }

  predicate AllInRange(es: seq<Element>) {
    forall i | 0 <= i < |es| :: es[i].InRange()
  }

  function ListBits(es: seq<Element>): seq<bool> {
    if es == [] then [] else es[0].Bits() + ListBits(es[1..])
  }

  /** The elements' bits closed by the trailing bits. */
  function Payload(es: seq<Element>): (b: seq<bool>)
    ensures |b| % 8 == 0
  {
    ListBits(es) + TrailingBits(|ListBits(es)|)
  }

  lemma BytesBitsPrefix(a: seq<Byte>, b: seq<Byte>)
    ensures BytesBits(a) <= BytesBits(a + b)
  {
  }

  lemma WordsBitsPrefix(a: seq<Word>, b: seq<Word>)
    requires a <= b
    ensures WordsBits(a) <= WordsBits(b)
  {
  }

  /** Escaped, swapped and packed, a whole number of bytes is still the same bits. */
  lemma StreamSurvives(bits: seq<bool>, words: seq<Word>)
    requires |bits| % 8 == 0 && Swapped(Escape(Octets(bits))) <= words
    ensures bits <= WordsBits(words)
  {
    var bytes := Octets(bits);
    UnescapeEscape(bytes);
    OctetsBits(bits);
    PadStep(|bytes|, PadCount(|bytes|));
    PackWordsBits(PadToWords(bytes));
    BytesBitsPrefix(bytes, ZeroBytes(PadCount(|bytes|)));
    WordsBitsPrefix(PackWords(PadToWords(bytes)), words);
    assert bits[..|bits|] == bits;
  }

  lemma PaddedBits(bytes: seq<Byte>, n: nat)
    ensures BytesBits(bytes + ZeroBytes(n)) == BytesBits(bytes) + Zeros(8 * n)
  {
    ToBitsZero(8);
  }

  lemma PackedPadding(bytes: seq<Byte>)
    ensures WordsBits(PackWords(PadToWords(bytes))) == BytesBits(bytes) + Zeros(8 * PadCount(|bytes|))
  {
    PadStep(|bytes|, PadCount(|bytes|));
    PackWordsBits(PadToWords(bytes));
    PaddedBits(bytes, PadCount(|bytes|));
  }

  lemma WholeOctets(bits: seq<bool>)
    requires |bits| % 8 == 0
    ensures BytesBits(Octets(bits)) == bits
  {
    OctetsBits(bits);
    assert bits[..|bits|] == bits;
  }

  /** And the end of a closed payload is found again in the words swapped, padding included. */
  lemma PayloadRecovered(payload: seq<bool>, bits: seq<bool>)
    requires Closes(payload, bits)
    ensures Stripped(WordsBits(Swapped(Escape(Octets(bits))))) == payload
  {
    UnescapeEscape(Octets(bits));
    PackedPadding(Octets(bits));
    WholeOctets(bits);
    ClosedRecovered(payload, bits, 8 * PadCount(|Octets(bits)|));
  }

  method WriteElement(w: OutputBitstream, e: Element) returns (ok: bool)
    requires w.Valid() && e.InRange()
    modifies w, w.buf
    ensures ok <==> |Encoded(old(w.bits) + e.Bits(), w.emulation)| <= w.buf.Length
    ensures ok ==> w.Valid() && w.bits == old(w.bits) + e.Bits()
  {
    match e
    case Fixed(val, nbits) => ok := w.PutBits(val, nbits);
    case Ue(code) => ok := w.PutUe(code);
    case Se(value) => ok := w.PutSe(value);
  }

  lemma ListBitsFrom(es: seq<Element>, i: nat)
    requires i < |es|
    ensures ListBits(es[i..]) == es[i].Bits() + ListBits(es[i + 1..])
  {
    assert es[i..][1..] == es[i + 1..];
  }

  /** The bits of the next element lead on towards the whole payload and need no more room. */
  lemma NextOfPayload(es: seq<Element>, i: nat, before: seq<bool>, emulation: bool)
    requires i < |es| && before + ListBits(es[i..]) == ListBits(es)
    ensures before + es[i].Bits() + ListBits(es[i + 1..]) == ListBits(es)
    ensures |Encoded(before + es[i].Bits(), emulation)| <= |Encoded(Payload(es), emulation)|
  {
    var e, rest, t := es[i].Bits(), ListBits(es[i + 1..]), TrailingBits(|ListBits(es)|);
    ListBitsFrom(es, i);
    assert before + e + rest == before + ListBits(es[i..]);
    assert before + e + (rest + t) == Payload(es);
    EncodedGrows(before + e, rest + t, emulation);
  }

  method WriteElements(w: OutputBitstream, es: seq<Element>) returns (ok: bool)
    requires w.Valid() && w.bits == [] && AllInRange(es)
    modifies w, w.buf
    ensures ok <==> |Encoded(Payload(es), w.emulation)| <= w.buf.Length
    ensures ok ==> w.Valid() && w.bits == Payload(es)
  {
    var i := 0;
    assert es[0..] == es;
    while i < |es|
      invariant 0 <= i <= |es| && w.Valid() && w.bits + ListBits(es[i..]) == ListBits(es)
    {
      NextOfPayload(es, i, w.bits, w.emulation);
      ok := WriteElement(w, es[i]);
      if !ok {
        return;
      }
      i := i + 1;
    }
    assert w.bits == ListBits(es);
    ok := w.PutTrailingBits();
  }

  /** Reads a ue(v) with the AVC or the HEVC parser's decoder. */
  method ReadUe(r: AVCBaseBitstream, hevc: bool, ghost code: nat) returns (v: int)
    requires r.Valid() && code <= 0x7FFF_FFFE
    requires r.Pos() + |UeBits(code)| + 64 <= |r.bits| && r.bits[r.Pos()..r.Pos() + |UeBits(code)|] == UeBits(code)
    modifies r
    ensures r.Valid() && r.Pos() == old(r.Pos()) + |UeBits(code)| && v == code
  {
    DecodeUe(r.bits, r.Pos(), code);
    SmallCode(code);
    if hevc {
      var ok;
      ok, v := r.GetVLCElementU();
    } else {
      v := r.GetVLCElement(false);
    }
  }

  method ReadSe(r: AVCBaseBitstream, hevc: bool, ghost value: int) returns (v: int)
    requires r.Valid() && -0x3FFF_FFFF <= value <= 0x3FFF_FFFF
    requires r.Pos() + |SeBits(value)| + 64 <= |r.bits| && r.bits[r.Pos()..r.Pos() + |SeBits(value)|] == SeBits(value)
    modifies r
    ensures r.Valid() && r.Pos() == old(r.Pos()) + |SeBits(value)| && v == value
  {
    DecodeUe(r.bits, r.Pos(), SeCode(value));
    SmallCode(SeCode(value));
    SeInverse(value, 0);
    if hevc {
      var ok;
      ok, v := r.GetVLCElementS();
    } else {
      v := r.GetVLCElement(true);
    }
  }

  /** Reads an element of the given shape with the AVC or the HEVC parser's decoder. */
  method ReadElement(r: AVCBaseBitstream, shape: Shape, hevc: bool, ghost e: Element) returns (back: Element)
    requires r.Valid() && e.InRange() && e.Shape() == shape
    requires r.Pos() + |e.Bits()| + 64 <= |r.bits| && r.bits[r.Pos()..r.Pos() + |e.Bits()|] == e.Bits()
    modifies r
    ensures r.Valid() && r.Pos() == old(r.Pos()) + |e.Bits()| && back == e
  {
    match shape {
      case FixedShape(nbits) =>
        ToBitsVal(e.val, nbits);
        var v := r.GetBits(nbits);
        back := Fixed(v, nbits);
      case UeShape =>
        var v := ReadUe(r, hevc, e.code);
        back := Ue(v);
      case SeShape =>
        var v := ReadSe(r, hevc, e.value);
        back := Se(v);
    }
  }

  lemma SmallCode(code: nat)
    requires code <= 0x7FFF_FFFE
    ensures Log2(code + 1) <= 30 && Int32(code) == code
  {
    Log2Bounds(code + 1);
    if Log2(code + 1) > 30 {
      Pow2Monotone(31, Log2(code + 1));
      Pow2Values();
    }
  }

  lemma NextElement(b: seq<bool>, p: nat, e: seq<bool>, rest: seq<bool>)
    requires p <= |b| && e + rest <= b[p..]
    ensures b[p..p + |e|] == e && rest <= b[p + |e|..]
  {
    var n := |e|;
    assert b[p..][..n + |rest|] == e + rest;
    assert b[p..p + n] == (e + rest)[..n];
    assert b[p + n..][..|rest|] == (e + rest)[n..];
  }

  /** The elements from the i-th on come next, with the guard words behind them. */
  ghost predicate Ahead(b: seq<bool>, p: nat, es: seq<Element>, i: nat)
    requires i <= |es|
  {
    p + |ListBits(es[i..])| + 64 <= |b| && ListBits(es[i..]) <= b[p..]
  }

  lemma AheadNext(b: seq<bool>, p: nat, es: seq<Element>, i: nat)
    requires i < |es| && Ahead(b, p, es, i)
    ensures p + |es[i].Bits()| + 64 <= |b| && b[p..p + |es[i].Bits()|] == es[i].Bits()
    ensures Ahead(b, p + |es[i].Bits()|, es, i + 1)
  {
    ListBitsFrom(es, i);
    NextElement(b, p, es[i].Bits(), ListBits(es[i + 1..]));
  }

  method ReadNext(r: AVCBaseBitstream, shape: Shape, hevc: bool, ghost es: seq<Element>, ghost i: nat)
    returns (e: Element)
    requires r.Valid() && i < |es| && es[i].InRange() && es[i].Shape() == shape
    requires Ahead(r.bits, r.Pos(), es, i)
    modifies r
    ensures r.Valid() && Ahead(r.bits, r.Pos(), es, i + 1) && e == es[i]
  {
    AheadNext(r.bits, r.Pos(), es, i);
    e := ReadElement(r, shape, hevc, es[i]);
  }

  method ReadElements(r: AVCBaseBitstream, shapes: seq<Shape>, hevc: bool, ghost es: seq<Element>)
    returns (back: seq<Element>)
    requires r.Valid() && r.Pos() == 0 && AllInRange(es)
    requires |shapes| == |es| && forall i | 0 <= i < |es| :: shapes[i] == es[i].Shape()
    requires |ListBits(es)| + 64 <= |r.bits| && ListBits(es) <= r.bits
    modifies r
    ensures back == es
  {
    back := [];
    var i := 0;
    assert Ahead(r.bits, 0, es, 0) by {
      assert es[0..] == es && r.bits[0..] == r.bits;
    }
    while i < |shapes|
      invariant 0 <= i <= |es| && r.Valid() && back == es[..i]
      invariant Ahead(r.bits, r.Pos(), es, i)
    {
      var e := ReadNext(r, shapes[i], hevc, es, i);
      back := back + [e];
      i := i + 1;
    }
  }

  /** The whole path: any elements in range, written with emulation control into a buffer
      and closed, swapped into words, are read back as they were. Only the room in the
      buffer decides whether they can be written. */
  method WriteSwapRead(es: seq<Element>, capacity: Word, hevc: bool) returns (fits: bool, back: seq<Element>)
    requires AllInRange(es)
    ensures fits <==> |Encoded(Payload(es), true)| <= capacity
    ensures fits ==> back == es
  {
    var buf := new Byte[capacity];
    var w := new OutputBitstream(buf, true);
    back := [];
    fits := WriteElements(w, es);
    if fits {
      var size := w.ptr;
      var words := new Word[size / 4 + 3];
      ghost var s := Swapped(buf[..size]);
      SwappedSize(buf[..size]);
      var dstSize := SwapMemory(words, buf, size);
      assert s <= words[..];
      StreamSurvives(Payload(es), words[..]);
      var r := new AVCBaseBitstream(words[..], dstSize);
      PayloadRoom(es, words[..]);
      back := ReadElements(r, seq(|es|, i requires 0 <= i < |es| => es[i].Shape()), hevc, es);
    }
  }

  lemma SwappedSize(source: seq<Byte>)
    ensures |Swapped(source)| <= |source| / 4 + 1
  {
  }

  lemma PayloadRoom(es: seq<Element>, words: seq<Word>)
    requires |Swapped(Escape(Octets(Payload(es))))| + 2 <= |words|
    ensures |ListBits(es)| + 64 <= |WordsBits(words)|
  {
    UnescapeEscape(Octets(Payload(es)));
  }
}
