/** The pass between the escaped bytes and the bit reader: preventing bytes are removed and
    the rest is packed, four at a time, into 32-bit words read from their high-order end. */
module BytesSwapper {
  import opened BitStrings
  import opened Emulation

  function ZeroBytes(n: nat): (z: seq<Byte>)
    ensures |z| == n
  {
    seq(n, i => 0)
  }

  function PadCount(n: nat): (k: nat)
    ensures k < 4
  {
    if n % 4 == 0 then 0 else 4 - n % 4
  }

  /** One padding byte at a time, a whole number of words is reached after PadCount of them,
      and no 32-bit size is padded beyond 2^32. */
  lemma PadStep(n: nat, k: nat)
    requires k <= PadCount(n)
    ensures (n + k) % 4 == 0 <==> k == PadCount(n)
    ensures n < 0x1_0000_0000 ==> n + k <= 0x1_0000_0000
  {
  }

  /** The bytes with zeros up to a whole number of words. */
  function PadToWords(bytes: seq<Byte>): (p: seq<Byte>)
    ensures |p| == |bytes| + PadCount(|bytes|)
  {
    bytes + ZeroBytes(PadCount(|bytes|))
  }

  /** A size as a 32-bit number; sizes are at most 2^32. */
  function Wrap32(n: nat): Word
    requires n <= 0x1_0000_0000
  {
    if n == 0x1_0000_0000 then 0 else n
  }

  function Next32(n: Word): Word {
    if n == 0xFFFF_FFFF then 0 else n + 1
  }

  /** The words SwapMemory has to write. */
  function Swapped(source: seq<Byte>): (words: seq<Word>)
    ensures 4 * |words| == |PadToWords(Unescape(source))|
    ensures |source| < 0x1_0000_0000 ==> 4 * |words| <= 0x1_0000_0000
  {
    PadStep(|Unescape(source)|, PadCount(|Unescape(source)|));
    PackWords(PadToWords(Unescape(source)))
  }

  /** Whole words and the bytes of an unfinished one. */
  datatype Packing = Packing(words: seq<Word>, part: seq<Byte>)

  function PackNext(p: Packing, b: Byte): (q: Packing)
    requires |p.part| < 4
    ensures |q.part| < 4
  {
    if |p.part| == 3 then Packing(p.words + [WordOf(p.part[0], p.part[1], p.part[2], b)], [])
    else Packing(p.words, p.part + [b])
  }

  function PackAll(bytes: seq<Byte>): (p: Packing)
    ensures |p.part| < 4
  {
    if bytes == [] then Packing([], []) else PackNext(PackAll(bytes[..|bytes| - 1]), bytes[|bytes| - 1])
  }

  lemma {:induction false} PackSize(bytes: seq<Byte>)
    ensures 4 * |PackAll(bytes).words| + |PackAll(bytes).part| == |bytes|
  {
    if bytes != [] {
      PackSize(bytes[..|bytes| - 1]);
    }
  }

  lemma PackAppend(bytes: seq<Byte>, b: Byte)
    ensures PackAll(bytes + [b]) == PackNext(PackAll(bytes), b)
  {
    assert (bytes + [b])[..|bytes|] == bytes;
  }

  /** Packing byte by byte gives the words of the whole sequence. */
  lemma {:induction false} PackAllWords(bytes: seq<Byte>)
    ensures PackAll(bytes).words == PackWords(bytes)
    ensures PackAll(bytes).part == bytes[4 * |PackWords(bytes)|..]
  {
    PackSize(bytes);
    if bytes != [] {
      var init, b := bytes[..|bytes| - 1], bytes[|bytes| - 1];
      var p := PackAll(init);
      PackAllWords(init);
      assert p.part + [b] == bytes[4 * |p.words|..];
    }
  }

  /** The bytes of an unfinished word, already shifted to make room for the next one. */
  function Unfinished(part: seq<int>): int
    requires |part| < 4
  {
    if |part| == 0 then 0
    else if |part| == 1 then part[0] * 256
    else if |part| == 2 then (part[0] * 256 + part[1]) * 256
    else ((part[0] * 256 + part[1]) * 256 + part[2]) * 256
  }

  /** The writing cursor: word index, bytes in the unfinished word, and that word. */
  datatype DwordPointer = DwordPointer(pos: nat, byteNum: nat, cur: nat)

  /** The reading cursor: byte index, zero bytes just passed, preventing bytes passed. */
  datatype SourcePointer = SourcePointer(at: nat, zeros: nat, removed: nat) {
    predicate IsPrevent(b: Byte) {
      b == 3 && zeros >= 2
    }

    /** Passes the byte b. */
    function Next(b: Byte): SourcePointer {
      if b == 0 then SourcePointer(at + 1, zeros + 1, removed)
      else SourcePointer(at + 1, 0, if b == 3 && zeros >= 2 then removed + 1 else removed)
    }
  }

  /** The words of p are in dest, the rest of p is in the cursor. */
  ghost predicate Holds(dest: array<Word>, d: DwordPointer, p: Packing)
    reads dest
  {
    && d.byteNum == |p.part| < 4
    && d.pos == |p.words| <= dest.Length
    && d.cur == Unfinished(p.part)
    && forall k | 0 <= k < d.pos :: dest[k] == p.words[k]
  }

  /** Or-ing a byte below the ones there, then shifting, in 32 bits. */
  lemma StoreByte(part: seq<Byte>, b: Byte)
    requires |part| < 4
    ensures |part| == 3 ==> Unfinished(part) / 256 * 256 + b == WordOf(part[0], part[1], part[2], b)
    ensures |part| < 3 ==> (Unfinished(part) / 256 * 256 + b) * 256 % 0x1_0000_0000 == Unfinished(part + [b])
  {
    assert Unfinished(part) / 256 * 256 == Unfinished(part);
  }

  /** Stores a byte in the word being built and passes on, writing the word out when it is
      complete. */
  method Append(dest: array<Word>, d: DwordPointer, b: Byte, ghost p: Packing) returns (e: DwordPointer)
    requires Holds(dest, d, p) && (d.byteNum == 3 ==> d.pos < dest.Length)
    modifies dest
    ensures Holds(dest, e, PackNext(p, b)) && d.pos <= e.pos
    ensures forall k | e.pos <= k < dest.Length :: dest[k] == old(dest[k])
  {
    StoreByte(p.part, b);
    var cur := d.cur / 256 * 256 + b;
    if d.byteNum + 1 == 4 {
      dest[d.pos] := cur;
      e := DwordPointer(d.pos + 1, 0, 0);
    } else {
      e := DwordPointer(d.pos, d.byteNum + 1, cur * 256 % 0x1_0000_0000);
    }
  }

  /** The reading cursor after the bytes of s. */
  ghost predicate Passed(src: SourcePointer, s: seq<Byte>) {
    && src.at == |s| == src.removed + |Unescape(s)|
    && (src.zeros >= 1 <==> s != [] && s[|s| - 1] == 0)
    && (src.zeros >= 2 <==> EndsWithTwoZeros(s))
  }

  lemma PassNext(src: SourcePointer, s: seq<Byte>, b: Byte)
    requires Passed(src, s)
    ensures Passed(src.Next(b), s + [b])
    ensures Unescape(s + [b]) == if src.IsPrevent(b) then Unescape(s) else Unescape(s) + [b]
  {
    assert (s + [b])[..|s|] == s;
  }

  lemma {:induction false} UnescapeGrows(s: seq<Byte>, i: nat)
    requires i <= |s|
    ensures |Unescape(s[..i])| <= |Unescape(s)|
  {
    if i == |s| {
      assert s[..i] == s;
    } else {
      UnescapeGrows(s[..|s| - 1], i);
      assert s[..|s| - 1][..i] == s[..i];
    }
  }

  /** One more byte of s is read; the payload grows by it unless it is a preventing one. */
  lemma ReadNext(src: SourcePointer, s: seq<Byte>, i: nat)
    requires i < |s| && Passed(src, s[..i])
    ensures Passed(src.Next(s[i]), s[..i + 1])
    ensures Unescape(s[..i + 1]) == if src.IsPrevent(s[i]) then Unescape(s[..i]) else Unescape(s[..i]) + [s[i]]
    ensures !src.IsPrevent(s[i]) ==> |Unescape(s[..i])| < |Unescape(s)|
  {
    assert s[..i + 1] == s[..i] + [s[i]];
    PassNext(src, s[..i], s[i]);
    UnescapeGrows(s, i + 1);
  }

  /** So does the packed payload. */
  lemma CopyNext(src: SourcePointer, s: seq<Byte>, i: nat)
    requires i < |s| && Passed(src, s[..i])
    ensures Packed(s, i + 1) == if src.IsPrevent(s[i]) then Packed(s, i) else PackNext(Packed(s, i), s[i])
  {
    ReadNext(src, s, i);
    PackAppend(Unescape(s[..i]), s[i]);
  }

  /** The payload bytes among the first i bytes of s, packed. */
  function Packed(s: seq<Byte>, i: nat): (p: Packing)
    requires i <= |s|
    ensures |p.part| < 4
  {
    PackAll(Unescape(s[..i]))
  }

  lemma RoomLeft(s: seq<Byte>, i: nat, words: nat)
    requires i <= |s| && |Unescape(s[..i])| < |Unescape(s)| <= 4 * words
    ensures |Packed(s, i).part| == 3 ==> |Packed(s, i).words| < words
  {
    PackSize(Unescape(s[..i]));
  }

  /** One round of the copying loops: where the cursors get, and that there is room. */
  lemma NextByte(src: SourcePointer, s: seq<Byte>, i: nat, words: nat)
    requires i < |s| && Passed(src, s[..i]) && |Unescape(s)| <= 4 * words
    ensures Passed(src.Next(s[i]), s[..i + 1])
    ensures Packed(s, i + 1) == if src.IsPrevent(s[i]) then Packed(s, i) else PackNext(Packed(s, i), s[i])
    ensures !src.IsPrevent(s[i]) && |Packed(s, i).part| == 3 ==> |Packed(s, i).words| < words
    ensures i < 2 ==> !src.IsPrevent(s[i])
  {
    ReadNext(src, s, i);
    CopyNext(src, s, i);
    if !src.IsPrevent(s[i]) {
      RoomLeft(s, i, words);
    }
  }

  /** The first loop: at most two bytes, which no preventing byte can be among. */
  method CopyFirst(dest: array<Word>, source: array<Byte>, n: nat, ghost s: seq<Byte>)
    returns (dst: DwordPointer, src: SourcePointer)
    requires n <= 2 && n <= |s| <= source.Length && dest as object != source
    requires (forall i | 0 <= i < |s| :: source[i] == s[i]) && |Unescape(s)| <= 4 * dest.Length
    modifies dest
    ensures Passed(src, s[..n]) && Holds(dest, dst, Packed(s, n))
    ensures forall k | dst.pos <= k < dest.Length :: dest[k] == old(dest[k])
  {
    dst, src := DwordPointer(0, 0, 0), SourcePointer(0, 0, 0);
    var i := 0;
    while i < n
      invariant 0 <= i <= n && Passed(src, s[..i]) && Holds(dest, dst, Packed(s, i))
      invariant forall k | dst.pos <= k < dest.Length :: dest[k] == old(dest[k])
    {
      NextByte(src, s, i, dest.Length);
      dst := Append(dest, dst, source[src.at], Packed(s, i));
      src := src.Next(source[src.at]);
      i := i + 1;
    }
  }

  /** One byte of the second loop, stored unless it is a preventing one. */
  method CopyByte(dest: array<Word>, b: Byte, d: DwordPointer, r: SourcePointer, ghost s: seq<Byte>, ghost i: nat)
    returns (dst: DwordPointer, src: SourcePointer)
    requires i < |s| && b == s[i] && |Unescape(s)| <= 4 * dest.Length
    requires Passed(r, s[..i]) && Holds(dest, d, Packed(s, i))
    modifies dest
    ensures Passed(src, s[..i + 1]) && Holds(dest, dst, Packed(s, i + 1)) && d.pos <= dst.pos
    ensures forall k | dst.pos <= k < dest.Length :: dest[k] == old(dest[k])
  {
    NextByte(r, s, i, dest.Length);
    dst := d;
    if !r.IsPrevent(b) {
      dst := Append(dest, d, b, Packed(s, i));
    }
    src := r.Next(b);
  }

  /** The second loop: the other bytes, without the preventing ones. */
  method CopyRest(dest: array<Word>, source: array<Byte>, n: nat, size: nat, ghost s: seq<Byte>,
    d: DwordPointer, r: SourcePointer)
    returns (dst: DwordPointer, src: SourcePointer)
    requires n <= size == |s| <= source.Length && dest as object != source
    requires (forall i | 0 <= i < |s| :: source[i] == s[i]) && |Unescape(s)| <= 4 * dest.Length
    requires Passed(r, s[..n]) && Holds(dest, d, Packed(s, n))
    modifies dest
    ensures Passed(src, s) && Holds(dest, dst, PackAll(Unescape(s))) && d.pos <= dst.pos
    ensures forall k | dst.pos <= k < dest.Length :: dest[k] == old(dest[k])
  {
    dst, src := d, r;
    var i := n;
    while i < size
      invariant n <= i <= size && Passed(src, s[..i]) && Holds(dest, dst, Packed(s, i)) && d.pos <= dst.pos
      invariant forall k | dst.pos <= k < dest.Length :: dest[k] == old(dest[k])
    {
      dst, src := CopyByte(dest, source[src.at], dst, src, s, i);
      i := i + 1;
    }
    assert s[..size] == s;
  }

  lemma PadStops(n: Word, k: nat)
    requires k <= PadCount(n)
    ensures n + PadCount(n) <= 0x1_0000_0000
    ensures Wrap32(n + k) % 4 == 0 <==> k == PadCount(n)
  {
    PadStep(n, k);
    PadStep(n, PadCount(n));
  }

  lemma AppendZero(u: seq<Byte>, k: nat, words: nat)
    requires |u| + k < 4 * words
    ensures var p := PackAll(u + ZeroBytes(k));
      && PackAll(u + ZeroBytes(k + 1)) == PackNext(p, 0)
      && (|p.part| == 3 ==> |p.words| < words)
  {
    PackSize(u + ZeroBytes(k));
    PackAppend(u + ZeroBytes(k), 0);
    assert u + ZeroBytes(k) + [0] == u + ZeroBytes(k + 1);
  }

  /** The size after k padding bytes, with which the loop ends at the last of them. */
  predicate PadSize(size: Word, n: nat, k: nat) {
    n + k <= 0x1_0000_0000 && size == Wrap32(n + k) && (size % 4 == 0 <==> k == PadCount(n))
  }

  /** One padding byte. */
  method PadByte(dest: array<Word>, d: DwordPointer, size: Word, ghost u: seq<Byte>, ghost k: nat)
    returns (e: DwordPointer, dstSize: Word)
    requires Holds(dest, d, PackAll(u + ZeroBytes(k))) && |PadToWords(u)| <= 4 * dest.Length
    requires |u| < 0x1_0000_0000 && k < PadCount(|u|) && PadSize(size, |u|, k)
    modifies dest
    ensures Holds(dest, e, PackAll(u + ZeroBytes(k + 1))) && d.pos <= e.pos
    ensures forall j | e.pos <= j < dest.Length :: dest[j] == old(dest[j])
    ensures PadSize(dstSize, |u|, k + 1)
  {
    PadStops(|u|, k + 1);
    AppendZero(u, k, dest.Length);
    e := Append(dest, d, 0, PackAll(u + ZeroBytes(k)));
    dstSize := Next32(size);
  }

  /** The last loop: zero bytes up to a whole word. */
  method PadLastWord(dest: array<Word>, d: DwordPointer, size: Word, ghost u: seq<Byte>)
    returns (e: DwordPointer, dstSize: Word)
    requires Holds(dest, d, PackAll(u)) && size == |u| && |PadToWords(u)| <= 4 * dest.Length
    modifies dest
    ensures Holds(dest, e, PackAll(PadToWords(u))) && d.pos <= e.pos
    ensures forall k | e.pos <= k < dest.Length :: dest[k] == old(dest[k])
    ensures |PadToWords(u)| <= 0x1_0000_0000 && dstSize == Wrap32(|PadToWords(u)|)
  {
    ghost var k := 0;
    PadStops(|u|, 0);
    assert u + ZeroBytes(0) == u;
    e, dstSize := d, size;
    while dstSize % 4 != 0
      invariant k <= PadCount(|u|) && Holds(dest, e, PackAll(u + ZeroBytes(k))) && d.pos <= e.pos
      invariant PadSize(dstSize, |u|, k)
      invariant forall k | e.pos <= k < dest.Length :: dest[k] == old(dest[k])
      decreases PadCount(|u|) - k
    {
      e, dstSize := PadByte(dest, e, dstSize, u, k);
      k := k + 1;
    }
  }

  /** All bytes packed, padding included, are the words to write. */
  lemma PackedSwapped(s: seq<Byte>)
    ensures PackAll(PadToWords(Unescape(s))) == Packing(Swapped(s), [])
    ensures |Unescape(s)| <= |PadToWords(Unescape(s))| == 4 * |Swapped(s)|
  {
    PackAllWords(PadToWords(Unescape(s)));
  }

  /** Writes the words and returns their size in bytes, as a 32-bit number. */
  method SwapMemory(dest: array<Word>, source: array<Byte>, size: Word) returns (dstSize: Word)
    requires size <= source.Length && dest as object != source
    requires |Swapped(source[..size])| <= dest.Length
    modifies dest
    ensures forall k | 0 <= k < |Swapped(source[..size])| :: dest[k] == Swapped(source[..size])[k]
    ensures forall k | |Swapped(source[..size])| <= k < dest.Length :: dest[k] == old(dest[k])
    ensures dstSize == Wrap32(4 * |Swapped(source[..size])|)
  {
    ghost var s := source[..size];
    PackedSwapped(s);
    var n := if size < 2 then size else 2;
    var dst, src := CopyFirst(dest, source, n, s);
    dst, src := CopyRest(dest, source, n, size, s, dst, src);
    dst, dstSize := PadLastWord(dest, dst, size - src.removed, Unescape(s));
  }

  /** The size returned is the unescaped length rounded up to whole words exactly when
      that still is a 32-bit number. */
  lemma DstSizeExact(source: seq<Byte>)
    requires |source| < 0x1_0000_0000
    ensures Wrap32(4 * |Swapped(source)|) == |PadToWords(Unescape(source))|
       <==> |Unescape(source)| <= 0xFFFF_FFFC
  {
    PadStep(|Unescape(source)|, PadCount(|Unescape(source)|));
  }
}
