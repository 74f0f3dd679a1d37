/** The search for a supplemental enhancement information message of a given type (syntax of
    section 7.3.5 of H.265). */
module SeiSearch {
  import opened BitStrings
  import opened BitReader

  // the Type and NumBit fields of mfxPayload have 16 and 32 bits
  const TYPE_RANGE: nat := 0x1_0000
  const WORD_RANGE: nat := 0x1_0000_0000
  const SIZE_LIMIT: nat := 0x2000_0000  // sizes from here on are lost when they become a number of bits

  // ---------- messages and their bytes

  datatype Message = Message(kind: nat, payload: seq<Byte>) {
    function Bytes(): seq<Byte> {
      Coded(kind) + (Coded(|payload|) + payload)
    }
  }

  /** A number as a run of 255s and a last byte below 255. */
  function Coded(v: nat): (s: seq<Byte>)
    ensures |s| > 0
  {
    if v < 255 then [v] else [255] + Coded(v - 255)
  }

  function MessagesBytes(ms: seq<Message>): seq<Byte> {
    if ms == [] then [] else ms[0].Bytes() + MessagesBytes(ms[1..])
  }

  // ---------- what the search finds

  /** The number coded at i; the data may end inside it. */
  function RunValue(d: seq<Byte>, i: nat): nat
    decreases |d| - i
  {
    if i >= |d| then 0 else if d[i] == 255 then 255 + RunValue(d, i + 1) else d[i]
  }

  function RunEnd(d: seq<Byte>, i: nat): (j: nat)
    ensures i <= j && (i < |d| ==> i < j <= |d|)
    decreases |d| - i
  {
    if i >= |d| then i else if d[i] == 255 then RunEnd(d, i + 1) else i + 1
  }

  datatype Finding = Found(start: nat, size: nat) | NotFound | Corrupted

  /** The bytes that the number of bits kept for a size stands for. */
  function KeptSize(size: nat): (n: nat)
    ensures size < SIZE_LIMIT ==> n == size
  {
    size % SIZE_LIMIT
  }

  /** The type kept is the one wanted. */
  predicate IsWanted(kind: nat, wanted: nat) {
    kind % TYPE_RANGE == wanted
  }

  /** The first message from i on whose type is the one wanted. */
  function FindAt(d: seq<Byte>, i: nat, wanted: nat): (f: Finding)
    ensures f.Found? ==> f.start + f.size <= |d|
    decreases |d| - i
  {
    if i >= |d| then NotFound else
      var j := RunEnd(d, i);
      var k := RunEnd(d, j);
      var size := KeptSize(RunValue(d, j));
      if size > |d| - k then Corrupted
      else if IsWanted(RunValue(d, i), wanted) then Found(k, size)
      else FindAt(d, k + size, wanted)
  }

  // ---------- the search finds the first match

  predicate Starts(d: seq<Byte>, i: nat, x: seq<Byte>) {
    i + |x| <= |d| && d[i..i + |x|] == x
  }

  lemma StartsSplit(d: seq<Byte>, i: nat, x: seq<Byte>, y: seq<Byte>)
    requires Starts(d, i, x + y)
    ensures Starts(d, i, x) && Starts(d, i + |x|, y)
  {
    var s := d[i..i + |x + y|];
    assert d[i..i + |x|] == s[..|x|] && d[i + |x|..i + |x| + |y|] == s[|x|..];
  }

  lemma SizeRest(x: nat, q: nat, r: nat)
    requires x == q * SIZE_LIMIT + r && r < SIZE_LIMIT
    ensures x % SIZE_LIMIT == r
  {
  }

  lemma WordRest(x: nat, q: nat, r: nat)
    requires x == q * WORD_RANGE + r && r < WORD_RANGE
    ensures x % WORD_RANGE == r
  {
  }

  lemma KeptBits(size: nat)
    ensures size % WORD_RANGE * 8 % WORD_RANGE == 8 * KeptSize(size)
  {
    var r := size % WORD_RANGE;
    assert size == (size / WORD_RANGE * 8) * SIZE_LIMIT + r;
    SizeRest(size, size / WORD_RANGE * 8 + r / SIZE_LIMIT, r % SIZE_LIMIT);
    WordRest(r * 8, r / SIZE_LIMIT, 8 * (r % SIZE_LIMIT));
  }

  /** A size survives becoming a number of bits exactly when it is below the limit. */
  lemma SizeKept(size: nat)
    ensures KeptSize(size) == size <==> size < SIZE_LIMIT
  {
  }

  lemma {:induction false} RunOf(d: seq<Byte>, i: nat, v: nat)
    requires Starts(d, i, Coded(v))
    ensures RunValue(d, i) == v && RunEnd(d, i) == i + |Coded(v)|
    decreases v
  {
    if v < 255 {
      assert d[i..i + 1][0] == d[i];
    } else {
      assert Coded(v)[0] == 255 && d[i..i + |Coded(v)|][0] == d[i];
      StartsSplit(d, i, [255], Coded(v - 255));
      RunOf(d, i + 1, v - 255);
    }
  }

  /** A message at i, its payload at k. */
  ghost predicate MessageAt(d: seq<Byte>, i: nat, k: nat, m: Message) {
    && i < k <= |d| && RunValue(d, i) == m.kind && RunEnd(d, RunEnd(d, i)) == k
    && RunValue(d, RunEnd(d, i)) == |m.payload| && Starts(d, k, m.payload)
  }

  lemma MessageBytesAt(d: seq<Byte>, i: nat, m: Message) returns (k: nat)
    requires Starts(d, i, m.Bytes())
    ensures MessageAt(d, i, k, m) && k + |m.payload| == i + |m.Bytes()|
  {
    var j := i + |Coded(m.kind)|;
    StartsSplit(d, i, Coded(m.kind), Coded(|m.payload|) + m.payload);
    StartsSplit(d, j, Coded(|m.payload|), m.payload);
    RunOf(d, i, m.kind);
    RunOf(d, j, |m.payload|);
    k := j + |Coded(|m.payload|)|;
  }

  lemma FindOne(d: seq<Byte>, i: nat, k: nat, m: Message, wanted: nat)
    requires MessageAt(d, i, k, m) && |m.payload| < SIZE_LIMIT
    ensures FindAt(d, i, wanted) ==
      if IsWanted(m.kind, wanted) then Found(k, |m.payload|) else FindAt(d, k + |m.payload|, wanted)
  {
  }

  ghost predicate NoneWanted(ms: seq<Message>, wanted: nat) {
    forall k | 0 <= k < |ms| :: !IsWanted(ms[k].kind, wanted) && |ms[k].payload| < SIZE_LIMIT
  }

  /** Messages of other types are skipped. */
  lemma {:induction false} SkipMessages(d: seq<Byte>, i: nat, ms: seq<Message>, wanted: nat)
    requires Starts(d, i, MessagesBytes(ms)) && NoneWanted(ms, wanted)
    ensures FindAt(d, i, wanted) == FindAt(d, i + |MessagesBytes(ms)|, wanted)
    decreases |ms|
  {
    if |ms| > 0 {
      var rest := MessagesBytes(ms[1..]);
      var j := SkipOne(d, i, ms[0], rest, wanted);
      SkipMessages(d, j, ms[1..], wanted);
      assert MessagesBytes(ms) == ms[0].Bytes() + rest;
    }
  }

  lemma SkipOne(d: seq<Byte>, i: nat, m: Message, rest: seq<Byte>, wanted: nat) returns (j: nat)
    requires Starts(d, i, m.Bytes() + rest) && !IsWanted(m.kind, wanted) && |m.payload| < SIZE_LIMIT
    ensures j == i + |m.Bytes()| && Starts(d, j, rest) && FindAt(d, i, wanted) == FindAt(d, j, wanted)
  {
    StartsSplit(d, i, m.Bytes(), rest);
    var k := MessageBytesAt(d, i, m);
    FindOne(d, i, k, m, wanted);
    j := k + |m.payload|;
  }

  lemma TakeOne(d: seq<Byte>, i: nat, m: Message)
    requires Starts(d, i, m.Bytes()) && m.kind < TYPE_RANGE && |m.payload| < SIZE_LIMIT
    ensures IsFound(d, FindAt(d, i, m.kind), m.payload)
  {
    var k := MessageBytesAt(d, i, m);
    FindOne(d, i, k, m, m.kind);
  }

  /** Over any messages the search returns the first one of the type wanted, with its size
      and bytes, whatever follows. */
  lemma FirstMatch(d: seq<Byte>, i: nat, before: seq<Message>, m: Message)
    requires Starts(d, i, MessagesBytes(before) + m.Bytes())
    requires NoneWanted(before, m.kind) && m.kind < TYPE_RANGE && |m.payload| < SIZE_LIMIT
    ensures var f := FindAt(d, i, m.kind);
      f.Found? && f.size == |m.payload| && d[f.start..f.start + f.size] == m.payload
  {
    StartsSplit(d, i, MessagesBytes(before), m.Bytes());
    FirstMatchAt(d, i, i + |MessagesBytes(before)|, before, m);
  }

  ghost predicate IsFound(d: seq<Byte>, f: Finding, payload: seq<Byte>) {
    f.Found? && f.size == |payload| && Starts(d, f.start, payload)
  }

  lemma FirstMatchAt(d: seq<Byte>, i: nat, j: nat, before: seq<Message>, m: Message)
    requires Starts(d, i, MessagesBytes(before)) && j == i + |MessagesBytes(before)| && Starts(d, j, m.Bytes())
    requires NoneWanted(before, m.kind) && m.kind < TYPE_RANGE && |m.payload| < SIZE_LIMIT
    ensures IsFound(d, FindAt(d, i, m.kind), m.payload)
  {
    SkipMessages(d, i, before, m.kind);
    TakeOne(d, j, m);
  }

  ghost predicate ZerosFrom(d: seq<Byte>, i: nat) {
    forall k | i <= k < |d| :: d[k] == 0
  }

  /** The position behind an empty message at i, the data ending there or before. */
  function Behind(d: seq<Byte>, i: nat): nat {
    if i + 1 < |d| then i + 2 else i + 1
  }

  /** The zeros that pad the last word read as empty messages of type 0. */
  lemma {:induction false} PaddingRead(d: seq<Byte>, i: nat, wanted: nat)
    requires ZerosFrom(d, i)
    ensures FindAt(d, i, wanted) == if wanted == 0 && i < |d| then Found(Behind(d, i), 0) else NotFound
    decreases |d| - i
  {
    if i < |d| {
      var j := i + 1;
      assert RunValue(d, i) == 0 && RunEnd(d, i) == j;
      assert RunValue(d, j) == 0 && RunEnd(d, j) == Behind(d, i);
      PaddingRead(d, Behind(d, i), wanted);
    }
  }

  /** The trailing bits' byte 0x80 reads as an empty message of type 128, and takes the first
      padding zero, if any, for its size. */
  lemma TrailingByte(d: seq<Byte>, i: nat, wanted: nat)
    requires i < |d| && d[i] == 0x80 && ZerosFrom(d, i + 1)
    ensures FindAt(d, i, wanted) ==
      if wanted == 0x80 then Found(Behind(d, i), 0)
      else if wanted == 0 && i + 2 < |d| then Found(Behind(d, i + 2), 0) else NotFound
  {
    var j := i + 1;
    assert RunValue(d, i) == 0x80 && RunEnd(d, i) == j;
    assert RunValue(d, j) == 0 && RunEnd(d, j) == Behind(d, i);
    PaddingRead(d, Behind(d, i), wanted);
  }

  /** With no match, over messages closed by trailing bits and padded with zeros, something
      is found exactly in a search for type 128, which takes the trailing bits for a message,
      or for type 0 when two padding zeros or more can be taken for one; it is empty. */
  lemma NoMatch(d: seq<Byte>, i: nat, ms: seq<Message>, wanted: nat)
    requires Starts(d, i, MessagesBytes(ms) + [0x80]) && ZerosFrom(d, i + |MessagesBytes(ms)| + 1)
    requires NoneWanted(ms, wanted)
    ensures FindAt(d, i, wanted) != Corrupted
    ensures FindAt(d, i, wanted).Found? <==>
      wanted == 0x80 || (wanted == 0 && |d| - (i + |MessagesBytes(ms)| + 1) >= 2)
    ensures FindAt(d, i, wanted).Found? ==> FindAt(d, i, wanted).size == 0
  {
    ghost var x := MessagesBytes(ms);
    StartsSplit(d, i, x, [0x80]);
    SkipMessages(d, i, ms, wanted);
    var j := i + |x|;
    assert d[j..j + 1][0] == d[j];
    TrailingByte(d, j, wanted);
  }

  // ---------- the parser

  /** d is the first |d| bytes of the bits, a word of guard bits behind it. */
  ghost predicate IsBytesOf(d: seq<Byte>, bits: seq<bool>) {
    && 8 * |d| + 32 <= |bits|
    && forall i {:trigger ByteOf(bits, i)} | 0 <= i < |d| :: d[i] == ByteOf(bits, i)
  }

  function ByteOf(bits: seq<bool>, i: nat): nat
    requires 8 * i + 8 <= |bits|
  {
    Val(bits[8 * i..8 * i + 8])
  }

  /** The reader stands at byte i of d. */
  ghost predicate AtByte(r: AVCBaseBitstream, d: seq<Byte>, i: nat)
    reads r
  {
    r.Valid() && IsBytesOf(d, r.bits) && r.maxSize == |d| < 0x8000_0000 && r.Pos() == 8 * i && i <= |d|
  }

  method ReadByte(r: AVCBaseBitstream, ghost d: seq<Byte>, ghost i: nat) returns (v: nat)
    requires AtByte(r, d, i) && i < |d|
    modifies r
    ensures AtByte(r, d, i + 1) && v == d[i]
  {
    assert d[i] == ByteOf(r.bits, i);
    v := r.GetBits(8);
  }

  method PeekByte(r: AVCBaseBitstream, ghost d: seq<Byte>, ghost i: nat) returns (v: nat)
    requires AtByte(r, d, i) && i < |d|
    ensures v == d[i]
  {
    assert d[i] == ByteOf(r.bits, i);
    v := r.NextBits(8);
  }

  /** A number: the bytes equal to 255 are peeked at before they are read. */
  method ReadRun(r: AVCBaseBitstream, ghost d: seq<Byte>, ghost i: nat) returns (v: nat)
    requires AtByte(r, d, i)
    modifies r
    ensures AtByte(r, d, RunEnd(d, i)) && v == RunValue(d, i)
  {
    v := 0;
    ghost var j: nat := i;
    while r.BytesLeft() > 0
      invariant AtByte(r, d, j)
      invariant RunValue(d, i) == v + RunValue(d, j) && RunEnd(d, i) == RunEnd(d, j)
      decreases r.BytesLeft()
    {
      var code := PeekByte(r, d, j);
      if code != 255 {
        break;
      }
      code := ReadByte(r, d, j);
      j := j + 1;
      v := v + 255;
    }
    if r.BytesLeft() > 0 {
      var last := ReadByte(r, d, j);
      v := v + last;
    }
  }

  /** Type and size of the next message, in the widths they are kept in. */
  method ParseSEI(r: AVCBaseBitstream, ghost d: seq<Byte>, ghost i: nat) returns (kind: nat, numBit: nat)
    requires AtByte(r, d, i)
    modifies r
    ensures AtByte(r, d, RunEnd(d, RunEnd(d, i)))
    ensures kind == RunValue(d, i) % TYPE_RANGE
    ensures numBit == 8 * KeptSize(RunValue(d, RunEnd(d, i)))
  {
    var payloadType := ReadRun(r, d, i);
    var payloadSize := ReadRun(r, d, RunEnd(d, i));
    KeptBits(payloadSize);
    kind, numBit := payloadType % TYPE_RANGE, payloadSize % WORD_RANGE * 8 % WORD_RANGE;
  }

  method SkipBytes(r: AVCBaseBitstream, n: nat, ghost d: seq<Byte>, ghost i: nat)
    requires AtByte(r, d, i) && i + n <= |d|
    modifies r
    ensures AtByte(r, d, i + n)
  {
    for k := 0 to n
      invariant AtByte(r, d, i + k)
    {
      var tmp := ReadByte(r, d, i + k);
    }
  }

  method CopyBytes(r: AVCBaseBitstream, data: array<Byte>, n: nat, ghost d: seq<Byte>, ghost i: nat)
    requires AtByte(r, d, i) && i + n <= |d| && n <= data.Length
    modifies r, data
    ensures AtByte(r, d, i + n) && data[..n] == d[i..i + n]
  {
    for k := 0 to n
      invariant AtByte(r, d, i + k)
      invariant forall j | 0 <= j < k :: data[j] == d[i + j]
    {
      data[k] := ReadByte(r, d, i + k);
    }
  }

  /** What one round of the search decides. */
  lemma FindRound(d: seq<Byte>, i: nat, wanted: nat, kind: nat, numBit: nat)
    requires i < |d| && kind == RunValue(d, i) % TYPE_RANGE && numBit == 8 * KeptSize(RunValue(d, RunEnd(d, i)))
    ensures var k := RunEnd(d, RunEnd(d, i));
      FindAt(d, i, wanted) ==
        if numBit / 8 > |d| - k then Corrupted
        else if kind == wanted then Found(k, numBit / 8)
        else FindAt(d, k + numBit / 8, wanted)
  {
  }

  datatype SeiStatus = Returned(kind: nat, numBit: nat) | NothingFound | Undefined

  /** status and the reader's position are what the search found. */
  ghost predicate Ends(r: AVCBaseBitstream, d: seq<Byte>, f: Finding, wanted: nat, status: SeiStatus)
    reads r
  {
    match f
    case Found(start, size) => status == Returned(wanted, 8 * size) && AtByte(r, d, start)
    case NotFound => status == NothingFound
    case Corrupted => status == Undefined
  }

  /** One round: a message is parsed, and skipped when it does not match. */
  method Round(r: AVCBaseBitstream, wanted: nat, ghost d: seq<Byte>, ghost i: nat)
    returns (status: SeiStatus, ghost next: nat)
    requires AtByte(r, d, i) && i < |d|
    modifies r
    ensures status == NothingFound ==>
      i < next && AtByte(r, d, next) && FindAt(d, i, wanted) == FindAt(d, next, wanted)
    ensures status != NothingFound ==> Ends(r, d, FindAt(d, i, wanted), wanted, status)
  {
    ghost var k := RunEnd(d, RunEnd(d, i));
    var kind, numBit := ParseSEI(r, d, i);
    FindRound(d, i, wanted, kind, numBit);
    next := k + numBit / 8;
    if numBit / 8 > r.BytesLeft() {
      status := Undefined;
    } else if wanted == kind {
      status := Returned(kind, numBit);
    } else {
      SkipBytes(r, numBit / 8, d, k);
      status := NothingFound;
    }
  }

  /** The loop up to a message that matches, whose payload comes next. */
  method NextMatch(r: AVCBaseBitstream, wanted: nat, ghost d: seq<Byte>, ghost i: nat) returns (status: SeiStatus)
    requires AtByte(r, d, i)
    modifies r
    ensures Ends(r, d, FindAt(d, i, wanted), wanted, status)
  {
    ghost var j: nat := i;
    status := NothingFound;
    while r.BytesLeft() > 0
      invariant status == NothingFound && AtByte(r, d, j) && FindAt(d, i, wanted) == FindAt(d, j, wanted)
      decreases r.BytesLeft()
    {
      status, j := Round(r, wanted, d, j);
      if status != NothingFound {
        return;
      }
    }
  }

  /** The search: a byte is skipped, then messages are parsed until one matches, the data
      ends, or a size reaches beyond the data, which is an exception. */
  method GetSEI(r: AVCBaseBitstream, data: array<Byte>, wanted: nat, ghost d: seq<Byte>, ghost i: nat)
    returns (status: SeiStatus)
    requires AtByte(r, d, i) && data.Length >= |d|
    modifies r, data
    ensures match if i < |d| then FindAt(d, i + 1, wanted) else Corrupted
            case Found(start, size) =>
              && status == Returned(wanted, 8 * size) && data[..size] == d[start..start + size]
              && AtByte(r, d, start + size)
            case NotFound => status == NothingFound && unchanged(data)
            case Corrupted => status == Undefined && unchanged(data)
  {
    if r.BytesLeft() <= 0 {
      return Undefined;
    }
    var code := ReadByte(r, d, i);
    status := NextMatch(r, wanted, d, i + 1);
    if status.Returned? {
      CopyBytes(r, data, status.numBit / 8, d, FindAt(d, i + 1, wanted).start);
    }
  }
}
