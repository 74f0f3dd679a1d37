/** Saving a message from the byte stream: the preventing bytes are removed and the bytes
    packed into words before the search. */
module SeiStream {
  import opened BitStrings
  import opened Emulation
  import opened BytesSwapper
  import opened BitReader
  import opened SeiCut
  import opened SeiSearch

  lemma ByteBits(bytes: seq<Byte>, i: nat)
    requires i < |bytes|
    ensures BytesBits(bytes)[8 * i..8 * i + 8] == ToBits(bytes[i], 8)
  {
  }

  /** The words SwapMemory writes read as the unescaped bytes, padded with zeros. */
  lemma SwappedBytesAre(source: seq<Byte>, words: seq<Word>)
    requires Swapped(source) <= words && |words| > |Swapped(source)|
    ensures IsBytesOf(PadToWords(Unescape(source)), WordsBits(words))
  {
    var d := PadToWords(Unescape(source));
    PadStep(|Unescape(source)|, PadCount(|Unescape(source)|));
    PackWordsBits(d);
    ghost var bits := WordsBits(words);
    forall i {:trigger ByteOf(bits, i)} | 0 <= i < |d|
      ensures d[i] == ByteOf(bits, i)
    {
      ByteBits(d, i);
      PrefixSlice(WordsBits(Swapped(source)), bits, 8 * i);
      ByteVal(d[i]);
    }
  }

  lemma PrefixSlice(a: seq<bool>, b: seq<bool>, p: nat)
    requires p + 8 <= |a| <= |b| && forall i | 0 <= i < |a| :: a[i] == b[i]
    ensures a[p..p + 8] == b[p..p + 8]
  {
  }

  /** The bytes the search runs over. */
  function Searched(source: seq<Byte>): seq<Byte> {
    PadToWords(Unescape(source))
  }

  /** What GetSEI makes of the data: the message's bits and bytes, nothing, or the exception. */
  ghost predicate Answers(data: seq<Byte>, d: seq<Byte>, wanted: nat, status: SeiStatus) {
    match if |d| > 0 then FindAt(d, 1, wanted) else Corrupted
    case Found(start, n) => status == Returned(wanted, 8 * n) && n <= |data| && data[..n] == d[start..start + n]
    case NotFound => status == NothingFound
    case Corrupted => status == Undefined
  }

  lemma SwappedSearched(s: seq<Byte>, words: seq<Word>)
    requires |Swapped(s)| < |words| && forall k | 0 <= k < |Swapped(s)| :: words[k] == Swapped(s)[k]
    ensures IsBytesOf(Searched(s), WordsBits(words))
  {
    SwappedPrefix(Swapped(s), words);
    SwappedBytesAre(s, words);
  }

  /** The words then read as the bytes searched. */
  method SwapUnit(source: array<Byte>, size: Word, words: array<Word>) returns (dstSize: Word)
    requires size <= source.Length && size < 0x7FFF_FFFC && words.Length >= (size + 7) / 4
    requires words as object != source
    modifies words
    ensures dstSize == |Searched(source[..size])|
    ensures IsBytesOf(Searched(source[..size]), WordsBits(words[..]))
  {
    SwappedLength(source[..size]);
    dstSize := SwapMemory(words, source, size);
    SwappedSearched(source[..size], words[..]);
  }

  /** Swapping, then searching behind the first byte. */
  method SaveMessage(source: array<Byte>, size: Word, words: array<Word>, data: array<Byte>,
    wanted: nat) returns (status: SeiStatus, dstSize: Word)
    requires size <= source.Length && size < 0x7FFF_FFFC
    requires words.Length >= (size + 7) / 4 && data.Length >= 4 * ((size + 3) / 4)
    requires words as object != source && data != source
    modifies words, data
    ensures Answers(data[..], Searched(old(source[..size])), wanted, status)
    ensures dstSize == |Searched(old(source[..size]))|
  {
    ghost var s := source[..size];
    ghost var d := Searched(s);
    SwappedLength(s);
    dstSize := SwapUnit(source, size, words);
    var r := new AVCBaseBitstream(words[..], dstSize);
    status := GetSEI(r, data, wanted, d, 0);
  }

  lemma SwappedLength(s: seq<Byte>)
    requires |s| < 0x7FFF_FFFC
    ensures |Swapped(s)| <= (|s| + 3) / 4 && |Searched(s)| == 4 * |Swapped(s)| < 0x8000_0000
    ensures |Searched(s)| <= |s| + 3 && (|s| > 0 ==> |Searched(s)| > 0)
  {
    PadStep(|Unescape(s)|, PadCount(|Unescape(s)|));
    if |s| > 0 {
      UnescapeSome(s);
    }
  }

  lemma {:induction false} UnescapeSome(s: seq<Byte>)
    requires |s| > 0
    ensures |Unescape(s)| > 0
  {
    if |s| > 1 {
      UnescapeSome(s[..|s| - 1]);
    }
  }

  lemma SwappedPrefix(a: seq<Word>, b: seq<Word>)
    requires |a| <= |b| && forall k | 0 <= k < |a| :: b[k] == a[k]
    ensures a <= b
  {
  }

  lemma BodyStarts(header: Byte, body: seq<Byte>, tail: seq<Byte>, d: seq<Byte>)
    requires d == [header] + body + tail
    ensures Starts(d, 1, body)
  {
  }

  lemma FoundInPrefix(d: seq<Byte>, header: Byte, before: seq<Message>, m: Message, rest: seq<Byte>)
    requires [header] + (MessagesBytes(before) + m.Bytes()) + rest <= d
    requires NoneWanted(before, m.kind) && m.kind < TYPE_RANGE && |m.payload| < SIZE_LIMIT
    ensures var f := FindAt(d, 1, m.kind);
      f.Found? && f.size == |m.payload| && d[f.start..f.start + f.size] == m.payload
  {
    ghost var body := MessagesBytes(before) + m.Bytes();
    ghost var n := |[header] + body + rest|;
    assert d == [header] + body + (rest + d[n..]);
    BodyStarts(header, body, rest + d[n..], d);
    FirstMatch(d, 1, before, m);
  }

  /** A message of the type wanted, behind a header byte and other messages, is found in the
      escaped stream with its payload. */
  lemma MessageFound(header: Byte, before: seq<Message>, m: Message, rest: seq<Byte>, p: seq<Byte>)
    requires NoneWanted(before, m.kind) && m.kind < TYPE_RANGE && |m.payload| < SIZE_LIMIT
    requires p == [header] + (MessagesBytes(before) + m.Bytes()) + rest
    ensures var d := Searched(Escape(p)); var f := FindAt(d, 1, m.kind);
      f.Found? && f.size == |m.payload| && d[f.start..f.start + f.size] == m.payload
  {
    UnescapeEscape(p);
    FoundInPrefix(PadToWords(p), header, before, m, rest);
  }

  // ---------- saving both types a constructor looks for

  const MASTERING_DISPLAY: nat := 137
  const CONTENT_LIGHT_LEVEL: nat := 144

  /** The size the first swap returns, which is the size the second one is given. */
  function SecondSize(source: seq<Byte>, size: nat): nat
    requires size <= |source|
  {
    |Searched(source[..size])|
  }

  /** What is kept of a type after a search: only a message with bits replaces the old one. */
  function SavedFrom(kept: map<nat, seq<Byte>>, d: seq<Byte>, kind: nat): map<nat, seq<Byte>> {
    match FindAt(d, 1, kind)
    case Found(start, n) => if n > 0 then kept[kind := d[start..start + n]] else kept
    case _ => kept
  }

  /** Both rounds of SaveSEI over the bytes behind the first five. */
  function SavedBoth(kept: map<nat, seq<Byte>>, source: seq<Byte>, size: nat): map<nat, seq<Byte>>
    requires size <= |source| && SecondSize(source, size) <= |source|
  {
    SavedFrom(SavedFrom(kept, Searched(source[..size]), MASTERING_DISPLAY),
              Searched(source[..SecondSize(source, size)]), CONTENT_LIGHT_LEVEL)
  }

  class FrameConstructor {
    var seiMap: map<nat, seq<Byte>>

    /** One round of SaveSEI; an exception saves nothing. */
    method SaveRound(source: array<Byte>, size: Word, words: array<Word>, data: array<Byte>, kind: nat)
      returns (dstSize: Word)
      requires size <= source.Length && size < 0x7FFF_FFFC
      requires words.Length >= (size + 7) / 4 && data.Length >= 4 * ((size + 3) / 4)
      requires words as object != source && data != source
      modifies this, words, data
      ensures seiMap == SavedFrom(old(seiMap), Searched(old(source[..size])), kind)
      ensures dstSize == |Searched(old(source[..size]))|
    {
      SwappedLength(source[..size]);
      var status;
      status, dstSize := SaveMessage(source, size, words, data, kind);
      if status.Returned? && status.numBit > 0 {
        seiMap := seiMap[kind := data[..status.numBit / 8]];
      }
    }

    /** Looks for both types. The size the first swap returns is the one the second swap is
        given, which may reach behind the bytes of the message or stop before their end. */
    method SaveSEI(source: array<Byte>, size: Word)
      requires size <= source.Length && size < 0x7FFF_FFF8
      requires SecondSize(source[..], size) <= source.Length
      modifies this
      ensures seiMap == SavedBoth(old(seiMap), source[..], size)
    {
      ghost var bytes := source[..];
      SwappedLength(source[..size]);
      assert bytes[..size] == source[..size];
      var words := new Word[(size + 8) / 4];
      var data := new Byte[size + 5];
      var second := SaveRound(source, size, words, data, MASTERING_DISPLAY);
      assert bytes[..second] == source[..second];
      data := new Byte[size + 5];
      second := SaveRound(source, second, words, data, CONTENT_LIGHT_LEVEL);
    }
  }

  lemma {:induction false} UnescapeGrows(s: seq<Byte>, t: seq<Byte>)
    ensures Unescape(s) <= Unescape(s + t)
  {
    if t == [] {
      assert s + t == s;
    } else {
      var t' := t[..|t| - 1];
      UnescapeGrows(s, t');
      assert (s + t)[..|s + t| - 1] == s + t';
    }
  }

  /** Without its last byte, unless that is a preventing one, a stream holds a byte less. */
  lemma ShorterHoldsLess(s: seq<Byte>, k: nat)
    requires k < |s| && !EndsWithPreventingByte(s)
    ensures |Unescape(s[..k])| < |Unescape(s)|
  {
    var t := s[..|s| - 1];
    UnescapeGrows(t[..k], t[k..]);
    assert t[..k] == s[..k] && t[..k] + t[k..] == t;
  }

  lemma PrefixOfPadded(p: seq<Byte>, u: seq<Byte>)
    requires p <= u
    ensures p <= PadToWords(u)
  {
  }

  lemma LostLast(p: seq<Byte>, u: seq<Byte>)
    requires |u| < |p| && p[|p| - 1] != 0
    ensures !(p <= PadToWords(u))
  {
    assert |p| <= |PadToWords(u)| ==> PadToWords(u)[|p| - 1] == 0;
  }

  /** Bytes that end in no zero are all there, read from the first n bytes of a stream that
      begins with their escaped form, exactly when that form is no longer than n. */
  lemma ReachesExact(x: seq<Byte>, source: seq<Byte>, n: nat)
    requires x != [] && x[|x| - 1] != 0 && Escape(x) <= source && n <= |source|
    ensures x <= PadToWords(Unescape(source[..n])) <==> |Escape(x)| <= n
  {
    ghost var e, t := Escape(x), source[..n];
    UnescapeEscape(x);
    EscapeWellEscaped(x);
    if |e| <= n {
      PrefixUnescaped(e, t);
      PrefixOfPadded(x, Unescape(t));
    } else {
      ShorterHoldsLess(e, n);
      assert t == e[..n];
      LostLast(x, Unescape(t));
    }
  }

  lemma SizeOfEscaped(p: seq<Byte>, source: seq<Byte>)
    requires Escape(p) <= source
    ensures SecondSize(source, |Escape(p)|) == |PadToWords(p)|
  {
    UnescapeEscape(p);
    assert source[..|Escape(p)|] == Escape(p);
  }

  /** The second search runs over all bytes of a message unit, which never ends in a zero,
      exactly when its preventing bytes are no more than the zeros that pad it. */
  lemma SecondSearchExact(p: seq<Byte>, source: seq<Byte>)
    requires p != [] && p[|p| - 1] != 0
    requires Escape(p) <= source && SecondSize(source, |Escape(p)|) <= |source|
    ensures p <= Searched(source[..SecondSize(source, |Escape(p)|)])
      <==> |Escape(p)| - |p| <= PadCount(|p|)
  {
    SizeOfEscaped(p, source);
    ReachesExact(p, source, SecondSize(source, |Escape(p)|));
  }

  /** The bytes of a message unit from its start to the end of a message. */
  function UpTo(header: Byte, before: seq<Message>, m: Message): seq<Byte> {
    [header] + (MessagesBytes(before) + m.Bytes())
  }

  /** What a search over the first n bytes runs over begins with x, or is cut in it and goes
      on with padding zeros. */
  lemma CutOff(p: seq<Byte>, x: seq<Byte>, source: seq<Byte>, n: nat) returns (c: nat)
    requires x <= p && Escape(p) <= source && 0 < n <= |source|
    ensures x <= Searched(source[..n]) || (c > 0 && Cut(Searched(source[..n]), 0, x, c))
  {
    ghost var e, t := Escape(p), source[..n];
    UnescapeEscape(p);
    UnescapeSome(t);
    c := |Unescape(t)|;
    if |e| <= n {
      PrefixUnescaped(e, t);
      PrefixOfPadded(x, Unescape(t));
    } else {
      PrefixUnescaped(t, e);
      PadCut(Unescape(t), x, p);
    }
  }

  lemma PrefixUnescaped(s: seq<Byte>, t: seq<Byte>)
    requires s <= t
    ensures Unescape(s) <= Unescape(t)
  {
    UnescapeGrows(s, t[|s|..]);
    assert s + t[|s|..] == t;
  }

  lemma PadCut(u: seq<Byte>, x: seq<Byte>, p: seq<Byte>)
    requires u <= p && x <= p
    ensures x <= PadToWords(u) || Cut(PadToWords(u), 0, x, |u|)
  {
    if |x| > |u| {
      assert PadToWords(u)[0..|u|] == u == x[..|u|];
    }
  }

  lemma CutBehindHeader(d: seq<Byte>, header: Byte, x: seq<Byte>, c: nat)
    requires Cut(d, 0, [header] + x, c) && c > 0
    ensures Cut(d, 1, x, c - 1) && d[0] == header
  {
    CutTail(d, 0, [header], x, c);
  }

  lemma HeaderJoin(d: seq<Byte>, header: Byte, x: seq<Byte>)
    requires |d| > 0 && d[0] == header && Starts(d, 1, x)
    ensures [header] + x <= d
  {
  }

  lemma FoundWhole(d: seq<Byte>, header: Byte, before: seq<Message>, m: Message, x: seq<Byte>, c: nat)
    requires NoneWanted(before, m.kind) && 0 < m.kind < TYPE_RANGE && 0 < |m.payload| < SIZE_LIMIT
    requires x == MessagesBytes(before) + m.Bytes() && c > 0 && Cut(d, 0, [header] + x, c)
    requires FindsPayload(d, 1, m.kind, m.payload)
    ensures [header] + x <= d
  {
    CutBehindHeader(d, header, x, c);
    CutSearch(d, 1, before, m, x, c - 1);
    HeaderJoin(d, header, x);
  }

  lemma FindsWhole(d: seq<Byte>, header: Byte, before: seq<Message>, m: Message)
    requires NoneWanted(before, m.kind) && 0 < m.kind < TYPE_RANGE && 0 < |m.payload| < SIZE_LIMIT
    requires UpTo(header, before, m) <= d
    ensures FindsPayload(d, 1, m.kind, m.payload)
  {
    assert UpTo(header, before, m) + [] == UpTo(header, before, m);
    FoundInPrefix(d, header, before, m, []);
  }

  /** A message is found with its payload exactly when the second search's bytes begin with
      the unit up to the message's end, whatever is lost behind it. */
  lemma SecondFindsExact(header: Byte, before: seq<Message>, m: Message, p: seq<Byte>, source: seq<Byte>, n: nat)
    requires NoneWanted(before, m.kind) && 0 < m.kind < TYPE_RANGE && 0 < |m.payload| < SIZE_LIMIT
    requires UpTo(header, before, m) <= p && Escape(p) <= source && 0 < n <= |source|
    ensures FindsPayload(Searched(source[..n]), 1, m.kind, m.payload)
      <==> UpTo(header, before, m) <= Searched(source[..n])
  {
    ghost var d := Searched(source[..n]);
    if UpTo(header, before, m) <= d {
      FindsWhole(d, header, before, m);
    } else if FindsPayload(d, 1, m.kind, m.payload) {
      var c := CutOff(p, UpTo(header, before, m), source, n);
      FoundWhole(d, header, before, m, MessagesBytes(before) + m.Bytes(), c);
    }
  }

  /** The first type's payload is kept whatever else the unit holds, and messages of other
      types than the two stay as they were. */
  lemma FirstSaved(kept: map<nat, seq<Byte>>, header: Byte, before: seq<Message>, payload: seq<Byte>,
    rest: seq<Byte>, source: seq<Byte>, size: nat)
    requires NoneWanted(before, 137) && 0 < |payload| < SIZE_LIMIT && size <= |source|
    requires source[..size] == Escape(UpTo(header, before, Message(137, payload)) + rest)
    requires SecondSize(source, size) <= |source|
    ensures var after := SavedBoth(kept, source, size);
      && 137 in after && after[137] == payload
      && forall k | k != 137 && k != 144 :: (k in after <==> k in kept) && (k in after ==> after[k] == kept[k])
  {
    MessageFound(header, before, Message(137, payload), rest, UpTo(header, before, Message(137, payload)) + rest);
  }

  /** A message without a payload replaces nothing. */
  lemma EmptyNotSaved(kept: map<nat, seq<Byte>>, header: Byte, before: seq<Message>, rest: seq<Byte>,
    source: seq<Byte>, size: nat)
    requires NoneWanted(before, 137) && size <= |source|
    requires source[..size] == Escape(UpTo(header, before, Message(137, [])) + rest)
    requires SecondSize(source, size) <= |source|
    ensures var after := SavedBoth(kept, source, size);
      (137 in after <==> 137 in kept) && (137 in after ==> after[137] == kept[137])
  {
    MessageFound(header, before, Message(137, []), rest, UpTo(header, before, Message(137, [])) + rest);
  }

  lemma {:induction false} EscapeGrows(p: seq<Byte>, q: seq<Byte>)
    ensures Escape(p) <= Escape(p + q)
  {
    if q == [] {
      assert p + q == p;
    } else {
      var q' := q[..|q| - 1];
      EscapeGrows(p, q');
      assert p + q == (p + q') + [q[|q| - 1]];
      EscapeAppend(p + q', q[|q| - 1]);
    }
  }

  /** So the second type's payload is kept exactly when the unit up to its end is among the
      bytes searched; for a payload that ends in no zero that is when the unit, escaped up to
      there, is no longer than the size the first swap returned. */
  lemma SecondSavedExact(kept: map<nat, seq<Byte>>, header: Byte, before: seq<Message>, payload: seq<Byte>,
    p: seq<Byte>, source: seq<Byte>)
    requires NoneWanted(before, CONTENT_LIGHT_LEVEL) && 0 < |payload| < SIZE_LIMIT && CONTENT_LIGHT_LEVEL !in kept
    requires UpTo(header, before, Message(CONTENT_LIGHT_LEVEL, payload)) <= p
    requires Escape(p) <= source && SecondSize(source, |Escape(p)|) <= |source|
    ensures var x, n := UpTo(header, before, Message(CONTENT_LIGHT_LEVEL, payload)), SecondSize(source, |Escape(p)|);
      var after := SavedBoth(kept, source, |Escape(p)|);
      && (CONTENT_LIGHT_LEVEL in after && after[CONTENT_LIGHT_LEVEL] == payload <==> x <= Searched(source[..n]))
      && (payload[|payload| - 1] != 0 ==> (x <= Searched(source[..n]) <==> |Escape(x)| <= n))
  {
    var m := Message(CONTENT_LIGHT_LEVEL, payload);
    ghost var x, n := UpTo(header, before, m), SecondSize(source, |Escape(p)|);
    SizeOfEscaped(p, source);
    SecondFindsExact(header, before, m, p, source, n);
    KeptExact(kept, source, |Escape(p)|, payload);
    if payload[|payload| - 1] != 0 {
      LastOfUnit(header, before, m);
      PartReaches(x, p, source, n);
    }
  }

  lemma PartReaches(x: seq<Byte>, p: seq<Byte>, source: seq<Byte>, n: nat)
    requires x != [] && x[|x| - 1] != 0 && x <= p && Escape(p) <= source && n <= |source|
    ensures x <= Searched(source[..n]) <==> |Escape(x)| <= n
  {
    EscapeGrows(x, p[|x|..]);
    assert x + p[|x|..] == p;
    ReachesExact(x, source, n);
  }

  lemma LastOfUnit(header: Byte, before: seq<Message>, m: Message)
    requires |m.payload| > 0
    ensures var x := UpTo(header, before, m); x[|x| - 1] == m.payload[|m.payload| - 1]
  {
  }

  lemma KeptExact(kept: map<nat, seq<Byte>>, source: seq<Byte>, size: nat, payload: seq<Byte>)
    requires size <= |source| && SecondSize(source, size) <= |source| && 0 < |payload|
    requires CONTENT_LIGHT_LEVEL !in kept
    ensures var after := SavedBoth(kept, source, size);
      CONTENT_LIGHT_LEVEL in after && after[CONTENT_LIGHT_LEVEL] == payload
      <==> FindsPayload(Searched(source[..SecondSize(source, size)]), 1, CONTENT_LIGHT_LEVEL, payload)
  {
  }

  /** Two preventing bytes and no padding: the second search stops before the trailing bits and
      the last byte of the payload, and the message is saved with a padding zero for that. */
  lemma SecondCut(kept: map<nat, seq<Byte>>, source: seq<Byte>)
    requires source == [1, 144, 8, 0, 0, 3, 1, 0, 0, 3, 1, 1, 1, 128]
    ensures Unescape(source) == UpTo(1, [], Message(CONTENT_LIGHT_LEVEL, [0, 0, 1, 0, 0, 1, 1, 1])) + [128]
    ensures SecondSize(source, 14) == 12
    ensures SavedBoth(kept, source, 14) == kept[CONTENT_LIGHT_LEVEL := [0, 0, 1, 0, 0, 1, 1, 0]]
  {
    assert source[..14] == source && source[..12] == [1, 144, 8, 0, 0, 3, 1, 0, 0, 3, 1, 1];
    CutUnit();
    CutSearched();
    CutSaved(kept, [1, 144, 8, 0, 0, 1, 0, 0, 1, 1, 1, 128], [1, 144, 8, 0, 0, 1, 0, 0, 1, 1, 0, 0]);
  }

  lemma CutSaved(kept: map<nat, seq<Byte>>, d: seq<Byte>, e: seq<Byte>)
    requires d == [1, 144, 8, 0, 0, 1, 0, 0, 1, 1, 1, 128] && e == [1, 144, 8, 0, 0, 1, 0, 0, 1, 1, 0, 0]
    ensures SavedFrom(kept, d, MASTERING_DISPLAY) == kept
    ensures SavedFrom(kept, e, CONTENT_LIGHT_LEVEL) == kept[CONTENT_LIGHT_LEVEL := [0, 0, 1, 0, 0, 1, 1, 0]]
  {
    CutFindings(d);
    CutFindings(e);
    assert FindAt(d, 11, MASTERING_DISPLAY) == NotFound by {
      TrailingByte(d, 11, MASTERING_DISPLAY);
    }
    var q: seq<Byte> := [0, 0, 1, 0, 0, 1, 1, 0];
    assert e == [1, 144, 8] + q + [0];
    assert e[3..11] == q;
  }

  lemma CutUnit()
    ensures UpTo(1, [], Message(CONTENT_LIGHT_LEVEL, [0, 0, 1, 0, 0, 1, 1, 1])) + [128]
         == [1, 144, 8, 0, 0, 1, 0, 0, 1, 1, 1, 128]
  {
    assert Coded(144) == [144] && Coded(8) == [8];
  }

  lemma CutFindings(d: seq<Byte>)
    requires |d| == 12 && d[1] == 144 && d[2] == 8
    ensures FindAt(d, 1, MASTERING_DISPLAY) == FindAt(d, 11, MASTERING_DISPLAY)
    ensures FindAt(d, 1, CONTENT_LIGHT_LEVEL) == Found(3, 8)
  {
    assert RunValue(d, 1) == 144 && RunEnd(d, 1) == 2 && RunValue(d, 2) == 8 && RunEnd(d, 2) == 3;
  }

  lemma CutSearched()
    ensures Unescape([1, 144, 8, 0, 0, 3, 1, 0, 0, 3, 1, 1, 1, 128]) == [1, 144, 8, 0, 0, 1, 0, 0, 1, 1, 1, 128]
    ensures Searched([1, 144, 8, 0, 0, 3, 1, 0, 0, 3, 1, 1, 1, 128]) == [1, 144, 8, 0, 0, 1, 0, 0, 1, 1, 1, 128]
    ensures Searched([1, 144, 8, 0, 0, 3, 1, 0, 0, 3, 1, 1]) == [1, 144, 8, 0, 0, 1, 0, 0, 1, 1, 0, 0]
  {
    CutMiddle();
    UnescapeTo([1, 144, 8, 0, 0, 3, 1, 0, 0], 3, [1, 144, 8, 0, 0, 3, 1, 0, 0, 3], [1, 144, 8, 0, 0, 1, 0, 0]);
    UnescapeTo([1, 144, 8, 0, 0, 3, 1, 0, 0, 3], 1, [1, 144, 8, 0, 0, 3, 1, 0, 0, 3, 1], [1, 144, 8, 0, 0, 1, 0, 0, 1]);
    CutEnd();
  }

  lemma UnescapeTo(s: seq<Byte>, x: Byte, t: seq<Byte>, u: seq<Byte>)
    requires t == s + [x]
    requires u == if x == 3 && EndsWithTwoZeros(s) then Unescape(s) else Unescape(s) + [x]
    ensures Unescape(t) == u
  {
    assert t[..|s|] == s;
  }

  lemma CutFirst()
    ensures Unescape([1, 144, 8]) == [1, 144, 8]
  {
    UnescapeTo([], 1, [1], [1]);
    UnescapeTo([1], 144, [1, 144], [1, 144]);
    UnescapeTo([1, 144], 8, [1, 144, 8], [1, 144, 8]);
  }

  lemma CutStart()
    ensures Unescape([1, 144, 8, 0, 0]) == [1, 144, 8, 0, 0]
  {
    CutFirst();
    UnescapeTo([1, 144, 8], 0, [1, 144, 8, 0], [1, 144, 8, 0]);
    UnescapeTo([1, 144, 8, 0], 0, [1, 144, 8, 0, 0], [1, 144, 8, 0, 0]);
  }

  lemma CutMiddle()
    ensures Unescape([1, 144, 8, 0, 0, 3, 1, 0, 0]) == [1, 144, 8, 0, 0, 1, 0, 0]
  {
    CutStart();
    UnescapeTo([1, 144, 8, 0, 0], 3, [1, 144, 8, 0, 0, 3], [1, 144, 8, 0, 0]);
    UnescapeTo([1, 144, 8, 0, 0, 3], 1, [1, 144, 8, 0, 0, 3, 1], [1, 144, 8, 0, 0, 1]);
    UnescapeTo([1, 144, 8, 0, 0, 3, 1], 0, [1, 144, 8, 0, 0, 3, 1, 0], [1, 144, 8, 0, 0, 1, 0]);
    UnescapeTo([1, 144, 8, 0, 0, 3, 1, 0], 0, [1, 144, 8, 0, 0, 3, 1, 0, 0], [1, 144, 8, 0, 0, 1, 0, 0]);
  }

  lemma CutEnd()
    requires Unescape([1, 144, 8, 0, 0, 3, 1, 0, 0, 3, 1]) == [1, 144, 8, 0, 0, 1, 0, 0, 1]
    ensures Unescape([1, 144, 8, 0, 0, 3, 1, 0, 0, 3, 1, 1]) == [1, 144, 8, 0, 0, 1, 0, 0, 1, 1]
    ensures Unescape([1, 144, 8, 0, 0, 3, 1, 0, 0, 3, 1, 1, 1, 128]) == [1, 144, 8, 0, 0, 1, 0, 0, 1, 1, 1, 128]
  {
    UnescapeTo([1, 144, 8, 0, 0, 3, 1, 0, 0, 3, 1], 1, [1, 144, 8, 0, 0, 3, 1, 0, 0, 3, 1, 1],
               [1, 144, 8, 0, 0, 1, 0, 0, 1, 1]);
    UnescapeTo([1, 144, 8, 0, 0, 3, 1, 0, 0, 3, 1, 1], 1, [1, 144, 8, 0, 0, 3, 1, 0, 0, 3, 1, 1, 1],
               [1, 144, 8, 0, 0, 1, 0, 0, 1, 1, 1]);
    UnescapeTo([1, 144, 8, 0, 0, 3, 1, 0, 0, 3, 1, 1, 1], 128, [1, 144, 8, 0, 0, 3, 1, 0, 0, 3, 1, 1, 1, 128],
               [1, 144, 8, 0, 0, 1, 0, 0, 1, 1, 1, 128]);
  }
}
