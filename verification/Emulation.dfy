/** Start-code emulation prevention (sections 7.3.1 and 7.4.1 of H.264): a byte 03 is
    inserted after two zero bytes when the next payload byte is 03 or less. */
module Emulation {
  import opened BitStrings

  predicate EndsWithTwoZeros(s: seq<Byte>) {
    |s| >= 2 && s[|s| - 1] == 0 && s[|s| - 2] == 0
  }

  /** The escaped form of a payload, byte by byte. */
  function Escape(payload: seq<Byte>): seq<Byte> {
    if payload == [] then [] else
      EscapeNext(Escape(payload[..|payload| - 1]), payload[|payload| - 1])
  }

  function EscapeNext(escaped: seq<Byte>, x: Byte): seq<Byte> {
    if EndsWithTwoZeros(escaped) && x < 4 then escaped + [3, x] else escaped + [x]
  }

  /** An escaped stream without its preventing bytes: each 03 that follows two zero
      bytes of the stream is dropped. */
  function Unescape(stream: seq<Byte>): (payload: seq<Byte>)
    ensures |payload| <= |stream|
  {
    if stream == [] then [] else
      var s, x := stream[..|stream| - 1], stream[|stream| - 1];
      if x == 3 && EndsWithTwoZeros(s) then Unescape(s) else Unescape(s) + [x]
  }

  ghost predicate ZerosBefore(s: seq<Byte>, i: nat)
    requires i <= |s|
  {
    i >= 2 && s[i - 2] == 0 && s[i - 1] == 0
  }

  /** No three consecutive bytes form a start code prefix or a reserved pattern. */
  ghost predicate NoStartCode(s: seq<Byte>) {
    forall i {:trigger ZerosBefore(s, i)} | 0 <= i < |s| :: ZerosBefore(s, i) ==> s[i] >= 3
  }

  /** Each 03 after two zero bytes, other than a final one, precedes a byte 03 or less. */
  ghost predicate PreventingBytesNeeded(s: seq<Byte>) {
    forall i {:trigger ZerosBefore(s, i)} | 0 <= i < |s| - 1 :: ZerosBefore(s, i) && s[i] == 3 ==> s[i + 1] <= 3
  }

  predicate EndsWithPreventingByte(s: seq<Byte>) {
    |s| > 0 && s[|s| - 1] == 3 && EndsWithTwoZeros(s[..|s| - 1])
  }

  /** The streams the standard allows a NAL unit's escaped payload to be. */
  ghost predicate WellEscaped(s: seq<Byte>) {
    NoStartCode(s) && PreventingBytesNeeded(s) && !EndsWithPreventingByte(s)
  }

  lemma {:induction false} EscapeWellEscaped(payload: seq<Byte>)
    ensures WellEscaped(Escape(payload))
  {
    if payload != [] {
      EscapeWellEscaped(payload[..|payload| - 1]);
      EscapeNextWellEscaped(Escape(payload[..|payload| - 1]), payload[|payload| - 1]);
    }
  }

  lemma EscapeNextWellEscaped(e: seq<Byte>, x: Byte)
    requires WellEscaped(e)
    ensures WellEscaped(EscapeNext(e, x))
  {
    var s := EscapeNext(e, x);
    forall i | 0 <= i < |s| && ZerosBefore(s, i)
      ensures s[i] >= 3 && (s[i] == 3 && i < |s| - 1 ==> s[i + 1] <= 3)
    {
      if i < |e| {
        assert ZerosBefore(e, i);
      }
    }
    assert s[..|s| - 1] == if EndsWithTwoZeros(e) && x < 4 then e + [3] else e;
  }

  /** Removing the preventing bytes undoes escaping. */
  lemma {:induction false} UnescapeEscape(payload: seq<Byte>)
    ensures Unescape(Escape(payload)) == payload
  {
    if |payload| == 0 {
      assert Escape(payload) == [];
    } else {
      var p, x := payload[..|payload| - 1], payload[|payload| - 1];
      UnescapeEscape(p);
      UnescapeNext(Escape(p), x);
      assert payload == p + [x];
    }
  }

  lemma UnescapeNext(e: seq<Byte>, x: Byte)
    ensures Unescape(EscapeNext(e, x)) == Unescape(e) + [x]
  {
    if EndsWithTwoZeros(e) && x < 4 {
      assert (e + [3, x])[..|e| + 1] == e + [3];
      assert (e + [3])[..|e|] == e;
    } else {
      assert (e + [x])[..|e|] == e;
    }
  }

  lemma {:induction false} EscapeUnescapePrefix(s: seq<Byte>)
    requires NoStartCode(s) && PreventingBytesNeeded(s)
    ensures Escape(Unescape(s)) == if EndsWithPreventingByte(s) then s[..|s| - 1] else s
  {
    if s != [] {
      var t, x := s[..|s| - 1], s[|s| - 1];
      assert s == t + [x];
      PrefixKeepsRules(s);
      EscapeUnescapePrefix(t);
      EscapeUnescapeStep(t, x, Escape(Unescape(t)));
      EscapeAppend(Unescape(t), x);
    }
  }

  lemma EscapeUnescapeStep(t: seq<Byte>, x: Byte, e: seq<Byte>)
    requires NoStartCode(t + [x]) && PreventingBytesNeeded(t + [x])
    requires e == if EndsWithPreventingByte(t) then t[..|t| - 1] else t
    ensures x == 3 && EndsWithTwoZeros(t) ==> e == t
    ensures !(x == 3 && EndsWithTwoZeros(t)) ==> EscapeNext(e, x) == t + [x]
  {
    var s := t + [x];
    if EndsWithPreventingByte(t) {
      assert ZerosBefore(s, |t| - 1);
      assert t == e + [3];
    } else if EndsWithTwoZeros(t) {
      assert ZerosBefore(s, |t|);
    }
  }

  lemma PrefixKeepsRules(s: seq<Byte>)
    requires s != [] && NoStartCode(s) && PreventingBytesNeeded(s)
    ensures NoStartCode(s[..|s| - 1]) && PreventingBytesNeeded(s[..|s| - 1])
  {
    var t := s[..|s| - 1];
    forall i | 0 <= i < |t| && ZerosBefore(t, i)
      ensures t[i] >= 3 && (i < |t| - 1 && t[i] == 3 ==> t[i + 1] <= 3)
    {
      assert ZerosBefore(s, i);
    }
  }

  /** Escaping undoes unescaping exactly on the streams the standard allows. */
  lemma EscapeUnescape(s: seq<Byte>)
    ensures Escape(Unescape(s)) == s <==> WellEscaped(s)
  {
    EscapeWellEscaped(Unescape(s));
    if WellEscaped(s) {
      EscapeUnescapePrefix(s);
    }
  }

  lemma EscapeAppend(p: seq<Byte>, x: Byte)
    ensures Escape(p + [x]) == EscapeNext(Escape(p), x)
  {
    assert (p + [x])[..|p|] == p;
  }
}
