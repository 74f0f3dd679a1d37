/** The search over data that stop inside the messages and go on with a few zeros. */
module SeiCut {
  import opened BitStrings
  import opened SeiSearch

  /** The data from i on are the first c bytes of x and up to three zeros. */
  ghost predicate Cut(d: seq<Byte>, i: nat, x: seq<Byte>, c: nat) {
    && c < |x| && i + c <= |d| <= i + c + 3
    && d[i..i + c] == x[..c] && ZerosFrom(d, i + c)
  }

  /** The search finds the payload as it was. */
  predicate FindsPayload(d: seq<Byte>, i: nat, kind: nat, payload: seq<Byte>) {
    HoldsPayload(d, FindAt(d, i, kind), payload)
  }

  predicate HoldsPayload(d: seq<Byte>, f: Finding, payload: seq<Byte>) {
    match f
    case Found(start, size) => size == |payload| && start + size <= |d| && d[start..start + size] == payload
    case _ => false
  }

  lemma CutTail(d: seq<Byte>, i: nat, a: seq<Byte>, y: seq<Byte>, c: nat)
    requires Cut(d, i, a + y, c) && c >= |a|
    ensures Starts(d, i, a) && Cut(d, i + |a|, y, c - |a|)
  {
    var s := d[i..i + c];
    assert d[i..i + |a|] == s[..|a|] && d[i + |a|..i + c] == s[|a|..];
  }

  lemma CutHead(d: seq<Byte>, i: nat, a: seq<Byte>, y: seq<Byte>, c: nat)
    requires Cut(d, i, a + y, c) && c < |a|
    ensures Cut(d, i, a, c)
  {
    assert (a + y)[..c] == a[..c];
  }

  lemma StartsJoin(d: seq<Byte>, i: nat, a: seq<Byte>, y: seq<Byte>)
    requires Starts(d, i, a) && Starts(d, i + |a|, y)
    ensures Starts(d, i, a + y)
  {
    assert d[i..i + |a + y|] == d[i..i + |a|] + d[i + |a|..i + |a| + |y|];
  }

  /** A number cut off reads as the 255s that are there. */
  lemma {:induction false} CutRun(d: seq<Byte>, i: nat, v: nat, c: nat)
    requires Cut(d, i, Coded(v), c)
    ensures RunValue(d, i) == 255 * c <= v && RunEnd(d, i) == if i + c < |d| then i + c + 1 else i + c
    decreases c
  {
    if c > 0 {
      assert d[i..i + c][0] == d[i] == Coded(v)[0];
      assert v >= 255;
      assert d[i + 1..i + c] == d[i..i + c][1..] == Coded(v)[..c][1..] == Coded(v - 255)[..c - 1];
      CutRun(d, i + 1, v - 255, c - 1);
    }
  }

  lemma ZeroRun(d: seq<Byte>, i: nat)
    requires ZerosFrom(d, i)
    ensures RunValue(d, i) == 0 && ZerosFrom(d, RunEnd(d, i))
  {
  }

  /** Cut in its type: it reads as an empty message. */
  lemma CutInType(d: seq<Byte>, i: nat, m: Message, c: nat, wanted: nat)
    requires Cut(d, i, Coded(m.kind), c) && wanted != 0
    ensures FindAt(d, i, wanted).Found? ==> FindAt(d, i, wanted).size == 0
  {
    CutRun(d, i, m.kind, c);
    var j := RunEnd(d, i);
    ZeroRun(d, j);
    if i < |d| {
      PaddingRead(d, RunEnd(d, j), wanted);
    }
  }

  /** Cut in its size: it reads as an empty message, or as one longer than the data. */
  lemma CutInSize(d: seq<Byte>, i: nat, j: nat, m: Message, c: nat, wanted: nat)
    requires RunEnd(d, i) == j && wanted != 0 && |m.payload| < SIZE_LIMIT
    requires Cut(d, j, Coded(|m.payload|), c)
    ensures FindAt(d, i, wanted).Found? ==> FindAt(d, i, wanted).size == 0
  {
    CutRun(d, j, |m.payload|, c);
    var k := RunEnd(d, j);
    if i < |d| && c == 0 {
      PaddingRead(d, k, wanted);
    }
  }

  /** How far a cut message is read: its payload starts at k, or it reads as an empty one or
      one longer than the data. */
  lemma CutMessage(d: seq<Byte>, i: nat, m: Message, c: nat, wanted: nat) returns (k: nat)
    requires Cut(d, i, m.Bytes(), c) && wanted != 0 && |m.payload| < SIZE_LIMIT
    ensures (FindAt(d, i, wanted).Found? ==> FindAt(d, i, wanted).size == 0) || PayloadCut(d, i, m, k)
  {
    k := i;
    var a, b := Coded(m.kind), Coded(|m.payload|);
    var j := i + |a|;
    if c < |a| {
      CutHead(d, i, a, b + m.payload, c);
      CutInType(d, i, m, c, wanted);
    } else {
      CutTail(d, i, a, b + m.payload, c);
      RunOf(d, i, m.kind);
      if c < |a| + |b| {
        CutHead(d, j, b, m.payload, c - |a|);
        CutInSize(d, i, j, m, c - |a|, wanted);
      } else {
        k := j + |b|;
        CutBehindSize(d, i, j, m, c - |a|);
      }
    }
  }

  lemma CutBehindSize(d: seq<Byte>, i: nat, j: nat, m: Message, c: nat)
    requires RunValue(d, i) == m.kind && RunEnd(d, i) == j == i + |Coded(m.kind)| && |m.payload| < SIZE_LIMIT
    requires Starts(d, i, Coded(m.kind)) && c >= |Coded(|m.payload|)|
    requires Cut(d, j, Coded(|m.payload|) + m.payload, c)
    ensures PayloadCut(d, i, m, j + |Coded(|m.payload|)|)
  {
    CutTail(d, j, Coded(|m.payload|), m.payload, c);
    RunOf(d, j, |m.payload|);
    StartsJoin(d, i, Coded(m.kind), Coded(|m.payload|));
  }

  /** Type and size are read, and the payload from k on is cut. */
  ghost predicate PayloadCut(d: seq<Byte>, i: nat, m: Message, k: nat) {
    && i < k <= |d| && RunValue(d, i) == m.kind && RunEnd(d, RunEnd(d, i)) == k
    && RunValue(d, RunEnd(d, i)) == |m.payload| && k == i + |Coded(m.kind) + Coded(|m.payload|)|
    && Starts(d, i, Coded(m.kind) + Coded(|m.payload|)) && ZerosFrom(d, k + |m.payload|)
  }

  /** A message of another type, cut, is the last one read, if the zeros suffice. */
  lemma CutOther(d: seq<Byte>, i: nat, m: Message, c: nat, wanted: nat)
    requires Cut(d, i, m.Bytes(), c) && wanted != 0 && |m.payload| < SIZE_LIMIT && !IsWanted(m.kind, wanted)
    ensures FindAt(d, i, wanted).Found? ==> FindAt(d, i, wanted).size == 0
  {
    var k := CutMessage(d, i, m, c, wanted);
    if PayloadCut(d, i, m, k) && |m.payload| <= |d| - k {
      PaddingRead(d, k + |m.payload|, wanted);
    }
  }

  /** The message wanted is found as it was only if the zeros are the bytes cut off. */
  lemma CutWanted(d: seq<Byte>, i: nat, m: Message, c: nat)
    requires Cut(d, i, m.Bytes(), c) && 0 < m.kind < TYPE_RANGE && 0 < |m.payload| < SIZE_LIMIT
    requires FindsPayload(d, i, m.kind, m.payload)
    ensures Starts(d, i, m.Bytes())
  {
    var k := CutMessage(d, i, m, c, m.kind);
    StartsJoin(d, i, Coded(m.kind) + Coded(|m.payload|), m.payload);
    assert Coded(m.kind) + Coded(|m.payload|) + m.payload == m.Bytes();
  }

  lemma SkipWhole(d: seq<Byte>, i: nat, m: Message, wanted: nat)
    requires Starts(d, i, m.Bytes()) && !IsWanted(m.kind, wanted) && |m.payload| < SIZE_LIMIT
    ensures FindAt(d, i, wanted) == FindAt(d, i + |m.Bytes()|, wanted)
  {
    var k := MessageBytesAt(d, i, m);
    FindOne(d, i, k, m, wanted);
  }

  /** A message of another type is passed over; the data are not cut in it. */
  lemma CutPast(d: seq<Byte>, i: nat, first: Message, a: seq<Byte>, y: seq<Byte>, c: nat, m: Message)
    returns (j: nat, e: nat)
    requires a == first.Bytes() && |first.payload| < SIZE_LIMIT && !IsWanted(first.kind, m.kind)
    requires Cut(d, i, a + y, c) && 0 < m.kind && 0 < |m.payload| && FindsPayload(d, i, m.kind, m.payload)
    ensures j == i + |a| && Starts(d, i, a)
    ensures Cut(d, j, y, e) && FindsPayload(d, j, m.kind, m.payload)
  {
    NotCutIn(d, i, first, a, y, c, m);
    j, e := i + |a|, c - |a|;
    CutTail(d, i, a, y, c);
    FoundBehind(d, i, first, m);
  }

  lemma NotCutIn(d: seq<Byte>, i: nat, first: Message, a: seq<Byte>, y: seq<Byte>, c: nat, m: Message)
    requires a == first.Bytes() && |first.payload| < SIZE_LIMIT && !IsWanted(first.kind, m.kind)
    requires Cut(d, i, a + y, c) && 0 < m.kind && 0 < |m.payload| && FindsPayload(d, i, m.kind, m.payload)
    ensures c >= |a|
  {
    if c < |a| {
      CutHead(d, i, a, y, c);
      CutOther(d, i, first, c, m.kind);
    }
  }

  lemma FoundBehind(d: seq<Byte>, i: nat, first: Message, m: Message)
    requires Starts(d, i, first.Bytes()) && |first.payload| < SIZE_LIMIT && !IsWanted(first.kind, m.kind)
    requires FindsPayload(d, i, m.kind, m.payload)
    ensures FindsPayload(d, i + |first.Bytes()|, m.kind, m.payload)
  {
    SkipWhole(d, i, first, m.kind);
  }

  lemma MessagesFirst(ms: seq<Message>, rest: seq<Byte>)
    requires |ms| > 0
    ensures MessagesBytes(ms) + rest == ms[0].Bytes() + (MessagesBytes(ms[1..]) + rest)
  {
    Regroup(ms[0].Bytes(), MessagesBytes(ms[1..]), rest);
  }

  lemma Regroup(a: seq<Byte>, b: seq<Byte>, c: seq<Byte>)
    ensures a + b + c == a + (b + c)
  {
  }

  lemma RestWanted(ms: seq<Message>, wanted: nat)
    requires |ms| > 0 && NoneWanted(ms, wanted)
    ensures !IsWanted(ms[0].kind, wanted) && |ms[0].payload| < SIZE_LIMIT && NoneWanted(ms[1..], wanted)
  {
  }

  lemma NoMessages(rest: seq<Byte>)
    ensures MessagesBytes([]) + rest == rest
  {
  }

  /** Over messages cut off the one wanted is found as it was only if it is all there. */
  lemma {:induction false} CutSearch(d: seq<Byte>, i: nat, before: seq<Message>, m: Message, x: seq<Byte>, c: nat)
    requires x == MessagesBytes(before) + m.Bytes() && Cut(d, i, x, c) && NoneWanted(before, m.kind)
    requires 0 < m.kind < TYPE_RANGE && 0 < |m.payload| < SIZE_LIMIT
    requires FindsPayload(d, i, m.kind, m.payload)
    ensures Starts(d, i, x)
    decreases |before|
  {
    if |before| == 0 {
      assert before == [];
      NoMessages(m.Bytes());
      CutWanted(d, i, m, c);
    } else {
      var a, y := before[0].Bytes(), MessagesBytes(before[1..]) + m.Bytes();
      MessagesFirst(before, m.Bytes());
      RestWanted(before, m.kind);
      assert x == a + y;
      var j, e := CutPast(d, i, before[0], a, y, c, m);
      CutSearch(d, j, before[1..], m, y, e);
      StartsJoin(d, i, a, y);
    }
  }
}
