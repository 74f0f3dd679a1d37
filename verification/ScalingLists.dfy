/** AVC scaling lists: the wrapped differences of section 7.3.2.1.1.1 of H.264. */
module ScalingLists {
  import opened BitStrings
  import opened ExpGolomb
  import opened BitReader
  import opened ScanTables

  /** A list being read: the scales so far in scan order. */
  datatype State =
    | Going(last: nat, next: nat, isDefault: bool, values: seq<nat>, pos: nat)
    | OutOfRange(delta: int)

  // ---------- what the bits say

  /** What the decoder needs at p. */
  predicate CanRead(b: seq<bool>, p: nat) {
    p < |b| && LeadingZeros(b, p) <= 31 && p + 2 * LeadingZeros(b, p) + 8 < |b| && CodeFits(b, p)
  }

  function Wrap8(x: int): (r: nat)
    ensures r < 256
  {
    x % 256
  }

  /** A scale of 0 keeps the last one to the end of the list. */
  function Push(s: State, next: nat, isDefault: bool, pos: nat): State
    requires s.Going?
  {
    var v := if next == 0 then s.last else next;
    Going(v, next, isDefault, s.values + [v], pos)
  }

  function Advance(b: seq<bool>, s: State): State
    requires s.Going? && (s.next != 0 ==> CanRead(b, s.pos))
  {
    if s.next == 0 then Push(s, 0, s.isDefault, s.pos) else
      var delta := SeValue(CodeNum(b, s.pos));
      if delta < -128 || delta > 127 then OutOfRange(delta) else
        var next := Wrap8(s.last + delta + 256);
        Push(s, next, s.values == [] && next == 0, s.pos + 2 * LeadingZeros(b, s.pos) + 1)
  }

  /** Every code the first n scales need is there to be read. */
  predicate Decodable(b: seq<bool>, p: nat, n: nat)
    decreases n, 0
  {
    n == 0 || (Decodable(b, p, n - 1) &&
               (Parsed(b, p, n - 1).Going? && Parsed(b, p, n - 1).next != 0 ==> CanRead(b, Parsed(b, p, n - 1).pos)))
  }

  function Parsed(b: seq<bool>, p: nat, n: nat): (s: State)
    requires Decodable(b, p, n)
    ensures s.Going? ==> |s.values| == n
    decreases n, 1
  {
    if n == 0 then Going(8, 8, false, [], p) else
      var s := Parsed(b, p, n - 1);
      if s.Going? then Advance(b, s) else s
  }

  // ---------- what is accepted

  /** Accepted scales are bytes other than 0, and the default list is chosen exactly when
      the first difference leads to 0. */
  lemma {:induction false} AcceptedScales(b: seq<bool>, p: nat, n: nat)
    requires Decodable(b, p, n) && Parsed(b, p, n).Going?
    ensures forall i | 0 <= i < n :: 1 <= Parsed(b, p, n).values[i] <= 255
    ensures 1 <= Parsed(b, p, n).last <= 255
    ensures n > 0 ==> CanRead(b, p) && (Parsed(b, p, n).isDefault <==> SeValue(CodeNum(b, p)) == -8)
    ensures Parsed(b, p, n).isDefault ==> Parsed(b, p, n).next == 0 && n > 0
  {
    if n > 0 {
      AcceptedScales(b, p, n - 1);
    }
  }

  // ---------- lists survive coding

  function LastScale(v: seq<nat>): nat {
    if v == [] then 8 else v[|v| - 1]
  }

  /** The difference, wrapped into a signed byte, that leads from one scale to the next. */
  function Difference(from: nat, to: nat): (d: int)
    ensures -128 <= d <= 127
  {
    (to - from + 128) % 256 - 128
  }

  function ListBits(v: seq<nat>): seq<bool> {
    if v == [] then [] else
      ListBits(v[..|v| - 1]) + SeBits(Difference(LastScale(v[..|v| - 1]), v[|v| - 1]))
  }

  lemma DifferenceLeads(from: nat, to: nat)
    requires from < 256 && to < 256
    ensures Wrap8(from + Difference(from, to) + 256) == to
  {
  }

  lemma DifferenceRead(b: seq<bool>, p: nat, q: nat, d: int)
    requires -128 <= d <= 127 && Lies(b, p, q, SeBits(d)) && q + 8 < |b|
    ensures CanRead(b, p) && SeValue(CodeNum(b, p)) == d && p + 2 * LeadingZeros(b, p) + 1 == q
  {
    var code := SeCode(d);
    SeInverse(d, 0);
    DecodeUe(b, p, code);
    Log2Bounds(code + 1);
    if Log2(code + 1) > 31 {
      Pow2Monotone(31, Log2(code + 1));
      Pow2Values();
    }
  }

  ghost predicate Scales(v: seq<nat>) {
    forall i | 0 <= i < |v| :: 1 <= v[i] <= 255
  }

  /** What was parsed gives scale to next. */
  lemma AdvanceTo(b: seq<bool>, s: State, to: nat, q: nat)
    requires s.Going? && s.next != 0 && s.last < 256 && to < 256
    requires Lies(b, s.pos, q, SeBits(Difference(s.last, to))) && q + 8 < |b|
    ensures CanRead(b, s.pos) && Advance(b, s) == Push(s, to, s.values == [] && to == 0, q)
  {
    DifferenceRead(b, s.pos, q, Difference(s.last, to));
    DifferenceLeads(s.last, to);
  }

  lemma NextParsed(b: seq<bool>, p: nat, n: nat, s: State, to: nat, q: nat)
    requires Decodable(b, p, n) && Parsed(b, p, n) == s && s.Going? && s.next != 0 && s.last < 256 && to < 256
    requires Lies(b, s.pos, q, SeBits(Difference(s.last, to))) && q + 8 < |b|
    ensures Decodable(b, p, n + 1) && Parsed(b, p, n + 1) == Push(s, to, s.values == [] && to == 0, q)
  {
    AdvanceTo(b, s, to, q);
  }

  lemma LastCode(b: seq<bool>, p: nat, q: nat, before: seq<bool>, d: int) returns (m: nat)
    requires Lies(b, p, q, before + SeBits(d))
    ensures Lies(b, p, m, before) && Lies(b, m, q, SeBits(d))
  {
    m := p + |before|;
    LiesSplit(b, p, q, before, SeBits(d));
  }

  /** Parsing the wrapped differences of a list gives the list back. */
  lemma {:induction false} ListRoundTrip(b: seq<bool>, p: nat, q: nat, v: seq<nat>)
    requires Scales(v) && Lies(b, p, q, ListBits(v)) && q + 8 < |b|
    ensures Decodable(b, p, |v|) && Parsed(b, p, |v|) == Going(LastScale(v), LastScale(v), false, v, q)
  {
    if v != [] {
      var t, x := v[..|v| - 1], v[|v| - 1];
      var m := LastCode(b, p, q, ListBits(t), Difference(LastScale(t), x));
      ListRoundTrip(b, p, m, t);
      NextParsed(b, p, |t|, Going(LastScale(t), LastScale(t), false, t, m), x, q);
      assert t + [x] == v;
    }
  }

  function Repeat(v: seq<nat>, x: nat, n: nat): (r: seq<nat>)
    ensures |r| == |v| + n
  {
    v + seq(n, i => x)
  }

  /** So does the short form that a list with a constant end has: the difference to 0 after
      its first scales, at least one, repeats the last one. */
  lemma {:induction false} ShortRoundTrip(b: seq<bool>, p: nat, q: nat, v: seq<nat>, n: nat)
    requires v != [] && n > 0 && Scales(v) && q + 8 < |b|
    requires Lies(b, p, q, ListBits(v) + SeBits(Difference(LastScale(v), 0)))
    ensures Decodable(b, p, |v| + n)
    ensures Parsed(b, p, |v| + n) == Going(LastScale(v), 0, false, Repeat(v, LastScale(v), n), q)
  {
    if n == 1 {
      var m := LastCode(b, p, q, ListBits(v), Difference(LastScale(v), 0));
      ListRoundTrip(b, p, m, v);
      NextParsed(b, p, |v|, Going(LastScale(v), LastScale(v), false, v, m), 0, q);
    } else {
      ShortRoundTrip(b, p, q, v, n - 1);
    }
    assert Repeat(v, LastScale(v), n) == Repeat(v, LastScale(v), n - 1) + [LastScale(v)];
    assert Repeat(v, LastScale(v), 0) == v;
  }

  // ---------- the parser

  datatype Status = Redefined | Default | Undefined

  /** The scales in the places the scan gives them. */
  ghost predicate Placed(c: array<nat>, scan: seq<nat>, values: seq<nat>)
    requires c.Length == |scan| && IsScan(scan) && |values| <= |scan|
    reads c
  {
    forall i | 0 <= i < |values| :: c[scan[i]] == values[i]
  }

  /** One scale. */
  method NextScale(r: AVCBaseBitstream, last: nat, next: nat, isDefault: bool, j: nat, ghost s: State)
    returns (ok: bool, v: nat, n: nat, d: bool)
    requires s.Going? && r.Valid() && s == Going(last, next, isDefault, s.values, r.Pos()) && |s.values| == j
    requires next != 0 ==> CanRead(r.bits, r.Pos())
    modifies r
    ensures r.Valid()
    ensures ok ==> Advance(r.bits, s) == Going(v, n, d, s.values + [v], r.Pos())
    ensures !ok ==> Advance(r.bits, s).OutOfRange?
  {
    n, d := next, isDefault;
    v := last;
    if next != 0 {
      var delta := r.GetVLCElement(true);
      if delta < -128 || delta > 127 {
        return false, v, n, d;
      }
      n := (last + delta + 256) % 256;
      d := j == 0 && n == 0;
    }
    ok, v := true, if n == 0 then last else n;
  }

  lemma {:induction false} DecodablePrefix(b: seq<bool>, p: nat, n: nat, m: nat)
    requires n <= m && Decodable(b, p, m)
    ensures Decodable(b, p, n)
    ensures Parsed(b, p, n).OutOfRange? ==> Parsed(b, p, m) == Parsed(b, p, n)
  {
    if n < m {
      DecodablePrefix(b, p, n, m - 1);
    }
  }

  lemma ParsedNext(b: seq<bool>, p: nat, j: nat, n: nat, s: State)
    requires j < n && Decodable(b, p, n) && Decodable(b, p, j) && s == Parsed(b, p, j) && s.Going?
    ensures Decodable(b, p, j + 1) && (s.next != 0 ==> CanRead(b, s.pos)) && Parsed(b, p, j + 1) == Advance(b, s)
    ensures Advance(b, s).OutOfRange? ==> Parsed(b, p, n) == Advance(b, s)
  {
    DecodablePrefix(b, p, j + 1, n);
  }

  method PlaceScale(r: AVCBaseBitstream, c: array<nat>, scan: seq<nat>, last: nat, next: nat, isDefault: bool, j: nat,
                    ghost s: State)
    returns (ok: bool, v: nat, n: nat, d: bool, ghost t: State)
    requires c.Length == |scan| && IsScan(scan) && j < |scan|
    requires s.Going? && r.Valid() && s == Going(last, next, isDefault, s.values, r.Pos()) && |s.values| == j
    requires (next != 0 ==> CanRead(r.bits, r.Pos())) && Placed(c, scan, s.values)
    modifies r, c
    ensures r.Valid() && t == Advance(r.bits, s) && ok == t.Going?
    ensures ok ==> t == Going(v, n, d, t.values, r.Pos()) && |t.values| == j + 1 && Placed(c, scan, t.values)
  {
    t := Advance(r.bits, s);
    ok, v, n, d := NextScale(r, last, next, isDefault, j, s);
    if ok {
      c[scan[j]] := v;
    }
  }

  /** The scales in turn. */
  method ReadScales(r: AVCBaseBitstream, c: array<nat>, scan: seq<nat>)
    returns (ok: bool, isDefault: bool, ghost s: State)
    requires c.Length == |scan| && IsScan(scan)
    requires r.Valid() && Decodable(r.bits, r.Pos(), |scan|)
    modifies r, c
    ensures r.Valid()
    ensures s == Parsed(r.bits, old(r.Pos()), |scan|) && ok == s.Going?
    ensures ok ==> isDefault == s.isDefault && r.Pos() == s.pos && Placed(c, scan, s.values)
  {
    ghost var b, p := r.bits, r.Pos();
    var last, next, j := 8, 8, 0;
    isDefault, ok := false, true;
    DecodablePrefix(b, p, 0, |scan|);
    s := Going(8, 8, false, [], p);
    while j < |scan|
      invariant ok && 0 <= j <= |scan| && r.Valid() && Decodable(b, p, j) && s == Parsed(b, p, j)
      invariant s.Going? && s == Going(last, next, isDefault, s.values, r.Pos()) && |s.values| == j
      invariant Placed(c, scan, s.values)
    {
      ParsedNext(b, p, j, |scan|, s);
      ok, last, next, isDefault, s := PlaceScale(r, c, scan, last, next, isDefault, j, s);
      if !ok {
        return;
      }
      j := j + 1;
    }
  }

  /** The lists of both sizes: the scales go to their places in scan order, and a list whose
      first scale is 0 is replaced by the default one. */
  method GetScalingList(r: AVCBaseBitstream, c: array<nat>, scan: seq<nat>, def: seq<nat>) returns (status: Status)
    requires c.Length == |scan| == |def| && IsScan(scan)
    requires r.Valid() && Decodable(r.bits, r.Pos(), |scan|)
    modifies r, c
    ensures r.Valid()
    ensures match Parsed(r.bits, old(r.Pos()), |scan|)
            case OutOfRange(_) => status == Undefined
            case Going(_, _, isDefault, values, pos) =>
              && r.Pos() == pos
              && if isDefault then status == Default && c[..] == def else status == Redefined && Placed(c, scan, values)
  {
    ghost var s;
    var ok, isDefault;
    ok, isDefault, s := ReadScales(r, c, scan);
    if !ok {
      return Undefined;
    }
    if !isDefault {
      return Redefined;
    }
    FillScalingList(c, def);
    status := Default;
  }

  method FillScalingList(c: array<nat>, def: seq<nat>)
    requires c.Length == |def|
    modifies c
    ensures c[..] == def
  {
    for i := 0 to |def|
      invariant c[..i] == def[..i]
    {
      c[i] := def[i];
    }
  }
}
