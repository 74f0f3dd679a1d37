/** The end of a payload: a one bit and zeros up to a byte boundary, which tell where it ends. */
module Closing {
  import opened BitStrings

  /** The payload, a one bit behind it, and zeros up to the next byte boundary. */
  ghost predicate Closes(payload: seq<bool>, bits: seq<bool>) {
    && |payload| < |bits| <= |payload| + 8 && |bits| % 8 == 0
    && bits[..|payload|] == payload && bits[|payload|]
    && forall i | |payload| < i < |bits| :: !bits[i]
  }

  /** The bits before the last one bit. */
  function Stripped(bits: seq<bool>): seq<bool> {
    if |bits| == 0 then [] else if bits[|bits| - 1] then bits[..|bits| - 1] else Stripped(bits[..|bits| - 1])
  }

  lemma {:induction false} StripEnd(payload: seq<bool>, bits: seq<bool>)
    requires |payload| < |bits| && bits[..|payload|] == payload && bits[|payload|]
    requires forall i | |payload| < i < |bits| :: !bits[i]
    ensures Stripped(bits) == payload
    decreases |bits|
  {
    if |bits| > |payload| + 1 {
      var t := bits[..|bits| - 1];
      assert t[..|payload|] == payload;
      StripEnd(payload, t);
    }
  }

  /** Whatever zeros follow, the payload is what comes before the last one bit. */
  lemma ClosedRecovered(payload: seq<bool>, bits: seq<bool>, n: nat)
    requires Closes(payload, bits)
    ensures Stripped(bits + Zeros(n)) == payload
  {
    assert (bits + Zeros(n))[..|payload|] == payload;
    StripEnd(payload, bits + Zeros(n));
  }

  /** Bits close one payload, and a payload is closed in one way. */
  lemma ClosedOnce(p: seq<bool>, x: seq<bool>, q: seq<bool>, y: seq<bool>)
    requires Closes(p, x) && Closes(q, y)
    ensures x == y <==> p == q
  {
    StripEnd(p, x);
    StripEnd(q, y);
    if p == q {
      assert forall i | 0 <= i < |x| :: x[i] == y[i];
    }
  }
}
