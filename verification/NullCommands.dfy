/** Queues with null commands in them: what a thread that ends at the first one leaves behind. */
module NullCommands {

  /** The rest of the queue behind the first null command, nothing if there is none. */
  function Behind<T(==)>(q: seq<T>, nul: T): seq<T> {
    if |q| == 0 then [] else if q[0] == nul then q[1..] else Behind(q[1..], nul)
  }

  lemma {:induction false} BehindSnoc<T>(q: seq<T>, nul: T, t: T)
    ensures Behind(q + [t], nul) == if nul in q then Behind(q, nul) + [t] else []
  {
    if |q| == 0 {
      assert (q + [t])[1..] == [];
      assert Behind([], nul) == [];
    } else {
      assert q == [q[0]] + q[1..];
      assert (q + [t])[1..] == q[1..] + [t];
      BehindSnoc(q[1..], nul, t);
    }
  }

  lemma {:induction false} BehindNone<T>(q: seq<T>, nul: T)
    requires nul !in q
    ensures |Behind(q, nul)| == 0
  {
    if |q| > 0 {
      assert q[0] in q && forall t | t in q[1..] :: t in q;
      BehindNone(q[1..], nul);
    }
  }

  lemma FirstPopped<T>(q: seq<T>, nul: T)
    requires nul in q && q[0] != nul
    ensures nul in q[1..]
  {
    assert q == [q[0]] + q[1..];
  }
}
