/** Lists that hold the same elements. */
module Multisets {
  /** The first element of one is somewhere in the other, and the rest of both hold the same elements. */
  lemma TakeOut<T>(x: T, rest: seq<T>, b: seq<T>) returns (front: seq<T>, back: seq<T>)
    requires multiset([x] + rest) == multiset(b)
    ensures b == front + [x] + back && multiset(rest) == multiset(front + back)
  {
    assert x in multiset(b);
    var i: nat :| i < |b| && b[i] == x;
    front, back := b[..i], b[i + 1..];
    assert b == front + [x] + back;
    assert multiset(front + back) == multiset(b) - multiset{x};
    assert multiset(rest) == multiset([x] + rest) - multiset{x};
  }
}
