/** Facts about concatenation and slicing of sequences, stated once for any
    element type so that proofs about strings can use them without the
    verifier unfolding string literals. */
module SeqFacts {

  lemma EmptyLeft<T>(a: seq<T>, p: seq<T>)
    requires |a| == 0
    ensures a + p == p
  {
  }

  lemma DropPrefix<T>(p: seq<T>, q: seq<T>)
    ensures (p + q)[|p|..] == q
    ensures (p + q)[..|p|] == p
  {
  }

  /** Taking the first element off a three-part concatenation. */
  lemma Cons3<T>(s: seq<T>, q: seq<T>, r: seq<T>)
    requires |s| > 0
    ensures s + q + r == [s[0]] + (s[1..] + q + r)
    ensures (s + q + r)[0] == s[0]
    ensures (s + q + r)[1..] == s[1..] + q + r
  {
    assert s == [s[0]] + s[1..];
  }

  lemma ConsAssoc<T>(x: T, p: seq<T>, q: seq<T>)
    ensures [x] + (p + q) == ([x] + p) + q
  {
  }

  /** Equal concatenations with equally long tails have equal heads and tails. */
  lemma TailCancel<T>(x1: seq<T>, u1: seq<T>, x2: seq<T>, u2: seq<T>)
    requires x1 + u1 == x2 + u2 && |u1| == |u2|
    ensures x1 == x2 && u1 == u2
  {
    assert x1 == (x1 + u1)[..|x1|];
    assert x2 == (x2 + u2)[..|x2|];
    assert u1 == (x1 + u1)[|x1|..];
    assert u2 == (x2 + u2)[|x2|..];
  }

  lemma HeadCancel<T>(p: seq<T>, x: seq<T>, y: seq<T>)
    requires p + x == p + y
    ensures x == y
  {
    assert x == (p + x)[|p|..];
    assert y == (p + y)[|p|..];
  }

  lemma LastOf<T>(x: seq<T>, t: seq<T>)
    requires |t| > 0
    ensures (x + t)[|x + t| - 1] == t[|t| - 1]
  {
  }

  /** Concatenations that differ at one place of their middle parts differ. */
  lemma MiddleDiffers<T>(p: seq<T>, x: seq<T>, y: seq<T>, q: seq<T>, i: nat)
    requires |x| == |y| && i < |x| && x[i] != y[i]
    ensures p + x + q != p + y + q
  {
    assert (p + x + q)[|p| + i] == x[i];
    assert (p + y + q)[|p| + i] == y[i];
  }

  /** The second of four concatenated pieces sits right after the first. */
  lemma MiddleSlice<T>(a: seq<T>, b: seq<T>, c: seq<T>, d: seq<T>)
    ensures |a| + |b| <= |a + b + c + d|
    ensures (a + b + c + d)[|a|..|a| + |b|] == b
  {
    assert (a + b + c + d)[|a|..|a| + |b|] == (a + b)[|a|..];
  }
}
