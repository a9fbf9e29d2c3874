/** Facts about sequence concatenation that several modules use. */
module Seqs {

  lemma ConcatIndex<X>(a: seq<X>, b: seq<X>, k: nat)
    requires k < |a| + |b|
    ensures (a + b)[k] == if k < |a| then a[k] else b[k - |a|]
  {
  }

  lemma ConcatAssociative<X>(a: seq<X>, b: seq<X>, c: seq<X>)
    ensures a + (b + c) == (a + b) + c
  {
  }

  lemma {:induction false} CancelPrefix<X>(p: seq<X>, a: seq<X>, b: seq<X>)
    requires p + a == p + b
    ensures a == b
  {
    assert a == (p + a)[|p|..];
    assert b == (p + b)[|p|..];
  }

  lemma {:induction false} CancelSuffix<X>(a: seq<X>, b: seq<X>, e: seq<X>)
    requires a + e == b + e
    ensures a == b
  {
    assert a == (a + e)[..|a|];
    assert b == (b + e)[..|b|];
  }
}
