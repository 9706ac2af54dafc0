/** Sequence facts used by the task list's permutation proofs. */
module Sequences {
  /** `s.map(f)`. */
  function MapSeq<A, B>(f: A -> B, s: seq<A>): (r: seq<B>)
    ensures |r| == |s|
    ensures forall i :: 0 <= i < |s| ==> r[i] == f(s[i])
  {
    if s == [] then [] else [f(s[0])] + MapSeq(f, s[1..])
  }

  /** Mapping distributes over concatenation. */
  lemma {:induction false} MapSeqConcat<A, B>(f: A -> B, a: seq<A>, b: seq<A>)
    ensures MapSeq(f, a + b) == MapSeq(f, a) + MapSeq(f, b)
  {
    if a == [] {
      assert a + b == b;
    } else {
      assert (a + b)[1..] == a[1..] + b;
      MapSeqConcat(f, a[1..], b);
    }
  }

  /** A permutation of a non-empty `a` holds its head at some `k`; the rest are permutations too. */
  lemma Split<A>(a: seq<A>, b: seq<A>) returns (k: nat)
    requires multiset(a) == multiset(b) && a != []
    ensures k < |b| && b[k] == a[0]
    ensures multiset(a[1..]) == multiset(b[..k] + b[k + 1..])
  {
    var x := a[0];
    assert x in multiset(a);
    assert x in b;
    k :| 0 <= k < |b| && b[k] == x;
    assert a == [x] + a[1..];
    assert b == b[..k] + [x] + b[k + 1..];
    assert multiset(b[..k] + b[k + 1..]) == multiset(b[..k]) + multiset(b[k + 1..]);
    forall y ensures multiset(a[1..])[y] == multiset(b[..k] + b[k + 1..])[y] {
      assert multiset(a)[y] == multiset(b)[y];
    }
  }

  /** Mapping the same function over two permutations of each other gives two permutations. */
  lemma {:induction false} MapSeqPermutation<A, B>(f: A -> B, a: seq<A>, b: seq<A>)
    requires multiset(a) == multiset(b)
    ensures multiset(MapSeq(f, a)) == multiset(MapSeq(f, b))
    decreases |a|
  {
    if a != [] {
      var k := Split(a, b);
      var b1, b2 := b[..k], b[k + 1..];
      MapSeqPermutation(f, a[1..], b1 + b2);
      assert a == [a[0]] + a[1..];
      assert b == b1 + [a[0]] + b2;
      MapSeqConcat(f, [a[0]], a[1..]);
      MapSeqConcat(f, b1 + [a[0]], b2);
      MapSeqConcat(f, b1, [a[0]]);
      MapSeqConcat(f, b1, b2);
    }
  }
}
