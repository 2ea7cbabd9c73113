/** Applying a function to the elements of a sequence, and its effect on the multiset of elements. */
module Mapping {

  function Elements<X>(s: seq<X>): set<X> {
    set x | x in s
  }

  lemma {:induction false} ElementsNext<X>(s: seq<X>, i: nat)
    requires i < |s|
    ensures Elements(s[..i + 1]) == Elements(s[..i]) + {s[i]}
  {
    assert s[..i + 1] == s[..i] + [s[i]];
  }

  lemma {:induction false} ConcatAssociative<X>(a: seq<X>, b: seq<X>, c: seq<X>)
    ensures a + (b + c) == (a + b) + c
  {
  }

  function Map<X, Y>(f: X -> Y, xs: seq<X>): (ys: seq<Y>)
    ensures |ys| == |xs| && forall i :: 0 <= i < |xs| ==> ys[i] == f(xs[i])
  {
    seq(|xs|, i requires 0 <= i < |xs| => f(xs[i]))
  }

  lemma {:induction false} MapConcat<X, Y>(f: X -> Y, xs: seq<X>, ys: seq<X>)
    ensures Map(f, xs + ys) == Map(f, xs) + Map(f, ys)
  {
  }

  lemma {:induction false} Removed<X>(ys: seq<X>, k: nat)
    requires k < |ys|
    ensures multiset(ys) == multiset(ys[..k] + ys[k + 1..]) + multiset{ys[k]}
  {
    assert ys == ys[..k] + [ys[k]] + ys[k + 1..];
  }

  lemma {:induction false} MapRemoved<X, Y>(f: X -> Y, ys: seq<X>, k: nat)
    requires k < |ys|
    ensures multiset(Map(f, ys)) == multiset(Map(f, ys[..k] + ys[k + 1..])) + multiset{f(ys[k])}
  {
    MapConcat(f, ys[..k], ys[k + 1..]);
    assert Map(f, ys)[..k] == Map(f, ys[..k]) && Map(f, ys)[k + 1..] == Map(f, ys[k + 1..]);
    Removed(Map(f, ys), k);
  }

  lemma {:induction false} RemovedEqual<X>(xs: seq<X>, ys: seq<X>, k: nat)
    requires multiset(xs) == multiset(ys) && xs != [] && k < |ys| && ys[k] == xs[0]
    ensures multiset(xs[1..]) == multiset(ys[..k] + ys[k + 1..])
  {
    Removed(ys, k);
    assert xs == [xs[0]] + xs[1..];
    assert multiset(xs) == multiset(xs[1..]) + multiset{xs[0]};
    assert multiset(xs[1..]) == multiset(xs) - multiset{xs[0]};
    assert multiset(ys[..k] + ys[k + 1..]) == multiset(ys) - multiset{xs[0]};
  }

  lemma {:induction false} MapFirst<X, Y>(f: X -> Y, xs: seq<X>)
    requires xs != []
    ensures multiset(Map(f, xs)) == multiset(Map(f, xs[1..])) + multiset{f(xs[0])}
  {
    assert Map(f, xs) == [f(xs[0])] + Map(f, xs[1..]);
  }

  lemma {:induction false} SomeIndex<X>(xs: seq<X>, ys: seq<X>) returns (k: nat)
    requires multiset(xs) == multiset(ys) && xs != []
    ensures k < |ys| && ys[k] == xs[0]
  {
    assert xs[0] in multiset(ys);
    k :| k < |ys| && ys[k] == xs[0];
  }

  /** Sequences with the same elements are mapped to sequences with the same elements. */
  lemma {:induction false} MapMultiset<X, Y>(f: X -> Y, xs: seq<X>, ys: seq<X>)
    requires multiset(xs) == multiset(ys)
    ensures multiset(Map(f, xs)) == multiset(Map(f, ys))
  {
    if xs == [] {
      assert |multiset(ys)| == 0;
      assert Map(f, xs) == Map(f, ys);
    } else {
      var k := SomeIndex(xs, ys);
      var rest := ys[..k] + ys[k + 1..];
      RemovedEqual(xs, ys, k);
      MapMultiset(f, xs[1..], rest);
      MapFirst(f, xs);
      MapRemoved(f, ys, k);
    }
  }
}
