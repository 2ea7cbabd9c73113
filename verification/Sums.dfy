/** Sums of an integer measure over the elements of a sequence.  The interleaving models count
    threads, pending signals and remaining work with them. */
module Sums {

  function Sum<T>(f: T -> int, ts: seq<T>): int {
    if ts == [] then 0 else f(ts[0]) + Sum(f, ts[1..])
  }

  /** Replacing one element changes the sum by the difference of the two terms. */
  lemma {:induction false} SumUpdate<T>(f: T -> int, ts: seq<T>, i: nat, x: T)
    requires i < |ts|
    ensures Sum(f, ts[i := x]) == Sum(f, ts) - f(ts[i]) + f(x)
  {
    if i == 0 {
      assert ts[0 := x][1..] == ts[1..];
    } else {
      SumUpdate(f, ts[1..], i - 1, x);
      assert ts[i := x][1..] == ts[1..][i - 1 := x];
    }
  }

  lemma {:induction false} SumNonNegative<T>(f: T -> int, ts: seq<T>)
    requires forall i :: 0 <= i < |ts| ==> 0 <= f(ts[i])
    ensures 0 <= Sum(f, ts)
  {
    if ts != [] {
      SumNonNegative(f, ts[1..]);
    }
  }

  lemma {:induction false} SumZero<T>(f: T -> int, ts: seq<T>)
    requires forall i :: 0 <= i < |ts| ==> f(ts[i]) == 0
    ensures Sum(f, ts) == 0
  {
    if ts != [] {
      SumZero(f, ts[1..]);
    }
  }

  /** A sum of terms that are pairwise at most those of `g` is at most the sum of `g`, and
      strictly less when one term is. */
  lemma {:induction false} SumLessOrEqual<T>(f: T -> int, g: T -> int, ts: seq<T>)
    requires forall i :: 0 <= i < |ts| ==> f(ts[i]) <= g(ts[i])
    ensures Sum(f, ts) <= Sum(g, ts)
    ensures Sum(f, ts) == Sum(g, ts) ==> forall i :: 0 <= i < |ts| ==> f(ts[i]) == g(ts[i])
  {
    if ts != [] {
      SumLessOrEqual(f, g, ts[1..]);
      if Sum(f, ts) == Sum(g, ts) {
        forall i | 0 <= i < |ts| ensures f(ts[i]) == g(ts[i]) {
          if i > 0 {
            assert ts[i] == ts[1..][i - 1];
          }
        }
      }
    }
  }

  lemma {:induction false} SumSame<T, U>(f: T -> int, g: U -> int, ts: seq<T>, us: seq<U>)
    requires |ts| == |us|
    requires forall i :: 0 <= i < |ts| ==> f(ts[i]) == g(us[i])
    ensures Sum(f, ts) == Sum(g, us)
  {
    if ts != [] {
      assert forall i :: 0 <= i < |ts| - 1 ==> ts[1..][i] == ts[i + 1] && us[1..][i] == us[i + 1];
      SumSame(f, g, ts[1..], us[1..]);
    }
  }

  lemma {:induction false} SumAppend<T>(f: T -> int, ts: seq<T>, us: seq<T>)
    ensures Sum(f, ts + us) == Sum(f, ts) + Sum(f, us)
  {
    if ts == [] {
      assert ts + us == us;
    } else {
      assert (ts + us)[1..] == ts[1..] + us;
      SumAppend(f, ts[1..], us);
    }
  }
}
