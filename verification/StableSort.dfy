/** Insertion in order as a function on sequences, and what repeated insertion amounts to: the
    stable sort, of which there is only one. */
module StableSort {
  import opened Mapping

  /** A value to be ordered by its key, and what tells it apart from others with that key. */
  datatype Item<K, I> = Item(key: K, id: I)

  /** A C comparator on keys. */
  type Comparator<!K> = (K, K) -> int

  predicate Opposed<K>(cmp: Comparator<K>, x: K, y: K) {
    cmp(x, y) < 0 <==> cmp(y, x) > 0
  }

  predicate Chained<K>(cmp: Comparator<K>, x: K, y: K, z: K) {
    cmp(x, y) <= 0 && cmp(y, z) <= 0 ==> cmp(x, z) <= 0
  }

  ghost predicate TotalPreorder<K(!new)>(cmp: Comparator<K>) {
    && (forall x, y :: Opposed(cmp, x, y))
    && (forall x, y, z :: Chained(cmp, x, y, z))
  }

  /** The number of leading items that the search passes: those not greater than `key`. */
  function Position<K, I>(cmp: Comparator<K>, xs: seq<Item<K, I>>, key: K): (p: nat)
    ensures p <= |xs|
    ensures forall i :: 0 <= i < p ==> cmp(xs[i].key, key) <= 0
    ensures p < |xs| ==> cmp(xs[p].key, key) > 0
  {
    if xs == [] || cmp(xs[0].key, key) > 0 then 0 else 1 + Position(cmp, xs[1..], key)
  }

  function Insert<K, I>(cmp: Comparator<K>, xs: seq<Item<K, I>>, x: Item<K, I>): seq<Item<K, I>> {
    var p := Position(cmp, xs, x.key);
    xs[..p] + [x] + xs[p..]
  }

  /** The items of `xs` inserted one after the other into an empty sequence. */
  function InsertAll<K, I>(cmp: Comparator<K>, xs: seq<Item<K, I>>): seq<Item<K, I>> {
    if xs == [] then [] else Insert(cmp, InsertAll(cmp, xs[..|xs| - 1]), xs[|xs| - 1])
  }

  ghost predicate Sorted<K, I>(cmp: Comparator<K>, xs: seq<Item<K, I>>) {
    forall i, j :: 0 <= i < j < |xs| ==> cmp(xs[i].key, xs[j].key) <= 0
  }

  function IfInClass<K, I>(cmp: Comparator<K>, x: Item<K, I>, key: K): seq<Item<K, I>> {
    if cmp(x.key, key) == 0 then [x] else []
  }

  /** The items whose key is equivalent to `key`, in their order. */
  function Class<K, I>(cmp: Comparator<K>, xs: seq<Item<K, I>>, key: K): seq<Item<K, I>> {
    if xs == [] then []
    else IfInClass(cmp, xs[0], key) + Class(cmp, xs[1..], key)
  }

  /** `ys` is `xs` in ascending order, and items with equivalent keys keep their order. */
  ghost predicate IsStableSort<K(!new), I>(cmp: Comparator<K>, ys: seq<Item<K, I>>, xs: seq<Item<K, I>>) {
    && Sorted(cmp, ys)
    && forall key :: Class(cmp, ys, key) == Class(cmp, xs, key)
  }

  // ---- Repeated insertion sorts -------------------------------------------------------------

  lemma {:induction false} InsertAt<K, I>(cmp: Comparator<K>, xs: seq<Item<K, I>>, x: Item<K, I>, i: nat)
    requires i <= |xs|
    ensures |Insert(cmp, xs, x)| == |xs| + 1
    ensures var p := Position(cmp, xs, x.key);
      Insert(cmp, xs, x)[i] == if i < p then xs[i] else if i == p then x else xs[i - 1]
  {
  }

  /** Everything behind the insertion point is greater. */
  lemma {:induction false} GreaterBehind<K(!new), I>(cmp: Comparator<K>, xs: seq<Item<K, I>>, key: K, i: nat)
    requires TotalPreorder(cmp) && Sorted(cmp, xs) && Position(cmp, xs, key) <= i < |xs|
    ensures cmp(xs[i].key, key) > 0
  {
    var p := Position(cmp, xs, key);
    if p < i {
      assert Chained(cmp, xs[p].key, xs[i].key, key);
    }
  }

  lemma {:induction false} InsertSorted<K(!new), I>(cmp: Comparator<K>, xs: seq<Item<K, I>>, x: Item<K, I>)
    requires TotalPreorder(cmp) && Sorted(cmp, xs)
    ensures Sorted(cmp, Insert(cmp, xs, x))
  {
    var p, ys := Position(cmp, xs, x.key), Insert(cmp, xs, x);
    forall i, j | 0 <= i < j < |ys| ensures cmp(ys[i].key, ys[j].key) <= 0 {
      InsertAt(cmp, xs, x, i);
      InsertAt(cmp, xs, x, j);
      if i == p {
        GreaterBehind(cmp, xs, x.key, j - 1);
        assert Opposed(cmp, x.key, ys[j].key);
      }
    }
  }

  lemma {:induction false} ClassConcat<K, I>(cmp: Comparator<K>, xs: seq<Item<K, I>>, ys: seq<Item<K, I>>, key: K)
    ensures Class(cmp, xs + ys, key) == Class(cmp, xs, key) + Class(cmp, ys, key)
  {
    if xs == [] {
      assert xs + ys == ys;
    } else {
      assert (xs + ys)[0] == xs[0] && (xs + ys)[1..] == xs[1..] + ys;
      ClassConcat(cmp, xs[1..], ys, key);
      ConcatAssociative(IfInClass(cmp, xs[0], key), Class(cmp, xs[1..], key), Class(cmp, ys, key));
    }
  }

  lemma {:induction false} ClassEmpty<K, I>(cmp: Comparator<K>, xs: seq<Item<K, I>>, key: K)
    requires forall i :: 0 <= i < |xs| ==> cmp(xs[i].key, key) != 0
    ensures Class(cmp, xs, key) == []
  {
    if xs != [] {
      ClassEmpty(cmp, xs[1..], key);
    }
  }

  lemma {:induction false} NoneBehind<K(!new), I>(cmp: Comparator<K>, xs: seq<Item<K, I>>, x: K, key: K)
    requires TotalPreorder(cmp) && Sorted(cmp, xs) && cmp(x, key) == 0
    ensures Class(cmp, xs[Position(cmp, xs, x)..], key) == []
  {
    var p := Position(cmp, xs, x);
    var rest := xs[p..];
    forall i | 0 <= i < |rest| ensures cmp(rest[i].key, key) != 0 {
      GreaterBehind(cmp, xs, x, p + i);
      assert Opposed(cmp, x, key) && Chained(cmp, rest[i].key, key, x);
    }
    ClassEmpty(cmp, rest, key);
  }

  /** An insertion puts the item behind all items with an equivalent key. */
  lemma {:induction false} InsertClass<K(!new), I>(cmp: Comparator<K>, xs: seq<Item<K, I>>, x: Item<K, I>, key: K)
    requires TotalPreorder(cmp) && Sorted(cmp, xs)
    ensures Class(cmp, Insert(cmp, xs, x), key) == Class(cmp, xs, key) + Class(cmp, [x], key)
  {
    var p := Position(cmp, xs, x.key);
    if cmp(x.key, key) == 0 {
      NoneBehind(cmp, xs, x.key, key);
    } else {
      assert Class(cmp, [x], key) == [];
    }
    ClassOfParts(cmp, xs, x, p, key);
  }

  lemma {:induction false} ClassOfParts<K, I>(cmp: Comparator<K>, xs: seq<Item<K, I>>, x: Item<K, I>, p: nat, key: K)
    requires p <= |xs|
    ensures Class(cmp, xs[..p] + [x] + xs[p..], key)
         == Class(cmp, xs[..p], key) + Class(cmp, [x], key) + Class(cmp, xs[p..], key)
    ensures Class(cmp, xs, key) == Class(cmp, xs[..p], key) + Class(cmp, xs[p..], key)
  {
    ClassConcat(cmp, xs[..p] + [x], xs[p..], key);
    ClassConcat(cmp, xs[..p], [x], key);
    ClassConcat(cmp, xs[..p], xs[p..], key);
    assert xs == xs[..p] + xs[p..];
  }

  lemma {:induction false} InsertMultiset<K, I>(cmp: Comparator<K>, xs: seq<Item<K, I>>, x: Item<K, I>)
    ensures multiset(Insert(cmp, xs, x)) == multiset(xs) + multiset{x}
  {
    var p := Position(cmp, xs, x.key);
    assert xs == xs[..p] + xs[p..];
  }

  /** Inserting one more item into the stable sort of what has come before gives the stable sort
      of everything up to that item. */
  lemma {:induction false} InsertKeepsStableSort<K(!new), I>(cmp: Comparator<K>, ys: seq<Item<K, I>>,
                                                                 xs: seq<Item<K, I>>, x: Item<K, I>)
    requires TotalPreorder(cmp) && IsStableSort(cmp, ys, xs)
    ensures IsStableSort(cmp, Insert(cmp, ys, x), xs + [x])
  {
    InsertSorted(cmp, ys, x);
    forall key ensures Class(cmp, Insert(cmp, ys, x), key) == Class(cmp, xs + [x], key) {
      InsertClass(cmp, ys, x, key);
      ClassConcat(cmp, xs, [x], key);
    }
  }

  /** Insertion one by one computes the stable sort. */
  lemma {:induction false} InsertAllIsStableSort<K(!new), I>(cmp: Comparator<K>, xs: seq<Item<K, I>>)
    requires TotalPreorder(cmp)
    ensures IsStableSort(cmp, InsertAll(cmp, xs), xs)
    ensures multiset(InsertAll(cmp, xs)) == multiset(xs)
  {
    if xs != [] {
      var front, x := xs[..|xs| - 1], xs[|xs| - 1];
      assert xs == front + [x];
      InsertAllIsStableSort(cmp, front);
      InsertKeepsStableSort(cmp, InsertAll(cmp, front), front, x);
      InsertMultiset(cmp, InsertAll(cmp, front), x);
    }
  }

  lemma {:induction false} ClassMember<K, I>(cmp: Comparator<K>, xs: seq<Item<K, I>>, key: K)
    ensures Class(cmp, xs, key) != [] ==>
              exists i :: 0 <= i < |xs| && cmp(xs[i].key, key) == 0 && Class(cmp, xs, key)[0] == xs[i]
  {
    if xs != [] && cmp(xs[0].key, key) != 0 {
      ClassMember(cmp, xs[1..], key);
      if Class(cmp, xs[1..], key) != [] {
        var i :| 0 <= i < |xs| - 1 && cmp(xs[1..][i].key, key) == 0 && Class(cmp, xs[1..], key)[0] == xs[1..][i];
        assert xs[i + 1] == xs[1..][i];
      }
    }
  }

  /** The first item of a sorted sequence is not greater than a key whose class is not empty. */
  lemma {:induction false} HeadLeast<K(!new), I>(cmp: Comparator<K>, xs: seq<Item<K, I>>, key: K)
    requires TotalPreorder(cmp) && Sorted(cmp, xs) && Class(cmp, xs, key) != []
    ensures xs != [] && cmp(xs[0].key, key) <= 0
  {
    ClassMember(cmp, xs, key);
    var i :| 0 <= i < |xs| && cmp(xs[i].key, key) == 0;
    if i > 0 {
      assert Chained(cmp, xs[0].key, xs[i].key, key);
    }
  }

  /** There is only one stable sort: two sorted sequences with the same classes are the same. */
  lemma {:induction false} StableSortUnique<K(!new), I>(cmp: Comparator<K>, ys: seq<Item<K, I>>, zs: seq<Item<K, I>>)
    requires TotalPreorder(cmp) && Sorted(cmp, ys) && Sorted(cmp, zs)
    requires forall key :: Class(cmp, ys, key) == Class(cmp, zs, key)
    ensures ys == zs
  {
    if ys != [] {
      assert Opposed(cmp, ys[0].key, ys[0].key);
      HeadLeast(cmp, zs, ys[0].key);
    }
    if zs != [] {
      assert Opposed(cmp, zs[0].key, zs[0].key);
      HeadLeast(cmp, ys, zs[0].key);
      assert Opposed(cmp, ys[0].key, zs[0].key) && Opposed(cmp, zs[0].key, ys[0].key);
      assert Class(cmp, ys, ys[0].key)[0] == ys[0];
      assert Class(cmp, zs, ys[0].key)[0] == zs[0];
      forall key ensures Class(cmp, ys[1..], key) == Class(cmp, zs[1..], key) {
        assert Class(cmp, ys, key) == Class(cmp, zs, key);
        if cmp(ys[0].key, key) == 0 {
          assert Class(cmp, ys[1..], key) == Class(cmp, ys, key)[1..];
          assert Class(cmp, zs[1..], key) == Class(cmp, zs, key)[1..];
        } else {
          assert Class(cmp, ys[1..], key) == Class(cmp, ys, key);
          assert Class(cmp, zs[1..], key) == Class(cmp, zs, key);
        }
      }
      StableSortUnique(cmp, ys[1..], zs[1..]);
      assert ys == [ys[0]] + ys[1..] && zs == [zs[0]] + zs[1..];
    }
  }

  /** Being the stable sort of `xs` is being what inserting `xs` item by item produces. */
  lemma {:induction false} StableSortExactly<K(!new), I>(cmp: Comparator<K>, ys: seq<Item<K, I>>, xs: seq<Item<K, I>>)
    requires TotalPreorder(cmp)
    ensures IsStableSort(cmp, ys, xs) <==> ys == InsertAll(cmp, xs)
  {
    InsertAllIsStableSort(cmp, xs);
    if IsStableSort(cmp, ys, xs) {
      StableSortUnique(cmp, ys, InsertAll(cmp, xs));
    }
  }
}
