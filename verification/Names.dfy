/** Strings as the C library sees them: strcmp, sorting names with it, and joining them. */
module Names {
  import opened Mapping
  import opened StableSort

  /** A received buffer as a C string: what comes before the first NUL. */
  function CString(bytes: string): (s: string)
    ensures '\0' !in s && s <= bytes
    ensures |s| < |bytes| ==> bytes[|s|] == '\0'
  {
    if bytes == "" || bytes[0] == '\0' then "" else [bytes[0]] + CString(bytes[1..])
  }

  function StrCmp(a: string, b: string): int {
    if a == "" && b == "" then 0
    else if a == "" then -1
    else if b == "" then 1
    else if a[0] != b[0] then (if a[0] < b[0] then -1 else 1)
    else StrCmp(a[1..], b[1..])
  }

  lemma {:induction false} StrCmpOpposed(a: string, b: string)
    ensures Opposed(StrCmp, a, b) && (StrCmp(a, b) == 0 <==> a == b)
  {
    if a != "" && b != "" && a[0] == b[0] {
      StrCmpOpposed(a[1..], b[1..]);
      assert a == [a[0]] + a[1..] && b == [b[0]] + b[1..];
    }
  }

  lemma {:induction false} StrCmpChained(a: string, b: string, c: string)
    ensures Chained(StrCmp, a, b, c)
  {
    if a != "" && b != "" && c != "" && a[0] == b[0] == c[0] {
      StrCmpChained(a[1..], b[1..], c[1..]);
    }
  }

  /** strcmp is a total order: a total preorder that calls only identical strings equal. */
  lemma {:induction false} StrCmpIsTotalOrder()
    ensures TotalPreorder(StrCmp)
    ensures forall a, b :: StrCmp(a, b) == 0 <==> a == b
  {
    forall a, b ensures Opposed(StrCmp, a, b) && (StrCmp(a, b) == 0 <==> a == b) {
      StrCmpOpposed(a, b);
    }
    forall a, b, c ensures Chained(StrCmp, a, b, c) {
      StrCmpChained(a, b, c);
    }
  }

  /** `a` comes before `b` in the dictionary: it is a proper prefix of `b`, or the first character in
      which they differ is smaller in `a`. */
  predicate Before(a: string, b: string) {
    a < b || exists k :: 0 <= k < |a| && k < |b| && a[..k] == b[..k] && a[k] < b[k]
  }

  /** strcmp is the order of the dictionary. */
  lemma {:induction false} StrCmpIsDictionary(a: string, b: string)
    ensures StrCmp(a, b) < 0 <==> Before(a, b)
  {
    if a != "" && b != "" {
      if a[0] == b[0] {
        StrCmpIsDictionary(a[1..], b[1..]);
        BeforeInRest(a, b);
      } else if Before(a, b) {
        DifferAtFirst(a, b);
      } else {
        assert a[..0] == b[..0];
      }
    }
  }

  lemma {:induction false} SameStart(a: string, b: string, k: nat)
    requires k <= |a| && k <= |b| && a[..k] == b[..k]
    ensures k > 0 ==> a[0] == b[0]
  {
    if k > 0 {
      assert a[..k][0] == a[0] && b[..k][0] == b[0];
    }
  }

  lemma {:induction false} DifferAtFirst(a: string, b: string)
    requires a != "" && b != "" && a[0] != b[0] && Before(a, b)
    ensures a[0] < b[0]
  {
    if !(a < b) {
      var k :| 0 <= k < |a| && k < |b| && a[..k] == b[..k] && a[k] < b[k];
      SameStart(a, b, k);
    }
  }

  /** With the same first character the rest decides. */
  lemma {:induction false} BeforeInRest(a: string, b: string)
    requires a != "" && b != "" && a[0] == b[0]
    ensures Before(a, b) <==> Before(a[1..], b[1..])
  {
    var a', b' := a[1..], b[1..];
    assert a == [a[0]] + a' && b == [b[0]] + b';
    if Before(a, b) && !(a < b) {
      var k :| 0 <= k < |a| && k < |b| && a[..k] == b[..k] && a[k] < b[k];
      assert a'[..k - 1] == a[..k][1..] && b'[..k - 1] == b[..k][1..];
      assert a'[k - 1] < b'[k - 1];
    }
    if Before(a', b') && !(a' < b') {
      var k :| 0 <= k < |a'| && k < |b'| && a'[..k] == b'[..k] && a'[k] < b'[k];
      assert a[..k + 1] == [a[0]] + a'[..k] && b[..k + 1] == [b[0]] + b'[..k];
      assert a[k + 1] < b[k + 1];
    }
  }

  function NameItem(name: string): Item<string, ()> {
    Item(name, ())
  }

  function NameOf(item: Item<string, ()>): string {
    item.key
  }

  /** What qsort with strcmp leaves. */
  function SortNames(names: seq<string>): seq<string> {
    Map(NameOf, InsertAll(StrCmp, Map(NameItem, names)))
  }

  function Separated(names: seq<string>): string {
    if names == [] then ""
    else if |names| == 1 then names[0]
    else names[0] + ", " + Separated(names[1..])
  }

  ghost predicate Ascending(names: seq<string>) {
    forall i, j :: 0 <= i < j < |names| ==> StrCmp(names[i], names[j]) <= 0
  }

  lemma {:induction false} RestMultiset(xs: seq<string>)
    requires xs != []
    ensures multiset(xs[1..]) == multiset(xs) - multiset{xs[0]}
  {
    assert xs == [xs[0]] + xs[1..];
  }

  /** The first name of an ascending sequence is not greater than any name in it. */
  lemma {:induction false} FirstLeast(xs: seq<string>, name: string)
    requires Ascending(xs) && name in multiset(xs)
    ensures xs != [] && StrCmp(xs[0], name) <= 0
  {
    var i :| 0 <= i < |xs| && xs[i] == name;
    StrCmpOpposed(name, name);
  }

  /** Two ascending arrangements of the same names begin with the same name. */
  lemma {:induction false} SameFirst(xs: seq<string>, ys: seq<string>)
    requires Ascending(xs) && Ascending(ys) && multiset(xs) == multiset(ys) && xs != []
    ensures ys != [] && xs[0] == ys[0]
  {
    assert xs[0] in multiset(ys);
    FirstLeast(ys, xs[0]);
    assert ys[0] in multiset(xs);
    FirstLeast(xs, ys[0]);
    StrCmpOpposed(xs[0], ys[0]);
    StrCmpOpposed(ys[0], xs[0]);
  }

  lemma {:induction false} RestAscending(xs: seq<string>)
    requires Ascending(xs) && xs != []
    ensures Ascending(xs[1..])
  {
    var rest := xs[1..];
    forall i, j | 0 <= i < j < |rest| ensures StrCmp(rest[i], rest[j]) <= 0 {
      assert rest[i] == xs[i + 1] && rest[j] == xs[j + 1];
    }
  }

  /** There is only one ascending arrangement of given names. */
  lemma {:induction false} AscendingUnique(xs: seq<string>, ys: seq<string>)
    requires Ascending(xs) && Ascending(ys) && multiset(xs) == multiset(ys)
    ensures xs == ys
  {
    if xs == [] {
      assert |multiset(ys)| == 0;
    } else {
      SameFirst(xs, ys);
      RestMultiset(xs);
      RestMultiset(ys);
      RestAscending(xs);
      RestAscending(ys);
      AscendingUnique(xs[1..], ys[1..]);
      assert xs == [xs[0]] + xs[1..] && ys == [ys[0]] + ys[1..];
    }
  }

  /** The sorted names are the names in ascending order, and depend only on which names there are. */
  lemma {:induction false} SortNamesSorts(names: seq<string>)
    ensures Ascending(SortNames(names)) && multiset(SortNames(names)) == multiset(names)
    ensures var sorted := SortNames(names);
      forall i, j :: 0 <= i < j < |sorted| ==> sorted[i] == sorted[j] || Before(sorted[i], sorted[j])
  {
    StrCmpIsTotalOrder();
    var items := Map(NameItem, names);
    InsertAllIsStableSort(StrCmp, items);
    MapMultiset(NameOf, InsertAll(StrCmp, items), items);
    assert Map(NameOf, items) == names;
    var sorted := SortNames(names);
    forall i, j | 0 <= i < j < |sorted| ensures sorted[i] == sorted[j] || Before(sorted[i], sorted[j]) {
      StrCmpIsDictionary(sorted[i], sorted[j]);
    }
  }

  // ---- The list of names --------------------------------------------------------------------

  /** Where name `k` begins in a list in which two characters separate each name from the next. */
  function NameAt(names: seq<string>, k: nat): nat
    requires k <= |names|
  {
    if k == 0 then 0 else NameAt(names, k - 1) + |names[k - 1]| + 2
  }

  lemma {:induction false} SeparatedSplit(names: seq<string>, k: nat)
    requires 0 < k < |names|
    ensures Separated(names) == Separated(names[..k]) + ", " + Separated(names[k..])
  {
    if k > 1 {
      SeparatedSplit(names[1..], k - 1);
      assert names[1..][..k - 1] == names[..k][1..] && names[1..][k - 1..] == names[k..];
      assert Separated(names[..k]) == names[0] + ", " + Separated(names[..k][1..]);
    }
  }

  lemma {:induction false} SeparatedLength(names: seq<string>, k: nat)
    requires 0 < k <= |names|
    ensures |Separated(names[..k])| + 2 == NameAt(names, k)
  {
    if k > 1 {
      SeparatedLength(names, k - 1);
      SeparatedSplit(names[..k], k - 1);
      assert names[..k][..k - 1] == names[..k - 1] && names[..k][k - 1..] == [names[k - 1]];
    }
  }

  lemma {:induction false} PieceAt(front: string, piece: string, back: string)
    ensures (front + piece + back)[|front|..|front| + |piece|] == piece
  {
  }

  /** In the list every name is where it is due, with ", " before the next, and nothing follows the
      last. */
  lemma {:induction false} SeparatedAt(names: seq<string>, k: nat)
    requires k < |names|
    ensures var text, at := Separated(names), NameAt(names, k);
      && at + |names[k]| <= |text| && text[at..at + |names[k]|] == names[k]
      && (k + 1 < |names| ==> NameAt(names, k + 1) <= |text| && text[at + |names[k]|..NameAt(names, k + 1)] == ", ")
      && (k + 1 == |names| ==> at + |names[k]| == |text|)
  {
    var text, at := Separated(names), NameAt(names, k);
    var front := if k == 0 then "" else Separated(names[..k]) + ", ";
    var back := if k + 1 == |names| then "" else ", " + Separated(names[k + 1..]);
    SeparatedAround(names, k);
    PieceAt(front, names[k], back);
    if k > 0 {
      SeparatedLength(names, k);
    }
    if k + 1 < |names| {
      PieceAt(front + names[k], ", ", Separated(names[k + 1..]));
      assert text == (front + names[k]) + ", " + Separated(names[k + 1..]);
    }
  }

  lemma {:induction false} SeparatedAround(names: seq<string>, k: nat)
    requires k < |names|
    ensures Separated(names) == (if k == 0 then "" else Separated(names[..k]) + ", ") + names[k]
                                + (if k + 1 == |names| then "" else ", " + Separated(names[k + 1..]))
  {
    var rest := names[k..];
    if k > 0 {
      SeparatedSplit(names, k);
    } else {
      assert rest == names;
    }
    if |rest| > 1 {
      assert Separated(rest) == names[k] + ", " + Separated(rest[1..]) && rest[1..] == names[k + 1..];
    }
  }

  lemma {:induction false} SortNamesSame(xs: seq<string>, ys: seq<string>)
    requires multiset(xs) == multiset(ys)
    ensures SortNames(xs) == SortNames(ys)
  {
    SortNamesSorts(xs);
    SortNamesSorts(ys);
    AscendingUnique(SortNames(xs), SortNames(ys));
  }
}
