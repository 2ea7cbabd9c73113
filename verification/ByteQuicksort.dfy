/** The generic quicksort of 392/Quciksort/quicksort.c: it sorts a buffer of raw bytes in place,
    seeing it as elements of any size that only the caller's comparator understands. */
module ByteQuicksort {

  newtype byte = x: int | 0 <= x < 256

  type Elem = seq<byte>

  /** A C comparator: negative, zero or positive. */
  type Comparator = (Elem, Elem) -> int

  const INT_MAX: nat := 0x7FFF_FFFF

  // ---- The buffer as a sequence of elements -------------------------------------------------

  /** The offset of element `k`, that is `k * sz`. */
  function Offset(k: nat, sz: nat): nat {
    if k == 0 then 0 else Offset(k - 1, sz) + sz
  }

  lemma {:induction false} OffsetIsProduct(k: nat, sz: nat)
    ensures Offset(k, sz) == k * sz
  {
    if k > 0 {
      OffsetIsProduct(k - 1, sz);
      assert (k - 1) * sz + sz == k * sz;
    }
  }

  /** An element begins where an earlier one has ended. */
  lemma {:induction false} OffsetOrder(i: nat, j: nat, sz: nat)
    requires i < j
    ensures Offset(i, sz) + sz <= Offset(j, sz)
    decreases j
  {
    if i < j - 1 {
      OffsetOrder(i, j - 1, sz);
    }
  }

  function ElemAt(bytes: seq<byte>, k: nat, sz: nat): (e: Elem)
    requires Offset(k, sz) + sz <= |bytes|
    ensures |e| == sz
  {
    bytes[Offset(k, sz)..Offset(k, sz) + sz]
  }

  /** The first `n` elements of the buffer. */
  function Elems(bytes: seq<byte>, n: nat, sz: nat): (es: seq<Elem>)
    requires Offset(n, sz) <= |bytes|
    ensures |es| == n && forall k :: 0 <= k < n ==> |es[k]| == sz
  {
    if n == 0 then [] else Elems(bytes, n - 1, sz) + [ElemAt(bytes, n - 1, sz)]
  }

  lemma {:induction false} ElemsAt(bytes: seq<byte>, n: nat, sz: nat, k: nat)
    requires Offset(n, sz) <= |bytes| && k < n
    ensures Offset(k, sz) + sz <= Offset(n, sz)
    ensures Elems(bytes, n, sz)[k] == ElemAt(bytes, k, sz)
  {
    OffsetOrder(k, n, sz);
    if k < n - 1 {
      ElemsAt(bytes, n - 1, sz, k);
    }
  }

  /** The elements are the consecutive blocks of the buffer. */
  lemma {:induction false} ElemsAreBlocks(bytes: seq<byte>, n: nat, sz: nat, k: nat)
    requires n * sz <= |bytes| && k < n
    ensures Offset(n, sz) <= |bytes| && k * sz + sz <= |bytes|
    ensures Elems(bytes, n, sz)[k] == bytes[k * sz..k * sz + sz]
  {
    OffsetIsProduct(n, sz);
    OffsetIsProduct(k, sz);
    ElemsAt(bytes, n, sz, k);
  }

  // ---- Swapping two elements byte by byte ---------------------------------------------------

  predicate Apart(x: nat, y: nat, size: nat) {
    x == y || x + size <= y || y + size <= x
  }

  /** Where the byte at `k` comes from when the `size` bytes at `a` and at `b` are exchanged. */
  function Source(k: int, a: nat, b: nat, size: nat): int {
    if a <= k < a + size then k - a + b
    else if b <= k < b + size then k - b + a
    else k
  }

  /** `bytes` is `orig` with the `size` bytes at `a` and at `b` exchanged. */
  predicate Exchanged(bytes: seq<byte>, orig: seq<byte>, a: nat, b: nat, size: nat)
    requires a + size <= |orig| && b + size <= |orig|
  {
    && |bytes| == |orig|
    && forall k {:trigger bytes[k]} :: 0 <= k < |bytes| ==> bytes[k] == orig[Source(k, a, b, size)]
  }

  lemma {:induction false} ExchangeOneMore(before: seq<byte>, orig: seq<byte>, a: nat, b: nat, m: nat, size: nat)
    requires m < size && a + size <= |orig| && b + size <= |orig| && Apart(a, b, size)
    requires Exchanged(before, orig, a, b, m)
    ensures Exchanged(before[a + m := before[b + m]][b + m := before[a + m]], orig, a, b, m + 1)
  {
    assert before[a + m] == orig[a + m] && before[b + m] == orig[b + m];
  }

  /** Lines 84 to 86. */
  method SwapBytes(buf: array<byte>, x: nat, y: nat)
    requires x < buf.Length && y < buf.Length
    modifies buf
    ensures buf[..] == old(buf[..])[x := old(buf[y])][y := old(buf[x])]
  {
    var temporary := buf[x];
    buf[x] := buf[y];
    buf[y] := temporary;
  }

  /** Lines 78 to 90: exchanges two blocks that are disjoint or the same. */
  method Swap(buf: array<byte>, a: nat, b: nat, size: nat)
    requires a + size <= buf.Length && b + size <= buf.Length && Apart(a, b, size)
    modifies buf
    ensures Exchanged(buf[..], old(buf[..]), a, b, size)
  {
    ghost var orig := buf[..];
    var x, y, w := a, b, size;
    while w != 0
      invariant 0 <= w <= size && x == a + (size - w) && y == b + (size - w)
      invariant Exchanged(buf[..], orig, a, b, size - w)
    {
      w := w - 1;
      ExchangeOneMore(buf[..], orig, a, b, x - a, size);
      SwapBytes(buf, x, y);
      x := x + 1;
      y := y + 1;
    }
  }

  /** Which old block is found in a block that is one of the two or apart from both. */
  lemma {:induction false} BlockExchanged(bytes: seq<byte>, orig: seq<byte>, x: nat, y: nat, z: nat, size: nat)
    requires x + size <= |orig| && y + size <= |orig| && z + size <= |orig|
    requires Apart(x, y, size) && Apart(z, x, size) && Apart(z, y, size)
    requires Exchanged(bytes, orig, x, y, size)
    ensures bytes[z..z + size] == (if z == x then orig[y..y + size]
                                   else if z == y then orig[x..x + size]
                                   else orig[z..z + size])
  {
    var block := bytes[z..z + size];
    assert forall m :: 0 <= m < size ==> block[m] == bytes[z + m];
  }

  lemma {:induction false} ElemsApart(i: nat, j: nat, sz: nat)
    ensures Apart(Offset(i, sz), Offset(j, sz), sz)
    ensures sz > 0 && i != j ==> Offset(i, sz) != Offset(j, sz)
  {
    if i < j {
      OffsetOrder(i, j, sz);
    } else if j < i {
      OffsetOrder(j, i, sz);
    }
  }

  /** The element sequence `es` with the elements at `i` and `j` exchanged. */
  function SwapElems(es: seq<Elem>, i: nat, j: nat): (r: seq<Elem>)
    requires i < |es| && j < |es|
    ensures |r| == |es| && multiset(r) == multiset(es)
  {
    es[i := es[j]][j := es[i]]
  }

  lemma {:induction false} ElemExchanged(bytes: seq<byte>, orig: seq<byte>, i: nat, j: nat, k: nat, sz: nat)
    requires sz > 0 && Offset(i, sz) + sz <= |orig| && Offset(j, sz) + sz <= |orig| && Offset(k, sz) + sz <= |orig|
    requires Exchanged(bytes, orig, Offset(i, sz), Offset(j, sz), sz)
    ensures ElemAt(bytes, k, sz) == ElemAt(orig, if k == i then j else if k == j then i else k, sz)
  {
    var x, y, z := Offset(i, sz), Offset(j, sz), Offset(k, sz);
    assert Apart(x, y, sz) && Apart(z, x, sz) && Apart(z, y, sz) && (k != i ==> z != x) && (k != j ==> z != y) by {
      ElemsApart(i, j, sz);
      ElemsApart(k, i, sz);
      ElemsApart(k, j, sz);
    }
    assert bytes[z..z + sz] == (if k == i then orig[y..y + sz]
                                else if k == j then orig[x..x + sz]
                                else orig[z..z + sz]) by {
      BlockExchanged(bytes, orig, x, y, z, sz);
    }
  }

  lemma {:induction false} SwapRefinesAt(bytes: seq<byte>, orig: seq<byte>, i: nat, j: nat, k: nat, n: nat, sz: nat)
    requires sz > 0 && i < n && j < n && k < n && Offset(n, sz) <= |orig|
    requires Offset(i, sz) + sz <= Offset(n, sz) && Offset(j, sz) + sz <= Offset(n, sz)
    requires Exchanged(bytes, orig, Offset(i, sz), Offset(j, sz), sz)
    ensures Elems(bytes, n, sz)[k] == Elems(orig, n, sz)[if k == i then j else if k == j then i else k]
  {
    ElemsAt(bytes, n, sz, k);
    ElemsAt(orig, n, sz, if k == i then j else if k == j then i else k);
    ElemExchanged(bytes, orig, i, j, k, sz);
  }

  lemma {:induction false} RestUnchanged(bytes: seq<byte>, orig: seq<byte>, x: nat, y: nat, size: nat, end: nat)
    requires x + size <= end <= |orig| && y + size <= end && Exchanged(bytes, orig, x, y, size)
    ensures bytes[end..] == orig[end..]
  {
  }

  /** Exchanging the bytes of two elements exchanges the two elements and nothing else. */
  lemma {:induction false} SwapRefines(bytes: seq<byte>, orig: seq<byte>, i: nat, j: nat, n: nat, sz: nat)
    requires sz > 0 && i < n && j < n && Offset(n, sz) <= |orig|
    requires Offset(i, sz) + sz <= Offset(n, sz) && Offset(j, sz) + sz <= Offset(n, sz)
    requires Exchanged(bytes, orig, Offset(i, sz), Offset(j, sz), sz)
    ensures Elems(bytes, n, sz) == SwapElems(Elems(orig, n, sz), i, j)
    ensures bytes[Offset(n, sz)..] == orig[Offset(n, sz)..]
  {
    var es, os := Elems(bytes, n, sz), Elems(orig, n, sz);
    forall k | 0 <= k < n ensures es[k] == os[if k == i then j else if k == j then i else k] {
      SwapRefinesAt(bytes, orig, i, j, k, n, sz);
    }
    assert es == SwapElems(os, i, j);
    RestUnchanged(bytes, orig, Offset(i, sz), Offset(j, sz), sz, Offset(n, sz));
  }

  /** The calls of `swap` on elements `i` and `j`. */
  method SwapElements(buf: array<byte>, n: nat, i: nat, j: nat, sz: nat)
    requires sz > 0 && i < n && j < n && Offset(n, sz) <= buf.Length
    modifies buf
    ensures Elems(buf[..], n, sz) == SwapElems(old(Elems(buf[..], n, sz)), i, j)
    ensures buf[Offset(n, sz)..] == old(buf[Offset(n, sz)..])
  {
    OffsetIsProduct(i, sz);
    OffsetIsProduct(j, sz);
    OffsetOrder(i, n, sz);
    OffsetOrder(j, n, sz);
    ElemsApart(i, j, sz);
    ghost var orig := buf[..];
    Swap(buf, i * sz, j * sz, sz);
    SwapRefines(buf[..], orig, i, j, n, sz);
    assert buf[Offset(n, sz)..] == buf[..][Offset(n, sz)..];
    assert orig[Offset(n, sz)..] == old(buf[Offset(n, sz)..]);
  }

  /** `comp` applied to the bytes of elements `i` and `j`. */
  method Compare(buf: array<byte>, n: nat, i: nat, j: nat, sz: nat, comp: Comparator) returns (c: int)
    requires i < n && j < n && Offset(n, sz) <= buf.Length
    ensures c == comp(Elems(buf[..], n, sz)[i], Elems(buf[..], n, sz)[j])
  {
    OffsetIsProduct(i, sz);
    OffsetIsProduct(j, sz);
    ElemsAt(buf[..], n, sz, i);
    ElemsAt(buf[..], n, sz, j);
    c := comp(buf[i * sz..i * sz + sz], buf[j * sz..j * sz + sz]);
  }

  // ---- Partition ----------------------------------------------------------------------------

  /** `es` is `os` with the elements of [left, right] permuted. */
  ghost predicate PermutedWithin(es: seq<Elem>, os: seq<Elem>, left: int, right: int) {
    && |es| == |os| && multiset(es) == multiset(os)
    && forall k :: 0 <= k < |es| && !(left <= k <= right) ==> es[k] == os[k]
  }

  /** The state of the partition when `i` is the next element to look at: elements left+1 to s
      are below the pivot, those from there to i are not, and the pivot has not moved. */
  ghost predicate Partitioned(es: seq<Elem>, os: seq<Elem>, left: nat, s: nat, i: nat, right: nat, comp: Comparator) {
    && left <= s < i <= right + 1 && right < |os| && PermutedWithin(es, os, left, right)
    && es[left] == os[left]
    && (forall k :: left < k <= s ==> comp(es[k], os[left]) < 0)
    && (forall k :: s < k < i ==> comp(es[k], os[left]) >= 0)
  }

  lemma {:induction false} PartitionStep(es: seq<Elem>, os: seq<Elem>, left: nat, s: nat, i: nat, right: nat,
                                         comp: Comparator)
    requires Partitioned(es, os, left, s, i, right, comp) && i <= right
    ensures if comp(es[i], es[left]) < 0 then Partitioned(SwapElems(es, s + 1, i), os, left, s + 1, i + 1, right, comp)
            else Partitioned(es, os, left, s, i + 1, right, comp)
  {
  }

  /** What the partition leaves: the pivot at `s`, what is below it before, the rest behind. */
  ghost predicate SplitAt(es: seq<Elem>, left: nat, s: nat, right: nat, comp: Comparator) {
    && left <= s <= right < |es|
    && (forall k :: left <= k < s ==> comp(es[k], es[s]) < 0)
    && (forall k :: s < k <= right ==> comp(es[k], es[s]) >= 0)
  }

  lemma {:induction false} PartitionEnd(es: seq<Elem>, os: seq<Elem>, left: nat, s: nat, right: nat, comp: Comparator)
    requires Partitioned(es, os, left, s, right + 1, right, comp)
    ensures PermutedWithin(SwapElems(es, left, s), os, left, right)
    ensures SplitAt(SwapElems(es, left, s), left, s, right, comp) && SwapElems(es, left, s)[s] == os[left]
  {
  }

  /** Lines 106 to 109, the body of the loop. */
  method PartitionElement(buf: array<byte>, n: nat, left: nat, s: nat, i: nat, right: nat, sz: nat,
                          comp: Comparator, ghost os: seq<Elem>) returns (s': nat)
    requires sz > 0 && i <= right < n && Offset(n, sz) <= buf.Length
    requires Partitioned(Elems(buf[..], n, sz), os, left, s, i, right, comp)
    modifies buf
    ensures Partitioned(Elems(buf[..], n, sz), os, left, s', i + 1, right, comp)
    ensures buf[Offset(n, sz)..] == old(buf[Offset(n, sz)..])
  {
    ghost var es := Elems(buf[..], n, sz);
    PartitionStep(es, os, left, s, i, right, comp);
    s' := s;
    var c := Compare(buf, n, i, left, sz, comp);
    if c < 0 {
      s' := s + 1;
      SwapElements(buf, n, s', i, sz);
      assert Elems(buf[..], n, sz) == SwapElems(es, s + 1, i);
    }
  }

  /** Lines 101 to 113. */
  method Lomuto(buf: array<byte>, n: nat, left: nat, right: nat, sz: nat, comp: Comparator) returns (s: nat)
    requires sz > 0 && left < right < n && Offset(n, sz) <= buf.Length
    modifies buf
    ensures PermutedWithin(Elems(buf[..], n, sz), old(Elems(buf[..], n, sz)), left, right)
    ensures SplitAt(Elems(buf[..], n, sz), left, s, right, comp)
    ensures Elems(buf[..], n, sz)[s] == old(Elems(buf[..], n, sz)[left])
    ensures buf[Offset(n, sz)..] == old(buf[Offset(n, sz)..])
  {
    ghost var os := Elems(buf[..], n, sz);
    s := left;
    var i := left + 1;
    while i <= right
      invariant Partitioned(Elems(buf[..], n, sz), os, left, s, i, right, comp)
      invariant buf[Offset(n, sz)..] == old(buf[Offset(n, sz)..])
    {
      s := PartitionElement(buf, n, left, s, i, right, sz, comp, os);
      i := i + 1;
    }
    PartitionEnd(Elems(buf[..], n, sz), os, left, s, right, comp);
    SwapElements(buf, n, left, s, sz);
  }

  // ---- Sorting ------------------------------------------------------------------------------

  /** "Below" as `comp` says it is a strict weak order: its complement is a total preorder. */
  ghost predicate TotalPreorder(comp: Comparator, sz: nat) {
    && (forall x: Elem, y: Elem :: |x| == sz && |y| == sz && comp(x, y) < 0 ==> comp(y, x) >= 0)
    && (forall x: Elem, y: Elem, z: Elem ::
          |x| == sz && |y| == sz && |z| == sz && comp(x, y) >= 0 && comp(y, z) >= 0 ==> comp(x, z) >= 0)
  }

  ghost predicate Sorted(es: seq<Elem>, left: int, right: int, comp: Comparator) {
    forall i, j :: 0 <= left <= i < j <= right < |es| ==> comp(es[j], es[i]) >= 0
  }

  lemma {:induction false} MultisetOfParts(es: seq<Elem>, left: nat, end: nat)
    requires left <= end <= |es|
    ensures multiset(es) == multiset(es[..left]) + multiset(es[left..end]) + multiset(es[end..])
  {
    assert es == es[..left] + es[left..end] + es[end..];
  }

  /** A part that is permuted within itself keeps what holds of all its elements. */
  lemma {:induction false} PermutedPart(es: seq<Elem>, os: seq<Elem>, left: nat, right: int)
    requires PermutedWithin(es, os, left, right) && left <= right + 1 <= |es|
    ensures multiset(es[left..right + 1]) == multiset(os[left..right + 1])
  {
    MultisetOfParts(es, left, right + 1);
    MultisetOfParts(os, left, right + 1);
    var a, x, y, c := es[..left], es[left..right + 1], os[left..right + 1], es[right + 1..];
    assert a == os[..left] && c == os[right + 1..];
    forall e ensures multiset(x)[e] == multiset(y)[e] {
      assert multiset(es)[e] == multiset(a)[e] + multiset(x)[e] + multiset(c)[e];
      assert multiset(os)[e] == multiset(a)[e] + multiset(y)[e] + multiset(c)[e];
    }
  }

  lemma {:induction false} PermutedElement(es: seq<Elem>, os: seq<Elem>, left: nat, right: int, k: int) returns (m: int)
    requires PermutedWithin(es, os, left, right) && left <= k <= right < |es|
    ensures left <= m <= right && es[k] == os[m]
  {
    PermutedPart(es, os, left, right);
    var part, opart := es[left..right + 1], os[left..right + 1];
    assert part[k - left] in multiset(opart);
    var j :| 0 <= j < |opart| && opart[j] == part[k - left];
    m := left + j;
  }

  /** Sorting the parts before and behind the pivot keeps the split. */
  lemma {:induction false} SplitKept(es: seq<Elem>, os: seq<Elem>, lo: nat, hi: int, left: nat, s: nat, right: nat,
                                     comp: Comparator)
    requires SplitAt(os, left, s, right, comp) && PermutedWithin(es, os, lo, hi)
    requires (lo == left && hi == s - 1) || (lo == s + 1 && hi == right)
    ensures SplitAt(es, left, s, right, comp) && PermutedWithin(es, os, left, right)
  {
    forall k | lo <= k <= hi ensures (comp(es[k], es[s]) < 0 <==> lo == left) {
      var m := PermutedElement(es, os, lo, hi, k);
    }
  }

  lemma {:induction false} SplitSorted(es: seq<Elem>, left: nat, s: nat, right: nat, sz: nat, comp: Comparator)
    requires forall k :: 0 <= k < |es| ==> |es[k]| == sz
    requires TotalPreorder(comp, sz) && SplitAt(es, left, s, right, comp)
    requires Sorted(es, left, s - 1, comp) && Sorted(es, s + 1, right, comp)
    ensures Sorted(es, left, right, comp)
  {
    forall i, j | left <= i < j <= right ensures comp(es[j], es[i]) >= 0 {
      if i < s < j {
        assert comp(es[s], es[i]) >= 0 && comp(es[j], es[s]) >= 0;
      }
    }
  }

  /** Sorting what is behind the pivot leaves what is before it as it was. */
  lemma {:induction false} SortedKept(es: seq<Elem>, os: seq<Elem>, lo: int, hi: int, left: nat, right: int,
                                      comp: Comparator)
    requires PermutedWithin(es, os, lo, hi) && right < lo && Sorted(os, left, right, comp)
    ensures Sorted(es, left, right, comp)
  {
  }

  /** The two recursive calls: first before the pivot, then behind it. */
  lemma {:induction false} BothParts(e1: seq<Elem>, e2: seq<Elem>, e3: seq<Elem>, left: nat, s: nat, right: nat,
                                     sz: nat, comp: Comparator)
    requires SplitAt(e1, left, s, right, comp)
    requires PermutedWithin(e2, e1, left, s - 1) && PermutedWithin(e3, e2, s + 1, right)
    requires forall k :: 0 <= k < |e3| ==> |e3[k]| == sz
    ensures PermutedWithin(e3, e1, left, right)
    ensures TotalPreorder(comp, sz) && Sorted(e2, left, s - 1, comp) && Sorted(e3, s + 1, right, comp) ==>
              Sorted(e3, left, right, comp)
  {
    SplitKept(e2, e1, left, s - 1, left, s, right, comp);
    SplitKept(e3, e2, s + 1, right, left, s, right, comp);
    if TotalPreorder(comp, sz) && Sorted(e2, left, s - 1, comp) && Sorted(e3, s + 1, right, comp) {
      SortedKept(e3, e2, s + 1, right, left, s - 1, comp);
      SplitSorted(e3, left, s, right, sz, comp);
    }
  }

  /** Lines 120 to 126. */
  method QuicksortHelper(buf: array<byte>, n: nat, left: nat, right: int, sz: nat, comp: Comparator)
    requires sz > 0 && left <= right + 1 <= n && Offset(n, sz) <= buf.Length
    modifies buf
    ensures PermutedWithin(Elems(buf[..], n, sz), old(Elems(buf[..], n, sz)), left, right)
    ensures TotalPreorder(comp, sz) ==> Sorted(Elems(buf[..], n, sz), left, right, comp)
    ensures buf[Offset(n, sz)..] == old(buf[Offset(n, sz)..])
    decreases right - left + 1
  {
    if left < right {
      var s: int := Lomuto(buf, n, left, right, sz, comp);
      ghost var e1 := Elems(buf[..], n, sz);
      QuicksortHelper(buf, n, left, s - 1, sz, comp);
      ghost var e2 := Elems(buf[..], n, sz);
      QuicksortHelper(buf, n, s + 1, right, sz, comp);
      BothParts(e1, e2, Elems(buf[..], n, sz), left, s, right, sz, comp);
    }
  }

  /** Lines 131 to 133.  The element count goes to an int parameter, so it must fit one; for an
      empty buffer the right bound is -1. */
  method Quicksort(buf: array<byte>, len: nat, sz: nat, comp: Comparator)
    requires sz > 0 && len <= INT_MAX && len * sz <= buf.Length
    modifies buf
    ensures Offset(len, sz) == len * sz
    ensures multiset(Elems(buf[..], len, sz)) == multiset(old(Elems(buf[..], len, sz)))
    ensures TotalPreorder(comp, sz) ==> Sorted(Elems(buf[..], len, sz), 0, len - 1, comp)
    ensures buf[len * sz..] == old(buf[len * sz..])
  {
    OffsetIsProduct(len, sz);
    QuicksortHelper(buf, len, 0, len - 1, sz, comp);
  }

  // ---- The comparator for ints --------------------------------------------------------------

  /** The 32-bit two's complement integer that four bytes hold, least significant first. */
  function ReadInt(e: Elem): (v: int)
    requires |e| == 4
    ensures -0x8000_0000 <= v <= 0x7FFF_FFFF
  {
    var u := e[0] as int + 0x100 * e[1] as int + 0x1_0000 * e[2] as int + 0x100_0000 * e[3] as int;
    if u > 0x7FFF_FFFF then u - 0x1_0000_0000 else u
  }

  /** The four bytes that a machine stores for an integer, least significant first. */
  function IntBytes(v: int): (e: Elem)
    requires -0x8000_0000 <= v <= 0x7FFF_FFFF
    ensures |e| == 4
  {
    var u := v % 0x1_0000_0000;
    [(u % 0x100) as byte, (u / 0x100 % 0x100) as byte, (u / 0x1_0000 % 0x100) as byte, (u / 0x100_0000) as byte]
  }

  lemma {:induction false} BytesOf(u: nat)
    requires u < 0x1_0000_0000
    ensures u / 0x100_0000 < 0x100
    ensures u % 0x100 + 0x100 * (u / 0x100 % 0x100) + 0x1_0000 * (u / 0x1_0000 % 0x100) + 0x100_0000 * (u / 0x100_0000)
         == u
  {
    assert u / 0x1_0000 == u / 0x100 / 0x100 && u / 0x100_0000 == u / 0x1_0000 / 0x100;
  }

  /** The bytes stored for an integer are read back as that integer, and no other bytes are. */
  lemma {:induction false} ReadIntBack(v: int, e: Elem)
    requires -0x8000_0000 <= v <= 0x7FFF_FFFF && |e| == 4
    ensures ReadInt(e) == v <==> e == IntBytes(v)
  {
    BytesOf(v % 0x1_0000_0000);
    assert ReadInt(IntBytes(v)) == v;
    if ReadInt(e) == v {
      ReadIntInjective(e, IntBytes(v));
    }
  }

  /** Lines 25 to 36. */
  function IntCmp(a: Elem, b: Elem): int {
    if |a| != 4 || |b| != 4 then 0
    else
      var x, y := ReadInt(a), ReadInt(b);
      if x == y then 0 else if x < y then -1 else 1
  }

  lemma {:induction false} TwoDigits(lo: int, hi: int, lo': int, hi': int, base: int)
    requires base == 0x100 || base == 0x1_0000
    requires 0 <= lo < base && 0 <= lo' < base && lo + base * hi == lo' + base * hi'
    ensures lo == lo' && hi == hi'
  {
  }

  lemma {:induction false} ReadIntInjective(a: Elem, b: Elem)
    requires |a| == 4 && |b| == 4 && ReadInt(a) == ReadInt(b)
    ensures a == b
  {
    TwoDigits(a[0] as int + 0x100 * a[1] as int, a[2] as int + 0x100 * a[3] as int,
              b[0] as int + 0x100 * b[1] as int, b[2] as int + 0x100 * b[3] as int, 0x1_0000);
    TwoDigits(a[0] as int, a[1] as int, b[0] as int, b[1] as int, 0x100);
    TwoDigits(a[2] as int, a[3] as int, b[2] as int, b[3] as int, 0x100);
  }

  /** `int_cmp` orders elements of four bytes, and it calls two of them equal only when all their
      bytes are. */
  lemma {:induction false} IntCmpOrders()
    ensures TotalPreorder(IntCmp, 4)
    ensures forall a: Elem, b: Elem :: |a| == 4 && |b| == 4 && IntCmp(a, b) == 0 ==> a == b
  {
    forall a: Elem, b: Elem | |a| == 4 && |b| == 4 && IntCmp(a, b) == 0 ensures a == b {
      ReadIntInjective(a, b);
    }
  }

  /** Sorting with `int_cmp` puts the integers in ascending order. */
  method SortInts(buf: array<byte>, len: nat)
    requires len <= INT_MAX && 4 * len <= buf.Length
    modifies buf
    ensures Offset(len, 4) == 4 * len
    ensures multiset(Elems(buf[..], len, 4)) == multiset(old(Elems(buf[..], len, 4)))
    ensures forall i, j :: 0 <= i < j < len ==> ReadInt(Elems(buf[..], len, 4)[i]) <= ReadInt(Elems(buf[..], len, 4)[j])
  {
    OffsetIsProduct(len, 4);
    IntCmpOrders();
    Quicksort(buf, len, 4, IntCmp);
    ghost var es := Elems(buf[..], len, 4);
    forall i, j | 0 <= i < j < len ensures ReadInt(es[i]) <= ReadInt(es[j]) {
      assert IntCmp(es[j], es[i]) >= 0;
    }
  }
}
