/**
 * `Array.prototype.sort(comparator)` as both paper processors use it: the array
 * is reordered in place, and a negative comparator result puts its first
 * argument first. The model is a stable insertion sort. It needs only that the
 * comparator is antisymmetric (swapping the arguments flips the sign); it does
 * NOT need transitivity, which the ranking comparator lacks. Without
 * transitivity the guarantee is that the result is a permutation whose
 * neighbours are in order and in which tied elements keep their input order;
 * with transitivity that becomes a stably sorted result.
 */
module ArraySort {

  /** Swapping the arguments of `cmp` negates its result. */
  ghost predicate Antisymmetric<T(!new)>(cmp: (T, T) -> real) {
    forall x, y :: cmp(x, y) == -cmp(y, x)
  }

  /** Every element is ordered before or level with its right-hand neighbour. */
  ghost predicate NeighboursOrdered<T>(s: seq<T>, cmp: (T, T) -> real) {
    forall k :: 0 <= k < |s| - 1 ==> cmp(s[k], s[k + 1]) <= 0.0
  }

  /** Every element is ordered before or level with every element to its right. */
  ghost predicate Ordered<T>(s: seq<T>, cmp: (T, T) -> real) {
    forall i, j :: 0 <= i < j < |s| ==> cmp(s[i], s[j]) <= 0.0
  }

  /** "Ordered before or level with" is transitive on the elements of `s`. */
  ghost predicate TransitiveOn<T>(s: seq<T>, cmp: (T, T) -> real) {
    forall i, j, k ::
      (0 <= i < |s| && 0 <= j < |s| && 0 <= k < |s| && cmp(s[i], s[j]) <= 0.0 && cmp(s[j], s[k]) <= 0.0)
      ==> cmp(s[i], s[k]) <= 0.0
  }

  /**
   * `perm` tells where each element of `s` came from: `s[k]` is `o[perm[k]]`,
   * and no input position is used twice.
   */
  ghost predicate Rearranges<T>(s: seq<T>, o: seq<T>, perm: seq<int>) {
    && |perm| == |s| == |o|
    && (forall k :: 0 <= k < |s| ==> 0 <= perm[k] < |o| && s[k] == o[perm[k]])
    && (forall p, q :: 0 <= p < q < |perm| ==> perm[p] != perm[q])
  }

  /**
   * Among the first `n` elements, a pair stands in the opposite of its input
   * order only where `cmp` strictly puts the later input first.
   */
  ghost predicate InversionsStrict<T>(s: seq<T>, perm: seq<int>, n: int, cmp: (T, T) -> real) {
    forall p, q :: 0 <= p < q < n && q < |s| && q < |perm| && perm[q] < perm[p] ==> cmp(s[p], s[q]) < 0.0
  }

  /** Elements that `cmp` ties keep their input order. */
  ghost predicate TiesInInputOrder<T>(s: seq<T>, perm: seq<int>, cmp: (T, T) -> real) {
    forall p, q :: 0 <= p < q < |s| && q < |perm| && cmp(s[p], s[q]) == 0.0 ==> perm[p] < perm[q]
  }

  /** The positions `0 .. n-1` in order: the index map of an untouched sequence. */
  function Identity(n: nat): (perm: seq<int>)
    ensures |perm| == n && forall k :: 0 <= k < n ==> perm[k] == k
  {
    seq(n, k => k)
  }

  /** `s` with the neighbours at `j - 1` and `j` exchanged. */
  function SwapAt<U>(s: seq<U>, j: int): (r: seq<U>)
    requires 0 < j < |s|
    ensures |r| == |s| && r[j - 1] == s[j] && r[j] == s[j - 1]
    ensures forall k :: 0 <= k < |s| && k != j - 1 && k != j ==> r[k] == s[k]
  {
    s[j - 1 := s[j]][j := s[j - 1]]
  }

  /**
   * The outer loop's state: the first `i` elements are the first `i` inputs,
   * with ordered neighbours and only strict inversions; the rest are untouched.
   */
  ghost predicate SortedPrefix<T>(s: seq<T>, o: seq<T>, perm: seq<int>, i: int, cmp: (T, T) -> real) {
    && Rearranges(s, o, perm)
    && 0 <= i <= |s|
    && (forall k :: i <= k < |s| ==> perm[k] == k)
    && (forall k :: 0 <= k < i ==> perm[k] < i)
    && (forall k :: 0 <= k && k + 1 < i ==> cmp(s[k], s[k + 1]) <= 0.0)
    && InversionsStrict(s, perm, i, cmp)
  }

  /**
   * The inner loop's state: input `i`, moving left, sits at `j`; it strictly
   * precedes everything it has passed, the neighbours around it are in order,
   * and the other elements of the prefix keep the outer loop's property.
   */
  ghost predicate Inserting<T>(s: seq<T>, o: seq<T>, perm: seq<int>, i: int, j: int, cmp: (T, T) -> real) {
    && Rearranges(s, o, perm)
    && 0 <= j <= i < |s|
    && perm[j] == i
    && (forall k :: i < k < |s| ==> perm[k] == k)
    && (forall k :: 0 <= k <= i ==> perm[k] <= i)
    && InsertingNeighbours(s, i, j, cmp)
    && (forall p, q :: 0 <= p < q <= i && p != j && q != j && perm[q] < perm[p] ==> cmp(s[p], s[q]) < 0.0)
    && (forall q :: j < q <= i ==> cmp(s[j], s[q]) < 0.0)
  }

  /** While the element at `j` moves left, every neighbour pair of the prefix but the one ending at `j` is in order, and so are the two around `j`. */
  ghost predicate InsertingNeighbours<T>(s: seq<T>, i: int, j: int, cmp: (T, T) -> real) {
    && 0 <= j <= i < |s|
    && (forall k :: 0 <= k < i && k != j - 1 ==> cmp(s[k], s[k + 1]) <= 0.0)
    && (0 < j < i ==> cmp(s[j - 1], s[j + 1]) <= 0.0)
  }

  lemma StartSort<T>(o: seq<T>, cmp: (T, T) -> real)
    ensures SortedPrefix(o, o, Identity(|o|), 0, cmp)
  {
  }

  lemma StartInsert<T>(s: seq<T>, o: seq<T>, perm: seq<int>, i: int, cmp: (T, T) -> real)
    requires SortedPrefix(s, o, perm, i, cmp) && i < |s|
    ensures Inserting(s, o, perm, i, i, cmp)
  {
  }

  /** Exchanging two neighbours in both the sequence and its index map keeps the map. */
  lemma SwapRearranges<T>(s: seq<T>, o: seq<T>, perm: seq<int>, j: int)
    requires Rearranges(s, o, perm) && 0 < j < |s|
    ensures Rearranges(SwapAt(s, j), o, SwapAt(perm, j))
  {
    var perm' := SwapAt(perm, j);
    forall p, q | 0 <= p < q < |perm'|
      ensures perm'[p] != perm'[q]
    {
      var p0 := if p == j - 1 then j else if p == j then j - 1 else p;
      var q0 := if q == j - 1 then j else if q == j then j - 1 else q;
      assert perm'[p] == perm[p0] && perm'[q] == perm[q0] && p0 != q0;
    }
  }

  /** Moving the element at `j` past a neighbour that `cmp` puts after it keeps the neighbour part of the state. */
  lemma SwapNeighboursOrdered<T(!new)>(s: seq<T>, i: int, j: int, cmp: (T, T) -> real)
    requires Antisymmetric(cmp)
    requires InsertingNeighbours(s, i, j, cmp) && 0 < j && cmp(s[j - 1], s[j]) > 0.0
    ensures InsertingNeighbours(SwapAt(s, j), i, j - 1, cmp)
  {
    var s' := SwapAt(s, j);
    assert cmp(s'[j - 1], s'[j]) < 0.0 by {
      assert cmp(s[j], s[j - 1]) == -cmp(s[j - 1], s[j]);
    }
  }

  /** Swapping the moving element past a neighbour that `cmp` puts after it keeps the inner loop's state. */
  lemma SwapStep<T(!new)>(s: seq<T>, o: seq<T>, perm: seq<int>, i: int, j: int, cmp: (T, T) -> real)
    requires Antisymmetric(cmp)
    requires Inserting(s, o, perm, i, j, cmp) && 0 < j && cmp(s[j - 1], s[j]) > 0.0
    ensures Inserting(SwapAt(s, j), o, SwapAt(perm, j), i, j - 1, cmp)
  {
    SwapRearranges(s, o, perm, j);
    SwapNeighboursOrdered(s, i, j, cmp);
    assert cmp(s[j], s[j - 1]) == -cmp(s[j - 1], s[j]);
  }

  /** Once the moving element stops, the prefix one longer is in order, with only strict inversions. */
  lemma EndInsert<T>(s: seq<T>, o: seq<T>, perm: seq<int>, i: int, j: int, cmp: (T, T) -> real)
    requires Inserting(s, o, perm, i, j, cmp) && (j == 0 || cmp(s[j - 1], s[j]) <= 0.0)
    ensures SortedPrefix(s, o, perm, i + 1, cmp)
  {
  }

  /**
   * A prefix covering everything is an ordered, traced rearrangement with
   * only strict inversions, and so one where ties keep their input order.
   */
  lemma FinishSort<T>(s: seq<T>, o: seq<T>, perm: seq<int>, cmp: (T, T) -> real)
    requires SortedPrefix(s, o, perm, |s|, cmp)
    ensures NeighboursOrdered(s, cmp)
    ensures Rearranges(s, o, perm)
    ensures InversionsStrict(s, perm, |s|, cmp)
    ensures TiesInInputOrder(s, perm, cmp)
  {
    forall p, q | 0 <= p < q < |s| && q < |perm| && cmp(s[p], s[q]) == 0.0
      ensures perm[p] < perm[q]
    {
      assert perm[p] != perm[q];
    }
  }

  /**
   * Reorders `a` in place by `cmp`, keeping exactly the same elements. `perm`
   * records where each element came from; a pair is reversed only when `cmp`
   * strictly orders it that way, so tied elements keep their input order (the
   * sort is stable).
   */
  method Sort<T(!new)>(a: array<T>, cmp: (T, T) -> real) returns (ghost perm: seq<int>)
    requires Antisymmetric(cmp)
    modifies a
    ensures multiset(a[..]) == multiset(old(a[..]))
    ensures NeighboursOrdered(a[..], cmp)
    ensures Rearranges(a[..], old(a[..]), perm)
    ensures InversionsStrict(a[..], perm, a.Length, cmp)
    ensures TiesInInputOrder(a[..], perm, cmp)
  {
    ghost var o := a[..];
    perm := Identity(a.Length);
    StartSort(o, cmp);
    var i := 0;
    while i < a.Length
      invariant 0 <= i <= a.Length
      invariant multiset(a[..]) == multiset(old(a[..]))
      invariant SortedPrefix(a[..], o, perm, i, cmp)
    {
      perm := InsertLast(a, i, cmp, o, perm);
      i := i + 1;
    }
    FinishSort(a[..], o, perm, cmp);
  }

  /**
   * Moves `a[i]` left past every greater neighbour, so that the prefix up to
   * and including index `i`, whose first `i` elements were in order, is in order.
   */
  method InsertLast<T(!new)>(a: array<T>, i: int, cmp: (T, T) -> real, ghost o: seq<T>, ghost perm0: seq<int>)
    returns (ghost perm: seq<int>)
    requires Antisymmetric(cmp)
    requires 0 <= i < a.Length
    requires SortedPrefix(a[..], o, perm0, i, cmp)
    modifies a
    ensures multiset(a[..]) == multiset(old(a[..]))
    ensures SortedPrefix(a[..], o, perm, i + 1, cmp)
  {
    perm := perm0;
    StartInsert(a[..], o, perm, i, cmp);
    var j := i;
    while 0 < j && cmp(a[j - 1], a[j]) > 0.0
      invariant 0 <= j <= i
      invariant multiset(a[..]) == multiset(old(a[..]))
      invariant Inserting(a[..], o, perm, i, j, cmp)
    {
      SwapStep(a[..], o, perm, i, j, cmp);
      SwapNeighbours(a, j);
      perm := SwapAt(perm, j);
      j := j - 1;
    }
    EndInsert(a[..], o, perm, i, j, cmp);
  }

  /** Exchanges `a[j - 1]` and `a[j]`. */
  method SwapNeighbours<T>(a: array<T>, j: int)
    requires 0 < j < a.Length
    modifies a
    ensures a[..] == SwapAt(old(a[..]), j)
    ensures a[j - 1] == old(a[j]) && a[j] == old(a[j - 1])
    ensures forall k :: 0 <= k < a.Length && k != j - 1 && k != j ==> a[k] == old(a[k])
    ensures multiset(a[..]) == multiset(old(a[..]))
  {
    a[j - 1], a[j] := a[j], a[j - 1];
  }

  /** Under a transitive comparator, ordered neighbours mean a fully ordered sequence. */
  lemma {:induction false} NeighboursOrderedToOrdered<T>(s: seq<T>, cmp: (T, T) -> real)
    requires NeighboursOrdered(s, cmp)
    requires TransitiveOn(s, cmp)
    ensures Ordered(s, cmp)
  {
    forall i, j | 0 <= i < j < |s|
      ensures cmp(s[i], s[j]) <= 0.0
    {
      var m := i + 1;
      while m < j
        invariant i < m <= j
        invariant cmp(s[i], s[m]) <= 0.0
      {
        assert cmp(s[m], s[m + 1]) <= 0.0;
        m := m + 1;
      }
    }
  }
}
