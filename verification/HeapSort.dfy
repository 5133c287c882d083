/** sort and binary_search (lib/stdlib.c); elements have 1-based indexes, as in the source. */
module HeapSort {
  import opened Wrappers

  /** compare is a total preorder with strcmp-like results. */
  ghost predicate TotalPreorder<T(!new)>(compare: (T, T) -> int) {
    && (forall x, y :: compare(x, y) > 0 <==> compare(y, x) < 0)
    && (forall x, y, z :: compare(x, y) <= 0 && compare(y, z) <= 0 ==> compare(x, z) <= 0)
  }

  /** Element p is at least element k. */
  ghost predicate Above<T>(compare: (T, T) -> int, s: seq<T>, p: nat, k: nat)
    requires 0 < p <= |s| && 0 < k <= |s|
  {
    compare(s[p - 1], s[k - 1]) >= 0
  }

  function Parent(k: nat): nat {
    k / 2
  }

  /** Every element up to cnt whose parent is from lo on, but is not hole, is below its parent. */
  ghost predicate HeapBut<T>(compare: (T, T) -> int, s: seq<T>, lo: nat, cnt: nat, hole: nat)
    requires 0 < lo && cnt <= |s|
  {
    forall k: nat | k <= cnt && lo <= Parent(k) && Parent(k) != hole :: Above(compare, s, Parent(k), k)
  }

  ghost predicate HeapFrom<T>(compare: (T, T) -> int, s: seq<T>, lo: nat, cnt: nat)
    requires 0 < lo && cnt <= |s|
  {
    HeapBut(compare, s, lo, cnt, 0)
  }

  /** The parent of the hole is above the children of the hole. */
  ghost predicate Bridged<T>(compare: (T, T) -> int, s: seq<T>, lo: nat, cnt: nat, hole: nat)
    requires 0 < lo && cnt <= |s|
  {
    forall k: nat | k <= cnt && Parent(k) == hole && lo <= Parent(hole) :: Above(compare, s, Parent(hole), k)
  }

  function Swap<T>(s: seq<T>, i: nat, j: nat): (r: seq<T>)
    requires 0 < i <= |s| && 0 < j <= |s|
    ensures |r| == |s| && forall k: nat | k < |s| :: r[k] == if k + 1 == j then s[i - 1] else if k + 1 == i then s[j - 1] else s[k]
  {
    s[i - 1 := s[j - 1]][j - 1 := s[i - 1]]
  }

  /** s' has the first cnt elements of s in some order, and the others as they were. */
  ghost predicate Rearranged<T>(s: seq<T>, s': seq<T>, cnt: nat) {
    cnt <= |s'| == |s| && multiset(s'[..cnt]) == multiset(s[..cnt]) && s'[cnt..] == s[cnt..]
  }

  lemma SwapRearranges<T>(s: seq<T>, i: nat, j: nat, cnt: nat)
    requires 0 < i <= cnt <= |s| && 0 < j <= cnt
    ensures Rearranged(s, Swap(s, i, j), cnt)
  {
    assert Swap(s, i, j)[..cnt] == s[..cnt][i - 1 := s[..cnt][j - 1]][j - 1 := s[..cnt][i - 1]];
  }

  lemma RearrangedPermutes<T>(s: seq<T>, s': seq<T>, cnt: nat)
    requires Rearranged(s, s', cnt)
    ensures multiset(s') == multiset(s)
  {
    assert s == s[..cnt] + s[cnt..] && s' == s'[..cnt] + s'[cnt..];
  }

  /** Moving the larger child up moves the hole down. */
  lemma FloatDown<T(!new)>(compare: (T, T) -> int, s: seq<T>, lo: nat, cnt: nat, i: nat, max: nat)
    requires TotalPreorder(compare) && 0 < lo <= i && cnt <= |s| && i < max <= cnt && Parent(max) == i
    requires HeapBut(compare, s, lo, cnt, i) && Bridged(compare, s, lo, cnt, i)
    requires compare(s[max - 1], s[i - 1]) > 0 && forall k: nat | k <= cnt && Parent(k) == i :: Above(compare, s, max, k)
    ensures HeapBut(compare, Swap(s, i, max), lo, cnt, max) && Bridged(compare, Swap(s, i, max), lo, cnt, max)
  {
    var s' := Swap(s, i, max);
    forall k: nat | k <= cnt && lo <= Parent(k) && Parent(k) != max ensures Above(compare, s', Parent(k), k) {
      if Parent(k) == i {
        assert Above(compare, s, max, k);
      } else if k == i {
        assert Above(compare, s, Parent(i), max);
      } else {
        assert Above(compare, s, Parent(k), k);
      }
    }
    forall k: nat | k <= cnt && Parent(k) == max ensures Above(compare, s', i, k) {
      assert Above(compare, s, max, k);
    }
  }

  /** The hole closes when its element is at least its children. */
  lemma Closed<T>(compare: (T, T) -> int, s: seq<T>, lo: nat, cnt: nat, i: nat)
    requires 0 < lo <= i <= |s| && cnt <= |s| && HeapBut(compare, s, lo, cnt, i)
    requires forall k: nat | k <= cnt && Parent(k) == i :: Above(compare, s, i, k)
    ensures HeapFrom(compare, s, lo, cnt)
  {
  }

  /** The first element of a heap is its largest. */
  lemma {:induction false} RootIsLargest<T(!new)>(compare: (T, T) -> int, s: seq<T>, cnt: nat, k: nat)
    requires TotalPreorder(compare) && cnt <= |s| && HeapFrom(compare, s, 1, cnt) && 0 < k <= cnt
    ensures Above(compare, s, 1, k)
    decreases k
  {
    if k > 1 {
      RootIsLargest(compare, s, cnt, Parent(k));
      assert Above(compare, s, Parent(k), k);
    }
  }

  // ---- the array

  method DoSwap<T>(a: array<T>, i: nat, j: nat)
    requires 0 < i <= a.Length && 0 < j <= a.Length
    modifies a
    ensures a[..] == Swap(old(a[..]), i, j)
  {
    a[i - 1], a[j - 1] := a[j - 1], a[i - 1];
  }

  /** The index of the largest of i and its children. */
  method LargestOf<T(!new)>(a: array<T>, i: nat, cnt: nat, compare: (T, T) -> int) returns (max: nat)
    requires TotalPreorder(compare) && 0 < i <= cnt <= a.Length
    ensures i <= max <= cnt && (max == i || (Parent(max) == i && compare(a[max - 1], a[i - 1]) > 0))
    ensures forall k: nat | k <= cnt && Parent(k) == i :: Above(compare, a[..], max, k)
  {
    var left, right := 2 * i, 2 * i + 1;
    max := i;
    if left <= cnt && compare(a[left - 1], a[max - 1]) > 0 {
      max := left;
    }
    if right <= cnt && compare(a[right - 1], a[max - 1]) > 0 {
      max := right;
    }
    assert forall k: nat | Parent(k) == i :: k == left || k == right;
  }

  /** heapify: floats element i down until the heap is a heap from i on. */
  method Heapify<T(!new)>(a: array<T>, i0: nat, cnt: nat, compare: (T, T) -> int)
    requires TotalPreorder(compare) && 0 < i0 <= cnt <= a.Length && HeapFrom(compare, a[..], i0 + 1, cnt)
    modifies a
    ensures HeapFrom(compare, a[..], i0, cnt) && Rearranged(old(a[..]), a[..], cnt)
  {
    var i := i0;
    while true
      invariant i0 <= i <= cnt && HeapBut(compare, a[..], i0, cnt, i) && Bridged(compare, a[..], i0, cnt, i)
      invariant Rearranged(old(a[..]), a[..], cnt)
      decreases cnt - i
    {
      var max := LargestOf(a, i, cnt, compare);
      if max == i {
        Closed(compare, a[..], i0, cnt, i);
        break;
      }
      ghost var s := a[..];
      FloatDown(compare, s, i0, cnt, i, max);
      SwapRearranges(s, i, max, cnt);
      DoSwap(a, i, max);
      i := max;
    }
  }

  ghost predicate Sorted<T>(compare: (T, T) -> int, s: seq<T>, lo: nat) {
    forall j: nat, k: nat | lo <= j < k < |s| :: compare(s[j], s[k]) <= 0
  }

  /** The first m elements are at most the rest, and the rest is sorted. */
  ghost predicate Settled<T>(compare: (T, T) -> int, s: seq<T>, m: nat)
    requires m <= |s|
  {
    Sorted(compare, s, m) && forall j: nat, k: nat | j < m <= k < |s| :: compare(s[j], s[k]) <= 0
  }

  /** Rearranging the first m elements does not matter to the rest. */
  lemma StillSettled<T>(compare: (T, T) -> int, s: seq<T>, s': seq<T>, m: nat)
    requires Rearranged(s, s', m) && Settled(compare, s, m)
    ensures Settled(compare, s', m)
  {
    forall k: nat | m <= k < |s| ensures s'[k] == s[k] {
      assert s'[m..][k - m] == s[m..][k - m];
    }
    forall j: nat, k: nat | j < m <= k < |s'| ensures compare(s'[j], s'[k]) <= 0 {
      assert s'[..m][j] in multiset(s[..m]);
      var i: nat :| i < m && s[..m][i] == s'[j];
      assert compare(s[i], s[k]) <= 0;
    }
  }

  /** The largest of the first i elements goes to place i: one more is settled. */
  lemma SettleOne<T(!new)>(compare: (T, T) -> int, s: seq<T>, i: nat)
    requires TotalPreorder(compare) && 1 < i <= |s| && Settled(compare, s, i) && HeapFrom(compare, s, 1, i)
    ensures Settled(compare, Swap(s, 1, i), i - 1)
  {
    var s' := Swap(s, 1, i);
    forall k: nat | k < i ensures compare(s[k], s[0]) <= 0 {
      RootIsLargest(compare, s, i, k + 1);
    }
    forall j: nat, k: nat | j < i - 1 <= k < |s| ensures compare(s'[j], s'[k]) <= 0 {
      var j' := if j == 0 then i - 1 else j;
      assert s'[j] == s[j'] && s'[k] == if k == i - 1 then s[0] else s[k];
    }
    forall j: nat, k: nat | i - 1 <= j < k < |s| ensures compare(s'[j], s'[k]) <= 0 {
      assert s'[j] == s[if j == i - 1 then 0 else j];
    }
  }

  lemma HeapBelowRoot<T>(compare: (T, T) -> int, s: seq<T>, i: nat)
    requires 1 < i <= |s| && HeapFrom(compare, s, 1, i)
    ensures HeapFrom(compare, Swap(s, 1, i), 2, i - 1)
  {
    forall k: nat | k <= i - 1 && 2 <= Parent(k) ensures Above(compare, Swap(s, 1, i), Parent(k), k) {
      assert Above(compare, s, Parent(k), k);
    }
  }

  /** The first loop of sort. */
  method BuildHeap<T(!new)>(a: array<T>, compare: (T, T) -> int)
    requires TotalPreorder(compare)
    modifies a
    ensures HeapFrom(compare, a[..], 1, a.Length) && multiset(a[..]) == multiset(old(a[..]))
  {
    var i := a.Length / 2;
    while i > 0
      invariant 0 <= i <= a.Length / 2 && HeapFrom(compare, a[..], i + 1, a.Length) && multiset(a[..]) == multiset(old(a[..]))
    {
      ghost var s := a[..];
      Heapify(a, i, a.Length, compare);
      RearrangedPermutes(s, a[..], a.Length);
      i := i - 1;
    }
  }

  /** One turn of the second loop of sort. */
  method TakeLargest<T(!new)>(a: array<T>, i: nat, compare: (T, T) -> int)
    requires TotalPreorder(compare) && 1 < i <= a.Length && HeapFrom(compare, a[..], 1, i) && Settled(compare, a[..], i)
    modifies a
    ensures HeapFrom(compare, a[..], 1, i - 1) && Settled(compare, a[..], i - 1) && multiset(a[..]) == multiset(old(a[..]))
  {
    SettleOne(compare, a[..], i);
    HeapBelowRoot(compare, a[..], i);
    SwapRearranges(a[..], 1, i, i);
    RearrangedPermutes(a[..], Swap(a[..], 1, i), i);
    DoSwap(a, 1, i);
    ghost var s := a[..];
    Heapify(a, 1, i - 1, compare);
    RearrangedPermutes(s, a[..], i - 1);
    StillSettled(compare, s, a[..], i - 1);
  }

  /** sort: heapsort leaves a sorted permutation. */
  method Sort<T(!new)>(a: array<T>, compare: (T, T) -> int)
    requires TotalPreorder(compare)
    modifies a
    ensures Sorted(compare, a[..], 0) && multiset(a[..]) == multiset(old(a[..]))
  {
    BuildHeap(a, compare);
    var i := a.Length;
    while i > 1
      invariant 0 <= i <= a.Length && HeapFrom(compare, a[..], 1, i) && Settled(compare, a[..], i)
      invariant multiset(a[..]) == multiset(old(a[..]))
    {
      TakeLargest(a, i, compare);
      i := i - 1;
    }
    SettledIsSorted(compare, a[..], i);
  }

  lemma SettledIsSorted<T>(compare: (T, T) -> int, s: seq<T>, i: nat)
    requires i <= 1 && i <= |s| && Settled(compare, s, i)
    ensures Sorted(compare, s, 0)
  {
  }

  /** binary_search: an element equal to the key, exactly when there is one. */
  method BinarySearch<T(!new)>(key: T, a: array<T>, compare: (T, T) -> int) returns (r: Option<nat>)
    requires TotalPreorder(compare) && Sorted(compare, a[..], 0)
    ensures r.Some? ==> r.value < a.Length && compare(key, a[r.value]) == 0
    ensures r.None? ==> forall k: nat | k < a.Length :: compare(key, a[k]) != 0
  {
    var first, last := 0, a.Length;
    while first < last
      invariant 0 <= first <= last <= a.Length
      invariant forall k: nat | k < first :: compare(key, a[k]) > 0
      invariant forall k: nat | last <= k < a.Length :: compare(key, a[k]) < 0
    {
      var middle := first + (last - first) / 2;
      var cmp := compare(key, a[middle]);
      if cmp < 0 {
        Beyond(compare, key, a[..], middle);
        last := middle;
      } else if cmp > 0 {
        Before(compare, key, a[..], middle);
        first := middle + 1;
      } else {
        return Some(middle);
      }
    }
    r := None;
  }

  lemma Through<T(!new)>(compare: (T, T) -> int, x: T, y: T, z: T)
    requires TotalPreorder(compare) && compare(y, z) <= 0
    ensures compare(x, y) < 0 ==> compare(x, z) < 0
    ensures compare(x, z) > 0 ==> compare(x, y) > 0
  {
    assert compare(z, x) <= 0 ==> compare(y, x) <= 0;
  }

  lemma Beyond<T(!new)>(compare: (T, T) -> int, key: T, s: seq<T>, m: nat)
    requires TotalPreorder(compare) && Sorted(compare, s, 0) && m < |s| && compare(key, s[m]) < 0
    ensures forall k: nat | m <= k < |s| :: compare(key, s[k]) < 0
  {
    forall k: nat | m <= k < |s| ensures compare(key, s[k]) < 0 {
      if m < k {
        Through(compare, key, s[m], s[k]);
      }
    }
  }

  lemma Before<T(!new)>(compare: (T, T) -> int, key: T, s: seq<T>, m: nat)
    requires TotalPreorder(compare) && Sorted(compare, s, 0) && m < |s| && compare(key, s[m]) > 0
    ensures forall k: nat | k <= m :: compare(key, s[k]) > 0
  {
    forall k: nat | k <= m ensures compare(key, s[k]) > 0 {
      if k < m {
        Through(compare, key, s[k], s[m]);
      }
    }
  }
}
