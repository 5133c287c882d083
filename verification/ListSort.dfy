/** list_sort, a natural merge sort, and list_insert_ordered (lib/kernel/list.c:183-204, 357-459). */
module ListSort {
  import opened ListOrder
  import opened LinkedLists

  // ---- one pass over the list, on sequences

  lemma MergeRearranges<T>(less: (T, T) -> bool, all: set<T>, a: seq<T>, b: seq<T>)
    requires StrictWeakOrder(less, all) && From(all, a) && From(all, b) && Sorted(less, a) && Sorted(less, b)
    ensures Stable(less, all, a + b, Merge(less, a, b))
  {
    forall x | x in all ensures Peers(less, Merge(less, a, b), x) == Peers(less, a + b, x) {
      MergeIsStable(less, all, a, b, x);
      PeersOfBoth(less, a, b, x);
    }
  }

  /** The elements between the sentinels come from all. */
  ghost predicate Inside<T>(all: set<T>, s: seq<T>) {
    forall i: nat | 1 <= i < |s| - 1 :: s[i] in all
  }

  ghost predicate SameFrom<T>(s0: seq<T>, s: seq<T>, p: nat) {
    |s| == |s0| && forall i: nat | p <= i < |s| :: s[i] == s0[i]
  }

  /**
   * The state of a pass over the list s0, sentinels included: the elements before place p
   * form cnt runs, each made of two runs of s0; the rest is as it was.
   */
  ghost predicate Passed<T>(less: (T, T) -> bool, all: set<T>, s0: seq<T>, s: seq<T>, p: nat, cnt: nat) {
    && 1 <= p < |s| == |s0| && SameFrom(s0, s, p)
    && StableIn(less, all, s0, s, 1, p) && Runs(less, s, 1, p) <= cnt
    && Runs(less, s0, 1, |s0| - 1) == 2 * cnt + Runs(less, s0, p, |s0| - 1)
  }

  /** At most one more run comes of appending a run. */
  lemma AppendRun<T>(less: (T, T) -> bool, s: seq<T>, p: nat, q: nat, r: nat)
    requires p <= q < r <= |s| && RunIn(less, s, q, r)
    ensures Runs(less, s, p, r) <= Runs(less, s, p, q) + 1
  {
    OneRun(less, s, q, r);
    if p < q {
      RunsOfBoth(less, s, p, q, r);
    }
  }

  lemma BreakBetween<T>(less: (T, T) -> bool, s: seq<T>, p: nat, q: nat, r: nat)
    requires p < q <= r <= |s| && RunIn(less, s, p, q) && (q < r ==> less(s[q], s[q - 1]))
    ensures Runs(less, s, p, r) == 1 + Runs(less, s, q, r)
  {
    OneRun(less, s, p, q);
    if q < r {
      RunsOfBoth(less, s, p, q, r);
    }
  }

  lemma SortedParts<T>(less: (T, T) -> bool, all: set<T>, s: seq<T>, p: nat, q: nat)
    requires StrictWeakOrder(less, all) && 1 <= p <= q < |s| && Inside(all, s) && RunIn(less, s, p, q)
    ensures From(all, s[p..q]) && Sorted(less, s[p..q])
  {
    PartFrom(all, s, p, q);
    RunIsSorted(less, all, s, p, q);
  }

  /** What the merge puts in place of two runs is one run, and a stable rearrangement of them. */
  lemma TwoRunsBecomeOne<T>(less: (T, T) -> bool, all: set<T>, s0: seq<T>, s': seq<T>, p: nat, q: nat, r: nat)
    requires StrictWeakOrder(less, all) && 1 <= p < q < r < |s0| == |s'| && Inside(all, s0)
    requires RunIn(less, s0, p, q) && RunIn(less, s0, q, r) && s'[p..r] == Merge(less, s0[p..q], s0[q..r])
    ensures RunIn(less, s', p, r) && StableIn(less, all, s0, s', p, r)
  {
    SortedParts(less, all, s0, p, q);
    SortedParts(less, all, s0, q, r);
    MergeRearranges(less, all, s0[p..q], s0[q..r]);
    MergeIsSorted(less, all, s0[p..q], s0[q..r]);
    SortedIsRun(less, s', p, r);
    assert s0[p..r] == s0[p..q] + s0[q..r];
    StableSlice(less, all, s0, s', p, r);
  }

  lemma SortedIsRun<T>(less: (T, T) -> bool, s: seq<T>, p: nat, r: nat)
    requires p <= r <= |s| && Sorted(less, s[p..r])
    ensures RunIn(less, s, p, r)
  {
    forall i: nat | p < i < r ensures InOrder(less, s, i) {
      assert s[p..r][i - p] == s[i] && s[p..r][i - 1 - p] == s[i - 1];
    }
  }

  lemma StableDone<T>(less: (T, T) -> bool, all: set<T>, s0: seq<T>, s: seq<T>, s': seq<T>, p: nat, r: nat)
    requires 1 <= p <= r < |s0| == |s| == |s'| && (forall h: nat | h < p :: s'[h] == s[h])
    requires StableIn(less, all, s0, s, 1, p) && StableIn(less, all, s0, s', p, r)
    ensures StableIn(less, all, s0, s', 1, r)
  {
    StableSame(less, all, s, s', 1, p);
    StableJoin(less, all, s0, s', 1, p, r);
  }

  /** The merged stretch of s', against the list s0 that the pass began with. */
  lemma MergedStretch<T>(less: (T, T) -> bool, all: set<T>, s0: seq<T>, s: seq<T>, s': seq<T>, p: nat, q: nat, r: nat)
    requires StrictWeakOrder(less, all) && 1 <= p < q < r < |s| == |s'| && SameFrom(s0, s, p) && Inside(all, s0)
    requires RunIn(less, s, p, q) && RunIn(less, s, q, r) && s'[p..r] == Merge(less, s[p..q], s[q..r])
    ensures RunIn(less, s0, p, q) && RunIn(less, s0, q, r) && RunIn(less, s', p, r) && StableIn(less, all, s0, s', p, r)
  {
    SamePart(less, s0, s, p, q);
    SamePart(less, s0, s, q, r);
    TwoRunsBecomeOne(less, all, s0, s', p, q, r);
  }

  /** The counts of a pass after one more turn. */
  lemma TurnCounts<T>(less: (T, T) -> bool, s0: seq<T>, s: seq<T>, s': seq<T>, p: nat, q: nat, r: nat, cnt: nat)
    requires 1 <= p < q < r < |s| == |s'| && SameFrom(s0, s, p) && (forall h: nat | h < p :: s'[h] == s[h])
    requires RunIn(less, s0, p, q) && RunIn(less, s0, q, r) && RunIn(less, s', p, r)
    requires less(s[q], s[q - 1]) && (r < |s| - 1 ==> less(s[r], s[r - 1]))
    requires Runs(less, s, 1, p) <= cnt && Runs(less, s0, 1, |s0| - 1) == 2 * cnt + Runs(less, s0, p, |s0| - 1)
    ensures Runs(less, s', 1, r) <= cnt + 1
    ensures Runs(less, s0, 1, |s0| - 1) == 2 * (cnt + 1) + Runs(less, s0, r, |s0| - 1)
  {
    DoneRuns(less, s, s', p, r);
    RestRuns(less, s0, p, q, r, |s0| - 1);
  }

  lemma PassTurn<T>(less: (T, T) -> bool, all: set<T>, s0: seq<T>, s: seq<T>, s': seq<T>, p: nat, q: nat, r: nat, cnt: nat)
    requires StrictWeakOrder(less, all) && |s0| >= 2 && Inside(all, s0) && Passed(less, all, s0, s, p, cnt)
    requires p < q < r < |s| && RunIn(less, s, p, q) && RunIn(less, s, q, r)
    requires less(s[q], s[q - 1]) && (r < |s| - 1 ==> less(s[r], s[r - 1]))
    requires Replaced(s, s', p, r, Merge(less, s[p..q], s[q..r]))
    ensures Passed(less, all, s0, s', r, cnt + 1)
  {
    MergedStretch(less, all, s0, s, s', p, q, r);
    StableDone(less, all, s0, s, s', p, r);
    TurnCounts(less, s0, s, s', p, q, r, cnt);
  }

  lemma SamePart<T>(less: (T, T) -> bool, s0: seq<T>, s: seq<T>, p: nat, q: nat)
    requires p <= q < |s| && SameFrom(s0, s, p) && RunIn(less, s, p, q)
    ensures s[p..q] == s0[p..q] && RunIn(less, s0, p, q)
  {
    forall i: nat | p < i < q ensures InOrder(less, s0, i) {
      assert InOrder(less, s, i);
    }
  }

  lemma DoneRuns<T>(less: (T, T) -> bool, s: seq<T>, s': seq<T>, p: nat, r: nat)
    requires 1 <= p < r < |s| == |s'| && RunIn(less, s', p, r) && forall h: nat | h < p :: s'[h] == s[h]
    ensures Runs(less, s', 1, r) <= Runs(less, s, 1, p) + 1
  {
    SameRuns(less, s, s', 1, p);
    AppendRun(less, s', 1, p, r);
  }

  lemma RestRuns<T>(less: (T, T) -> bool, s0: seq<T>, p: nat, q: nat, r: nat, e: nat)
    requires p < q < r <= e < |s0| && RunIn(less, s0, p, q) && RunIn(less, s0, q, r)
    requires less(s0[q], s0[q - 1]) && (r < e ==> less(s0[r], s0[r - 1]))
    ensures Runs(less, s0, p, e) == 2 + Runs(less, s0, r, e)
  {
    BreakBetween(less, s0, p, q, e);
    BreakBetween(less, s0, q, r, e);
  }

  lemma PartFrom<T>(all: set<T>, s: seq<T>, p: nat, q: nat)
    requires 1 <= p <= q < |s| && Inside(all, s)
    ensures From(all, s[p..q])
  {
  }

  /** What a pass over s0 has done when it ends after making cnt runs. */
  ghost predicate PassedOver<T>(less: (T, T) -> bool, all: set<T>, s0: seq<T>, s: seq<T>, cnt: nat) {
    && |s| == |s0| >= 2 && StableIn(less, all, s0, s, 1, |s| - 1)
    && Runs(less, s, 1, |s| - 1) <= cnt && 2 * cnt - 1 <= Runs(less, s0, 1, |s0| - 1) <= 2 * cnt
  }

  /** A last run without a partner stays as it is. */
  lemma PassEndsWithRun<T>(less: (T, T) -> bool, all: set<T>, s0: seq<T>, s: seq<T>, p: nat, cnt: nat)
    requires Passed(less, all, s0, s, p, cnt) && p < |s| - 1 && RunIn(less, s, p, |s| - 1)
    ensures PassedOver(less, all, s0, s, cnt + 1)
  {
    var e := |s| - 1;
    AppendRun(less, s, 1, p, e);
    SamePart(less, s0, s, p, e);
    OneRun(less, s0, p, e);
    StableSame(less, all, s0, s, p, e);
    StableJoin(less, all, s0, s, 1, p, e);
  }

  lemma StillFrom<T>(less: (T, T) -> bool, all: set<T>, s: seq<T>, s': seq<T>, p: nat, q: nat, r: nat)
    requires 1 <= p <= q <= r < |s| && Inside(all, s) && Replaced(s, s', p, r, Merge(less, s[p..q], s[q..r]))
    ensures Inside(all, s')
  {
    PartFrom(all, s, p, q);
    PartFrom(all, s, q, r);
    MergeIsFrom(less, all, s[p..q], s[q..r]);
    forall i: nat | 1 <= i < |s'| - 1 ensures s'[i] in all {
      if p <= i < r {
        assert s'[i] == s'[p..r][i - p];
      }
    }
  }

  // ---- the list

  /** Merges the run that starts at a0 with the next one; false when there is no next one. */
  method MergeNext(list: List, less: (Elem, Elem) -> bool, a0: Elem, ghost all: set<Elem>, ghost s0: seq<Elem>, ghost p: nat, ghost cnt: nat)
    returns (more: bool, b1: Elem, ghost r: nat)
    requires list.Valid() && StrictWeakOrder(less, all) && Inside(all, list.nodes)
    requires |s0| >= 2 && Inside(all, s0) && p < |s0| - 1
    requires Passed(less, all, s0, list.nodes, p, cnt) && list.nodes[p] == a0
    modifies list`nodes, list.repr
    ensures list.Valid() && |list.nodes| == |s0| && Inside(all, list.nodes)
    ensures !more ==> PassedOver(less, all, s0, list.nodes, cnt + 1)
    ensures more ==> p < r < |s0| && Passed(less, all, s0, list.nodes, r, cnt + 1) && list.nodes[r] == b1
  {
    ghost var s, e := list.nodes, |list.nodes| - 1;
    var a1b0;
    ghost var q;
    a1b0, q := list.FindEndOfRun(less, a0, list.tail, p, e);
    if a1b0 == list.tail {
      PassEndsWithRun(less, all, s0, s, p, cnt);
      return false, a1b0, 0;
    }
    more := true;
    b1, r := list.FindEndOfRun(less, a1b0, list.tail, q, e);
    MergeTwo(list, less, a0, a1b0, b1, all, s0, p, q, r, cnt);
  }

  /** The merge of the two runs at a0 and a1b0 within a pass. */
  method MergeTwo(list: List, less: (Elem, Elem) -> bool, a0: Elem, a1b0: Elem, b1: Elem, ghost all: set<Elem>, ghost s0: seq<Elem>,
                  ghost p: nat, ghost q: nat, ghost r: nat, ghost cnt: nat)
    requires list.Valid() && StrictWeakOrder(less, all) && Inside(all, list.nodes)
    requires |s0| >= 2 && Inside(all, s0) && Passed(less, all, s0, list.nodes, p, cnt)
    requires p < q < r < |s0| && list.nodes[p] == a0 && list.nodes[q] == a1b0 && list.nodes[r] == b1
    requires RunIn(less, list.nodes, p, q) && RunIn(less, list.nodes, q, r)
    requires less(a1b0, list.nodes[q - 1]) && (r < |s0| - 1 ==> less(b1, list.nodes[r - 1]))
    modifies list`nodes, list.repr
    ensures list.Valid() && |list.nodes| == |s0| && Inside(all, list.nodes)
    ensures Passed(less, all, s0, list.nodes, r, cnt + 1) && list.nodes[r] == b1
  {
    ghost var s := list.nodes;
    list.InplaceMerge(less, a0, a1b0, b1, p, q, r);
    PassTurn(less, all, s0, s, list.nodes, p, q, r, cnt);
    StillFrom(less, all, s, list.nodes, p, q, r);
  }

  /** One pass of list_sort: adjacent runs are merged in pairs. */
  method Pass(list: List, less: (Elem, Elem) -> bool, ghost all: set<Elem>) returns (cnt: nat)
    requires list.Valid() && StrictWeakOrder(less, all) && Inside(all, list.nodes)
    modifies list`nodes, list.repr
    ensures list.Valid() && Inside(all, list.nodes) && PassedOver(less, all, old(list.nodes), list.nodes, cnt)
  {
    ghost var s0 := list.nodes;
    var a0 := list.Next(list.head, 0);
    ghost var p: nat := 1;
    cnt := 0;
    while a0 != list.tail
      invariant list.Valid() && |list.nodes| == |s0| && 1 <= p < |s0| && Inside(all, list.nodes)
      invariant Passed(less, all, s0, list.nodes, p, cnt) && list.nodes[p] == a0
      decreases |s0| - p
    {
      var more;
      more, a0, p := MergeNext(list, less, a0, all, s0, p, cnt);
      cnt := cnt + 1;
      if !more {
        return;
      }
    }
  }

  lemma FewRunsAreSorted<T>(less: (T, T) -> bool, all: set<T>, s: seq<T>)
    requires StrictWeakOrder(less, all) && |s| >= 2 && Inside(all, s) && Runs(less, s, 1, |s| - 1) <= 1
    ensures Sorted(less, s[1..|s| - 1])
  {
    if |s| > 2 {
      OneRun(less, s, 1, |s| - 1);
      SortedParts(less, all, s, 1, |s| - 1);
    }
  }

  lemma InsideAll<T>(s: seq<T>)
    requires |s| >= 2
    ensures Inside(Elements(s[1..|s| - 1]), s)
  {
    var c := s[1..|s| - 1];
    assert forall i: nat | 1 <= i < |s| - 1 :: s[i] == c[i - 1];
  }

  lemma SortDone<T>(less: (T, T) -> bool, all: set<T>, s0: seq<T>, s: seq<T>)
    requires StrictWeakOrder(less, all) && |s| == |s0| >= 2 && Inside(all, s0) && Inside(all, s)
    requires StableIn(less, all, s0, s, 1, |s| - 1) && Runs(less, s, 1, |s| - 1) <= 1
    ensures Sorted(less, s[1..|s| - 1]) && multiset(s[1..|s| - 1]) == multiset(s0[1..|s| - 1])
    ensures Stable(less, all, s0[1..|s| - 1], s[1..|s| - 1])
  {
    FewRunsAreSorted(less, all, s);
    PartFrom(all, s, 1, |s| - 1);
    PartFrom(all, s0, 1, |s| - 1);
    StableSlice(less, all, s0, s, 1, |s| - 1);
    StableIsPermutation(less, all, s0[1..|s| - 1], s[1..|s| - 1]);
  }

  lemma PassMeans<T>(less: (T, T) -> bool, all: set<T>, s0: seq<T>, s: seq<T>, cnt: nat)
    requires PassedOver(less, all, s0, s, cnt)
    ensures |s| == |s0| >= 2 && StableIn(less, all, s0, s, 1, |s| - 1)
    ensures Runs(less, s, 1, |s| - 1) <= cnt && 2 * cnt - 1 <= Runs(less, s0, 1, |s0| - 1) <= 2 * cnt
  {
  }

  lemma StableMore<T>(less: (T, T) -> bool, all: set<T>, s0: seq<T>, s1: seq<T>, s2: seq<T>, p: nat, q: nat)
    requires q <= |s0| == |s1| == |s2| && StableIn(less, all, s0, s1, p, q) && StableIn(less, all, s1, s2, p, q)
    ensures StableIn(less, all, s0, s2, p, q)
  {
  }

  /** The passes of list_sort: every one but the last leaves fewer runs, so they end. */
  method Passes(list: List, less: (Elem, Elem) -> bool, ghost all: set<Elem>)
    requires list.Valid() && StrictWeakOrder(less, all) && Inside(all, list.nodes)
    modifies list`nodes, list.repr
    ensures list.Valid() && Inside(all, list.nodes) && |list.nodes| == |old(list.nodes)|
    ensures StableIn(less, all, old(list.nodes), list.nodes, 1, |list.nodes| - 1)
    ensures Runs(less, list.nodes, 1, |list.nodes| - 1) <= 1
  {
    hide *;
    ghost var s0 := list.nodes;
    var cnt := Pass(list, less, all);
    PassMeans(less, all, s0, list.nodes, cnt);
    while cnt > 1
      invariant list.Valid() && Inside(all, list.nodes) && |list.nodes| == |s0|
      invariant StableIn(less, all, s0, list.nodes, 1, |s0| - 1)
      invariant Runs(less, list.nodes, 1, |list.nodes| - 1) <= cnt
      decreases Runs(less, list.nodes, 1, |list.nodes| - 1), cnt
    {
      ghost var s1 := list.nodes;
      cnt := Pass(list, less, all);
      PassMeans(less, all, s1, list.nodes, cnt);
      StableMore(less, all, s0, s1, list.nodes, 1, |s0| - 1);
    }
  }

  /** list_sort: the list becomes a sorted, stable permutation of what it was. */
  method Sort(list: List, less: (Elem, Elem) -> bool)
    requires list.Valid() && StrictWeakOrder(less, Elements(list.Contents()))
    modifies list`nodes, list.repr
    ensures list.Valid() && Sorted(less, list.Contents()) && multiset(list.Contents()) == multiset(old(list.Contents()))
    ensures Stable(less, Elements(old(list.Contents())), old(list.Contents()), list.Contents())
  {
    hide StrictWeakOrder, Sorted, Stable, StableIn, Runs, Inside, Elements;
    ghost var s0 := list.nodes;
    ghost var all := Elements(list.Contents());
    InsideAll(s0);
    Passes(list, less, all);
    SortDone(less, all, s0, list.nodes);
  }

  // ---- ordered insertion

  /** e placed just before the first element it is less than. */
  ghost predicate IsInserted<T>(less: (T, T) -> bool, c: seq<T>, e: T, c': seq<T>, i: nat) {
    && i <= |c| && c' == c[..i] + [e] + c[i..]
    && (forall k: nat | k < i :: !less(e, c[k])) && (i < |c| ==> less(e, c[i]))
  }

  /** Ordered insertion keeps a list sorted and puts e after the elements equivalent to it. */
  lemma InsertionKeepsOrder<T>(less: (T, T) -> bool, all: set<T>, c: seq<T>, e: T, c': seq<T>, i: nat, x: T)
    requires StrictWeakOrder(less, all) && From(all, c) && e in all && Sorted(less, c) && IsInserted(less, c, e, c', i)
    requires x in all
    ensures Sorted(less, c')
    ensures Peers(less, c', x) == Peers(less, c, x) + if less(e, x) || less(x, e) then [] else [e]
  {
    AllAfter(less, all, c, e, i);
    assert forall k: nat | i <= k < |c| :: Asymmetric(less, e, c[k]);
    InsertedSorted(less, c, e, c', i);
    assert c == c[..i] + c[i..];
    InsertedPeers(less, all, c[..i], e, c[i..], x);
  }

  lemma InsertedPeers<T>(less: (T, T) -> bool, all: set<T>, a: seq<T>, e: T, b: seq<T>, x: T)
    requires StrictWeakOrder(less, all) && e in all && x in all && From(all, b)
    requires forall k: nat | k < |b| :: less(e, b[k])
    ensures Peers(less, a + [e] + b, x) == Peers(less, a + b, x) + if less(e, x) || less(x, e) then [] else [e]
  {
    PeersOfBoth(less, a, b, x);
    PeersOfBoth(less, a + [e], b, x);
    PeersOfBoth(less, a, [e], x);
    if !less(e, x) && !less(x, e) {
      NoPeers(less, all, b, e, x);
    }
  }

  lemma AllAfter<T>(less: (T, T) -> bool, all: set<T>, c: seq<T>, e: T, i: nat)
    requires StrictWeakOrder(less, all) && From(all, c) && e in all && Sorted(less, c) && i <= |c| && (i < |c| ==> less(e, c[i]))
    ensures forall k: nat | i <= k < |c| :: less(e, c[k])
  {
    if i < |c| {
      AllAbove(less, all, e, c[i..]);
      assert forall k: nat | i <= k < |c| :: c[k] == c[i..][k - i];
    }
  }

  lemma InsertedSorted<T>(less: (T, T) -> bool, c: seq<T>, e: T, c': seq<T>, i: nat)
    requires Sorted(less, c) && IsInserted(less, c, e, c', i)
    requires forall k: nat | i <= k < |c| :: less(e, c[k]) && !less(c[k], e)
    ensures Sorted(less, c')
  {
    forall j: nat, k: nat | j < k < |c'| ensures !less(c'[k], c'[j]) {
      var j', k' := if j < i then j else j - 1, if k < i then k else k - 1;
      assert j != i ==> c'[j] == c[j'];
      assert k != i ==> c'[k] == c[k'];
    }
  }

  /** list_insert_ordered. */
  method InsertOrdered(list: List, elem: Elem, less: (Elem, Elem) -> bool) returns (ghost i: nat)
    requires list.Valid() && elem !in list.repr
    modifies list`nodes, list`repr, list.repr, elem
    ensures list.Valid() && IsInserted(less, old(list.Contents()), elem, list.Contents(), i)
  {
    ghost var s := list.nodes;
    var e := list.Next(list.head, 0);
    i := 0;
    while e != list.tail
      invariant i < |s| - 1 && s[i + 1] == e && forall k: nat | 1 <= k <= i :: !less(elem, s[k])
      decreases |s| - i
    {
      if less(elem, e) {
        break;
      }
      e, i := list.Next(e, i + 1), i + 1;
    }
    list.Insert(e, elem, i + 1);
    InsertedContents(s, elem, i);
  }

  lemma InsertedContents<T>(s: seq<T>, e: T, i: nat)
    requires i + 1 < |s|
    ensures var s', c := s[..i + 1] + [e] + s[i + 1..], s[1..|s| - 1];
            s'[1..|s'| - 1] == c[..i] + [e] + c[i..] && forall k: nat | k < |c| :: c[k] == s[k + 1]
  {
  }
}
