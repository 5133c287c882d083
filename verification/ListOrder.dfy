/** Orders, natural runs and the merge of two runs, on sequences (lib/kernel/list.c:357-440). */
module ListOrder {

  ghost predicate Asymmetric<T>(less: (T, T) -> bool, x: T, y: T) {
    less(x, y) ==> !less(y, x)
  }

  ghost predicate NegativelyTransitive<T>(less: (T, T) -> bool, x: T, y: T, z: T) {
    !less(x, y) && !less(y, z) ==> !less(x, z)
  }

  /** less is a strict weak order on the elements of all: asymmetric and negatively transitive. */
  ghost predicate StrictWeakOrder<T>(less: (T, T) -> bool, all: set<T>) {
    && (forall x, y {:trigger Asymmetric(less, x, y)} | x in all && y in all :: Asymmetric(less, x, y))
    && (forall x, y, z {:trigger NegativelyTransitive(less, x, y, z)} | x in all && y in all && z in all ::
          NegativelyTransitive(less, x, y, z))
  }

  ghost function Elements<T>(s: seq<T>): set<T> {
    set x | x in s
  }

  ghost predicate From<T>(all: set<T>, s: seq<T>) {
    forall i: nat | i < |s| :: s[i] in all
  }

  /** Nondecreasing: no later element is less than an earlier one. */
  ghost predicate Sorted<T>(less: (T, T) -> bool, s: seq<T>) {
    forall i: nat, j: nat | i < j < |s| :: !less(s[j], s[i])
  }

  /** The elements of s equivalent to x, in order. */
  ghost function Peers<T>(less: (T, T) -> bool, s: seq<T>, x: T): seq<T> {
    if s == [] then []
    else (if less(s[0], x) || less(x, s[0]) then [] else [s[0]]) + Peers(less, s[1..], x)
  }

  /** t has the elements of s that are equivalent to any of all, and in the same order. */
  ghost predicate Stable<T>(less: (T, T) -> bool, all: set<T>, s: seq<T>, t: seq<T>) {
    forall x | x in all :: Peers(less, t, x) == Peers(less, s, x)
  }

  lemma Front<T>(s: seq<T>)
    requires s != []
    ensures multiset(s) == multiset{s[0]} + multiset(s[1..])
  {
    assert s == [s[0]] + s[1..];
  }

  lemma {:induction false} PeersCount<T>(less: (T, T) -> bool, s: seq<T>, x: T)
    requires !less(x, x)
    ensures multiset(s)[x] == multiset(Peers(less, s, x))[x]
  {
    if s != [] {
      var rest := Peers(less, s[1..], x);
      PeersCount(less, s[1..], x);
      Front(s);
      assert multiset([s[0]] + rest) == multiset{s[0]} + multiset(rest);
    }
  }

  /** A stable rearrangement is a permutation. */
  lemma StableIsPermutation<T>(less: (T, T) -> bool, all: set<T>, s: seq<T>, t: seq<T>)
    requires StrictWeakOrder(less, all) && From(all, s) && From(all, t) && Stable(less, all, s, t)
    ensures multiset(t) == multiset(s)
  {
    forall x | x in multiset(s) || x in multiset(t) ensures multiset(t)[x] == multiset(s)[x] {
      assert x in s || x in t;
      assert Asymmetric(less, x, x);
      PeersCount(less, s, x);
      PeersCount(less, t, x);
    }
  }

  lemma {:induction false} PeersOfBoth<T>(less: (T, T) -> bool, s: seq<T>, t: seq<T>, x: T)
    ensures Peers(less, s + t, x) == Peers(less, s, x) + Peers(less, t, x)
  {
    if s == [] {
      assert s + t == t;
    } else {
      assert (s + t)[1..] == s[1..] + t;
      PeersOfBoth(less, s[1..], t, x);
    }
  }

  /** The same for the elements of s from p to q. */
  ghost function PeersIn<T>(less: (T, T) -> bool, s: seq<T>, p: nat, q: nat, x: T): seq<T>
    requires q <= |s|
    decreases q
  {
    if p >= q then []
    else PeersIn(less, s, p, q - 1, x) + (if less(s[q - 1], x) || less(x, s[q - 1]) then [] else [s[q - 1]])
  }

  /** From p to q, t is a stable rearrangement of s. */
  ghost predicate StableIn<T>(less: (T, T) -> bool, all: set<T>, s: seq<T>, t: seq<T>, p: nat, q: nat)
    requires q <= |s| && q <= |t|
  {
    forall x | x in all :: PeersIn(less, t, p, q, x) == PeersIn(less, s, p, q, x)
  }

  lemma {:induction false} PeersOfSlice<T>(less: (T, T) -> bool, s: seq<T>, p: nat, q: nat, x: T)
    requires p <= q <= |s|
    ensures PeersIn(less, s, p, q, x) == Peers(less, s[p..q], x)
    decreases q
  {
    if p < q {
      PeersOfSlice(less, s, p, q - 1, x);
      assert s[p..q] == s[p..q - 1] + [s[q - 1]];
      PeersOfBoth(less, s[p..q - 1], [s[q - 1]], x);
    }
  }

  lemma StableSlice<T>(less: (T, T) -> bool, all: set<T>, s: seq<T>, t: seq<T>, p: nat, q: nat)
    requires p <= q <= |s| && q <= |t|
    ensures StableIn(less, all, s, t, p, q) <==> Stable(less, all, s[p..q], t[p..q])
  {
    forall x | x in all
      ensures PeersIn(less, t, p, q, x) == Peers(less, t[p..q], x) && PeersIn(less, s, p, q, x) == Peers(less, s[p..q], x)
    {
      PeersOfSlice(less, s, p, q, x);
      PeersOfSlice(less, t, p, q, x);
    }
  }

  lemma {:induction false} PeersJoin<T>(less: (T, T) -> bool, s: seq<T>, p: nat, q: nat, r: nat, x: T)
    requires p <= q <= r <= |s|
    ensures PeersIn(less, s, p, r, x) == PeersIn(less, s, p, q, x) + PeersIn(less, s, q, r, x)
    decreases r
  {
    if q < r {
      PeersJoin(less, s, p, q, r - 1, x);
    }
  }

  lemma {:induction false} SamePeers<T>(less: (T, T) -> bool, s: seq<T>, t: seq<T>, p: nat, q: nat, x: T)
    requires q <= |s| && q <= |t| && forall i: nat | p <= i < q :: t[i] == s[i]
    ensures PeersIn(less, t, p, q, x) == PeersIn(less, s, p, q, x)
    decreases q
  {
    if p < q {
      SamePeers(less, s, t, p, q - 1, x);
    }
  }

  lemma StableJoin<T>(less: (T, T) -> bool, all: set<T>, s: seq<T>, t: seq<T>, p: nat, q: nat, r: nat)
    requires p <= q <= r <= |s| && r <= |t| && StableIn(less, all, s, t, p, q) && StableIn(less, all, s, t, q, r)
    ensures StableIn(less, all, s, t, p, r)
  {
    forall x | x in all ensures PeersIn(less, t, p, r, x) == PeersIn(less, s, p, r, x) {
      PeersJoin(less, s, p, q, r, x);
      PeersJoin(less, t, p, q, r, x);
    }
  }

  lemma StableSame<T>(less: (T, T) -> bool, all: set<T>, s: seq<T>, t: seq<T>, p: nat, q: nat)
    requires q <= |s| && q <= |t| && forall i: nat | p <= i < q :: t[i] == s[i]
    ensures StableIn(less, all, s, t, p, q)
  {
    forall x | x in all ensures PeersIn(less, t, p, q, x) == PeersIn(less, s, p, q, x) {
      SamePeers(less, s, t, p, q, x);
    }
  }

  // ---- merging

  ghost function Merge<T>(less: (T, T) -> bool, a: seq<T>, b: seq<T>): seq<T>
    decreases |a| + |b|
  {
    if a == [] then b
    else if b == [] then a
    else if !less(b[0], a[0]) then [a[0]] + Merge(less, a[1..], b)
    else [b[0]] + Merge(less, a, b[1..])
  }

  lemma {:induction false} MergePermutes<T>(less: (T, T) -> bool, a: seq<T>, b: seq<T>)
    ensures multiset(Merge(less, a, b)) == multiset(a) + multiset(b)
    ensures |Merge(less, a, b)| == |a| + |b|
    decreases |a| + |b|
  {
    if a != [] && b != [] {
      if !less(b[0], a[0]) {
        MergePermutes(less, a[1..], b);
        Front(a);
      } else {
        MergePermutes(less, a, b[1..]);
        Front(b);
      }
    }
  }

  lemma MergeIsFrom<T>(less: (T, T) -> bool, all: set<T>, a: seq<T>, b: seq<T>)
    requires From(all, a) && From(all, b)
    ensures From(all, Merge(less, a, b))
  {
    MergePermutes(less, a, b);
    var m := Merge(less, a, b);
    forall i: nat | i < |m| ensures m[i] in all {
      assert m[i] in multiset(m);
      assert m[i] in multiset(a) || m[i] in multiset(b);
    }
  }

  /** Nothing in a sorted sequence that starts with y is less than x, if y is not. */
  lemma NotBelow<T>(less: (T, T) -> bool, all: set<T>, x: T, s: seq<T>)
    requires StrictWeakOrder(less, all) && x in all && From(all, s) && Sorted(less, s)
    requires s != [] ==> !less(s[0], x)
    ensures forall i: nat | i < |s| :: !less(s[i], x)
  {
    forall i: nat | i < |s| ensures !less(s[i], x) {
      if i > 0 {
        assert NegativelyTransitive(less, s[i], s[0], x);
      }
    }
  }

  lemma PutFirst<T>(less: (T, T) -> bool, x: T, s: seq<T>)
    requires Sorted(less, s) && forall i: nat | i < |s| :: !less(s[i], x)
    ensures Sorted(less, [x] + s)
  {
  }

  lemma NoneBelowInMerge<T>(less: (T, T) -> bool, a: seq<T>, b: seq<T>, x: T)
    requires forall i: nat | i < |a| :: !less(a[i], x)
    requires forall i: nat | i < |b| :: !less(b[i], x)
    ensures forall i: nat | i < |Merge(less, a, b)| :: !less(Merge(less, a, b)[i], x)
  {
    MergePermutes(less, a, b);
    var m := Merge(less, a, b);
    forall i: nat | i < |m| ensures !less(m[i], x) {
      assert m[i] in multiset(m);
      assert m[i] in multiset(a) || m[i] in multiset(b);
    }
  }

  lemma {:induction false} MergeIsSorted<T>(less: (T, T) -> bool, all: set<T>, a: seq<T>, b: seq<T>)
    requires StrictWeakOrder(less, all) && From(all, a) && From(all, b) && Sorted(less, a) && Sorted(less, b)
    ensures Sorted(less, Merge(less, a, b))
    decreases |a| + |b|
  {
    if a != [] && b != [] {
      if !less(b[0], a[0]) {
        MergeIsSorted(less, all, a[1..], b);
        NotBelow(less, all, a[0], b);
        NoneBelowInMerge(less, a[1..], b, a[0]);
        PutFirst(less, a[0], Merge(less, a[1..], b));
      } else {
        MergeIsSorted(less, all, a, b[1..]);
        assert Asymmetric(less, b[0], a[0]);
        NotBelow(less, all, b[0], a);
        NoneBelowInMerge(less, a, b[1..], b[0]);
        PutFirst(less, b[0], Merge(less, a, b[1..]));
      }
    }
  }

  /** An element before everything in a sorted sequence has no equivalent there. */
  lemma {:induction false} NoPeers<T>(less: (T, T) -> bool, all: set<T>, s: seq<T>, y: T, x: T)
    requires StrictWeakOrder(less, all) && From(all, s) && x in all && y in all
    requires !less(y, x) && !less(x, y) && forall i: nat | i < |s| :: less(y, s[i])
    ensures Peers(less, s, x) == []
  {
    if s != [] {
      NoPeers(less, all, s[1..], y, x);
      assert less(y, s[0]) && NegativelyTransitive(less, y, x, s[0]);
    }
  }

  lemma AllAbove<T>(less: (T, T) -> bool, all: set<T>, y: T, s: seq<T>)
    requires StrictWeakOrder(less, all) && y in all && From(all, s) && Sorted(less, s) && s != [] && less(y, s[0])
    ensures forall i: nat | i < |s| :: less(y, s[i])
  {
    forall i: nat | i < |s| ensures less(y, s[i]) {
      assert i > 0 ==> !less(s[i], s[0]);
      assert NegativelyTransitive(less, y, s[i], s[0]);
    }
  }

  lemma TailIsSorted<T>(less: (T, T) -> bool, all: set<T>, s: seq<T>)
    requires s != [] && From(all, s) && Sorted(less, s)
    ensures From(all, s[1..]) && Sorted(less, s[1..]) && s[0] in all
  {
  }

  lemma PeersOfFront<T>(less: (T, T) -> bool, y: T, s: seq<T>, x: T)
    ensures Peers(less, [y] + s, x) == (if less(y, x) || less(x, y) then [] else [y]) + Peers(less, s, x)
  {
    assert ([y] + s)[1..] == s;
  }

  lemma {:induction false} MergeIsStable<T>(less: (T, T) -> bool, all: set<T>, a: seq<T>, b: seq<T>, x: T)
    requires StrictWeakOrder(less, all) && From(all, a) && From(all, b) && Sorted(less, a) && Sorted(less, b) && x in all
    ensures Peers(less, Merge(less, a, b), x) == Peers(less, a, x) + Peers(less, b, x)
    decreases |a| + |b|
  {
    hide StrictWeakOrder, Sorted, From;
    if a != [] && b != [] {
      TailIsSorted(less, all, a);
      TailIsSorted(less, all, b);
      if !less(b[0], a[0]) {
        MergeIsStable(less, all, a[1..], b, x);
        PeersOfFront(less, a[0], Merge(less, a[1..], b), x);
      } else {
        MergeIsStable(less, all, a, b[1..], x);
        PeersOfFront(less, b[0], Merge(less, a, b[1..]), x);
        if !less(b[0], x) && !less(x, b[0]) {
          AllAbove(less, all, b[0], a);
          NoPeers(less, all, a, b[0], x);
        }
      }
    }
  }

  // ---- natural runs

  /** The number of maximal nondecreasing runs among the elements of s from p to q. */
  ghost function Runs<T>(less: (T, T) -> bool, s: seq<T>, p: nat, q: nat): nat
    requires q <= |s|
    decreases q
  {
    if p >= q then 0
    else if p + 1 == q then 1
    else Runs(less, s, p, q - 1) + (if less(s[q - 1], s[q - 2]) then 1 else 0)
  }

  ghost predicate InOrder<T>(less: (T, T) -> bool, s: seq<T>, i: nat)
    requires 0 < i < |s|
  {
    !less(s[i], s[i - 1])
  }

  /** The elements of s from p to q form a run: no adjacent pair is out of order. */
  ghost predicate RunIn<T>(less: (T, T) -> bool, s: seq<T>, p: nat, q: nat)
    requires q <= |s|
  {
    forall i: nat | p < i < q :: InOrder(less, s, i)
  }

  lemma {:induction false} RunIsSorted<T>(less: (T, T) -> bool, all: set<T>, s: seq<T>, p: nat, q: nat)
    requires StrictWeakOrder(less, all) && q <= |s| && (forall i: nat | p <= i < q :: s[i] in all) && RunIn(less, s, p, q)
    ensures forall i: nat, j: nat | p <= i < j < q :: !less(s[j], s[i])
    decreases q
  {
    if p + 1 < q {
      RunIsSorted(less, all, s, p, q - 1);
      forall i: nat | p <= i < q - 1 ensures !less(s[q - 1], s[i]) {
        assert InOrder(less, s, q - 1) && NegativelyTransitive(less, s[q - 1], s[q - 2], s[i]);
      }
    }
  }

  lemma {:induction false} OneRun<T>(less: (T, T) -> bool, s: seq<T>, p: nat, q: nat)
    requires p < q <= |s|
    ensures Runs(less, s, p, q) >= 1 && (Runs(less, s, p, q) == 1 <==> RunIn(less, s, p, q))
    decreases q
  {
    if p + 1 < q {
      OneRun(less, s, p, q - 1);
      assert RunIn(less, s, p, q) <==> RunIn(less, s, p, q - 1) && InOrder(less, s, q - 1);
    }
  }

  /** Joining two stretches adds their runs, less one where the joint is in order. */
  lemma {:induction false} RunsOfBoth<T>(less: (T, T) -> bool, s: seq<T>, p: nat, q: nat, r: nat)
    requires p < q < r <= |s|
    ensures Runs(less, s, p, r) == Runs(less, s, p, q) + Runs(less, s, q, r) - (if less(s[q], s[q - 1]) then 0 else 1)
    decreases r
  {
    if q + 1 < r {
      RunsOfBoth(less, s, p, q, r - 1);
    }
  }

  lemma {:induction false} SameRuns<T>(less: (T, T) -> bool, s: seq<T>, t: seq<T>, p: nat, q: nat)
    requires q <= |s| && q <= |t| && forall i: nat | p <= i < q :: t[i] == s[i]
    ensures Runs(less, t, p, q) == Runs(less, s, p, q)
    decreases q
  {
    if p + 1 < q {
      SameRuns(less, s, t, p, q - 1);
    }
  }
}
