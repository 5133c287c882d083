/** Doubly linked lists between two sentinels (lib/kernel/list.c). */
module LinkedLists {
  import opened Sequences
  import opened ListOrder

  class Elem {
    var prev: Elem?
    var next: Elem?

    constructor ()
    {
    }
  }

  ghost predicate Forward(s: seq<Elem>)
    reads s
  {
    forall i: nat | i < |s| - 1 :: s[i].next == s[i + 1]
  }

  ghost predicate Backward(s: seq<Elem>)
    reads s
  {
    forall i: nat | 0 < i < |s| :: s[i].prev == s[i - 1]
  }

  /** Where element i comes from when the elements f to l (exclusive) move to just before element p. */
  function Origin(p: nat, f: nat, l: nat, i: nat): nat
    requires f <= l && (p < f || l <= p)
  {
    if p < f then (if i < p || l <= i then i else if i < p + (l - f) then i - p + f else i - (l - f))
    else (if i < f || p <= i then i else if i < f + (p - l) then i - f + l else i - (p - l))
  }

  /** s with the elements f to l (exclusive) moved to just before element p. */
  function Spliced<T>(s: seq<T>, p: nat, f: nat, l: nat): (r: seq<T>)
    requires f <= l <= |s| && p <= |s| && (p < f || l <= p)
    ensures |r| == |s|
  {
    seq(|s|, i requires 0 <= i < |s| => s[Origin(p, f, l, i)])
  }

  /** r is s after that move. */
  ghost predicate IsSpliced<T>(s: seq<T>, r: seq<T>, p: nat, f: nat, l: nat)
    requires f <= l <= |s| && p <= |s| && (p < f || l <= p)
  {
    |r| == |s| && forall i: nat | i < |s| :: Origin(p, f, l, i) < |s| && r[i] == s[Origin(p, f, l, i)]
  }

  lemma SplicedFrom<T>(s: seq<T>, p: nat, f: nat, l: nat)
    requires f <= l <= |s| && p <= |s| && (p < f || l <= p)
    ensures IsSpliced(s, Spliced(s, p, f, l), p, f, l)
  {
  }

  /** The elements f to l (exclusive) cut out and joined in just before element p. */
  function Cut<T>(s: seq<T>, p: nat, f: nat, l: nat): seq<T>
    requires f <= l <= |s| && p <= |s| && (p < f || l <= p)
  {
    if p < f then s[..p] + s[f..l] + s[p..f] + s[l..] else s[..f] + s[l..p] + s[f..l] + s[p..]
  }

  /** Place by place, that is the splice. */
  lemma SplicedIsCut<T>(s: seq<T>, r: seq<T>, p: nat, f: nat, l: nat)
    requires f <= l <= |s| && p <= |s| && (p < f || l <= p) && IsSpliced(s, r, p, f, l)
    ensures r == Cut(s, p, f, l)
  {
    assert forall i: nat | i < |s| :: Cut(s, p, f, l)[i] == r[i];
  }

  lemma SplicedNoDup<T>(s: seq<T>, p: nat, f: nat, l: nat)
    requires NoDup(s) && f <= l <= |s| && p <= |s| && (p < f || l <= p)
    ensures NoDup(Spliced(s, p, f, l)) && |Spliced(s, p, f, l)| == |s|
    ensures forall x | x in Spliced(s, p, f, l) :: x in s
  {
    SplicedFrom(s, p, f, l);
    RearrangedNoDup(s, Spliced(s, p, f, l), p, f, l);
  }

  lemma RearrangedNoDup<T>(s: seq<T>, r: seq<T>, p: nat, f: nat, l: nat)
    requires NoDup(s) && f <= l <= |s| && p <= |s| && (p < f || l <= p) && IsSpliced(s, r, p, f, l)
    ensures NoDup(r) && forall x | x in r :: x in s
  {
    forall i: nat, j: nat | i < j < |r| ensures r[i] != r[j] {
      assert Origin(p, f, l, i) != Origin(p, f, l, j);
    }
  }

  /** The links that list_splice redirects, by the old places of the elements. */
  function NextOf(p: nat, f: nat, l: nat, i: nat): nat {
    if i + 1 == f then l else if i + 1 == p then f else if i + 1 == l then p else i + 1
  }

  lemma NextIsNext(p: nat, f: nat, l: nat, i: nat)
    requires 0 < p && 0 < f < l && (p < f || l < p)
    ensures Origin(p, f, l, i + 1) == NextOf(p, f, l, Origin(p, f, l, i))
  {
  }

  ghost predicate Redirected(s: seq<Elem>, p: nat, f: nat, l: nat)
    requires 0 < p < |s| && 0 < f < l < |s|
    reads s
  {
    forall i: nat | i < |s| - 1 :: s[i].next == s[NextOf(p, f, l, i)] && s[NextOf(p, f, l, i)].prev == s[i]
  }

  /** The redirected links join up the spliced sequence. */
  lemma Rejoined(s: seq<Elem>, r: seq<Elem>, p: nat, f: nat, l: nat)
    requires 0 < p < |s| && 0 < f < l < |s| && (p < f || l < p) && IsSpliced(s, r, p, f, l)
    requires Redirected(s, p, f, l)
    ensures Forward(r) && Backward(r)
  {
    forall i: nat | i < |r| - 1 ensures r[i].next == r[i + 1] && r[i + 1].prev == r[i] {
      NextIsNext(p, f, l, i);
      assert Origin(p, f, l, i) < |s| - 1;
      assert r[i + 1] == s[Origin(p, f, l, i + 1)];
    }
  }

  lemma SplicedChain(s: seq<Elem>, p: nat, f: nat, l: nat, repr: set<Elem>)
    requires forall i: nat | i < |s| :: s[i] in repr
    requires NoDup(s) && 0 < p < |s| && 0 < f < l < |s| && (p < f || l <= p)
    requires if p == l then Forward(s) && Backward(s) else Redirected(s, p, f, l)
    ensures var r := Spliced(s, p, f, l);
            && (forall i: nat | i < |s| :: r[i] in repr)
            && IsSpliced(s, r, p, f, l) && NoDup(r) && r[0] == s[0] && r[|s| - 1] == s[|s| - 1] && Forward(r) && Backward(r)
  {
    SplicedNoDup(s, p, f, l);
    SplicedFrom(s, p, f, l);
    if p == l {
      assert Spliced(s, p, f, l) == s;
    } else {
      Rejoined(s, Spliced(s, p, f, l), p, f, l);
    }
  }

  /** The link writes of list_splice: first to end leaves its place after b and comes to lie before before. */
  method Rewire(before: Elem, first: Elem, end: Elem, ghost a: Elem, ghost b: Elem, ghost c: Elem)
    requires before.prev == a && first.prev == b && end.next == c && c.prev == end
    requires a != b && b != end && first != c && first != before
    requires if before == c then a == end else a != end
    modifies a`next, b`next, end`next, c`prev, first`prev, before`prev
    ensures before != c ==> b.next == c && a.next == first && end.next == before
    ensures before != c ==> c.prev == b && first.prev == a && before.prev == end
    ensures before == c ==> b.next == first && first.prev == b && end.next == c && c.prev == end
  {
    first.prev.next := end.next;
    end.next.prev := first.prev;
    first.prev := before.prev;
    end.next := before;
    before.prev.next := first;
    before.prev := end;
  }

  /** The same on a sequence of elements at places p, f, l - 1 and l. */
  method Relink(before: Elem, first: Elem, end: Elem, ghost s: seq<Elem>, ghost p: nat, ghost f: nat, ghost l: nat)
    requires NoDup(s) && Forward(s) && Backward(s)
    requires 0 < p < |s| && 0 < f < l < |s| && (p < f || l <= p)
    requires s[p] == before && s[f] == first && s[l - 1] == end
    modifies s
    ensures p != l ==> Redirected(s, p, f, l)
    ensures p == l ==> Forward(s) && Backward(s)
    ensures s[0].prev == old(s[0].prev) && s[|s| - 1].next == old(s[|s| - 1].next)
  {
    Rewire(before, first, end, s[p - 1], s[f - 1], s[l]);
    if p == l {
      forall i: nat | i < |s| - 1 ensures s[i].next == s[i + 1] && s[i + 1].prev == s[i] {
        assert old(s[i].next == s[i + 1] && s[i + 1].prev == s[i]);
      }
    } else {
      forall i: nat | i < |s| - 1 && i + 1 != f && i + 1 != p && i + 1 != l
        ensures s[i].next == s[i + 1] && s[i + 1].prev == s[i]
      {
        assert old(s[i].next == s[i + 1] && s[i + 1].prev == s[i]);
      }
    }
  }

  /** Two chains and an element between them that links to both. */
  lemma InsertedChain(s: seq<Elem>, e: Elem, p: nat)
    requires NoDup(s) && e !in s && 0 < p < |s|
    requires forall i: nat | i < |s| - 1 && i != p - 1 :: s[i].next == s[i + 1] && s[i + 1].prev == s[i]
    requires s[p - 1].next == e && e.prev == s[p - 1] && e.next == s[p] && s[p].prev == e
    ensures var r := s[..p] + [e] + s[p..]; NoDup(r) && Forward(r) && Backward(r)
  {
    var r := s[..p] + [e] + s[p..];
    InsertedAt(s, e, p);
    forall i: nat | i < |r| - 1 ensures r[i].next == r[i + 1] && r[i + 1].prev == r[i] {
    }
  }

  lemma InsertedAt<T>(s: seq<T>, e: T, p: nat)
    requires NoDup(s) && e !in s && 0 < p < |s|
    ensures var r := s[..p] + [e] + s[p..];
            && |r| == |s| + 1 && NoDup(r) && r[p] == e
            && (forall i: nat | i < p :: r[i] == s[i]) && (forall i: nat | p < i < |r| :: r[i] == s[i - 1])
  {
  }

  // ---- merging in place

  /** Elements i to p of s are merged; p to q and q to k are what is left of the two runs. */
  ghost predicate Merging(less: (Elem, Elem) -> bool, s0: seq<Elem>, s: seq<Elem>, i: nat, j: nat, k: nat, p: nat, q: nat)
    requires i <= j <= k <= |s0| && i <= p <= q <= k
  {
    && |s| == |s0| && s[..i] == s0[..i] && s[k..] == s0[k..]
    && s[i..p] + Merge(less, s[p..q], s[q..k]) == Merge(less, s0[i..j], s0[j..k])
  }

  lemma MergeKeeps(less: (Elem, Elem) -> bool, s0: seq<Elem>, s: seq<Elem>, i: nat, j: nat, k: nat, p: nat, q: nat)
    requires i <= j <= k <= |s0| && i <= p < q < k && Merging(less, s0, s, i, j, k, p, q) && !less(s[q], s[p])
    ensures Merging(less, s0, s, i, j, k, p + 1, q)
  {
    assert s[p..q][1..] == s[p + 1..q];
    assert s[i..p + 1] == s[i..p] + [s[p]];
  }

  function FrontFrom(p: nat, q: nat, i: nat): nat {
    if p < i <= q then i - 1 else if i == p then q else i
  }

  /** Element q of s has moved to place p. */
  ghost predicate MovedFront<T>(s: seq<T>, s': seq<T>, p: nat, q: nat)
    requires q < |s|
  {
    |s'| == |s| && forall i: nat | i < |s'| :: s'[i] == s[FrontFrom(p, q, i)]
  }

  lemma MovedByOrigin<T>(s: seq<T>, r: seq<T>, p: nat, q: nat)
    requires p < q < |s| && IsSpliced(s, r, p, q, q + 1)
    ensures MovedFront(s, r, p, q)
  {
    assert forall i: nat | i < |s| :: Origin(p, q, q + 1, i) == FrontFrom(p, q, i);
  }

  lemma MergeMoves(less: (Elem, Elem) -> bool, s0: seq<Elem>, s: seq<Elem>, s': seq<Elem>, i: nat, j: nat, k: nat, p: nat, q: nat)
    requires i <= j <= k <= |s0| && i <= p < q < k && Merging(less, s0, s, i, j, k, p, q) && less(s[q], s[p])
    requires MovedFront(s, s', p, q)
    ensures Merging(less, s0, s', i, j, k, p + 1, q + 1)
  {
    assert s'[p + 1..q + 1] == s[p..q];
    assert s'[q + 1..k] == s[q..k][1..];
    assert s'[i..p + 1] == s[i..p] + [s[q]];
  }

  lemma MergeDone(less: (Elem, Elem) -> bool, s0: seq<Elem>, s: seq<Elem>, i: nat, j: nat, k: nat, p: nat, q: nat)
    requires i <= j <= k <= |s0| && i <= p <= q <= k && Merging(less, s0, s, i, j, k, p, q) && (p == q || q == k)
    ensures Replaced(s0, s, i, k, Merge(less, s0[i..j], s0[j..k]))
  {
    assert s[i..p] + s[p..k] == s[i..k];
    forall h: nat | h < i ensures s[h] == s0[h] {
      assert s[..i][h] == s0[..i][h];
    }
    forall h: nat | k <= h < |s| ensures s[h] == s0[h] {
      assert s[k..][h - k] == s0[k..][h - k];
    }
  }

  /** s' is s with the elements i to k replaced by m. */
  ghost predicate Replaced<T>(s: seq<T>, s': seq<T>, i: nat, k: nat, m: seq<T>)
    requires i <= k <= |s|
  {
    && |s'| == |s| && s'[i..k] == m
    && (forall h: nat | h < i :: s'[h] == s[h]) && (forall h: nat | k <= h < |s| :: s'[h] == s[h])
  }

  class List {
    const head: Elem
    const tail: Elem
    /** The elements in order, the two sentinels included. */
    ghost var nodes: seq<Elem>
    ghost var repr: set<Elem>

    ghost predicate Valid()
      reads this, repr
    {
      && (forall i: nat | i < |nodes| :: nodes[i] in repr)
      && |nodes| >= 2 && nodes[0] == head && nodes[|nodes| - 1] == tail && NoDup(nodes)
      && head.prev == null && tail.next == null && Forward(nodes) && Backward(nodes)
    }

    ghost function Contents(): seq<Elem>
      requires |nodes| >= 2
      reads this
    {
      nodes[1..|nodes| - 1]
    }

    /** list_init. */
    constructor ()
      ensures Valid() && Contents() == [] && fresh(head) && fresh(tail)
    {
      head := new Elem();
      tail := new Elem();
      new;
      head.prev, head.next, tail.prev, tail.next := null, tail, head, null;
      nodes, repr := [head, tail], {head, tail};
    }

    /** list_next of the element at place i. */
    function Next(e: Elem, ghost i: nat): (r: Elem)
      requires Valid() && i < |nodes| - 1 && nodes[i] == e
      reads this, repr
      ensures r == nodes[i + 1]
    {
      assert nodes[i].next == nodes[i + 1];
      e.next
    }

    /** list_prev of the element at place i. */
    function Prev(e: Elem, ghost i: nat): (r: Elem)
      requires Valid() && 0 < i < |nodes| && nodes[i] == e
      reads this, repr
      ensures r == nodes[i - 1]
    {
      assert nodes[i].prev == nodes[i - 1];
      e.prev
    }

    /** The elements are now linked in the order r. */
    ghost method SetNodes(r: seq<Elem>)
      requires forall i: nat | i < |r| :: r[i] in repr
      requires |r| >= 2 && r[0] == head && r[|r| - 1] == tail && NoDup(r) && head.prev == null && tail.next == null
      requires Forward(r) && Backward(r)
      modifies this`nodes
      ensures Valid() && nodes == r
    {
      nodes := r;
    }

    /** Moves the elements from first to the one before last. */
    method MoveRange(before: Elem, first: Elem, last: Elem, ghost p: nat, ghost f: nat, ghost l: nat)
      requires Valid() && 0 < p < |nodes| && nodes[p] == before
      requires 0 < f < l < |nodes| && nodes[f] == first && nodes[l] == last && (p < f || l <= p)
      modifies this`nodes, repr
      ensures Valid() && IsSpliced(old(nodes), nodes, p, f, l)
    {
      var end := Prev(last, l);
      Relink(before, first, end, nodes, p, f, l);
      SplicedChain(nodes, p, f, l, repr);
      SetNodes(Spliced(nodes, p, f, l));
    }

    /** list_splice within one list; before lies outside the range that moves. */
    method Splice(before: Elem, first: Elem, last: Elem, ghost p: nat, ghost f: nat, ghost l: nat)
      requires Valid() && p < |nodes| && nodes[p] == before && 0 < p
      requires 0 < f <= l < |nodes| && nodes[f] == first && nodes[l] == last && (f < l ==> p < f || l <= p)
      modifies this`nodes, repr
      ensures Valid() && |nodes| == |old(nodes)|
      ensures if f == l then nodes == old(nodes) else IsSpliced(old(nodes), nodes, p, f, l) && nodes == Cut(old(nodes), p, f, l)
    {
      if first != last {
        ghost var s := nodes;
        MoveRange(before, first, last, p, f, l);
        SplicedIsCut(s, nodes, p, f, l);
      }
    }

    /** list_insert: elem, not yet in a list, comes to lie just before before. */
    method Insert(before: Elem, elem: Elem, ghost p: nat)
      requires Valid() && 0 < p < |nodes| && nodes[p] == before && elem !in repr
      modifies this`nodes, this`repr, repr, elem
      ensures Valid() && nodes == old(nodes)[..p] + [elem] + old(nodes)[p..] && repr == old(repr) + {elem}
    {
      ghost var a := Prev(before, p);
      elem.prev := before.prev;
      elem.next := before;
      before.prev.next := elem;
      before.prev := elem;
      repr := repr + {elem};
      InsertedChain(nodes, elem, p);
      SetNodes(nodes[..p] + [elem] + nodes[p..]);
    }

    /** find_end_of_run: the run that starts at a, not going beyond b. */
    method FindEndOfRun(less: (Elem, Elem) -> bool, a: Elem, b: Elem, ghost p: nat, ghost e: nat)
      returns (r: Elem, ghost q: nat)
      requires Valid() && 0 < p < e < |nodes| && nodes[p] == a && nodes[e] == b
      ensures p < q <= e && nodes[q] == r && RunIn(less, nodes, p, q) && (q < e ==> less(nodes[q], nodes[q - 1]))
    {
      r, q := Next(a, p), p + 1;
      while r != b && !less(r, Prev(r, q))
        invariant p < q <= e && nodes[q] == r && RunIn(less, nodes, p, q)
        decreases e - q
      {
        r, q := Next(r, q), q + 1;
      }
    }

    /** One turn of inplace_merge that moves y, the front of the second run, before x. */
    method MoveFront(x: Elem, y: Elem, ghost p: nat, ghost q: nat) returns (y': Elem)
      requires Valid() && 0 < p < q < |nodes| - 1 && nodes[p] == x && nodes[q] == y
      modifies this`nodes, repr
      ensures Valid() && MovedFront(old(nodes), nodes, p, q) && y' == old(nodes)[q + 1]
    {
      ghost var s := nodes;
      y' := Next(y, q);
      Splice(x, Prev(y', q + 1), y', p, q, q + 1);
      MovedByOrigin(s, nodes, p, q);
    }

    /** The state of inplace_merge: x and y are the fronts of what is left of the two runs. */
    ghost predicate MergingAt(less: (Elem, Elem) -> bool, s0: seq<Elem>, i: nat, j: nat, k: nat, x: Elem, y: Elem, p: nat, q: nat)
      reads this, repr
    {
      && Valid() && 0 < i < j < k < |s0| && i <= p <= q <= k
      && Merging(less, s0, nodes, i, j, k, p, q) && nodes[p] == x && nodes[q] == y && nodes[k] == s0[k]
    }

    /** A turn that moves the front of the second run. */
    method MoveTurn(less: (Elem, Elem) -> bool, x: Elem, y: Elem, ghost s0: seq<Elem>, ghost i: nat, ghost j: nat,
                    ghost k: nat, ghost p: nat, ghost q: nat)
      returns (y': Elem)
      requires MergingAt(less, s0, i, j, k, x, y, p, q) && x != y && y != s0[k] && less(y, x)
      modifies this`nodes, repr
      ensures MergingAt(less, s0, i, j, k, x, y', p + 1, q + 1)
    {
      ghost var s := nodes;
      y' := MoveFront(x, y, p, q);
      MergeMoves(less, s0, s, nodes, i, j, k, p, q);
    }

    /** One turn of inplace_merge. */
    method MergeTurn(less: (Elem, Elem) -> bool, x: Elem, y: Elem, ghost s0: seq<Elem>, ghost i: nat, ghost j: nat,
                     ghost k: nat, ghost p: nat, ghost q: nat)
      returns (x': Elem, y': Elem, ghost q': nat)
      requires MergingAt(less, s0, i, j, k, x, y, p, q) && x != y && y != s0[k]
      modifies this`nodes, repr
      ensures MergingAt(less, s0, i, j, k, x', y', p + 1, q')
    {
      x', y', q' := x, y, q;
      if !less(y, x) {
        MergeKeeps(less, s0, nodes, i, j, k, p, q);
        x' := Next(x, p);
      } else {
        y' := MoveTurn(less, x, y, s0, i, j, k, p, q);
        q' := q + 1;
      }
    }

    /** inplace_merge: the two adjacent runs are replaced by their merge. */
    method InplaceMerge(less: (Elem, Elem) -> bool, a0: Elem, a1b0: Elem, b1: Elem, ghost i: nat, ghost j: nat, ghost k: nat)
      requires Valid() && 0 < i < j < k < |nodes| && nodes[i] == a0 && nodes[j] == a1b0 && nodes[k] == b1
      requires RunIn(less, nodes, i, j) && RunIn(less, nodes, j, k)
      modifies this`nodes, repr
      ensures Valid() && Replaced(old(nodes), nodes, i, k, Merge(less, old(nodes[i..j]), old(nodes[j..k])))
    {
      ghost var s0 := nodes;
      var x, y := a0, a1b0;
      ghost var p, q := i, j;
      assert s0[i..i] + Merge(less, s0[i..j], s0[j..k]) == Merge(less, s0[i..j], s0[j..k]);
      while x != y && y != b1
        invariant MergingAt(less, s0, i, j, k, x, y, p, q)
        decreases k - p
      {
        x, y, q := MergeTurn(less, x, y, s0, i, j, k, p, q);
        p := p + 1;
      }
      MergeDone(less, s0, nodes, i, j, k, p, q);
    }
  }
}
