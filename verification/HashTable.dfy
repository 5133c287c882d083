/** The resizing hash table (lib/kernel/hash.c). */
module HashTable {
  import opened Wrappers
  import opened Bits

  /** Neither is less than the other: the same key. */
  predicate Same<E>(less: (E, E) -> bool, x: E, y: E) {
    !less(x, y) && !less(y, x)
  }

  /** less orders the keys, and elements with the same key have the same hash. */
  ghost predicate Consistent<E(!new)>(hash: E -> nat, less: (E, E) -> bool) {
    && (forall x :: !less(x, x))
    && (forall x, y, z :: Same(less, x, y) && Same(less, y, z) ==> Same(less, x, z))
    && (forall x, y :: Same(less, x, y) ==> hash(x) == hash(y))
  }

  // ---- buckets

  /** All elements, bucket after bucket. */
  function Flat<E>(buckets: seq<seq<E>>): seq<E> {
    if buckets == [] then [] else buckets[0] + Flat(buckets[1..])
  }

  lemma Exchange<E>(a: multiset<E>, f: multiset<E>, f': multiset<E>, m: multiset<E>, m': multiset<E>)
    requires f' + m == f + m'
    ensures a + f' + m == a + f + m'
  {
    assert a + f' + m == a + (f' + m);
    assert a + f + m' == a + (f + m');
  }

  lemma Cancel<E>(p: multiset<E>, q: multiset<E>, r: multiset<E>, m: multiset<E>)
    requires p + m == q + (r + m)
    ensures p == q + r
  {
    forall x | x in p || x in q + r ensures p[x] == (q + r)[x] {
      assert (p + m)[x] == p[x] + m[x] && (q + (r + m))[x] == q[x] + (r[x] + m[x]);
    }
  }

  lemma {:induction false} FlatUpdate<E>(buckets: seq<seq<E>>, i: nat, bucket: seq<E>)
    requires i < |buckets|
    ensures multiset(Flat(buckets[i := bucket])) + multiset(buckets[i]) == multiset(Flat(buckets)) + multiset(bucket)
  {
    var buckets' := buckets[i := bucket];
    if i == 0 {
      assert buckets'[1..] == buckets[1..];
    } else {
      FlatUpdate(buckets[1..], i - 1, bucket);
      assert buckets'[1..] == buckets[1..][i - 1 := bucket];
      assert Flat(buckets') == buckets[0] + Flat(buckets'[1..]);
      Exchange(multiset(buckets[0]), multiset(Flat(buckets[1..])), multiset(Flat(buckets'[1..])), multiset(buckets[i]), multiset(bucket));
    }
  }

  lemma {:induction false} FlatHolds<E>(buckets: seq<seq<E>>, x: E)
    ensures x in Flat(buckets) <==> exists i: nat | i < |buckets| :: x in buckets[i]
  {
    if buckets != [] {
      FlatHolds(buckets[1..], x);
      if x in Flat(buckets) && x !in buckets[0] {
        var i: nat :| i < |buckets[1..]| && x in buckets[1..][i];
        assert x in buckets[i + 1];
      }
      if i: nat :| i < |buckets| && x in buckets[i] {
        assert i > 0 ==> x in buckets[1..][i - 1];
      }
    }
  }

  /** find_bucket. */
  function BucketOf(h: nat, cnt: nat): (i: nat)
    requires Power(cnt)
    ensures i < cnt && i == h % cnt
  {
    MaskIsRemainder(h, cnt);
    And(h, cnt - 1)
  }

  ghost predicate Placed<E>(hash: E -> nat, buckets: seq<seq<E>>)
    requires Power(|buckets|)
  {
    forall i: nat, x | i < |buckets| && x in buckets[i] :: BucketOf(hash(x), |buckets|) == i
  }

  /** The elements of a table: no two have the same key. */
  ghost predicate Keyed<E>(less: (E, E) -> bool, items: multiset<E>) {
    && (forall x | x in items :: items[x] == 1)
    && (forall x, y | x in items && y in items && Same(less, x, y) :: x == y)
  }

  ghost predicate Inv<E>(hash: E -> nat, less: (E, E) -> bool, buckets: seq<seq<E>>) {
    Power(|buckets|) && |buckets| >= 4 && Placed(hash, buckets) && Keyed(less, multiset(Flat(buckets)))
  }

  lemma Held<E>(buckets: seq<seq<E>>, i: nat, x: E)
    requires i < |buckets| && x in buckets[i]
    ensures x in multiset(Flat(buckets))
  {
    FlatHolds(buckets, x);
  }

  /** An element with the key of e can only be in the bucket of e. */
  lemma OnlyThere<E(!new)>(hash: E -> nat, less: (E, E) -> bool, buckets: seq<seq<E>>, e: E, x: E)
    requires Consistent(hash, less) && Inv(hash, less, buckets) && x in multiset(Flat(buckets)) && Same(less, x, e)
    ensures x in buckets[BucketOf(hash(e), |buckets|)]
  {
    FlatHolds(buckets, x);
    assert hash(x) == hash(e);
  }

  /** The element of items with the key of e, if there is one. */
  ghost function Match<E(!new)>(less: (E, E) -> bool, items: multiset<E>, e: E): (r: Option<E>)
    ensures r.Some? ==> r.value in items && Same(less, r.value, e)
    ensures r.None? ==> forall x | x in items :: !Same(less, x, e)
  {
    if x :| x in items && Same(less, x, e) then Some(x) else None
  }

  // ---- changes of one bucket

  lemma Added<E(!new)>(hash: E -> nat, less: (E, E) -> bool, buckets: seq<seq<E>>, e: E)
    requires Consistent(hash, less) && Inv(hash, less, buckets) && Match(less, multiset(Flat(buckets)), e).None?
    ensures var i := BucketOf(hash(e), |buckets|);
            var buckets' := buckets[i := [e] + buckets[i]];
            Inv(hash, less, buckets') && multiset(Flat(buckets')) == multiset(Flat(buckets)) + multiset{e}
  {
    var i := BucketOf(hash(e), |buckets|);
    FlatUpdate(buckets, i, [e] + buckets[i]);
    var items, items' := multiset(Flat(buckets)), multiset(Flat(buckets[i := [e] + buckets[i]]));
    Cancel(items', items, multiset{e}, multiset(buckets[i]));
    assert Same(less, e, e);
  }

  /** bucket without its element j. */
  function Dropped<E>(bucket: seq<E>, j: nat): seq<E>
    requires j < |bucket|
  {
    bucket[..j] + bucket[j + 1..]
  }

  lemma FewerElements<E>(hash: E -> nat, less: (E, E) -> bool, buckets: seq<seq<E>>, i: nat, bucket: seq<E>, x: E)
    requires Inv(hash, less, buckets) && i < |buckets| && forall y | y in bucket :: y in buckets[i]
    requires multiset(Flat(buckets[i := bucket])) == multiset(Flat(buckets)) - multiset{x}
    ensures Inv(hash, less, buckets[i := bucket])
  {
    var items, items' := multiset(Flat(buckets)), multiset(Flat(buckets[i := bucket]));
    assert forall y | y in items' :: y in items && items'[y] == 1;
  }

  lemma DroppedOne<E>(bucket: seq<E>, j: nat)
    requires j < |bucket|
    ensures multiset(bucket) == multiset(Dropped(bucket, j)) + multiset{bucket[j]} && forall y | y in Dropped(bucket, j) :: y in bucket
  {
    assert bucket == bucket[..j] + [bucket[j]] + bucket[j + 1..];
  }

  lemma Removed<E(!new)>(hash: E -> nat, less: (E, E) -> bool, buckets: seq<seq<E>>, i: nat, j: nat)
    requires Inv(hash, less, buckets) && i < |buckets| && j < |buckets[i]|
    ensures var buckets' := buckets[i := Dropped(buckets[i], j)];
            && Inv(hash, less, buckets') && multiset(Flat(buckets')) == multiset(Flat(buckets)) - multiset{buckets[i][j]}
            && buckets[i][j] in multiset(Flat(buckets))
  {
    hide Inv, Flat, Dropped;
    var x := buckets[i][j];
    Held(buckets, i, x);
    FlatUpdate(buckets, i, Dropped(buckets[i], j));
    DroppedOne(buckets[i], j);
    var items, items' := multiset(Flat(buckets)), multiset(Flat(buckets[i := Dropped(buckets[i], j)]));
    Cancel(items, items', multiset{x}, multiset(Dropped(buckets[i], j)));
    assert items' == items - multiset{x};
    FewerElements(hash, less, buckets, i, Dropped(buckets[i], j), x);
  }

  // ---- moving elements to other buckets

  /** buckets with x put at the front of its bucket. */
  function Push<E>(hash: E -> nat, buckets: seq<seq<E>>, x: E): (r: seq<seq<E>>)
    requires Power(|buckets|)
    ensures |r| == |buckets|
  {
    var i := BucketOf(hash(x), |buckets|);
    buckets[i := [x] + buckets[i]]
  }

  lemma PushKeeps<E>(hash: E -> nat, buckets: seq<seq<E>>, x: E)
    requires Power(|buckets|) && Placed(hash, buckets)
    ensures Placed(hash, Push(hash, buckets, x))
    ensures multiset(Flat(Push(hash, buckets, x))) == multiset(Flat(buckets)) + multiset{x}
  {
    var i := BucketOf(hash(x), |buckets|);
    FlatUpdate(buckets, i, [x] + buckets[i]);
    Cancel(multiset(Flat(Push(hash, buckets, x))), multiset(Flat(buckets)), multiset{x}, multiset(buckets[i]));
  }

  function Empty<E>(n: nat): (r: seq<seq<E>>)
    ensures |r| == n && forall i: nat | i < n :: r[i] == []
  {
    seq(n, _ => [])
  }

  lemma {:induction false} FlatOfEmpty<E>(buckets: seq<seq<E>>)
    requires forall i: nat | i < |buckets| :: buckets[i] == []
    ensures Flat(buckets) == []
  {
    if buckets != [] {
      FlatOfEmpty(buckets[1..]);
    }
  }

  /** The number of buckets for n elements. */
  function Ideal(n: nat): (r: nat)
    ensures Power(r) && r >= 4 && n < 4 * r && (r > 4 ==> 2 * r <= n)
  {
    var want := if n / 2 < 4 then 4 else n / 2;
    AtLeast4(want);
    Highest(want)
  }

  lemma AtLeast4(want: nat)
    requires want >= 4
    ensures Highest(want) >= 4
  {
    assert Highest(want) == 2 * Highest(want / 2);
    assert Highest(want / 2) == if want / 2 == 1 then 1 else 2 * Highest(want / 2 / 2);
  }

  lemma MatchIs<E(!new)>(hash: E -> nat, less: (E, E) -> bool, items: multiset<E>, e: E, x: E)
    requires Consistent(hash, less) && Keyed(less, items) && x in items && Same(less, x, e)
    ensures Match(less, items, e) == Some(x)
  {
    var m := Match(less, items, e);
    assert Same(less, x, m.value) by {
      assert Same(less, e, m.value);
    }
  }

  lemma MatchIsNone<E(!new)>(hash: E -> nat, less: (E, E) -> bool, buckets: seq<seq<E>>, e: E)
    requires Consistent(hash, less) && Inv(hash, less, buckets)
    requires forall x | x in buckets[BucketOf(hash(e), |buckets|)] :: !Same(less, x, e)
    ensures Match(less, multiset(Flat(buckets)), e) == None
  {
    forall x | x in multiset(Flat(buckets)) ensures !Same(less, x, e) {
      if Same(less, x, e) {
        OnlyThere(hash, less, buckets, e, x);
        assert false;
      }
    }
  }

  lemma NoMatchAfter<E(!new)>(hash: E -> nat, less: (E, E) -> bool, items: multiset<E>, e: E, x: E)
    requires Consistent(hash, less) && Keyed(less, items) && x in items && Same(less, x, e)
    ensures Match(less, items - multiset{x}, e).None?
  {
    forall y | y in items - multiset{x} ensures !Same(less, y, e) {
      assert y in items && y != x;
      assert Same(less, y, e) && Same(less, e, x) ==> Same(less, y, x);
    }
  }

  /** Where an iteration stands: before element pos of a bucket. */
  datatype Cursor = Cursor(bucket: nat, pos: nat)

  /** What an iteration has still to visit. */
  ghost function Rest<E>(buckets: seq<seq<E>>, c: Cursor): seq<E>
    requires c.bucket < |buckets| && c.pos <= |buckets[c.bucket]|
  {
    buckets[c.bucket][c.pos..] + Flat(buckets[c.bucket + 1..])
  }

  /** An iteration goes on within its bucket, or with the next one. */
  lemma RestOfBucket<E>(buckets: seq<seq<E>>, c: Cursor)
    requires c.bucket < |buckets| && c.pos <= |buckets[c.bucket]|
    ensures c.pos < |buckets[c.bucket]| ==> Rest(buckets, c) == [buckets[c.bucket][c.pos]] + Rest(buckets, Cursor(c.bucket, c.pos + 1))
    ensures c.pos == |buckets[c.bucket]| && c.bucket + 1 < |buckets| ==> Rest(buckets, c) == Rest(buckets, Cursor(c.bucket + 1, 0))
    ensures c.pos == |buckets[c.bucket]| && c.bucket + 1 == |buckets| ==> Rest(buckets, c) == []
  {
    if c.bucket + 1 < |buckets| {
      assert buckets[c.bucket + 1..][1..] == buckets[c.bucket + 2..];
    }
  }

  class Table<E(!new, ==)> {
    const hash: E -> nat
    const less: (E, E) -> bool
    var elemCnt: nat
    var buckets: seq<seq<E>>

    ghost predicate Valid()
      reads this
    {
      Consistent(hash, less) && Inv(hash, less, buckets) && elemCnt == |Items()|
    }

    /** The finite map: a set of elements, no two with the same key. */
    ghost function Items(): multiset<E>
      reads this
    {
      multiset(Flat(buckets))
    }

    /** hash_init. */
    constructor (hash: E -> nat, less: (E, E) -> bool)
      requires Consistent(hash, less)
      ensures Valid() && Items() == multiset{} && this.hash == hash && this.less == less
    {
      this.hash, this.less := hash, less;
      elemCnt, buckets := 0, Empty(4);
      new;
      FlatOfEmpty(buckets);
      assert Power(4) by {
        assert Power(2) && Power(1);
      }
    }

    /** find_elem in bucket i. */
    method FindIn(i: nat, e: E) returns (j: nat)
      requires i < |buckets|
      ensures j <= |buckets[i]| && (j < |buckets[i]| ==> Same(less, buckets[i][j], e))
      ensures forall k: nat | k < j :: !Same(less, buckets[i][k], e)
    {
      j := 0;
      while j < |buckets[i]|
        invariant j <= |buckets[i]| && forall k: nat | k < j :: !Same(less, buckets[i][k], e)
      {
        var x := buckets[i][j];
        if !less(x, e) && !less(e, x) {
          return;
        }
        j := j + 1;
      }
    }

    /** find_bucket and find_elem together. */
    method Locate(e: E) returns (i: nat, j: nat, r: Option<E>)
      requires Valid()
      ensures i == BucketOf(hash(e), |buckets|) && r == Match(less, Items(), e)
      ensures r.Some? ==> j < |buckets[i]| && buckets[i][j] == r.value
    {
      i := BucketOf(hash(e), |buckets|);
      j := FindIn(i, e);
      if j < |buckets[i]| {
        Held(buckets, i, buckets[i][j]);
        MatchIs(hash, less, Items(), e, buckets[i][j]);
        r := Some(buckets[i][j]);
      } else {
        MatchIsNone(hash, less, buckets, e);
        r := None;
      }
    }

    /** insert_elem. */
    method InsertElem(i: nat, e: E)
      requires Valid() && i == BucketOf(hash(e), |buckets|) && Match(less, Items(), e).None?
      modifies this
      ensures Valid() && Items() == old(Items()) + multiset{e} && |buckets| == old(|buckets|)
    {
      Added(hash, less, buckets, e);
      elemCnt := elemCnt + 1;
      buckets := buckets[i := [e] + buckets[i]];
    }

    /** remove_elem, of the element at place j of bucket i. */
    method RemoveElem(i: nat, j: nat)
      requires Valid() && i < |buckets| && j < |buckets[i]|
      modifies this
      ensures Valid() && Items() == old(Items()) - multiset{old(buckets[i][j])} && |buckets| == old(|buckets|)
    {
      Removed(hash, less, buckets, i, j);
      elemCnt := elemCnt - 1;
      buckets := buckets[i := Dropped(buckets[i], j)];
    }

    /** hash_find. */
    method Find(e: E) returns (r: Option<E>)
      requires Valid()
      ensures r == Match(less, Items(), e)
    {
      var _, _, found := Locate(e);
      r := found;
    }

    /** The inner loop of rehash: moves one old bucket. */
    method MoveBucket(old': seq<E>, into: seq<seq<E>>) returns (r: seq<seq<E>>)
      requires Power(|into|) && Placed(hash, into)
      ensures |r| == |into| && Placed(hash, r) && multiset(Flat(r)) == multiset(Flat(into)) + multiset(old')
    {
      r := into;
      for j := 0 to |old'|
        invariant |r| == |into| && Placed(hash, r) && multiset(Flat(r)) == multiset(Flat(into)) + multiset(old'[..j])
      {
        PushKeeps(hash, r, old'[j]);
        assert old'[..j + 1] == old'[..j] + [old'[j]];
        r := Push(hash, r, old'[j]);
      }
      assert old'[..|old'|] == old';
    }

    /** The outer loop of rehash. */
    method MoveAll(cnt: nat) returns (r: seq<seq<E>>)
      requires Power(cnt)
      ensures |r| == cnt && Placed(hash, r) && multiset(Flat(r)) == Items()
    {
      r := Empty(cnt);
      FlatOfEmpty(r);
      assert buckets[0..] == buckets;
      for i := 0 to |buckets|
        invariant |r| == cnt && Placed(hash, r) && multiset(Flat(r)) + multiset(Flat(buckets[i..])) == Items()
      {
        assert buckets[i..][1..] == buckets[i + 1..];
        r := MoveBucket(buckets[i], r);
      }
    }

    /** rehash; memory tells whether malloc succeeds.  Failure leaves the table usable. */
    method Rehash(memory: bool)
      requires Valid()
      modifies this`buckets
      ensures Valid() && Items() == old(Items())
      ensures memory ==> |buckets| == Ideal(elemCnt)
      ensures |buckets| == Ideal(elemCnt) || buckets == old(buckets)
    {
      var want := if elemCnt / 2 < 4 then 4 else elemCnt / 2;
      var cnt := RoundDown(want);
      if cnt == |buckets| || !memory {
        return;
      }
      AtLeast4(want);
      var moved := MoveAll(cnt);
      buckets := moved;
    }

    /** hash_insert: e is added unless its key is there; returns the element that has it. */
    method Insert(e: E, memory: bool) returns (r: Option<E>)
      requires Valid()
      modifies this
      ensures Valid() && r == old(Match(less, Items(), e))
      ensures Items() == if r.None? then old(Items()) + multiset{e} else old(Items())
      ensures memory ==> elemCnt < 4 * |buckets|
    {
      var i, j, found := Locate(e);
      r := found;
      if r.None? {
        InsertElem(i, e);
      }
      Rehash(memory);
    }

    /** hash_replace: e takes the place of the element with its key, which is returned. */
    method Replace(e: E, memory: bool) returns (r: Option<E>)
      requires Valid()
      modifies this
      ensures Valid() && r == old(Match(less, Items(), e))
      ensures Items() == if r.None? then old(Items()) + multiset{e} else old(Items()) - multiset{r.value} + multiset{e}
      ensures memory ==> elemCnt < 4 * |buckets|
    {
      var i, j, found := Locate(e);
      r := found;
      if r.Some? {
        NoMatchAfter(hash, less, Items(), e, r.value);
        RemoveElem(i, j);
      }
      InsertElem(i, e);
      Rehash(memory);
    }

    /** hash_delete: the element with the key of e is removed and returned. */
    method Delete(e: E, memory: bool) returns (r: Option<E>)
      requires Valid()
      modifies this
      ensures Valid() && r == old(Match(less, Items(), e))
      ensures Items() == if r.None? then old(Items()) else old(Items()) - multiset{r.value}
      ensures r.Some? && memory ==> elemCnt < 4 * |buckets|
    {
      var i, j, found := Locate(e);
      r := found;
      if r.Some? {
        RemoveElem(i, j);
        Rehash(memory);
      }
    }

    /** hash_first: the iteration stands before the first bucket. */
    function First(): (c: Cursor)
      requires Valid()
      reads this
      ensures c.bucket < |buckets| && c.pos <= |buckets[c.bucket]| && Rest(buckets, c) == Flat(buckets)
    {
      Cursor(0, 0)
    }

    /** hash_next. */
    method Next(c: Cursor) returns (c': Cursor, r: Option<E>)
      requires Valid() && c.bucket < |buckets| && c.pos <= |buckets[c.bucket]|
      ensures c'.bucket < |buckets| && c'.pos <= |buckets[c'.bucket]|
      ensures r.None? <==> Rest(buckets, c) == []
      ensures r.Some? ==> Rest(buckets, c) == [r.value] + Rest(buckets, c')
    {
      c' := c;
      while c'.pos == |buckets[c'.bucket]|
        invariant c'.bucket < |buckets| && c'.pos <= |buckets[c'.bucket]| && Rest(buckets, c') == Rest(buckets, c)
        decreases |buckets| - c'.bucket
      {
        RestOfBucket(buckets, c');
        if c'.bucket + 1 >= |buckets| {
          return c', None;
        }
        c' := Cursor(c'.bucket + 1, 0);
      }
      RestOfBucket(buckets, c');
      r := Some(buckets[c'.bucket][c'.pos]);
      c' := Cursor(c'.bucket, c'.pos + 1);
    }

    /** An iteration by hash_first and hash_next visits every element exactly once. */
    method VisitAll() returns (visited: seq<E>)
      requires Valid()
      ensures multiset(visited) == Items() && |visited| == elemCnt
    {
      visited := [];
      var c := First();
      ghost var all, rest := Flat(buckets), Rest(buckets, c);
      while true
        invariant c.bucket < |buckets| && c.pos <= |buckets[c.bucket]| && rest == Rest(buckets, c)
        invariant visited + rest == all
        decreases |rest|
      {
        var r: Option<E>;
        c, r := Next(c);
        if r.None? {
          break;
        }
        Shift(visited, r.value, Rest(buckets, c));
        visited, rest := visited + [r.value], Rest(buckets, c);
      }
    }
  }

  lemma Shift<E>(a: seq<E>, x: E, b: seq<E>)
    ensures a + ([x] + b) == a + [x] + b
  {
  }

  // ---- runs against a finite map

  datatype Op<E> = DoInsert(e: E) | DoReplace(e: E) | DoFind(e: E) | DoDelete(e: E)

  /** What an operation makes of a set of elements with distinct keys; each returns Match of its element. */
  ghost function After<E(!new)>(less: (E, E) -> bool, items: multiset<E>, op: Op<E>): multiset<E> {
    var m := Match(less, items, op.e);
    match op
    case DoInsert(e) => if m.None? then items + multiset{e} else items
    case DoReplace(e) => if m.None? then items + multiset{e} else items - multiset{m.value} + multiset{e}
    case DoFind(_) => items
    case DoDelete(_) => if m.None? then items else items - multiset{m.value}
  }

  ghost function RunOf<E(!new)>(less: (E, E) -> bool, items: multiset<E>, ops: seq<Op<E>>): (multiset<E>, seq<Option<E>>) {
    if ops == [] then (items, [])
    else
      var n := |ops| - 1;
      var before := RunOf(less, items, ops[..n]);
      (After(less, before.0, ops[n]), before.1 + [Match(less, before.0, ops[n].e)])
  }

  lemma RunOfStep<E(!new)>(less: (E, E) -> bool, items: multiset<E>, ops: seq<Op<E>>, k: nat)
    requires k < |ops|
    ensures var before := RunOf(less, items, ops[..k]);
            RunOf(less, items, ops[..k + 1]) == (After(less, before.0, ops[k]), before.1 + [Match(less, before.0, ops[k].e)])
  {
    assert ops[..k + 1][..k] == ops[..k];
  }

  method Do<E(!new, ==)>(t: Table<E>, op: Op<E>, memory: bool) returns (r: Option<E>)
    requires t.Valid()
    modifies t
    ensures t.Valid() && t.Items() == After(t.less, old(t.Items()), op) && r == Match(t.less, old(t.Items()), op.e)
  {
    hide Match, Inv, Consistent, Flat;
    match op
    case DoInsert(e) => r := t.Insert(e, memory);
    case DoReplace(e) => r := t.Replace(e, memory);
    case DoFind(e) => r := t.Find(e);
    case DoDelete(e) => r := t.Delete(e, memory);
  }

  /** The table refines a finite map, whichever of its resizes find memory. */
  method Run<E(!new, ==)>(t: Table<E>, ops: seq<Op<E>>, memory: nat -> bool) returns (results: seq<Option<E>>)
    requires t.Valid()
    modifies t
    ensures t.Valid() && (t.Items(), results) == RunOf(t.less, old(t.Items()), ops)
  {
    results := [];
    for k := 0 to |ops|
      invariant t.Valid() && (t.Items(), results) == RunOf(t.less, old(t.Items()), ops[..k])
    {
      RunOfStep(t.less, old(t.Items()), ops, k);
      var r := Do(t, ops[k], memory(k));
      results := results + [r];
    }
    assert ops[..|ops|] == ops;
  }
}
