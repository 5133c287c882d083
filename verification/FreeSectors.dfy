/** Taking sectors from the free map and putting them back (filesys/free-map.c). */
module FreeSectors {
  import opened Sequences
  import opened Wrappers
  import opened Bitmaps
  import opened FileLayout

  /** The sectors a, free before, are exactly the ones now in use that were not. */
  ghost predicate Took(bits: seq<bool>, bits': seq<bool>, a: seq<nat>) {
    && |bits'| == |bits| && NoDup(a)
    && (forall x | x in a :: x < |bits| && !bits[x] && bits'[x])
    && (forall x: nat | x < |bits| && x !in a :: bits'[x] == bits[x])
  }

  lemma TookMore(b0: seq<bool>, b1: seq<bool>, b2: seq<bool>, a: seq<nat>, c: seq<nat>)
    requires Took(b0, b1, a) && Took(b1, b2, c)
    ensures Took(b0, b2, a + c)
  {
    assert forall x | x in a + c :: x in a || x in c;
    forall i: nat, j: nat | i < j < |a + c| ensures (a + c)[i] != (a + c)[j] {
      if i < |a| <= j {
        assert a[i] in a && c[j - |a|] in c;
      }
    }
  }

  /** Handing one of the taken sectors back. */
  lemma TookLess(b0: seq<bool>, b1: seq<bool>, a: seq<nat>, x: nat, c: seq<nat>)
    requires Took(b0, b1, a + [x] + c)
    ensures x < |b1| && b1[x] && Took(b0, b1[x := false], a + c)
  {
    var all, rest := a + [x] + c, a + c;
    assert all[|a|] == x && x in all;
    forall i: nat, j: nat | i < j < |rest| ensures rest[i] != rest[j] {
      assert rest[i] == all[if i < |a| then i else i + 1];
      assert rest[j] == all[if j < |a| then j else j + 1];
    }
    forall y | y in rest ensures y in all && y != x {
      var i :| 0 <= i < |rest| && rest[i] == y;
      assert y == all[if i < |a| then i else i + 1];
    }
    assert forall y | y in all :: y == x || y in rest;
  }

  /** Nothing in use before has been overwritten, except the given sectors. */
  ghost predicate Kept(bits: seq<bool>, disk: Disk, disk': Disk, except: set<nat>) {
    && |bits| == |disk| == |disk'|
    && forall x: nat | x < |disk| && bits[x] && x !in except :: disk'[x] == disk[x]
  }

  /** How many sectors are free. */
  ghost function Spare(bits: seq<bool>): nat {
    |FreeIn(bits)|
  }

  /** Fewer than need sectors are free. */
  ghost predicate Scarce(bits: seq<bool>, need: int) {
    Spare(bits) < need
  }

  /** Every sector taken is one free sector less. */
  lemma FreeCount(b0: seq<bool>, b1: seq<bool>, a: seq<nat>)
    requires Took(b0, b1, a)
    ensures Spare(b0) == Spare(b1) + |a|
  {
    Distinct(a);
    assert FreeIn(b0) == FreeIn(b1) + Elems(a);
    assert FreeIn(b1) !! Elems(a);
  }

  ghost function Elems(a: seq<nat>): set<nat> {
    set x | x in a
  }

  lemma {:induction false} Distinct(a: seq<nat>)
    requires NoDup(a)
    ensures |Elems(a)| == |a|
  {
    if a == [] {
      assert Elems(a) == {};
    } else {
      var rest, last := a[..|a| - 1], a[|a| - 1];
      Distinct(rest);
      assert a == rest + [last] && last !in rest;
      assert Elems(a) == Elems(rest) + {last};
    }
  }

  lemma ScarceMore(bits: seq<bool>, m: int, n: int)
    requires Scarce(bits, m) && m <= n
    ensures Scarce(bits, n)
  {
  }

  lemma TakenWasFree(b0: seq<bool>, b1: seq<bool>, a: seq<nat>)
    requires Took(b0, b1, a)
    ensures !Scarce(b0, |a|)
  {
    FreeCount(b0, b1, a);
  }

  /** Running out after the sectors a were taken. */
  lemma ScarceAfter(b0: seq<bool>, b1: seq<bool>, a: seq<nat>, need: int)
    requires Took(b0, b1, a) && Scarce(b1, need)
    ensures Scarce(b0, |a| + need)
  {
    FreeCount(b0, b1, a);
  }

  class FileSystem {
    const freeMap: Bitmap
    /** The device as seen through the cache. */
    var disk: Disk

    ghost predicate Valid()
      reads this
    {
      freeMap.Valid() && |disk| == freeMap.bitCnt
    }

    ghost function Bits(): (r: seq<bool>)
      requires Valid()
      reads this, freeMap.words
      ensures |r| == |disk|
    {
      freeMap.Bits()
    }

    constructor (n: nat)
      ensures Valid() && |disk| == n && fresh(freeMap.words)
      ensures forall i | 0 <= i < n :: !Bits()[i]
    {
      freeMap := new Bitmap(n);
      disk := seq(n, _ => Data(seq(512, _ => 0)));
    }

    /** free_map_allocate of one sector: the first free one, and None exactly when the device is full. */
    method Allocate() returns (r: Option<nat>)
      requires Valid()
      modifies freeMap.words
      ensures r.Some? ==> r.value < |disk| && !old(Bits())[r.value] && Took(old(Bits()), Bits(), [r.value])
      ensures r.Some? ==> forall x: nat | x < r.value :: old(Bits())[x]
      ensures r.None? ==> Bits() == old(Bits())
      ensures r.None? <==> Scarce(old(Bits()), 1)
    {
      r := freeMap.ScanAndFlip(0, 1, false);
      if r.None? {
        forall x: nat | x < |disk| ensures old(Bits())[x] {
          assert !AllAre(old(Bits()), x, 1, false);
        }
        assert FreeIn(old(Bits())) == {};
      } else {
        assert !old(Bits())[r.value];
        assert r.value in FreeIn(old(Bits()));
        forall x: nat | x < r.value ensures old(Bits())[x] {
          assert !AllAre(old(Bits()), x, 1, false);
        }
      }
    }

    /** free_map_release of one sector; false is the failed assertion on a free sector. */
    method Release(x: nat) returns (ok: bool)
      requires Valid() && x < |disk|
      modifies freeMap.words
      ensures ok == old(Bits())[x]
      ensures Bits() == if ok then old(Bits())[x := false] else old(Bits())
    {
      var someFree := freeMap.Contains(x, 1, false);
      ok := !someFree;
      assert ok == old(Bits())[x] by {
        assert AllAre(old(Bits()), x, 1, true) <==> old(Bits())[x];
      }
      if ok {
        freeMap.SetMultiple(x, 1, false);
      }
    }
  }
}
