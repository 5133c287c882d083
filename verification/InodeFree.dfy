/** Freeing files: inode_free_all (filesys/inode.c:621-687), and when it frees what the file holds. */
module InodeFree {
  import opened Sequences
  import opened FileLayout
  import opened FreeSectors
  import opened Inodes
  import opened FileShape
  import opened GrowthSteps

  /** The sectors xs can be released one after the other. */
  ghost predicate Releasable(bits: seq<bool>, xs: seq<nat>) {
    NoDup(xs) && forall x | x in xs :: x < |bits| && bits[x]
  }

  ghost predicate Released(bits: seq<bool>, bits': seq<bool>, xs: seq<nat>) {
    |bits'| == |bits| && forall x: nat | x < |bits| :: bits'[x] == (bits[x] && x !in xs)
  }

  /** Nothing has changed in the free map but that some of the sectors xs have become free. */
  ghost predicate FreesOnly(bits: seq<bool>, bits': seq<bool>, xs: seq<nat>) {
    |bits'| == |bits| && forall x: nat | x < |bits| :: bits'[x] == bits[x] || (x in xs && !bits'[x])
  }

  lemma FreesOnlyMore(b0: seq<bool>, b1: seq<bool>, b2: seq<bool>, xs: seq<nat>, ys: seq<nat>)
    requires FreesOnly(b0, b1, xs) && FreesOnly(b1, b2, ys) && forall y | y in ys :: y in xs
    ensures FreesOnly(b0, b2, xs)
  {
  }

  lemma ReleasedMore(b0: seq<bool>, b1: seq<bool>, b2: seq<bool>, xs: seq<nat>, ys: seq<nat>)
    requires Released(b0, b1, xs) && Released(b1, b2, ys)
    ensures Released(b0, b2, xs + ys)
  {
  }

  /** The entries that a loop over length bytes may release, followed by the sectors tail. */
  function Reach(entries: seq<nat>, c: nat, tail: seq<nat>): seq<nat>
    requires c <= |entries|
  {
    entries[..c] + tail
  }

  /** However far the loop over length bytes gets, what it releases can be released. */
  ghost predicate AllReleasable(bits: seq<bool>, entries: seq<nat>, length: int, tail: seq<nat>) {
    forall c: nat | c <= |entries| && length > 512 * (c - 1) :: Releasable(bits, Reach(entries, c, tail))
  }

  /**
   * The loops of inode_free_all over one array of entries: one entry for each 512 bytes
   * left.  False is a failed assertion in free_map_release.
   */
  method FreeEntries(fs: FileSystem, entries: seq<nat>, length0: int) returns (ok: bool, length: int, cnt: nat)
    requires fs.Valid()
    modifies fs.freeMap.words
    ensures cnt <= |entries| && (ok ==> length == length0 - 512 * cnt && (length <= 0 || cnt == |entries|))
    ensures ok && cnt > 0 ==> length0 > 512 * (cnt - 1)
    ensures ok ==> Released(old(fs.Bits()), fs.Bits(), entries[..cnt])
    ensures !ok ==> cnt < |entries| && length0 > 512 * cnt && !Releasable(old(fs.Bits()), entries[..cnt + 1])
    ensures AllReleasable(old(fs.Bits()), entries, length0, []) ==> ok
    ensures ok ==> Releasable(old(fs.Bits()), entries[..cnt])
    ensures FreesOnly(old(fs.Bits()), fs.Bits(), entries)
  {
    hide Released, Releasable, FreesOnly, AllReleasable;
    length, cnt := length0, 0;
    NothingFreed(fs.Bits(), entries);
    while length > 0 && cnt < |entries|
      invariant cnt <= |entries| && length == length0 - 512 * cnt && (cnt > 0 ==> length0 > 512 * (cnt - 1))
      invariant Released(old(fs.Bits()), fs.Bits(), entries[..cnt]) && Releasable(old(fs.Bits()), entries[..cnt])
      invariant FreesOnly(old(fs.Bits()), fs.Bits(), entries)
    {
      StuckAt(old(fs.Bits()), fs.Bits(), entries, cnt, length0);
      if entries[cnt] >= |fs.disk| {
        return false, length, cnt;
      }
      ghost var b1 := fs.Bits();
      ok := fs.Release(entries[cnt]);
      if !ok {
        return false, length, cnt;
      }
      OneMoreFreed(old(fs.Bits()), b1, entries, cnt);
      cnt := cnt + 1;
      length := length - 512;
    }
    ok := true;
  }

  lemma NothingFreed(bits: seq<bool>, entries: seq<nat>)
    ensures Released(bits, bits, entries[..0]) && Releasable(bits, entries[..0]) && FreesOnly(bits, bits, entries)
  {
  }

  lemma OneMoreFreed(b0: seq<bool>, b1: seq<bool>, entries: seq<nat>, cnt: nat)
    requires cnt < |entries| && entries[cnt] < |b1| && b1[entries[cnt]]
    requires Released(b0, b1, entries[..cnt]) && Releasable(b0, entries[..cnt]) && FreesOnly(b0, b1, entries)
    ensures var b2 := b1[entries[cnt] := false];
            Released(b0, b2, entries[..cnt + 1]) && Releasable(b0, entries[..cnt + 1]) && FreesOnly(b0, b2, entries)
  {
    var x := entries[cnt];
    assert entries[..cnt + 1] == entries[..cnt] + [x];
    ReleasedMore(b0, b1, b1[x := false], entries[..cnt], [x]);
    OneMoreReleasable(b0, entries[..cnt], x);
  }

  /** An entry that is off the device, or free by now, could not have been released with those before it. */
  lemma StuckAt(b0: seq<bool>, b1: seq<bool>, entries: seq<nat>, cnt: nat, length: int)
    requires cnt < |entries| && length > 512 * cnt && Released(b0, b1, entries[..cnt])
    ensures entries[cnt] >= |b1| || !b1[entries[cnt]] ==>
              !Releasable(b0, entries[..cnt + 1]) && !AllReleasable(b0, entries, length, [])
  {
    assert Reach(entries, cnt + 1, []) == entries[..cnt + 1];
    if entries[cnt] >= |b1| {
      assert entries[..cnt + 1][cnt] in entries[..cnt + 1];
    } else if !b1[entries[cnt]] {
      NotReleasable(b0, b1, entries, cnt);
    }
  }

  lemma OneMoreReleasable(bits: seq<bool>, xs: seq<nat>, x: nat)
    requires Releasable(bits, xs) && x < |bits| && bits[x] && x !in xs
    ensures Releasable(bits, xs + [x])
  {
  }

  lemma NotReleasable(bits: seq<bool>, bits': seq<bool>, entries: seq<nat>, cnt: nat)
    requires cnt < |entries| && Released(bits, bits', entries[..cnt])
    requires entries[cnt] < |bits| && !bits'[entries[cnt]]
    ensures !Releasable(bits, entries[..cnt + 1])
  {
    var xs, x := entries[..cnt + 1], entries[cnt];
    assert xs[cnt] == x && x in xs;
    if bits[x] {
      var i :| 0 <= i < cnt && entries[..cnt][i] == x;
      assert xs[i] == xs[cnt];
    }
  }

  lemma SubReleasable(bits: seq<bool>, xs: seq<nat>, n: nat)
    requires Releasable(bits, xs) && n <= |xs|
    ensures Releasable(bits, xs[..n])
  {
  }

  datatype FreeResult = Freed | AssertionFails | OutOfBounds

  /** The direct entries of a file are the first sectors it was given. */
  lemma DirectEntries(disk: Disk, node: InodeDisk, a: seq<nat>, cnt: nat)
    requires FileOk(disk, node, a) && cnt <= 119 && cnt <= SectorsFor(node.length)
    ensures cnt <= |a| && node.sector[..cnt] == a[..cnt]
  {
    DataPosBound(cnt, SectorsFor(node.length));
    forall k: nat | k < cnt ensures node.sector[k] == a[k] {
      DataPosBound(k, SectorsFor(node.length));
    }
  }

  /** The first cnt entries of leaf i of the inode are the sectors after it. */
  lemma LeafEntries(disk: Disk, node: InodeDisk, a: seq<nat>, i: nat, cnt: nat)
    requires FileOk(disk, node, a) && i < 5 && 0 < cnt <= 125 && 119 + 125 * i + cnt <= SectorsFor(node.length)
    ensures var p := 119 + 126 * i;
            p + 1 + cnt <= |a| && |node.sector| == TOTAL_SECTOR_CNT && node.sector[119 + i] == a[p] && NodeAt(disk, a[p]).sector[..cnt] == a[p + 1..p + 1 + cnt]
  {
    var p := 119 + 126 * i;
    DataPosBound(119 + 125 * i + cnt - 1, SectorsFor(node.length));
    assert DataPos(119 + 125 * i + cnt - 1) == p + cnt;
    assert LeafAt(disk, a, 119 + 126 * i);
  }

  /** After a leaf and its data, a longer stretch of the file has been released. */
  lemma StretchReleasable(b0: seq<bool>, b1: seq<bool>, a: seq<nat>, p: nat, q: nat)
    requires NoDup(a) && (forall x | x in a :: x < |b0| && b0[x]) && p < q <= |a| && Released(b0, b1, a[..p])
    ensures Releasable(b1, a[p + 1..q]) && a[p] < |b1| && b1[a[p]] && a[p] !in a[p + 1..q]
  {
    forall k: nat | p <= k < q ensures a[k] < |b1| && b1[a[k]] {
      assert a[k] in a;
      assert a[k] !in a[..p];
    }
  }

  lemma CountEntries(length: int, n: nat, used: nat, cnt: nat, cap: nat, length': int)
    requires length > 0 && n == SectorsFor(length + 512 * used) && used <= n && length' == length - 512 * cnt
    requires cnt <= cap && (length' <= 0 || cnt == cap) && (cnt > 0 ==> length > 512 * (cnt - 1))
    ensures used + cnt == Min(n, used + cap) && (length' > 0 <==> used + cnt < n)
  {
  }

  /** One turn of the second loop: the entries of an index block, then the block itself. */
  method FreeUnder(fs: FileSystem, at: nat, length0: int) returns (ok: bool, length: int, ghost cnt: nat)
    requires fs.Valid() && length0 > 0
    modifies fs.freeMap.words
    ensures ok ==> 0 < cnt <= 125 && length == length0 - 512 * cnt && (length <= 0 || cnt == 125) && length0 > 512 * (cnt - 1)
    ensures ok ==> Released(old(fs.Bits()), fs.Bits(), NodeAt(fs.disk, at).sector[..cnt] + [at])
    ensures AllReleasable(old(fs.Bits()), NodeAt(fs.disk, at).sector, length0, [at]) ==> ok
    ensures ok <==> Releasable(old(fs.Bits()), NodeAt(fs.disk, at).sector[..Min(125, SectorsFor(length0))] + [at])
    ensures FreesOnly(old(fs.Bits()), fs.Bits(), NodeAt(fs.disk, at).sector + [at])
  {
    var leaf := NodeAt(fs.disk, at);
    ghost var b0 := fs.Bits();
    var n;
    ok, length, n := FreeEntries(fs, leaf.sector, length0);
    if !ok {
      cnt := n + 1;
      assert Reach(leaf.sector, cnt, [at]) == leaf.sector[..cnt] + [at];
      if Releasable(b0, leaf.sector[..cnt] + [at]) {
        PrefixReleasable(b0, leaf.sector[..cnt], at);
      }
      LongerNotReleasable(b0, leaf.sector, cnt, Min(125, SectorsFor(length0)), at);
      return;
    }
    cnt := n;
    assert cnt == Min(125, SectorsFor(length0));
    assert Reach(leaf.sector, cnt, [at]) == leaf.sector[..cnt] + [at];
    ghost var b1 := fs.Bits();
    if at >= |fs.disk| {
      assert at in leaf.sector[..cnt] + [at];
      return false, length, cnt;
    }
    ok := fs.Release(at);
    if !ok {
      assert at in leaf.sector[..cnt] + [at];
      BlockNotReleasable(b0, b1, leaf.sector[..cnt], at);
      return;
    }
    assert Released(b1, fs.Bits(), [at]);
    OneMoreReleasable(b0, leaf.sector[..cnt], at);
    ReleasedMore(b0, b1, fs.Bits(), leaf.sector[..cnt], [at]);
  }

  lemma LongerNotReleasable(bits: seq<bool>, xs: seq<nat>, c: nat, d: nat, x: nat)
    requires c <= d <= |xs| && !Releasable(bits, xs[..c])
    ensures !Releasable(bits, xs[..d] + [x])
  {
    assert xs[..d][..c] == xs[..c];
    if Releasable(bits, xs[..d] + [x]) {
      PrefixReleasable(bits, xs[..d], x);
      SubReleasable(bits, xs[..d], c);
    }
  }

  lemma PrefixReleasable(bits: seq<bool>, xs: seq<nat>, x: nat)
    requires Releasable(bits, xs + [x])
    ensures Releasable(bits, xs)
  {
    forall i: nat, j: nat | i < j < |xs| ensures xs[i] != xs[j] {
      assert (xs + [x])[i] != (xs + [x])[j];
    }
  }

  lemma BlockNotReleasable(b0: seq<bool>, b1: seq<bool>, xs: seq<nat>, x: nat)
    requires Released(b0, b1, xs) && x < |b0| && !b1[x]
    ensures !Releasable(b0, xs + [x])
  {
    assert (xs + [x])[|xs|] == x && x in xs + [x];
    if b0[x] {
      var i :| 0 <= i < |xs| && xs[i] == x;
      assert (xs + [x])[i] == x;
    }
  }

  /** How far the first loops have got: i leaves of the inode, and used data sectors. */
  ghost predicate FreedUpTo(b0: seq<bool>, bits: seq<bool>, a: seq<nat>, n: nat, i: nat, length: int) {
    var used := Min(n, 119 + 125 * i);
    && i <= 5 && |a| == Held(n) && Released(b0, bits, a[..Min(|a|, 119 + 126 * i)])
    && (length > 0 <==> used < n)
  }

  lemma LeafPrefixCanBeFreed(b0: seq<bool>, bits: seq<bool>, disk: Disk, node: InodeDisk, sector: nat, a: seq<nat>, i: nat,
                             length: int, c: nat)
    requires FileOk(disk, node, a) && Owns(b0, sector, a) && i < 5 && c <= 125
    requires length == node.length - 512 * (119 + 125 * i) && length > 0 && length > 512 * (c - 1)
    requires Released(b0, bits, a[..Min(|a|, 119 + 126 * i)])
    ensures 119 + 126 * i < |a| && Releasable(bits, Reach(NodeAt(disk, node.sector[119 + i]).sector, c, [node.sector[119 + i]]))
  {
    hide FileOk, Released, Releasable;
    var p, m := 119 + 126 * i, if c > 0 then c else 1;
    LeafEntries(disk, node, a, i, m);
    StretchReleasable(b0, bits, a, p, p + 1 + m);
    assert NodeAt(disk, node.sector[119 + i]).sector[..c] == a[p + 1..p + 1 + c];
    StretchPrefixReleasable(bits, a, p, m, c);
  }

  /** The block at p and the c sectors after it can be released together. */
  lemma StretchPrefixReleasable(bits: seq<bool>, a: seq<nat>, p: nat, m: nat, c: nat)
    requires NoDup(a) && c <= m && p + 1 + m <= |a| && Releasable(bits, a[p + 1..p + 1 + m]) && a[p] < |bits| && bits[a[p]]
    ensures Releasable(bits, a[p + 1..p + 1 + c] + [a[p]])
  {
    var ys := a[p + 1..p + 1 + c] + [a[p]];
    forall x | x in ys ensures x < |bits| && bits[x] {
      assert x == a[p] || x in a[p + 1..p + 1 + m];
    }
    forall k: nat, l: nat | k < l < |ys| ensures ys[k] != ys[l] {
      assert ys[k] == a[p + 1 + k];
    }
  }

  lemma LeafCanBeFreed(b0: seq<bool>, bits: seq<bool>, disk: Disk, node: InodeDisk, sector: nat, a: seq<nat>, i: nat, length: int)
    requires FileOk(disk, node, a) && Owns(b0, sector, a) && i < 5
    requires length == node.length - 512 * (119 + 125 * i) && length > 0
    requires Released(b0, bits, a[..Min(|a|, 119 + 126 * i)])
    ensures 119 + 126 * i < |a|
    ensures AllReleasable(bits, NodeAt(disk, node.sector[119 + i]).sector, length, [node.sector[119 + i]])
  {
    var entries, at := NodeAt(disk, node.sector[119 + i]).sector, node.sector[119 + i];
    LeafPrefixCanBeFreed(b0, bits, disk, node, sector, a, i, length, 0);
    forall c: nat | c <= |entries| && length > 512 * (c - 1) ensures Releasable(bits, Reach(entries, c, [at])) {
      LeafPrefixCanBeFreed(b0, bits, disk, node, sector, a, i, length, c);
    }
  }

  lemma LeafFreed(b0: seq<bool>, b1: seq<bool>, b2: seq<bool>, disk: Disk, node: InodeDisk, a: seq<nat>, i: nat, n: nat,
                  length: int, cnt: nat, length': int)
    requires FileOk(disk, node, a) && n == SectorsFor(node.length) && i < 5 && FreedUpTo(b0, b1, a, n, i, length)
    requires length > 0 && length == node.length - 512 * (119 + 125 * i) && 119 + 126 * i < |a|
    requires 0 < cnt <= 125 && length' == length - 512 * cnt && (length' <= 0 || cnt == 125) && length > 512 * (cnt - 1)
    requires Released(b1, b2, NodeAt(disk, node.sector[119 + i]).sector[..cnt] + [node.sector[119 + i]])
    ensures FreedUpTo(b0, b2, a, n, i + 1, length')
    ensures length' > 0 ==> length' == node.length - 512 * (119 + 125 * (i + 1))
  {
    hide FileOk, Released;
    var p := 119 + 126 * i;
    CountEntries(length, n, 119 + 125 * i, cnt, 125, length');
    LeafEntries(disk, node, a, i, cnt);
    var q := p + 1 + cnt;
    assert Min(|a|, 119 + 126 * (i + 1)) == q by {
      LastDataIsLast(119 + 125 * i + cnt);
      HeldWithin(n, i, cnt);
    }
    StretchReleased(b0, b1, b2, a, p, q);
  }

  /** After the sectors before p, the ones after p and p itself. */
  lemma StretchReleased(b0: seq<bool>, b1: seq<bool>, b2: seq<bool>, a: seq<nat>, p: nat, q: nat)
    requires p < q <= |a| && Released(b0, b1, a[..p]) && Released(b1, b2, a[p + 1..q] + [a[p]])
    ensures Released(b0, b2, a[..q])
  {
    assert a[..q] == a[..p] + [a[p]] + a[p + 1..q];
    forall x: nat | x < |b0| ensures b2[x] == (b0[x] && x !in a[..q]) {
      assert x in a[..q] <==> x in a[..p] || x == a[p] || x in a[p + 1..q];
    }
  }

  lemma HeldWithin(n: nat, i: nat, cnt: nat)
    requires i < 5 && 0 < cnt <= 125 && 119 + 125 * i + cnt == Min(n, 119 + 125 * i + 125)
    ensures Min(Held(n), 119 + 126 * (i + 1)) == 119 + 126 * i + 1 + cnt
  {
  }

  /** The data under the outer block is not among what its turn of the loop releases. */
  lemma DoubleDataSurvives(disk: Disk, node: InodeDisk, sector: nat, bits: seq<bool>, a: seq<nat>, cnt: nat)
    requires FileOk(disk, node, a) && Owns(bits, sector, a) && 0 !in a && SectorsFor(node.length) > 744 && cnt <= 125
    ensures 751 < |a| && a[751] in a && a[751] != sector
    ensures a[751] !in NodeAt(disk, node.sector[124]).sector[..cnt] + [node.sector[124]]
    ensures a[751] !in a[..749]
  {
    OuterInPlace(disk, node, a);
    DataPosBound(744, SectorsFor(node.length));
    assert DataPos(744) == 751;
    var xs := NodeAt(disk, node.sector[124]).sector[..cnt] + [node.sector[124]];
    forall k: nat | k < |xs| ensures xs[k] != a[751] {
      if k < cnt {
        assert xs[k] == Entry(a, OUTER + 1 + 126 * k);
      }
    }
  }

  // ---- the outer block, taken for a leaf

  /** The entries of the outer block that its turn comes to: one for each data sector under it, up to 125. */
  function OuterTurn(n: nat): nat
    requires n > SINGLE_MAX
  {
    Min(125, n - 744)
  }

  /** Those of them that list no leaf, and read as sector 0. */
  function Blanks(n: nat): nat
    requires n > SINGLE_MAX
  {
    var leaves := (n - 744 + 124) / 125;
    if OuterTurn(n) <= leaves then 0 else OuterTurn(n) - leaves
  }

  lemma OuterEntry(disk: Disk, node: InodeDisk, a: seq<nat>, n: nat, k: nat)
    requires FileOk(disk, node, a) && n == SectorsFor(node.length) > SINGLE_MAX && k < 125
    ensures 749 < |a| && node.sector[124] == a[749]
    ensures var x := NodeAt(disk, a[749]).sector[k];
            if k < (n - 744 + 124) / 125 then 750 + 126 * k < |a| && x == a[750 + 126 * k] else x == 0
  {
    OuterInPlace(disk, node, a);
    assert |a| == n + 6 + (n - 744 + 124) / 125;
    assert NodeAt(disk, a[749]).sector[k] == Entry(a, OUTER + 1 + 126 * k);
  }

  /** The leaves and the outer block itself can be released. */
  lemma OuterLeavesReleasable(b0: seq<bool>, bits: seq<bool>, disk: Disk, node: InodeDisk, sector: nat, a: seq<nat>, n: nat, c: nat)
    requires FileOk(disk, node, a) && Owns(b0, sector, a) && 0 !in a && n == SectorsFor(node.length) > SINGLE_MAX
    requires Released(b0, bits, a[..749]) && c <= 125 && c <= (n - 744 + 124) / 125
    ensures 749 < |a| && Releasable(bits, NodeAt(disk, a[749]).sector[..c] + [a[749]])
    ensures 0 !in NodeAt(disk, a[749]).sector[..c] + [a[749]]
  {
    hide FileOk, Released;
    OuterEntry(disk, node, a, n, 0);
    var xs := NodeAt(disk, a[749]).sector[..c] + [a[749]];
    forall k: nat | k < |xs| ensures xs[k] in a && xs[k] < |bits| && bits[xs[k]] {
      if k < c {
        OuterEntry(disk, node, a, n, k);
      }
      NotYetReleased(b0, bits, sector, a, if k < c then 750 + 126 * k else 749);
    }
    forall k: nat, l: nat | k < l < |xs| ensures xs[k] != xs[l] {
      OuterEntry(disk, node, a, n, k);
      if l < c {
        OuterEntry(disk, node, a, n, l);
      }
    }
  }

  lemma NotYetReleased(b0: seq<bool>, bits: seq<bool>, sector: nat, a: seq<nat>, k: nat)
    requires Owns(b0, sector, a) && 749 <= k < |a| && Released(b0, bits, a[..749])
    ensures a[k] in a && a[k] < |bits| && bits[a[k]]
  {
    assert a[k] !in a[..749];
  }

  ghost predicate ZeroInUse(bits: seq<bool>) {
    0 < |bits| && bits[0]
  }

  /** The turn of the outer block fails if it comes to two blank entries, or to one and sector 0 is free. */
  lemma OuterReleasable(b0: seq<bool>, bits: seq<bool>, disk: Disk, node: InodeDisk, sector: nat, a: seq<nat>, n: nat)
    requires FileOk(disk, node, a) && Owns(b0, sector, a) && 0 !in a && n == SectorsFor(node.length) > SINGLE_MAX
    requires Released(b0, bits, a[..749])
    ensures 749 < |a|
    ensures Releasable(bits, NodeAt(disk, a[749]).sector[..OuterTurn(n)] + [a[749]]) <==>
              Blanks(n) == 0 || (Blanks(n) == 1 && ZeroInUse(b0))
  {
    hide FileOk;
    var c, z := OuterTurn(n), Blanks(n);
    OuterEntry(disk, node, a, n, 0);
    var E, at := NodeAt(disk, a[749]).sector, a[749];
    var xs := E[..c] + [at];
    if z == 0 {
      OuterLeavesReleasable(b0, bits, disk, node, sector, a, n, c);
    } else {
      OuterEntry(disk, node, a, n, c - 1);
      assert xs[c - 1] == 0 && 0 in xs;
      assert ZeroInUse(bits) == ZeroInUse(b0) by {
        assert 0 !in a[..749];
      }
      if z >= 2 {
        OuterEntry(disk, node, a, n, c - 2);
        assert xs[c - 2] == xs[c - 1];
      } else {
        OuterLeavesReleasable(b0, bits, disk, node, sector, a, n, c - 1);
        BlankReleasable(bits, E[..c - 1], at);
        assert E[..c] == E[..c - 1] + [0];
      }
    }
  }

  lemma BlankReleasable(bits: seq<bool>, xs: seq<nat>, x: nat)
    requires Releasable(bits, xs + [x]) && 0 !in xs + [x]
    ensures ZeroInUse(bits) ==> Releasable(bits, xs + [0] + [x])
  {
    var ys, zs := xs + [x], xs + [0] + [x];
    forall i: nat, j: nat | i < j < |zs| ensures zs[i] != zs[j] {
      assert i < |xs| ==> zs[i] == ys[i];
      assert j < |xs| ==> zs[j] == ys[j];
      assert j == |zs| - 1 ==> zs[j] == ys[|xs|];
      assert ys[|xs|] in ys && (i < |xs| ==> ys[i] in ys);
    }
    assert forall y | y in zs :: y == 0 || y in ys;
  }

  /** How inode_free_all ends, told from the size of the file. */
  ghost function FreeEnd(n: nat, bits: seq<bool>, sector: nat): FreeResult {
    if n <= SINGLE_MAX then Freed
    else if Blanks(n) > 1 || (Blanks(n) == 1 && (!ZeroInUse(bits) || (sector == 0 && n <= 869))) then AssertionFails
    else if n > 869 then OutOfBounds
    else Freed
  }

  /** The sectors of a file of n data sectors that inode_free_all frees, if it comes to its end. */
  ghost function Doomed(n: nat, a: seq<nat>, sector: nat): seq<nat> {
    if n <= SINGLE_MAX || |a| <= 750 then a + [sector]
    else if n == 745 then a[..751] + [sector]
    else [0] + a[..751] + [sector]
  }

  /** Removing a file of 746 data sectors frees sector 0, where the free map's own inode is. */
  lemma SectorZeroIsFreed(bits: seq<bool>, a: seq<nat>, sector: nat)
    requires ZeroInUse(bits) && sector != 0 && |a| == Held(746)
    ensures FreeEnd(746, bits, sector) == Freed && 0 in Doomed(746, a, sector)
  {
    assert Blanks(746) == 1;
    assert Doomed(746, a, sector)[0] == 0;
  }

  lemma FileFacts(bits: seq<bool>, disk: Disk, node: InodeDisk, sector: nat, a: seq<nat>)
    requires FileOk(disk, node, a) && Owns(bits, sector, a) && sector < |disk| && disk[sector] == Index(node)
    ensures |node.sector| == TOTAL_SECTOR_CNT && NodeAt(disk, sector) == node && sector < |bits| && bits[sector]
  {
  }

  lemma DirectAreOwn(b0: seq<bool>, bits: seq<bool>, disk: Disk, node: InodeDisk, a: seq<nat>)
    requires FileOk(disk, node, a) && FreesOnly(b0, bits, node.sector[..119])
    ensures FreesOnly(b0, bits, [0] + a)
  {
    forall x | x in node.sector[..119] ensures x in [0] + a {
      var k: nat :| k < 119 && node.sector[..119][k] == x;
      assert x == Entry(a, k);
    }
  }

  /** A block that the second loop comes to, and what it lists, belong to the file or are sector 0. */
  lemma UnderAreOwn(b0: seq<bool>, b1: seq<bool>, b2: seq<bool>, disk: Disk, node: InodeDisk, a: seq<nat>, i: nat)
    requires FileOk(disk, node, a) && i <= 5 && 119 + 126 * i < |a| && FreesOnly(b0, b1, [0] + a)
    requires FreesOnly(b1, b2, NodeAt(disk, node.sector[119 + i]).sector + [node.sector[119 + i]])
    ensures FreesOnly(b0, b2, [0] + a)
  {
    var at := node.sector[119 + i];
    assert at == a[119 + 126 * i];
    var xs := NodeAt(disk, at).sector + [at];
    forall x | x in xs ensures x in [0] + a {
      var k: nat :| k < |xs| && xs[k] == x;
      if k < 125 {
        assert x == Entry(a, if i < 5 then 119 + 126 * i + 1 + k else OUTER + 1 + 126 * k);
      }
    }
    FreesOnlyMore(b0, b1, b2, [0] + a, xs);
  }

  lemma LastIsOwn(b0: seq<bool>, b1: seq<bool>, a: seq<nat>, sector: nat)
    requires FreesOnly(b0, b1, [0] + a) && sector < |b1|
    ensures FreesOnly(b0, b1, [0] + a + [sector]) && FreesOnly(b0, b1[sector := false], [0] + a + [sector])
  {
  }

  /** The outer block has been freed as a leaf is. */
  ghost predicate PastOuter(b0: seq<bool>, bits: seq<bool>, a: seq<nat>, n: nat, length: int) {
    && n > SINGLE_MAX && |a| > 751 && (length > 0 <==> n > 869)
    && (Blanks(n) == 0 || (Blanks(n) == 1 && ZeroInUse(b0)))
    && (n <= 869 ==> n <= 746 && Released(b0, bits, if n == 745 then a[..751] else [0] + a[..751]))
  }

  lemma ToTheOuter(b0: seq<bool>, b1: seq<bool>, disk: Disk, node: InodeDisk, sector: nat, a: seq<nat>, n: nat, length: int)
    requires FileOk(disk, node, a) && Owns(b0, sector, a) && 0 !in a && n == SectorsFor(node.length)
    requires FreedUpTo(b0, b1, a, n, 5, length) && length > 0 && length == node.length - 512 * 744
    ensures n > SINGLE_MAX && 749 < |a| && node.sector[124] == a[749] && OuterTurn(n) == Min(125, SectorsFor(length))
    ensures Released(b0, b1, a[..749])
    ensures Releasable(b1, NodeAt(disk, a[749]).sector[..OuterTurn(n)] + [a[749]]) <==>
              Blanks(n) == 0 || (Blanks(n) == 1 && ZeroInUse(b0))
  {
    hide FileOk, Released, Releasable, Owns;
    OuterEntry(disk, node, a, n, 0);
    OuterReleasable(b0, b1, disk, node, sector, a, n);
  }

  lemma OuterFails(bits: seq<bool>, n: nat, sector: nat)
    requires n > SINGLE_MAX && !(Blanks(n) == 0 || (Blanks(n) == 1 && ZeroInUse(bits)))
    ensures FreeEnd(n, bits, sector) == AssertionFails
  {
  }

  lemma OuterFreed(b0: seq<bool>, b1: seq<bool>, b2: seq<bool>, disk: Disk, node: InodeDisk, sector: nat, a: seq<nat>, n: nat,
                   length: int, k: nat, length': int)
    requires FileOk(disk, node, a) && n == SectorsFor(node.length) > SINGLE_MAX && |a| > 751 && Released(b0, b1, a[..749])
    requires length == node.length - 512 * 744 && 0 < k <= 125 && length' == length - 512 * k && (length' <= 0 || k == 125)
    requires length > 512 * (k - 1) && Released(b1, b2, NodeAt(disk, a[749]).sector[..k] + [a[749]])
    requires Blanks(n) == 0 || (Blanks(n) == 1 && ZeroInUse(b0))
    ensures PastOuter(b0, b2, a, n, length')
  {
    hide FileOk;
    if n <= 869 {
      assert k == n - 744 <= 2;
      OuterEntry(disk, node, a, n, 0);
      OuterEntry(disk, node, a, n, 1);
      var xs := NodeAt(disk, a[749]).sector[..k] + [a[749]];
      assert xs == if k == 1 then [a[750], a[749]] else [a[750], 0, a[749]];
      ReleasedMore(b0, b1, b2, a[..749], xs);
      assert a[..751] == a[..749] + [a[749], a[750]];
      var ys := if k == 1 then a[..751] else [0] + a[..751];
      forall x: nat ensures x in a[..749] + xs <==> x in ys {
        assert x in a[..751] <==> x in a[..749] || x == a[749] || x == a[750];
        assert x in xs <==> x == a[750] || x == a[749] || (k == 2 && x == 0);
      }
    }
  }

  lemma SurvivorStays(b0: seq<bool>, b1: seq<bool>, b2: seq<bool>, sector: nat, a: seq<nat>, xs: seq<nat>, k: nat)
    requires Owns(b0, sector, a) && 749 <= k < |a| && Released(b0, b1, a[..749]) && Released(b1, b2, xs) && a[k] !in xs
    ensures a[k] < |b2| && b2[a[k]]
  {
    NotYetReleased(b0, b1, sector, a, k);
  }

  lemma PastTheEnd(b0: seq<bool>, bits: seq<bool>, a: seq<nat>, n: nat, length: int, sector: nat)
    requires PastOuter(b0, bits, a, n, length) && length > 0 && FreesOnly(b0, bits, [0] + a)
    ensures FreeEnd(n, b0, sector) == OutOfBounds && FreesOnly(b0, bits, [0] + a + [sector])
  {
  }

  lemma SmallEnd(n: nat, bits: seq<bool>, a: seq<nat>, sector: nat)
    requires n <= SINGLE_MAX
    ensures FreeEnd(n, bits, sector) == Freed && Doomed(n, a, sector) == a + [sector]
  {
  }

  lemma LargeFileReleased(b0: seq<bool>, b1: seq<bool>, a: seq<nat>, n: nat, length: int, sector: nat)
    requires PastOuter(b0, b1, a, n, length) && length <= 0 && Owns(b0, sector, a)
    ensures sector < |b1| && FreeEnd(n, b0, sector) == (if b1[sector] then Freed else AssertionFails)
    ensures Released(b0, b1[sector := false], Doomed(n, a, sector))
  {
    var xs := if n == 745 then a[..751] else [0] + a[..751];
    assert sector !in a[..751];
    ReleasedMore(b0, b1, b1[sector := false], xs, [sector]);
    assert Doomed(n, a, sector) == xs + [sector];
    assert Blanks(745) == 0 && Blanks(746) == 1;
  }

  lemma WholeFileReleased(b0: seq<bool>, b1: seq<bool>, a: seq<nat>, n: nat, i: nat, sector: nat)
    requires FreedUpTo(b0, b1, a, n, i, 0) && Owns(b0, sector, a)
    ensures n <= SINGLE_MAX && sector < |b1| && b1[sector] && Released(b0, b1[sector := false], a + [sector])
  {
    assert Min(|a|, 119 + 126 * i) == |a| && a[..|a|] == a;
    ReleasedMore(b0, b1, b1[sector := false], a, [sector]);
  }

  lemma SurvivorIsNotReleased(b0: seq<bool>, b1: seq<bool>, a: seq<nat>, sector: nat, k: nat)
    requires k < |a| && a[k] < |b1| && b1[a[k]] && a[k] != sector && sector < |b1| && |b0| == |b1|
    ensures !Released(b0, b1[sector := false], a + [sector])
  {
    assert (a + [sector])[k] == a[k] && a[k] in a + [sector];
  }

  /**
   * inode_free_all.  The second loop runs past the five leaves of the inode into the outer
   * block, and then out of the inode's array of entries; its third loop is never reached.
   */
  method FreeAll(fs: FileSystem, sector: nat, ghost a: seq<nat>) returns (r: FreeResult)
    requires fs.Valid() && sector < |fs.disk| && fs.disk[sector].Index?
    requires FileOk(fs.disk, fs.disk[sector].node, a) && Owns(fs.Bits(), sector, a) && 0 !in a
    modifies fs.freeMap.words
    ensures (r.Freed? && Released(old(fs.Bits()), fs.Bits(), a + [sector])) <==>
              SectorsFor(fs.disk[sector].node.length) <= SINGLE_MAX
    ensures r == FreeEnd(SectorsFor(fs.disk[sector].node.length), old(fs.Bits()), sector)
    ensures r.Freed? ==> Released(old(fs.Bits()), fs.Bits(), Doomed(SectorsFor(fs.disk[sector].node.length), a, sector))
    ensures FreesOnly(old(fs.Bits()), fs.Bits(), [0] + a + [sector])
  {
    hide FileOk, Owns, Released, FreesOnly, Releasable, AllReleasable, FreeEnd, Doomed, Blanks;
    FileFacts(fs.Bits(), fs.disk, fs.disk[sector].node, sector, a);
    ghost var b0 := fs.Bits();
    var node := NodeAt(fs.disk, sector);
    ghost var n := SectorsFor(node.length);
    DirectCanBeFreed(b0, fs.disk, node, sector, a);
    var ok, length, cnt := FreeEntries(fs, node.sector[..119], node.length);
    DirectFreed(b0, fs.Bits(), fs.disk, node, a, length, cnt);
    DirectAreOwn(b0, fs.Bits(), fs.disk, node, a);
    var i := 0;
    while length > 0 && i < DIRECT_SECTOR_CNT + INDIRECT_SECTOR_CNT
      invariant i <= 6 && fs.Valid()
      invariant i <= 5 ==> FreedUpTo(b0, fs.Bits(), a, n, i, length)
      invariant i <= 5 && length > 0 ==> length == node.length - 512 * (119 + 125 * i)
      invariant i == 6 ==> n > SINGLE_MAX && 751 < |a| && a[751] != sector && a[751] < |fs.disk| && fs.Bits()[a[751]]
      invariant i == 6 ==> PastOuter(b0, fs.Bits(), a, n, length)
      invariant FreesOnly(b0, fs.Bits(), [0] + a)
      decreases 6 - i
    {
      if DIRECT_SECTOR_CNT + i >= TOTAL_SECTOR_CNT {
        PastTheEnd(b0, fs.Bits(), a, n, length, sector);
        return OutOfBounds;
      }
      ghost var b1, length1 := fs.Bits(), length;
      if i < 5 {
        LeafCanBeFreed(b0, b1, fs.disk, node, sector, a, i, length);
      } else {
        ToTheOuter(b0, b1, fs.disk, node, sector, a, n, length);
      }
      ghost var k;
      ok, length, k := FreeUnder(fs, node.sector[DIRECT_SECTOR_CNT + i], length);
      UnderAreOwn(b0, b1, fs.Bits(), fs.disk, node, a, i);
      if !ok {
        OuterFails(b0, n, sector);
        LastIsOwn(b0, fs.Bits(), a, sector);
        return AssertionFails;
      }
      if i < 5 {
        LeafFreed(b0, b1, fs.Bits(), fs.disk, node, a, i, n, length1, k, length);
      } else {
        DoubleDataSurvives(fs.disk, node, sector, b0, a, k);
        SurvivorStays(b0, b1, fs.Bits(), sector, a, NodeAt(fs.disk, a[749]).sector[..k] + [a[749]], 751);
        OuterFreed(b0, b1, fs.Bits(), fs.disk, node, sector, a, n, length1, k, length);
      }
      i := i + 1;
    }
    ghost var b1 := fs.Bits();
    if i == 6 {
      SurvivorIsNotReleased(b0, b1, a, sector, 751);
      LargeFileReleased(b0, b1, a, n, length, sector);
    } else {
      WholeFileReleased(b0, b1, a, n, i, sector);
      SmallEnd(n, b0, a, sector);
    }
    LastIsOwn(b0, b1, a, sector);
    ok := fs.Release(sector);
    r := if ok then Freed else AssertionFails;
  }

  lemma DirectCanBeFreed(bits: seq<bool>, disk: Disk, node: InodeDisk, sector: nat, a: seq<nat>)
    requires FileOk(disk, node, a) && Owns(bits, sector, a)
    ensures AllReleasable(bits, node.sector[..119], node.length, [])
  {
    forall c: nat | c <= 119 && node.length > 512 * (c - 1) ensures Releasable(bits, Reach(node.sector[..119], c, [])) {
      DirectEntries(disk, node, a, c);
      assert Reach(node.sector[..119], c, []) == a[..c];
      SubReleasable(bits, a, c);
    }
  }

  lemma DirectFreed(b0: seq<bool>, bits: seq<bool>, disk: Disk, node: InodeDisk, a: seq<nat>, length: int, cnt: nat)
    requires FileOk(disk, node, a) && cnt <= 119
    requires length == node.length - 512 * cnt && (length <= 0 || cnt == 119) && (cnt > 0 ==> node.length > 512 * (cnt - 1))
    requires Released(b0, bits, node.sector[..119][..cnt])
    ensures FreedUpTo(b0, bits, a, SectorsFor(node.length), 0, length)
    ensures length > 0 ==> length == node.length - 512 * 119
  {
    DirectEntries(disk, node, a, cnt);
    assert node.sector[..119][..cnt] == a[..cnt];
  }
}
