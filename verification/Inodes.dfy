/** Index blocks: the helpers of inode_create (filesys/inode.c:288-383), and appending to an index. */
module Inodes {
  import opened Wrappers
  import opened Storage
  import opened FileLayout
  import opened FreeSectors

  /** The index block of a leaf that lists the sectors a. */
  function LeafNode(a: seq<nat>, length: nat): (node: InodeDisk)
  {
    InodeDisk(seq(TOTAL_SECTOR_CNT, k requires 0 <= k => Entry(a, k)), length, 0)
  }

  function BlankNode(): InodeDisk {
    InodeDisk(seq(TOTAL_SECTOR_CNT, _ => 0), 0, 0)
  }

  ghost predicate AllZero(disk: Disk, a: seq<nat>) {
    forall k: nat | k < |a| :: a[k] < |disk| && disk[a[k]] == Data(ZeroSector())
  }

  /** Room left under the size limit when cur sectors are already counted. */
  function Room(cur: nat): nat {
    if cur < FILESYS_LIMIT_SECTORS then FILESYS_LIMIT_SECTORS - cur else 0
  }

  /** One data sector for the inode's own entries (lines 206-219). */
  method NewSector(fs: FileSystem) returns (x: Option<nat>, ghost taken: seq<nat>)
    requires fs.Valid()
    modifies fs, fs.freeMap.words
    ensures fs.Valid() && Took(old(fs.Bits()), fs.Bits(), taken)
    ensures x.None? ==> Scarce(old(fs.Bits()), 1) && Spare(fs.Bits()) == 0
    ensures Kept(old(fs.Bits()), old(fs.disk), fs.disk, {})
    ensures x.Some? ==> taken == [x.value] && x.value < |fs.disk| && fs.disk[x.value] == Data(ZeroSector())
    ensures x.None? ==> taken == []
  {
    x := fs.Allocate();
    taken := [];
    if x.Some? {
      fs.disk := fs.disk[x.value := Data(ZeroSector())];
      taken := [x.value];
    }
  }

  /** The sectors c were taken from the free map and hold zeros; no other sector in use has changed. */
  ghost predicate Gained(b0: seq<bool>, d0: Disk, b1: seq<bool>, d1: Disk, c: seq<nat>) {
    Took(b0, b1, c) && Kept(b0, d0, d1, {}) && AllZero(d1, c)
  }

  lemma GainedNothing(bits: seq<bool>, disk: Disk)
    requires |bits| == |disk|
    ensures Gained(bits, disk, bits, disk, [])
  {
  }

  /** Takes one more zeroed sector, if there is one. */
  method GainSector(fs: FileSystem, ghost b0: seq<bool>, ghost d0: Disk, ghost c: seq<nat>) returns (x: Option<nat>)
    requires fs.Valid() && Gained(b0, d0, fs.Bits(), fs.disk, c)
    modifies fs, fs.freeMap.words
    ensures fs.Valid() && Gained(b0, d0, fs.Bits(), fs.disk, if x.Some? then c + [x.value] else c)
    ensures x.None? ==> Scarce(b0, |c| + 1) && Spare(fs.Bits()) == 0
  {
    ghost var b1, d1 := fs.Bits(), fs.disk;
    ghost var taken;
    x, taken := NewSector(fs);
    Taking(b0, b1, fs.Bits(), d0, d1, fs.disk, c, taken);
    if x.None? {
      assert c + taken == c;
      ScarceAfter(b0, b1, c, 1);
    }
  }

  lemma LeafListed(a: seq<nat>, length: nat, x: nat)
    requires |a| < TOTAL_SECTOR_CNT
    ensures LeafNode(a + [x], length).sector == LeafNode(a, 0).sector[|a| := x]
  {
  }

  /** inode_create_direct: an index block at sector, with zeroed data sectors for length bytes. */
  method CreateDirect(fs: FileSystem, sector: nat, length: nat, cur0: nat)
    returns (ok: bool, cur: nat, ghost a: seq<nat>)
    requires fs.Valid() && sector < |fs.disk| && fs.Bits()[sector] && length <= LEAF_BYTES
    modifies fs, fs.freeMap.words
    ensures fs.Valid() && Took(old(fs.Bits()), fs.Bits(), a)
    ensures !ok ==> Scarce(old(fs.Bits()), Min(SectorsFor(length), Room(cur0 + 1))) && Spare(fs.Bits()) == 0
    ensures Kept(old(fs.Bits()), old(fs.disk), fs.disk, {sector})
    ensures ok ==> |a| == Min(SectorsFor(length), Room(cur0 + 1)) && cur == cur0 + 1 + |a|
    ensures ok ==> AllZero(fs.disk, a) && fs.disk[sector] == Index(LeafNode(a, Min(length, 512 * |a|)))
  {
    var node := BlankNode();
    var sectors := SectorsFor(length);
    cur := cur0 + 1;
    a := [];
    var cnt := 0;
    ok := true;
    while cnt < sectors && cur < FILESYS_LIMIT_SECTORS
      invariant 0 <= cnt <= sectors && |a| == cnt && cur == cur0 + 1 + cnt && cnt <= Room(cur0 + 1)
      invariant fs.Valid() && Gained(old(fs.Bits()), old(fs.disk), fs.Bits(), fs.disk, a)
      invariant node == LeafNode(a, Min(length, 512 * cnt))
    {
      var x := GainSector(fs, old(fs.Bits()), old(fs.disk), a);
      if x.None? {
        return false, cur, a;
      }
      LeafListed(a, Min(length, 512 * (cnt + 1)), x.value);
      a := a + [x.value];
      node := node.(sector := node.sector[cnt := x.value]);
      cur := cur + 1;
      cnt := cnt + 1;
      node := node.(length := if length < cnt * 512 then length else cnt * 512);
    }
    assert forall k: nat | k < |a| :: a[k] in a;
    fs.disk := fs.disk[sector := Index(node)];
  }

  // ---- sequences of leaves

  /** An index block that lists the leaves of a. */
  function OuterNode(a: seq<nat>, length: nat): InodeDisk {
    InodeDisk(seq(TOTAL_SECTOR_CNT, j requires 0 <= j => Entry(a, 126 * j)), length, 0)
  }

  /** The sectors a are leaves, each followed by its zeroed data sectors. */
  ghost predicate LeavesOn(disk: Disk, a: seq<nat>) {
    && (forall j: nat | 126 * j < |a| :: LeafAt(disk, a, 126 * j))
    && (forall q: nat | q < |a| && q % 126 != 0 :: a[q] < |disk| && disk[a[q]] == Data(ZeroSector()))
  }

  /** The leaves of a record how the length is spread over them. */
  ghost predicate LeavesRecord(disk: Disk, a: seq<nat>, length: nat) {
    forall j: nat | 126 * j < |a| ::
      a[126 * j] < |disk| && disk[a[126 * j]].Index? && disk[a[126 * j]].node.length == Min(LEAF_BYTES, length - LEAF_BYTES * j)
  }

  lemma RecordLeaf(disk: Disk, disk': Disk, a: seq<nat>, x: nat, c: seq<nat>, next: nat)
    requires |a| % 126 == 0 && |c| <= 125 && LeavesRecord(disk, a, |a| / 126 * LEAF_BYTES) && 0 < next <= LEAF_BYTES
    requires |disk'| == |disk| && forall k: nat | k < |a| :: a[k] < |disk| && disk'[a[k]] == disk[a[k]]
    requires x < |disk'| && disk'[x].Index? && disk'[x].node.length == next
    ensures LeavesRecord(disk', a + [x] + c, |a| / 126 * LEAF_BYTES + next)
  {
  }

  lemma LeafStable(disk: Disk, disk': Disk, a: seq<nat>, c: seq<nat>, p: nat)
    requires LeafAt(disk, a, p) && p + 126 <= |a| && |disk'| == |disk| && disk'[a[p]] == disk[a[p]]
    ensures LeafAt(disk', a + c, p)
  {
  }

  lemma LeavesKept(disk: Disk, disk': Disk, a: seq<nat>)
    requires LeavesOn(disk, a) && |disk'| == |disk|
    requires forall k: nat | k < |a| :: a[k] < |disk| && disk'[a[k]] == disk[a[k]]
    ensures LeavesOn(disk', a)
  {
    forall j: nat | 126 * j < |a| ensures LeafAt(disk', a, 126 * j) {
      assert LeafAt(disk, a, 126 * j);
    }
  }

  /** A full run of leaves stays in place when another leaf is appended. */
  lemma AppendLeaf(disk: Disk, disk': Disk, a: seq<nat>, x: nat, c: seq<nat>, len: nat)
    requires LeavesOn(disk, a) && |a| % 126 == 0 && |c| <= 125 && |disk'| == |disk| && x < |disk|
    requires forall k: nat | k < |a| :: a[k] < |disk| && disk'[a[k]] == disk[a[k]]
    requires disk'[x] == Index(LeafNode(c, len)) && AllZero(disk', c)
    ensures LeavesOn(disk', a + [x] + c)
  {
    var a' := a + [x] + c;
    forall j: nat | 126 * j < |a'| ensures LeafAt(disk', a', 126 * j) {
      if 126 * j < |a| {
        LeafStable(disk, disk', a, [x] + c, 126 * j);
        assert a + ([x] + c) == a';
      } else {
        assert 126 * j == |a|;
        assert forall k: nat | k < 125 :: Entry(a', |a| + 1 + k) == Entry(c, k);
      }
    }
    forall q: nat | q < |a'| && q % 126 != 0 ensures a'[q] < |disk'| && disk'[a'[q]] == Data(ZeroSector()) {
      if q >= |a| {
        assert a'[q] == c[q - |a| - 1];
      }
    }
  }

  /** Sectors that inode_create_indirect takes for length bytes, given the sectors counted so far. */
  function LeavesWanted(length: nat, cur0: nat): nat {
    Min(LeavesHeld(SectorsFor(length)), Room(cur0))
  }

  /** Bookkeeping of the leaf loop: full leaves while it runs, and the right total when it stops. */
  predicate LeafCount(length: nat, left: nat, cnt: nat, cur0: nat, alen: nat) {
    if left > 0 && cur0 + alen < FILESYS_LIMIT_SECTORS then alen == 126 * cnt && length == left + LEAF_BYTES * cnt
    else alen == LeavesWanted(length, cur0)
  }

  lemma LeafCountStarts(length: nat, cur0: nat)
    ensures LeafCount(length, length, 0, cur0, 0)
  {
  }

  lemma LeafCountBound(length: nat, left: nat, cnt: nat, cur0: nat, alen: nat)
    requires LeafCount(length, left, cnt, cur0, alen)
    ensures alen <= LeavesWanted(length, cur0)
  {
    if left > 0 && cur0 + alen < FILESYS_LIMIT_SECTORS {
      assert SectorsFor(length) >= 125 * cnt;
    }
  }

  lemma SectorsGrow(bytes: nat, more: nat)
    requires bytes <= more
    ensures SectorsFor(bytes) <= SectorsFor(more)
  {
  }

  lemma LeafSizes(cnt: nat, next: nat)
    requires 0 < next <= LEAF_BYTES
    ensures LeavesHeld(SectorsFor(LEAF_BYTES * cnt + next)) == 126 * cnt + 1 + SectorsFor(next)
    ensures SectorsFor(next) <= 125 && (next == LEAF_BYTES ==> SectorsFor(next) == 125)
  {
    assert SectorsFor(LEAF_BYTES * cnt + next) == 125 * cnt + SectorsFor(next);
    LeavesShift(cnt, SectorsFor(next));
  }

  lemma LeavesShift(cnt: nat, k: nat)
    requires 0 < k <= 125
    ensures LeavesHeld(125 * cnt + k) == 126 * cnt + 1 + k
  {
  }

  lemma LeafSizesBound(cnt: nat, left: nat)
    requires left > LEAF_BYTES
    ensures LeavesHeld(SectorsFor(LEAF_BYTES * cnt + left)) > 126 * cnt + 126
  {
  }

  lemma LeafCountTurns(length: nat, left: nat, cnt: nat, cur0: nat, alen: nat, next: nat, clen: nat)
    requires 0 < left && cur0 + alen < FILESYS_LIMIT_SECTORS && LeafCount(length, left, cnt, cur0, alen)
    requires next == Min(left, LEAF_BYTES) && clen == Min(SectorsFor(next), Room(cur0 + alen + 1))
    ensures clen <= 125 && LeafCount(length, left - next, cnt + 1, cur0, alen + 1 + clen)
    ensures LeavesHeld(SectorsFor(length)) <= Room(cur0) ==>
              clen == SectorsFor(next) && (left - next > 0 ==> cur0 + alen + 1 + clen < FILESYS_LIMIT_SECTORS)
  {
    LeafSizes(cnt, next);
    if left > LEAF_BYTES {
      LeafSizesBound(cnt, left);
    }
  }

  /** Releases the index block x after its data could not be allocated. */
  method GiveBack(fs: FileSystem, x: nat, ghost b0: seq<bool>, ghost c: seq<nat>)
    requires fs.Valid() && x < |fs.disk| && Took(b0, fs.Bits(), [x] + c)
    modifies fs.freeMap.words
    ensures fs.Valid() && Took(b0, fs.Bits(), c) && Spare(fs.Bits()) == old(Spare(fs.Bits())) + 1
  {
    FreeCount(b0, fs.Bits(), [x] + c);
    assert [] + [x] + c == [x] + c && [] + c == c;
    TookLess(b0, fs.Bits(), [], x, c);
    var _ := fs.Release(x);
    FreeCount(b0, fs.Bits(), c);
  }

  /** Free sectors after a leaf could not be made for want of some of the p that were free: its index block. */
  function LeafBack(p: nat): nat {
    if p == 0 then 0 else 1
  }

  /** Free sectors after a row of leaves could not be made: the index block of the leaf that failed. */
  function LeavesBack(p: nat): nat {
    LeafBack(p % 126)
  }

  /** Free sectors after the leaves of an outer block could not be made: the same, and the outer block. */
  function OuterBack(p: nat): nat {
    if p == 0 then 0 else 1 + LeavesBack(p - 1)
  }

  /** Allocating an index block and filling it, the pattern of lines 312-323 and 477-492. */
  method NewLeaf(fs: FileSystem, length: nat, cur0: nat)
    returns (leaf: Option<nat>, cur: nat, ghost c: seq<nat>, ghost taken: seq<nat>)
    requires fs.Valid() && length <= LEAF_BYTES
    modifies fs, fs.freeMap.words
    ensures fs.Valid() && Took(old(fs.Bits()), fs.Bits(), taken)
    ensures leaf.None? ==> Scarce(old(fs.Bits()), 1 + Min(SectorsFor(length), Room(cur0 + 1)))
    ensures leaf.None? ==> Spare(fs.Bits()) == LeafBack(Spare(old(fs.Bits())))
    ensures Kept(old(fs.Bits()), old(fs.disk), fs.disk, {})
    ensures leaf.Some? ==> taken == [leaf.value] + c && leaf.value < |fs.disk|
    ensures leaf.Some? ==> |c| == Min(SectorsFor(length), Room(cur0 + 1)) && cur == cur0 + 1 + |c|
    ensures leaf.Some? ==>
              AllZero(fs.disk, c) && fs.disk[leaf.value] == Index(LeafNode(c, Min(length, 512 * |c|)))
  {
    ghost var b0 := fs.Bits();
    leaf := fs.Allocate();
    cur, c, taken := cur0, [], [];
    if leaf.None? {
      return;
    }
    ghost var b1 := fs.Bits();
    var done;
    done, cur, c := CreateDirect(fs, leaf.value, length, cur0);
    TookMore(b0, b1, fs.Bits(), [leaf.value], c);
    taken := [leaf.value] + c;
    if !done {
      FreeCount(b0, b1, [leaf.value]);
      ScarceAfter(b0, b1, [leaf.value], Min(SectorsFor(length), Room(cur0 + 1)));
      GiveBack(fs, leaf.value, b0, c);
      return None, cur, c, c;
    }
  }

  /** The leaves made so far, and the copy of the index block that lists them. */
  ghost predicate LeavesSoFar(b0: seq<bool>, d0: Disk, bits: seq<bool>, disk: Disk, a: seq<nat>, node: InodeDisk, fits: bool) {
    && Took(b0, bits, a) && Kept(b0, d0, disk, {}) && LeavesOn(disk, a)
    && node.sector == OuterNode(a, 0).sector && (fits ==> LeavesRecord(disk, a, node.length))
  }

  /** One turn of a loop that files data under consecutive leaves. */
  lemma LeavesTurn(b0: seq<bool>, d0: Disk, b1: seq<bool>, d1: Disk, b2: seq<bool>, d2: Disk, a: seq<nat>,
                   node: InodeDisk, node': InodeDisk, fits: bool, cnt: nat, x: nat, c: seq<nat>, next: nat)
    requires LeavesSoFar(b0, d0, b1, d1, a, node, fits) && |a| == 126 * cnt && cnt < 125 && |c| <= 125
    requires node.length == LEAF_BYTES * cnt && 0 < next <= LEAF_BYTES && (fits ==> |c| == SectorsFor(next))
    requires Took(b1, b2, [x] + c) && Kept(b1, d1, d2, {}) && x < |d2|
    requires d2[x] == Index(LeafNode(c, Min(next, 512 * |c|))) && AllZero(d2, c)
    requires node'.sector == node.sector[cnt := x] && node'.length == node.length + next
    ensures LeavesSoFar(b0, d0, b2, d2, a + [x] + c, node', fits)
  {
    TookMore(b0, b1, b2, a, [x] + c);
    assert a + ([x] + c) == a + [x] + c;
    forall k: nat | k < |a| ensures a[k] < |d1| && d2[a[k]] == d1[a[k]] {
      assert a[k] in a;
    }
    AppendLeaf(d1, d2, a, x, c, Min(next, 512 * |c|));
    assert OuterNode(a + [x] + c, 0).sector == OuterNode(a, 0).sector[cnt := x];
    if fits {
      assert next <= 512 * |c|;
      RecordLeaf(d1, d2, a, x, c, next);
    }
  }

  lemma LeavesScarce(length: nat, left: nat, cnt: nat, cur0: nat, next: nat, b0: seq<bool>, b1: seq<bool>, a: seq<nat>)
    requires 0 < left && cur0 + |a| < FILESYS_LIMIT_SECTORS && LeafCount(length, left, cnt, cur0, |a|)
    requires next == Min(left, LEAF_BYTES) && Took(b0, b1, a)
    requires Scarce(b1, 1 + Min(SectorsFor(next), Room(cur0 + |a| + 1)))
    ensures Scarce(b0, LeavesWanted(length, cur0)) && LeavesBack(Spare(b0)) == LeafBack(Spare(b1))
  {
    hide Took, Spare, LeavesBack, LeafBack, LeavesWanted, SectorsFor, LeavesHeld;
    var clen := Min(SectorsFor(next), Room(cur0 + |a| + 1));
    LeafCountTurns(length, left, cnt, cur0, |a|, next, clen);
    LeafCountBound(length, left - next, cnt + 1, cur0, |a| + 1 + clen);
    ScarceAfter(b0, b1, a, 1 + clen);
    FreeCount(b0, b1, a);
    FullLeavesBack(cnt, Spare(b1));
  }

  lemma FullLeavesBack(cnt: nat, p: nat)
    requires p < 126
    ensures LeavesBack(126 * cnt + p) == LeafBack(p)
  {
  }

  /** The loop of inode_create_indirect: leaf after leaf until the length is covered. */
  method FillLeaves(fs: FileSystem, length: nat, cur0: nat)
    returns (ok: bool, cur: nat, node: InodeDisk, ghost a: seq<nat>)
    requires fs.Valid() && length <= OUTER_BYTES
    modifies fs, fs.freeMap.words
    ensures fs.Valid() && Took(old(fs.Bits()), fs.Bits(), a)
    ensures !ok ==> Scarce(old(fs.Bits()), LeavesWanted(length, cur0))
    ensures !ok ==> Spare(fs.Bits()) == LeavesBack(Spare(old(fs.Bits())))
    ensures Kept(old(fs.Bits()), old(fs.disk), fs.disk, {})
    ensures ok ==> |a| == LeavesWanted(length, cur0) && cur == cur0 + |a|
    ensures ok ==> LeavesOn(fs.disk, a) && node.sector == OuterNode(a, 0).sector
    ensures ok && LeavesHeld(SectorsFor(length)) <= Room(cur0) ==>
              LeavesRecord(fs.disk, a, length) && node.length == length
  {
    ghost var fits := LeavesHeld(SectorsFor(length)) <= Room(cur0);
    ghost var b0, d0 := fs.Bits(), fs.disk;
    node := BlankNode();
    cur, a := cur0, [];
    var cnt, left := 0, length;
    LeafCountStarts(length, cur0);
    ok := true;
    while left > 0 && cur < FILESYS_LIMIT_SECTORS
      invariant 0 <= left <= length && cur == cur0 + |a| && LeafCount(length, left, cnt, cur0, |a|)
      invariant fs.Valid() && node.length == length - left && (fits && left > 0 ==> cur < FILESYS_LIMIT_SECTORS)
      invariant LeavesSoFar(b0, d0, fs.Bits(), fs.disk, a, node, fits)
    {
      var next := if left < LEAF_BYTES then left else LEAF_BYTES;
      ghost var b1, d1, node1 := fs.Bits(), fs.disk, node;
      var x;
      ghost var c, taken;
      x, cur, c, taken := NewLeaf(fs, next, cur);
      if x.None? {
        LeavesScarce(length, left, cnt, cur0, next, b0, b1, a);
        TookMore(b0, b1, fs.Bits(), a, taken);
        return false, cur, node, a + taken;
      }
      LeafCountTurns(length, left, cnt, cur0, |a|, next, |c|);
      node := node.(sector := node.sector[cnt := x.value], length := node.length + next);
      LeavesTurn(b0, d0, b1, d1, fs.Bits(), fs.disk, a, node1, node, fits, cnt, x.value, c, next);
      a := a + [x.value] + c;
      cnt := cnt + 1;
      left := left - next;
    }
  }

  method CreateIndirect(fs: FileSystem, sector: nat, length: nat, cur0: nat)
    returns (ok: bool, cur: nat, ghost a: seq<nat>)
    requires fs.Valid() && sector < |fs.disk| && fs.Bits()[sector] && length <= OUTER_BYTES
    modifies fs, fs.freeMap.words
    ensures fs.Valid() && Took(old(fs.Bits()), fs.Bits(), a)
    ensures !ok ==> Scarce(old(fs.Bits()), LeavesWanted(length, cur0 + 1))
    ensures !ok ==> Spare(fs.Bits()) == LeavesBack(Spare(old(fs.Bits())))
    ensures Kept(old(fs.Bits()), old(fs.disk), fs.disk, {sector})
    ensures ok ==> |a| == LeavesWanted(length, cur0 + 1) && cur == cur0 + 1 + |a|
    ensures ok ==> LeavesOn(fs.disk, a)
    ensures ok ==> fs.disk[sector].Index? && fs.disk[sector].node.sector == OuterNode(a, 0).sector
    ensures ok && LeavesHeld(SectorsFor(length)) <= Room(cur0 + 1) ==>
              LeavesRecord(fs.disk, a, length) && fs.disk[sector].node.length == length
  {
    var node;
    ok, cur, node, a := FillLeaves(fs, length, cur0 + 1);
    if ok {
      ghost var d := fs.disk;
      fs.disk := fs.disk[sector := Index(node)];
      assert forall k: nat | k < |a| :: a[k] in a;
      LeavesKept(d, fs.disk, a);
      assert LeavesRecord(d, a, length) ==> LeavesRecord(fs.disk, a, length);
    }
  }

  // ---- the inode itself

  /** Place of entry k of the inode. */
  function TopPos(k: nat): nat {
    if k < DIRECT_SECTOR_CNT then k else 119 + 126 * (k - 119)
  }

  /** Bytes covered by the first k entries of the inode, all of them full. */
  function TopBytes(k: nat): nat {
    if k < DIRECT_SECTOR_CNT then 512 * k else DIRECT_BYTES + LEAF_BYTES * (k - 119)
  }

  function TopEntries(a: seq<nat>): (r: seq<nat>) {
    seq(TOTAL_SECTOR_CNT, k requires 0 <= k => Entry(a, TopPos(k)))
  }

  /** The data sectors held so far hold data, all zeros from the m-th on. */
  ghost predicate DataFrom(disk: Disk, a: seq<nat>, m: nat) {
    forall i: nat | DataPos(i) < |a| ::
      && a[DataPos(i)] < |disk| && disk[a[DataPos(i)]].Data?
      && (i >= m ==> disk[a[DataPos(i)]] == Data(ZeroSector()))
  }

  /** The index in node files the sectors a, with new zeroed data from the m-th data sector on. */
  ghost predicate Building(disk: Disk, node: InodeDisk, a: seq<nat>, m: nat) {
    Layout(disk, node, a) && node.sector == TopEntries(a) && DataFrom(disk, a, m)
  }

  ghost predicate Untouched(disk: Disk, disk': Disk, a: seq<nat>) {
    |disk'| == |disk| && forall k: nat | k < |a| :: a[k] < |disk| && disk'[a[k]] == disk[a[k]]
  }

  lemma AddDirect(disk: Disk, disk': Disk, node: InodeDisk, node': InodeDisk, a: seq<nat>, m: nat, x: nat)
    requires Building(disk, node, a, m) && |a| < DIRECT_SECTOR_CNT && Untouched(disk, disk', a)
    requires x < |disk'| && disk'[x] == Data(ZeroSector())
    requires node'.sector == node.sector[|a| := x]
    ensures Building(disk', node', a + [x], m)
  {
    assert TopEntries(a + [x]) == node'.sector;
    forall i: nat | |a| <= DataPos(i) < |a + [x]| ensures [x][DataPos(i) - |a|] == x {
    }
    DataAppended(disk, disk', a, [x], m);
  }

  /** A full stretch of the file stays in place when more is appended. */
  lemma LeavesStay(disk: Disk, disk': Disk, node: InodeDisk, a: seq<nat>, c: seq<nat>, k: nat)
    requires Layout(disk, node, a) && Untouched(disk, disk', a)
    requires DIRECT_SECTOR_CNT <= k <= 124 && |a| == TopPos(k)
    ensures forall j: nat | j < k - 119 :: LeafAt(disk', a + c, 119 + 126 * j)
  {
    forall j: nat | j < k - 119 ensures LeafAt(disk', a + c, 119 + 126 * j) {
      assert LeafAt(disk, a, 119 + 126 * j);
      LeafStable(disk, disk', a, c, 119 + 126 * j);
    }
  }

  /** Existing data stays when sectors are appended, and the appended data is zero. */
  lemma DataAppended(disk: Disk, disk': Disk, a: seq<nat>, c: seq<nat>, m: nat)
    requires DataFrom(disk, a, m) && |disk'| == |disk|
    requires forall i: nat | DataPos(i) < |a| :: disk'[a[DataPos(i)]] == disk[a[DataPos(i)]]
    requires forall i: nat | |a| <= DataPos(i) < |a + c| ::
               c[DataPos(i) - |a|] < |disk'| && disk'[c[DataPos(i) - |a|]] == Data(ZeroSector())
    ensures DataFrom(disk', a + c, m)
  {
    forall i: nat | DataPos(i) < |a + c|
      ensures (a + c)[DataPos(i)] < |disk'| && disk'[(a + c)[DataPos(i)]].Data?
      ensures i >= m ==> disk'[(a + c)[DataPos(i)]] == Data(ZeroSector())
    {
      if DataPos(i) < |a| {
        assert (a + c)[DataPos(i)] == a[DataPos(i)];
      }
    }
  }

  lemma AddLeaf(disk: Disk, disk': Disk, node: InodeDisk, node': InodeDisk, a: seq<nat>, m: nat, k: nat,
                x: nat, c: seq<nat>, len: nat)
    requires Building(disk, node, a, m) && DIRECT_SECTOR_CNT <= k < 124 && |a| == TopPos(k)
    requires Untouched(disk, disk', a) && x < |disk'| && |c| <= 125
    requires disk'[x] == Index(LeafNode(c, len)) && AllZero(disk', c)
    requires node'.sector == node.sector[k := x]
    ensures Building(disk', node', a + ([x] + c), m)
  {
    var a' := a + ([x] + c);
    assert TopEntries(a') == node'.sector;
    LeavesStay(disk, disk', node, a, [x] + c, k);
    assert LeafAt(disk', a', |a|) by {
      assert forall q: nat | q < 125 :: Entry(a', |a| + 1 + q) == Entry(c, q);
    }
    forall i: nat | |a| <= DataPos(i) < |a'|
      ensures ([x] + c)[DataPos(i) - |a|] < |disk'| && disk'[([x] + c)[DataPos(i) - |a|]] == Data(ZeroSector())
    {
      assert DataPos(i) != |a|;
      assert ([x] + c)[DataPos(i) - |a|] == c[DataPos(i) - |a| - 1];
    }
    DataAppended(disk, disk', a, [x] + c, m);
  }

  lemma ShiftLeaf(disk: Disk, a: seq<nat>, c: seq<nat>, p: nat)
    requires LeafAt(disk, c, p)
    ensures LeafAt(disk, a + c, |a| + p)
  {
    var entries := disk[c[p]].node.sector;
    forall k: nat | k < 125 ensures entries[k] == Entry(a + c, |a| + p + 1 + k) {
      assert entries[k] == Entry(c, p + 1 + k);
    }
  }

  lemma AddOuter(disk: Disk, disk': Disk, node: InodeDisk, node': InodeDisk, a: seq<nat>, m: nat, x: nat, c: seq<nat>)
    requires Building(disk, node, a, m) && |a| == OUTER && Untouched(disk, disk', a)
    requires x < |disk'| && LeavesOn(disk', c)
    requires disk'[x].Index? && disk'[x].node.sector == OuterNode(c, 0).sector
    requires node'.sector == node.sector[124 := x]
    ensures Building(disk', node', a + ([x] + c), m)
  {
    var a' := a + ([x] + c);
    assert TopEntries(a') == node'.sector;
    LeavesStay(disk, disk', node, a, [x] + c, 124);
    assert a' == (a + [x]) + c;
    assert OuterAt(disk', a', OUTER) by {
      forall j: nat | j < 125 ensures disk'[x].node.sector[j] == Entry(a', 750 + 126 * j) {
        assert Entry(c, 126 * j) == Entry(a', 750 + 126 * j);
      }
      forall j: nat | j < 125 && 750 + 126 * j < |a'| ensures LeafAt(disk', a', 750 + 126 * j) {
        assert 126 * j < |c|;
        ShiftLeaf(disk', a + [x], c, 126 * j);
      }
    }
    forall i: nat | |a| <= DataPos(i) < |a'|
      ensures ([x] + c)[DataPos(i) - |a|] < |disk'| && disk'[([x] + c)[DataPos(i) - |a|]] == Data(ZeroSector())
    {
      var q := DataPos(i) - 750;
      assert i >= 744 && q % 126 != 0;
      assert ([x] + c)[DataPos(i) - |a|] == c[q];
    }
    DataAppended(disk, disk', a, [x] + c, m);
  }

  /** Allocating the outer block and filling it (lines 206 and 237-245). */
  method NewOuter(fs: FileSystem, length: nat, cur0: nat)
    returns (outer: Option<nat>, cur: nat, ghost c: seq<nat>, ghost taken: seq<nat>)
    requires fs.Valid() && length <= OUTER_BYTES
    modifies fs, fs.freeMap.words
    ensures fs.Valid() && Took(old(fs.Bits()), fs.Bits(), taken)
    ensures outer.None? ==> Scarce(old(fs.Bits()), 1 + LeavesWanted(length, cur0 + 1))
    ensures outer.None? ==> Spare(fs.Bits()) == OuterBack(Spare(old(fs.Bits())))
    ensures Kept(old(fs.Bits()), old(fs.disk), fs.disk, {})
    ensures outer.Some? ==> taken == [outer.value] + c && outer.value < |fs.disk|
    ensures outer.Some? ==> |c| == LeavesWanted(length, cur0 + 1) && cur == cur0 + 1 + |c|
    ensures outer.Some? ==> LeavesOn(fs.disk, c) && fs.disk[outer.value].Index?
    ensures outer.Some? ==> fs.disk[outer.value].node.sector == OuterNode(c, 0).sector
    ensures outer.Some? && LeavesHeld(SectorsFor(length)) <= Room(cur0 + 1) ==>
              LeavesRecord(fs.disk, c, length) && fs.disk[outer.value].node.length == length
  {
    ghost var b0 := fs.Bits();
    outer := fs.Allocate();
    cur, c, taken := cur0, [], [];
    if outer.None? {
      return;
    }
    ghost var b1 := fs.Bits();
    var done;
    done, cur, c := CreateIndirect(fs, outer.value, length, cur0);
    TookMore(b0, b1, fs.Bits(), [outer.value], c);
    taken := [outer.value] + c;
    if !done {
      FreeCount(b0, b1, [outer.value]);
      ScarceAfter(b0, b1, [outer.value], LeavesWanted(length, cur0 + 1));
      GiveBack(fs, outer.value, b0, c);
      return None, cur, c, c;
    }
  }

  lemma Taking(b0: seq<bool>, b1: seq<bool>, b2: seq<bool>, d0: Disk, d1: Disk, d2: Disk, a: seq<nat>, t: seq<nat>)
    requires Took(b0, b1, a) && Took(b1, b2, t) && Kept(b0, d0, d1, {}) && Kept(b1, d1, d2, {})
    ensures Took(b0, b2, a + t) && Kept(b0, d0, d2, {}) && Untouched(d1, d2, a)
  {
    TookMore(b0, b1, b2, a, t);
    forall k: nat | k < |a| ensures a[k] < |d1| && d2[a[k]] == d1[a[k]] {
      assert a[k] in a;
    }
  }

  lemma BuildingKept(disk: Disk, disk': Disk, node: InodeDisk, a: seq<nat>, m: nat)
    requires Building(disk, node, a, m) && Untouched(disk, disk', a)
    ensures Building(disk', node, a, m)
  {
    forall j: nat | j < 5 && 119 + 126 * j < |a| ensures LeafAt(disk', a, 119 + 126 * j) {
      assert LeafAt(disk, a, 119 + 126 * j);
    }
    if OUTER < |a| {
      assert OuterAt(disk, a, OUTER);
      forall j: nat | j < 125 && 750 + 126 * j < |a| ensures LeafAt(disk', a, 750 + 126 * j) {
        assert LeafAt(disk, a, OUTER + 1 + 126 * j);
      }
    }
  }

  lemma LastDataIsLast(n: nat)
    requires n > 0
    ensures DataPos(n - 1) == Held(n) - 1
  {
  }

}
