/** Creating files: inode_create, and byte_to_sector on the files it makes (filesys/inode.c:116-286). */
module InodeCreate {
  import opened Wrappers
  import opened Storage
  import opened FileLayout
  import opened FreeSectors
  import opened Inodes
  import opened FileShape

  /** Sectors that inode_create takes, not counting the inode. */
  function Wanted(length: nat): nat {
    Min(Held(SectorsFor(length)), FILESYS_LIMIT_SECTORS - 1)
  }

  /** Bookkeeping of the loop of inode_create, as LeafCount for its helper. */
  predicate TopCount(length: nat, left: nat, cnt: nat, alen: nat) {
    if left > 0 && cnt < TOTAL_SECTOR_CNT && 1 + alen < FILESYS_LIMIT_SECTORS then
      alen == TopPos(cnt) && length == left + TopBytes(cnt)
    else
      alen == Wanted(length)
  }

  /** The whole file fits under the size limit. */
  predicate Fits(length: nat) {
    1 + Held(SectorsFor(length)) <= FILESYS_LIMIT_SECTORS && length <= FILE_BYTES
  }

  lemma DirectTurns(length: nat, left: nat, cnt: nat)
    requires 0 < left && cnt < DIRECT_SECTOR_CNT && TopCount(length, left, cnt, cnt)
    ensures TopCount(length, left - Min(left, 512), cnt + 1, cnt + 1)
  {
  }

  lemma SingleTurns(length: nat, left: nat, cnt: nat, alen: nat, next: nat, clen: nat)
    requires 0 < left && DIRECT_SECTOR_CNT <= cnt < 124 && TopCount(length, left, cnt, alen) && alen < 16383
    requires next == Min(left, LEAF_BYTES) && clen == Min(SectorsFor(next), Room(1 + alen + 1))
    ensures clen == SectorsFor(next) <= 125 && TopCount(length, left - next, cnt + 1, alen + 1 + clen)
  {
    LeafSizes(0, next);
    assert alen <= 623;
    if left > LEAF_BYTES {
      assert next == LEAF_BYTES && clen == 125;
    } else {
      SingleEnd(cnt - 119, length, SectorsFor(next));
    }
  }

  lemma DoubleTurns(length: nat, left: nat, alen: nat, next: nat, clen: nat)
    requires 0 < left && TopCount(length, left, 124, alen) && alen < 16383
    requires next == Min(left, OUTER_BYTES) && clen == LeavesWanted(next, 1 + alen + 1)
    ensures TopCount(length, left - next, 125, alen + 1 + clen)
    ensures Fits(length) ==> LeavesHeld(SectorsFor(next)) <= Room(1 + alen + 1)
  {
    assert alen == OUTER && length == left + SINGLE_BYTES;
    assert SectorsFor(length) == 744 + SectorsFor(left);
  }

  /** The file made so far by inode_create. */
  ghost predicate MadeSoFar(b0: seq<bool>, d0: Disk, bits: seq<bool>, disk: Disk, a: seq<nat>, node: InodeDisk, fits: bool) {
    && Took(b0, bits, a) && Kept(b0, d0, disk, {}) && Building(disk, node, a, 0)
    && (fits ==> LeafLengths(disk, a, node.length) && OuterLength(disk, a, node.length))
  }

  lemma MadeMeans(b0: seq<bool>, d0: Disk, bits: seq<bool>, disk: Disk, a: seq<nat>, node: InodeDisk, fits: bool)
    requires MadeSoFar(b0, d0, bits, disk, a, node, fits)
    ensures Took(b0, bits, a) && Kept(b0, d0, disk, {}) && |node.sector| == TOTAL_SECTOR_CNT
  {
  }

  lemma MakeDirect(b0: seq<bool>, d0: Disk, b1: seq<bool>, d1: Disk, b2: seq<bool>, d2: Disk, a: seq<nat>,
                   node: InodeDisk, node': InodeDisk, fits: bool, x: nat)
    requires MadeSoFar(b0, d0, b1, d1, a, node, fits) && |a| < DIRECT_SECTOR_CNT
    requires Took(b1, b2, [x]) && Kept(b1, d1, d2, {}) && x < |d2| && d2[x] == Data(ZeroSector())
    requires node'.sector == node.sector[|a| := x]
    ensures MadeSoFar(b0, d0, b2, d2, a + [x], node', fits)
  {
    Taking(b0, b1, b2, d0, d1, d2, a, [x]);
    AddDirect(d1, d2, node, node', a, 0, x);
  }

  lemma MakeLeaf(b0: seq<bool>, d0: Disk, b1: seq<bool>, d1: Disk, b2: seq<bool>, d2: Disk, a: seq<nat>,
                 node: InodeDisk, node': InodeDisk, fits: bool, k: nat, x: nat, c: seq<nat>, next: nat)
    requires MadeSoFar(b0, d0, b1, d1, a, node, fits) && DIRECT_SECTOR_CNT <= k < 124 && |a| == TopPos(k)
    requires node.length == TopBytes(k) && 0 < next <= LEAF_BYTES && |c| == SectorsFor(next) <= 125
    requires Took(b1, b2, [x] + c) && Kept(b1, d1, d2, {}) && x < |d2|
    requires d2[x] == Index(LeafNode(c, Min(next, 512 * |c|))) && AllZero(d2, c)
    requires node'.sector == node.sector[k := x] && node'.length == node.length + next
    ensures MadeSoFar(b0, d0, b2, d2, a + ([x] + c), node', fits)
  {
    Taking(b0, b1, b2, d0, d1, d2, a, [x] + c);
    AddLeaf(d1, d2, node, node', a, 0, k, x, c, Min(next, 512 * |c|));
    if fits {
      assert next <= 512 * |c|;
      NewLeafLengths(d1, d2, a, x, c, Single(k - 119), node.length, next);
    }
  }

  lemma MakeOuter(b0: seq<bool>, d0: Disk, b1: seq<bool>, d1: Disk, b2: seq<bool>, d2: Disk, a: seq<nat>,
                  node: InodeDisk, node': InodeDisk, fits: bool, x: nat, c: seq<nat>, next: nat)
    requires MadeSoFar(b0, d0, b1, d1, a, node, fits) && |a| == OUTER
    requires node.length == SINGLE_BYTES && 0 < next <= OUTER_BYTES
    requires Took(b1, b2, [x] + c) && Kept(b1, d1, d2, {}) && x < |d2| && LeavesOn(d2, c)
    requires d2[x].Index? && d2[x].node.sector == OuterNode(c, 0).sector
    requires fits ==> LeavesRecord(d2, c, next) && d2[x].node.length == next
    requires node'.sector == node.sector[124 := x] && node'.length == node.length + next
    ensures MadeSoFar(b0, d0, b2, d2, a + ([x] + c), node', fits)
  {
    Taking(b0, b1, b2, d0, d1, d2, a, [x] + c);
    AddOuter(d1, d2, node, node', a, 0, x, c);
    if fits {
      OuterLengths(d1, d2, a, x, c, next);
    }
  }

  /** Sectors that entry cnt of the inode takes for next bytes, when alen are taken already. */
  function EntryNeed(cnt: nat, next: nat, alen: nat): nat {
    if cnt < DIRECT_SECTOR_CNT then 1
    else if cnt < DIRECT_SECTOR_CNT + INDIRECT_SECTOR_CNT then 1 + Min(SectorsFor(next), Room(1 + alen + 1))
    else 1 + LeavesWanted(next, 1 + alen + 1)
  }

  /** The bytes that entry cnt of the inode covers. */
  function EntryNext(cnt: nat, left: nat): nat {
    Min(left, if cnt < DIRECT_SECTOR_CNT then 512 else if cnt < DIRECT_SECTOR_CNT + INDIRECT_SECTOR_CNT then LEAF_BYTES else OUTER_BYTES)
  }

  lemma EntryTurns(length: nat, left: nat, cnt: nat, alen: nat)
    requires TopCount(length, left, cnt, alen) && 0 < left && cnt < TOTAL_SECTOR_CNT && alen < 16383
    ensures TopCount(length, left - EntryNext(cnt, left), cnt + 1, alen + EntryNeed(cnt, EntryNext(cnt, left), alen))
  {
    var next := EntryNext(cnt, left);
    if cnt < DIRECT_SECTOR_CNT {
      DirectTurns(length, left, cnt);
    } else if cnt < DIRECT_SECTOR_CNT + INDIRECT_SECTOR_CNT {
      SingleTurns(length, left, cnt, alen, next, Min(SectorsFor(next), Room(1 + alen + 1)));
    } else {
      DoubleTurns(length, left, alen, next, LeavesWanted(next, 1 + alen + 1));
    }
  }

  lemma TopCountBound(length: nat, left: nat, cnt: nat, alen: nat)
    requires TopCount(length, left, cnt, alen) && left <= length
    ensures alen <= Wanted(length)
  {
    if left > 0 && cnt < TOTAL_SECTOR_CNT && 1 + alen < FILESYS_LIMIT_SECTORS {
      assert length > TopBytes(cnt);
      assert SectorsFor(length) > SectorsFor(TopBytes(cnt));
    }
  }

  lemma EntryScarce(length: nat, left: nat, cnt: nat, alen: nat, next: nat, b0: seq<bool>, b1: seq<bool>, a: seq<nat>)
    requires TopCount(length, left, cnt, alen) && 0 < left <= length && cnt < TOTAL_SECTOR_CNT && alen == |a| < 16383
    requires next == EntryNext(cnt, left) && Took(b0, b1, a) && Scarce(b1, EntryNeed(cnt, next, alen))
    ensures Scarce(b0, Wanted(length))
  {
    EntryTurns(length, left, cnt, alen);
    TopCountBound(length, left - next, cnt + 1, alen + EntryNeed(cnt, next, alen));
    ScarceAfter(b0, b1, a, EntryNeed(cnt, next, alen));
  }

  /** Free sectors after an inode could not be filled: the index blocks that were given back, and nothing else. */
  function InodeBack(p: nat): nat {
    if p < DIRECT_SECTOR_CNT then 0
    else if p < OUTER then LeavesBack(p - DIRECT_SECTOR_CNT)
    else OuterBack(p - OUTER)
  }

  /** Free sectors after entry cnt of the inode could not be made. */
  function EntryBack(cnt: nat, p: nat): nat {
    if cnt < DIRECT_SECTOR_CNT then 0
    else if cnt < DIRECT_SECTOR_CNT + INDIRECT_SECTOR_CNT then LeafBack(p)
    else OuterBack(p)
  }

  /** Which entry ran out shows in how many sectors were free at the start. */
  lemma BackByCount(cnt: nat, p: nat, rest: nat)
    requires cnt < TOTAL_SECTOR_CNT && p == TopPos(cnt) + rest
    requires cnt < DIRECT_SECTOR_CNT ==> rest == 0
    requires cnt < DIRECT_SECTOR_CNT + INDIRECT_SECTOR_CNT ==> rest < 126
    ensures EntryBack(cnt, rest) == InodeBack(p)
  {
    if DIRECT_SECTOR_CNT <= cnt < DIRECT_SECTOR_CNT + INDIRECT_SECTOR_CNT {
      var j := cnt - 119;
      assert p - 119 == 126 * j + rest && (p - 119) % 126 == rest;
    }
  }

  lemma EntryLeaves(length: nat, left: nat, cnt: nat, next: nat, b0: seq<bool>, b1: seq<bool>, a: seq<nat>)
    requires TopCount(length, left, cnt, |a|) && 0 < left <= length && cnt < TOTAL_SECTOR_CNT && |a| < 16383
    requires next == EntryNext(cnt, left) && Took(b0, b1, a) && Scarce(b1, EntryNeed(cnt, next, |a|))
    ensures EntryBack(cnt, Spare(b1)) == InodeBack(Spare(b0))
  {
    hide Took, Spare, EntryBack, InodeBack, LeavesWanted;
    FreeCount(b0, b1, a);
    if DIRECT_SECTOR_CNT <= cnt < DIRECT_SECTOR_CNT + INDIRECT_SECTOR_CNT {
      SingleTurns(length, left, cnt, |a|, next, Min(SectorsFor(next), Room(1 + |a| + 1)));
    }
    BackByCount(cnt, Spare(b0), Spare(b1));
  }

  /** One turn of the loop of inode_create: entry cnt of the inode. */
  method FillEntry(fs: FileSystem, node0: InodeDisk, cnt: nat, left0: nat, ghost length: nat, ghost b0: seq<bool>,
                   ghost d0: Disk, ghost a: seq<nat>, cur0: nat)
    returns (ok: bool, node: InodeDisk, left: nat, cur: nat, ghost taken: seq<nat>)
    requires fs.Valid() && MadeSoFar(b0, d0, fs.Bits(), fs.disk, a, node0, Fits(length)) && node0.length == length - left0
    requires TopCount(length, left0, cnt, |a|) && 0 < left0 <= length && cnt < TOTAL_SECTOR_CNT
    requires cur0 == 1 + |a| < FILESYS_LIMIT_SECTORS
    modifies fs, fs.freeMap.words
    ensures fs.Valid() && Took(b0, fs.Bits(), a + taken) && Kept(b0, d0, fs.disk, {})
    ensures !ok ==> Scarce(b0, Wanted(length)) && Spare(fs.Bits()) == InodeBack(Spare(b0))
    ensures ok ==> MadeSoFar(b0, d0, fs.Bits(), fs.disk, a + taken, node, Fits(length))
    ensures ok ==> TopCount(length, left, cnt + 1, |a + taken|) && cur == 1 + |a + taken|
    ensures ok ==> left < left0 && node.length == length - left && node.parent == node0.parent
    ensures ok && length <= FILE_BYTES && cnt == 124 ==> left == 0
    ensures ok && cnt < 124 ==> |a + taken| <= OUTER
  {
    hide Took, Kept, MadeSoFar, Scarce, Spare, InodeBack, LeafBack, OuterBack, Held, LeavesOn, Fits, Wanted, SectorsFor, LeavesRecord, AllZero, LeafNode, OuterNode, Untouched;
    MadeMeans(b0, d0, fs.Bits(), fs.disk, a, node0, Fits(length));
    ghost var b1, d1 := fs.Bits(), fs.disk;
    ghost var c;
    var x, next;
    if cnt < DIRECT_SECTOR_CNT {
      next := Min(left0, 512);
      x, taken := NewSector(fs);
      cur := cur0 + 1;
    } else if cnt < DIRECT_SECTOR_CNT + INDIRECT_SECTOR_CNT {
      next := Min(left0, LEAF_BYTES);
      x, cur, c, taken := NewLeaf(fs, next, cur0);
    } else {
      next := Min(left0, OUTER_BYTES);
      x, cur, c, taken := NewOuter(fs, next, cur0);
    }
    Taking(b0, b1, fs.Bits(), d0, d1, fs.disk, a, taken);
    left, node := left0 - next, node0;
    if x.None? {
      EntryScarce(length, left0, cnt, |a|, next, b0, b1, a);
      EntryLeaves(length, left0, cnt, next, b0, b1, a);
      return false, node, left, cur, taken;
    }
    node := node.(sector := node.sector[cnt := x.value], length := node.length + next);
    if cnt < DIRECT_SECTOR_CNT {
      DirectTurns(length, left0, cnt);
      MakeDirect(b0, d0, b1, d1, fs.Bits(), fs.disk, a, node0, node, Fits(length), x.value);
    } else if cnt < DIRECT_SECTOR_CNT + INDIRECT_SECTOR_CNT {
      SingleTurns(length, left0, cnt, |a|, next, |c|);
      MakeLeaf(b0, d0, b1, d1, fs.Bits(), fs.disk, a, node0, node, Fits(length), cnt, x.value, c, next);
    } else {
      DoubleTurns(length, left0, |a|, next, |c|);
      MakeOuter(b0, d0, b1, d1, fs.Bits(), fs.disk, a, node0, node, Fits(length), x.value, c, next);
    }
    ok := true;
  }

  /** The loop of inode_create. */
  method FillInode(fs: FileSystem, length: nat) returns (ok: bool, node: InodeDisk, ghost a: seq<nat>)
    requires fs.Valid()
    modifies fs, fs.freeMap.words
    ensures fs.Valid() && Took(old(fs.Bits()), fs.Bits(), a)
    ensures !ok ==> Scarce(old(fs.Bits()), Wanted(length)) && Spare(fs.Bits()) == InodeBack(Spare(old(fs.Bits())))
    ensures Kept(old(fs.Bits()), old(fs.disk), fs.disk, {})
    ensures ok ==> MadeSoFar(old(fs.Bits()), old(fs.disk), fs.Bits(), fs.disk, a, node, Fits(length))
    ensures ok ==> |a| == Wanted(length) && node.parent == 1 && (length <= FILE_BYTES ==> node.length == length)
  {
    ghost var b0, d0 := fs.Bits(), fs.disk;
    node := BlankNode().(parent := 1);
    ok, a := true, [];
    var cur, cnt, left := 1, 0, length;
    while left > 0 && cnt < TOTAL_SECTOR_CNT && cur < FILESYS_LIMIT_SECTORS
      invariant 0 <= left <= length && cnt <= TOTAL_SECTOR_CNT && cur == 1 + |a| && node.length == length - left
      invariant TopCount(length, left, cnt, |a|) && node.parent == 1 && fs.Valid()
      invariant if cnt < TOTAL_SECTOR_CNT then |a| <= OUTER else length <= FILE_BYTES ==> left == 0
      invariant MadeSoFar(b0, d0, fs.Bits(), fs.disk, a, node, Fits(length))
      decreases left
    {
      ghost var taken;
      ok, node, left, cur, taken := FillEntry(fs, node, cnt, left, length, b0, d0, a, cur);
      a := a + taken;
      if !ok {
        return;
      }
      cnt := cnt + 1;
    }
  }

  lemma NewFileOk(disk: Disk, node: InodeDisk, a: seq<nat>)
    requires Building(disk, node, a, 0) && node.length <= FILE_BYTES && |a| == Held(SectorsFor(node.length))
    requires LeafLengths(disk, a, node.length) && OuterLength(disk, a, node.length)
    ensures FileOk(disk, node, a) && forall q: nat :: ByteAt(disk, a, q) == 0
  {
    forall q: nat ensures ByteAt(disk, a, q) == 0 {
      var p := DataPos(q / 512);
      if p < |a| {
        assert disk[a[p]] == Data(ZeroSector());
      }
    }
  }

  /** inode_create.  On success the sectors a, all new, are filed under the inode's index. */
  method Create(fs: FileSystem, sector: nat, length: nat) returns (ok: bool, ghost a: seq<nat>)
    requires fs.Valid() && sector < |fs.disk| && fs.Bits()[sector]
    modifies fs, fs.freeMap.words
    ensures fs.Valid() && Took(old(fs.Bits()), fs.Bits(), a)
    ensures !ok ==> Scarce(old(fs.Bits()), Wanted(length)) && Spare(fs.Bits()) == InodeBack(Spare(old(fs.Bits())))
    ensures Kept(old(fs.Bits()), old(fs.disk), fs.disk, {sector})
    ensures ok ==> fs.disk[sector].Index? && |a| == Wanted(length) && Building(fs.disk, fs.disk[sector].node, a, 0)
    ensures ok && length <= FILE_BYTES ==> fs.disk[sector].node.length == length
    ensures ok ==> fs.disk[sector].node.parent == 1
    ensures ok && Fits(length) ==> FileOk(fs.disk, fs.disk[sector].node, a) && forall q: nat :: ByteAt(fs.disk, a, q) == 0
  {
    var node;
    ok, node, a := FillInode(fs, length);
    if ok {
      ghost var d := fs.disk;
      fs.disk := fs.disk[sector := Index(node)];
      assert forall k: nat | k < |a| :: a[k] in a;
      BuildingKept(d, fs.disk, node, a, 0);
      if Fits(length) {
        LengthsUntouched(d, fs.disk, a, length);
        NewFileOk(fs.disk, node, a);
      }
    }
  }

  /** Every data sector of an n-sector file is reached through sectors of a only. */
  ghost predicate Covers(disk: Disk, node: InodeDisk, a: seq<nat>, n: nat)
    requires |node.sector| == TOTAL_SECTOR_CNT
  {
    forall i: nat | i < n && i < DATA_MAX :: forall s | s in Path(disk, node, i) :: s in a
  }

  /** Different data sectors have different places, none of them an index block's. */
  ghost predicate PlacesApart(a: seq<nat>) {
    && (forall i: nat, j: nat | DataPos(i) < |a| && DataPos(j) < |a| && i != j :: a[DataPos(i)] != a[DataPos(j)])
    && (forall i: nat, p: nat | DataPos(i) < |a| && p < |a| && IsIndexPos(p) :: a[DataPos(i)] != a[p])
  }

  lemma ApartByTook(bits: seq<bool>, bits': seq<bool>, a: seq<nat>)
    requires Took(bits, bits', a)
    ensures PlacesApart(a)
  {
    forall i: nat, j: nat | DataPos(i) < |a| && DataPos(j) < |a| && i != j ensures a[DataPos(i)] != a[DataPos(j)] {
      if DataPos(i) == DataPos(j) {
        DataPosInjective(i, j);
      }
    }
    forall i: nat, p: nat | DataPos(i) < |a| && p < |a| && IsIndexPos(p) ensures a[DataPos(i)] != a[p] {
      DataPosIsNoIndex(i);
    }
  }

  lemma TakenNotZero(bits: seq<bool>, bits': seq<bool>, a: seq<nat>)
    requires Took(bits, bits', a) && |bits| > 0 && bits[0]
    ensures 0 !in a
  {
  }

  /**
   * A created file is whole exactly when it fits the size limit.  Then different data
   * sectors have different places, hold zeros, and are no index blocks.
   */
  lemma CreatedFileIsWhole(bits: seq<bool>, bits': seq<bool>, disk: Disk, node: InodeDisk, a: seq<nat>, length: nat)
    requires Took(bits, bits', a) && |bits| > 0 && bits[0]
    requires Building(disk, node, a, 0) && |a| == Wanted(length) && length <= FILE_BYTES
    ensures Covers(disk, node, a, SectorsFor(length)) <==> 1 + Held(SectorsFor(length)) <= FILESYS_LIMIT_SECTORS
    ensures 1 + Held(SectorsFor(length)) <= FILESYS_LIMIT_SECTORS ==>
              forall i: nat | i < SectorsFor(length) ::
                && DataPos(i) < |a| && Last(Path(disk, node, i)) == a[DataPos(i)]
                && a[DataPos(i)] < |disk| && disk[a[DataPos(i)]] == Data(ZeroSector())
    ensures PlacesApart(a)
  {
    hide PlacesApart, Took;
    ApartByTook(bits, bits', a);
    TakenNotZero(bits, bits', a);
    var n := SectorsFor(length);
    if |a| == Held(n) {
      forall i: nat | i < n
        ensures DataPos(i) < |a| && Last(Path(disk, node, i)) == a[DataPos(i)]
        ensures forall s | s in Path(disk, node, i) :: s in a
      {
        DataPosBound(i, n);
        PathWithin(disk, node, a, i);
      }
    } else {
      // The last data sector lies beyond the sectors taken.
      var i := n - 1;
      LastDataIsLast(n);
      PathBeyond(disk, node, a, i);
    }
  }

  /** byte_to_sector: None is the -1 for an offset past the end. */
  method ByteToSector(fs: FileSystem, node: InodeDisk, pos: nat) returns (r: Option<nat>)
    requires |node.sector| == TOTAL_SECTOR_CNT && node.length <= FILE_BYTES
    ensures r.None? <==> pos >= node.length
    ensures r.Some? ==> r.value == Last(Path(fs.disk, node, pos / 512))
  {
    if pos >= node.length {
      return None;
    }
    var idx := pos / 512;
    if idx < DIRECT_SECTOR_CNT {
      return Some(node.sector[idx]);
    }
    idx := idx - DIRECT_SECTOR_CNT;
    if idx < INDIRECT_SECTOR_CNT * TOTAL_SECTOR_CNT {
      var leaf := NodeAt(fs.disk, node.sector[DIRECT_SECTOR_CNT + idx / TOTAL_SECTOR_CNT]);
      return Some(leaf.sector[idx % TOTAL_SECTOR_CNT]);
    }
    idx := idx - INDIRECT_SECTOR_CNT * TOTAL_SECTOR_CNT;
    assert idx / 15625 == 0;
    var outer := NodeAt(fs.disk, node.sector[DIRECT_SECTOR_CNT + INDIRECT_SECTOR_CNT + idx / 15625]);
    var leaf := NodeAt(fs.disk, outer.sector[(idx / TOTAL_SECTOR_CNT) % TOTAL_SECTOR_CNT]);
    r := Some(leaf.sector[idx % TOTAL_SECTOR_CNT]);
  }
}
