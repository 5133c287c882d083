/** Growing files: inode_grow (filesys/inode.c:385-619), and what it keeps. */
module InodeGrowth {
  import opened FileLayout
  import opened FreeSectors
  import opened Inodes
  import opened FileShape
  import opened GrowthCount
  import opened GrowthToll
  import opened GrowthSteps

  /**
   * Fills up the last sector of a leaf, then adds sectors to it until it is full or the
   * length is covered (lines 443-469 and 528-555).  The leaf is a copy, not written here.
   */
  method FillLeaf(fs: FileSystem, leaf0: InodeDisk, left0: nat, cur0: nat)
    returns (ok: bool, leaf: InodeDisk, left: nat, cur: nat, ghost c: seq<nat>)
    requires fs.Valid() && |leaf0.sector| == TOTAL_SECTOR_CNT && leaf0.length <= LEAF_BYTES
    modifies fs, fs.freeMap.words
    ensures fs.Valid() && Took(old(fs.Bits()), fs.Bits(), c) && Kept(old(fs.Bits()), old(fs.disk), fs.disk, {})
    ensures !ok ==> Scarce(old(fs.Bits()), LeafWant(leaf0.length, left0, cur0))
    ensures AllZero(fs.disk, c) && cur == cur0 + |c|
    ensures ok ==> left <= left0 && leaf.length == leaf0.length + left0 - left <= LEAF_BYTES
    ensures ok ==> SectorsFor(leaf.length) == SectorsFor(leaf0.length) + |c|
    ensures ok ==> Extends(leaf0.sector, leaf.sector, SectorsFor(leaf0.length), c) && leaf.parent == leaf0.parent
    ensures ok && left > 0 ==> Aligned(leaf.length) && (leaf.length == LEAF_BYTES || cur >= FILESYS_LIMIT_SECTORS)
    ensures cur0 <= FILESYS_LIMIT_SECTORS ==> cur <= FILESYS_LIMIT_SECTORS
  {
    hide Filled, Extends, Took, Kept, AllZero, Scarce, SectorsFor, Aligned, LeafWant;
    leaf, left, cur, c := leaf0, left0, cur0, [];
    ok := true;
    if leaf.length % 512 != 0 {
      var next := Min(left, 512 - leaf.length % 512);
      leaf := leaf.(length := leaf.length + next);
      left := left - next;
    }
    FilledStarts(leaf0, left0, leaf, left);
    GainedNothing(fs.Bits(), fs.disk);
    while left > 0 && cur < FILESYS_LIMIT_SECTORS && leaf.length < LEAF_BYTES
      invariant left <= left0 && cur == cur0 + |c| && Filled(leaf0, left0, leaf, left, c)
      invariant cur0 <= FILESYS_LIMIT_SECTORS ==> cur <= FILESYS_LIMIT_SECTORS
      invariant fs.Valid() && Gained(old(fs.Bits()), old(fs.disk), fs.Bits(), fs.disk, c)
    {
      var x := GainSector(fs, old(fs.Bits()), old(fs.disk), c);
      if x.None? {
        FilledNeed(leaf0, left0, leaf, left, c, cur0);
        ScarceMore(old(fs.Bits()), |c| + 1, LeafWant(leaf0.length, left0, cur0));
        return false, leaf, left, cur, c;
      }
      var next := Min(left, 512);
      FilledMore(leaf0, left0, leaf, left, c, x.value, next);
      leaf := leaf.(sector := leaf.sector[leaf.length / 512 := x.value], length := leaf.length + next);
      left := left - next;
      cur := cur + 1;
      c := c + [x.value];
    }
    FilledMeans(leaf0, left0, leaf, left, c);
  }

  /** The leaf part way through FillLeaf, once its last sector is full. */
  predicate Filled(leaf0: InodeDisk, left0: nat, leaf: InodeDisk, left: nat, c: seq<nat>) {
    && leaf.length == leaf0.length + left0 - left <= LEAF_BYTES
    && (left > 0 ==> leaf.length % 512 == 0)
    && SectorsFor(leaf.length) == SectorsFor(leaf0.length) + |c|
    && Extends(leaf0.sector, leaf.sector, SectorsFor(leaf0.length), c) && leaf.parent == leaf0.parent
  }

  lemma FilledStarts(leaf0: InodeDisk, left0: nat, leaf: InodeDisk, left: nat)
    requires |leaf0.sector| == TOTAL_SECTOR_CNT && leaf0.length <= LEAF_BYTES && left <= left0
    requires leaf == leaf0.(length := leaf0.length + left0 - left)
    requires left == left0 - if leaf0.length % 512 != 0 then Min(left0, 512 - leaf0.length % 512) else 0
    ensures Filled(leaf0, left0, leaf, left, []) && leaf.length <= LEAF_BYTES
  {
    if leaf0.length % 512 != 0 {
      FillSector(leaf0.length, left0 - left);
    }
  }

  lemma FilledMeans(leaf0: InodeDisk, left0: nat, leaf: InodeDisk, left: nat, c: seq<nat>)
    requires Filled(leaf0, left0, leaf, left, c)
    ensures leaf.length == leaf0.length + left0 - left <= LEAF_BYTES && SectorsFor(leaf.length) == SectorsFor(leaf0.length) + |c|
    ensures Extends(leaf0.sector, leaf.sector, SectorsFor(leaf0.length), c) && leaf.parent == leaf0.parent
    ensures left > 0 ==> Aligned(leaf.length)
  {
  }

  lemma FilledNeed(leaf0: InodeDisk, left0: nat, leaf: InodeDisk, left: nat, c: seq<nat>, cur0: nat)
    requires Filled(leaf0, left0, leaf, left, c) && 0 < left <= left0 && leaf.length < LEAF_BYTES
    requires cur0 + |c| < FILESYS_LIMIT_SECTORS
    ensures |c| + 1 <= LeafWant(leaf0.length, left0, cur0)
  {
    assert leaf0.length + left0 == leaf.length + left;
  }

  lemma FilledMore(leaf0: InodeDisk, left0: nat, leaf: InodeDisk, left: nat, c: seq<nat>, x: nat, next: nat)
    requires Filled(leaf0, left0, leaf, left, c) && left > 0 && leaf.length < LEAF_BYTES && next == Min(left, 512)
    ensures leaf.length / 512 < |leaf.sector| && leaf.length + next <= LEAF_BYTES
    ensures Filled(leaf0, left0, leaf.(sector := leaf.sector[leaf.length / 512 := x], length := leaf.length + next),
                   left - next, c + [x])
  {
    AddSector(leaf.length, next);
  }

  /** struct inode: the copy of the on-disk inode that growth updates in place. */
  class Inode {
    const sector: nat
    var data: InodeDisk
    var denyWriteCnt: nat
    /** The sectors of the file, in the order they were allocated. */
    ghost var alloc: seq<nat>

    constructor (sector: nat, data: InodeDisk, ghost alloc: seq<nat>)
      ensures this.sector == sector && this.data == data && this.alloc == alloc && denyWriteCnt == 0
    {
      this.sector, this.data, this.alloc, denyWriteCnt := sector, data, alloc, 0;
    }
  }

  ghost predicate InodeOk(fs: FileSystem, ino: Inode)
    reads fs, fs.freeMap.words, ino
  {
    fs.Valid() && FileOk(fs.disk, ino.data, ino.alloc) && Owns(fs.Bits(), ino.sector, ino.alloc)
  }

  /** A turn of the loop took the sectors t and covered left0 - left more bytes. */
  twostate predicate Stepped(fs: FileSystem, ino: Inode, t: seq<nat>, left0: nat, left: nat)
    reads fs, fs.freeMap.words, ino
  {
    && fs.Valid() && old(fs.Valid()) && Owns(fs.Bits(), ino.sector, ino.alloc) && ino.alloc == old(ino.alloc) + t
    && Growing(old(fs.Bits()), old(fs.disk), fs.Bits(), fs.disk, old(ino.alloc), t)
    && left < left0 && ino.data.length == old(ino.data.length) + left0 - left && ino.data.parent == old(ino.data.parent)
  }

  /** A turn of the loop that is the last one: it took the sectors t, and changed no sector in use outside the file. */
  twostate predicate Halted(fs: FileSystem, ino: Inode, t: seq<nat>)
    reads fs, fs.freeMap.words, ino
  {
    fs.Valid() && old(fs.Valid()) && Contained(old(fs.Bits()), old(fs.disk), fs.Bits(), fs.disk, old(ino.alloc), t)
  }

  /** Section 1 (lines 401-424): the sectors listed in the inode itself. */
  method GrowDirect(fs: FileSystem, ino: Inode, left0: nat, cur0: nat, ghost need: int)
    returns (r: GrowResult, left: nat, cur: nat, ghost t: seq<nat>)
    requires InodeOk(fs, ino) && left0 > 0 && ino.data.length < DIRECT_BYTES && cur0 < FILESYS_LIMIT_SECTORS
    requires ino.data.length % 512 == 0 ==> 1 <= need
    modifies fs, fs.freeMap.words, ino`data, ino`alloc
    ensures fs.Valid() && (r.Progress? || r.NoSpace?)
    ensures r.NoSpace? ==> Halted(fs, ino, t) && Scarce(old(fs.Bits()), need)
    ensures r.Progress? ==> Stepped(fs, ino, t, left0, left) && FileOk(fs.disk, ino.data, ino.alloc)
    ensures r.Progress? ==> old(ino.data.length) < ino.data.length <= DIRECT_BYTES
    ensures r.Progress? ==> ino.data.length <= old(ino.data.length) + 512 - old(ino.data.length) % 512
    ensures r.Progress? ==> cur == cur0 + (if old(ino.data.length) % 512 == 0 then 1 else 0)
    ensures r.Progress? ==> left == 0 || Aligned(ino.data.length)
  {
    hide FileOk, Growing, SameBytes;
    FileOkMeans(fs.disk, ino.data, ino.alloc);
    GrowingNothing(fs.Bits(), fs.disk, ino.alloc);
    ghost var b, d, a, node := fs.Bits(), fs.disk, ino.alloc, ino.data;
    left, cur, t := left0, cur0, [];
    var ofs := ino.data.length % 512;
    if ofs != 0 {
      var next := Min(left, 512 - ofs);
      FillSector(ino.data.length, next);
      left := left - next;
      NextSector(ino.data.length, next, left);
      ino.data := ino.data.(length := ino.data.length + next);
      DirectFilled(d, node, ino.data, a);
      assert a + t == a;
      return Progress, left, cur, t;
    }
    var x;
    x, t := NewSector(fs);
    if x.None? {
      return NoSpace, left, cur, t;
    }
    cur := cur + 1;
    var next := Min(left, 512);
    AddSector(ino.data.length, next);
    left := left - next;
    NextSector(ino.data.length, next, left);
    ino.data := ino.data.(sector := ino.data.sector[ino.data.length / 512 := x.value], length := ino.data.length + next);
    OwnedUntouched(b, d, fs.disk, ino.sector, a);
    DirectAdded(d, fs.disk, node, ino.data, a, x.value);
    OwnsMore(b, fs.Bits(), ino.sector, a, t);
    GrowingByKept(b, d, fs.Bits(), fs.disk, a, t);
    ino.alloc := a + t;
    r := Progress;
  }

  /** Writes the filled leaf back (lines 471 and 557); b and d are the state before it was filled. */
  method StoreLeaf(fs: FileSystem, ino: Inode, l: LeafRef, at: nat, leaf: InodeDisk, ghost b: seq<bool>, ghost d: Disk,
                   ghost c: seq<nat>)
    requires fs.Valid() && FileOk(d, ino.data, ino.alloc) && Owns(b, ino.sector, ino.alloc)
    requires Took(b, fs.Bits(), c) && Kept(b, d, fs.disk, {}) && AllZero(fs.disk, c)
    requires l.Ok() && l.Start() < ino.data.length <= l.Start() + leaf.length <= l.Start() + LEAF_BYTES
    requires l.Pos() < |ino.alloc| && at == ino.alloc[l.Pos()] < |d| && d[at].Index?
    requires d[at].node.length == ino.data.length - l.Start()
    requires SectorsFor(leaf.length) == SectorsFor(d[at].node.length) + |c|
    requires Extends(d[at].node.sector, leaf.sector, SectorsFor(d[at].node.length), c)
    modifies fs`disk, ino`data, ino`alloc
    ensures InodeOk(fs, ino) && ino.alloc == old(ino.alloc) + c
    ensures Growing(b, d, fs.Bits(), fs.disk, old(ino.alloc), c)
    ensures ino.data == old(ino.data).(length := l.Start() + leaf.length)
    ensures l.Inner? ==> OuterLen(fs.disk, ino.data) == OuterLen(d, old(ino.data))
  {
    hide FileOk, Owns, Growing, Took, AllZero, Extends, OnlyLeaf, SectorsFor;
    ghost var d1, node, a := fs.disk, ino.data, ino.alloc;
    fs.disk := fs.disk[at := Index(leaf)];
    ino.data := ino.data.(length := l.Start() + leaf.length);
    LeafWritten(b, fs.Bits(), d, d1, fs.disk, node, ino.data, ino.sector, a, c, l, leaf);
    OuterUntouched(d, fs.disk, node, ino.data, a, l);
    ino.alloc := a + c;
  }

  /** Fills the leaf that holds the end of the file (lines 433-475, and 519-561 for the outer block). */
  method GrowLeaf(fs: FileSystem, ino: Inode, l: LeafRef, at: nat, left0: nat, cur0: nat, ghost need: int)
    returns (r: GrowResult, left: nat, cur: nat, ghost t: seq<nat>)
    requires InodeOk(fs, ino) && left0 > 0 && cur0 < FILESYS_LIMIT_SECTORS
    requires l.Ok() && l.Start() < ino.data.length <= l.Start() + LEAF_BYTES
    requires l.Pos() < |ino.alloc| && at == ino.alloc[l.Pos()]
    requires LeafWant(ino.data.length - l.Start(), left0, cur0) <= need
    modifies fs, fs.freeMap.words, ino`data, ino`alloc
    ensures fs.Valid() && !r.CutOff?
    ensures !r.Progress? ==> Halted(fs, ino, t)
    ensures r.NoSpace? ==> Scarce(old(fs.Bits()), need)
    ensures r.Stuck? ==> old(ino.data.length) == l.Start() + LEAF_BYTES && t == []
    ensures r.Progress? ==> Stepped(fs, ino, t, left0, left) && FileOk(fs.disk, ino.data, ino.alloc)
    ensures r.Progress? ==> ino.data == old(ino.data).(length := ino.data.length) && ino.data.length <= l.Start() + LEAF_BYTES
    ensures r.Progress? && l.Inner? ==> OuterLen(fs.disk, ino.data) == old(OuterLen(fs.disk, ino.data))
    ensures r.Progress? ==> LeafTally(old(ino.data.length) - l.Start(), ino.data.length - l.Start(), left, cur0, cur)
  {
    hide FileOk, Owns, Growing, Took, Held;
    ghost var b, d := fs.Bits(), fs.disk;
    EndLeaf(d, ino.data, ino.alloc, l);
    var leaf0 := NodeAt(fs.disk, at);
    var ok, leaf;
    ok, leaf, left, cur, t := FillLeaf(fs, leaf0, left0, cur0);
    if !ok {
      return NoSpace, left, cur, t;
    }
    if left == left0 {
      // Nothing was added, so the loop of inode_grow comes back here for ever.
      return Stuck, left, cur, t;
    }
    StoreLeaf(fs, ino, l, at, leaf, b, d, t);
    r := Progress;
  }

  /** Fills a leaf, with the count of sectors. */
  method CountLeaf(fs: FileSystem, ino: Inode, l: LeafRef, at: nat, left0: nat, cur0: nat, ghost need: int)
    returns (r: GrowResult, left: nat, cur: nat, ghost t: seq<nat>)
    requires InodeOk(fs, ino) && left0 > 0 && cur0 < FILESYS_LIMIT_SECTORS
    requires l.Ok() && l.Start() < ino.data.length <= l.Start() + LEAF_BYTES
    requires l.Pos() < |ino.alloc| && at == ino.alloc[l.Pos()]
    requires LeafWant(ino.data.length - l.Start(), left0, cur0) <= need
    modifies fs, fs.freeMap.words, ino`data, ino`alloc
    ensures fs.Valid() && !r.CutOff?
    ensures !r.Progress? ==> Halted(fs, ino, t)
    ensures r.NoSpace? ==> Scarce(old(fs.Bits()), need)
    ensures r.Stuck? ==> old(ino.data.length) == l.Start() + LEAF_BYTES && t == []
    ensures r.Progress? ==> Stepped(fs, ino, t, left0, left) && FileOk(fs.disk, ino.data, ino.alloc)
    ensures r.Progress? ==> ino.data.length <= l.Start() + LEAF_BYTES
    ensures r.Progress? && l.Inner? ==> OuterLen(fs.disk, ino.data) == old(OuterLen(fs.disk, ino.data))
    ensures r.Progress? ==> Counts(old(ino.data.length), ino.data.length, left, cur0, cur)
    ensures r.Progress? ==> |t| == Need(old(ino.data.length), ino.data.length)
  {
    hide FileOk, Owns, Growing, Cost, Weight, Held, Need;
    ghost var length, d, node, a := ino.data.length, fs.disk, ino.data, ino.alloc;
    r, left, cur, t := GrowLeaf(fs, ino, l, at, left0, cur0, need);
    if r.Progress? {
      FilledCounts(l, length, ino.data.length, left, cur0, cur);
      GrownBy(d, node, fs.disk, ino.data, a, t);
    }
  }

  /** Adds a leaf to the inode (lines 477-494). */
  method GrowSingle(fs: FileSystem, ino: Inode, j: nat, left0: nat, cur0: nat, ghost need: int)
    returns (r: GrowResult, left: nat, cur: nat, ghost t: seq<nat>)
    requires InodeOk(fs, ino) && left0 > 0 && j < 5 && ino.data.length == DIRECT_BYTES + LEAF_BYTES * j
    requires 1 + SectorsFor(Min(left0, LEAF_BYTES)) <= need
    modifies fs, fs.freeMap.words, ino`data, ino`alloc
    ensures fs.Valid() && !r.Stuck?
    ensures r.NoSpace? ==> Halted(fs, ino, t) && Scarce(old(fs.Bits()), need)
    ensures !r.NoSpace? ==> Stepped(fs, ino, t, left0, left) && ino.data.length <= DIRECT_BYTES + LEAF_BYTES * j + LEAF_BYTES
    ensures r.Progress? ==> FileOk(fs.disk, ino.data, ino.alloc)
    ensures !r.NoSpace? ==> left == left0 - Min(left0, LEAF_BYTES)
    ensures !r.NoSpace? ==> NewLeafCount(r, Min(left0, LEAF_BYTES), cur0, cur, |ino.alloc| - |old(ino.alloc)|)
  {
    hide FileOk, Growing, SameBytes, Owns, Untouched, AllZero, Kept, LeafNode;
    FileOkMeans(fs.disk, ino.data, ino.alloc);
    ghost var b, d, a, node := fs.Bits(), fs.disk, ino.alloc, ino.data;
    var next := Min(left0, LEAF_BYTES);
    left := left0 - next;
    var x;
    ghost var c;
    x, cur, c, t := NewLeaf(fs, next, cur0 + 1);
    if x.None? {
      ContainedByKept(b, d, fs.Bits(), fs.disk, a, t);
      return NoSpace, left, cur, t;
    }
    ino.data := ino.data.(sector := ino.data.sector[119 + j := x.value], length := ino.data.length + next);
    SingleStart(j);
    OwnedUntouched(b, d, fs.disk, ino.sector, a);
    LeafAppended(d, fs.disk, a, x.value, c);
    OwnsMore(b, fs.Bits(), ino.sector, a, t);
    GrowingByKept(b, d, fs.Bits(), fs.disk, a, t);
    NextLeaf(next);
    ino.alloc := a + t;
    if cur < cur0 + 2 + SectorsFor(next) {
      return CutOff, left, cur, t;
    }
    assert |c| == SectorsFor(next);
    SingleAdded(d, fs.disk, node, ino.data, a, x.value, c, j, next);
    r := Progress;
  }

  /** Adds the outer block and fills it (lines 593-612). */
  method GrowOuter(fs: FileSystem, ino: Inode, left0: nat, cur0: nat, ghost need: int)
    returns (r: GrowResult, left: nat, cur: nat, ghost t: seq<nat>)
    requires InodeOk(fs, ino) && left0 > 0 && ino.data.length == SINGLE_BYTES && cur0 >= Counted(744)
    requires 1 + LeavesWanted(Min(left0, OUTER_BYTES), cur0 + 2) <= need
    modifies fs, fs.freeMap.words, ino`data, ino`alloc
    ensures fs.Valid() && !r.Stuck?
    ensures r.NoSpace? ==> Halted(fs, ino, t) && Scarce(old(fs.Bits()), need)
    ensures !r.NoSpace? ==> Stepped(fs, ino, t, left0, left)
    ensures r.Progress? ==> FileOk(fs.disk, ino.data, ino.alloc) && left == 0
    ensures r.Progress? ==> Counts(old(ino.data.length), ino.data.length, left, cur0, cur)
    ensures r.CutOff? ==> Lacks(old(ino.data.length), ino.data.length, cur0, cur, |ino.alloc|)
    ensures r.CutOff? ==> |t| == 1 + LeavesWanted(Min(left0, OUTER_BYTES), cur0 + 2)
  {
    hide FileOk, Growing, SameBytes, LeavesOn;
    FileOkMeans(fs.disk, ino.data, ino.alloc);
    ghost var b, d, a, node := fs.Bits(), fs.disk, ino.alloc, ino.data;
    var next := Min(left0, OUTER_BYTES);
    left := left0 - next;
    OuterHeld(next);
    var x;
    ghost var c;
    x, cur, c, t := NewOuter(fs, next, cur0 + 1);
    if x.None? {
      return NoSpace, left, cur, t;
    }
    ino.data := ino.data.(sector := ino.data.sector[124 := x.value], length := ino.data.length + next);
    OwnedUntouched(b, d, fs.disk, ino.sector, a);
    OuterAppended(d, fs.disk, a, x.value, c);
    OwnsMore(b, fs.Bits(), ino.sector, a, t);
    GrowingByKept(b, d, fs.Bits(), fs.disk, a, t);
    ino.alloc := a + t;
    if cur < cur0 + 2 + LeavesHeld(SectorsFor(next)) {
      return CutOff, left, cur, t;
    }
    OuterAdded(d, fs.disk, node, ino.data, a, x.value, c, next);
    r := Progress;
  }

  /** One turn of the loop below: a leaf is allocated and entered in the copy of the outer block. */
  method AddInnerLeaf(fs: FileSystem, ino: Inode, at: nat, outer0: InodeDisk, j: nat, left0: nat, cur0: nat, ghost need: int)
    returns (r: GrowResult, outer: InodeDisk, left: nat, cur: nat, ghost t: seq<nat>)
    requires fs.Valid() && InnerTurns(fs.disk, at, outer0, ino, j, left0) && Owns(fs.Bits(), ino.sector, ino.alloc)
    requires j < 125 && left0 > 0
    requires 1 + Min(SectorsFor(Min(left0, LEAF_BYTES)), Room(cur0 + 2)) <= need
    modifies fs, fs.freeMap.words, ino`data, ino`alloc
    ensures fs.Valid() && |fs.disk| == old(|fs.disk|) && !r.Stuck?
    ensures r.NoSpace? ==> Halted(fs, ino, t) && Scarce(old(fs.Bits()), need)
    ensures r.Progress? ==> InnerTurns(fs.disk, at, outer, ino, j + 1, left)
    ensures !r.NoSpace? ==> left == left0 - Min(left0, LEAF_BYTES)
    ensures !r.NoSpace? ==> InnerGrown(old(fs.Bits()), Pending(old(fs.disk), at, outer0), old(ino.alloc), old(ino.data), left0,
                                       fs.Bits(), Pending(fs.disk, at, outer), ino.alloc, ino.data, left, ino.sector, t)
    ensures !r.NoSpace? ==> NewLeafCount(r, left0 - left, cur0, cur, |ino.alloc| - |old(ino.alloc)|)
    ensures !r.NoSpace? ==> |old(ino.alloc)| == 750 + 126 * j
  {
    hide Growing, SameBytes, LeafNode, Building, LeafLengths;
    ghost var b1, d1, node1, a1 := fs.Bits(), fs.disk, ino.data, ino.alloc;
    var next := Min(left0, LEAF_BYTES);
    outer, left := outer0, left0 - next;
    InnerStart(j);
    assert |a1| == 750 + 126 * j;
    var x;
    ghost var c;
    x, cur, c, t := NewLeaf(fs, next, cur0 + 1);
    if x.None? {
      return NoSpace, outer, left, cur, t;
    }
    outer := outer.(sector := outer.sector[j := x.value], length := outer.length + next);
    ino.data := ino.data.(length := ino.data.length + next);
    LeafEntered(b1, fs.Bits(), d1, fs.disk, outer0, outer, node1, ino.data, ino.sector, a1, x.value, c, j, left0, left);
    ino.alloc := a1 + t;
    r := if cur < cur0 + 2 + SectorsFor(next) then CutOff else Progress;
  }

  /** Of the sectors that were to be taken before, took have been taken, and after are still to come unless it is over. */
  predicate Tolled(r: GrowResult, took: nat, before: int, after: int) {
    && (r.Progress? ==> before == took + after)
    && (r.CutOff? || r.Stuck? ==> before == took)
  }

  /** The state of the loop below, whose turn i is next. */
  ghost predicate InnerTurns(disk: Disk, at: nat, outer: InodeDisk, ino: Inode, i: nat, left: nat)
    reads ino
  {
    && at < |disk| && OUTER < |ino.alloc| && at == ino.alloc[OUTER]
    && FileOk(Pending(disk, at, outer), ino.data, ino.alloc)
    && outer.length == ino.data.length - SINGLE_BYTES && |outer.sector| == TOTAL_SECTOR_CNT
    && 0 < i && (left > 0 ==> outer.length == LEAF_BYTES * i)
  }

  /** The loop below after k turns. */
  ghost predicate InnerSoFar(fs: FileSystem, ino: Inode, at: nat, outer: InodeDisk, r: GrowResult, j: nat, k: nat,
                             left0: nat, left: nat, cur0: nat, cur: nat, goal: nat,
                             b0: seq<bool>, v0: Disk, a0: seq<nat>, node0: InodeDisk, t: seq<nat>, total: int)
    reads fs, fs.freeMap.words, ino
  {
    && fs.Valid() && at < |fs.disk| && Turned(left0, left, k) && ino.data.length <= FILE_BYTES && ino.data.length + left == goal
    && (r.Progress? ==> InnerTurns(fs.disk, at, outer, ino, j + k, left))
    && InnerGrown(b0, v0, a0, node0, left0, fs.Bits(), Pending(fs.disk, at, outer), ino.alloc, ino.data, left, ino.sector, t)
    && InnerCount(r, k, left0, left, cur0, cur, |ino.alloc|, Held(SectorsFor(ino.data.length)))
    && ino.data.length > SINGLE_BYTES && Tolled(r, |t|, total, Takes(cur, ino.data.length, ino.data.length - SINGLE_BYTES, goal))
  }

  /** The sectors that one more leaf takes. */
  lemma InnerTolled(r: GrowResult, i: nat, cur1: nat, cur: nat, length: nat, left1: nat, next: nat, goal: nat, took: nat, u: nat, total: int)
    requires 0 < i < 125 && length == SINGLE_BYTES + LEAF_BYTES * i && goal == length + left1 && next == Min(left1, LEAF_BYTES)
    requires left1 > 0 && cur1 < FILESYS_LIMIT_SECTORS && NewLeafCount(r, next, cur1, cur, u) && !r.Stuck?
    requires Tolled(Progress, took, total, Takes(cur1, length, length - SINGLE_BYTES, goal))
    ensures Tolled(r, took + u, total, Takes(cur, length + next, length + next - SINGLE_BYTES, goal))
  {
    hide Takes;
    if r.Progress? {
      WholeToll(i, cur1, cur, length, left1, next, goal);
    } else {
      WholeLeast(i, cur1, length, left1, next, goal);
    }
  }

  /** One turn of the loop below, seen from its start. */
  method InnerStep(fs: FileSystem, ino: Inode, at: nat, outer1: InodeDisk, j: nat, k: nat, left0: nat, left1: nat, cur0: nat, cur1: nat,
                   ghost goal: nat, ghost b0: seq<bool>, ghost v0: Disk, ghost a0: seq<nat>, ghost node0: InodeDisk, ghost t1: seq<nat>,
                   ghost total: int)
    returns (r: GrowResult, outer: InodeDisk, left: nat, cur: nat, ghost t: seq<nat>)
    requires InnerSoFar(fs, ino, at, outer1, Progress, j, k, left0, left1, cur0, cur1, goal, b0, v0, a0, node0, t1, total)
    requires left1 > 0 && j + k < 125 && cur1 < FILESYS_LIMIT_SECTORS && FileOk(v0, node0, a0) && OUTER < |a0| && at == a0[OUTER]
    modifies fs, fs.freeMap.words, ino`data, ino`alloc
    ensures fs.Valid() && |fs.disk| == old(|fs.disk|) && !r.Stuck?
    ensures r.NoSpace? ==> Contained(b0, v0, fs.Bits(), fs.disk, a0, t) && Scarce(b0, total)
    ensures !r.NoSpace? ==>
              left < left1 && InnerSoFar(fs, ino, at, outer, r, j, k + 1, left0, left, cur0, cur, goal, b0, v0, a0, node0, t, total)
  {
    hide Takes, FileOk, Owns, Growing, Contained, Scarce, Held, InnerCount, NewLeafCount, Pending;
    ghost var b1, d1, v1, a1, node1 := fs.Bits(), fs.disk, Pending(fs.disk, at, outer1), ino.alloc, ino.data;
    ghost var u, need := [], Takes(cur1, node1.length, node1.length - SINGLE_BYTES, goal);
    WholeLeast(j + k, cur1, node1.length, left1, Min(left1, LEAF_BYTES), goal);
    r, outer, left, cur, u := AddInnerLeaf(fs, ino, at, outer1, j + k, left1, cur1, need);
    t := t1 + u;
    if r.NoSpace? {
      InnerHalts(b0, v0, a0, b1, d1, outer1, fs.Bits(), fs.disk, at, t1, u, need);
      return;
    }
    InnerTolled(r, j + k, cur1, cur, node1.length, left1, left1 - left, goal, |t1|, |u|, total);
    InnerGrownMore(b0, v0, a0, node0, left0, b1, v1, a1, node1, left1,
                   fs.Bits(), Pending(fs.disk, at, outer), ino.alloc, ino.data, left, ino.sector, t1, u);
    TurnedMore(left0, left1, k);
    InnerCountMore(r, j + k, k, left0, left1, left, cur0, cur1, cur, ino.data.length, |a1|, |ino.alloc|, Held(SectorsFor(node1.length)));
  }

  /** While leaves are to come, the outer block has room for them. */
  lemma SoFarMeans(fs: FileSystem, ino: Inode, at: nat, outer: InodeDisk, r: GrowResult, j: nat, k: nat,
                   left0: nat, left: nat, cur0: nat, cur: nat, goal: nat,
                   b0: seq<bool>, v0: Disk, a0: seq<nat>, node0: InodeDisk, t: seq<nat>, total: int)
    requires InnerSoFar(fs, ino, at, outer, r, j, k, left0, left, cur0, cur, goal, b0, v0, a0, node0, t, total)
    ensures fs.Valid() && (r.Progress? && left > 0 && outer.length < OUTER_BYTES ==> j + k < 125)
  {
  }

  lemma SoFarStarts(fs: FileSystem, ino: Inode, at: nat, outer: InodeDisk, j: nat, left: nat, cur: nat, goal: nat, total: int)
    requires fs.Valid() && InnerTurns(fs.disk, at, outer, ino, j, left) && Owns(fs.Bits(), ino.sector, ino.alloc)
    requires ino.data.length + left == goal && ino.data.length > SINGLE_BYTES && cur <= FILESYS_LIMIT_SECTORS
    requires total == Takes(cur, ino.data.length, ino.data.length - SINGLE_BYTES, goal)
    ensures InnerSoFar(fs, ino, at, outer, Progress, j, 0, left, left, cur, cur, goal,
                       fs.Bits(), Pending(fs.disk, at, outer), ino.alloc, ino.data, [], total)
  {
    hide Takes;
    InnerStarts(fs.Bits(), Pending(fs.disk, at, outer), ino.alloc, ino.data, left, ino.sector, cur);
  }

  /** Leaf after leaf under the copy of the outer block, until the length is covered or the size limit reached. */
  method AddInnerLeaves(fs: FileSystem, ino: Inode, at: nat, outer0: InodeDisk, j: nat, left0: nat, cur0: nat, ghost goal: nat, ghost total: int)
    returns (r: GrowResult, outer: InodeDisk, left: nat, cur: nat, ghost t: seq<nat>, ghost k: nat)
    requires fs.Valid() && InnerTurns(fs.disk, at, outer0, ino, j, left0) && Owns(fs.Bits(), ino.sector, ino.alloc)
    requires j < 125 && ino.data.length + left0 == goal && left0 > 0 && cur0 < FILESYS_LIMIT_SECTORS
    requires ino.data.length > SINGLE_BYTES && total == Takes(cur0, ino.data.length, ino.data.length - SINGLE_BYTES, goal)
    modifies fs, fs.freeMap.words, ino`data, ino`alloc
    ensures fs.Valid() && |fs.disk| == old(|fs.disk|) && !r.Stuck?
    ensures r.NoSpace? ==> Contained(old(fs.Bits()), Pending(old(fs.disk), at, outer0), fs.Bits(), fs.disk, old(ino.alloc), t)
    ensures r.NoSpace? ==> Scarce(old(fs.Bits()), total)
    ensures !r.NoSpace? ==> left < left0 && InnerSoFar(fs, ino, at, outer, r, j, k, left0, left, cur0, cur, goal,
              old(fs.Bits()), Pending(old(fs.disk), at, outer0), old(ino.alloc), old(ino.data), t, total)
    ensures r.Progress? ==> left == 0 || cur >= FILESYS_LIMIT_SECTORS || outer.length >= OUTER_BYTES
  {
    hide Takes, InnerSoFar, FileOk, Owns, Contained, Scarce;
    ghost var b0, v0, a0, node0 := fs.Bits(), Pending(fs.disk, at, outer0), ino.alloc, ino.data;
    r, outer, left, cur, t, k := Progress, outer0, left0, cur0, [], 0;
    SoFarStarts(fs, ino, at, outer0, j, left0, cur0, goal, total);
    var i := 0;
    while r.Progress? && left > 0 && cur < FILESYS_LIMIT_SECTORS && outer.length < OUTER_BYTES
      invariant |fs.disk| == old(|fs.disk|) && (r.Progress? || r.CutOff?) && left <= left0 && i == k
      invariant InnerSoFar(fs, ino, at, outer, r, j, k, left0, left, cur0, cur, goal, b0, v0, a0, node0, t, total)
      invariant left == left0 ==> r.Progress? && cur == cur0 && outer == outer0
      decreases left
    {
      SoFarMeans(fs, ino, at, outer, r, j, k, left0, left, cur0, cur, goal, b0, v0, a0, node0, t, total);
      r, outer, left, cur, t := InnerStep(fs, ino, at, outer, j, i, left0, left, cur0, cur, goal, b0, v0, a0, node0, t, total);
      if r.NoSpace? {
        return;
      }
      i, k := i + 1, k + 1;
    }
    SoFarMeans(fs, ino, at, outer, r, j, k, left0, left, cur0, cur, goal, b0, v0, a0, node0, t, total);
  }

  /** What a turn of the loop says about how the growth ends: before and after are what was foretold. */
  predicate Foreseen(r: GrowResult, before: Growth, after: Growth, length: nat, cur: nat, held: nat) {
    && (r.Progress? ==> after == before && Counted(SectorsFor(length)) <= cur && Early(length, cur))
    && (r.CutOff? ==> before == Cut && held < Held(SectorsFor(length)))
    && (r.Stuck? ==> before == Hangs)
  }

  /** A turn of the loop of inode_grow towards goal bytes. */
  twostate predicate Turn(fs: FileSystem, ino: Inode, r: GrowResult, left0: nat, left: nat, cur0: nat, cur: nat, goal: nat, t: seq<nat>)
    reads fs, fs.freeMap.words, ino
  {
    && fs.Valid() && old(fs.Valid())
    && (r.NoSpace? || r.Stuck? ==> Halted(fs, ino, t))
    && (r.NoSpace? ==> Scarce(old(fs.Bits()), old(Takings(fs.disk, ino.data, cur0, goal))))
    && Tolled(r, |t|, old(Takings(fs.disk, ino.data, cur0, goal)), Takings(fs.disk, ino.data, cur, goal))
    && (r.Progress? || r.CutOff? ==> Stepped(fs, ino, t, left0, left))
    && (r.Progress? ==> FileOk(fs.disk, ino.data, ino.alloc))
    && Foreseen(r, old(Forecast(fs.disk, ino.data, cur0, goal)), Forecast(fs.disk, ino.data, cur, goal),
                ino.data.length, cur, |ino.alloc|)
  }

  lemma EarlyForeseen(r: GrowResult, cur0: nat, cur: nat, length: nat, length': nat, inner: nat, inner': nat, goal: nat, held: nat)
    requires length < length' <= goal && length' <= SINGLE_BYTES && Counted(SectorsFor(length)) <= cur0 < FILESYS_LIMIT_SECTORS
    requires Early(length, cur0)
    requires r.Progress? ==> Counts(length, length', goal - length', cur0, cur)
    requires r.CutOff? ==> Lacks(length, length', cur0, cur, held)
    requires !r.Stuck?
    ensures Foreseen(r, Foretell(cur0, length, inner, goal), Foretell(cur, length', inner', goal), length', cur, held)
  {
    if r.Progress? {
      CostBeatsCount(length, length');
      EarlyStep(cur0, cur, length, length', inner, inner', goal);
    } else if r.CutOff? {
      EarlyCut(cur0, length, length', inner, goal);
    }
  }

  /** Section 1 of the loop, with its count (lines 401-424). */
  method TurnDirect(fs: FileSystem, ino: Inode, left0: nat, cur0: nat, ghost goal: nat)
    returns (r: GrowResult, left: nat, cur: nat, ghost t: seq<nat>)
    requires InodeOk(fs, ino) && left0 > 0 && ino.data.length < DIRECT_BYTES && ino.data.length + left0 == goal
    requires Counted(SectorsFor(ino.data.length)) <= cur0 < FILESYS_LIMIT_SECTORS && Early(ino.data.length, cur0)
    modifies fs, fs.freeMap.words, ino`data, ino`alloc
    ensures Turn(fs, ino, r, left0, left, cur0, cur, goal, t)
  {
    hide FileOk, Owns, Growing, Takes, Foretell, Need;
    ghost var length, inner := ino.data.length, OuterLen(fs.disk, ino.data);
    ghost var d, node, a := fs.disk, ino.data, ino.alloc;
    EarlyLeast(cur0, length, inner, goal);
    if length % 512 == 0 {
      SectorNeed(length, Min(goal, SINGLE_BYTES));
    }
    r, left, cur, t := GrowDirect(fs, ino, left0, cur0, Takes(cur0, length, inner, goal));
    if r.Progress? {
      DirectCounts(length, ino.data.length, left, cur0, cur);
      EarlyForeseen(r, cur0, cur, length, ino.data.length, inner, OuterLen(fs.disk, ino.data), goal, |ino.alloc|);
      GrownBy(d, node, fs.disk, ino.data, a, t);
      EarlyToll(cur0, cur, length, ino.data.length, inner, OuterLen(fs.disk, ino.data), goal);
    }
  }

  /** Fills leaf j of the inode (lines 430-475). */
  method FillSingle(fs: FileSystem, ino: Inode, j: nat, left0: nat, cur0: nat, ghost goal: nat)
    returns (r: GrowResult, left: nat, cur: nat, ghost t: seq<nat>)
    requires InodeOk(fs, ino) && left0 > 0 && j < 5 && ino.data.length + left0 == goal
    requires DIRECT_BYTES + LEAF_BYTES * j < ino.data.length < DIRECT_BYTES + LEAF_BYTES * j + LEAF_BYTES
    requires Counted(SectorsFor(ino.data.length)) <= cur0 < FILESYS_LIMIT_SECTORS && Early(ino.data.length, cur0)
    modifies fs, fs.freeMap.words, ino`data, ino`alloc
    ensures Turn(fs, ino, r, left0, left, cur0, cur, goal, t)
  {
    hide FileOk, Owns, Growing, Held, Takes, Foretell, Need, LeafWant;
    ghost var length, inner := ino.data.length, OuterLen(fs.disk, ino.data);
    EndLeaf(fs.disk, ino.data, ino.alloc, Single(j));
    SingleLeast(j, cur0, length, inner, left0, goal);
    r, left, cur, t := CountLeaf(fs, ino, Single(j), ino.data.sector[119 + j], left0, cur0, Takes(cur0, length, inner, goal));
    if r.Progress? {
      EarlyForeseen(r, cur0, cur, length, ino.data.length, inner, OuterLen(fs.disk, ino.data), goal, |ino.alloc|);
      EarlyToll(cur0, cur, length, ino.data.length, inner, OuterLen(fs.disk, ino.data), goal);
    }
  }

  lemma NewSingleForeseen(r: GrowResult, j: nat, left0: nat, left: nat, cur0: nat, cur: nat, length: nat, length': nat,
                          inner: nat, inner': nat, goal: nat, held: nat)
    requires j < 5 && length == DIRECT_BYTES + LEAF_BYTES * j && goal == length + left0 == length' + left
    requires 0 < left0 && left == left0 - Min(left0, LEAF_BYTES) && !r.Stuck?
    requires Counted(SectorsFor(length)) <= cur0 < FILESYS_LIMIT_SECTORS && Early(length, cur0)
    requires NewLeafCount(r, Min(left0, LEAF_BYTES), cur0, cur, held - 119 - 126 * j)
    ensures Foreseen(r, Foretell(cur0, length, inner, goal), Foretell(cur, length', inner', goal), length', cur, held)
    ensures !r.CutOff? && (r.Progress? ==> Takes(cur0, length, inner, goal) == Need(length, length') + Takes(cur, length', inner', goal))
  {
    hide Takes, Foretell;
    NewLeafCounts(r, Single(j), Min(left0, LEAF_BYTES), left, cur0, cur, held);
    NotCutEarly(length, length', cur0, cur, held);
    EarlyForeseen(r, cur0, cur, length, length', inner, inner', goal, held);
    if r.Progress? {
      EarlyToll(cur0, cur, length, length', inner, inner', goal);
    }
  }

  /** Adds leaf j of the inode, with its count (lines 477-494). */
  method NewSingle(fs: FileSystem, ino: Inode, j: nat, left0: nat, cur0: nat, ghost goal: nat)
    returns (r: GrowResult, left: nat, cur: nat, ghost t: seq<nat>)
    requires InodeOk(fs, ino) && left0 > 0 && j < 5 && ino.data.length == DIRECT_BYTES + LEAF_BYTES * j && ino.data.length + left0 == goal
    requires Counted(SectorsFor(ino.data.length)) <= cur0 < FILESYS_LIMIT_SECTORS && Early(ino.data.length, cur0)
    modifies fs, fs.freeMap.words, ino`data, ino`alloc
    ensures Turn(fs, ino, r, left0, left, cur0, cur, goal, t)
  {
    hide FileOk, Owns, Growing, Takes, Foretell, Need;
    FileOkMeans(fs.disk, ino.data, ino.alloc);
    ghost var length, inner := ino.data.length, OuterLen(fs.disk, ino.data);
    ghost var d, node, a := fs.disk, ino.data, ino.alloc;
    NewSingleLeast(j, cur0, length, inner, left0, goal);
    r, left, cur, t := GrowSingle(fs, ino, j, left0, cur0, Takes(cur0, length, inner, goal));
    if !r.NoSpace? {
      NewSingleForeseen(r, j, left0, left, cur0, cur, length, ino.data.length, inner, OuterLen(fs.disk, ino.data), goal, |ino.alloc|);
      GrownBy(d, node, fs.disk, ino.data, a, t);
    }
  }

  /** Sections 1 and 2 (lines 401-495), below the outer block. */
  method GrowEarly(fs: FileSystem, ino: Inode, left0: nat, cur0: nat, ghost goal: nat)
    returns (r: GrowResult, left: nat, cur: nat, ghost t: seq<nat>)
    requires InodeOk(fs, ino) && left0 > 0 && ino.data.length < SINGLE_BYTES && ino.data.length + left0 == goal
    requires Counted(SectorsFor(ino.data.length)) <= cur0 < FILESYS_LIMIT_SECTORS && Early(ino.data.length, cur0)
    modifies fs, fs.freeMap.words, ino`data, ino`alloc
    ensures Turn(fs, ino, r, left0, left, cur0, cur, goal, t)
  {
    hide FileOk, Owns, Growing, Foreseen, Takes, Foretell, Tolled, Halted, Stepped;
    if ino.data.length < DIRECT_BYTES {
      r, left, cur, t := TurnDirect(fs, ino, left0, cur0, goal);
    } else {
      var j := (ino.data.length - DIRECT_BYTES) / LEAF_BYTES;
      SingleAt(ino.data.length);
      if (ino.data.length - DIRECT_BYTES) % LEAF_BYTES != 0 {
        r, left, cur, t := FillSingle(fs, ino, j, left0, cur0, goal);
      } else {
        r, left, cur, t := NewSingle(fs, ino, j, left0, cur0, goal);
      }
    }
  }

  lemma InnerForeseen(r: GrowResult, j: nat, k: nat, length0: nat, length: nat, inner: nat, left0: nat, left: nat,
                      cur0: nat, cur: nat, held: nat, goal: nat)
    requires 0 < j && length0 == SINGLE_BYTES + LEAF_BYTES * j && Turned(left0, left, k) && left < left0
    requires length == length0 + left0 - left <= FILE_BYTES && goal == length0 + left0 && !r.Stuck?
    requires Counted(SectorsFor(length0)) <= cur0 < FILESYS_LIMIT_SECTORS
    requires InnerCount(r, k, left0, left, cur0, cur, held, Held(SectorsFor(length)))
    requires r.Progress? ==> inner == length - SINGLE_BYTES && (left == 0 || cur >= FILESYS_LIMIT_SECTORS || length == FILE_BYTES)
    ensures Foreseen(r, Foretell(cur0, length0, LEAF_BYTES * j, goal), Foretell(cur, length, inner, goal), length, cur, held)
  {
    InnerCounts(r, j, k, length0, length, left0, left, cur0, cur, held);
    InnerForetold(r, j, k, length0, length, inner, left0, left, cur0, cur, held, goal);
    CostBeatsCount(length0, length);
  }

  /** Adds leaves to the outer block, which is written back at the end (lines 563-590). */
  method GrowInner(fs: FileSystem, ino: Inode, left0: nat, cur0: nat, ghost goal: nat)
    returns (r: GrowResult, left: nat, cur: nat, ghost t: seq<nat>)
    requires InodeOk(fs, ino) && left0 > 0 && SINGLE_BYTES < ino.data.length && ino.data.length + left0 == goal
    requires OuterLen(fs.disk, ino.data) == ino.data.length - SINGLE_BYTES && OuterLen(fs.disk, ino.data) % LEAF_BYTES == 0
    requires Counted(SectorsFor(ino.data.length)) <= cur0 < FILESYS_LIMIT_SECTORS
    modifies fs, fs.freeMap.words, ino`data, ino`alloc
    ensures Turn(fs, ino, r, left0, left, cur0, cur, goal, t)
  {
    hide Growing, Contained, Takes, Foretell, Owns, InnerCount, Held, Scarce;
    OuterInPlace(fs.disk, ino.data, ino.alloc);
    var at := ino.data.sector[124];
    var outer := NodeAt(fs.disk, at);
    WholeLeaves(outer.length);
    FullFileIsOver(ino.data.length);
    var j := outer.length / LEAF_BYTES;
    ghost var k, length0 := 0, ino.data.length;
    r, outer, left, cur, t, k := AddInnerLeaves(fs, ino, at, outer, j, left0, cur0, goal, Takings(fs.disk, ino.data, cur0, goal));
    if r.NoSpace? {
      return;
    }
    fs.disk := fs.disk[at := Index(outer)];
    InnerForeseen(r, j, k, length0, ino.data.length, OuterLen(fs.disk, ino.data), left0, left, cur0, cur, |ino.alloc|, goal);
  }

  lemma FilledForeseen(left: nat, cur0: nat, cur: nat, length: nat, length': nat, inner: nat, goal: nat, held: nat)
    requires SINGLE_BYTES < length < length' <= StuckAt(inner) && goal == length' + left && inner % LEAF_BYTES != 0
    requires Counted(SectorsFor(length)) <= cur0 < FILESYS_LIMIT_SECTORS && Counts(length, length', left, cur0, cur)
    ensures Foreseen(Progress, Foretell(cur0, length, inner, goal), Foretell(cur, length', inner, goal), length', cur, held)
  {
    CostBeatsCount(length, length');
    LeafStep(cur0, cur, length, length', inner, goal);
  }

  /** Fills the leaf of the outer block that its recorded length points into (lines 511-561). */
  method FillInner(fs: FileSystem, ino: Inode, j: nat, at: nat, left0: nat, cur0: nat, ghost goal: nat)
    returns (r: GrowResult, left: nat, cur: nat, ghost t: seq<nat>)
    requires InodeOk(fs, ino) && left0 > 0 && ino.data.length + left0 == goal && j < 125
    requires j == OuterLen(fs.disk, ino.data) / LEAF_BYTES && OuterLen(fs.disk, ino.data) % LEAF_BYTES != 0
    requires SINGLE_BYTES + LEAF_BYTES * j < ino.data.length <= SINGLE_BYTES + LEAF_BYTES * j + LEAF_BYTES
    requires 750 + 126 * j < |ino.alloc| && at == ino.alloc[750 + 126 * j]
    requires Counted(SectorsFor(ino.data.length)) <= cur0 < FILESYS_LIMIT_SECTORS
    modifies fs, fs.freeMap.words, ino`data, ino`alloc
    ensures Turn(fs, ino, r, left0, left, cur0, cur, goal, t)
  {
    hide FileOk, Owns, Growing, Held, Takes, Foretell, Need, LeafWant;
    ghost var length, inner := ino.data.length, OuterLen(fs.disk, ino.data);
    LeafLeast(j, cur0, length, inner, left0, goal);
    r, left, cur, t := CountLeaf(fs, ino, Inner(j), at, left0, cur0, Takes(cur0, length, inner, goal));
    if r.Progress? {
      FilledForeseen(left, cur0, cur, length, ino.data.length, inner, goal, |ino.alloc|);
      LeafToll(j, cur0, cur, length, ino.data.length, inner, goal);
    } else if r.Stuck? {
      StuckStep(cur0, length, inner, goal);
      StuckToll(cur0, length, inner, goal);
    }
  }

  /** Section 3 for a file that has an outer block (lines 500-591). */
  method GrowUnderOuter(fs: FileSystem, ino: Inode, left0: nat, cur0: nat, ghost goal: nat)
    returns (r: GrowResult, left: nat, cur: nat, ghost t: seq<nat>)
    requires InodeOk(fs, ino) && left0 > 0 && SINGLE_BYTES < ino.data.length && ino.data.length + left0 == goal
    requires Counted(SectorsFor(ino.data.length)) <= cur0 < FILESYS_LIMIT_SECTORS
    modifies fs, fs.freeMap.words, ino`data, ino`alloc
    ensures Turn(fs, ino, r, left0, left, cur0, cur, goal, t)
  {
    OuterTells(fs.disk, ino.data, ino.alloc);
    var outer := NodeAt(fs.disk, ino.data.sector[124]);
    if outer.length % LEAF_BYTES != 0 {
      var j := outer.length / LEAF_BYTES;
      r, left, cur, t := FillInner(fs, ino, j, outer.sector[j], left0, cur0, goal);
    } else {
      r, left, cur, t := GrowInner(fs, ino, left0, cur0, goal);
    }
  }

  /** Section 3 (lines 498-613). */
  method GrowDoubles(fs: FileSystem, ino: Inode, left0: nat, cur0: nat, ghost goal: nat)
    returns (r: GrowResult, left: nat, cur: nat, ghost t: seq<nat>)
    requires InodeOk(fs, ino) && left0 > 0 && SINGLE_BYTES <= ino.data.length && ino.data.length + left0 == goal
    requires Counted(SectorsFor(ino.data.length)) <= cur0 < FILESYS_LIMIT_SECTORS
    modifies fs, fs.freeMap.words, ino`data, ino`alloc
    ensures Turn(fs, ino, r, left0, left, cur0, cur, goal, t)
  {
    hide FileOk, Owns, Growing, Takes, Foretell;
    ghost var inner := OuterLen(fs.disk, ino.data);
    ghost var d, node, a := fs.disk, ino.data, ino.alloc;
    if ino.data.length == SINGLE_BYTES {
      OuterToll(cur0, inner, goal);
      r, left, cur, t := GrowOuter(fs, ino, left0, cur0, Takes(cur0, SINGLE_BYTES, inner, goal));
      if r.Progress? {
        StickOver(fs.disk, ino.data, ino.alloc, goal);
        CostBeatsCount(SINGLE_BYTES, ino.data.length);
        LastStep(cur0, cur, SINGLE_BYTES, inner, OuterLen(fs.disk, ino.data), goal);
        GrownBy(d, node, fs.disk, ino.data, a, t);
        LastToll(cur0, cur, SINGLE_BYTES, inner, OuterLen(fs.disk, ino.data), goal);
      } else if r.CutOff? {
        EarlyCut(cur0, SINGLE_BYTES, ino.data.length, inner, goal);
      }
    } else {
      r, left, cur, t := GrowUnderOuter(fs, ino, left0, cur0, goal);
    }
  }

  /** One turn of the loop of inode_grow. */
  method GrowOnce(fs: FileSystem, ino: Inode, left0: nat, cur0: nat, ghost goal: nat)
    returns (r: GrowResult, left: nat, cur: nat, ghost t: seq<nat>)
    requires InodeOk(fs, ino) && left0 > 0 && ino.data.length + left0 == goal
    requires Counted(SectorsFor(ino.data.length)) <= cur0 < FILESYS_LIMIT_SECTORS && Early(ino.data.length, cur0)
    modifies fs, fs.freeMap.words, ino`data, ino`alloc
    ensures Turn(fs, ino, r, left0, left, cur0, cur, goal, t)
  {
    if ino.data.length < SINGLE_BYTES {
      r, left, cur, t := GrowEarly(fs, ino, left0, cur0, goal);
    } else {
      r, left, cur, t := GrowDoubles(fs, ino, left0, cur0, goal);
    }
  }

  /** inode_grow returns true. */
  predicate Returns(r: Growth) {
    r.Grown? || r.Short? || r.Cut?
  }

  /** inode_grow took the sectors t and wrote the inode back. */
  twostate predicate HasGrown(fs: FileSystem, ino: Inode, t: seq<nat>)
    reads fs, fs.freeMap.words, ino
  {
    && fs.Valid() && old(fs.Valid()) && ino.alloc == old(ino.alloc) + t && Owns(fs.Bits(), ino.sector, ino.alloc)
    && Grew(old(fs.Bits()), old(fs.disk), fs.Bits(), fs.disk, ino.sector, old(ino.alloc), t)
    && fs.disk[ino.sector] == Index(ino.data) && ino.data.parent == old(ino.data.parent)
  }

  /** What each turn of the loop of inode_grow keeps. */
  ghost predicate GrowingOn(fs: FileSystem, ino: Inode, b0: seq<bool>, d0: Disk, a0: seq<nat>, node0: InodeDisk, goal: nat,
                            left: nat, t: seq<nat>)
    reads fs, fs.freeMap.words, ino
  {
    && fs.Valid() && Owns(fs.Bits(), ino.sector, ino.alloc) && ino.alloc == a0 + t
    && Growing(b0, d0, fs.Bits(), fs.disk, a0, t)
    && ino.data.length + left == goal && ino.data.parent == node0.parent
  }

  /** What it keeps as long as the size limit has cut nothing off: end is foretold. */
  ghost predicate Whole(disk: Disk, node: InodeDisk, a: seq<nat>, length0: nat, cur: nat, goal: nat, end: Growth) {
    && FileOk(disk, node, a) && Forecast(disk, node, cur, goal) == end
    && Counted(SectorsFor(node.length)) <= cur && Early(node.length, cur) && length0 <= node.length
  }

  /** One turn of the loop of inode_grow, seen from its start. */
  method GrowTurn(fs: FileSystem, ino: Inode, left0: nat, cur0: nat, ghost b0: seq<bool>, ghost d0: Disk, ghost a0: seq<nat>,
                  ghost node0: InodeDisk, ghost goal: nat, ghost end: Growth, ghost t0: seq<nat>, ghost total: int)
    returns (r: GrowResult, left: nat, cur: nat, ghost t: seq<nat>)
    requires GrowingOn(fs, ino, b0, d0, a0, node0, goal, left0, t0) && left0 > 0 && cur0 < FILESYS_LIMIT_SECTORS
    requires |t0| + Takings(fs.disk, ino.data, cur0, goal) == total
    requires Whole(fs.disk, ino.data, ino.alloc, node0.length, cur0, goal, end) && FileOk(d0, node0, a0)
    modifies fs, fs.freeMap.words, ino`data, ino`alloc
    ensures fs.Valid() && Contained(b0, d0, fs.Bits(), fs.disk, a0, t)
    ensures r.NoSpace? ==> Scarce(b0, total)
    ensures Tolled(r, |t|, total, Takings(fs.disk, ino.data, cur, goal))
    ensures r.Stuck? ==> end == Hangs
    ensures r.Progress? || r.CutOff? ==> left < left0 && GrowingOn(fs, ino, b0, d0, a0, node0, goal, left, t)
    ensures r.Progress? ==> Whole(fs.disk, ino.data, ino.alloc, node0.length, cur, goal, end)
    ensures r.CutOff? ==> end == Cut && |ino.alloc| < Held(SectorsFor(ino.data.length))
  {
    hide FileOk, Owns, Foretell, Takes;
    ghost var b1, d1, node1, u := fs.Bits(), fs.disk, ino.data, [];
    r, left, cur, u := GrowOnce(fs, ino, left0, cur0, goal);
    t := t0 + u;
    ContainedMore(b0, d0, b1, d1, fs.Bits(), fs.disk, a0, t0, u);
    if r.NoSpace? {
      ScarceAfter(b0, b1, t0, Takings(d1, node1, cur0, goal));
    } else if !r.Stuck? {
      GrowingMore(b0, d0, b1, d1, fs.Bits(), fs.disk, a0, t0, u);
      Assoc(a0, t0, u);
    }
  }

  lemma LoopEnds(disk: Disk, node: InodeDisk, a: seq<nat>, length0: nat, cur: nat, left: nat, goal: nat, end: Growth)
    requires Whole(disk, node, a, length0, cur, goal, end) && node.length + left == goal
    requires left == 0 || cur >= FILESYS_LIMIT_SECTORS
    ensures end == if left > 0 then Short else Grown
    ensures Takings(disk, node, cur, goal) == 0
  {
    if left == 0 {
      StickOver(disk, node, a, goal);
    } else {
      if node.length > SINGLE_BYTES {
        OuterTells(disk, node, a);
      } else {
        EarlyIsSmall(node.length, cur);
      }
      OverLimit(cur, node.length, OuterLen(disk, node), goal);
      OverToll(cur, node.length, OuterLen(disk, node), goal);
    }
  }

  /** The loop of inode_grow. */
  method GrowLoop(fs: FileSystem, ino: Inode, more: nat, cur0: nat, ghost goal: nat)
    returns (r: Growth, ghost left: nat, ghost t: seq<nat>)
    requires InodeOk(fs, ino) && cur0 == Counted(SectorsFor(ino.data.length)) && goal == ino.data.length + more
    modifies fs, fs.freeMap.words, ino`data, ino`alloc
    ensures fs.Valid() && Contained(old(fs.Bits()), old(fs.disk), fs.Bits(), fs.disk, old(ino.alloc), t)
    ensures r.OutOfSpace? ==> Scarce(old(fs.Bits()), old(Takings(fs.disk, ino.data, cur0, goal)))
    ensures !r.OutOfSpace? ==> r == old(Forecast(fs.disk, ino.data, cur0, goal)) && |t| == old(Takings(fs.disk, ino.data, cur0, goal))
    ensures Returns(r) ==> GrowingOn(fs, ino, old(fs.Bits()), old(fs.disk), old(ino.alloc), old(ino.data), goal, left, t)
    ensures r.Grown? || r.Short? ==> FileOk(fs.disk, ino.data, ino.alloc) && old(ino.data.length) <= ino.data.length
    ensures (r.Grown? ==> left == 0) && (r.Short? ==> left > 0)
    ensures r.Cut? ==> |ino.alloc| < Held(SectorsFor(ino.data.length))
  {
    hide FileOk, Owns, Foretell, Takes;
    ghost var b0, d0, a0, node0 := fs.Bits(), fs.disk, ino.alloc, ino.data;
    ghost var end, total := Forecast(fs.disk, ino.data, cur0, goal), Takings(fs.disk, ino.data, cur0, goal);
    var cur: nat, rest: nat := cur0, more;
    t := [];
    assert a0 + t == a0;
    EarlyStart(node0.length);
    while rest > 0 && cur < FILESYS_LIMIT_SECTORS
      invariant GrowingOn(fs, ino, b0, d0, a0, node0, goal, rest, t)
      invariant Whole(fs.disk, ino.data, ino.alloc, node0.length, cur, goal, end)
      invariant |t| + Takings(fs.disk, ino.data, cur, goal) == total
      decreases rest
    {
      var step;
      step, rest, cur, t := GrowTurn(fs, ino, rest, cur, b0, d0, a0, node0, goal, end, t, total);
      match step {
        case NoSpace => return OutOfSpace, rest, t;
        case Stuck => return Hangs, rest, t;
        case CutOff => return Cut, rest, t; // The size limit is reached, so the loop ends.
        case Progress =>
      }
    }
    LoopEnds(fs.disk, ino.data, ino.alloc, node0.length, cur, rest, goal, end);
    r, left := if rest > 0 then Short else Grown, rest;
  }

  /** Writes the inode back. */
  method Save(fs: FileSystem, ino: Inode, ghost b0: seq<bool>, ghost d0: Disk, ghost a0: seq<nat>, ghost t: seq<nat>)
    requires fs.Valid() && Growing(b0, d0, fs.Bits(), fs.disk, a0, t) && ino.alloc == a0 + t
    requires Owns(fs.Bits(), ino.sector, ino.alloc)
    modifies fs`disk
    ensures fs.Valid() && Grew(b0, d0, fs.Bits(), fs.disk, ino.sector, a0, t) && fs.disk[ino.sector] == Index(ino.data)
    ensures old(FileOk(fs.disk, ino.data, ino.alloc)) ==> FileOk(fs.disk, ino.data, ino.alloc)
  {
    ghost var d1 := fs.disk;
    fs.disk := fs.disk[ino.sector := Index(ino.data)];
    SaveGrowth(b0, d0, fs.Bits(), d1, ino.sector, ino.data, a0, t);
    if FileOk(d1, ino.data, ino.alloc) {
      SaveInode(d1, fs.disk, ino.data, ino.alloc);
    }
  }

  /**
   * inode_grow by more bytes.  It runs out of space exactly if fewer sectors are free than it
   * takes to the point where it ends; else it takes just those and ends as foretold from the
   * lengths in the inode and the outer block.  It never changes a sector in use that is not the file's own, and when it
   * returns the file has kept its bytes and reads zero beyond them.
   */
  method Grow(fs: FileSystem, ino: Inode, more: nat) returns (r: Growth, ghost t: seq<nat>)
    requires InodeOk(fs, ino)
    modifies fs, fs.freeMap.words, ino`data, ino`alloc
    ensures fs.Valid() && Touches(old(fs.Bits()), old(fs.disk), fs.Bits(), fs.disk, ino.sector, old(ino.alloc), t)
    ensures r.OutOfSpace? <==> Scarce(old(fs.Bits()), old(Toll(fs.disk, ino.data, ino.data.length + more)))
    ensures !r.OutOfSpace? ==> r == old(Fate(fs.disk, ino.data, ino.data.length + more))
    ensures !r.OutOfSpace? ==> |t| == old(Toll(fs.disk, ino.data, ino.data.length + more))
    ensures Returns(r) ==> HasGrown(fs, ino, t)
    ensures r.Grown? || r.Short? ==> FileOk(fs.disk, ino.data, ino.alloc) && old(ino.data.length) <= ino.data.length
    ensures r.Grown? ==> ino.data.length == old(ino.data.length) + more
    ensures r.Short? ==> ino.data.length < old(ino.data.length) + more
    ensures r.Cut? ==> |ino.alloc| < Held(SectorsFor(ino.data.length))
  {
    hide FileOk, Owns, Growing, Foretell, Takes, Took;
    FileOkMeans(fs.disk, ino.data, ino.alloc);
    ghost var b0, d0, a0 := fs.Bits(), fs.disk, ino.alloc;
    ghost var goal: nat := ino.data.length + more;
    var cur := LengthToTotalSectors(ino.data.length);
    ghost var left;
    r, left, t := GrowLoop(fs, ino, more, cur, goal);
    TakenWasFree(b0, fs.Bits(), t);
    if Returns(r) {
      Save(fs, ino, b0, d0, a0, t);
    }
  }

  /** A growth foretold to reach its goal takes just the sectors that the longer file needs. */
  lemma TollIsNeed(disk: Disk, node: InodeDisk, goal: nat)
    requires Fate(disk, node, goal) == Grown
    ensures Toll(disk, node, goal) == Need(node.length, goal)
  {
  }

  /** Nothing is foretold to go wrong where there is nothing to do, nor in files of up to 744 sectors. */
  lemma NoTrouble(disk: Disk, node: InodeDisk, a: seq<nat>, goal: nat)
    requires FileOk(disk, node, a) && (goal <= node.length || (node.length <= SINGLE_BYTES && goal <= SINGLE_BYTES))
    ensures Fate(disk, node, goal) == Grown
  {
    SmallFilesReach(node.length, goal);
    if node.length > SINGLE_BYTES {
      OuterTells(disk, node, a);
    }
  }

  // ---- files that do not grow as asked

  /** One byte into the outer block, growth past its first leaf hangs although the limit is far away. */
  lemma HangExample(disk: Disk, node: InodeDisk, a: seq<nat>)
    requires FileOk(disk, node, a) && node.length == SINGLE_BYTES + 1
    ensures Reaches(SINGLE_BYTES + 1, SINGLE_BYTES + 1 + LEAF_BYTES)
    ensures Fate(disk, node, SINGLE_BYTES + 1 + LEAF_BYTES) == Hangs
  {
    OuterInPlace(disk, node, a);
    assert OuterLen(disk, node) == 1;
  }

  /** An empty file that is to fill its whole index is cut off. */
  lemma CutExample(disk: Disk, node: InodeDisk, a: seq<nat>)
    requires FileOk(disk, node, a) && node.length == 0
    ensures Fate(disk, node, FILE_BYTES) == Cut
  {
    hide FileOk;
  }

  /** A file with 114 full leaves under its outer block stops short, whole, at the size limit. */
  lemma ShortExample(disk: Disk, node: InodeDisk, a: seq<nat>)
    requires FileOk(disk, node, a) && node.length == SINGLE_BYTES + LEAF_BYTES * 114
    requires OuterLen(disk, node) == LEAF_BYTES * 114
    ensures Fate(disk, node, FILE_BYTES) == Short
  {
    hide FileOk;
  }
}
