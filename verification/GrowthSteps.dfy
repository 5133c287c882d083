/** The steps of growing a file, as changes of the index on the disk (filesys/inode.c:385-619). */
module GrowthSteps {
  import opened Storage
  import opened FileLayout
  import opened FreeSectors
  import opened Inodes
  import opened FileShape
  import opened GrowthCount
  import opened GrowthToll

  /** The data sectors of a are as they were. */
  ghost predicate DataKept(disk: Disk, disk': Disk, a: seq<nat>) {
    |disk'| == |disk| && forall i: nat | DataPos(i) < |a| :: a[DataPos(i)] < |disk| && disk'[a[DataPos(i)]] == disk[a[DataPos(i)]]
  }

  /** The data sectors appended to a are zero. */
  ghost predicate NewDataZero(disk: Disk, a: seq<nat>, c: seq<nat>) {
    forall i: nat | |a| <= DataPos(i) < |a + c| ::
      c[DataPos(i) - |a|] < |disk| && disk[c[DataPos(i) - |a|]] == Data(ZeroSector())
  }

  lemma AppendKeepsBytes(disk: Disk, disk': Disk, a: seq<nat>, c: seq<nat>)
    requires DataKept(disk, disk', a) && NewDataZero(disk', a, c)
    ensures SameBytes(disk, a, disk', a + c)
  {
    forall q: nat ensures ByteAt(disk', a + c, q) == ByteAt(disk, a, q) {
      var p := DataPos(q / 512);
      if |a| <= p < |a + c| {
        assert (a + c)[p] == c[p - |a|];
      }
    }
  }

  /** The sectors t were taken, and nothing in use was changed outside a. */
  ghost predicate Contained(bits: seq<bool>, disk: Disk, bits': seq<bool>, disk': Disk, a: seq<nat>, t: seq<nat>) {
    && Took(bits, bits', t) && |bits| == |disk| == |disk'|
    && forall x: nat | x < |disk| && bits[x] && x !in a :: disk'[x] == disk[x]
  }

  lemma ContainedMore(b0: seq<bool>, d0: Disk, b1: seq<bool>, d1: Disk, b2: seq<bool>, d2: Disk,
                      a: seq<nat>, t: seq<nat>, u: seq<nat>)
    requires Contained(b0, d0, b1, d1, a, t) && Contained(b1, d1, b2, d2, a + t, u)
    ensures Contained(b0, d0, b2, d2, a, t + u)
  {
    TookMore(b0, b1, b2, t, u);
    assert forall x | x in a + t :: x in a || x in t;
  }

  /** Growth from a to a + t: moreover the file keeps its bytes. */
  ghost predicate Growing(bits: seq<bool>, disk: Disk, bits': seq<bool>, disk': Disk, a: seq<nat>, t: seq<nat>) {
    Contained(bits, disk, bits', disk', a, t) && SameBytes(disk, a, disk', a + t)
  }

  lemma Assoc(a: seq<nat>, b: seq<nat>, c: seq<nat>)
    ensures a + b + c == a + (b + c)
  {
  }

  lemma GrowingMore(b0: seq<bool>, d0: Disk, b1: seq<bool>, d1: Disk, b2: seq<bool>, d2: Disk,
                    a: seq<nat>, t: seq<nat>, u: seq<nat>)
    requires Growing(b0, d0, b1, d1, a, t) && Growing(b1, d1, b2, d2, a + t, u)
    ensures Growing(b0, d0, b2, d2, a, t + u)
  {
    ContainedMore(b0, d0, b1, d1, b2, d2, a, t, u);
    Assoc(a, t, u);
  }

  lemma ContainedByKept(bits: seq<bool>, disk: Disk, bits': seq<bool>, disk': Disk, a: seq<nat>, t: seq<nat>)
    requires Took(bits, bits', t) && Kept(bits, disk, disk', {})
    ensures Contained(bits, disk, bits', disk', a, t)
  {
  }

  lemma GrowingNothing(bits: seq<bool>, disk: Disk, a: seq<nat>)
    requires |bits| == |disk|
    ensures Growing(bits, disk, bits, disk, a, [])
  {
    assert a + [] == a;
  }

  lemma FileOkMeans(disk: Disk, node: InodeDisk, a: seq<nat>)
    requires FileOk(disk, node, a)
    ensures |node.sector| == TOTAL_SECTOR_CNT && |a| == Held(SectorsFor(node.length)) && node.length <= FILE_BYTES
  {
  }

  /** A file that grew has just the sectors more that it needs. */
  lemma GrownBy(disk: Disk, node: InodeDisk, disk': Disk, node': InodeDisk, a: seq<nat>, t: seq<nat>)
    requires FileOk(disk, node, a) && FileOk(disk', node', a + t)
    ensures |t| == Need(node.length, node'.length)
  {
  }

  /** The entries of a leaf that listed n sectors, after the sectors c were added. */
  predicate Extends(before: seq<nat>, after: seq<nat>, n: nat, c: seq<nat>) {
    && |before| == |after| == TOTAL_SECTOR_CNT && n + |c| <= TOTAL_SECTOR_CNT
    && forall k: nat | k < TOTAL_SECTOR_CNT :: after[k] == if n <= k < n + |c| then c[k - n] else before[k]
  }

  /** Nothing but the leaf at place p has changed among the sectors of a. */
  ghost predicate OnlyLeaf(disk: Disk, disk': Disk, a: seq<nat>, p: nat) {
    |disk'| == |disk| && forall k: nat | k < |a| && k != p :: a[k] < |disk| && disk'[a[k]] == disk[a[k]]
  }

  /** A leaf that begins before another ends before it. */
  lemma LeavesApart(p: nat, q: nat, n: nat)
    requires IsLeafPos(p) && IsLeafPos(q) && p != q && q < n <= p + 126
    ensures q + 126 <= p
  {
  }

  lemma LeafBlock(disk: Disk, a: seq<nat>, p: nat)
    requires LeafAt(disk, a, p)
    ensures p < |a| && a[p] < |disk|
  {
  }

  lemma OtherLeaf(disk: Disk, disk': Disk, a: seq<nat>, c: seq<nat>, p: nat, q: nat)
    requires IsLeafPos(p) && IsLeafPos(q) && p < |a| && |a + c| <= p + 126 && OnlyLeaf(disk, disk', a, p)
    requires q != p && q < |a + c| && LeafAt(disk, a, q)
    ensures LeafAt(disk', a + c, q)
  {
    hide IsLeafPos, LeafAt;
    LeavesApart(p, q, |a + c|);
    LeafBlock(disk, a, q);
    LeafStable(disk, disk', a, c, q);
  }

  lemma SameLeaf(disk: Disk, disk': Disk, a: seq<nat>, c: seq<nat>, p: nat)
    requires p < |a| && |a + c| <= p + 126 && |disk'| == |disk| && LeafAt(disk, a, p)
    requires disk'[a[p]].Index? && Extends(disk[a[p]].node.sector, disk'[a[p]].node.sector, |a| - p - 1, c)
    ensures LeafAt(disk', a + c, p)
  {
    var after := disk'[a[p]].node.sector;
    forall k: nat | k < 125 ensures after[k] == Entry(a + c, p + 1 + k) {
      assert disk[a[p]].node.sector[k] == Entry(a, p + 1 + k);
    }
  }

  lemma ExtendTop(a: seq<nat>, c: seq<nat>, p: nat)
    requires IsLeafPos(p) && p < |a| && |a + c| <= p + 126
    ensures TopEntries(a + c) == TopEntries(a)
    ensures forall j: nat | j < 125 :: Entry(a + c, 750 + 126 * j) == Entry(a, 750 + 126 * j)
  {
    forall k: nat | k < 125 ensures Entry(a + c, TopPos(k)) == Entry(a, TopPos(k)) {
    }
  }

  /** Adding data sectors to the last leaf of a file keeps its index in order. */
  lemma LeafIsNoData(disk: Disk, disk': Disk, a: seq<nat>, p: nat)
    requires OnlyLeaf(disk, disk', a, p) && (IsLeafPos(p) || p == OUTER)
    ensures DataKept(disk, disk', a)
  {
    forall i: nat | DataPos(i) < |a| ensures a[DataPos(i)] < |disk| && disk'[a[DataPos(i)]] == disk[a[DataPos(i)]] {
      DataPosIsNoIndex(i);
    }
  }

  lemma ExtendLeaf(disk: Disk, disk': Disk, node: InodeDisk, a: seq<nat>, c: seq<nat>, p: nat, m: nat)
    requires Building(disk, node, a, m) && IsLeafPos(p) && p < |a| && |a + c| <= p + 126
    requires OnlyLeaf(disk, disk', a, p) && AllZero(disk', c)
    requires a[p] < |disk'| && disk[a[p]].Index? && disk'[a[p]].Index?
    requires Extends(disk[a[p]].node.sector, disk'[a[p]].node.sector, |a| - p - 1, c)
    ensures forall node': InodeDisk | node'.sector == node.sector :: Building(disk', node', a + c, m)
    ensures SameBytes(disk, a, disk', a + c)
  {
    hide LeafAt, DataPos, SameBytes, Extends;
    ExtendTop(a, c, p);
    forall j: nat | j < 5 && 119 + 126 * j < |a + c| ensures LeafAt(disk', a + c, 119 + 126 * j) {
      var q := 119 + 126 * j;
      assert q < |a| && LeafAt(disk, a, q);
      if q == p {
        SameLeaf(disk, disk', a, c, p);
      } else {
        OtherLeaf(disk, disk', a, c, p, q);
      }
    }
    if OUTER < |a + c| {
      ExtendOuter(disk, disk', a, c, p);
    }
    LeafIsNoData(disk, disk', a, p);
    DataAppended(disk, disk', a, c, m);
    AppendKeepsBytes(disk, disk', a, c);
  }

  lemma ExtendOuter(disk: Disk, disk': Disk, a: seq<nat>, c: seq<nat>, p: nat)
    requires IsLeafPos(p) && p < |a| && |a + c| <= p + 126 && OUTER < |a + c|
    requires OUTER < |a| ==> OuterAt(disk, a, OUTER)
    requires OnlyLeaf(disk, disk', a, p) && a[p] < |disk'| && disk[a[p]].Index? && disk'[a[p]].Index?
    requires Extends(disk[a[p]].node.sector, disk'[a[p]].node.sector, |a| - p - 1, c)
    ensures OuterAt(disk', a + c, OUTER)
  {
    assert OUTER < |a| && p > OUTER;
    ExtendTop(a, c, p);
    forall j: nat | j < 125 && 750 + 126 * j < |a + c| ensures LeafAt(disk', a + c, 750 + 126 * j) {
      var q := 750 + 126 * j;
      assert q < |a| && LeafAt(disk, a, OUTER + 1 + 126 * j);
      if q == p {
        SameLeaf(disk, disk', a, c, p);
      } else {
        OtherLeaf(disk, disk', a, c, p, q);
      }
    }
    assert (a + c)[OUTER] == a[OUTER];
  }

  lemma LengthsKept(disk: Disk, disk': Disk, a: seq<nat>, c: seq<nat>, l: LeafRef, length: nat, length': nat)
    requires LeafLengths(disk, a, length) && l.Ok() && l.Pos() < |a| && |a + c| <= l.Pos() + 126
    requires l.Start() < length <= length' <= l.Start() + LEAF_BYTES && OnlyLeaf(disk, disk', a, l.Pos())
    requires Records(disk', a, l.Pos(), length' - l.Start())
    ensures LeafLengths(disk', a + c, length')
  {
    forall j: nat | j < 5 && 119 + 126 * j < |a + c|
      ensures Records(disk', a + c, 119 + 126 * j, Min(LEAF_BYTES, length' - DIRECT_BYTES - LEAF_BYTES * j))
    {
      assert Records(disk, a, 119 + 126 * j, Min(LEAF_BYTES, length - DIRECT_BYTES - LEAF_BYTES * j));
    }
    forall j: nat | j < 125 && 750 + 126 * j < |a + c|
      ensures Records(disk', a + c, 750 + 126 * j, Min(LEAF_BYTES, length' - SINGLE_BYTES - LEAF_BYTES * j))
    {
      assert Records(disk, a, 750 + 126 * j, Min(LEAF_BYTES, length - SINGLE_BYTES - LEAF_BYTES * j));
    }
  }

  lemma OuterKept(disk: Disk, disk': Disk, a: seq<nat>, c: seq<nat>, l: LeafRef, length: nat, length': nat)
    requires OuterLength(disk, a, length) && l.Ok() && l.Pos() < |a| && |a + c| <= l.Pos() + 126
    requires l.Start() < length <= length' <= l.Start() + LEAF_BYTES && OnlyLeaf(disk, disk', a, l.Pos())
    ensures OuterLength(disk', a + c, length')
  {
    if OUTER < |a + c| {
      assert OUTER < |a| && (a + c)[OUTER] == a[OUTER];
      assert (length - SINGLE_BYTES + LEAF_BYTES - 1) / LEAF_BYTES == l.j + 1 == (length' - SINGLE_BYTES + LEAF_BYTES - 1) / LEAF_BYTES;
    }
  }

  /** Filling up the last leaf. */
  lemma LeafFilled(disk: Disk, disk': Disk, node: InodeDisk, node': InodeDisk, a: seq<nat>, c: seq<nat>, l: LeafRef)
    requires FileOk(disk, node, a) && l.Ok() && l.Pos() < |a| && a[l.Pos()] < |disk| && disk[a[l.Pos()]].Index?
    requires l.Start() < node.length <= node'.length <= l.Start() + LEAF_BYTES
    requires node'.sector == node.sector && OnlyLeaf(disk, disk', a, l.Pos()) && AllZero(disk', c)
    requires SectorsFor(node'.length - l.Start()) == SectorsFor(node.length - l.Start()) + |c|
    requires Records(disk', a, l.Pos(), node'.length - l.Start())
    requires Extends(disk[a[l.Pos()]].node.sector, disk'[a[l.Pos()]].node.sector, SectorsFor(node.length - l.Start()), c)
    ensures FileOk(disk', node', a + c) && SameBytes(disk, a, disk', a + c)
  {
    LeafEnd(l, node.length);
    LeafEnd(l, node'.length);
    ExtendLeaf(disk, disk', node, a, c, l.Pos(), DATA_MAX);
    LengthsKept(disk, disk', a, c, l, node.length, node'.length);
    OuterKept(disk, disk', a, c, l, node.length, node'.length);
    StillZeroBeyond(disk, disk', a, a + c, node.length, node'.length);
  }

  /** Filling up the last sector of a file without leaves. */
  lemma DirectFilled(disk: Disk, node: InodeDisk, node': InodeDisk, a: seq<nat>)
    requires FileOk(disk, node, a) && node'.sector == node.sector && node.length <= node'.length <= DIRECT_BYTES
    requires SectorsFor(node'.length) == SectorsFor(node.length)
    ensures FileOk(disk, node', a) && SameBytes(disk, a, disk, a)
  {
    assert |a| <= 119;
  }

  /** Adding a sector to a file without leaves. */
  lemma DirectAdded(disk: Disk, disk': Disk, node: InodeDisk, node': InodeDisk, a: seq<nat>, x: nat)
    requires FileOk(disk, node, a) && Untouched(disk, disk', a) && x < |disk'| && disk'[x] == Data(ZeroSector())
    requires node.length < DIRECT_BYTES && node.length % 512 == 0 && node.length < node'.length <= node.length + 512
    requires node'.sector == node.sector[node.length / 512 := x]
    ensures FileOk(disk', node', a + [x]) && SameBytes(disk, a, disk', a + [x])
  {
    AddSector(node.length, node'.length - node.length);
    assert |a| == node.length / 512 < 119;
    AddDirect(disk, disk', node, node', a, DATA_MAX, x);
    assert DataKept(disk, disk', a) && NewDataZero(disk', a, [x]);
    AppendKeepsBytes(disk, disk', a, [x]);
    StillZeroBeyond(disk, disk', a, a + [x], node.length, node'.length);
  }

  lemma NewLeafData(disk: Disk, a: seq<nat>, x: nat, c: seq<nat>)
    requires IsIndexPos(|a|) && AllZero(disk, c)
    ensures NewDataZero(disk, a, [x] + c)
  {
    forall i: nat | |a| <= DataPos(i) < |a + ([x] + c)|
      ensures ([x] + c)[DataPos(i) - |a|] < |disk| && disk[([x] + c)[DataPos(i) - |a|]] == Data(ZeroSector())
    {
      DataPosIsNoIndex(i);
      assert ([x] + c)[DataPos(i) - |a|] == c[DataPos(i) - |a| - 1];
    }
  }

  lemma LeafNodeIs(c: seq<nat>, length: nat)
    ensures LeafNode(c, length).length == length && |LeafNode(c, length).sector| == TOTAL_SECTOR_CNT
  {
  }

  /** Adding a leaf of the inode. */
  lemma SingleAdded(disk: Disk, disk': Disk, node: InodeDisk, node': InodeDisk, a: seq<nat>, x: nat, c: seq<nat>,
                    j: nat, next: nat)
    requires FileOk(disk, node, a) && Untouched(disk, disk', a) && x < |disk'| && j < 5
    requires node.length == DIRECT_BYTES + LEAF_BYTES * j && node'.length == node.length + next && 0 < next <= LEAF_BYTES
    requires |c| == SectorsFor(next) && disk'[x] == Index(LeafNode(c, next)) && AllZero(disk', c)
    requires node'.sector == node.sector[119 + j := x]
    ensures FileOk(disk', node', a + ([x] + c)) && SameBytes(disk, a, disk', a + ([x] + c))
  {
    hide Building, LeafLengths, ZeroBeyond, SameBytes, LeafNode, Held, SectorsFor;
    LeafNodeIs(c, next);
    SingleStart(j);
    SingleEnd(j, node'.length, SectorsFor(next));
    NextLeaf(next);
    AddLeaf(disk, disk', node, node', a, DATA_MAX, 119 + j, x, c, next);
    NewLeafData(disk', a, x, c);
    AppendKeepsBytes(disk, disk', a, [x] + c);
    NewLeafLengths(disk, disk', a, x, c, Single(j), node.length, next);
    StillZeroBeyond(disk, disk', a, a + ([x] + c), node.length, node'.length);
  }

  lemma OwnsMore(bits: seq<bool>, bits': seq<bool>, sector: nat, a: seq<nat>, t: seq<nat>)
    requires Owns(bits, sector, a) && Took(bits, bits', t)
    ensures Owns(bits', sector, a + t)
  {
    assert forall x | x in a + t :: x in a || x in t;
    forall i: nat, j: nat | i < j < |a + t| ensures (a + t)[i] != (a + t)[j] {
      if i < |a| <= j {
        assert a[i] in a && t[j - |a|] in t;
      }
    }
  }

  /** New sectors and nothing else: what Kept says about the sectors of a file. */
  lemma OwnedUntouched(bits: seq<bool>, disk: Disk, disk': Disk, sector: nat, a: seq<nat>)
    requires Owns(bits, sector, a) && Kept(bits, disk, disk', {})
    ensures Untouched(disk, disk', a)
  {
    forall k: nat | k < |a| ensures a[k] < |disk| && disk'[a[k]] == disk[a[k]] {
      assert a[k] in a;
    }
  }

  lemma GrowingByKept(bits: seq<bool>, disk: Disk, bits': seq<bool>, disk': Disk, a: seq<nat>, t: seq<nat>)
    requires Took(bits, bits', t) && Kept(bits, disk, disk', {}) && SameBytes(disk, a, disk', a + t)
    ensures Growing(bits, disk, bits', disk', a, t)
  {
  }

  /** The leaf that holds the end of the file. */
  lemma EndLeaf(disk: Disk, node: InodeDisk, a: seq<nat>, l: LeafRef)
    requires FileOk(disk, node, a) && l.Ok() && l.Start() < node.length <= l.Start() + LEAF_BYTES
    ensures l.Pos() < |a| && Records(disk, a, l.Pos(), node.length - l.Start()) && LeafAt(disk, a, l.Pos())
    ensures l.Single? ==> |node.sector| == TOTAL_SECTOR_CNT && node.sector[119 + l.j] == a[l.Pos()]
  {
    LeafEnd(l, node.length);
    if l.Single? {
      assert Records(disk, a, 119 + 126 * l.j, Min(LEAF_BYTES, node.length - DIRECT_BYTES - LEAF_BYTES * l.j));
      assert LeafAt(disk, a, 119 + 126 * l.j);
    } else {
      assert Records(disk, a, 750 + 126 * l.j, Min(LEAF_BYTES, node.length - SINGLE_BYTES - LEAF_BYTES * l.j));
      assert OuterAt(disk, a, OUTER);
      assert LeafAt(disk, a, OUTER + 1 + 126 * l.j);
    }
  }

  /** Writing the filled leaf back (lines 471 and 557). */
  lemma LeafWritten(bits: seq<bool>, bits': seq<bool>, disk: Disk, disk1: Disk, disk': Disk, node: InodeDisk,
                    node': InodeDisk, sector: nat, a: seq<nat>, c: seq<nat>, l: LeafRef, leaf: InodeDisk)
    requires FileOk(disk, node, a) && Owns(bits, sector, a) && l.Ok()
    requires l.Start() < node.length <= node'.length <= l.Start() + LEAF_BYTES && node'.sector == node.sector
    requires Took(bits, bits', c) && Kept(bits, disk, disk1, {}) && AllZero(disk1, c)
    requires l.Pos() < |a| && a[l.Pos()] < |disk1| && disk' == disk1[a[l.Pos()] := Index(leaf)]
    requires leaf.length == node'.length - l.Start()
    requires SectorsFor(leaf.length) == SectorsFor(node.length - l.Start()) + |c|
    requires disk[a[l.Pos()]].Index?
    requires Extends(disk[a[l.Pos()]].node.sector, leaf.sector, SectorsFor(node.length - l.Start()), c)
    ensures FileOk(disk', node', a + c) && Owns(bits', sector, a + c) && Growing(bits, disk, bits', disk', a, c)
    ensures OnlyLeaf(disk, disk', a, l.Pos())
  {
    hide FileOk, SameBytes, Extends, SectorsFor;
    var p := l.Pos();
    assert a[p] in a;
    forall k: nat | k < |a| && k != p ensures a[k] < |disk| && disk'[a[k]] == disk[a[k]] {
      assert a[k] in a;
    }
    forall k: nat | k < |c| ensures c[k] != a[p] {
      assert c[k] in c;
    }
    LeafFilled(disk, disk', node, node', a, c, l);
    OwnsMore(bits, bits', sector, a, c);
  }

  /** The length recorded in the outer block. */
  function OuterLen(disk: Disk, node: InodeDisk): nat {
    if |node.sector| == TOTAL_SECTOR_CNT then NodeAt(disk, node.sector[124]).length else 0
  }

  /** The outer block of a file that has one, read through the inode. */
  lemma OuterInPlace(disk: Disk, node: InodeDisk, a: seq<nat>)
    requires FileOk(disk, node, a) && node.length > SINGLE_BYTES
    ensures OUTER < |a| && a[OUTER] < |disk| && disk[a[OUTER]].Index? && node.sector[124] == a[OUTER]
    ensures |disk[a[OUTER]].node.sector| == TOTAL_SECTOR_CNT && OuterAt(disk, a, OUTER)
    ensures NodeAt(disk, a[OUTER]) == disk[a[OUTER]].node && disk == Pending(disk, a[OUTER], disk[a[OUTER]].node)
  {
    assert SectorsFor(node.length) > 744;
    assert |a| > 750;
  }

  lemma OuterUntouched(disk: Disk, disk': Disk, node: InodeDisk, node': InodeDisk, a: seq<nat>, l: LeafRef)
    requires FileOk(disk, node, a) && node'.sector == node.sector
    requires l.Ok() && l.Start() < node.length && OnlyLeaf(disk, disk', a, l.Pos())
    ensures l.Inner? ==> OuterLen(disk', node') == OuterLen(disk, node)
  {
    if l.Inner? {
      OuterInPlace(disk, node, a);
    }
  }

  /** A leaf that is appended adds zeros to the data, however many sectors it was given. */
  lemma LeafAppended(disk: Disk, disk': Disk, a: seq<nat>, x: nat, c: seq<nat>)
    requires Untouched(disk, disk', a) && IsIndexPos(|a|) && AllZero(disk', c)
    ensures SameBytes(disk, a, disk', a + ([x] + c))
  {
    NewLeafData(disk', a, x, c);
    AppendKeepsBytes(disk, disk', a, [x] + c);
  }

  /** An outer block with leaves adds zeros to the data, however many sectors it was given. */
  lemma OuterAppended(disk: Disk, disk': Disk, a: seq<nat>, x: nat, c: seq<nat>)
    requires Untouched(disk, disk', a) && |a| == OUTER && LeavesOn(disk', c)
    ensures SameBytes(disk, a, disk', a + ([x] + c))
  {
    forall i: nat | |a| <= DataPos(i) < |a + ([x] + c)|
      ensures ([x] + c)[DataPos(i) - |a|] < |disk'| && disk'[([x] + c)[DataPos(i) - |a|]] == Data(ZeroSector())
    {
      var q := DataPos(i) - 750;
      assert i >= 744 && q % 126 != 0;
      assert ([x] + c)[DataPos(i) - |a|] == c[q];
    }
    AppendKeepsBytes(disk, disk', a, [x] + c);
  }

  /** Adding the outer block with its leaves. */
  lemma OuterAdded(disk: Disk, disk': Disk, node: InodeDisk, node': InodeDisk, a: seq<nat>, x: nat, c: seq<nat>, next: nat)
    requires FileOk(disk, node, a) && Untouched(disk, disk', a) && x < |disk'|
    requires node.length == SINGLE_BYTES && node'.length == node.length + next && 0 < next <= OUTER_BYTES
    requires |c| == LeavesHeld(SectorsFor(next)) && LeavesOn(disk', c) && LeavesRecord(disk', c, next)
    requires disk'[x].Index? && disk'[x].node.sector == OuterNode(c, 0).sector && disk'[x].node.length == next
    requires node'.sector == node.sector[124 := x]
    ensures FileOk(disk', node', a + ([x] + c)) && SameBytes(disk, a, disk', a + ([x] + c))
  {
    OuterHeld(next);
    AddOuter(disk, disk', node, node', a, DATA_MAX, x, c);
    OuterAppended(disk, disk', a, x, c);
    OuterLengths(disk, disk', a, x, c, next);
    StillZeroBeyond(disk, disk', a, a + ([x] + c), node.length, node'.length);
  }

  lemma AddInnerOuter(disk: Disk, disk': Disk, a: seq<nat>, j: nat, x: nat, c: seq<nat>)
    requires OuterAt(disk, a, OUTER) && 0 < j < 125 && |a| == 750 + 126 * j && |c| <= 125
    requires OnlyLeaf(disk, disk', a, OUTER) && disk'[a[OUTER]].Index?
    requires disk'[a[OUTER]].node.sector == disk[a[OUTER]].node.sector[j := x]
    requires LeafAt(disk', a + ([x] + c), |a|)
    ensures OuterAt(disk', a + ([x] + c), OUTER)
  {
    var a' := a + ([x] + c);
    assert a'[OUTER] == a[OUTER];
    forall i: nat | i < 125 ensures disk'[a'[OUTER]].node.sector[i] == Entry(a', 750 + 126 * i) {
      assert disk[a[OUTER]].node.sector[i] == Entry(a, OUTER + 1 + 126 * i);
    }
    forall i: nat | i < 125 && 750 + 126 * i < |a'| ensures LeafAt(disk', a', 750 + 126 * i) {
      if i < j {
        assert LeafAt(disk, a, OUTER + 1 + 126 * i);
        LeafStable(disk, disk', a, [x] + c, 750 + 126 * i);
      }
    }
  }

  /** Appending a leaf to the outer block keeps the index in order. */
  lemma LastLeaf(disk: Disk, a: seq<nat>, x: nat, c: seq<nat>, len: nat)
    requires x < |disk| && disk[x] == Index(LeafNode(c, len)) && |c| <= 125
    ensures LeafAt(disk, a + ([x] + c), |a|)
  {
    var a' := a + ([x] + c);
    assert forall q: nat | q < 125 :: Entry(a', |a| + 1 + q) == Entry(c, q);
  }

  lemma AddInner(disk: Disk, disk': Disk, node: InodeDisk, a: seq<nat>, m: nat, j: nat, x: nat, c: seq<nat>, len: nat)
    requires Building(disk, node, a, m) && 0 < j < 125 && |a| == 750 + 126 * j && |c| <= 125
    requires OnlyLeaf(disk, disk', a, OUTER) && a[OUTER] < |disk| && disk'[a[OUTER]].Index?
    requires disk[a[OUTER]].Index? && |disk[a[OUTER]].node.sector| == TOTAL_SECTOR_CNT
    requires disk'[a[OUTER]].node.sector == disk[a[OUTER]].node.sector[j := x]
    requires x < |disk'| && disk'[x] == Index(LeafNode(c, len)) && AllZero(disk', c)
    ensures forall node': InodeDisk | node'.sector == node.sector :: Building(disk', node', a + ([x] + c), m)
    ensures SameBytes(disk, a, disk', a + ([x] + c))
  {
    hide LeafAt, OuterAt, DataPos, SameBytes, LeafNode;
    var a' := a + ([x] + c);
    assert TopEntries(a') == TopEntries(a);
    forall i: nat | i < 5 ensures LeafAt(disk', a', 119 + 126 * i) {
      assert LeafAt(disk, a, 119 + 126 * i);
      LeafBlock(disk, a, 119 + 126 * i);
      LeafStable(disk, disk', a, [x] + c, 119 + 126 * i);
    }
    LastLeaf(disk', a, x, c, len);
    AddInnerOuter(disk, disk', a, j, x, c);
    NewLeafData(disk', a, x, c);
    LeafIsNoData(disk, disk', a, OUTER);
    DataAppended(disk, disk', a, [x] + c, m);
    AppendKeepsBytes(disk, disk', a, [x] + c);
  }

  /** One more leaf under the outer block, the outer block included. */
  lemma InnerAdded(disk: Disk, disk': Disk, node: InodeDisk, node': InodeDisk, a: seq<nat>, x: nat, c: seq<nat>,
                   j: nat, next: nat)
    requires FileOk(disk, node, a) && 0 < j < 125 && node.length == SINGLE_BYTES + LEAF_BYTES * j
    requires node'.length == node.length + next && 0 < next <= LEAF_BYTES && node'.sector == node.sector
    requires OUTER < |a| && a[OUTER] < |disk| && disk[a[OUTER]].Index? && |disk[a[OUTER]].node.sector| == TOTAL_SECTOR_CNT
    requires OnlyLeaf(disk, disk', a, OUTER) && disk'[a[OUTER]].Index?
    requires disk'[a[OUTER]].node.sector == disk[a[OUTER]].node.sector[j := x]
    requires disk'[a[OUTER]].node.length == LEAF_BYTES * j + next
    requires |c| == SectorsFor(next) && x < |disk'| && disk'[x] == Index(LeafNode(c, next)) && AllZero(disk', c)
    ensures FileOk(disk', node', a + ([x] + c)) && SameBytes(disk, a, disk', a + ([x] + c))
  {
    hide Building, LeafLengths, ZeroBeyond, SameBytes, LeafNode, Held, SectorsFor;
    LeafNodeIs(c, next);
    InnerStart(j);
    InnerEnd(j, node'.length, SectorsFor(next));
    NextLeaf(next);
    AddInner(disk, disk', node, a, DATA_MAX, j, x, c, next);
    assert disk'[(a + ([x] + c))[OUTER]].node.length == node'.length - SINGLE_BYTES;
    NewLeafLengths(disk, disk', a, x, c, Inner(j), node.length, next);
    StillZeroBeyond(disk, disk', a, a + ([x] + c), node.length, node'.length);
  }

  /** The disk as it will be once the copy of an index block is written back. */
  function Pending(disk: Disk, at: nat, copy: InodeDisk): Disk
    requires at < |disk|
  {
    disk[at := Index(copy)]
  }

  /** Another leaf under the copy of the outer block, however many sectors it was given. */
  lemma InnerAppended(b1: seq<bool>, b2: seq<bool>, d1: Disk, d2: Disk, outer1: InodeDisk, outer2: InodeDisk,
                      sector: nat, a: seq<nat>, x: nat, c: seq<nat>)
    requires OUTER < |a| && a[OUTER] < |d1| && IsIndexPos(|a|) && Kept(b1, d1, d2, {}) && Took(b1, b2, [x] + c)
    requires Owns(b1, sector, a) && AllZero(d2, c) && x < |d2|
    ensures var v1, v2 := Pending(d1, a[OUTER], outer1), Pending(d2, a[OUTER], outer2);
            && Growing(b1, v1, b2, v2, a, [x] + c) && Owns(b2, sector, a + ([x] + c))
            && OnlyLeaf(v1, v2, a, OUTER) && AllZero(v2, c) && v2[x] == d2[x]
  {
    var at := a[OUTER];
    var v1, v2 := Pending(d1, at, outer1), Pending(d2, at, outer2);
    assert at in a && x in [x] + c;
    forall k: nat | k < |a| && k != OUTER ensures a[k] < |v1| && v2[a[k]] == v1[a[k]] {
      assert a[k] in a;
    }
    forall k: nat | k < |c| ensures c[k] != at {
      assert ([x] + c)[k + 1] in [x] + c;
    }
    forall i: nat | DataPos(i) < |a| ensures DataPos(i) != OUTER {
      DataPosIsNoIndex(i);
    }
    NewLeafData(v2, a, x, c);
    AppendKeepsBytes(v1, v2, a, [x] + c);
    OwnsMore(b1, b2, sector, a, [x] + c);
  }

  lemma InnerTurn(b1: seq<bool>, b2: seq<bool>, d1: Disk, d2: Disk, outer1: InodeDisk, outer2: InodeDisk,
                  node: InodeDisk, node': InodeDisk, sector: nat, a: seq<nat>, x: nat, c: seq<nat>, j: nat, next: nat)
    requires OUTER < |a| && a[OUTER] < |d1| && Kept(b1, d1, d2, {}) && Took(b1, b2, [x] + c)
    requires FileOk(Pending(d1, a[OUTER], outer1), node, a) && Owns(b1, sector, a) && IsIndexPos(|a|)
    requires 0 < j < 125 && node.length == SINGLE_BYTES + LEAF_BYTES * j && |outer1.sector| == TOTAL_SECTOR_CNT
    requires node'.length == node.length + next && 0 < next <= LEAF_BYTES && node'.sector == node.sector
    requires outer2.sector == outer1.sector[j := x] && outer2.length == LEAF_BYTES * j + next
    requires |c| == SectorsFor(next) && x < |d2| && d2[x] == Index(LeafNode(c, next)) && AllZero(d2, c)
    ensures FileOk(Pending(d2, a[OUTER], outer2), node', a + ([x] + c))
  {
    InnerAppended(b1, b2, d1, d2, outer1, outer2, sector, a, x, c);
    InnerAdded(Pending(d1, a[OUTER], outer1), Pending(d2, a[OUTER], outer2), node, node', a, x, c, j, next);
  }

  /** The file grew from a0 to a, the outer block being a copy that is not written back yet. */
  ghost predicate InnerGrown(b0: seq<bool>, v0: Disk, a0: seq<nat>, node0: InodeDisk, left0: nat,
                             bits: seq<bool>, v: Disk, a: seq<nat>, node: InodeDisk, left: nat, sector: nat, t: seq<nat>) {
    && Owns(bits, sector, a) && a == a0 + t && Growing(b0, v0, bits, v, a0, t)
    && left <= left0 && node == node0.(length := node0.length + left0 - left)
  }

  lemma InnerGrownMore(b0: seq<bool>, v0: Disk, a0: seq<nat>, node0: InodeDisk, left0: nat,
                       b1: seq<bool>, v1: Disk, a1: seq<nat>, node1: InodeDisk, left1: nat,
                       b2: seq<bool>, v2: Disk, a2: seq<nat>, node2: InodeDisk, left2: nat,
                       sector: nat, t: seq<nat>, u: seq<nat>)
    requires InnerGrown(b0, v0, a0, node0, left0, b1, v1, a1, node1, left1, sector, t)
    requires InnerGrown(b1, v1, a1, node1, left1, b2, v2, a2, node2, left2, sector, u)
    ensures InnerGrown(b0, v0, a0, node0, left0, b2, v2, a2, node2, left2, sector, t + u)
  {
    GrowingMore(b0, v0, b1, v1, b2, v2, a0, t, u);
    Assoc(a0, t, u);
  }

  /** Running out of sectors part way through the leaves of the outer block, whose copy is lost. */
  lemma InnerHalts(b0: seq<bool>, v0: Disk, a0: seq<nat>, b1: seq<bool>, d1: Disk, outer1: InodeDisk,
                   b2: seq<bool>, d2: Disk, at: nat, t: seq<nat>, u: seq<nat>, need: int)
    requires OUTER < |a0| && at == a0[OUTER] && at < |d1|
    requires Growing(b0, v0, b1, Pending(d1, at, outer1), a0, t)
    requires Contained(b1, d1, b2, d2, a0 + t, u) && Scarce(b1, need)
    ensures Contained(b0, v0, b2, d2, a0, t + u) && Scarce(b0, |t| + need)
  {
    assert at in a0;
    assert Contained(b0, v0, b1, d1, a0, t);
    ContainedMore(b0, v0, b1, d1, b2, d2, a0, t, u);
    ScarceAfter(b0, b1, t, need);
  }

  /** A new leaf is entered in the copy of the outer block; with all its sectors, the file is whole. */
  lemma LeafEntered(b1: seq<bool>, b2: seq<bool>, d1: Disk, d2: Disk, outer1: InodeDisk, outer2: InodeDisk, node: InodeDisk,
                    node': InodeDisk, sector: nat, a: seq<nat>, x: nat, c: seq<nat>, j: nat, left0: nat, left: nat)
    requires OUTER < |a| && a[OUTER] < |d1| && Kept(b1, d1, d2, {}) && Took(b1, b2, [x] + c)
    requires FileOk(Pending(d1, a[OUTER], outer1), node, a) && Owns(b1, sector, a) && |a| == 750 + 126 * j
    requires 0 < j < 125 && node.length == SINGLE_BYTES + LEAF_BYTES * j && |outer1.sector| == TOTAL_SECTOR_CNT
    requires left < left0 <= left + LEAF_BYTES && node' == node.(length := node.length + left0 - left)
    requires outer2.sector == outer1.sector[j := x] && outer2.length == LEAF_BYTES * j + left0 - left
    requires x < |d2| && d2[x] == Index(LeafNode(c, Min(left0 - left, 512 * |c|))) && AllZero(d2, c)
    ensures InnerGrown(b1, Pending(d1, a[OUTER], outer1), a, node, left0, b2, Pending(d2, a[OUTER], outer2), a + ([x] + c), node', left,
                       sector, [x] + c)
    ensures |c| == SectorsFor(left0 - left) ==> FileOk(Pending(d2, a[OUTER], outer2), node', a + ([x] + c))
  {
    InnerAppended(b1, b2, d1, d2, outer1, outer2, sector, a, x, c);
    if |c| == SectorsFor(left0 - left) {
      NextLeaf(left0 - left);
      InnerTurn(b1, b2, d1, d2, outer1, outer2, node, node', sector, a, x, c, j, left0 - left);
    }
  }

  lemma InnerStarts(b0: seq<bool>, v0: Disk, a0: seq<nat>, node0: InodeDisk, left0: nat, sector: nat, cur0: nat)
    requires |b0| == |v0| && Owns(b0, sector, a0) && cur0 <= FILESYS_LIMIT_SECTORS
    ensures InnerGrown(b0, v0, a0, node0, left0, b0, v0, a0, node0, left0, sector, [])
    ensures Turned(left0, left0, 0) && InnerCount(Progress, 0, left0, left0, cur0, cur0, |a0|, Held(SectorsFor(node0.length)))
  {
    assert a0 + [] == a0;
  }

  /** inode_grow of the file hangs on its way to goal bytes. */
  predicate WillStick(disk: Disk, node: InodeDisk, goal: nat) {
    Sticks(node.length, OuterLen(disk, node), goal)
  }

  /** How inode_grow of the file to goal bytes goes on from a count of cur sectors, if the device does not run out of them. */
  function Forecast(disk: Disk, node: InodeDisk, cur: nat, goal: nat): Growth {
    Foretell(cur, node.length, OuterLen(disk, node), goal)
  }

  /** The same, from the count that length_to_total_sectors starts with. */
  function Fate(disk: Disk, node: InodeDisk, goal: nat): Growth {
    Forecast(disk, node, Counted(SectorsFor(node.length)), goal)
  }

  /** The sectors that this takes, to where it ends. */
  function Takings(disk: Disk, node: InodeDisk, cur: nat, goal: nat): int {
    Takes(cur, node.length, OuterLen(disk, node), goal)
  }

  /** The same, from the count that length_to_total_sectors starts with. */
  function Toll(disk: Disk, node: InodeDisk, goal: nat): int {
    Takings(disk, node, Counted(SectorsFor(node.length)), goal)
  }

  /** The leaf of the outer block that its recorded length points to. */
  lemma OuterLeaf(disk: Disk, node: InodeDisk, a: seq<nat>, j: nat)
    requires FileOk(disk, node, a) && node.length > SINGLE_BYTES && OUTER < |a| && OuterAt(disk, a, OUTER) && a[OUTER] < |disk|
    requires j < 125 && SINGLE_BYTES + LEAF_BYTES * j < node.length <= SINGLE_BYTES + LEAF_BYTES * j + LEAF_BYTES
    ensures 750 + 126 * j < |a| && disk[a[OUTER]].Index? && disk[a[OUTER]].node.sector[j] == a[750 + 126 * j]
  {
    LeafEnd(Inner(j), node.length);
    assert disk[a[OUTER]].node.sector[j] == Entry(a, OUTER + 1 + 126 * j);
  }

  /** The recorded length of the outer block tells how far the file reaches. */
  lemma OuterTells(disk: Disk, node: InodeDisk, a: seq<nat>)
    requires FileOk(disk, node, a) && node.length > SINGLE_BYTES
    ensures var ol, j := OuterLen(disk, node), OuterLen(disk, node) / LEAF_BYTES;
            if ol % LEAF_BYTES == 0 then ol == node.length - SINGLE_BYTES && node.length % LEAF_BYTES == DIRECT_BYTES
            else j < 125 && SINGLE_BYTES + LEAF_BYTES * j < node.length <= SINGLE_BYTES + LEAF_BYTES * j + LEAF_BYTES
                 && 750 + 126 * j < |a| && NodeAt(disk, node.sector[124]).sector[j] == a[750 + 126 * j]
    ensures !WillStick(disk, node, node.length)
    ensures OuterLen(disk, node) % LEAF_BYTES != 0 ==> node.length <= StuckAt(OuterLen(disk, node))
  {
    OuterInPlace(disk, node, a);
    Lagging(OuterLen(disk, node), node.length - SINGLE_BYTES);
    if OuterLen(disk, node) % LEAF_BYTES != 0 {
      OuterLeaf(disk, node, a, OuterLen(disk, node) / LEAF_BYTES);
    }
  }

  /** A step that reaches the goal leaves nothing to stick on. */
  lemma StickOver(disk: Disk, node: InodeDisk, a: seq<nat>, goal: nat)
    requires FileOk(disk, node, a) && node.length == goal
    ensures !WillStick(disk, node, goal)
  {
    if node.length > SINGLE_BYTES {
      OuterTells(disk, node, a);
    }
  }

  /** The sectors t were taken, and nothing in use was changed but the inode at sector and the sectors a filed under it. */
  ghost predicate Touches(bits: seq<bool>, disk: Disk, bits': seq<bool>, disk': Disk, sector: nat, a: seq<nat>, t: seq<nat>) {
    && Took(bits, bits', t) && |bits| == |disk| == |disk'|
    && forall x: nat | x < |disk| && bits[x] && x !in a && x != sector :: disk'[x] == disk[x]
  }

  /** What inode_grow leaves alone: the bytes of the file, and every sector that is not its own. */
  ghost predicate Grew(bits: seq<bool>, disk: Disk, bits': seq<bool>, disk': Disk, sector: nat, a: seq<nat>, t: seq<nat>) {
    Touches(bits, disk, bits', disk', sector, a, t) && SameBytes(disk, a, disk', a + t)
  }

  /** Writing the inode back touches no sector of the file. */
  lemma SaveGrowth(bits: seq<bool>, disk: Disk, bits': seq<bool>, disk1: Disk, sector: nat, node: InodeDisk, a: seq<nat>, t: seq<nat>)
    requires Growing(bits, disk, bits', disk1, a, t) && Owns(bits', sector, a + t)
    ensures var disk' := disk1[sector := Index(node)];
            Untouched(disk1, disk', a + t) && Grew(bits, disk, bits', disk', sector, a, t)
  {
    var disk', a' := disk1[sector := Index(node)], a + t;
    forall k: nat | k < |a'| ensures a'[k] < |disk1| && disk'[a'[k]] == disk1[a'[k]] {
      assert a'[k] in a';
    }
    forall q: nat ensures ByteAt(disk', a', q) == ByteAt(disk1, a', q) {
    }
  }

  lemma SaveInode(disk1: Disk, disk': Disk, node: InodeDisk, a: seq<nat>)
    requires FileOk(disk1, node, a) && Untouched(disk1, disk', a)
    ensures FileOk(disk', node, a)
  {
    BuildingKept(disk1, disk', node, a, DATA_MAX);
    forall q: nat ensures ByteAt(disk', a, q) == ByteAt(disk1, a, q) {
    }
    StillZeroBeyond(disk1, disk', a, a, node.length, node.length);
    LengthsUntouched(disk1, disk', a, node.length);
  }
}
