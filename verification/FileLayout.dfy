/**
 * How filesys/inode.c lays a file out on disk.  A file is described by the sequence of
 * sectors it was given, in the order in which they were allocated; the index blocks of
 * the three-level index sit at fixed places of that sequence.
 */
module FileLayout {
  import opened Storage

  /** Entries of an index block. */
  const TOTAL_SECTOR_CNT := 125
  const DIRECT_SECTOR_CNT := 119
  const INDIRECT_SECTOR_CNT := 5
  const FILESYS_LIMIT_SECTORS := 16384

  /** Place of the outer doubly indirect block, and of its first leaf. */
  const OUTER := 749
  const INNER := 750
  /** Data sectors reached without and with the doubly indirect block. */
  const SINGLE_MAX := 744
  const DATA_MAX := 16369

  /** Bytes of the sectors listed in the inode, of a full leaf, of those with the five leaves of the inode, of a full outer block, of all. */
  const DIRECT_BYTES := 60928
  const LEAF_BYTES := 64000
  const SINGLE_BYTES := 380928
  const OUTER_BYTES := 8000000
  const FILE_BYTES := 8380928

  /** struct inode_disk, without its constant magic number. */
  datatype InodeDisk = InodeDisk(sector: seq<nat>, length: nat, parent: nat)

  /** A sector holds either file data or an inode or index block. */
  datatype Block = Data(bytes: Sector) | Index(node: InodeDisk)

  type Disk = seq<Block>

  /** bytes_to_sectors. */
  function SectorsFor(bytes: nat): nat {
    (bytes + 511) / 512
  }

  function Min(a: int, b: int): int {
    if a < b then a else b
  }

  // ---- places in the allocation order

  /** Place of data sector i. */
  function DataPos(i: nat): nat {
    if i < DIRECT_SECTOR_CNT then i
    else if i < SINGLE_MAX then DIRECT_SECTOR_CNT + (i - 119) / 125 * 126 + 1 + (i - 119) % 125
    else INNER + (i - 744) / 125 * 126 + 1 + (i - 744) % 125
  }

  /** Sectors held by a file of n data sectors, not counting its inode. */
  function Held(n: nat): nat {
    if n <= DIRECT_SECTOR_CNT then n
    else if n <= SINGLE_MAX then n + (n - 119 + 124) / 125
    else n + 6 + (n - 744 + 124) / 125
  }

  /** Sectors held by m data sectors filed under consecutive leaves. */
  function LeavesHeld(m: nat): nat {
    m + (m + 124) / 125
  }

  lemma DataPosBound(i: nat, n: nat)
    ensures DataPos(i) < Held(n) <==> i < n
  {
  }

  lemma DataPosInjective(i: nat, j: nat)
    requires DataPos(i) == DataPos(j)
    ensures i == j
  {
  }

  /** Places of index blocks. */
  predicate IsIndexPos(p: nat) {
    || (DIRECT_SECTOR_CNT <= p < OUTER && (p - 119) % 126 == 0)
    || p == OUTER
    || (p >= INNER && (p - 750) % 126 == 0)
  }

  lemma DataPosIsNoIndex(i: nat)
    ensures !IsIndexPos(DataPos(i))
  {
  }

  // ---- the index blocks

  /** The sector at place p; index entries never filled in are zero. */
  function Entry(a: seq<nat>, p: nat): nat {
    if p < |a| then a[p] else 0
  }

  /** The sector at place p is an index block that lists the (up to) 125 sectors after it. */
  predicate LeafAt(disk: Disk, a: seq<nat>, p: nat) {
    && p < |a| && a[p] < |disk| && disk[a[p]].Index? && |disk[a[p]].node.sector| == TOTAL_SECTOR_CNT
    && forall k: nat | k < TOTAL_SECTOR_CNT :: disk[a[p]].node.sector[k] == Entry(a, p + 1 + k)
  }

  /** The sector at place p is an index block that lists the leaves after it. */
  predicate OuterAt(disk: Disk, a: seq<nat>, p: nat) {
    && p < |a| && a[p] < |disk| && disk[a[p]].Index? && |disk[a[p]].node.sector| == TOTAL_SECTOR_CNT
    && (forall j: nat | j < TOTAL_SECTOR_CNT :: disk[a[p]].node.sector[j] == Entry(a, p + 1 + 126 * j))
    && (forall j: nat | j < TOTAL_SECTOR_CNT && p + 1 + 126 * j < |a| :: LeafAt(disk, a, p + 1 + 126 * j))
  }

  /** The inode node files the sectors a, which hold as many data sectors as a has room for. */
  predicate Layout(disk: Disk, node: InodeDisk, a: seq<nat>) {
    && |node.sector| == TOTAL_SECTOR_CNT
    && (forall p: nat | p < DIRECT_SECTOR_CNT :: node.sector[p] == Entry(a, p))
    && (forall j: nat | j < INDIRECT_SECTOR_CNT :: node.sector[119 + j] == Entry(a, 119 + 126 * j))
    && (forall j: nat | j < INDIRECT_SECTOR_CNT && 119 + 126 * j < |a| :: LeafAt(disk, a, 119 + 126 * j))
    && node.sector[124] == Entry(a, OUTER)
    && (OUTER < |a| ==> OuterAt(disk, a, OUTER))
  }

  /** The index block in sector s, blank if there is none. */
  function NodeAt(disk: Disk, s: nat): (node: InodeDisk)
    ensures |node.sector| == TOTAL_SECTOR_CNT
  {
    if s < |disk| && disk[s].Index? && |disk[s].node.sector| == TOTAL_SECTOR_CNT then disk[s].node
    else InodeDisk(seq(TOTAL_SECTOR_CNT, _ => 0), 0, 0)
  }

  /** The sectors byte_to_sector goes through to reach data sector i, which comes last. */
  function Path(disk: Disk, node: InodeDisk, i: nat): (path: seq<nat>)
    requires |node.sector| == TOTAL_SECTOR_CNT && i < DATA_MAX
    ensures path != []
  {
    if i < DIRECT_SECTOR_CNT then
      [node.sector[i]]
    else if i < SINGLE_MAX then
      var leaf := node.sector[119 + (i - 119) / 125];
      [leaf, NodeAt(disk, leaf).sector[(i - 119) % 125]]
    else
      var outer := node.sector[124];
      var leaf := NodeAt(disk, outer).sector[(i - 744) / 125];
      [outer, leaf, NodeAt(disk, leaf).sector[(i - 744) % 125]]
  }

  function Last(path: seq<nat>): nat
    requires path != []
  {
    path[|path| - 1]
  }

  /** Within the sectors it holds, a file's index leads to the sector at the right place. */
  lemma PathWithin(disk: Disk, node: InodeDisk, a: seq<nat>, i: nat)
    requires Layout(disk, node, a) && i < DATA_MAX && DataPos(i) < |a|
    ensures Last(Path(disk, node, i)) == a[DataPos(i)]
    ensures forall s | s in Path(disk, node, i) :: s in a
  {
    if i >= SINGLE_MAX {
      var j := (i - 744) / 125;
      assert OuterAt(disk, a, OUTER) && LeafAt(disk, a, OUTER + 1 + 126 * j);
    } else if i >= DIRECT_SECTOR_CNT {
      var j := (i - 119) / 125;
      assert LeafAt(disk, a, 119 + 126 * j);
    }
  }

  /** Beyond them, the index leads outside the file. */
  lemma PathBeyond(disk: Disk, node: InodeDisk, a: seq<nat>, i: nat)
    requires Layout(disk, node, a) && i < DATA_MAX && DataPos(i) >= |a| && 0 !in a
    ensures exists s | s in Path(disk, node, i) :: s !in a
  {
    assert 0 in Path(disk, node, i) by {
      if i >= SINGLE_MAX {
        var j := (i - 744) / 125;
        if OUTER < |a| {
          assert OuterAt(disk, a, OUTER);
          if OUTER + 1 + 126 * j < |a| {
            assert LeafAt(disk, a, OUTER + 1 + 126 * j);
            assert Path(disk, node, i)[2] == 0;
          } else {
            assert Path(disk, node, i)[1] == 0;
          }
        } else {
          assert Path(disk, node, i)[0] == 0;
        }
      } else if i >= DIRECT_SECTOR_CNT {
        var j := (i - 119) / 125;
        if 119 + 126 * j < |a| {
          assert LeafAt(disk, a, 119 + 126 * j);
          assert Path(disk, node, i)[1] == 0;
        } else {
          assert Path(disk, node, i)[0] == 0;
        }
      } else {
        assert Path(disk, node, i)[0] == 0;
      }
    }
  }
}
