/** What a well-formed file on disk is: its bytes, its index and the lengths it records. */
module FileShape {
  import opened Sequences
  import opened Storage
  import opened FileLayout
  import opened Inodes

  /** Byte q of the file that holds the sectors a; zero where it holds no sector. */
  function ByteAt(disk: Disk, a: seq<nat>, q: nat): byte {
    var p := DataPos(q / 512);
    if p < |a| && a[p] < |disk| && disk[a[p]].Data? then disk[a[p]].bytes[q % 512] else 0
  }

  function Bytes(disk: Disk, a: seq<nat>, length: nat): (r: seq<byte>)
    ensures |r| == length
  {
    seq(length, q requires 0 <= q => ByteAt(disk, a, q))
  }

  /** Nothing but zeros beyond the end of the file. */
  ghost predicate ZeroBeyond(disk: Disk, a: seq<nat>, length: nat) {
    forall q: nat | q >= length :: ByteAt(disk, a, q) == 0
  }

  ghost predicate SameBytes(disk: Disk, a: seq<nat>, disk': Disk, a': seq<nat>) {
    forall q: nat :: ByteAt(disk', a', q) == ByteAt(disk, a, q)
  }

  lemma StillZeroBeyond(disk: Disk, disk': Disk, a: seq<nat>, a': seq<nat>, length: nat, length': nat)
    requires ZeroBeyond(disk, a, length) && SameBytes(disk, a, disk', a') && length <= length'
    ensures ZeroBeyond(disk', a', length')
  {
  }

  /** The index block at place p records length bytes. */
  predicate Records(disk: Disk, a: seq<nat>, p: nat, length: int) {
    p < |a| && a[p] < |disk| && disk[a[p]].Index? && disk[a[p]].node.length == length
  }

  /** Leaves record how many bytes are filed under them. */
  ghost predicate LeafLengths(disk: Disk, a: seq<nat>, length: nat) {
    && (forall j: nat | j < 5 && 119 + 126 * j < |a| :: Records(disk, a, 119 + 126 * j, Min(LEAF_BYTES, length - DIRECT_BYTES - LEAF_BYTES * j)))
    && (forall j: nat | j < 125 && 750 + 126 * j < |a| :: Records(disk, a, 750 + 126 * j, Min(LEAF_BYTES, length - SINGLE_BYTES - LEAF_BYTES * j)))
  }

  /** The outer block may lag behind, but within its last leaf only. */
  predicate OuterLength(disk: Disk, a: seq<nat>, length: nat) {
    OUTER < |a| ==>
      && a[OUTER] < |disk| && disk[a[OUTER]].Index? && length > SINGLE_BYTES
      && 0 < disk[a[OUTER]].node.length <= length - SINGLE_BYTES
      && (disk[a[OUTER]].node.length + LEAF_BYTES - 1) / LEAF_BYTES == (length - SINGLE_BYTES + LEAF_BYTES - 1) / LEAF_BYTES
  }

  /** A well-formed file, apart from where its inode is stored. */
  ghost predicate FileOk(disk: Disk, node: InodeDisk, a: seq<nat>) {
    && Building(disk, node, a, DATA_MAX) && node.length <= FILE_BYTES
    && |a| == Held(SectorsFor(node.length))
    && LeafLengths(disk, a, node.length) && OuterLength(disk, a, node.length)
    && ZeroBeyond(disk, a, node.length)
  }

  /** The sectors of a file are its own, and in use. */
  ghost predicate Owns(bits: seq<bool>, sector: nat, a: seq<nat>) {
    && NoDup(a) && sector !in a && sector < |bits| && bits[sector]
    && forall x | x in a :: x < |bits| && bits[x]
  }

  /** p is the place of leaf j of the inode, or of leaf j of the outer block. */
  predicate IsLeafPos(p: nat) {
    || (DIRECT_SECTOR_CNT <= p < OUTER && (p - 119) % 126 == 0)
    || (INNER <= p < 16500 && (p - 750) % 126 == 0)
  }

  /** Leaf j of the inode, or of the outer block: its place and the first byte filed under it. */
  datatype LeafRef = Single(j: nat) | Inner(j: nat) {
    predicate Ok() {
      j < if Single? then 5 else 125
    }

    function Pos(): (p: nat)
      ensures Ok() ==> IsLeafPos(p)
    {
      if Single? then 119 + 126 * j else 750 + 126 * j
    }

    function Start(): nat {
      if Single? then DIRECT_BYTES + LEAF_BYTES * j else SINGLE_BYTES + LEAF_BYTES * j
    }
  }

  lemma SingleEnd(j: nat, length: nat, n: nat)
    requires j < 5 && DIRECT_BYTES + LEAF_BYTES * j < length <= DIRECT_BYTES + LEAF_BYTES * j + LEAF_BYTES
    requires n == SectorsFor(length - DIRECT_BYTES - LEAF_BYTES * j)
    ensures Held(SectorsFor(length)) == 119 + 126 * j + 1 + n
  {
    assert SectorsFor(length) == 119 + 125 * j + n && 1 <= n <= 125;
  }

  lemma InnerEnd(j: nat, length: nat, n: nat)
    requires j < 125 && SINGLE_BYTES + LEAF_BYTES * j < length <= SINGLE_BYTES + LEAF_BYTES * j + LEAF_BYTES
    requires n == SectorsFor(length - SINGLE_BYTES - LEAF_BYTES * j)
    ensures Held(SectorsFor(length)) == 750 + 126 * j + 1 + n
  {
    assert SectorsFor(length) == 744 + 125 * j + n && 1 <= n <= 125;
  }

  /** A file whose end lies in a leaf holds the sectors up to the end of that leaf's data. */
  lemma LeafEnd(l: LeafRef, length: nat)
    requires l.Ok() && l.Start() < length <= l.Start() + LEAF_BYTES
    ensures Held(SectorsFor(length)) == l.Pos() + 1 + SectorsFor(length - l.Start())
  {
    if l.Single? {
      SingleEnd(l.j, length, SectorsFor(length - l.Start()));
    } else {
      InnerEnd(l.j, length, SectorsFor(length - l.Start()));
    }
  }

  lemma SingleStart(j: nat)
    requires j < 5
    ensures Held(SectorsFor(DIRECT_BYTES + LEAF_BYTES * j)) == 119 + 126 * j
  {
    assert SectorsFor(DIRECT_BYTES + LEAF_BYTES * j) == 119 + 125 * j;
  }

  lemma InnerStart(j: nat)
    requires 0 < j <= 125
    ensures Held(SectorsFor(SINGLE_BYTES + LEAF_BYTES * j)) == 750 + 126 * j
  {
    assert SectorsFor(SINGLE_BYTES + LEAF_BYTES * j) == 744 + 125 * j;
  }

  lemma NewLeafLengths(disk: Disk, disk': Disk, a: seq<nat>, x: nat, c: seq<nat>, l: LeafRef, length: nat, next: nat)
    requires LeafLengths(disk, a, length) && l.Ok() && |a| == l.Pos() && |c| <= 125
    requires length == l.Start() && 0 < next <= LEAF_BYTES
    requires forall k: nat | k < |a| && IsLeafPos(k) :: a[k] < |disk| && |disk'| == |disk| && disk'[a[k]] == disk[a[k]]
    requires x < |disk'| && disk'[x].Index? && disk'[x].node.length == next
    ensures LeafLengths(disk', a + ([x] + c), length + next)
  {
    var a' := a + ([x] + c);
    forall j: nat | j < 5 && 119 + 126 * j < |a'|
      ensures Records(disk', a', 119 + 126 * j, Min(LEAF_BYTES, length + next - DIRECT_BYTES - LEAF_BYTES * j))
    {
      if 119 + 126 * j < |a| {
        assert Records(disk, a, 119 + 126 * j, Min(LEAF_BYTES, length - DIRECT_BYTES - LEAF_BYTES * j));
      }
    }
    forall j: nat | j < 125 && 750 + 126 * j < |a'|
      ensures Records(disk', a', 750 + 126 * j, Min(LEAF_BYTES, length + next - SINGLE_BYTES - LEAF_BYTES * j))
    {
      if 750 + 126 * j < |a| {
        assert Records(disk, a, 750 + 126 * j, Min(LEAF_BYTES, length - SINGLE_BYTES - LEAF_BYTES * j));
      }
    }
  }

  lemma OuterLengths(disk: Disk, disk': Disk, a: seq<nat>, x: nat, c: seq<nat>, next: nat)
    requires LeafLengths(disk, a, SINGLE_BYTES) && |a| == OUTER && Untouched(disk, disk', a)
    requires 0 < next <= OUTER_BYTES && LeavesRecord(disk', c, next)
    ensures LeafLengths(disk', a + ([x] + c), SINGLE_BYTES + next)
  {
    var a' := a + ([x] + c);
    forall j: nat | j < 5 && 119 + 126 * j < |a'|
      ensures Records(disk', a', 119 + 126 * j, Min(LEAF_BYTES, SINGLE_BYTES + next - DIRECT_BYTES - LEAF_BYTES * j))
    {
      assert Records(disk, a, 119 + 126 * j, Min(LEAF_BYTES, SINGLE_BYTES - DIRECT_BYTES - LEAF_BYTES * j));
    }
    forall j: nat | j < 125 && 750 + 126 * j < |a'|
      ensures Records(disk', a', 750 + 126 * j, Min(LEAF_BYTES, next - LEAF_BYTES * j))
    {
      assert a'[750 + 126 * j] == c[126 * j];
    }
  }

  lemma LengthsUntouched(disk: Disk, disk': Disk, a: seq<nat>, length: nat)
    requires LeafLengths(disk, a, length) && OuterLength(disk, a, length) && Untouched(disk, disk', a)
    ensures LeafLengths(disk', a, length) && OuterLength(disk', a, length)
  {
    forall j: nat | j < 5 && 119 + 126 * j < |a| ensures Records(disk', a, 119 + 126 * j, Min(LEAF_BYTES, length - DIRECT_BYTES - LEAF_BYTES * j)) {
      assert Records(disk, a, 119 + 126 * j, Min(LEAF_BYTES, length - DIRECT_BYTES - LEAF_BYTES * j));
    }
    forall j: nat | j < 125 && 750 + 126 * j < |a| ensures Records(disk', a, 750 + 126 * j, Min(LEAF_BYTES, length - SINGLE_BYTES - LEAF_BYTES * j)) {
      assert Records(disk, a, 750 + 126 * j, Min(LEAF_BYTES, length - SINGLE_BYTES - LEAF_BYTES * j));
    }
  }
}
