/** How inode_grow counts sectors against the size limit (filesys/inode.c:44-94 and 385-619), and what that foretells. */
module GrowthCount {
  import opened FileLayout
  import opened Inodes
  import opened FileShape

  /** A turn of the loop of inode_grow.  CutOff: the size limit left a new index block with too few sectors. */
  datatype GrowResult = Progress | CutOff | NoSpace | Stuck

  /** Short: the size limit stopped the growth.  Cut: the length counts sectors that the file was not given. */
  datatype Growth = Grown | Short | Cut | OutOfSpace | Hangs

  lemma FillSector(length: nat, next: nat)
    requires length % 512 != 0 && next <= 512 - length % 512
    ensures SectorsFor(length + next) == SectorsFor(length)
  {
  }

  lemma AddSector(length: nat, next: nat)
    requires length % 512 == 0 && 0 < next <= 512
    ensures SectorsFor(length) == length / 512 && SectorsFor(length + next) == length / 512 + 1
    ensures length < LEAF_BYTES ==> length / 512 < 125
  {
  }

  /** Sectors that growth from length to goal bytes has to allocate. */
  function Need(length: nat, goal: nat): int {
    Held(SectorsFor(goal)) - Held(SectorsFor(length))
  }

  lemma NeedGrows(length: nat, mid: nat, goal: nat)
    requires mid <= goal
    ensures Need(length, mid) <= Need(length, goal)
  {
    SectorsGrow(mid, goal);
    HeldMore(SectorsFor(mid), SectorsFor(goal));
  }

  lemma HeldMore(m: nat, n: nat)
    requires m <= n
    ensures Held(n) - Held(m) >= n - m
  {
  }

  /** One more sector is needed at the end of a sector. */
  lemma SectorNeed(length: nat, goal: nat)
    requires length < goal && length % 512 == 0
    ensures 1 <= Need(length, goal)
  {
    assert SectorsFor(length) + 1 <= SectorsFor(goal);
    HeldMore(SectorsFor(length), SectorsFor(goal));
  }

  /** What filling a leaf that holds m bytes asks for: the sectors for left more bytes, as far as the leaf and the size limit go. */
  function LeafWant(m: nat, left: nat, cur: nat): int {
    Min(SectorsFor(Min(m + left, LEAF_BYTES)) - SectorsFor(m), Room(cur))
  }

  /** A new leaf and its data are needed by the file. */
  lemma NewLeafNeed(l: LeafRef, next: nat, left: nat)
    requires l.Ok() && (l.Inner? ==> l.j > 0) && 0 < next <= LEAF_BYTES && next <= left
    ensures 1 + SectorsFor(next) <= Need(l.Start(), l.Start() + left)
  {
    var start := l.Start();
    LeafEnd(l, start + next);
    assert Held(SectorsFor(start)) == l.Pos() by {
      if l.Single? {
        SingleStart(l.j);
      } else {
        InnerStart(l.j);
      }
    }
    NeedGrows(start, start + next, start + left);
  }

  lemma SingleNeed(j: nat, left: nat, length: nat, goal: nat)
    requires j < 5 && 0 < left && length == DIRECT_BYTES + LEAF_BYTES * j && goal == length + left
    ensures 1 + SectorsFor(Min(left, LEAF_BYTES)) <= Need(length, goal) && Held(SectorsFor(length)) == 119 + 126 * j
  {
    NewLeafNeed(Single(j), Min(left, LEAF_BYTES), left);
    SingleStart(j);
  }

  lemma InnerNeed(j: nat, left: nat, length: nat, goal: nat)
    requires 0 < j < 125 && 0 < left && length == SINGLE_BYTES + LEAF_BYTES * j && goal == length + left
    ensures 1 + SectorsFor(Min(left, LEAF_BYTES)) <= Need(length, goal)
  {
    NewLeafNeed(Inner(j), Min(left, LEAF_BYTES), left);
  }

  /** The outer block and its leaves are needed by the file. */
  lemma OuterNeed(next: nat, left: nat)
    requires 0 < next <= OUTER_BYTES && next <= left
    ensures 1 + LeavesHeld(SectorsFor(next)) <= Need(SINGLE_BYTES, SINGLE_BYTES + left)
  {
    OuterHeld(next);
    NeedGrows(SINGLE_BYTES, SINGLE_BYTES + next, SINGLE_BYTES + left);
  }

  /** The length ends with a sector. */
  predicate Aligned(length: nat) {
    512 * SectorsFor(length) == length
  }

  /** Sectors that inode_grow counts for n data sectors: it counts each index block twice. */
  function Weight(n: nat): int {
    2 * Held(n) - n
  }

  lemma HeldGrows(m: nat, n: nat)
    requires m <= n
    ensures Weight(m) <= Weight(n)
  {
  }

  /** What growth from length to goal bytes adds to that count; the leaves that come with the outer block count once. */
  function Cost(length: nat, goal: nat): int {
    if length <= SINGLE_BYTES < goal then
      Weight(744) - Weight(SectorsFor(length)) + 2 + LeavesHeld(SectorsFor(goal - SINGLE_BYTES))
    else Weight(SectorsFor(goal)) - Weight(SectorsFor(length))
  }

  lemma CostSplits(length: nat, mid: nat, goal: nat)
    requires length <= mid <= goal && (mid <= SINGLE_BYTES || length > SINGLE_BYTES || mid == goal)
    ensures Cost(length, goal) == Cost(length, mid) + Cost(mid, goal)
  {
  }

  lemma CostGrows(length: nat, mid: nat, goal: nat)
    requires length <= mid <= goal
    ensures Cost(length, mid) <= Cost(length, goal)
  {
    SectorsGrow(mid, goal);
    if length <= SINGLE_BYTES < goal {
      if mid <= SINGLE_BYTES {
        SectorsGrow(mid, SINGLE_BYTES);
        HeldGrows(SectorsFor(mid), 744);
      } else {
        SectorsGrow(mid - SINGLE_BYTES, goal - SINGLE_BYTES);
      }
    } else {
      HeldGrows(SectorsFor(mid), SectorsFor(goal));
    }
  }

  lemma MoreCosts(length: nat, goal: nat)
    requires length < goal && Aligned(length)
    ensures Cost(length, goal) > 0
  {
    assert SectorsFor(length) < SectorsFor(length + 1);
    SectorsGrow(length + 1, goal);
    if length <= SINGLE_BYTES < goal {
      SectorsGrow(length, SINGLE_BYTES);
      HeldGrows(SectorsFor(length), 744);
    } else {
      HeldGrows(SectorsFor(length) + 1, SectorsFor(goal));
      assert Weight(SectorsFor(length)) < Weight(SectorsFor(length) + 1);
    }
  }

  /** What length_to_total_sectors returns for n data sectors, up to the largest file. */
  function Counted(n: nat): nat {
    if n <= 119 then 1 + n
    else if n <= 15619 then 1 + n + (n - 119 + 124) / 125
    else 1 + n + 125 + (n - 15619 + 124) / 125
  }

  /**
   * length_to_total_sectors (lines 44-94).  Its second loop allows 124 leaves where the
   * inode has room for 5.
   */
  method LengthToTotalSectors(length0: nat) returns (result: nat)
    requires length0 <= FILE_BYTES
    ensures result == Counted(SectorsFor(length0))
  {
    ghost var n := SectorsFor(length0);
    var length: int := length0;
    result := 1;
    var i := 0;
    while length > 0 && i < DIRECT_SECTOR_CNT
      invariant 0 <= i <= DIRECT_SECTOR_CNT && length == length0 - 512 * i && i <= n && result == 1 + i
    {
      result := result + 1;
      length := length - 512;
      i := i + 1;
    }
    ghost var k := i;
    i := 0;
    while length > 0 && i < DIRECT_SECTOR_CNT + INDIRECT_SECTOR_CNT
      invariant 0 <= i <= 124 && length == length0 - 512 * k && k <= n && result == 1 + k + i
      invariant length > 0 ==> k == 119 + 125 * i
      invariant i > 0 ==> 119 + 125 * i - 125 < k <= 119 + 125 * i
      invariant i == 0 ==> k <= 119
    {
      result := result + 1;
      var j := 0;
      while length > 0 && j < TOTAL_SECTOR_CNT
        invariant 0 <= j <= TOTAL_SECTOR_CNT && k == 119 + 125 * i + j && length == length0 - 512 * k
        invariant k <= n && result == 1 + k + i + 1 && (j == 0 ==> length > 0)
      {
        result := result + 1;
        length := length - 512;
        k := k + 1;
        j := j + 1;
      }
      i := i + 1;
    }
    i := 0;
    while length > 0 && i < TOTAL_SECTOR_CNT
      invariant 0 <= i <= 1
      invariant if i == 0 then length == length0 - 512 * k && (length > 0 ==> k == 15619 && result == 1 + 15619 + 124)
                else length <= 0
      invariant length <= 0 ==> result == Counted(n)
    {
      result, length := CountDoubles(length, k, length0, result);
      i := i + 1;
    }
  }

  /** One turn of the third loop of length_to_total_sectors; such files need no second. */
  method CountDoubles(length1: int, ghost k1: nat, ghost length0: nat, result1: nat) returns (result: nat, length: int)
    requires length1 > 0 && k1 == 15619 && length1 == length0 - 512 * k1 && length0 <= FILE_BYTES
    ensures length <= 0
    ensures result == result1 + 1 + (SectorsFor(length0) - 15619) + (SectorsFor(length0) - 15619 + 124) / 125
  {
    ghost var n, m := SectorsFor(length0), 0;
    length := length1;
    result := result1 + 1;
    var j := 0;
    while length > 0 && j < TOTAL_SECTOR_CNT
      invariant 0 <= j <= 6 && length == length1 - 512 * m && k1 + m <= n && result == result1 + 1 + m + j
      invariant length > 0 ==> m == 125 * j
      invariant j > 0 ==> 125 * j - 125 < m <= 125 * j
      invariant j == 0 ==> m == 0
    {
      result := result + 1;
      var k := 0;
      while length > 0 && k < TOTAL_SECTOR_CNT
        invariant 0 <= k <= TOTAL_SECTOR_CNT && m == 125 * j + k && length == length1 - 512 * m
        invariant k1 + m <= n && result == result1 + 1 + m + j + 1 && (k == 0 ==> length > 0)
      {
        result := result + 1;
        length := length - 512;
        m := m + 1;
        k := k + 1;
      }
      j := j + 1;
    }
  }

  /** The count is right exactly outside the range that the wrong loop bound misjudges. */
  lemma CountIsRight(n: nat)
    requires n <= DATA_MAX
    ensures Counted(n) == 1 + Held(n) <==> n <= SINGLE_MAX || n > 15619
    ensures Counted(n) <= 1 + Held(n)
  {
  }

  lemma WeightBeatsCount(m: nat, n: nat)
    requires m <= n
    ensures Weight(n) - Weight(m) >= Counted(n) - Counted(m)
  {
  }

  /** inode_grow never counts less than length_to_total_sectors would. */
  lemma CostBeatsCount(length: nat, goal: nat)
    requires length <= goal
    ensures Cost(length, goal) >= Counted(SectorsFor(goal)) - Counted(SectorsFor(length))
  {
    SectorsGrow(length, goal);
    if length <= SINGLE_BYTES < goal {
      SectorsGrow(length, SINGLE_BYTES);
      WeightBeatsCount(SectorsFor(length), 744);
      assert SectorsFor(goal) == 744 + SectorsFor(goal - SINGLE_BYTES);
    } else {
      WeightBeatsCount(SectorsFor(length), SectorsFor(goal));
    }
  }

  /** A file that fills its index is over the size limit. */
  lemma FullFileIsOver(length: nat)
    requires length <= FILE_BYTES && Counted(SectorsFor(length)) < FILESYS_LIMIT_SECTORS
    ensures length < FILE_BYTES
  {
  }

  /** What a turn of the loop that gave the file all its sectors did to the count of sectors. */
  predicate Counts(length: nat, length': nat, left: nat, cur0: nat, cur: nat) {
    cur == cur0 + Cost(length, length') && cur <= FILESYS_LIMIT_SECTORS && (left == 0 || Aligned(length'))
  }

  /** What a turn of the loop that was cut off leaves: the size limit is reached and sectors are missing. */
  predicate Lacks(length: nat, length': nat, cur0: nat, cur: nat, held: nat) {
    && cur >= FILESYS_LIMIT_SECTORS && cur0 + Cost(length, length') > FILESYS_LIMIT_SECTORS
    && held < Held(SectorsFor(length'))
  }

  lemma NextSector(length: nat, next: nat, left: nat)
    requires length < DIRECT_BYTES && 0 < next == Min(left + next, 512 - length % 512)
    ensures length + next <= DIRECT_BYTES && (left == 0 || Aligned(length + next))
  {
    assert left > 0 ==> length + next == 512 * (length / 512 + 1);
  }

  lemma DirectCounts(length: nat, length': nat, left: nat, cur0: nat, cur: nat)
    requires length < length' <= DIRECT_BYTES && length' <= length + 512 - length % 512 && (left == 0 || Aligned(length'))
    requires cur == cur0 + (if length % 512 == 0 then 1 else 0) <= FILESYS_LIMIT_SECTORS
    ensures Counts(length, length', left, cur0, cur)
  {
    if length % 512 == 0 {
      AddSector(length, length' - length);
    } else {
      FillSector(length, length' - length);
    }
  }

  /** Where the end of a file lies that has leaves but no outer block. */
  lemma SingleAt(length: nat)
    requires DIRECT_BYTES <= length < SINGLE_BYTES
    ensures var j := (length - DIRECT_BYTES) / LEAF_BYTES;
            j < 5 && if (length - DIRECT_BYTES) % LEAF_BYTES == 0 then length == DIRECT_BYTES + LEAF_BYTES * j
                     else DIRECT_BYTES + LEAF_BYTES * j < length < DIRECT_BYTES + LEAF_BYTES * j + LEAF_BYTES
  {
  }

  lemma LeafWeight(l: LeafRef, length: nat, length': nat, m: nat, m': nat, k: nat)
    requires l.Ok() && l.Start() < length <= length' <= l.Start() + LEAF_BYTES
    requires m == length - l.Start() && m' == length' - l.Start() && SectorsFor(m') == SectorsFor(m) + k
    ensures Weight(SectorsFor(length')) - Weight(SectorsFor(length)) == k
  {
    LeafEnd(l, length);
    LeafEnd(l, length');
    if l.Single? {
      assert SectorsFor(length) == 119 + 125 * l.j + SectorsFor(length - l.Start());
      assert SectorsFor(length') == 119 + 125 * l.j + SectorsFor(length' - l.Start());
    } else {
      assert SectorsFor(length) == 744 + 125 * l.j + SectorsFor(length - l.Start());
      assert SectorsFor(length') == 744 + 125 * l.j + SectorsFor(length' - l.Start());
    }
  }

  lemma LeafAligned(l: LeafRef, m: nat)
    requires Aligned(m)
    ensures Aligned(l.Start() + m)
  {
    var k := if l.Single? then 119 + 125 * l.j else 744 + 125 * l.j;
    assert l.Start() + m == 512 * (k + SectorsFor(m));
  }

  /** The count for a leaf that held m bytes and holds m' now. */
  predicate LeafTally(m: nat, m': nat, left: nat, cur0: nat, cur: nat) {
    cur == cur0 + SectorsFor(m') - SectorsFor(m) && cur <= FILESYS_LIMIT_SECTORS && (left == 0 || Aligned(m'))
  }

  lemma FilledCounts(l: LeafRef, length: nat, length': nat, left: nat, cur0: nat, cur: nat)
    requires l.Ok() && l.Start() < length <= length' <= l.Start() + LEAF_BYTES
    requires LeafTally(length - l.Start(), length' - l.Start(), left, cur0, cur)
    ensures Counts(length, length', left, cur0, cur)
  {
    var m, m' := length - l.Start(), length' - l.Start();
    SectorsGrow(m, m');
    LeafWeight(l, length, length', m, m', SectorsFor(m') - SectorsFor(m));
    if left > 0 {
      LeafAligned(l, m');
    }
  }

  /** The count for a new leaf with next bytes, which took some sectors: all it needs unless the size limit is in the way. */
  predicate NewLeafCount(r: GrowResult, next: nat, cur0: nat, cur: nat, took: int) {
    && cur == cur0 + 1 + took && took == 1 + Min(SectorsFor(next), Room(cur0 + 2))
    && (r.CutOff? <==> took < 1 + SectorsFor(next)) && (r.Progress? <==> took == 1 + SectorsFor(next))
  }

  lemma NextLeaf(next: nat)
    requires 0 < next <= LEAF_BYTES
    ensures 0 < SectorsFor(next) <= 125 && Min(next, 512 * SectorsFor(next)) == next
  {
  }

  lemma NewLeafWeight(l: LeafRef, start: nat, next: nat)
    requires l.Ok() && start == l.Start() && 0 < next <= LEAF_BYTES && (l.Inner? ==> l.j > 0)
    ensures Weight(SectorsFor(start + next)) - Weight(SectorsFor(start)) == 2 + SectorsFor(next)
    ensures SectorsFor(next) <= 125
  {
    LeafEnd(l, l.Start() + next);
    if l.Single? {
      SingleStart(l.j);
      assert SectorsFor(l.Start()) == 119 + 125 * l.j;
      assert SectorsFor(l.Start() + next) == 119 + 125 * l.j + SectorsFor(next);
    } else {
      InnerStart(l.j);
      assert SectorsFor(l.Start()) == 744 + 125 * l.j;
      assert SectorsFor(l.Start() + next) == 744 + 125 * l.j + SectorsFor(next);
    }
  }

  lemma NewLeafCounts(r: GrowResult, l: LeafRef, next: nat, left: nat, cur0: nat, cur: nat, held: nat)
    requires l.Ok() && (l.Inner? ==> l.j > 0) && 0 < next <= LEAF_BYTES && (left == 0 || next == LEAF_BYTES)
    requires NewLeafCount(r, next, cur0, cur, held - l.Pos())
    ensures r.Progress? ==> Counts(l.Start(), l.Start() + next, left, cur0, cur)
    ensures r.CutOff? ==> Lacks(l.Start(), l.Start() + next, cur0, cur, held)
  {
    NewLeafWeight(l, l.Start(), next);
    LeafEnd(l, l.Start() + next);
    if left > 0 {
      LeafAligned(l, next);
    }
  }

  lemma OuterHeld(next: nat)
    requires 0 < next <= OUTER_BYTES
    ensures Held(SectorsFor(SINGLE_BYTES + next)) == 750 + LeavesHeld(SectorsFor(next))
    ensures Held(SectorsFor(SINGLE_BYTES)) == 749
    ensures Cost(SINGLE_BYTES, SINGLE_BYTES + next) == 2 + LeavesHeld(SectorsFor(next))
  {
    assert SectorsFor(SINGLE_BYTES + next) == 744 + SectorsFor(next);
  }

  /** Sectors counted by the loop below for left more bytes. */
  function InnerSpan(left: nat): nat {
    if left == 0 then 0 else 2 + SectorsFor(Min(left, LEAF_BYTES)) + InnerSpan(left - Min(left, LEAF_BYTES))
  }

  lemma InnerSpanOf(left: nat)
    requires left > 0
    ensures InnerSpan(left) == 2 + SectorsFor(Min(left, LEAF_BYTES)) + InnerSpan(left - Min(left, LEAF_BYTES))
  {
  }

  /** After k whole leaves, or at the end. */
  predicate Turned(left0: nat, left: nat, k: nat) {
    left <= left0 && (left == 0 || left0 - left == LEAF_BYTES * k)
  }

  lemma TurnedMore(left0: nat, left: nat, k: nat)
    requires Turned(left0, left, k) && left > 0
    ensures Turned(left0, left - Min(left, LEAF_BYTES), k + 1)
  {
  }

  lemma {:induction false} InnerSpanIsWeight(j: nat, length: nat, left0: nat, left: nat, k: nat, end: nat)
    requires 0 < j && length == SINGLE_BYTES + LEAF_BYTES * j && Turned(left0, left, k) && end == length + left0 - left <= FILE_BYTES
    ensures InnerSpan(left0) - InnerSpan(left) == Weight(SectorsFor(end)) - Weight(SectorsFor(length))
    decreases left0
  {
    if left < left0 {
      InnerSpanOf(left0);
      if left0 <= LEAF_BYTES {
        NewLeafWeight(Inner(j), length, left0);
      } else {
        NewLeafWeight(Inner(j), length, LEAF_BYTES);
        InnerSpanIsWeight(j + 1, length + LEAF_BYTES, left0 - LEAF_BYTES, left, if k > 0 then k - 1 else 0, end);
      }
    }
  }

  /** The count of the loop below, from left0 to left bytes left to cover. */
  predicate InnerCount(r: GrowResult, k: nat, left0: nat, left: nat, cur0: nat, cur: nat, held: nat, wanted: nat) {
    && left <= left0
    && (r.Progress? && left > 0 ==> cur == cur0 + 127 * k)
    && (r.CutOff? ==> k > 0 && cur0 + 127 * (k - 1) < FILESYS_LIMIT_SECTORS < cur0 + 127 * k)
    && (r.Progress? ==> cur == cur0 + InnerSpan(left0) - InnerSpan(left) <= FILESYS_LIMIT_SECTORS)
    && (r.CutOff? ==> cur >= FILESYS_LIMIT_SECTORS && cur0 + InnerSpan(left0) - InnerSpan(left) > FILESYS_LIMIT_SECTORS)
    && (r.CutOff? ==> held < wanted)
  }

  lemma InnerCountMore(r: GrowResult, j: nat, k: nat, left0: nat, left1: nat, left2: nat, cur0: nat, cur1: nat, cur2: nat,
                       length: nat, held0: nat, held: nat, wanted: nat)
    requires InnerCount(Progress, k, left0, left1, cur0, cur1, held0, wanted) && 0 < left1 && 0 < j < 125 && cur1 < FILESYS_LIMIT_SECTORS
    requires left2 == left1 - Min(left1, LEAF_BYTES) && length == SINGLE_BYTES + LEAF_BYTES * j + left1 - left2
    requires NewLeafCount(r, left1 - left2, cur1, cur2, held - (750 + 126 * j))
    ensures InnerCount(r, k + 1, left0, left2, cur0, cur2, held, Held(SectorsFor(length))) && length <= FILE_BYTES
  {
    InnerSpanOf(left1);
    LeafEnd(Inner(j), length);
    NextLeaf(left1 - left2);
  }

  lemma InnerCounts(r: GrowResult, j: nat, k: nat, length0: nat, length: nat, left0: nat, left: nat, cur0: nat, cur: nat, held: nat)
    requires 0 < j && length0 == SINGLE_BYTES + LEAF_BYTES * j && Turned(left0, left, k) && length == length0 + left0 - left <= FILE_BYTES
    requires InnerCount(r, k, left0, left, cur0, cur, held, Held(SectorsFor(length)))
    ensures r.Progress? ==> Counts(length0, length, left, cur0, cur)
    ensures r.CutOff? ==> Lacks(length0, length, cur0, cur, held)
  {
    InnerSpanIsWeight(j, length0, left0, left, k, length);
    assert Cost(length0, length) == InnerSpan(left0) - InnerSpan(left);
    if left > 0 {
      WholeAligned(length, 744 + 125 * j + 125 * k);
    }
  }

  lemma WholeAligned(length: nat, n: nat)
    requires length == 512 * n
    ensures Aligned(length)
  {
  }

  lemma WholeLeaves(inner: nat)
    requires 0 < inner && inner % LEAF_BYTES == 0
    ensures 0 < inner / LEAF_BYTES && inner == LEAF_BYTES * (inner / LEAF_BYTES)
  {
  }

  /** A recorded length that lags behind within the last leaf only. */
  lemma Lagging(ol: nat, inner: nat)
    requires 0 < ol <= inner <= OUTER_BYTES && (ol + LEAF_BYTES - 1) / LEAF_BYTES == (inner + LEAF_BYTES - 1) / LEAF_BYTES
    ensures if ol % LEAF_BYTES == 0 then ol == inner && (inner + SINGLE_BYTES) % LEAF_BYTES == DIRECT_BYTES
            else ol / LEAF_BYTES < 125 && LEAF_BYTES * (ol / LEAF_BYTES) < inner <= LEAF_BYTES * (ol / LEAF_BYTES) + LEAF_BYTES
  {
    var j := ol / LEAF_BYTES;
    assert ol == LEAF_BYTES * j + ol % LEAF_BYTES;
    if ol % LEAF_BYTES != 0 {
      assert (ol + LEAF_BYTES - 1) / LEAF_BYTES == j + 1;
    } else {
      assert (ol + LEAF_BYTES - 1) / LEAF_BYTES == j;
    }
  }

  // ---- how inode_grow ends

  /** The size limit lets inode_grow, having counted cur sectors, take a file from length to goal bytes. */
  predicate ReachesFrom(cur: nat, length: nat, goal: nat) {
    goal <= length || (cur < FILESYS_LIMIT_SECTORS && cur + Cost(length, goal) <= FILESYS_LIMIT_SECTORS)
  }

  predicate Reaches(length: nat, goal: nat) {
    ReachesFrom(Counted(SectorsFor(length)), length, goal)
  }

  /** The end of the leaf that the length recorded in the outer block points into. */
  function StuckAt(inner: nat): nat {
    SINGLE_BYTES + LEAF_BYTES * (inner / LEAF_BYTES + 1)
  }

  /**
   * Growth to goal bytes has to leave a partly filled leaf of the outer block, which records
   * inner bytes.  As that record is not written back after filling a leaf, the growth then
   * comes back to the same leaf for ever.
   */
  predicate Sticks(length: nat, inner: nat, goal: nat) {
    length > SINGLE_BYTES && inner % LEAF_BYTES != 0 && goal > StuckAt(inner)
  }

  /**
   * Where the size limit stops the growth, it does so inside a new leaf or outer block: always
   * for a file without outer block, and for one whose leaves are full unless the count, which
   * goes up by 127 for each leaf, meets the limit exactly.
   */
  predicate CutsFrom(cur: nat, length: nat, inner: nat) {
    && cur < FILESYS_LIMIT_SECTORS
    && (length <= SINGLE_BYTES || (inner % LEAF_BYTES == 0 && (FILESYS_LIMIT_SECTORS - cur) % 127 != 0))
  }

  /** How inode_grow ends if the device does not run out of sectors. */
  function Foretell(cur: nat, length: nat, inner: nat, goal: nat): Growth {
    if Sticks(length, inner, goal) then
      if cur + Cost(length, StuckAt(inner)) < FILESYS_LIMIT_SECTORS then Hangs else Short
    else if ReachesFrom(cur, length, goal) then Grown
    else if CutsFrom(cur, length, inner) then Cut
    else Short
  }

  /** What the count is bounded by until the outer block is there. */
  predicate Early(length: nat, cur: nat) {
    length <= SINGLE_BYTES ==> cur <= 1 + Weight(SectorsFor(length))
  }

  lemma EarlyStart(length: nat)
    ensures Early(length, Counted(SectorsFor(length)))
  {
  }

  lemma EarlyIsSmall(length: nat, cur: nat)
    requires Early(length, cur) && length <= SINGLE_BYTES
    ensures cur <= 755
  {
    SectorsGrow(length, SINGLE_BYTES);
    HeldGrows(SectorsFor(length), 744);
  }

  lemma ReachSplits(cur0: nat, cur: nat, length: nat, mid: nat, goal: nat)
    requires length < mid <= goal && (mid <= SINGLE_BYTES || length > SINGLE_BYTES || mid == goal)
    requires cur0 < FILESYS_LIMIT_SECTORS && Counts(length, mid, goal - mid, cur0, cur)
    ensures ReachesFrom(cur0, length, goal) == ReachesFrom(cur, mid, goal)
  {
    CostSplits(length, mid, goal);
    if mid < goal {
      MoreCosts(mid, goal);
    }
  }

  /** A turn below the outer block changes nothing about the end. */
  lemma EarlyStep(cur0: nat, cur: nat, length: nat, mid: nat, inner: nat, inner': nat, goal: nat)
    requires length < mid <= goal && mid <= SINGLE_BYTES && Early(length, cur0)
    requires cur0 < FILESYS_LIMIT_SECTORS && Counts(length, mid, goal - mid, cur0, cur)
    ensures Foretell(cur, mid, inner', goal) == Foretell(cur0, length, inner, goal) && Early(mid, cur)
  {
    ReachSplits(cur0, cur, length, mid, goal);
    EarlyIsSmall(mid, cur);
  }

  /** A turn that is cut off below the outer block, or while adding it. */
  lemma EarlyCut(cur0: nat, length: nat, mid: nat, inner: nat, goal: nat)
    requires length < mid <= goal && length <= SINGLE_BYTES && cur0 < FILESYS_LIMIT_SECTORS
    requires cur0 + Cost(length, mid) > FILESYS_LIMIT_SECTORS
    ensures Foretell(cur0, length, inner, goal) == Cut
  {
    CostGrows(length, mid, goal);
  }

  /** A turn that reaches the goal. */
  lemma LastStep(cur0: nat, cur: nat, length: nat, inner: nat, inner': nat, goal: nat)
    requires length < goal && cur0 < FILESYS_LIMIT_SECTORS && Counts(length, goal, 0, cur0, cur)
    requires !Sticks(length, inner, goal) && !Sticks(goal, inner', goal)
    ensures Foretell(cur0, length, inner, goal) == Grown == Foretell(cur, goal, inner', goal)
  {
  }

  /** Filling a leaf of the outer block. */
  lemma LeafStep(cur0: nat, cur: nat, length: nat, mid: nat, inner: nat, goal: nat)
    requires SINGLE_BYTES < length < mid <= goal && mid <= StuckAt(inner) && inner % LEAF_BYTES != 0
    requires cur0 < FILESYS_LIMIT_SECTORS && Counts(length, mid, goal - mid, cur0, cur)
    ensures Foretell(cur, mid, inner, goal) == Foretell(cur0, length, inner, goal)
  {
    ReachSplits(cur0, cur, length, mid, goal);
    CostSplits(length, mid, StuckAt(inner));
  }

  /** A leaf that is full already. */
  lemma StuckStep(cur0: nat, length: nat, inner: nat, goal: nat)
    requires length == StuckAt(inner) < goal && inner % LEAF_BYTES != 0 && cur0 < FILESYS_LIMIT_SECTORS
    ensures Foretell(cur0, length, inner, goal) == Hangs
  {
  }

  lemma WholeTurns(n: int, k: nat)
    ensures n == 127 * k ==> n % 127 == 0
    ensures 127 * k - 127 < n < 127 * k ==> n % 127 != 0
  {
  }

  /** Whole leaves, up to the size limit exactly. */
  lemma LimitStep(cur0: nat, cur: nat, length: nat, mid: nat, inner: nat, inner': nat, k: nat, goal: nat)
    requires SINGLE_BYTES < length < mid < goal && inner % LEAF_BYTES == 0 == inner' % LEAF_BYTES
    requires cur0 < FILESYS_LIMIT_SECTORS == cur && cur == cur0 + 127 * k && Counts(length, mid, goal - mid, cur0, cur)
    ensures Foretell(cur0, length, inner, goal) == Short == Foretell(cur, mid, inner', goal)
  {
    hide Cost, Counts;
    ReachSplits(cur0, cur, length, mid, goal);
    WholeTurns(FILESYS_LIMIT_SECTORS - cur0, k);
  }

  /** Whole leaves, cut off in leaf k. */
  lemma InnerCut(cur0: nat, length: nat, mid: nat, inner: nat, k: nat, goal: nat)
    requires SINGLE_BYTES < length < mid <= goal && inner % LEAF_BYTES == 0 && cur0 < FILESYS_LIMIT_SECTORS
    requires cur0 + Cost(length, mid) > FILESYS_LIMIT_SECTORS && k > 0
    requires cur0 + 127 * (k - 1) < FILESYS_LIMIT_SECTORS < cur0 + 127 * k
    ensures Foretell(cur0, length, inner, goal) == Cut
  {
    hide Cost;
    CostGrows(length, mid, goal);
    WholeTurns(FILESYS_LIMIT_SECTORS - cur0, k);
  }

  /** The end of the loop that adds whole leaves to the outer block. */
  lemma InnerForetold(r: GrowResult, j: nat, k: nat, length0: nat, length: nat, inner: nat, left0: nat, left: nat,
                      cur0: nat, cur: nat, held: nat, goal: nat)
    requires 0 < j && length0 == SINGLE_BYTES + LEAF_BYTES * j && Turned(left0, left, k) && left < left0
    requires length == length0 + left0 - left <= FILE_BYTES && goal == length0 + left0
    requires Counted(SectorsFor(length0)) <= cur0 < FILESYS_LIMIT_SECTORS
    requires InnerCount(r, k, left0, left, cur0, cur, held, Held(SectorsFor(length)))
    requires r.Progress? ==> inner == length - SINGLE_BYTES && (left == 0 || cur >= FILESYS_LIMIT_SECTORS || length == FILE_BYTES)
    ensures r.Progress? ==> Foretell(cur, length, inner, goal) == Foretell(cur0, length0, LEAF_BYTES * j, goal)
    ensures r.CutOff? ==> Foretell(cur0, length0, LEAF_BYTES * j, goal) == Cut
  {
    hide Foretell, Cost, InnerSpan;
    InnerCounts(r, j, k, length0, length, left0, left, cur0, cur, held);
    WholeInner(j, 0, length0);
    if r.CutOff? {
      InnerCut(cur0, length0, length, LEAF_BYTES * j, k, goal);
    } else if r.Progress? && left == 0 {
      InnerDone(j, length0, cur0, cur, goal);
    } else if r.Progress? {
      InnerLimited(j, k, length0, length, cur0, cur, goal);
    }
  }

  lemma NotStuck(j: nat, length: nat, goal: nat)
    requires goal > SINGLE_BYTES
    ensures !Sticks(length, LEAF_BYTES * j, goal) && !Sticks(goal, goal - SINGLE_BYTES, goal)
  {
    assert goal <= StuckAt(goal - SINGLE_BYTES);
  }

  lemma InnerDone(j: nat, length0: nat, cur0: nat, cur: nat, goal: nat)
    requires length0 == SINGLE_BYTES + LEAF_BYTES * j < goal && cur0 < FILESYS_LIMIT_SECTORS && Counts(length0, goal, 0, cur0, cur)
    ensures Foretell(cur, goal, goal - SINGLE_BYTES, goal) == Foretell(cur0, length0, LEAF_BYTES * j, goal)
  {
    hide Sticks, Counts, Foretell;
    NotStuck(j, length0, goal);
    LastStep(cur0, cur, length0, LEAF_BYTES * j, goal - SINGLE_BYTES, goal);
  }

  lemma LimitHit(length0: nat, length: nat, cur0: nat, cur: nat, left: nat)
    requires length0 <= length <= FILE_BYTES && Counted(SectorsFor(length0)) <= cur0 && Counts(length0, length, left, cur0, cur)
    requires cur >= FILESYS_LIMIT_SECTORS || length == FILE_BYTES
    ensures cur == FILESYS_LIMIT_SECTORS
  {
    CostBeatsCount(length0, length);
  }

  lemma WholeInner(j: nat, k: nat, length: nat)
    requires length == SINGLE_BYTES + LEAF_BYTES * j + LEAF_BYTES * k
    ensures (LEAF_BYTES * j) % LEAF_BYTES == 0 == (length - SINGLE_BYTES) % LEAF_BYTES
  {
    assert length - SINGLE_BYTES == LEAF_BYTES * (j + k);
  }

  lemma InnerLimited(j: nat, k: nat, length0: nat, length: nat, cur0: nat, cur: nat, goal: nat)
    requires 0 < j && length0 == SINGLE_BYTES + LEAF_BYTES * j && length0 < length < goal && length <= FILE_BYTES
    requires length == length0 + LEAF_BYTES * k && cur == cur0 + 127 * k
    requires Counted(SectorsFor(length0)) <= cur0 < FILESYS_LIMIT_SECTORS && Counts(length0, length, goal - length, cur0, cur)
    requires cur >= FILESYS_LIMIT_SECTORS || length == FILE_BYTES
    ensures Foretell(cur, length, length - SINGLE_BYTES, goal) == Foretell(cur0, length0, LEAF_BYTES * j, goal)
  {
    hide Counts, Foretell;
    LimitHit(length0, length, cur0, cur, goal - length);
    WholeInner(j, k, length);
    LimitStep(cur0, cur, length0, length, LEAF_BYTES * j, length - SINGLE_BYTES, k, goal);
  }

  /** Once the size limit is reached, the growth is over. */
  lemma OverLimit(cur: nat, length: nat, inner: nat, goal: nat)
    requires cur >= FILESYS_LIMIT_SECTORS && length < goal && (Sticks(length, inner, goal) ==> length <= StuckAt(inner))
    ensures Foretell(cur, length, inner, goal) == Short
  {
    if Sticks(length, inner, goal) {
      CostGrows(length, length, StuckAt(inner));
    }
  }

  /** Up to 744 data sectors the size limit never matters, and past the index it always does. */
  lemma SmallFilesReach(length: nat, goal: nat)
    requires length <= FILE_BYTES
    ensures SectorsFor(goal) <= SINGLE_MAX ==> Reaches(length, goal)
    ensures goal > FILE_BYTES ==> !Reaches(length, goal)
  {
    if length < goal {
      SectorsGrow(length, goal);
      CostBeatsCount(length, goal);
    }
  }
}
