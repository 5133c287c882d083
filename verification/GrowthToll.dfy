/** How many sectors inode_grow takes from the free map, up to the point where it ends. */
module GrowthToll {
  import opened FileLayout
  import opened Inodes
  import opened FileShape
  import opened GrowthCount

  /** Sectors that whole leaves under the outer block take while room sectors are left to the size limit; each counts one more. */
  function LeavesToll(room: nat): nat {
    126 * (room / 127) + if room % 127 == 0 then 0 else 1 + Room(FILESYS_LIMIT_SECTORS + 2 - room % 127)
  }

  /**
   * The sectors that inode_grow takes on its way from length to goal bytes, if they are free: all that the goal needs, or
   * those up to where it hangs, or those up to the size limit.
   */
  function Takes(cur: nat, length: nat, inner: nat, goal: nat): int {
    match Foretell(cur, length, inner, goal)
    case Grown => Need(length, goal)
    case Hangs => Need(length, StuckAt(inner))
    case _ =>
      if length <= SINGLE_BYTES then
        Need(length, SINGLE_BYTES) + 1 +
        LeavesWanted(Above(Min(goal - SINGLE_BYTES, OUTER_BYTES)), Above(cur + Cost(length, SINGLE_BYTES) + 2))
      else if inner % LEAF_BYTES != 0 then Room(cur)
      else LeavesToll(Room(cur))
  }

  /** n, or 0 if it is negative. */
  function Above(n: int): nat {
    if n < 0 then 0 else n
  }

  // ---- below the outer block

  lemma EarlyReaches(cur: nat, length: nat, inner: nat, goal: nat)
    requires Early(length, cur) && length <= goal <= SINGLE_BYTES
    ensures Foretell(cur, length, inner, goal) == Grown
  {
    EarlyIsSmall(length, cur);
    SectorsGrow(goal, SINGLE_BYTES);
    HeldGrows(SectorsFor(goal), 744);
  }

  lemma EarlyEnds(cur: nat, length: nat, inner: nat, goal: nat)
    requires Early(length, cur) && length <= SINGLE_BYTES && length <= goal
    ensures Foretell(cur, length, inner, goal) in {Grown, Cut}
    ensures Foretell(cur, length, inner, goal) == Cut ==> goal > SINGLE_BYTES
  {
    EarlyIsSmall(length, cur);
    if goal <= SINGLE_BYTES {
      EarlyReaches(cur, length, inner, goal);
    }
  }

  lemma NeedSplits(length: nat, mid: nat, goal: nat)
    ensures Need(length, goal) == Need(length, mid) + Need(mid, goal)
  {
  }

  /** A turn below the outer block takes what it needs, and the rest is still to come. */
  lemma EarlyToll(cur0: nat, cur: nat, length: nat, mid: nat, inner: nat, inner': nat, goal: nat)
    requires length < mid <= goal && mid <= SINGLE_BYTES && Early(length, cur0)
    requires cur0 < FILESYS_LIMIT_SECTORS && Counts(length, mid, goal - mid, cur0, cur)
    ensures Takes(cur0, length, inner, goal) == Need(length, mid) + Takes(cur, mid, inner', goal)
  {
    hide Foretell, Cost, Need, LeavesWanted;
    EarlyStep(cur0, cur, length, mid, inner, inner', goal);
    EarlyEnds(cur0, length, inner, goal);
    CostSplits(length, mid, SINGLE_BYTES);
    NeedSplits(length, mid, SINGLE_BYTES);
    NeedSplits(length, mid, goal);
  }

  lemma EarlyLeast(cur: nat, length: nat, inner: nat, goal: nat)
    requires length <= SINGLE_BYTES && length <= goal && Early(length, cur)
    ensures Takes(cur, length, inner, goal) >= Need(length, Min(goal, SINGLE_BYTES))
  {
    hide Foretell, Need;
    EarlyEnds(cur, length, inner, goal);
    NeedGrows(length, Min(goal, SINGLE_BYTES), goal);
  }

  lemma SingleLeast(j: nat, cur: nat, length: nat, inner: nat, left: nat, goal: nat)
    requires j < 5 && DIRECT_BYTES + LEAF_BYTES * j < length <= DIRECT_BYTES + LEAF_BYTES * j + LEAF_BYTES && goal == length + left
    requires Early(length, cur)
    ensures LeafWant(length - DIRECT_BYTES - LEAF_BYTES * j, left, cur) <= Takes(cur, length, inner, goal)
  {
    hide Takes, Need;
    var end := DIRECT_BYTES + LEAF_BYTES * j + LEAF_BYTES;
    EarlyLeast(cur, length, inner, goal);
    LeafCosts(Single(j), length, Min(goal, end));
    NeedGrows(length, Min(goal, end), Min(goal, SINGLE_BYTES));
  }

  lemma NewSingleLeast(j: nat, cur: nat, length: nat, inner: nat, left: nat, goal: nat)
    requires j < 5 && length == DIRECT_BYTES + LEAF_BYTES * j && goal == length + left && left > 0 && Early(length, cur)
    ensures 1 + SectorsFor(Min(left, LEAF_BYTES)) <= Takes(cur, length, inner, goal) && Held(SectorsFor(length)) == 119 + 126 * j
  {
    hide Takes, Need;
    EarlyLeast(cur, length, inner, goal);
    SingleNeed(j, Min(goal, SINGLE_BYTES) - length, length, Min(goal, SINGLE_BYTES));
  }

  /** A leaf of the inode always gets its sectors. */
  lemma NotCutEarly(length: nat, mid: nat, cur0: nat, cur: nat, held: nat)
    requires length < mid <= SINGLE_BYTES && Early(length, cur0)
    ensures !Lacks(length, mid, cur0, cur, held)
  {
    EarlyIsSmall(length, cur0);
    SectorsGrow(mid, SINGLE_BYTES);
    HeldGrows(SectorsFor(mid), 744);
  }

  // ---- the outer block

  lemma OuterEnds(cur: nat, inner: nat, goal: nat)
    requires cur < FILESYS_LIMIT_SECTORS
    ensures Foretell(cur, SINGLE_BYTES, inner, goal) in {Grown, Cut}
    ensures Need(SINGLE_BYTES, SINGLE_BYTES) == 0 && Cost(SINGLE_BYTES, SINGLE_BYTES) == 0
  {
  }

  lemma OuterToll(cur: nat, inner: nat, goal: nat)
    requires cur < FILESYS_LIMIT_SECTORS && goal > SINGLE_BYTES
    ensures 1 + LeavesWanted(Min(goal - SINGLE_BYTES, OUTER_BYTES), cur + 2) <= Takes(cur, SINGLE_BYTES, inner, goal)
    ensures Foretell(cur, SINGLE_BYTES, inner, goal) == Cut ==>
              1 + LeavesWanted(Min(goal - SINGLE_BYTES, OUTER_BYTES), cur + 2) == Takes(cur, SINGLE_BYTES, inner, goal)
  {
    hide Foretell, Cost, Need;
    OuterEnds(cur, inner, goal);
    OuterNeed(Min(goal - SINGLE_BYTES, OUTER_BYTES), goal - SINGLE_BYTES);
  }

  // ---- a partly filled leaf of the outer block

  /** Within a leaf every sector that is needed counts once. */
  lemma LeafCosts(l: LeafRef, length: nat, length': nat)
    requires l.Ok() && l.Start() < length <= length' <= l.Start() + LEAF_BYTES
    ensures Need(length, length') == Weight(SectorsFor(length')) - Weight(SectorsFor(length))
    ensures Need(length, length') == SectorsFor(length' - l.Start()) - SectorsFor(length - l.Start())
  {
    LeafEnd(l, length);
    LeafEnd(l, length');
    SectorsGrow(length - l.Start(), length' - l.Start());
    LeafWeight(l, length, length', length - l.Start(), length' - l.Start(), SectorsFor(length' - l.Start()) - SectorsFor(length - l.Start()));
  }

  lemma LeafToll(j: nat, cur0: nat, cur: nat, length: nat, mid: nat, inner: nat, goal: nat)
    requires j == inner / LEAF_BYTES < 125 && SINGLE_BYTES + LEAF_BYTES * j < length < mid <= goal && mid <= StuckAt(inner)
    requires inner % LEAF_BYTES != 0 && cur0 < FILESYS_LIMIT_SECTORS && Counts(length, mid, goal - mid, cur0, cur)
    ensures Takes(cur0, length, inner, goal) == Need(length, mid) + Takes(cur, mid, inner, goal)
  {
    hide Foretell;
    LeafStep(cur0, cur, length, mid, inner, goal);
    LeafCosts(Inner(j), length, mid);
  }

  lemma LeafLeast(j: nat, cur: nat, length: nat, inner: nat, left: nat, goal: nat)
    requires j == inner / LEAF_BYTES < 125 && SINGLE_BYTES + LEAF_BYTES * j < length <= StuckAt(inner) && goal == length + left
    requires inner % LEAF_BYTES != 0 && cur < FILESYS_LIMIT_SECTORS
    ensures LeafWant(length - SINGLE_BYTES - LEAF_BYTES * j, left, cur) <= Takes(cur, length, inner, goal)
  {
    LeafCosts(Inner(j), length, Min(goal, StuckAt(inner)));
  }

  lemma StuckToll(cur: nat, length: nat, inner: nat, goal: nat)
    requires length == StuckAt(inner) < goal && inner % LEAF_BYTES != 0 && cur < FILESYS_LIMIT_SECTORS
    ensures Takes(cur, length, inner, goal) == 0
  {
    StuckStep(cur, length, inner, goal);
  }

  // ---- whole leaves under the outer block

  lemma LeavesTollOf(room: nat)
    ensures room >= 127 ==> LeavesToll(room) == 126 + LeavesToll(room - 127)
    ensures 0 < room < 127 ==> LeavesToll(room) == 1 + Room(FILESYS_LIMIT_SECTORS + 2 - room)
    ensures LeavesToll(0) == 0
  {
  }

  /** What a growth that starts with whole leaves comes to. */
  lemma WholeEnds(cur: nat, i: nat, length: nat, goal: nat)
    requires 0 < i && length == SINGLE_BYTES + LEAF_BYTES * i && length < goal
    ensures var end := Foretell(cur, length, LEAF_BYTES * i, goal);
            && (end == Grown <==> cur < FILESYS_LIMIT_SECTORS && cur + Cost(length, goal) <= FILESYS_LIMIT_SECTORS)
            && Takes(cur, length, LEAF_BYTES * i, goal) == if end == Grown then Need(length, goal) else LeavesToll(Room(cur))
  {
    WholeInner(i, 0, length);
  }

  lemma GoalEnds(cur: nat, goal: nat)
    requires goal > SINGLE_BYTES
    ensures Takes(cur, goal, goal - SINGLE_BYTES, goal) == 0
  {
    NotStuck(0, goal, goal);
  }

  /** A new leaf that gets all its sectors. */
  lemma WholeToll(i: nat, cur0: nat, cur: nat, length: nat, left: nat, next: nat, goal: nat)
    requires 0 < i < 125 && length == SINGLE_BYTES + LEAF_BYTES * i && goal == length + left && next == Min(left, LEAF_BYTES) && left > 0
    requires cur0 < FILESYS_LIMIT_SECTORS && cur == cur0 + 2 + SectorsFor(next) <= FILESYS_LIMIT_SECTORS
    ensures Takes(cur0, length, LEAF_BYTES * i, goal) == 1 + SectorsFor(next) + Takes(cur, length + next, LEAF_BYTES * i + next, goal)
  {
    hide Takes, Foretell, LeavesToll, Cost, Need;
    NewLeafTakes(i, length, next);
    WholeEnds(cur0, i, length, goal);
    if next == left {
      GoalEnds(cur, goal);
    } else {
      WholeEnds(cur, i + 1, length + next, goal);
      CostSplits(length, length + next, goal);
      WholeAligned(length + next, 744 + 125 * (i + 1));
      MoreCosts(length + next, goal);
      NeedSplits(length, length + next, goal);
      LeavesTollOf(Room(cur0));
    }
  }

  lemma NewLeafTakes(i: nat, length: nat, next: nat)
    requires 0 < i < 125 && length == SINGLE_BYTES + LEAF_BYTES * i && 0 < next <= LEAF_BYTES
    ensures Cost(length, length + next) == 2 + SectorsFor(next) && Need(length, length + next) == 1 + SectorsFor(next)
    ensures next == LEAF_BYTES ==> SectorsFor(next) == 125
  {
    NewLeafWeight(Inner(i), length, next);
    LeafEnd(Inner(i), length + next);
    InnerStart(i);
  }

  /** A new leaf that the size limit cuts off, and what any new leaf asks for. */
  lemma WholeLeast(i: nat, cur: nat, length: nat, left: nat, next: nat, goal: nat)
    requires 0 < i < 125 && length == SINGLE_BYTES + LEAF_BYTES * i && goal == length + left && next == Min(left, LEAF_BYTES) && left > 0
    requires cur < FILESYS_LIMIT_SECTORS
    ensures 1 + Min(SectorsFor(next), Room(cur + 2)) <= Takes(cur, length, LEAF_BYTES * i, goal)
    ensures Room(cur + 2) < SectorsFor(next) ==> Takes(cur, length, LEAF_BYTES * i, goal) == 1 + Room(cur + 2)
  {
    hide Takes, Foretell, LeavesToll, Cost, Need;
    NewLeafTakes(i, length, next);
    NextLeaf(next);
    WholeEnds(cur, i, length, goal);
    InnerNeed(i, left, length, goal);
    CostGrows(length, length + next, goal);
    LeavesTollOf(Room(cur));
  }

  // ---- the end

  lemma LastToll(cur0: nat, cur: nat, length: nat, inner: nat, inner': nat, goal: nat)
    requires Foretell(cur0, length, inner, goal) == Grown == Foretell(cur, goal, inner', goal)
    ensures Takes(cur0, length, inner, goal) == Need(length, goal) && Takes(cur, goal, inner', goal) == 0
  {
  }

  lemma OverToll(cur: nat, length: nat, inner: nat, goal: nat)
    requires cur >= FILESYS_LIMIT_SECTORS && length < goal && (Sticks(length, inner, goal) ==> length <= StuckAt(inner))
    requires length > SINGLE_BYTES
    ensures Takes(cur, length, inner, goal) == 0
  {
    OverLimit(cur, length, inner, goal);
    LeavesTollOf(0);
  }
}
