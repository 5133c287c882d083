/** malloc and free (threads/malloc.c:71-154, 218-294). */
module Malloc {
  import opened Wrappers
  import opened Sequences
  import opened Storage
  import opened MallocLayout
  import opened MallocState

  /** size_t. */
  type Size = n: nat | n < 0x1_0000_0000

  /** The pages that malloc asks for: one for an arena, or DIV_ROUND_UP in 32 bits for a big block and its header. */
  function PagesFor(size: Size): nat {
    if size <= 1024 then 1 else (size + HEADER + PGSIZE - 1) % 0x1_0000_0000 / PGSIZE
  }

  /** The bytes of the block that malloc returns which the caller may use: all of size, unless the sum wrapped around. */
  function Granted(size: Size): nat {
    if size > 1024 && PGSIZE * PagesFor(size) < HEADER + size then
      if PagesFor(size) == 0 then 0 else PGSIZE * PagesFor(size) - HEADER
    else size
  }

  /** Where the sum does not wrap around, the pages are the fewest that hold the block. */
  lemma EnoughPages(size: Size)
    requires 1024 < size < 0x1_0000_0000 - 4107
    ensures HEADER + size <= PGSIZE * PagesFor(size) < HEADER + size + PGSIZE
  {
    var sum := size + HEADER + PGSIZE - 1;
    assert sum % 0x1_0000_0000 == sum;
  }

  /**
   * A block that malloc returns is large enough exactly for requests below 2^32 - 11 bytes.  In the last 4096 requests
   * before that, malloc asks for no page at all and returns null.
   */
  lemma LargeEnough(size: Size)
    requires size > 0
    ensures PagesFor(size) == 0 <==> 0x1_0000_0000 - 4107 <= size < 0x1_0000_0000 - 11
    ensures PagesFor(size) > 0 ==> (Granted(size) == size <==> size < 0x1_0000_0000 - 11)
    ensures Granted(size) <= size && (PagesFor(size) > 0 ==> Granted(size) > 0)
    ensures size > 1024 && PagesFor(size) > 0 ==> HEADER + Granted(size) <= PGSIZE * PagesFor(size)
  {
    if size > 1024 {
      if size < 0x1_0000_0000 - 4107 {
        EnoughPages(size);
      } else {
        assert (size + HEADER + PGSIZE - 1) % 0x1_0000_0000 == size + HEADER + PGSIZE - 1 - 0x1_0000_0000;
      }
    }
  }

  /** For the 11 largest requests, four gigabytes, malloc returns a block of 4084 bytes. */
  lemma WrapExample()
    ensures PagesFor(0xFFFF_FFF5) == 1 && Granted(0xFFFF_FFF5) == 4084
  {
  }

  /** d is the smallest class of blocks that holds size bytes. */
  predicate FitsIn(d: nat, size: nat) {
    d < DESC_CNT && size <= BlockSize(d) && (d > 0 ==> BlockSize(d - 1) < size)
  }

  /** malloc_init: seven descriptors. */
  method InitDescs() returns (sizes: seq<nat>, counts: seq<nat>)
    ensures |sizes| == |counts| == DESC_CNT <= 10
    ensures forall d: nat | d < DESC_CNT :: sizes[d] == BlockSize(d) && counts[d] == BlocksPerArena(d)
  {
    sizes, counts := [], [];
    var size := 16;
    Sizes();
    while size < PGSIZE / 2
      invariant |sizes| == |counts| <= DESC_CNT
      invariant size == BlockSize(|sizes|)
      invariant forall d: nat | d < |sizes| :: sizes[d] == BlockSize(d) && counts[d] == BlocksPerArena(d)
      decreases PGSIZE - size
    {
      BlocksPerArenaIs(|sizes|);
      Sizes();
      sizes, counts := sizes + [size], counts + [(PGSIZE - HEADER) / size];
      size := 2 * size;
    }
  }

  /** Every arena has a block in use: its page is given back with the last one. */
  lemma ArenasAreInUse(h: Heap, a: nat)
    requires Inv(h)
    ensures a in h.arenas <==> exists b | b in h.live :: BlockToArena(b) == a
  {
    if a in h.arenas {
      assert ArenaOk(h, a, {});
      if h.arenas[a].Small? {
        var d := h.arenas[a].d;
        assert IsSmall(h, a, d);
        assert Covered(h, a, d);
        CountIsFull(h.lists[d], a, d, BlocksPerArena(d));
        var i: nat :| i < BlocksPerArena(d) && ArenaToBlock(a, d, i) !in h.lists[d];
        BlockOfArena(a, d, i);
        assert ArenaToBlock(a, d, i) in h.live;
      } else {
        SamePage(a, HEADER);
        assert a + HEADER in h.live;
      }
    }
    forall b | b in h.live && BlockToArena(b) == a ensures a in h.arenas {
      assert LiveOk(h, b);
    }
  }

  lemma {:induction false} CountIsPositive(list: seq<nat>, a: nat, d: nat, n: nat, i: nat)
    requires d < DESC_CNT && i < n && ArenaToBlock(a, d, i) in list
    ensures FreeCount(list, a, d, n) > 0
  {
    if i < n - 1 {
      CountIsPositive(list, a, d, n - 1, i);
    }
  }

  /** The arena of a free block has a free block. */
  lemma HasFree(h: Heap, transit: set<nat>, d: nat, b: nat)
    requires InvBut(h, transit) && d < DESC_CNT && b in h.lists[d]
    ensures IsSmall(h, BlockToArena(b), d) && h.arenas[BlockToArena(b)].freeCnt > 0
  {
    assert ListOk(h, d);
    assert ArenaOk(h, BlockToArena(b), transit);
    ArenaOfBlock(b, d);
    CountIsPositive(h.lists[d], BlockToArena(b), d, BlocksPerArena(d), IndexOf(b, d));
  }

  /** b is one of the first i blocks of arena a. */
  ghost predicate AmongFirst(a: nat, d: nat, i: nat, b: nat)
    requires d < DESC_CNT
  {
    exists k: nat | k < i :: ArenaToBlock(a, d, k) == b
  }

  lemma AmongAll(a: nat, d: nat, b: nat)
    requires d < DESC_CNT && a % PGSIZE == 0 && Aligned(b, d)
    ensures AmongFirst(a, d, BlocksPerArena(d), b) <==> BlockToArena(b) == a
  {
    ArenaOfBlock(b, d);
    if k: nat :| k < BlocksPerArena(d) && ArenaToBlock(a, d, k) == b {
      BlockOfArena(a, d, k);
    }
  }

  /** Only one class is the smallest that fits. */
  lemma UniqueClass(d: nat, size: nat)
    requires FitsIn(d, size)
    ensures size <= 1024 && forall e: nat | FitsIn(e, size) :: e == d
  {
    Sizes();
    forall e: nat | FitsIn(e, size) ensures e == d {
      if e < d {
        SizesGrow(e, d - 1);
      } else if d < e {
        SizesGrow(d, e - 1);
      }
    }
  }

  lemma {:induction false} SizesGrow(d: nat, e: nat)
    requires d <= e
    ensures BlockSize(d) <= BlockSize(e)
  {
    if d < e {
      SizesGrow(d, e - 1);
    }
  }

  class Allocator {
    var arenas: map<nat, Arena>
    var lists: seq<seq<nat>>
    ghost var live: map<nat, nat>

    ghost function State(): Heap
      reads this
    {
      Heap(arenas, lists, live)
    }

    ghost predicate Valid()
      reads this
    {
      Inv(State())
    }

    constructor ()
      ensures Valid() && live == map[] && arenas == map[]
    {
      arenas, lists, live := map[], seq(DESC_CNT, _ => []), map[];
    }

    /** malloc of size bytes needs a page: no list has a block for it. */
    ghost predicate NeedsPage(size: nat)
      reads this
    {
      size > 1024 || exists d: nat | d < |lists| :: FitsIn(d, size) && lists[d] == []
    }

    /** A big block, on pages of its own. */
    method TakePages(p: nat, cnt: nat, ghost size: nat)
      requires Valid() && Fresh(State(), p, cnt) && cnt > 0 && 0 < size && HEADER + size <= PGSIZE * cnt
      modifies this
      ensures Valid() && p + HEADER !in old(live) && live == old(live)[p + HEADER := size]
    {
      BigTakeKeeps(State(), p, cnt, size);
      arenas := arenas[p := Big(cnt)];
      live := live[p + HEADER := size];
    }

    /** The loop over the descriptors: the smallest blocks that are large enough. */
    method FindDesc(size: nat) returns (d: nat)
      ensures d <= DESC_CNT && (d == DESC_CNT <==> size > 1024)
      ensures d < DESC_CNT ==> FitsIn(d, size)
    {
      Sizes();
      d := 0;
      while d < DESC_CNT
        invariant d <= DESC_CNT && (d > 0 ==> BlockSize(d - 1) < size)
      {
        if BlockSize(d) >= size {
          return;
        }
        d := d + 1;
      }
    }

    /** The loop that puts the blocks of a new arena on the free list. */
    method NewBlocks(a: nat, d: nat) returns (list: seq<nat>)
      requires d < DESC_CNT
      ensures list == AllBlocks(a, d)
    {
      list := [];
      for i := 0 to BlocksPerArena(d)
        invariant |list| == i && forall k: nat | k < i :: list[k] == ArenaToBlock(a, d, k)
      {
        list := list + [ArenaToBlock(a, d, i)];
      }
    }

    /** A new arena for descriptor d, at the page p. */
    method NewArena(d: nat, p: nat)
      requires Valid() && d < DESC_CNT && lists[d] == [] && Fresh(State(), p, 1)
      modifies this
      ensures State() == Grown(old(State()), d, p) && InvBut(State(), {p})
      ensures d < |lists| && lists[d] != [] && BlockToArena(lists[d][0]) == p
    {
      GrowKeeps(State(), d, p);
      var list := NewBlocks(p, d);
      arenas := arenas[p := Small(d, BlocksPerArena(d))];
      lists := lists[d := list];
      AllBlocksOk(p, d);
      BlocksPerArenaIs(d);
    }

    /** The first block leaves list d. */
    method PopBlock(d: nat, size: nat) returns (b: nat)
      requires d < |lists| && lists[d] != [] && IsSmall(State(), BlockToArena(lists[d][0]), d)
      requires arenas[BlockToArena(lists[d][0])].freeCnt > 0
      modifies this
      ensures State() == Taken(old(State()), d, size) && b == old(lists[d][0])
    {
      b := lists[d][0];
      var a := BlockToArena(b);
      lists := lists[d := lists[d][1..]];
      arenas := arenas[a := Small(d, arenas[a].freeCnt - 1)];
      live := live[b := size];
    }

    /** The first free block of list d. */
    method TakeFirst(d: nat, size: nat, ghost transit: set<nat>) returns (b: nat)
      requires InvBut(State(), transit) && d < DESC_CNT && lists[d] != [] && 0 < size <= BlockSize(d)
      requires transit <= {BlockToArena(lists[d][0])}
      modifies this
      ensures Valid() && b !in old(live) && live == old(live)[b := size]
    {
      TakeKeeps(State(), d, size, transit);
      HasFree(State(), transit, d, lists[d][0]);
      b := PopBlock(d, size);
    }

    /**
     * malloc.  page is what the page allocator would give; None says that it has none left.
     * A block that is returned was not in use, and now is, with the bytes granted.  Null is
     * returned just for no bytes, for a sum that wraps around to no page, and for want of a
     * page where one is needed.
     */
    method Malloc(size: Size, page: Option<nat>) returns (b: Option<nat>)
      requires Valid() && (page.Some? ==> Fresh(State(), page.value, PagesFor(size)))
      modifies this
      ensures Valid()
      ensures b.None? ==> State() == old(State())
      ensures b.Some? ==> b.value !in old(live) && live == old(live)[b.value := Granted(size)]
      ensures b.None? <==> size == 0 || PagesFor(size) == 0 || (page.None? && old(NeedsPage(size)))
    {
      hide ArenaOk, ListOk, Covered, Fresh;
      if size == 0 {
        return None;
      }
      LargeEnough(size);
      var d := FindDesc(size);
      if d == DESC_CNT {
        var cnt := PagesFor(size);
        if cnt == 0 || page.None? {
          return None;
        }
        TakePages(page.value, cnt, Granted(size));
        return Some(page.value + HEADER);
      }
      UniqueClass(d, size);
      ghost var transit := {};
      if lists[d] == [] {
        if page.None? {
          return None;
        }
        NewArena(d, page.value);
        transit := {page.value};
      }
      var block := TakeFirst(d, size, transit);
      b := Some(block);
    }

    /** The loop that takes the blocks of an arena off the free list. */
    method Clear(a: nat, d: nat) returns (list: seq<nat>)
      requires Unused(State(), a, d)
      ensures Cleared(State(), a, d, list)
    {
      list := lists[d];
      assert ListOk(State(), d) && ArenaOk(State(), a, {a});
      for i := 0 to BlocksPerArena(d)
        invariant NoDup(list) && forall b :: b in list <==> b in lists[d] && !AmongFirst(a, d, i, b)
      {
        var block := ArenaToBlock(a, d, i);
        RemoveOnce(list, block);
        list := Remove(list, block);
        assert forall b :: AmongFirst(a, d, i + 1, b) <==> AmongFirst(a, d, i, b) || b == block;
      }
      forall b | b in lists[d] ensures AmongFirst(a, d, BlocksPerArena(d), b) <==> BlockToArena(b) == a {
        AmongAll(a, d, b);
      }
    }

    /** The block joins its free list. */
    method PushBlock(b: nat, d: nat)
      requires d < |lists| && IsSmall(State(), BlockToArena(b), d)
      modifies this
      ensures State() == Put(old(State()), b)
    {
      var a := BlockToArena(b);
      lists := lists[d := [b] + lists[d]];
      arenas := arenas[a := Small(d, arenas[a].freeCnt + 1)];
      live := live - {b};
    }

    /** The block joins its free list: the arena may now be unused. */
    method PutBack(b: nat, d: nat)
      requires SmallLive(State(), b, d)
      modifies this
      ensures InvBut(State(), {BlockToArena(b)}) && live == old(live) - {b} && IsSmall(State(), BlockToArena(b), d)
    {
      PutKeeps(State(), b, d);
      PushBlock(b, d);
    }

    method FreeSmall(b: nat, d: nat)
      requires SmallLive(State(), b, d)
      modifies this
      ensures Valid() && live == old(live) - {b}
    {
      var a := BlockToArena(b);
      PutBack(b, d);
      if arenas[a].freeCnt >= BlocksPerArena(d) {
        GiveBack(a, d);
      } else {
        UsedStays(State(), a, d);
      }
    }

    /** A block of its own pages is given back with them. */
    method FreeBig(b: nat)
      requires Valid() && b in live && BlockToArena(b) in arenas && arenas[BlockToArena(b)].Big?
      modifies this
      ensures Valid() && live == old(live) - {b}
    {
      hide Inv;
      BigFreeKeeps(State(), b);
      arenas := arenas - {BlockToArena(b)};
      live := live - {b};
    }

    /** free of a block in use. */
    method Free(b: nat)
      requires Valid() && b in live
      modifies this
      ensures Valid() && live == old(live) - {b}
    {
      assert LiveOk(State(), b);
      match arenas[BlockToArena(b)] {
        case Small(d, _) =>
          FreeSmall(b, d);
        case Big(_) =>
          FreeBig(b);
      }
    }

    /** An arena without a block in use is given back. */
    method GiveBack(a: nat, d: nat)
      requires InvBut(State(), {a}) && d < DESC_CNT && IsSmall(State(), a, d) && arenas[a].freeCnt >= BlocksPerArena(d)
      modifies this`arenas, this`lists
      ensures Valid() && a !in arenas
    {
      assert ArenaOk(State(), a, {a});
      CountIsFull(lists[d], a, d, BlocksPerArena(d));
      var list := Clear(a, d);
      ReturnKeeps(State(), a, d, list);
      lists := lists[d := list];
      arenas := arenas - {a};
    }
  }
}
