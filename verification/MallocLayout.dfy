/** Where the blocks of an arena lie (threads/malloc.c:71-86, 276-306). */
module MallocLayout {
  import opened Storage
  import opened Arithmetic

  /** sizeof (struct arena). */
  const HEADER := 12
  /** Descriptors of blocks of 16, 32, ..., 1024 bytes. */
  const DESC_CNT := 7

  /** The block sizes that malloc_init sets up: 16, 32, ..., 1024. */
  function BlockSize(d: nat): (r: nat)
    ensures r >= 16
  {
    if d == 0 then 16 else 2 * BlockSize(d - 1)
  }

  /** How many blocks fit into a page behind the header: 255, 127, ..., 3. */
  function BlocksPerArena(d: nat): nat {
    if d == 0 then 255 else BlocksPerArena(d - 1) / 2
  }

  lemma Sizes()
    ensures BlockSize(0) == 16 && BlockSize(1) == 32 && BlockSize(2) == 64 && BlockSize(3) == 128
    ensures BlockSize(4) == 256 && BlockSize(5) == 512 && BlockSize(6) == 1024 && BlockSize(7) == 2048
  {
  }

  lemma Counts()
    ensures BlocksPerArena(0) == 255 && BlocksPerArena(1) == 127 && BlocksPerArena(2) == 63 && BlocksPerArena(3) == 31
    ensures BlocksPerArena(4) == 15 && BlocksPerArena(5) == 7 && BlocksPerArena(6) == 3
  {
    assert BlocksPerArena(1) == 127;
    assert BlocksPerArena(2) == 63;
    assert BlocksPerArena(3) == 31;
    assert BlocksPerArena(4) == 15;
    assert BlocksPerArena(5) == 7;
  }

  lemma BlocksPerArenaIs(d: nat)
    requires d < DESC_CNT
    ensures BlocksPerArena(d) == (PGSIZE - HEADER) / BlockSize(d) > 1
    ensures HEADER + BlocksPerArena(d) * BlockSize(d) <= PGSIZE
  {
    Sizes();
    Counts();
    assert d == 0 || d == 1 || d == 2 || d == 3 || d == 4 || d == 5 || d == 6;
  }

  /** The offset of block i within its arena. */
  function Offset(d: nat, i: nat): (r: nat)
    ensures r >= HEADER
  {
    if i == 0 then HEADER else Offset(d, i - 1) + BlockSize(d)
  }

  lemma {:induction false} OffsetIs(d: nat, i: nat)
    ensures Offset(d, i) == HEADER + i * BlockSize(d)
  {
    if i > 0 {
      OffsetIs(d, i - 1);
      Distribute(i - 1, 1, BlockSize(d));
    }
  }

  /** arena_to_block. */
  function ArenaToBlock(a: nat, d: nat, i: nat): nat {
    a + Offset(d, i)
  }

  /** block_to_arena: the page of a block. */
  function BlockToArena(b: nat): (a: nat)
    ensures a % PGSIZE == 0 && a <= b < a + PGSIZE
  {
    b - b % PGSIZE
  }

  function IndexOf(b: nat, d: nat): nat
    requires b % PGSIZE >= HEADER
  {
    Euclid(b % PGSIZE - HEADER, BlockSize(d));
    (b % PGSIZE - HEADER) / BlockSize(d)
  }

  /** b is the address of a block in an arena of descriptor d, as block_to_arena asserts. */
  predicate Aligned(b: nat, d: nat) {
    b % PGSIZE >= HEADER && (b % PGSIZE - HEADER) % BlockSize(d) == 0 && IndexOf(b, d) < BlocksPerArena(d)
  }

  lemma BlockEnds(d: nat, i: nat)
    requires d < DESC_CNT && i < BlocksPerArena(d)
    ensures Offset(d, i) + BlockSize(d) <= PGSIZE
  {
    BlocksPerArenaIs(d);
    OffsetIs(d, i);
    Mono(i + 1, BlocksPerArena(d), BlockSize(d));
    Distribute(i, 1, BlockSize(d));
  }

  lemma SamePage(a: nat, ofs: nat)
    requires a % PGSIZE == 0 && ofs < PGSIZE
    ensures (a + ofs) % PGSIZE == ofs && BlockToArena(a + ofs) == a
  {
  }

  lemma IndexOfOffset(d: nat, i: nat)
    ensures (Offset(d, i) - HEADER) / BlockSize(d) == i && (Offset(d, i) - HEADER) % BlockSize(d) == 0
  {
    OffsetIs(d, i);
    Mono(0, i, BlockSize(d));
    Quotient(i * BlockSize(d), BlockSize(d), i);
    Euclid(i * BlockSize(d), BlockSize(d));
  }

  /** block_to_arena inverts arena_to_block, and a block knows its index. */
  lemma BlockOfArena(a: nat, d: nat, i: nat)
    requires d < DESC_CNT && a % PGSIZE == 0 && i < BlocksPerArena(d)
    ensures var b := ArenaToBlock(a, d, i); BlockToArena(b) == a && Aligned(b, d) && IndexOf(b, d) == i
  {
    BlockEnds(d, i);
    SamePage(a, Offset(d, i));
    IndexOfOffset(d, i);
  }

  lemma ArenaOfBlock(b: nat, d: nat)
    requires d < DESC_CNT && Aligned(b, d)
    ensures ArenaToBlock(BlockToArena(b), d, IndexOf(b, d)) == b
  {
    Euclid(b % PGSIZE - HEADER, BlockSize(d));
    OffsetIs(d, IndexOf(b, d));
  }

  /** Different blocks of one arena do not overlap. */
  lemma {:induction false} BlocksApart(a: nat, d: nat, i: nat, j: nat)
    requires i < j
    ensures ArenaToBlock(a, d, i) + BlockSize(d) <= ArenaToBlock(a, d, j)
  {
    if i < j - 1 {
      BlocksApart(a, d, i, j - 1);
    }
  }

  // ---- counting the free blocks of an arena

  /** How many of the first n blocks of arena a are on the list. */
  ghost function FreeCount(list: seq<nat>, a: nat, d: nat, n: nat): nat
    requires d < DESC_CNT
  {
    if n == 0 then 0 else FreeCount(list, a, d, n - 1) + if ArenaToBlock(a, d, n - 1) in list then 1 else 0
  }

  lemma {:induction false} CountIsFull(list: seq<nat>, a: nat, d: nat, n: nat)
    requires d < DESC_CNT
    ensures FreeCount(list, a, d, n) <= n
    ensures FreeCount(list, a, d, n) == n <==> forall i: nat | i < n :: ArenaToBlock(a, d, i) in list
  {
    if n > 0 {
      CountIsFull(list, a, d, n - 1);
    }
  }

  lemma {:induction false} SameCount(list: seq<nat>, list': seq<nat>, a: nat, d: nat, n: nat)
    requires d < DESC_CNT && forall i: nat | i < n :: ArenaToBlock(a, d, i) in list' <==> ArenaToBlock(a, d, i) in list
    ensures FreeCount(list', a, d, n) == FreeCount(list, a, d, n)
  {
    if n > 0 {
      SameCount(list, list', a, d, n - 1);
    }
  }

  /** One block more on the list counts one more. */
  lemma {:induction false} CountOneMore(list: seq<nat>, list': seq<nat>, a: nat, d: nat, n: nat, i: nat)
    requires d < DESC_CNT && i < n && ArenaToBlock(a, d, i) in list' && ArenaToBlock(a, d, i) !in list
    requires forall j: nat | j < n && j != i :: ArenaToBlock(a, d, j) in list' <==> ArenaToBlock(a, d, j) in list
    ensures FreeCount(list', a, d, n) == FreeCount(list, a, d, n) + 1
  {
    if i < n - 1 {
      CountOneMore(list, list', a, d, n - 1, i);
    } else {
      SameCount(list, list', a, d, n - 1);
    }
  }
}
