/** The state of malloc: arenas, free lists, and the blocks in use. */
module MallocState {
  import opened Sequences
  import opened Storage
  import opened MallocLayout

  /** struct arena: small blocks of one descriptor, or one big block of whole pages. */
  datatype Arena = Small(d: nat, freeCnt: nat) | Big(pageCnt: nat)

  /** live has the blocks handed out, with the sizes asked for. */
  datatype Heap = Heap(arenas: map<nat, Arena>, lists: seq<seq<nat>>, live: map<nat, nat>)

  function Span(a: Arena): nat {
    if a.Small? then PGSIZE else PGSIZE * a.pageCnt
  }

  // ---- the invariant

  predicate IsSmall(h: Heap, a: nat, d: nat) {
    a in h.arenas && h.arenas[a].Small? && h.arenas[a].d == d
  }

  /** The count of an arena is right.  Every arena has a block in use, but for the one in transit. */
  ghost predicate ArenaOk(h: Heap, a: nat, transit: set<nat>)
    requires a in h.arenas && |h.lists| == DESC_CNT
  {
    && a % PGSIZE == 0
    && match h.arenas[a]
       case Small(d, freeCnt) =>
         && d < DESC_CNT && freeCnt == FreeCount(h.lists[d], a, d, BlocksPerArena(d))
         && (a !in transit ==> freeCnt < BlocksPerArena(d))
       case Big(pageCnt) => pageCnt > 0 && a + HEADER in h.live
  }

  ghost predicate Apart(h: Heap) {
    forall a, b | a in h.arenas && b in h.arenas && a < b :: a + Span(h.arenas[a]) <= b
  }

  /** The free list of d holds blocks of arenas of d, each once. */
  ghost predicate ListOk(h: Heap, d: nat)
    requires d < |h.lists| == DESC_CNT
  {
    && NoDup(h.lists[d])
    && forall b | b in h.lists[d] :: Aligned(b, d) && IsSmall(h, BlockToArena(b), d) && b !in h.live
  }

  /** A block in use lies in an arena and is large enough. */
  ghost predicate LiveOk(h: Heap, b: nat)
    requires b in h.live
  {
    && BlockToArena(b) in h.arenas && h.live[b] > 0
    && match h.arenas[BlockToArena(b)]
       case Small(d, _) => d < DESC_CNT && Aligned(b, d) && h.live[b] <= BlockSize(d)
       case Big(pageCnt) => b == BlockToArena(b) + HEADER && HEADER + h.live[b] <= PGSIZE * pageCnt
  }

  /** Every block of an arena is free or in use. */
  ghost predicate Covered(h: Heap, a: nat, d: nat)
    requires d < |h.lists| == DESC_CNT
  {
    forall i: nat | i < BlocksPerArena(d) :: ArenaToBlock(a, d, i) in h.lists[d] || ArenaToBlock(a, d, i) in h.live
  }

  ghost predicate InvBut(h: Heap, transit: set<nat>) {
    && |h.lists| == DESC_CNT && Apart(h)
    && (forall a | a in h.arenas :: ArenaOk(h, a, transit))
    && (forall d: nat | d < DESC_CNT :: ListOk(h, d))
    && (forall b | b in h.live :: LiveOk(h, b))
    && (forall a, d: nat | d < DESC_CNT && IsSmall(h, a, d) :: Covered(h, a, d))
  }

  ghost predicate Inv(h: Heap) {
    InvBut(h, {})
  }

  lemma SmallApart(b: nat, c: nat, d: nat)
    requires d < DESC_CNT && Aligned(b, d) && Aligned(c, d) && BlockToArena(b) == BlockToArena(c) && b < c
    ensures b + BlockSize(d) <= c
  {
    var a, i, j := BlockToArena(b), IndexOf(b, d), IndexOf(c, d);
    ArenaOfBlock(b, d);
    ArenaOfBlock(c, d);
    if i < j {
      BlocksApart(a, d, i, j);
    } else if j < i {
      BlocksApart(a, d, j, i);
    }
  }

  /** Blocks in use do not overlap. */
  lemma LiveApart(h: Heap, b: nat, c: nat)
    requires Inv(h) && b in h.live && c in h.live && b < c
    ensures b + h.live[b] <= c
  {
    Within(h, b);
    Within(h, c);
    var a, a' := BlockToArena(b), BlockToArena(c);
    assert LiveOk(h, b) && LiveOk(h, c);
    if a != a' {
      DifferentPages(b, c);
    } else if h.arenas[a].Small? {
      SmallApart(b, c, h.arenas[a].d);
    }
  }

  lemma DifferentPages(b: nat, c: nat)
    requires b < c && BlockToArena(b) != BlockToArena(c)
    ensures BlockToArena(b) < BlockToArena(c)
  {
  }

  lemma Within(h: Heap, b: nat)
    requires Inv(h) && b in h.live
    ensures var a := BlockToArena(b); a in h.arenas && a + HEADER <= b && b + h.live[b] <= a + Span(h.arenas[a])
  {
    assert LiveOk(h, b);
    var a := BlockToArena(b);
    if h.arenas[a].Small? {
      var d := h.arenas[a].d;
      ArenaOfBlock(b, d);
      BlockEnds(d, IndexOf(b, d));
    }
  }

  // ---- taking a block from a list

  /** The pages from p on do not belong to any arena. */
  ghost predicate Fresh(h: Heap, p: nat, cnt: nat) {
    p % PGSIZE == 0 && forall a | a in h.arenas :: a + Span(h.arenas[a]) <= p || p + PGSIZE * cnt <= a
  }

  /** The first block of list d goes into use. */
  function Taken(h: Heap, d: nat, size: nat): Heap
    requires d < |h.lists| && h.lists[d] != [] && BlockToArena(h.lists[d][0]) in h.arenas
  {
    var b := h.lists[d][0];
    var a := BlockToArena(b);
    var arena := h.arenas[a];
    Heap(if arena.Small? && arena.freeCnt > 0 then h.arenas[a := Small(arena.d, arena.freeCnt - 1)] else h.arenas,
         h.lists[d := h.lists[d][1..]], h.live[b := size])
  }

  /** Blocks of other arenas are other blocks. */
  lemma OtherArena(h: Heap, d: nat, b: nat, a: nat, i: nat)
    requires d < DESC_CNT && a % PGSIZE == 0 && BlockToArena(b) != a && i < BlocksPerArena(d)
    ensures ArenaToBlock(a, d, i) != b
  {
    BlockOfArena(a, d, i);
  }

  lemma TakenCount(h: Heap, d: nat, transit: set<nat>, a: nat)
    requires InvBut(h, transit) && d < DESC_CNT && h.lists[d] != [] && IsSmall(h, a, d) && a % PGSIZE == 0
    ensures var list, n := h.lists[d], BlocksPerArena(d);
            FreeCount(list, a, d, n) == FreeCount(list[1..], a, d, n) + (if a == BlockToArena(list[0]) then 1 else 0)
  {
    var list, n := h.lists[d], BlocksPerArena(d);
    var b := list[0];
    assert ListOk(h, d) && b in list;
    assert forall x :: x in list <==> x == b || x in list[1..];
    if a == BlockToArena(b) {
      ArenaOfBlock(b, d);
      forall j: nat | j < n && j != IndexOf(b, d) ensures ArenaToBlock(a, d, j) != b {
        BlockOfArena(a, d, j);
      }
      CountOneMore(list[1..], list, a, d, n, IndexOf(b, d));
    } else {
      forall i: nat | i < n ensures ArenaToBlock(a, d, i) != b {
        OtherArena(h, d, b, a, i);
      }
      SameCount(list, list[1..], a, d, n);
    }
  }

  lemma TakenSame(h: Heap, d: nat, size: nat, transit: set<nat>, a: nat)
    requires InvBut(h, transit) && d < DESC_CNT && h.lists[d] != [] && BlockToArena(h.lists[d][0]) in h.arenas
    requires transit <= {BlockToArena(h.lists[d][0])} && IsSmall(h, a, d)
    ensures ArenaOk(Taken(h, d, size), a, {})
  {
    assert ArenaOk(h, a, transit);
    TakenCount(h, d, transit, a);
    CountIsFull(h.lists[d], a, d, BlocksPerArena(d));
  }

  lemma TakenOther(h: Heap, d: nat, size: nat, transit: set<nat>, a: nat)
    requires InvBut(h, transit) && d < DESC_CNT && h.lists[d] != [] && IsSmall(h, BlockToArena(h.lists[d][0]), d)
    requires transit <= {BlockToArena(h.lists[d][0])} && a in h.arenas && !IsSmall(h, a, d)
    ensures ArenaOk(Taken(h, d, size), a, {})
  {
    assert ArenaOk(h, a, transit);
    assert a !in transit && Taken(h, d, size).arenas[a] == h.arenas[a];
  }

  lemma TakenArena(h: Heap, d: nat, size: nat, transit: set<nat>, a: nat)
    requires InvBut(h, transit) && d < DESC_CNT && h.lists[d] != [] && BlockToArena(h.lists[d][0]) in h.arenas
    requires transit <= {BlockToArena(h.lists[d][0])} && a in h.arenas
    ensures a in Taken(h, d, size).arenas && ArenaOk(Taken(h, d, size), a, {})
  {
    if IsSmall(h, a, d) {
      TakenSame(h, d, size, transit, a);
    } else {
      assert ListOk(h, d) && h.lists[d][0] in h.lists[d];
      TakenOther(h, d, size, transit, a);
    }
  }

  lemma TakenList(h: Heap, d: nat, size: nat, transit: set<nat>)
    requires InvBut(h, transit) && d < DESC_CNT && h.lists[d] != [] && BlockToArena(h.lists[d][0]) in h.arenas
    ensures ListOk(Taken(h, d, size), d)
  {
    var h', list := Taken(h, d, size), h.lists[d];
    assert ListOk(h, d);
    assert list[0] !in list[1..] && NoDup(list[1..]);
    forall x | x in list[1..] ensures Aligned(x, d) && IsSmall(h', BlockToArena(x), d) && x !in h'.live {
      assert x in list && IsSmall(h, BlockToArena(x), d);
    }
  }

  lemma TakenLists(h: Heap, d: nat, size: nat, transit: set<nat>, e: nat)
    requires InvBut(h, transit) && d < DESC_CNT && h.lists[d] != [] && BlockToArena(h.lists[d][0]) in h.arenas && e < DESC_CNT
    ensures ListOk(Taken(h, d, size), e)
  {
    hide Covered, LiveOk, ArenaOk, Aligned, Apart;
    if e == d {
      TakenList(h, d, size, transit);
    } else {
      var h', b := Taken(h, d, size), h.lists[d][0];
      assert ListOk(h, d) && ListOk(h, e) && b in h.lists[d];
      forall x | x in h.lists[e] ensures IsSmall(h', BlockToArena(x), e) && x !in h'.live {
        assert IsSmall(h, BlockToArena(x), e);
      }
    }
  }

  lemma TakenLive(h: Heap, d: nat, size: nat, transit: set<nat>, c: nat)
    requires InvBut(h, transit) && d < DESC_CNT && h.lists[d] != [] && BlockToArena(h.lists[d][0]) in h.arenas
    requires 0 < size <= BlockSize(d) && c in Taken(h, d, size).live
    ensures LiveOk(Taken(h, d, size), c)
  {
    var b := h.lists[d][0];
    assert ListOk(h, d) && b in h.lists[d];
    assert c != b ==> LiveOk(h, c);
  }

  lemma TakenCovers(h: Heap, d: nat, size: nat, transit: set<nat>, a: nat, e: nat)
    requires InvBut(h, transit) && d < DESC_CNT && h.lists[d] != [] && BlockToArena(h.lists[d][0]) in h.arenas
    requires e < DESC_CNT && IsSmall(Taken(h, d, size), a, e)
    ensures Covered(Taken(h, d, size), a, e)
  {
    var h', b := Taken(h, d, size), h.lists[d][0];
    assert IsSmall(h, a, e);
    assert Covered(h, a, e);
    forall i: nat | i < BlocksPerArena(e) ensures ArenaToBlock(a, e, i) in h'.lists[e] || ArenaToBlock(a, e, i) in h'.live {
      var x := ArenaToBlock(a, e, i);
      assert x in h.lists[d] ==> x == b || x in h'.lists[d];
    }
  }

  lemma SameApart(h: Heap, h': Heap)
    requires Apart(h) && h'.arenas.Keys <= h.arenas.Keys && forall a | a in h'.arenas :: Span(h'.arenas[a]) == Span(h.arenas[a])
    ensures Apart(h')
  {
  }

  /** malloc takes the first block of a list. */
  lemma TakeKeeps(h: Heap, d: nat, size: nat, transit: set<nat>)
    requires InvBut(h, transit) && d < DESC_CNT && h.lists[d] != [] && 0 < size <= BlockSize(d)
    requires transit <= {BlockToArena(h.lists[d][0])}
    ensures BlockToArena(h.lists[d][0]) in h.arenas && h.lists[d][0] !in h.live
    ensures Inv(Taken(h, d, size))
  {
    assert BlockToArena(h.lists[d][0]) in h.arenas && h.lists[d][0] !in h.live by {
      assert ListOk(h, d) && h.lists[d][0] in h.lists[d];
    }
    var h' := Taken(h, d, size);
    SameApart(h, h');
    forall a | a in h'.arenas ensures ArenaOk(h', a, {}) {
      TakenArena(h, d, size, transit, a);
    }
    forall e: nat | e < DESC_CNT ensures ListOk(h', e) {
      TakenLists(h, d, size, transit, e);
    }
    forall c | c in h'.live ensures LiveOk(h', c) {
      TakenLive(h, d, size, transit, c);
    }
    forall a, e: nat | e < DESC_CNT && IsSmall(h', a, e) ensures Covered(h', a, e) {
      TakenCovers(h, d, size, transit, a, e);
    }
  }

  // ---- a new arena

  /** All blocks of an arena, in order. */
  function AllBlocks(a: nat, d: nat): (r: seq<nat>)
    requires d < DESC_CNT
    ensures |r| == BlocksPerArena(d) && forall i: nat | i < |r| :: r[i] == ArenaToBlock(a, d, i)
  {
    seq(BlocksPerArena(d), i requires 0 <= i => ArenaToBlock(a, d, i))
  }

  function Grown(h: Heap, d: nat, p: nat): Heap
    requires d < |h.lists| == DESC_CNT
  {
    Heap(h.arenas[p := Small(d, BlocksPerArena(d))], h.lists[d := AllBlocks(p, d)], h.live)
  }

  lemma AllBlocksOk(p: nat, d: nat)
    requires d < DESC_CNT && p % PGSIZE == 0
    ensures NoDup(AllBlocks(p, d)) && FreeCount(AllBlocks(p, d), p, d, BlocksPerArena(d)) == BlocksPerArena(d)
    ensures forall b | b in AllBlocks(p, d) :: Aligned(b, d) && BlockToArena(b) == p
  {
    var r := AllBlocks(p, d);
    forall i: nat, j: nat | i < j < |r| ensures r[i] != r[j] {
      BlocksApart(p, d, i, j);
    }
    forall i: nat | i < |r| ensures Aligned(r[i], d) && BlockToArena(r[i]) == p && ArenaToBlock(p, d, i) in r {
      BlockOfArena(p, d, i);
      assert r[i] in r;
    }
    CountIsFull(r, p, d, BlocksPerArena(d));
  }

  lemma FreshIsUnknown(h: Heap, transit: set<nat>, p: nat, cnt: nat)
    requires InvBut(h, transit) && Fresh(h, p, cnt) && cnt > 0
    ensures p !in h.arenas && forall b | b in h.live :: BlockToArena(b) != p
  {
    forall a | a in h.arenas ensures a != p {
      assert ArenaOk(h, a, transit);
    }
    forall b | b in h.live ensures BlockToArena(b) != p {
      assert LiveOk(h, b);
    }
  }

  lemma GrowApart(h: Heap, h': Heap, p: nat, arena: Arena)
    requires Apart(h) && h'.arenas == h.arenas[p := arena] && p !in h.arenas
    requires forall a | a in h.arenas :: a + Span(h.arenas[a]) <= p || p + Span(arena) <= a
    requires forall a | a in h.arenas :: Span(h.arenas[a]) > 0
    ensures Apart(h')
  {
    forall a, b | a in h'.arenas && b in h'.arenas && a < b ensures a + Span(h'.arenas[a]) <= b {
    }
  }

  lemma GrownCovers(h: Heap, d: nat, p: nat, a: nat, e: nat)
    requires Inv(h) && d < DESC_CNT && h.lists[d] == [] && e < DESC_CNT && IsSmall(Grown(h, d, p), a, e)
    ensures Covered(Grown(h, d, p), a, e)
  {
    var h' := Grown(h, d, p);
    if a == p {
      forall i: nat | i < BlocksPerArena(d) ensures ArenaToBlock(p, d, i) in h'.lists[d] {
        assert h'.lists[d][i] in h'.lists[d];
      }
    } else {
      assert IsSmall(h, a, e);
      assert Covered(h, a, e);
    }
  }

  lemma GrownLists(h: Heap, d: nat, p: nat, e: nat)
    requires Inv(h) && d < DESC_CNT && h.lists[d] == [] && Fresh(h, p, 1) && e < DESC_CNT
    ensures ListOk(Grown(h, d, p), e)
  {
    FreshIsUnknown(h, {}, p, 1);
    var h' := Grown(h, d, p);
    if e == d {
      AllBlocksOk(p, d);
      forall b | b in h'.lists[d] ensures Aligned(b, d) && IsSmall(h', BlockToArena(b), d) && b !in h.live {
        assert BlockToArena(b) == p;
      }
    } else {
      assert ListOk(h, e);
      forall b | b in h.lists[e] ensures IsSmall(h', BlockToArena(b), e) {
        assert IsSmall(h, BlockToArena(b), e);
      }
    }
  }

  /** malloc gets a new page when list d is empty. */
  lemma GrowKeeps(h: Heap, d: nat, p: nat)
    requires Inv(h) && d < DESC_CNT && h.lists[d] == [] && Fresh(h, p, 1)
    ensures InvBut(Grown(h, d, p), {p})
  {
    var h' := Grown(h, d, p);
    FreshIsUnknown(h, {}, p, 1);
    forall a | a in h.arenas ensures Span(h.arenas[a]) > 0 {
      assert ArenaOk(h, a, {});
    }
    GrowApart(h, h', p, Small(d, BlocksPerArena(d)));
    forall a | a in h'.arenas ensures ArenaOk(h', a, {p}) {
      GrownArena(h, d, p, a);
    }
    forall e: nat | e < DESC_CNT ensures ListOk(h', e) {
      GrownLists(h, d, p, e);
    }
    forall b | b in h'.live ensures LiveOk(h', b) {
      assert LiveOk(h, b);
    }
    forall a, e: nat | e < DESC_CNT && IsSmall(h', a, e) ensures Covered(h', a, e) {
      GrownCovers(h, d, p, a, e);
    }
  }

  lemma GrownArena(h: Heap, d: nat, p: nat, a: nat)
    requires Inv(h) && d < DESC_CNT && h.lists[d] == [] && Fresh(h, p, 1) && a in Grown(h, d, p).arenas
    ensures ArenaOk(Grown(h, d, p), a, {p})
  {
    var h' := Grown(h, d, p);
    AllBlocksOk(p, d);
    if a != p {
      assert ArenaOk(h, a, {});
      if IsSmall(h, a, d) {
        forall i: nat | i < BlocksPerArena(d) ensures ArenaToBlock(a, d, i) !in h'.lists[d] {
          BlockOfArena(a, d, i);
        }
        SameCount(h.lists[d], h'.lists[d], a, d, BlocksPerArena(d));
      }
    }
  }

  // ---- big blocks

  function BigTaken(h: Heap, p: nat, cnt: nat, size: nat): Heap {
    Heap(h.arenas[p := Big(cnt)], h.lists, h.live[p + HEADER := size])
  }

  lemma BigTakenArena(h: Heap, p: nat, cnt: nat, size: nat, a: nat)
    requires Inv(h) && cnt > 0 && p % PGSIZE == 0 && a in BigTaken(h, p, cnt, size).arenas
    ensures ArenaOk(BigTaken(h, p, cnt, size), a, {})
  {
    assert a != p ==> ArenaOk(h, a, {});
  }

  lemma BigTakenLists(h: Heap, p: nat, cnt: nat, size: nat, e: nat)
    requires Inv(h) && p % PGSIZE == 0 && p !in h.arenas && e < DESC_CNT
    ensures ListOk(BigTaken(h, p, cnt, size), e)
  {
    assert ListOk(h, e);
    var h', b := BigTaken(h, p, cnt, size), p + HEADER;
    assert BlockToArena(b) == p by {
      SamePage(p, HEADER);
    }
    forall x | x in h.lists[e] ensures IsSmall(h', BlockToArena(x), e) && x !in h'.live {
      assert IsSmall(h, BlockToArena(x), e);
      assert x != b;
    }
  }

  lemma BigTakenLive(h: Heap, p: nat, cnt: nat, size: nat, b: nat)
    requires Inv(h) && p % PGSIZE == 0 && p !in h.arenas && 0 < size && HEADER + size <= PGSIZE * cnt
    requires b in BigTaken(h, p, cnt, size).live
    ensures LiveOk(BigTaken(h, p, cnt, size), b)
  {
    SamePage(p, HEADER);
    assert b != p + HEADER ==> LiveOk(h, b);
  }

  /** malloc of more than a descriptor can give gets pages of its own. */
  lemma BigTakeKeeps(h: Heap, p: nat, cnt: nat, size: nat)
    requires Inv(h) && cnt > 0 && Fresh(h, p, cnt) && 0 < size && HEADER + size <= PGSIZE * cnt
    ensures p + HEADER !in h.live && Inv(BigTaken(h, p, cnt, size))
  {
    var h' := BigTaken(h, p, cnt, size);
    FreshIsUnknown(h, {}, p, cnt);
    SamePage(p, HEADER);
    forall a | a in h.arenas ensures Span(h.arenas[a]) > 0 {
      assert ArenaOk(h, a, {});
    }
    GrowApart(h, h', p, Big(cnt));
    forall a | a in h'.arenas ensures ArenaOk(h', a, {}) {
      BigTakenArena(h, p, cnt, size, a);
    }
    forall e: nat | e < DESC_CNT ensures ListOk(h', e) {
      BigTakenLists(h, p, cnt, size, e);
    }
    forall b | b in h'.live ensures LiveOk(h', b) {
      BigTakenLive(h, p, cnt, size, b);
    }
    forall a, e: nat | e < DESC_CNT && IsSmall(h', a, e) ensures Covered(h', a, e) {
      assert IsSmall(h, a, e);
      assert Covered(h, a, e);
    }
  }

  function BigFreed(h: Heap, b: nat): Heap {
    Heap(h.arenas - {BlockToArena(b)}, h.lists, h.live - {b})
  }

  ghost predicate BigLive(h: Heap, b: nat) {
    Inv(h) && b in h.live && BlockToArena(b) in h.arenas && h.arenas[BlockToArena(b)].Big?
  }

  lemma BigFreedArena(h: Heap, b: nat, a: nat)
    requires BigLive(h, b) && a in BigFreed(h, b).arenas
    ensures ArenaOk(BigFreed(h, b), a, {})
  {
    assert ArenaOk(h, a, {});
    SamePage(a, HEADER);
  }

  lemma BigFreedLists(h: Heap, b: nat, e: nat)
    requires BigLive(h, b) && e < DESC_CNT
    ensures ListOk(BigFreed(h, b), e)
  {
    assert ListOk(h, e);
    forall x | x in h.lists[e] ensures IsSmall(BigFreed(h, b), BlockToArena(x), e) {
      assert IsSmall(h, BlockToArena(x), e);
    }
  }

  lemma OneBigBlock(h: Heap, b: nat, c: nat)
    requires BigLive(h, b) && c in h.live && c != b
    ensures BlockToArena(c) != BlockToArena(b)
  {
    assert LiveOk(h, b) && LiveOk(h, c);
  }

  /** A block whose arena stays is still in order. */
  lemma StillLive(h: Heap, h': Heap, c: nat)
    requires c in h.live && LiveOk(h, c) && c in h'.live && h'.live[c] == h.live[c]
    requires BlockToArena(c) in h'.arenas && h'.arenas[BlockToArena(c)] == h.arenas[BlockToArena(c)]
    ensures LiveOk(h', c)
  {
  }

  lemma BigFreedLive(h: Heap, b: nat, c: nat)
    requires BigLive(h, b) && c in BigFreed(h, b).live
    ensures LiveOk(BigFreed(h, b), c)
  {
    OneBigBlock(h, b, c);
    assert LiveOk(h, c);
    StillLive(h, BigFreed(h, b), c);
  }

  /** free of a big block. */
  lemma BigFreeKeeps(h: Heap, b: nat)
    requires BigLive(h, b)
    ensures Inv(BigFreed(h, b))
  {
    var h' := BigFreed(h, b);
    SameApart(h, h');
    forall a | a in h'.arenas ensures ArenaOk(h', a, {}) {
      BigFreedArena(h, b, a);
    }
    forall e: nat | e < DESC_CNT ensures ListOk(h', e) {
      BigFreedLists(h, b, e);
    }
    forall c | c in h'.live ensures LiveOk(h', c) {
      BigFreedLive(h, b, c);
    }
    forall a, e: nat | e < DESC_CNT && IsSmall(h', a, e) ensures Covered(h', a, e) {
      BigFreedCovers(h, b, a, e);
    }
  }

  lemma BigFreedCovers(h: Heap, b: nat, a: nat, e: nat)
    requires BigLive(h, b) && e < DESC_CNT && IsSmall(BigFreed(h, b), a, e)
    ensures Covered(BigFreed(h, b), a, e)
  {
    assert IsSmall(h, a, e);
    assert Covered(h, a, e) && ArenaOk(h, a, {});
    forall i: nat | i < BlocksPerArena(e) ensures ArenaToBlock(a, e, i) != b {
      BlockOfArena(a, e, i);
    }
  }

  // ---- giving a small block back

  /** Block b joins its list. */
  function Put(h: Heap, b: nat): Heap
    requires BlockToArena(b) in h.arenas && h.arenas[BlockToArena(b)].Small? && h.arenas[BlockToArena(b)].d < |h.lists|
  {
    var a := BlockToArena(b);
    var arena := h.arenas[a];
    Heap(h.arenas[a := Small(arena.d, arena.freeCnt + 1)], h.lists[arena.d := [b] + h.lists[arena.d]], h.live - {b})
  }

  /** A block in use in an arena of small blocks. */
  ghost predicate SmallLive(h: Heap, b: nat, d: nat) {
    Inv(h) && b in h.live && IsSmall(h, BlockToArena(b), d) && d < DESC_CNT
  }

  lemma LiveIsNotFree(h: Heap, b: nat, d: nat)
    requires SmallLive(h, b, d)
    ensures b !in h.lists[d] && Aligned(b, d) && ArenaToBlock(BlockToArena(b), d, IndexOf(b, d)) == b
  {
    assert LiveOk(h, b) && ListOk(h, d);
    ArenaOfBlock(b, d);
  }

  lemma PutCount(h: Heap, b: nat, d: nat, a: nat)
    requires SmallLive(h, b, d) && IsSmall(h, a, d) && a % PGSIZE == 0
    ensures var list, n := h.lists[d], BlocksPerArena(d);
            FreeCount([b] + list, a, d, n) == FreeCount(list, a, d, n) + (if a == BlockToArena(b) then 1 else 0)
  {
    var list, n := h.lists[d], BlocksPerArena(d);
    LiveIsNotFree(h, b, d);
    if a == BlockToArena(b) {
      forall j: nat | j < n && j != IndexOf(b, d) ensures ArenaToBlock(a, d, j) != b {
        BlockOfArena(a, d, j);
      }
      CountOneMore(list, [b] + list, a, d, n, IndexOf(b, d));
    } else {
      forall i: nat | i < n ensures ArenaToBlock(a, d, i) != b {
        OtherArena(h, d, b, a, i);
      }
      SameCount(list, [b] + list, a, d, n);
    }
  }

  lemma PutSame(h: Heap, b: nat, d: nat, a: nat)
    requires SmallLive(h, b, d) && IsSmall(h, a, d)
    ensures ArenaOk(Put(h, b), a, {BlockToArena(b)})
  {
    assert ArenaOk(h, a, {});
    PutCount(h, b, d, a);
  }

  lemma PutOther(h: Heap, b: nat, d: nat, a: nat)
    requires SmallLive(h, b, d) && a in h.arenas && !IsSmall(h, a, d)
    ensures ArenaOk(Put(h, b), a, {BlockToArena(b)})
  {
    assert ArenaOk(h, a, {});
    assert a != BlockToArena(b);
    SamePage(a, HEADER);
  }

  lemma PutArena(h: Heap, b: nat, d: nat, a: nat)
    requires SmallLive(h, b, d) && a in h.arenas
    ensures ArenaOk(Put(h, b), a, {BlockToArena(b)})
  {
    if IsSmall(h, a, d) {
      PutSame(h, b, d, a);
    } else {
      PutOther(h, b, d, a);
    }
  }

  lemma PutLists(h: Heap, b: nat, d: nat, e: nat)
    requires SmallLive(h, b, d) && e < DESC_CNT
    ensures ListOk(Put(h, b), e)
  {
    var h' := Put(h, b);
    assert ListOk(h, e);
    LiveIsNotFree(h, b, d);
    forall x | x in h'.lists[e] ensures Aligned(x, e) && IsSmall(h', BlockToArena(x), e) && x !in h'.live {
      assert x != b || e != d ==> x in h.lists[e];
    }
  }

  lemma PutCovers(h: Heap, b: nat, d: nat, a: nat, e: nat)
    requires SmallLive(h, b, d) && e < DESC_CNT && IsSmall(Put(h, b), a, e)
    ensures Covered(Put(h, b), a, e)
  {
    assert IsSmall(h, a, e);
    assert Covered(h, a, e) && ArenaOk(h, a, {});
    var h' := Put(h, b);
    forall i: nat | i < BlocksPerArena(e) ensures ArenaToBlock(a, e, i) in h'.lists[e] || ArenaToBlock(a, e, i) in h'.live {
      BlockOfArena(a, e, i);
    }
  }

  /** free puts the block on its list; the arena may then have no block in use. */
  lemma PutKeeps(h: Heap, b: nat, d: nat)
    requires SmallLive(h, b, d)
    ensures InvBut(Put(h, b), {BlockToArena(b)})
  {
    var h' := Put(h, b);
    SameApart(h, h');
    forall a | a in h'.arenas ensures ArenaOk(h', a, {BlockToArena(b)}) {
      PutArena(h, b, d, a);
    }
    forall e: nat | e < DESC_CNT ensures ListOk(h', e) {
      PutLists(h, b, d, e);
    }
    forall c | c in h'.live ensures LiveOk(h', c) {
      assert LiveOk(h, c);
    }
    forall a, e: nat | e < DESC_CNT && IsSmall(h', a, e) ensures Covered(h', a, e) {
      PutCovers(h, b, d, a, e);
    }
  }

  // ---- giving an arena back

  /** list is h's list d without the blocks of arena a. */
  ghost predicate Cleared(h: Heap, a: nat, d: nat, list: seq<nat>)
    requires d < |h.lists|
  {
    NoDup(list) && forall b :: b in list <==> b in h.lists[d] && BlockToArena(b) != a
  }

  function Returned(h: Heap, a: nat, d: nat, list: seq<nat>): Heap
    requires d < |h.lists|
  {
    Heap(h.arenas - {a}, h.lists[d := list], h.live)
  }

  ghost predicate Unused(h: Heap, a: nat, d: nat) {
    InvBut(h, {a}) && d < DESC_CNT && IsSmall(h, a, d) && h.arenas[a].freeCnt == BlocksPerArena(d)
  }

  /** No block of the arena is in use. */
  lemma UnusedIsUnused(h: Heap, a: nat, d: nat, c: nat)
    requires Unused(h, a, d) && c in h.live
    ensures BlockToArena(c) != a
  {
    assert ArenaOk(h, a, {a}) && LiveOk(h, c) && ListOk(h, d);
    CountIsFull(h.lists[d], a, d, BlocksPerArena(d));
    if BlockToArena(c) == a {
      ArenaOfBlock(c, d);
      assert false;
    }
  }

  lemma ReturnedArena(h: Heap, a: nat, d: nat, list: seq<nat>, x: nat)
    requires Unused(h, a, d) && Cleared(h, a, d, list) && x in Returned(h, a, d, list).arenas
    ensures ArenaOk(Returned(h, a, d, list), x, {})
  {
    assert ArenaOk(h, x, {a});
    if IsSmall(h, x, d) {
      forall i: nat | i < BlocksPerArena(d) ensures ArenaToBlock(x, d, i) in list <==> ArenaToBlock(x, d, i) in h.lists[d] {
        BlockOfArena(x, d, i);
      }
      SameCount(h.lists[d], list, x, d, BlocksPerArena(d));
    }
  }

  lemma ReturnedLists(h: Heap, a: nat, d: nat, list: seq<nat>, e: nat)
    requires Unused(h, a, d) && Cleared(h, a, d, list) && e < DESC_CNT
    ensures ListOk(Returned(h, a, d, list), e)
  {
    assert ListOk(h, e) && ListOk(h, d);
    var h' := Returned(h, a, d, list);
    forall x | x in h'.lists[e] ensures Aligned(x, e) && IsSmall(h', BlockToArena(x), e) && x !in h'.live {
      assert x in h.lists[e] && IsSmall(h, BlockToArena(x), e);
    }
  }

  lemma ReturnedCovers(h: Heap, a: nat, d: nat, list: seq<nat>, x: nat, e: nat)
    requires Unused(h, a, d) && Cleared(h, a, d, list) && e < DESC_CNT && IsSmall(Returned(h, a, d, list), x, e)
    ensures Covered(Returned(h, a, d, list), x, e)
  {
    assert IsSmall(h, x, e);
    assert Covered(h, x, e) && ArenaOk(h, x, {a});
    var h' := Returned(h, a, d, list);
    forall i: nat | i < BlocksPerArena(e) ensures ArenaToBlock(x, e, i) in h'.lists[e] || ArenaToBlock(x, e, i) in h'.live {
      BlockOfArena(x, e, i);
    }
  }

  lemma ReturnKeeps(h: Heap, a: nat, d: nat, list: seq<nat>)
    requires Unused(h, a, d) && Cleared(h, a, d, list)
    ensures Inv(Returned(h, a, d, list))
  {
    var h' := Returned(h, a, d, list);
    SameApart(h, h');
    forall x | x in h'.arenas ensures ArenaOk(h', x, {}) {
      ReturnedArena(h, a, d, list, x);
    }
    forall e: nat | e < DESC_CNT ensures ListOk(h', e) {
      ReturnedLists(h, a, d, list, e);
    }
    forall c | c in h'.live ensures LiveOk(h', c) {
      assert LiveOk(h, c);
      UnusedIsUnused(h, a, d, c);
    }
    forall x, e: nat | e < DESC_CNT && IsSmall(h', x, e) ensures Covered(h', x, e) {
      ReturnedCovers(h, a, d, list, x, e);
    }
  }

  /** An arena with a block in use stays. */
  lemma UsedStays(h: Heap, a: nat, d: nat)
    requires InvBut(h, {a}) && d < DESC_CNT && IsSmall(h, a, d) && h.arenas[a].freeCnt != BlocksPerArena(d)
    ensures Inv(h)
  {
    assert ArenaOk(h, a, {a});
    CountIsFull(h.lists[d], a, d, BlocksPerArena(d));
    forall x | x in h.arenas ensures ArenaOk(h, x, {}) {
      assert ArenaOk(h, x, {a});
    }
  }
}
