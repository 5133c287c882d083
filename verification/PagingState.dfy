/**
 * The state that vm/frame.c, vm/page.c, vm/swap.c and userprog/pagedir.c share, as one
 * value; what a process sees through it; and the invariant that keeps eviction invisible.
 */
module PagingState {
  import opened Wrappers
  import opened Storage

  /** A user page of a process. */
  datatype Key = Key(pid: nat, upage: nat)

  /** Supplemental page table entry.  Only file entries use saved_file_pos. */
  datatype Spte =
    | InMemory(writable: bool)
    | InFile(writable: bool, file: nat, pos: nat)
    | InSwap(writable: bool, slot: nat)
    | AllZero(writable: bool)

  /** Page table entry; kpage is the index of the frame in the user pool. */
  datatype Pte = Pte(kpage: nat, present: bool, writable: bool, accessed: bool, dirty: bool)

  /** Frame table entry. */
  datatype Fte = Fte(kpage: nat, key: Key, present: bool, pinned: bool)

  type Files = map<nat, seq<byte>>

  datatype Vm = Vm(
    frames: seq<Page>,
    used: seq<bool>,
    ft: seq<Fte>,
    pt: map<Key, Pte>,
    spt: map<Key, Spte>,
    slots: map<nat, Page>)

  /** What a process is entitled to see at one of its pages. */
  datatype Cell = Cell(page: Page, writable: bool)

  type View = map<Key, Cell>

  predicate Mapped(s: Vm, k: Key) {
    k in s.pt && s.pt[k].present
  }

  /** file_read_at of a whole page, the rest of the frame cleared. */
  function FilePage(files: Files, file: nat, pos: nat): Page {
    if file in files then
      seq(PGSIZE, i requires 0 <= i < PGSIZE => if pos + i < |files[file]| then files[file][pos + i] else 0)
    else
      ZeroPage()
  }

  /** The bytes that stand for page k when it is not in a frame. */
  function Backing(s: Vm, files: Files, e: Spte): Page {
    match e
    case InFile(_, file, pos) => FilePage(files, file, pos)
    case InSwap(_, slot) => if slot in s.slots then s.slots[slot] else ZeroPage()
    case _ => ZeroPage()
  }

  function Contents(s: Vm, files: Files, k: Key): Page
    requires k in s.spt
  {
    if Mapped(s, k) && s.pt[k].kpage < |s.frames| then s.frames[s.pt[k].kpage] else Backing(s, files, s.spt[k])
  }

  function ViewOf(s: Vm, files: Files): View {
    map k | k in s.spt :: Cell(Contents(s, files, k), s.spt[k].writable)
  }

  /** A used frame and its page name each other. */
  predicate FrameOk(s: Vm, f: nat)
    requires f < |s.ft|
  {
    && s.ft[f].present && s.ft[f].kpage == f
    && Mapped(s, s.ft[f].key) && s.pt[s.ft[f].key].kpage == f
  }

  predicate MappedOk(s: Vm, hole: Option<nat>, k: Key)
    requires Mapped(s, k) && |s.frames| == |s.used| == |s.ft|
  {
    var f := s.pt[k].kpage;
    && f < |s.ft| && s.used[f] && hole != Some(f) && s.ft[f].key == k
    && k in s.spt && s.pt[k].writable == s.spt[k].writable
  }

  /** A frame-resident page that would be dropped on eviction equals what would be reloaded. */
  predicate PageOk(s: Vm, files: Files, k: Key)
    requires k in s.spt
  {
    match s.spt[k]
    case InMemory(_) => Mapped(s, k)
    case InSwap(_, slot) => !Mapped(s, k) && slot in s.slots
    case InFile(_, file, pos) =>
      && file in files && pos < |files[file]|
      && (Mapped(s, k) && !s.pt[k].dirty ==> Contents(s, files, k) == FilePage(files, file, pos))
    case AllZero(_) =>
      Mapped(s, k) && !s.pt[k].dirty ==> Contents(s, files, k) == ZeroPage()
  }

  predicate Holds(spt: map<Key, Spte>, k: Key, slot: nat) {
    k in spt && spt[k].InSwap? && spt[k].slot == slot
  }

  /** Two swapped pages never share a slot, and no slot is lost. */
  ghost predicate SlotsOk(spt: map<Key, Spte>, slots: map<nat, Page>) {
    && (forall k, k', slot | Holds(spt, k, slot) && Holds(spt, k', slot) :: k == k')
    && (forall slot | slot in slots :: exists k :: Holds(spt, k, slot))
  }

  /**
   * The invariant.  During a fault one frame, the hole, has been taken from the pool or
   * from its victim and does not belong to any page yet.
   */
  ghost predicate Inv(s: Vm, files: Files, hole: Option<nat>) {
    && |s.frames| == |s.used| == |s.ft|
    && (hole.Some? ==> hole.value < |s.ft| && s.used[hole.value])
    && (forall f: nat | f < |s.ft| && s.used[f] && hole != Some(f) :: FrameOk(s, f))
    && (forall k | Mapped(s, k) :: MappedOk(s, hole, k))
    && (forall k | k in s.spt :: PageOk(s, files, k))
    && SlotsOk(s.spt, s.slots)
  }

  /** Page k is in order in s' and looks as it did in s. */
  predicate PageKept(s: Vm, s': Vm, files: Files, k: Key)
    requires k in s.spt
  {
    && k in s'.spt && PageOk(s', files, k)
    && Contents(s', files, k) == Contents(s, files, k) && s'.spt[k].writable == s.spt[k].writable
  }

  lemma PagesKept(s: Vm, s': Vm, files: Files)
    requires s'.spt.Keys == s.spt.Keys
    requires forall k | k in s.spt :: PageKept(s, s', files, k)
    ensures forall k | k in s'.spt :: PageOk(s', files, k)
    ensures ViewOf(s', files) == ViewOf(s, files)
  {
    forall k | k in s'.spt ensures PageOk(s', files, k) && ViewOf(s', files)[k] == ViewOf(s, files)[k] {
      assert PageKept(s, s', files, k);
    }
  }

  // ---- eviction (vm/frame.c:168-199)

  /** Whether the victim's bytes must be saved before its frame is reused. */
  predicate MustSave(s: Vm, k: Key)
    requires k in s.spt && k in s.pt
  {
    s.spt[k].InMemory? || s.pt[k].dirty
  }

  /** The victim of frame f loses its mapping; slot is where its bytes went, if they were saved. */
  function Evicted(s: Vm, f: nat, slot: Option<nat>): Vm
    requires f < |s.ft| && f < |s.frames| && s.ft[f].key in s.pt && s.ft[f].key in s.spt
  {
    var k := s.ft[f].key;
    var s1 := s.(pt := s.pt[k := s.pt[k].(present := false)]);
    if slot.Some? then
      s1.(spt := s.spt[k := InSwap(s.spt[k].writable, slot.value)], slots := s.slots[slot.value := s.frames[f]])
    else
      s1
  }

  lemma EvictedFrames(s: Vm, files: Files, f: nat, slot: Option<nat>)
    requires Inv(s, files, None) && f < |s.ft| && s.used[f]
    ensures s.ft[f].key in s.pt && s.ft[f].key in s.spt
    ensures var s' := Evicted(s, f, slot);
            && (forall g: nat | g < |s'.ft| && s'.used[g] && g != f :: FrameOk(s', g))
            && (forall k | Mapped(s', k) :: MappedOk(s', Some(f), k))
  {
    assert FrameOk(s, f);
    var v := s.ft[f].key;
    assert MappedOk(s, None, v);
    var s' := Evicted(s, f, slot);
    forall g: nat | g < |s'.ft| && s'.used[g] && g != f ensures FrameOk(s', g) {
      assert FrameOk(s, g);
    }
    forall k | Mapped(s', k) ensures MappedOk(s', Some(f), k) {
      assert Mapped(s, k);
      assert MappedOk(s, None, k);
    }
  }

  lemma EvictedPage(s: Vm, files: Files, f: nat, slot: Option<nat>, k: Key)
    requires Inv(s, files, None) && f < |s.ft| && s.used[f]
    requires s.ft[f].key in s.pt && s.ft[f].key in s.spt && k in s.spt
    requires slot.Some? <==> MustSave(s, s.ft[f].key)
    requires slot.Some? ==> slot.value !in s.slots
    ensures PageKept(s, Evicted(s, f, slot), files, k)
  {
    assert FrameOk(s, f);
    assert PageOk(s, files, k);
    var v := s.ft[f].key;
    assert PageOk(s, files, v);
    if k != v && Mapped(s, k) {
      assert MappedOk(s, None, k);
    }
  }

  lemma EvictedSlots(s: Vm, files: Files, f: nat, slot: Option<nat>)
    requires Inv(s, files, None) && f < |s.ft| && f < |s.frames|
    requires s.ft[f].key in s.pt && s.ft[f].key in s.spt && !s.spt[s.ft[f].key].InSwap?
    requires slot.Some? ==> slot.value !in s.slots
    ensures SlotsOk(Evicted(s, f, slot).spt, Evicted(s, f, slot).slots)
  {
    var s', v := Evicted(s, f, slot), s.ft[f].key;
    forall k, k', r | Holds(s'.spt, k, r) && Holds(s'.spt, k', r) ensures k == k' {
      assert k != v ==> PageOk(s, files, k) && Holds(s.spt, k, r);
      assert k' != v ==> PageOk(s, files, k') && Holds(s.spt, k', r);
    }
    forall r | r in s'.slots ensures exists k :: Holds(s'.spt, k, r) {
      if slot == Some(r) {
        assert Holds(s'.spt, v, r);
      } else {
        var k :| Holds(s.spt, k, r);
        assert Holds(s'.spt, k, r);
      }
    }
  }

  /** Evicting a page changes nothing that any process can see. */
  lemma EvictionIsInvisible(s: Vm, files: Files, f: nat, slot: Option<nat>)
    requires Inv(s, files, None) && f < |s.ft| && s.used[f]
    requires s.ft[f].key in s.pt && s.ft[f].key in s.spt
    requires slot.Some? <==> MustSave(s, s.ft[f].key)
    requires slot.Some? ==> slot.value !in s.slots
    ensures Inv(Evicted(s, f, slot), files, Some(f))
    ensures ViewOf(Evicted(s, f, slot), files) == ViewOf(s, files)
  {
    var s' := Evicted(s, f, slot);
    EvictedFrames(s, files, f, slot);
    assert FrameOk(s, f) && PageOk(s, files, s.ft[f].key);
    EvictedSlots(s, files, f, slot);
    forall k | k in s.spt ensures PageKept(s, s', files, k) {
      EvictedPage(s, files, f, slot, k);
    }
    PagesKept(s, s', files);
  }

  // ---- loading (userprog/exception.c:180-211)

  /** Page k is brought into the hole f. */
  function Loaded(s: Vm, files: Files, k: Key, f: nat): Vm
    requires k in s.spt && f < |s.ft| && f < |s.frames|
  {
    var e := s.spt[k];
    var s1 := s.(
      frames := s.frames[f := Backing(s, files, e)],
      ft := s.ft[f := Fte(f, k, true, s.ft[f].pinned)],
      pt := s.pt[k := Pte(f, true, e.writable, false, false)]);
    if e.InSwap? then
      s1.(spt := s.spt[k := InMemory(e.writable)], slots := s.slots - {e.slot})
    else
      s1
  }

  lemma LoadedFrames(s: Vm, files: Files, k: Key, f: nat)
    requires Inv(s, files, Some(f)) && k in s.spt && !Mapped(s, k)
    ensures var s' := Loaded(s, files, k, f);
            && (forall g: nat | g < |s'.ft| && s'.used[g] :: FrameOk(s', g))
            && (forall j | Mapped(s', j) :: MappedOk(s', None, j))
  {
    var s' := Loaded(s, files, k, f);
    forall g: nat | g < |s'.ft| && s'.used[g] ensures FrameOk(s', g) {
      if g != f {
        assert FrameOk(s, g);
      }
    }
    forall j | Mapped(s', j) ensures MappedOk(s', None, j) {
      if j != k {
        assert Mapped(s, j);
        assert MappedOk(s, Some(f), j);
      }
    }
  }

  lemma LoadedPage(s: Vm, files: Files, k: Key, f: nat, j: Key)
    requires Inv(s, files, Some(f)) && k in s.spt && !Mapped(s, k) && j in s.spt
    ensures PageKept(s, Loaded(s, files, k, f), files, j)
  {
    assert PageOk(s, files, j);
    assert PageOk(s, files, k);
    if j != k && Mapped(s, j) {
      assert MappedOk(s, Some(f), j);
    }
    if j != k && s.spt[j].InSwap? && s.spt[k].InSwap? {
      assert Holds(s.spt, j, s.spt[j].slot) && Holds(s.spt, k, s.spt[k].slot);
    }
  }

  lemma LoadedSlots(s: Vm, files: Files, k: Key, f: nat)
    requires Inv(s, files, Some(f)) && k in s.spt
    ensures SlotsOk(Loaded(s, files, k, f).spt, Loaded(s, files, k, f).slots)
  {
    var s' := Loaded(s, files, k, f);
    forall j, j', r | Holds(s'.spt, j, r) && Holds(s'.spt, j', r) ensures j == j' {
      assert Holds(s.spt, j, r) && Holds(s.spt, j', r);
    }
    forall r | r in s'.slots ensures exists j :: Holds(s'.spt, j, r) {
      var j :| Holds(s.spt, j, r);
      assert Holds(s'.spt, j, r);
    }
  }

  /** Bringing a page back changes nothing that any process can see. */
  lemma LoadIsInvisible(s: Vm, files: Files, k: Key, f: nat)
    requires Inv(s, files, Some(f)) && k in s.spt && !Mapped(s, k)
    ensures Inv(Loaded(s, files, k, f), files, None)
    ensures ViewOf(Loaded(s, files, k, f), files) == ViewOf(s, files)
    ensures Mapped(Loaded(s, files, k, f), k)
  {
    var s' := Loaded(s, files, k, f);
    LoadedFrames(s, files, k, f);
    LoadedSlots(s, files, k, f);
    forall j | j in s.spt ensures PageKept(s, s', files, j) {
      LoadedPage(s, files, k, f, j);
    }
    PagesKept(s, s', files);
  }

  // ---- the other steps

  /** Only accessed bits differ. */
  ghost predicate SameButAccessed(a: map<Key, Pte>, b: map<Key, Pte>) {
    a.Keys == b.Keys && forall k | k in a :: b[k] == a[k].(accessed := b[k].accessed)
  }

  lemma AccessedBitsAreInvisible(s: Vm, s': Vm, files: Files, hole: Option<nat>)
    requires Inv(s, files, hole) && s' == s.(pt := s'.pt) && SameButAccessed(s.pt, s'.pt)
    ensures Inv(s', files, hole) && ViewOf(s', files) == ViewOf(s, files)
  {
    forall f: nat | f < |s'.ft| && s'.used[f] && hole != Some(f) ensures FrameOk(s', f) {
      assert FrameOk(s, f);
    }
    forall k | Mapped(s', k) ensures MappedOk(s', hole, k) {
      assert MappedOk(s, hole, k);
    }
    forall k | k in s.spt ensures PageKept(s, s', files, k) {
      assert PageOk(s, files, k);
    }
    PagesKept(s, s', files);
  }

  /** Pinning and unpinning. */
  function Pinned(s: Vm, f: nat, pin: bool): Vm
    requires f < |s.ft|
  {
    s.(ft := s.ft[f := s.ft[f].(pinned := pin)])
  }

  lemma PinsAreInvisible(s: Vm, files: Files, hole: Option<nat>, f: nat, pin: bool)
    requires Inv(s, files, hole) && f < |s.ft|
    ensures Inv(Pinned(s, f, pin), files, hole) && ViewOf(Pinned(s, f, pin), files) == ViewOf(s, files)
  {
    var s' := Pinned(s, f, pin);
    forall g: nat | g < |s'.ft| && s'.used[g] && hole != Some(g) ensures FrameOk(s', g) {
      assert FrameOk(s, g);
    }
    forall k | Mapped(s', k) ensures MappedOk(s', hole, k) {
      assert Mapped(s, k) && MappedOk(s, hole, k);
    }
    forall k | k in s.spt ensures PageKept(s, s', files, k) {
      assert PageOk(s, files, k);
    }
    PagesKept(s, s', files);
  }

  /** A frame that no page uses may be marked and overwritten. */
  function WithFrame(s: Vm, f: nat, inUse: bool, p: Page): Vm
    requires f < |s.used| && f < |s.frames|
  {
    s.(used := s.used[f := inUse], frames := s.frames[f := p])
  }

  lemma IdleFrameKeepsPages(s: Vm, files: Files, hole: Option<nat>, f: nat, inUse: bool, p: Page)
    requires Inv(s, files, hole) && f < |s.ft|
    requires hole == Some(f) || !s.used[f]
    ensures forall k | k in s.spt :: PageKept(s, WithFrame(s, f, inUse, p), files, k)
  {
    var s' := WithFrame(s, f, inUse, p);
    forall k | k in s.spt ensures PageKept(s, s', files, k) {
      assert PageOk(s, files, k);
      if Mapped(s, k) {
        assert MappedOk(s, hole, k);
      }
    }
  }

  /** Taking a free frame from the pool. */
  lemma TakeIsInvisible(s: Vm, files: Files, f: nat, p: Page)
    requires Inv(s, files, None) && f < |s.ft| && !s.used[f]
    ensures Inv(WithFrame(s, f, true, p), files, Some(f))
    ensures ViewOf(WithFrame(s, f, true, p), files) == ViewOf(s, files)
  {
    var s' := WithFrame(s, f, true, p);
    forall g: nat | g < |s'.ft| && s'.used[g] && g != f ensures FrameOk(s', g) {
      assert FrameOk(s, g);
    }
    forall k | Mapped(s', k) ensures MappedOk(s', Some(f), k) {
      assert MappedOk(s, None, k);
    }
    IdleFrameKeepsPages(s, files, None, f, true, p);
    PagesKept(s, s', files);
  }

  /** Giving the hole back to the pool. */
  lemma FreeIsInvisible(s: Vm, files: Files, f: nat, p: Page)
    requires Inv(s, files, Some(f))
    ensures Inv(WithFrame(s, f, false, p), files, None)
    ensures ViewOf(WithFrame(s, f, false, p), files) == ViewOf(s, files)
  {
    var s' := WithFrame(s, f, false, p);
    forall g: nat | g < |s'.ft| && s'.used[g] ensures FrameOk(s', g) {
      assert FrameOk(s, g);
    }
    forall k | Mapped(s', k) ensures MappedOk(s', None, k) {
      assert MappedOk(s, Some(f), k);
    }
    IdleFrameKeepsPages(s, files, Some(f), f, false, p);
    PagesKept(s, s', files);
  }

  /** A store by user code: the processor sets the accessed and dirty bits. */
  function Stored(s: Vm, k: Key, ofs: nat, b: byte): Vm
    requires Mapped(s, k) && s.pt[k].kpage < |s.frames| && ofs < PGSIZE
  {
    var f := s.pt[k].kpage;
    s.(frames := s.frames[f := s.frames[f][ofs := b]],
       pt := s.pt[k := s.pt[k].(accessed := true, dirty := true)])
  }

  lemma StoreKeepsOthers(s: Vm, files: Files, k: Key, ofs: nat, b: byte, j: Key)
    requires Inv(s, files, None) && Mapped(s, k) && k in s.spt && ofs < PGSIZE && s.pt[k].kpage < |s.frames|
    requires j in s.spt && j != k
    ensures PageKept(s, Stored(s, k, ofs, b), files, j)
  {
    assert PageOk(s, files, j) && MappedOk(s, None, k);
    if Mapped(s, j) {
      assert MappedOk(s, None, j);
    }
  }

  /** A store changes one byte of one page of what processes see. */
  lemma StoreIsLocal(s: Vm, files: Files, k: Key, ofs: nat, b: byte)
    requires Inv(s, files, None) && Mapped(s, k) && ofs < PGSIZE
    ensures k in s.spt && s.pt[k].kpage < |s.frames|
    ensures Inv(Stored(s, k, ofs, b), files, None)
    ensures var c := ViewOf(s, files)[k];
            ViewOf(Stored(s, k, ofs, b), files) == ViewOf(s, files)[k := c.(page := c.page[ofs := b])]
  {
    assert MappedOk(s, None, k);
    var s' := Stored(s, k, ofs, b);
    forall g: nat | g < |s'.ft| && s'.used[g] ensures FrameOk(s', g) {
      assert FrameOk(s, g);
    }
    forall j | Mapped(s', j) ensures MappedOk(s', None, j) {
      assert Mapped(s, j) && MappedOk(s, None, j);
    }
    forall j | j in s.spt && j != k ensures PageKept(s, s', files, j) {
      StoreKeepsOthers(s, files, k, ofs, b, j);
    }
    assert PageOk(s, files, k);
    forall j | j in s'.spt ensures PageOk(s', files, j) {
      assert j != k ==> PageKept(s, s', files, j);
    }
    OnlyOnePageChanged(s, s', files, k);
  }

  lemma OnlyOnePageChanged(s: Vm, s': Vm, files: Files, k: Key)
    requires s'.spt.Keys == s.spt.Keys + {k}
    requires forall j | j in s.spt && j != k :: PageKept(s, s', files, j)
    ensures ViewOf(s', files) == ViewOf(s, files)[k := Cell(Contents(s', files, k), s'.spt[k].writable)]
  {
    hide PageOk, Backing;
    var v, v' := ViewOf(s, files), ViewOf(s', files);
    forall j | j in s'.spt && j != k ensures v'[j] == v[j] {
      assert PageKept(s, s', files, j);
    }
  }

  /** An entry that is not in swap, put in the place of one that was not either, leaves the slots as they were. */
  lemma NewKeySlots(spt: map<Key, Spte>, slots: map<nat, Page>, k: Key, e: Spte)
    requires SlotsOk(spt, slots) && !(k in spt && spt[k].InSwap?) && !e.InSwap?
    ensures SlotsOk(spt[k := e], slots)
  {
    var spt' := spt[k := e];
    forall j, j', r | Holds(spt', j, r) && Holds(spt', j', r) ensures j == j' {
      assert Holds(spt, j, r) && Holds(spt, j', r);
    }
    forall r | r in slots ensures exists j :: Holds(spt', j, r) {
      var j :| Holds(spt, j, r);
      assert Holds(spt', j, r);
    }
  }

  /** spt_set of a page the process did not have: nothing is loaded yet. */
  function WithEntry(s: Vm, k: Key, e: Spte): Vm {
    s.(spt := s.spt[k := e])
  }

  lemma NewEntry(s: Vm, files: Files, k: Key, e: Spte)
    requires Inv(s, files, None) && k !in s.spt
    requires e.AllZero? || (e.InFile? && e.file in files && e.pos < |files[e.file]|)
    ensures Inv(WithEntry(s, k, e), files, None)
    ensures ViewOf(WithEntry(s, k, e), files) == ViewOf(s, files)[k := Cell(Backing(s, files, e), e.writable)]
  {
    var s' := WithEntry(s, k, e);
    NewKeySlots(s.spt, s.slots, k, e);
    assert Mapped(s, k) ==> MappedOk(s, None, k);
    forall g: nat | g < |s'.ft| && s'.used[g] ensures FrameOk(s', g) {
      assert FrameOk(s, g);
    }
    forall j | Mapped(s', j) ensures MappedOk(s', None, j) {
      assert MappedOk(s, None, j);
    }
    forall j | j in s.spt ensures PageKept(s, s', files, j) {
      assert PageOk(s, files, j);
    }
    forall j | j in s'.spt ensures PageOk(s', files, j) {
      assert j != k ==> PageKept(s, s', files, j);
    }
    OnlyOnePageChanged(s, s', files, k);
  }

  /** A new stack page takes the hole as it finds it (userprog/exception.c:227-235). */
  function Grown(s: Vm, k: Key, f: nat): Vm
    requires f < |s.ft|
  {
    s.(ft := s.ft[f := Fte(f, k, true, s.ft[f].pinned)],
       pt := s.pt[k := Pte(f, true, true, false, false)],
       spt := s.spt[k := AllZero(true)])
  }

  /** In the place of one that was, it leaves a slot that no page holds. */
  lemma LostSlot(spt: map<Key, Spte>, slots: map<nat, Page>, k: Key, e: Spte)
    requires SlotsOk(spt, slots) && k in spt && spt[k].InSwap? && spt[k].slot in slots && !e.InSwap?
    ensures !SlotsOk(spt[k := e], slots)
  {
    var slot, spt' := spt[k].slot, spt[k := e];
    assert Holds(spt, k, slot);
    forall j: Key ensures !Holds(spt', j, slot) {
      assert Holds(spt', j, slot) ==> Holds(spt, j, slot);
    }
  }

  lemma GrownFrames(s: Vm, files: Files, k: Key, f: nat)
    requires Inv(s, files, Some(f)) && !Mapped(s, k)
    ensures var s' := Grown(s, k, f);
            && (forall g: nat | g < |s'.ft| && s'.used[g] :: FrameOk(s', g))
            && (forall j | Mapped(s', j) :: MappedOk(s', None, j))
  {
    var s' := Grown(s, k, f);
    forall g: nat | g < |s'.ft| && s'.used[g] ensures FrameOk(s', g) {
      if g != f {
        assert FrameOk(s, g);
      }
    }
    forall j | Mapped(s', j) ensures MappedOk(s', None, j) {
      if j != k {
        assert Mapped(s, j);
        assert MappedOk(s, Some(f), j);
      }
    }
  }

  /** The bytes of page k are in a swap slot. */
  predicate HasSlot(s: Vm, k: Key) {
    k in s.spt && s.spt[k].InSwap?
  }

  lemma UnmappedWithoutEntry(s: Vm, files: Files, hole: Option<nat>, k: Key)
    requires Inv(s, files, hole) && k !in s.spt
    ensures !Mapped(s, k)
  {
    assert Mapped(s, k) ==> MappedOk(s, hole, k);
  }

  /**
   * The new page shows the bytes the frame held.  The invariant survives exactly when they are zero and the page did not
   * have a swap slot before, which would be lost.
   */
  lemma GrowthShowsTheFrame(s: Vm, files: Files, k: Key, f: nat)
    requires Inv(s, files, Some(f)) && !Mapped(s, k)
    ensures ViewOf(Grown(s, k, f), files) == ViewOf(s, files)[k := Cell(s.frames[f], true)]
    ensures Mapped(Grown(s, k, f), k)
    ensures Inv(Grown(s, k, f), files, None) <==> s.frames[f] == ZeroPage() && !HasSlot(s, k)
  {
    var s' := Grown(s, k, f);
    if HasSlot(s, k) {
      assert PageOk(s, files, k);
      LostSlot(s.spt, s.slots, k, AllZero(true));
    } else {
      NewKeySlots(s.spt, s.slots, k, AllZero(true));
    }
    GrownFrames(s, files, k, f);
    forall j | j in s.spt && j != k ensures PageKept(s, s', files, j) {
      assert PageOk(s, files, j);
      if Mapped(s, j) {
        assert MappedOk(s, Some(f), j);
      }
    }
    assert PageOk(s', files, k) <==> s.frames[f] == ZeroPage();
    forall j | j in s'.spt && j != k ensures PageOk(s', files, j) {
      assert PageKept(s, s', files, j);
    }
    OnlyOnePageChanged(s, s', files, k);
  }
}
