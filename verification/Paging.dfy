/**
 * Demand paging: the clock eviction of vm/frame.c and the page-fault handler of
 * userprog/exception.c, each fault taken as one step.
 */
module Paging {
  import opened Wrappers
  import opened Storage
  import opened Bitmaps
  import opened SwapArea
  import opened PagingState

  // ---- the clock

  /** Steps the hand needs to go from hand to frame f in a table of n frames. */
  function Distance(hand: nat, n: nat, f: nat): nat
    requires hand < n && f < n
  {
    if f >= hand then f - hand else f - hand + n
  }

  predicate Accessed(ft: seq<Fte>, pt: map<Key, Pte>, f: nat)
    requires f < |ft|
  {
    ft[f].key in pt && pt[ft[f].key].accessed
  }

  /** f may be chosen on the first trip round the clock. */
  predicate Idle(ft: seq<Fte>, pt: map<Key, Pte>, f: nat)
    requires f < |ft|
  {
    !ft[f].pinned && !Accessed(ft, pt, f)
  }

  /**
   * Second chance: the first unpinned frame not accessed since the hand last passed it or,
   * when every unpinned frame was accessed, the first unpinned frame.
   */
  ghost predicate IsSecondChance(ft: seq<Fte>, pt: map<Key, Pte>, hand: nat, v: nat)
    requires hand < |ft|
  {
    && v < |ft| && !ft[v].pinned
    && (if exists f: nat | f < |ft| :: Idle(ft, pt, f)
        then Idle(ft, pt, v) &&
             forall f: nat | f < |ft| && Idle(ft, pt, f) :: Distance(hand, |ft|, v) <= Distance(hand, |ft|, f)
        else forall f: nat | f < |ft| && !ft[f].pinned :: Distance(hand, |ft|, v) <= Distance(hand, |ft|, f))
  }

  /** Distinct frames hold distinct pages, each with a page table entry. */
  ghost predicate FramesHoldPages(ft: seq<Fte>, pt: map<Key, Pte>) {
    && (forall f: nat | f < |ft| :: ft[f].key in pt)
    && (forall f: nat, g: nat | f < |ft| && g < |ft| && f != g :: ft[f].key != ft[g].key)
  }

  /** Where the hand stands, and what it has done, after i steps from hand. */
  ghost predicate ClockInv(ft: seq<Fte>, pt0: map<Key, Pte>, pt: map<Key, Pte>, hand: nat, i: nat, idx: nat) {
    var n := |ft|;
    && hand < n && idx < n && i <= 2 * n && SameButAccessed(pt0, pt) && FramesHoldPages(ft, pt)
    && Distance(hand, n, idx) == (if i < n then i else if i < 2 * n then i - n else 0)
    && (forall f: nat | f < n :: Accessed(ft, pt, f) == (Accessed(ft, pt0, f) && Distance(hand, n, f) >= i))
    && (forall f: nat | f < n && Distance(hand, n, f) < i && !ft[f].pinned :: Accessed(ft, pt0, f))
    && (forall f: nat | f < n && Distance(hand, n, f) < i - n :: ft[f].pinned)
  }

  lemma ClockStep(ft: seq<Fte>, pt0: map<Key, Pte>, pt: map<Key, Pte>, pt': map<Key, Pte>,
                  hand: nat, i: nat, idx: nat)
    requires ClockInv(ft, pt0, pt, hand, i, idx) && i < 2 * |ft| && !Idle(ft, pt, idx)
    requires pt' == if Accessed(ft, pt, idx) then pt[ft[idx].key := pt[ft[idx].key].(accessed := false)] else pt
    ensures ClockInv(ft, pt0, pt', hand, i + 1, if idx == |ft| - 1 then 0 else idx + 1)
  {
    var n := |ft|;
    forall f: nat | f < n
      ensures Accessed(ft, pt', f) == (Accessed(ft, pt0, f) && Distance(hand, n, f) >= i + 1)
    {
      assert f != idx ==> Distance(hand, n, f) != Distance(hand, n, idx);
      assert f != idx ==> Accessed(ft, pt', f) == Accessed(ft, pt, f);
    }
    forall f: nat | f < n && Distance(hand, n, f) < i + 1 && !ft[f].pinned ensures Accessed(ft, pt0, f) {
      assert f != idx ==> Distance(hand, n, f) != Distance(hand, n, idx);
    }
    forall f: nat | f < n && Distance(hand, n, f) < i + 1 - n ensures ft[f].pinned {
      assert f != idx ==> Distance(hand, n, f) != Distance(hand, n, idx);
    }
  }

  lemma ClockFound(ft: seq<Fte>, pt0: map<Key, Pte>, pt: map<Key, Pte>, hand: nat, i: nat, idx: nat)
    requires ClockInv(ft, pt0, pt, hand, i, idx) && i < 2 * |ft| && Idle(ft, pt, idx)
    ensures IsSecondChance(ft, pt0, hand, idx)
  {
  }

  /** The hand stops before it comes to frame f. */
  ghost predicate Spared(ft: seq<Fte>, pt: map<Key, Pte>, hand: nat, f: nat)
    requires hand < |ft| && f < |ft|
  {
    exists v: nat | v < |ft| && Idle(ft, pt, v) :: Distance(hand, |ft|, v) < Distance(hand, |ft|, f)
  }

  /** The hand has cleared the accessed bits of the frames it passed, and no others. */
  lemma ClockSwept(ft: seq<Fte>, pt0: map<Key, Pte>, pt: map<Key, Pte>, hand: nat, i: nat, idx: nat)
    requires ClockInv(ft, pt0, pt, hand, i, idx) && (i == 2 * |ft| || Idle(ft, pt, idx))
    ensures forall f: nat | f < |ft| :: Accessed(ft, pt, f) <==> Accessed(ft, pt0, f) && Spared(ft, pt0, hand, f)
  {
    var n := |ft|;
    forall f: nat | f < n && Accessed(ft, pt0, f) ensures Accessed(ft, pt, f) <==> Spared(ft, pt0, hand, f) {
      if i < n && Distance(hand, n, f) > i {
        assert Idle(ft, pt0, idx);
      }
    }
  }

  ghost predicate HasFree(used: seq<bool>) {
    exists f: nat | f < |used| :: !used[f]
  }

  ghost predicate AllPinned(ft: seq<Fte>) {
    forall f: nat | f < |ft| :: ft[f].pinned
  }

  lemma FirstFree(used: seq<bool>, idx: Option<nat>)
    requires IsFirstRun(used, 0, 1, false, idx)
    ensures idx.Some? <==> HasFree(used)
    ensures idx.Some? ==> idx.value < |used| && !used[idx.value]
    ensures idx.Some? ==> Filled(used, idx.value, 1, true) == used[idx.value := true]
  {
    if idx.Some? {
      assert used[idx.value] == false;
    } else {
      forall f: nat | f < |used| ensures used[f] {
        assert !AllAre(used, f, 1, false);
      }
    }
  }

  lemma NoneIsFree(used: seq<bool>, f: nat)
    requires !HasFree(used) && f < |used|
    ensures used[f]
  {
  }

  lemma AllFramesHoldPages(s: Vm, files: Files)
    requires Inv(s, files, None) && !HasFree(s.used)
    ensures FramesHoldPages(s.ft, s.pt)
  {
    forall f: nat | f < |s.ft| ensures s.ft[f].key in s.pt && s.pt[s.ft[f].key].kpage == f {
      assert s.used[f] && FrameOk(s, f);
    }
  }

  ghost predicate SwapIsFull(n: nat, slots: map<nat, Page>) {
    forall s: nat | IsSlot(n, s) :: s in slots
  }

  /** Pages that were out of memory stay where they are. */
  ghost predicate KeepsUnmapped(s: Vm, s': Vm) {
    forall k | k in s.spt && !Mapped(s, k) :: k in s'.spt && s'.spt[k] == s.spt[k] && !Mapped(s', k)
  }

  /** Which frames are pinned. */
  function Pins(ft: seq<Fte>): (r: seq<bool>)
    ensures |r| == |ft|
  {
    seq(|ft|, f requires 0 <= f < |ft| => ft[f].pinned)
  }

  /** Loading page k has pinned its frame if the kernel wanted it; every other pin is as it was. */
  predicate PinnedFor(s: Vm, s': Vm, k: Key, user: bool) {
    && Mapped(s', k) && s'.pt[k].kpage < |s.ft|
    && Pins(s'.ft) == if user then Pins(s.ft) else Pins(s.ft)[s'.pt[k].kpage := true]
  }

  /** Page k is in frame f, which is pinned. */
  predicate HeldIn(s: Vm, k: Key, f: nat) {
    Mapped(s, k) && s.pt[k].kpage == f < |s.ft| && s.ft[f].pinned
  }

  /** Every page in a pinned frame stays there, except in the given frames. */
  ghost predicate HoldsPinned(s: Vm, s': Vm, except: set<nat>) {
    forall k, f: nat | HeldIn(s, k, f) && f !in except :: HeldIn(s', k, f)
  }

  /** A load after a frame was obtained for it. */
  lemma PinsThrough(s: Vm, s1: Vm, s2: Vm, k: Key, user: bool)
    requires s1.ft == s.ft && HoldsPinned(s, s1, {}) && PinnedFor(s1, s2, k, user) && HoldsPinned(s1, s2, {})
    ensures PinnedFor(s, s2, k, user) && HoldsPinned(s, s2, {})
  {
  }

  /** Pages stay where they are when only bits of their entries change. */
  lemma HoldsStill(s: Vm, s1: Vm, s2: Vm)
    requires s1 == s || HoldsPinned(s, s1, {})
    requires s2.ft == s1.ft && forall k | Mapped(s1, k) :: Mapped(s2, k) && s2.pt[k].kpage == s1.pt[k].kpage
    ensures HoldsPinned(s, s2, {})
  {
  }

  lemma HoldsOn(s: Vm, s1: Vm, s2: Vm)
    requires HoldsPinned(s, s1, {}) && HoldsPinned(s1, s2, {})
    ensures HoldsPinned(s, s2, {})
  {
  }

  lemma PinnedForStill(s: Vm, s1: Vm, s2: Vm, k: Key, user: bool)
    requires PinnedFor(s, s1, k, user) && s2.ft == s1.ft && Mapped(s2, k) && s2.pt[k].kpage == s1.pt[k].kpage
    ensures PinnedFor(s, s2, k, user)
  {
  }

  /** In s' at most n more frames and n more swap slots are in use than in s. */
  ghost predicate Drawn(s: Vm, s': Vm, n: nat) {
    |FreeIn(s.used)| <= |FreeIn(s'.used)| + n && |s'.slots| <= |s.slots| + n
  }

  lemma DrawnStill(s0: Vm, s1: Vm, s2: Vm, n: nat)
    requires (s1 == s0 || Drawn(s0, s1, n)) && s2.used == s1.used && s2.slots == s1.slots
    ensures Drawn(s0, s2, n)
  {
  }

  lemma DrawnFewer(s0: Vm, s1: Vm, s2: Vm, n: nat)
    requires Drawn(s0, s1, n) && s2.used == s1.used && |s2.slots| <= |s1.slots|
    ensures Drawn(s0, s2, n)
  {
  }

  lemma DrawnMore(s0: Vm, s1: Vm, s2: Vm, n: nat)
    requires Drawn(s0, s1, n) && Drawn(s1, s2, 1)
    ensures Drawn(s0, s2, n + 1)
  {
  }

  lemma DrawFrame(used: seq<bool>, f: nat)
    requires f < |used|
    ensures |FreeIn(used)| <= |FreeIn(used[f := true])| + 1
  {
    assert FreeIn(used) - {f} == FreeIn(used[f := true]);
  }

  lemma DrawSlot(slots: map<nat, Page>, slot: nat, page: Page)
    ensures |slots[slot := page]| <= |slots| + 1
  {
    assert slots[slot := page].Keys == slots.Keys + {slot};
    assert |slots.Keys + {slot}| <= |slots.Keys| + 1;
  }

  lemma EvictionDraws(s: Vm, f: nat, slot: Option<nat>)
    requires f < |s.ft| && f < |s.frames| && s.ft[f].key in s.pt && s.ft[f].key in s.spt && Mapped(s, s.ft[f].key)
    ensures |Evicted(s, f, slot).slots| <= |s.slots| + 1 && KeepsUnmapped(s, Evicted(s, f, slot))
  {
    if slot.Some? {
      DrawSlot(s.slots, slot.value, s.frames[f]);
    }
  }

  /** What the frame table says about a frame in use. */
  lemma FrameHolds(s: Vm, files: Files, f: nat)
    requires Inv(s, files, None) && f < |s.ft| && s.used[f]
    ensures s.ft[f].key in s.pt && s.ft[f].key in s.spt && s.ft[f].kpage == f < |s.frames| && Mapped(s, s.ft[f].key)
    ensures s.pt[s.ft[f].key].kpage == f
  {
    assert FrameOk(s, f);
    assert MappedOk(s, None, s.ft[f].key);
  }

  /** Taking the page of an unpinned frame away moves no page of a pinned one. */
  lemma EvictionHolds(s: Vm, f: nat, slot: Option<nat>)
    requires f < |s.ft| && f < |s.frames| && s.ft[f].key in s.pt && s.ft[f].key in s.spt
    requires !s.ft[f].pinned && s.pt[s.ft[f].key].kpage == f
    ensures HoldsPinned(s, Evicted(s, f, slot), {})
  {
  }

  /** Nor does giving frame f to page k, with the pin of a kernel access. */
  lemma PlacingHolds(s: Vm, s': Vm, k: Key, f: nat, e: Pte, user: bool)
    requires f < |s.ft| && !Mapped(s, k) && e.kpage == f && e.present
    requires s'.pt == s.pt[k := e] && s'.ft == s.ft[f := Fte(f, k, true, !user || s.ft[f].pinned)]
    ensures PinnedFor(s, s', k, user) && HoldsPinned(s, s', {})
  {
  }

  lemma HoleIsAFrame(s: Vm, files: Files, f: nat)
    requires Inv(s, files, Some(f))
    ensures f < |s.used| == |s.ft| == |s.frames|
  {
  }

  lemma EntryIsOk(s: Vm, files: Files, k: Key, f: nat)
    requires Inv(s, files, Some(f)) && k in s.spt
    ensures PageOk(s, files, k) && f < |s.ft| && f < |s.frames|
  {
  }

  lemma ReturnSlot(slots: map<nat, Page>, slot: nat)
    ensures |slots - {slot}| <= |slots|
  {
    assert (slots - {slot}).Keys == slots.Keys - {slot};
    assert |slots.Keys - {slot}| <= |slots.Keys|;
  }

  /** The first m slots. */
  ghost function FirstSlots(m: nat): set<nat> {
    if m == 0 then {} else FirstSlots(m - 1) + {SLOT_CNT * (m - 1)}
  }

  lemma {:induction false} CountSlots(m: nat, n: nat)
    requires SLOT_CNT * m <= n
    ensures |FirstSlots(m)| == m && forall s | s in FirstSlots(m) :: IsSlot(n, s) && s < SLOT_CNT * m
  {
    if m > 0 {
      CountSlots(m - 1, n);
    }
  }

  /** A full swap device holds as many pages as it has room for. */
  lemma FullSwap(n: nat, slots: map<nat, Page>)
    requires SwapIsFull(n, slots)
    ensures n / SLOT_CNT <= |slots|
  {
    CountSlots(n / SLOT_CNT, n);
    assert FirstSlots(n / SLOT_CNT) <= slots.Keys;
    Subset(FirstSlots(n / SLOT_CNT), slots.Keys);
  }

  lemma Subset(a: set<nat>, b: set<nat>)
    requires a <= b
    ensures |a| <= |b|
  {
    assert b == a + (b - a);
  }

  /** The second-chance victim is unique. */
  lemma VictimIsUnique(ft: seq<Fte>, pt: map<Key, Pte>, hand: nat, v: nat, w: nat)
    requires hand < |ft| && IsSecondChance(ft, pt, hand, v) && IsSecondChance(ft, pt, hand, w)
    ensures v == w
  {
    assert Distance(hand, |ft|, v) == Distance(hand, |ft|, w);
  }

  /** The page in frame f has to be saved, and the swap device of n sectors has no room for it. */
  ghost predicate CannotSave(s: Vm, f: nat, n: nat) {
    && f < |s.ft| && s.ft[f].key in s.spt && s.ft[f].key in s.pt
    && MustSave(s, s.ft[f].key) && SwapIsFull(n, s.slots)
  }

  /** No frame is free, and the page of the clock's victim cannot be saved. */
  ghost predicate Unsavable(s: Vm, hand: nat, n: nat)
    requires hand < |s.ft|
  {
    !HasFree(s.used) && exists v: nat | v < |s.ft| :: IsSecondChance(s.ft, s.pt, hand, v) && CannotSave(s, v, n)
  }

  /** No frame is free, and the frame of the clock's victim is not all zeros. */
  ghost predicate Stale(s: Vm, hand: nat)
    requires hand < |s.ft|
  {
    !HasFree(s.used) && exists v: nat | v < |s.ft| && v < |s.frames| :: IsSecondChance(s.ft, s.pt, hand, v) && s.frames[v] != ZeroPage()
  }

  /** What these come to for the frame that the clock finds. */
  lemma VictimDecides(s: Vm, hand: nat, n: nat, v: nat)
    requires hand < |s.ft| == |s.frames| && IsSecondChance(s.ft, s.pt, hand, v) && !HasFree(s.used)
    ensures Unsavable(s, hand, n) <==> CannotSave(s, v, n)
    ensures Stale(s, hand) <==> s.frames[v] != ZeroPage()
  {
    forall w: nat | w < |s.ft| && IsSecondChance(s.ft, s.pt, hand, w) ensures w == v {
      VictimIsUnique(s.ft, s.pt, hand, v, w);
    }
  }

  lemma NoVictim(s: Vm, hand: nat, n: nat)
    requires hand < |s.ft| && AllPinned(s.ft)
    ensures !Unsavable(s, hand, n) && !Stale(s, hand)
  {
  }

  datatype AllocResult = Frame(kpage: nat) | NoFrame | SwapFull

  /** Replaced: the load failed, but then the page was taken for a new page of the stack. */
  datatype FaultResult = Resumed | Killed | Panicked | Replaced

  // ---- memory without paging, the reference

  /** An access to a page the process has: a store to a read-only page kills the process. */
  function Accessing(m: View, k: Key, ofs: nat, write: Option<byte>): (View, Option<byte>)
    requires k in m && ofs < PGSIZE
  {
    match write
    case Some(b) =>
      if m[k].writable then (m[k := m[k].(page := m[k].page[ofs := b])], write) else (m, None)
    case None =>
      (m, Some(m[k].page[ofs]))
  }

  /** Any access: an address near the stack pointer extends the stack by a page of zeros. */
  function Touching(m: View, k: Key, ofs: nat, write: Option<byte>, stackOk: bool): (View, Option<byte>)
    requires ofs < PGSIZE
  {
    if k in m then Accessing(m, k, ofs, write)
    else if stackOk then Accessing(m[k := Cell(ZeroPage(), true)], k, ofs, write)
    else (m, None)
  }

  /** What happens to the system, in any order. */
  datatype Event =
    | Access(key: Key, ofs: nat, write: Option<byte>, user: bool, stackOk: bool, ptOk: bool, retryOk: bool)
    | Map(key: Key, entry: Spte)
    | Pin(frame: nat, pin: bool)

  predicate Mappable(files: Files, e: Spte) {
    e.AllZero? || (e.InFile? && e.file in files && e.pos < |files[e.file]|)
  }

  predicate WellFormed(files: Files, e: Event) {
    match e
    case Access(_, ofs, _, _, _, _, _) => ofs < PGSIZE
    case Map(_, entry) => Mappable(files, entry)
    case Pin(f, _) => true
  }

  predicate AllWellFormed(files: Files, events: seq<Event>) {
    forall i | 0 <= i < |events| :: WellFormed(files, events[i])
  }

  function Mapping(m: View, files: Files, k: Key, e: Spte): View
    requires Mappable(files, e)
  {
    if k in m then m
    else if e.InFile? then m[k := Cell(FilePage(files, e.file, e.pos), e.writable)]
    else m[k := Cell(ZeroPage(), e.writable)]
  }

  function Reference(m: View, files: Files, e: Event): (View, Option<byte>)
    requires WellFormed(files, e)
  {
    match e
    case Access(k, ofs, write, _, stackOk, _, _) => Touching(m, k, ofs, write, stackOk)
    case Map(k, entry) => (Mapping(m, files, k, entry), None)
    case Pin(_, _) => (m, None)
  }

  function ReferenceRun(m: View, files: Files, events: seq<Event>): (r: (View, seq<Option<byte>>))
    requires AllWellFormed(files, events)
    ensures |r.1| == |events|
  {
    if events == [] then (m, [])
    else
      var before := ReferenceRun(m, files, events[..|events| - 1]);
      var step := Reference(before.0, files, events[|events| - 1]);
      (step.0, before.1 + [step.1])
  }

  lemma MappedHasEntry(s: Vm, files: Files, k: Key)
    requires Inv(s, files, None) && Mapped(s, k)
    ensures k in s.spt
  {
    assert MappedOk(s, None, k);
  }

  /** Getting a frame neither maps a page nor moves one that is out of memory. */
  lemma StillUnmapped(s: Vm, s': Vm, files: Files, hole: Option<nat>, k: Key)
    requires Inv(s', files, hole) && KeepsUnmapped(s, s') && !Mapped(s, k) && ViewOf(s', files) == ViewOf(s, files)
    ensures !Mapped(s', k) && HasSlot(s', k) == HasSlot(s, k)
  {
    assert k in ViewOf(s, files) <==> k in ViewOf(s', files);
    if k !in s.spt {
      UnmappedWithoutEntry(s', files, hole, k);
    }
  }

  lemma NoVictimToSave(s: Vm, hand: nat, n: nat)
    requires hand < |s.ft| && (HasFree(s.used) || AllPinned(s.ft))
    ensures !Unsavable(s, hand, n)
  {
    if AllPinned(s.ft) {
      NoVictim(s, hand, n);
    }
  }

  lemma ReferenceStep(m: View, files: Files, events: seq<Event>, i: nat)
    requires i < |events| && AllWellFormed(files, events)
    ensures AllWellFormed(files, events[..i]) && AllWellFormed(files, events[..i + 1]) && WellFormed(files, events[i])
    ensures var before := ReferenceRun(m, files, events[..i]);
            var step := Reference(before.0, files, events[i]);
            ReferenceRun(m, files, events[..i + 1]) == (step.0, before.1 + [step.1])
  {
    assert events[..i + 1][..i] == events[..i];
  }

  /** A store as memory without paging shows it. */
  lemma StoreShows(s: Vm, files: Files, k: Key, ofs: nat, b: byte)
    requires Inv(s, files, None) && Mapped(s, k) && s.pt[k].writable && ofs < PGSIZE
    ensures k in s.spt && s.pt[k].kpage < |s.frames| && k in ViewOf(s, files)
    ensures Inv(Stored(s, k, ofs, b), files, None)
    ensures (ViewOf(Stored(s, k, ofs, b), files), Some(b)) == Accessing(ViewOf(s, files), k, ofs, Some(b))
  {
    assert MappedOk(s, None, k);
    StoreIsLocal(s, files, k, ofs, b);
  }

  /** What giving a frame to a new stack page does, with the pin of a kernel access. */
  lemma StackInstalled(s0: Vm, files: Files, k: Key, f: nat, user: bool)
    requires Inv(s0, files, Some(f)) && !Mapped(s0, k)
    ensures f < |s0.ft| && f < |s0.frames|
    ensures var s := Grown(if user then s0 else Pinned(s0, f, true), k, f);
            && ViewOf(s, files) == ViewOf(s0, files)[k := Cell(s0.frames[f], true)] && Mapped(s, k)
            && (Inv(s, files, None) <==> s0.frames[f] == ZeroPage() && !HasSlot(s0, k))
  {
    PinsAreInvisible(s0, files, Some(f), f, true);
    GrowthShowsTheFrame(if user then s0 else Pinned(s0, f, true), files, k, f);
  }

  /** Why a run of the paged system cannot follow the reference any further. */
  datatype Outcome = Continues | AllFramesPinned | SwapExhausted | NoPageTable | StaleStack

  /** An access to page k cannot go on without a frame. */
  predicate NeedsFrame(s: Vm, k: Key, stackOk: bool) {
    !Mapped(s, k) && (k in s.spt || stackOk)
  }

  /** How an access to page k ends, told from the state before: hand is the hand of the clock, n the size of the swap device. */
  ghost function EndOf(s: Vm, hand: nat, n: nat, k: Key, stackOk: bool, ptOk: bool): Outcome
    requires hand < |s.ft|
  {
    if !NeedsFrame(s, k, stackOk) then Continues
    else if Unsavable(s, hand, n) then SwapExhausted
    else if !ptOk then NoPageTable
    else if !HasFree(s.used) && AllPinned(s.ft) then AllFramesPinned
    else if k !in s.spt && Stale(s, hand) then StaleStack
    else Continues
  }

  ghost function EventEnd(s: Vm, hand: nat, n: nat, e: Event): Outcome
    requires hand < |s.ft|
  {
    if e.Access? then EndOf(s, hand, n, e.key, e.stackOk, e.ptOk) else Continues
  }

  /** With a free frame and a page table, every event goes on. */
  lemma FreeFrameGoesOn(s: Vm, hand: nat, n: nat, e: Event)
    requires hand < |s.ft| && HasFree(s.used) && (e.Access? ==> e.ptOk)
    ensures EventEnd(s, hand, n, e) == Continues
  {
  }

  predicate AllTables(events: seq<Event>) {
    forall i | 0 <= i < |events| && events[i].Access? :: events[i].ptOk
  }

  /** Fewer events than there were free frames do not run out of them. */
  lemma EnoughFrames(s0: Vm, s: Vm, hand: nat, n: nat, e: Event, i: nat)
    requires hand < |s.ft| && Drawn(s0, s, i) && i < |FreeIn(s0.used)| && (e.Access? ==> e.ptOk)
    ensures EventEnd(s, hand, n, e) == Continues
  {
    assert FreeIn(s.used) != {};
    var f :| f in FreeIn(s.used);
    assert !s.used[f];
    FreeFrameGoesOn(s, hand, n, e);
  }

  /** Fewer events than there were free swap slots do not fill the swap device. */
  lemma EnoughSwap(s0: Vm, s: Vm, hand: nat, n: nat, e: Event, i: nat)
    requires hand < |s.ft| && Drawn(s0, s, i) && |s0.slots| + i < n / SLOT_CNT
    ensures EventEnd(s, hand, n, e) != SwapExhausted
  {
    if SwapIsFull(n, s.slots) {
      FullSwap(n, s.slots);
    }
  }

  /** A run that stops at event i was too long for the free frames or lacked a page table, or for the swap slots. */
  lemma StopsAt(s0: Vm, s: Vm, hand: nat, n: nat, events: seq<Event>, i: nat)
    requires hand < |s.ft| && Drawn(s0, s, i) && i < |events| && EventEnd(s, hand, n, events[i]) != Continues
    ensures |events| > |FreeIn(s0.used)| || !AllTables(events)
    ensures EventEnd(s, hand, n, events[i]) == SwapExhausted ==> |s0.slots| + |events| > n / SLOT_CNT
  {
    hide EventEnd, FreeIn;
    if |events| <= |FreeIn(s0.used)| && AllTables(events) {
      EnoughFrames(s0, s, hand, n, events[i], i);
    }
    if |s0.slots| + |events| <= n / SLOT_CNT {
      EnoughSwap(s0, s, hand, n, events[i], i);
    }
  }

  /** What an event does to the pins. */
  predicate PinStep(s: Vm, s': Vm, e: Event) {
    match e
    case Access(k, _, _, user, stackOk, _, _) =>
      if NeedsFrame(s, k, stackOk) then PinnedFor(s, s', k, user) else Pins(s'.ft) == Pins(s.ft)
    case Map(_, _) => Pins(s'.ft) == Pins(s.ft)
    case Pin(f, pin) => Pins(s'.ft) == if f < |s.ft| then Pins(s.ft)[f := pin] else Pins(s.ft)
  }

  /** The events are mappings and accesses by user code. */
  predicate PinsNothing(events: seq<Event>) {
    forall i | 0 <= i < |events| :: events[i].Map? || (events[i].Access? && events[i].user)
  }

  /** The frames that the events unpin. */
  function Unpinned(events: seq<Event>): set<nat> {
    set i | 0 <= i < |events| && events[i].Pin? && !events[i].pin :: events[i].frame
  }

  lemma PinsAtFirst(s: Vm, events: seq<Event>)
    ensures HoldsPinned(s, s, Unpinned(events[..0]))
  {
  }

  lemma PinsAreKept(s: Vm, s': Vm, events: seq<Event>, i: nat)
    requires i < |events| && PinStep(s, s', events[i])
    ensures PinsNothing(events) ==> Pins(s'.ft) == Pins(s.ft)
  {
  }

  lemma PinsGoOn(s: Vm, s1: Vm, s2: Vm, events: seq<Event>, i: nat)
    requires i < |events| && HoldsPinned(s, s1, Unpinned(events[..i])) && HoldsPinned(s1, s2, Unpinned([events[i]]))
    ensures HoldsPinned(s, s2, Unpinned(events[..i + 1]))
  {
    assert events[..i] + [events[i]] == events[..i + 1];
    UnpinnedMore(events[..i], events[i]);
  }

  lemma UnpinnedMore(events: seq<Event>, e: Event)
    ensures Unpinned(events) <= Unpinned(events + [e]) && Unpinned([e]) <= Unpinned(events + [e])
  {
    forall f | f in Unpinned(events) ensures f in Unpinned(events + [e]) {
      var i :| 0 <= i < |events| && events[i].Pin? && !events[i].pin && events[i].frame == f;
      assert (events + [e])[i] == events[i];
    }
    forall f | f in Unpinned([e]) ensures f in Unpinned(events + [e]) {
      assert (events + [e])[|events|] == e;
    }
  }

  lemma StepHolds(s: Vm, s': Vm, e: Event)
    requires match e
             case Access(_, _, _, _, _, _, _) => HoldsPinned(s, s', {})
             case Map(_, _) => s'.ft == s.ft && s'.pt == s.pt
             case Pin(f, pin) => s' == if f < |s.ft| then Pinned(s, f, pin) else s
    ensures HoldsPinned(s, s', Unpinned([e]))
  {
    assert [e][0] == e;
    assert e.Pin? && !e.pin ==> e.frame in Unpinned([e]);
  }

  /** While nothing is pinned that was not, a frame that can be taken is never wanting. */
  lemma NotAllPinned(ft: seq<Fte>, s: Vm, hand: nat, n: nat, e: Event)
    requires hand < |s.ft| && Pins(s.ft) == Pins(ft) && !AllPinned(ft)
    ensures EventEnd(s, hand, n, e) != AllFramesPinned
  {
    var f: nat :| f < |ft| && !ft[f].pinned;
    assert !Pins(ft)[f] && !Pins(s.ft)[f];
  }

  class VirtualMemory {
    /** Contents of the executables and mapped files, which do not change here. */
    const files: Files
    const pool: Bitmap
    const swap: Swap
    var frames: seq<Page>
    var ft: seq<Fte>
    var victimIdx: nat
    var pt: map<Key, Pte>
    var spt: map<Key, Spte>

    ghost predicate Shape()
      reads this, pool.words, swap, swap.st.words
    {
      && pool.Valid() && swap.Valid() && pool.words != swap.st.words
      && |frames| == pool.bitCnt == |ft| && victimIdx < |ft|
    }

    ghost function State(): Vm
      requires Shape()
      reads this, pool.words, swap, swap.st.words
    {
      Vm(frames, pool.Bits(), ft, pt, spt, swap.Slots())
    }

    ghost predicate Valid()
      reads this, pool.words, swap, swap.st.words
    {
      Shape() && Inv(State(), files, None)
    }

    /** What the processes are entitled to see. */
    ghost function Memory(): View
      requires Shape()
      reads this, pool.words, swap, swap.st.words
    {
      ViewOf(State(), files)
    }

    /** ft_init, spt_init and swap_init: user memory and the swap device may hold anything. */
    constructor (memory: seq<Page>, device: seq<Sector>, files: Files)
      requires |memory| > 0
      ensures Valid() && Memory() == map[] && this.files == files
      ensures pool.bitCnt == |memory| && |swap.sectors| == |device| && frames == memory
      ensures fresh(pool.words) && fresh(swap) && fresh(swap.st.words)
    {
      this.files := files;
      pool := new Bitmap(|memory|);
      swap := new Swap(device);
      frames := memory;
      ft := seq(|memory|, _ => Fte(0, Key(0, 0), false, false));
      victimIdx := 0;
      pt := map[];
      spt := map[];
    }

    /** One turn of the scan: an unpinned frame that was not accessed is found, or the hand moves on. */
    method ClockTurn(ghost pt0: map<Key, Pte>, ghost hand: nat, ghost i: nat) returns (found: bool)
      requires i < 2 * |ft| && ClockInv(ft, pt0, pt, hand, i, victimIdx)
      modifies this`victimIdx, this`pt
      ensures found ==> ClockInv(ft, pt0, pt, hand, i, victimIdx) && Idle(ft, pt, victimIdx)
      ensures !found ==> ClockInv(ft, pt0, pt, hand, i + 1, victimIdx)
    {
      ghost var before := pt;
      var victim := ft[victimIdx];
      if victim.key in pt && pt[victim.key].accessed {
        pt := pt[victim.key := pt[victim.key].(accessed := false)];
      } else if !victim.pinned {
        return true;
      }
      ClockStep(ft, pt0, before, pt, hand, i, victimIdx);
      if victimIdx == |ft| - 1 {
        victimIdx := 0;
      } else {
        victimIdx := victimIdx + 1;
      }
      found := false;
    }

    /** The scan of vm/frame.c:137-160. */
    method ClockScan() returns (found: bool)
      requires victimIdx < |ft| && FramesHoldPages(ft, pt)
      modifies this`victimIdx, this`pt
      ensures victimIdx < |ft| && SameButAccessed(old(pt), pt)
      ensures found <==> exists f: nat | f < |ft| :: !ft[f].pinned
      ensures found ==> IsSecondChance(ft, old(pt), old(victimIdx), victimIdx) && !Accessed(ft, pt, victimIdx)
      ensures forall f: nat | f < |ft| ::
                Accessed(ft, pt, f) <==> Accessed(ft, old(pt), f) && old(Spared(ft, pt, victimIdx, f))
    {
      var cycle := |ft|;
      ghost var hand := victimIdx;
      var i := 0;
      found := false;
      while i < 2 * cycle && !found
        invariant 0 <= i <= 2 * cycle && ClockInv(ft, old(pt), pt, hand, i, victimIdx)
        invariant found ==> i < 2 * cycle && Idle(ft, pt, victimIdx)
        decreases 2 * cycle - i, !found
      {
        found := ClockTurn(old(pt), hand, i);
        if !found {
          i := i + 1;
        }
      }
      if found {
        ClockFound(ft, old(pt), pt, hand, i, victimIdx);
      }
      ClockSwept(ft, old(pt), pt, hand, i, victimIdx);
    }

    /** Writes a page to the swap device; None if that is full. */
    method SaveOut(k: Key, e: Spte, page: Page) returns (slot: Option<nat>)
      requires Shape()
      modifies this`spt, swap`sectors, swap.st.words
      ensures Shape() && (slot.None? <==> SwapIsFull(|swap.sectors|, old(swap.Slots())))
      ensures pool.Bits() == old(pool.Bits()) && |swap.sectors| == old(|swap.sectors|)
      ensures slot.Some? ==> spt == old(spt)[k := InSwap(e.writable, slot.value)]
      ensures slot.Some? ==> slot.value !in old(swap.Slots()) && swap.Slots() == old(swap.Slots())[slot.value := page]
    {
      hide Grouped, SlotsOf, BitOf;
      slot := swap.SwapOut(page);
      if slot.Some? {
        spt := spt[k := InSwap(e.writable, slot.value)];
      }
    }

    /**
     * Saves and unmaps the page of the frame under the hand (vm/frame.c:168-197).
     * False is the panic on a full swap device.
     */
    method Evict() returns (ok: bool)
      requires Valid() && pool.Bits()[victimIdx]
      modifies this`pt, this`spt, swap`sectors, swap.st.words
      ensures Shape()
      ensures ok ==> Inv(State(), files, Some(victimIdx)) && Memory() == old(Memory())
      ensures ok ==> KeepsUnmapped(old(State()), State())
      ensures !ok <==> old(CannotSave(State(), victimIdx, |swap.sectors|))
      ensures ok ==> |swap.Slots()| <= |old(swap.Slots())| + 1
      ensures ok && !ft[victimIdx].pinned ==> HoldsPinned(old(State()), State(), {})
    {
      hide Grouped, SlotsOf, BitOf, Inv, ViewOf, HoldsPinned;
      ghost var s0 := State();
      FrameHolds(s0, files, victimIdx);
      var victim := ft[victimIdx];
      var e := spt[victim.key];
      var saved: Option<nat> := None;
      if e.InMemory? || pt[victim.key].dirty {
        saved := SaveOut(victim.key, e, frames[victim.kpage]);
        if saved.None? {
          return false;
        }
      }
      pt := pt[victim.key := pt[victim.key].(present := false)];
      assert State() == Evicted(s0, victimIdx, saved);
      EvictionIsInvisible(s0, files, victimIdx, saved);
      EvictionDraws(s0, victimIdx, saved);
      if !ft[victimIdx].pinned {
        EvictionHolds(s0, victimIdx, saved);
      }
      ok := true;
    }

    /** The first half of falloc_get_frame: a frame of the pool, cleared if PAL_ZERO is given. */
    method TakeFree(zero: bool) returns (idx: Option<nat>)
      requires Valid()
      modifies this`frames, pool.words
      ensures Shape()
      ensures idx.Some? <==> old(HasFree(pool.Bits()))
      ensures idx.None? ==> State() == old(State())
      ensures idx.Some? ==> Inv(State(), files, Some(idx.value)) && Memory() == old(Memory())
      ensures idx.Some? && zero ==> frames[idx.value] == ZeroPage()
      ensures Drawn(old(State()), State(), 1)
    {
      ghost var s0 := State();
      idx := pool.ScanAndFlip(0, 1, false);
      FirstFree(s0.used, idx);
      if idx.Some? {
        if zero {
          frames := frames[idx.value := ZeroPage()];
        }
        TakeIsInvisible(s0, files, idx.value, frames[idx.value]);
        DrawFrame(s0.used, idx.value);
        assert State() == WithFrame(s0, idx.value, true, frames[idx.value]);
      }
    }

    /** The second half of falloc_get_frame: the frame of the clock's victim. */
    method TakeVictim() returns (r: AllocResult)
      requires Valid() && !HasFree(pool.Bits())
      modifies this`victimIdx, this`pt, this`spt, swap`sectors, swap.st.words
      ensures Shape() && (KeepsUnmapped(old(State()), State()) || r.SwapFull?)
      ensures r.Frame? ==> Inv(State(), files, Some(r.kpage)) && Memory() == old(Memory())
      ensures r.Frame? ==> IsSecondChance(ft, old(pt), old(victimIdx), r.kpage)
      ensures r.NoFrame? ==> Valid() && Memory() == old(Memory())
      ensures r.NoFrame? <==> AllPinned(ft)
      ensures r.SwapFull? <==> old(Unsavable(State(), victimIdx, |swap.sectors|))
      ensures r.Frame? ==> Drawn(old(State()), State(), 1) && r.kpage == victimIdx
      ensures !r.SwapFull? ==> HoldsPinned(old(State()), State(), {})
    {
      hide Grouped, SlotsOf, BitOf, FreeIn, HoldsPinned, Inv, ViewOf;
      ghost var s0 := State();
      AllFramesHoldPages(s0, files);
      var found := ClockScan();
      AccessedBitsAreInvisible(s0, State(), files, None);
      HoldsStill(s0, s0, State());
      if !found {
        NoVictim(s0, old(victimIdx), |swap.sectors|);
        return NoFrame;
      }
      VictimDecides(s0, old(victimIdx), |swap.sectors|, victimIdx);
      ghost var s1 := State();
      assert KeepsUnmapped(s0, s1);
      NoneIsFree(s0.used, victimIdx);
      var ok := Evict();
      if !ok {
        return SwapFull;
      }
      HoldsOn(s0, s1, State());
      return Frame(victimIdx);
    }

    /** falloc_get_frame.  PAL_ZERO is honoured only for a frame taken from the pool. */
    method GetFrame(zero: bool) returns (r: AllocResult)
      requires Valid()
      modifies this`frames, this`victimIdx, this`pt, this`spt, pool.words, swap`sectors, swap.st.words
      ensures Shape() && (KeepsUnmapped(old(State()), State()) || r.SwapFull?)
      ensures r.Frame? ==> Inv(State(), files, Some(r.kpage)) && Memory() == old(Memory())
      ensures r.NoFrame? ==> Valid() && Memory() == old(Memory()) && pool.Bits() == old(pool.Bits())
      ensures r.NoFrame? <==> old(!HasFree(pool.Bits()) && AllPinned(ft))
      ensures r.SwapFull? <==> old(Unsavable(State(), victimIdx, |swap.sectors|))
      ensures old(HasFree(pool.Bits())) ==> r.Frame? && (zero ==> frames[r.kpage] == ZeroPage())
      ensures old(HasFree(pool.Bits())) ==> pt == old(pt) && victimIdx == old(victimIdx)
      ensures r.Frame? && !old(HasFree(pool.Bits())) ==> r.kpage == victimIdx
      ensures !r.SwapFull? ==> HoldsPinned(old(State()), State(), {})
      ensures r.Frame? && !old(HasFree(pool.Bits())) ==>
                frames == old(frames) && IsSecondChance(ft, old(pt), old(victimIdx), r.kpage)
      ensures r.Frame? ==> Drawn(old(State()), State(), 1)
    {
      hide Drawn;
      var idx := TakeFree(zero);
      if idx.Some? {
        return Frame(idx.value);
      }
      r := TakeVictim();
    }

    /** falloc_free_frame: the freed frame is filled with 0xcc. */
    method FreeFrame(f: nat)
      requires Shape() && Inv(State(), files, Some(f))
      modifies this`frames, pool.words
      ensures Valid() && Memory() == old(Memory()) && KeepsUnmapped(old(State()), State())
      ensures pool.Bits() == old(pool.Bits())[f := false]
      ensures frames == old(frames)[f := seq(PGSIZE, _ => 0xcc)]
    {
      ghost var s0 := State();
      frames := frames[f := seq(PGSIZE, _ => 0xcc)];
      pool.Set(f, false);
      FreeIsInvisible(s0, files, f, frames[f]);
      assert State() == WithFrame(s0, f, false, frames[f]);
    }

    /** The bytes of a page that is not in memory; false is one of the three panics. */
    method Fetch(k: Key, e: Spte) returns (ok: bool, page: Page)
      requires Shape() && k in spt && spt[k] == e && !Mapped(State(), k) && PageOk(State(), files, k)
      modifies swap.st.words
      ensures Shape() && ok && page == old(Backing(State(), files, e))
      ensures swap.Slots() == if e.InSwap? then old(swap.Slots()) - {e.slot} else old(swap.Slots())
    {
      match e {
        case InMemory(_) =>
          return false, ZeroPage();
        case InFile(_, file, pos) =>
          return file in files && pos < |files[file]|, FilePage(files, file, pos);
        case InSwap(w, slot) =>
          ok, page := swap.SwapIn(slot);
        case AllZero(_) =>
          return true, ZeroPage();
      }
    }

    /** ft_pin and ft_unpin. */
    method SetPinned(f: nat, pin: bool)
      requires Valid() && f < |ft|
      modifies this`ft
      ensures Valid() && State() == Pinned(old(State()), f, pin) && Memory() == old(Memory())
    {
      PinsAreInvisible(State(), files, None, f, pin);
      ft := ft[f := ft[f].(pinned := pin)];
    }

    /** The assignments of pagedir_set_page, spt_set and ft_set around the fetch. */
    method Place(k: Key, e: Spte, f: nat) returns (ok: bool)
      requires Shape() && k in spt && spt[k] == e && !Mapped(State(), k) && PageOk(State(), files, k) && f < |ft|
      modifies this`frames, this`ft, this`pt, this`spt, swap.st.words
      ensures ok && Shape() && State() == Loaded(old(State()), files, k, f)
    {
      var page;
      ok, page := Fetch(k, e);
      if !ok {
        return;
      }
      SetEntries(k, f, e, page);
    }

    method SetEntries(k: Key, f: nat, e: Spte, page: Page)
      requires Shape() && f < |ft|
      modifies this`frames, this`ft, this`pt, this`spt
      ensures Shape() && pool.Bits() == old(pool.Bits()) && swap.Slots() == old(swap.Slots())
      ensures frames == old(frames)[f := page] && ft == old(ft)[f := Fte(f, k, true, old(ft)[f].pinned)]
      ensures pt == old(pt)[k := Pte(f, true, e.writable, false, false)]
      ensures spt == if e.InSwap? then old(spt)[k := InMemory(e.writable)] else old(spt)
    {
      hide Grouped, SlotsOf, BitOf;
      pt := pt[k := Pte(f, true, e.writable, false, false)];
      frames := frames[f := page];
      if e.InSwap? {
        spt := spt[k := InMemory(e.writable)];
      }
      ft := ft[f := Fte(f, k, true, ft[f].pinned)];
    }

    /**
     * Brings a page that the process owns into the frame f just obtained
     * (userprog/exception.c:180-211).  The entry e was read before f was obtained.
     */
    method Install(k: Key, e: Spte, f: nat, user: bool) returns (ok: bool)
      requires Shape() && Inv(State(), files, Some(f)) && k in spt && spt[k] == e && !Mapped(State(), k)
      modifies this`frames, this`ft, this`pt, this`spt, swap.st.words
      ensures ok && Valid() && Memory() == old(Memory()) && Mapped(State(), k)
      ensures pool.Bits() == old(pool.Bits()) && |swap.Slots()| <= |old(swap.Slots())|
      ensures pt[k].kpage == f && PinnedFor(old(State()), State(), k, user) && HoldsPinned(old(State()), State(), {})
    {
      hide Grouped, SlotsOf, BitOf, Inv, ViewOf, HoldsPinned, PinnedFor;
      ghost var s0 := State();
      EntryIsOk(s0, files, k, f);
      if e.InSwap? {
        ReturnSlot(s0.slots, e.slot);
      }
      ok := Place(k, e, f);
      LoadIsInvisible(s0, files, k, f);
      if !user {
        SetPinned(f, true);
      }
      PlacingHolds(s0, State(), k, f, pt[k], user);
    }

    /** The first attempt of page_fault: a page with an entry (userprog/exception.c:172-217). */
    method FaultIn(k: Key, user: bool, ptOk: bool) returns (r: FaultResult)
      requires Valid() && k in spt && !Mapped(State(), k)
      modifies this`frames, this`ft, this`victimIdx, this`pt, this`spt, pool.words, swap`sectors, swap.st.words
      ensures Shape()
      ensures !r.Panicked? ==> Valid() && Memory() == old(Memory())
      ensures r.Resumed? ==> ptOk && Mapped(State(), k)
      ensures r.Killed? ==> KeepsUnmapped(old(State()), State())
      ensures r.Killed? && ptOk ==> AllPinned(ft) && !HasFree(pool.Bits())
      ensures r.Killed? && !ptOk ==> (HasFree(pool.Bits()) <==> old(HasFree(pool.Bits()) || !AllPinned(ft)))
      ensures r.Killed? && !HasFree(pool.Bits()) ==> AllPinned(ft)
      ensures !r.Replaced?
      ensures r.Killed? <==> !r.Panicked? && (!ptOk || old(!HasFree(pool.Bits()) && AllPinned(ft)))
      ensures r.Panicked? <==> old(Unsavable(State(), victimIdx, |swap.sectors|))
      ensures r.Resumed? ==> Drawn(old(State()), State(), 1)
      ensures if r.Resumed? then PinnedFor(old(State()), State(), k, user) else ft == old(ft)
      ensures !r.Panicked? ==> HoldsPinned(old(State()), State(), {})
    {
      hide FreeIn, Grouped, SlotsOf, BitOf, HoldsPinned, PinnedFor, Inv, ViewOf, Drawn, Unsavable;
      ghost var s0 := State();
      var e := spt[k];
      var a := GetFrame(false);
      match a {
        case SwapFull =>
          return Panicked;
        case NoFrame =>
          return Killed;
        case Frame(f) =>
          ghost var s1 := State();
          if ptOk {
            var ok := Install(k, e, f, user);
            PinsThrough(s0, s1, State(), k, user);
            DrawnFewer(s0, s1, State(), 1);
            return Resumed;
          } else {
            HoleIsAFrame(s1, files, f);
            FreeFrame(f);
            HoldsStill(s0, s1, State());
            assert !pool.Bits()[f];
            return Killed;
          }
      }
    }

    /** Gives the frame f to a new stack page without clearing it (userprog/exception.c:227-235). */
    method InstallStack(k: Key, f: nat, user: bool)
      requires Shape() && Inv(State(), files, Some(f)) && !Mapped(State(), k)
      modifies this`ft, this`pt, this`spt
      ensures Shape() && Mapped(State(), k) && pt[k].kpage == f
      ensures Memory() == old(Memory())[k := Cell(frames[f], true)]
      ensures Valid() <==> frames[f] == ZeroPage() && !old(HasSlot(State(), k))
      ensures PinnedFor(old(State()), State(), k, user) && HoldsPinned(old(State()), State(), {})
    {
      hide Grouped, SlotsOf, BitOf, Inv, ViewOf;
      ghost var s0 := State();
      StackInstalled(s0, files, k, f, user);
      pt := pt[k := Pte(f, true, true, false, false)];
      ft := ft[f := Fte(f, k, true, if user then ft[f].pinned else true)];
      spt := spt[k := AllZero(true)];
      assert State() == Grown(if user then s0 else Pinned(s0, f, true), k, f);
    }

    /** The second attempt of page_fault: the stack may grow to a page it does not have. */
    method GrowStack(k: Key, user: bool, ptOk: bool) returns (r: FaultResult)
      requires Valid() && k !in spt
      modifies this`frames, this`ft, this`victimIdx, this`pt, this`spt, pool.words, swap`sectors, swap.st.words
      ensures Shape()
      ensures r.Killed? ==> Valid() && Memory() == old(Memory())
      ensures r.Killed? <==> !r.Panicked? && (!ptOk || old(!HasFree(pool.Bits()) && AllPinned(ft)))
      ensures r.Panicked? <==> old(Unsavable(State(), victimIdx, |swap.sectors|))
      ensures r.Resumed? ==> Mapped(State(), k) && pt[k].kpage < |frames| && Memory() == old(Memory())[k := Cell(frames[pt[k].kpage], true)]
      ensures r.Resumed? ==> (Valid() <==> frames[pt[k].kpage] == ZeroPage())
      ensures r.Resumed? ==> (frames[pt[k].kpage] == ZeroPage() <==> !old(Stale(State(), victimIdx)))
      ensures r.Resumed? ==> Drawn(old(State()), State(), 1)
      ensures if r.Resumed? then PinnedFor(old(State()), State(), k, user) else ft == old(ft)
      ensures !r.Panicked? ==> HoldsPinned(old(State()), State(), {})
      ensures !r.Replaced?
    {
      hide Grouped, SlotsOf, BitOf, FreeIn, HoldsPinned, PinnedFor, Drawn, Inv;
      ghost var s0, hand := State(), victimIdx;
      var a := GetFrame(true);
      match a {
        case SwapFull =>
          return Panicked;
        case NoFrame =>
          return Killed;
        case Frame(f) =>
          ghost var s1 := State();
          HoleIsAFrame(s1, files, f);
          assert k !in Memory();
          if !HasFree(s0.used) {
            VictimDecides(s0, hand, |swap.sectors|, f);
          }
          if ptOk {
            UnmappedWithoutEntry(State(), files, Some(f), k);
            InstallStack(k, f, user);
            PinsThrough(s0, s1, State(), k, user);
            DrawnStill(s0, s1, State(), 1);
            return Resumed;
          } else {
            FreeFrame(f);
            HoldsStill(s0, s1, State());
            return Killed;
          }
      }
    }

    /**
     * page_fault for a page that is not present: one step, with any eviction inside it.
     * stackOk stands for the test of the fault address against the stack pointer, ptOk for
     * the success of the page-table allocation in pagedir_set_page, retryOk for that of a
     * second one.  A page near the stack that is not loaded for want of a page table is taken
     * for a new page of the stack; if then there is one, its bytes are lost and zeros are seen.
     */
    method PageFault(k: Key, user: bool, stackOk: bool, ptOk: bool, retryOk: bool) returns (r: FaultResult)
      requires Valid() && !Mapped(State(), k)
      modifies this`frames, this`ft, this`victimIdx, this`pt, this`spt, pool.words, swap`sectors, swap.st.words
      ensures Shape()
      ensures r.Killed? ==> Valid() && Memory() == old(Memory())
      ensures r.Panicked? <==> old(Unsavable(State(), victimIdx, |swap.sectors|)) && (k in old(spt) || stackOk)
      ensures r.Replaced? <==> !r.Panicked? && k in old(spt) && stackOk && !ptOk && retryOk &&
                               old(HasFree(pool.Bits()) || !AllPinned(ft))
      ensures r.Killed? <==> !r.Panicked? && !r.Replaced? &&
                             ((k !in old(spt) && !stackOk) || !ptOk || old(!HasFree(pool.Bits()) && AllPinned(ft)))
      ensures r.Resumed? || r.Replaced? ==> Mapped(State(), k)
      ensures r.Resumed? && k in old(spt) ==> Valid() && Memory() == old(Memory())
      ensures r.Replaced? ==> Memory() == old(Memory())[k := Cell(ZeroPage(), true)] && (Valid() <==> !old(HasSlot(State(), k)))
      ensures r.Resumed? && k !in old(spt) ==>
                && pt[k].kpage < |frames|
                && Memory() == old(Memory())[k := Cell(frames[pt[k].kpage], true)]
                && (Valid() <==> frames[pt[k].kpage] == ZeroPage())
      ensures r.Resumed? && k !in old(spt) ==> (frames[pt[k].kpage] == ZeroPage() <==> !old(Stale(State(), victimIdx)))
      ensures r.Resumed? ==> Drawn(old(State()), State(), 1)
      ensures r.Killed? && k !in old(spt) && !stackOk ==> State() == old(State())
      ensures if r.Resumed? || r.Replaced? then PinnedFor(old(State()), State(), k, user) else ft == old(ft)
      ensures !r.Panicked? ==> HoldsPinned(old(State()), State(), {})
    {
      hide Drawn, Inv, ViewOf, Grouped, SlotsOf, BitOf;
      if k in spt {
        r := FaultIn(k, user, ptOk);
        if r.Killed? && stackOk {
          r := RetryAsStack(k, user, !ptOk && retryOk);
        }
      } else if stackOk {
        r := GrowStack(k, user, ptOk);
      } else {
        r := Killed;
      }
    }

    /** The stack branch after a failed load: a frame is free now, or all are pinned. */
    method RetryAsStack(k: Key, user: bool, ptOk: bool) returns (r: FaultResult)
      requires Valid() && !Mapped(State(), k) && (HasFree(pool.Bits()) || AllPinned(ft))
      modifies this`frames, this`ft, this`victimIdx, this`pt, this`spt, pool.words, swap`sectors, swap.st.words
      ensures Shape() && r in {Killed, Replaced}
      ensures r.Killed? ==> Valid() && Memory() == old(Memory())
      ensures r.Replaced? <==> ptOk && old(HasFree(pool.Bits()))
      ensures r.Replaced? ==> Mapped(State(), k) && Memory() == old(Memory())[k := Cell(ZeroPage(), true)]
      ensures r.Replaced? ==> (Valid() <==> !old(HasSlot(State(), k)))
      ensures if r.Replaced? then PinnedFor(old(State()), State(), k, user) else ft == old(ft)
      ensures HoldsPinned(old(State()), State(), {})
    {
      hide Drawn, FreeIn, Inv, ViewOf, Grouped, SlotsOf, BitOf, HoldsPinned, PinnedFor;
      ghost var s0 := State();
      NoVictimToSave(s0, victimIdx, |swap.sectors|);
      var a := GetFrame(true);
      r := Killed;
      ghost var s1 := State();
      if a.Frame? && ptOk {
        StillUnmapped(s0, State(), files, Some(a.kpage), k);
        InstallStack(k, a.kpage, user);
        PinsThrough(s0, s1, State(), k, user);
        r := Replaced;
      } else if a.Frame? {
        FreeFrame(a.kpage);
        HoldsStill(s0, s1, State());
      }
    }

    /** A store to a page that is present and writable. */
    method Store(k: Key, ofs: nat, b: byte)
      requires Valid() && Mapped(State(), k) && k in spt && ofs < PGSIZE && pt[k].writable
      modifies this`frames, this`pt
      ensures Valid() && (Memory(), Some(b)) == Accessing(old(Memory()), k, ofs, Some(b))
      ensures pt == old(pt)[k := old(pt)[k].(accessed := true, dirty := true)]
    {
      hide Grouped, SlotsOf, BitOf, Inv, ViewOf, Accessing;
      ghost var s0 := State();
      StoreShows(s0, files, k, ofs, b);
      var f := pt[k].kpage;
      frames := frames[f := frames[f][ofs := b]];
      pt := pt[k := pt[k].(accessed := true, dirty := true)];
      assert State() == Stored(s0, k, ofs, b);
    }

    /** A load from a page that is present. */
    method Load(k: Key, ofs: nat) returns (seen: Option<byte>)
      requires Valid() && Mapped(State(), k) && k in spt && ofs < PGSIZE
      modifies this`pt
      ensures Valid() && (Memory(), seen) == Accessing(old(Memory()), k, ofs, None)
      ensures pt == old(pt)[k := old(pt)[k].(accessed := true)]
    {
      ghost var s0 := State();
      assert MappedOk(s0, None, k);
      seen := Some(frames[pt[k].kpage][ofs]);
      pt := pt[k := pt[k].(accessed := true)];
      AccessedBitsAreInvisible(s0, State(), files, None);
    }

    /** A load or store by the processor on a page that is present. */
    method Execute(k: Key, ofs: nat, write: Option<byte>) returns (seen: Option<byte>)
      requires Valid() && Mapped(State(), k) && k in spt && ofs < PGSIZE
      modifies this`frames, this`pt
      ensures Valid() && (Memory(), seen) == Accessing(old(Memory()), k, ofs, write)
      ensures pt == if seen.None? then old(pt) else
                      old(pt)[k := old(pt)[k].(accessed := true, dirty := write.Some? || old(pt)[k].dirty)]
    {
      assert MappedOk(State(), None, k);
      if write.None? {
        seen := Load(k, ofs);
      } else if pt[k].writable {
        Store(k, ofs, write.value);
        seen := write;
      } else {
        seen := None;
      }
    }

    /** The fault handler, for an access to a page that is absent; there tells whether the page is there afterwards. */
    method Summon(k: Key, user: bool, stackOk: bool, ptOk: bool, retryOk: bool) returns (end: Outcome, there: bool)
      requires Valid() && !Mapped(State(), k)
      modifies this`frames, this`ft, this`victimIdx, this`pt, this`spt, pool.words, swap`sectors, swap.st.words
      ensures end == old(EndOf(State(), victimIdx, |swap.sectors|, k, stackOk, ptOk)) && Shape()
      ensures end.Continues? ==> Valid() && Drawn(old(State()), State(), 1) && (there <==> k in old(spt) || stackOk)
      ensures end.Continues? && there ==> Mapped(State(), k)
      ensures end.Continues? ==>
                Memory() == if there && k !in old(spt) then old(Memory())[k := Cell(ZeroPage(), true)] else old(Memory())
      ensures end.Continues? ==> if there then PinnedFor(old(State()), State(), k, user) else ft == old(ft)
      ensures end.Continues? ==> HoldsPinned(old(State()), State(), {})
    {
      hide FreeIn, Drawn, Grouped, SlotsOf, BitOf, Inv, ViewOf, Unsavable, Stale, HoldsPinned, PinnedFor;
      ghost var s0 := State();
      var isNew := k !in spt;
      var r := PageFault(k, user, stackOk, ptOk, retryOk);
      there := r.Resumed?;
      if r.Panicked? {
        end := SwapExhausted;
      } else if r.Replaced? {
        end := NoPageTable;
      } else if r.Killed? {
        DrawnStill(s0, s0, s0, 1);
        end := if isNew && !stackOk then Continues else if !ptOk then NoPageTable else AllFramesPinned;
      } else if isNew && frames[pt[k].kpage] != ZeroPage() {
        end := StaleStack;
      } else {
        end := Continues;
      }
    }

    /** One memory access: the fault handler first if the page is absent, then the access. */
    method Touch(k: Key, ofs: nat, write: Option<byte>, user: bool, stackOk: bool, ptOk: bool, retryOk: bool)
      returns (seen: Option<byte>, end: Outcome)
      requires Valid() && ofs < PGSIZE
      modifies this`frames, this`ft, this`victimIdx, this`pt, this`spt, pool.words, swap`sectors, swap.st.words
      ensures end.Continues? ==> Valid() && (Memory(), seen) == Touching(old(Memory()), k, ofs, write, stackOk)
      ensures end == old(EndOf(State(), victimIdx, |swap.sectors|, k, stackOk, ptOk)) && Shape()
      ensures end.Continues? ==> Drawn(old(State()), State(), 1) && HoldsPinned(old(State()), State(), {})
      ensures end.Continues? ==> if old(NeedsFrame(State(), k, stackOk)) then PinnedFor(old(State()), State(), k, user) else ft == old(ft)
    {
      hide FreeIn, Drawn, Grouped, SlotsOf, BitOf, Inv, Unsavable, Stale, HoldsPinned, PinnedFor;
      ghost var s0 := State();
      HoldsStill(s0, s0, s0);
      seen, end := None, Continues;
      if !(k in pt && pt[k].present) {
        var there;
        end, there := Summon(k, user, stackOk, ptOk, retryOk);
        if !end.Continues? || !there {
          return;
        }
      }
      ghost var s1 := State();
      MappedHasEntry(s1, files, k);
      seen := Execute(k, ofs, write);
      DrawnStill(s0, s1, State(), 1);
      HoldsStill(s0, s1, State());
      if NeedsFrame(s0, k, stackOk) {
        PinnedForStill(s0, s1, State(), k, user);
      }
    }

    /** spt_set by load_segment or mmap for a page the process does not have; refused otherwise. */
    method MapPage(k: Key, e: Spte)
      requires Valid() && Mappable(files, e)
      modifies this`spt
      ensures Valid() && Memory() == Mapping(old(Memory()), files, k, e) && pt == old(pt)
    {
      if k !in spt {
        NewEntry(State(), files, k, e);
        spt := spt[k := e];
      }
    }

    /** One event of a run. */
    method Step(e: Event) returns (seen: Option<byte>, end: Outcome)
      requires Valid() && WellFormed(files, e)
      modifies this`frames, this`ft, this`victimIdx, this`pt, this`spt, pool.words, swap`sectors, swap.st.words
      ensures end.Continues? ==> Valid() && (Memory(), seen) == Reference(old(Memory()), files, e)
      ensures end == old(EventEnd(State(), victimIdx, |swap.sectors|, e)) && |swap.sectors| == old(|swap.sectors|)
      ensures end.Continues? ==> Drawn(old(State()), State(), 1) && PinStep(old(State()), State(), e)
      ensures end.Continues? ==> HoldsPinned(old(State()), State(), Unpinned([e]))
    {
      hide FreeIn, HoldsPinned, PinnedFor, EndOf, ViewOf, Inv, Grouped, SlotsOf, BitOf, Drawn, Touching, Mapping;
      ghost var s0 := State();
      seen, end := None, Continues;
      match e {
        case Access(k, ofs, write, user, stackOk, ptOk, retryOk) =>
          seen, end := Touch(k, ofs, write, user, stackOk, ptOk, retryOk);
        case Map(k, entry) =>
          MapPage(k, entry);
        case Pin(f, pin) =>
          if f < |ft| {
            SetPinned(f, pin);
          }
      }
      if !e.Access? {
        DrawnStill(s0, s0, State(), 1);
      }
      if end.Continues? {
        StepHolds(s0, State(), e);
      }
    }

    /**
     * Paging is invisible.  Whatever the processes do, what they see is what memory
     * without paging would show them, for as long as the run goes on; and it stops only
     * at an event that the state reached before it, stop, says must end it.  No more frames
     * and swap slots have come into use by then than there were events, so that a run no
     * longer than there are free frames goes on to its end.  A page in a pinned frame stays in it for as
     * long as the frame is not unpinned; and where user code alone runs, the pins stay as they are and
     * a frame that can be taken never comes to be wanting.
     */
    method Run(events: seq<Event>) returns (seen: seq<Option<byte>>, end: Outcome, ghost stop: Vm, ghost hand: nat)
      requires Valid() && AllWellFormed(files, events)
      modifies this`frames, this`ft, this`victimIdx, this`pt, this`spt, pool.words, swap`sectors, swap.st.words
      ensures |seen| <= |events| && (end.Continues? <==> |seen| == |events|)
      ensures seen == ReferenceRun(old(Memory()), files, events[..|seen|]).1
      ensures end.Continues? ==> Valid() && State() == stop
      ensures Inv(stop, files, None) && ViewOf(stop, files) == ReferenceRun(old(Memory()), files, events[..|seen|]).0
      ensures hand < |stop.ft| == |old(ft)| && (|seen| == 0 ==> stop == old(State()) && hand == old(victimIdx))
      ensures !end.Continues? ==> end == EventEnd(stop, hand, old(|swap.sectors|), events[|seen|])
      ensures Drawn(old(State()), stop, |seen|)
      ensures |events| <= old(|FreeIn(pool.Bits())|) && AllTables(events) ==> end.Continues?
      ensures old(|swap.Slots()|) + |events| <= old(|swap.sectors|) / SLOT_CNT ==> !end.SwapExhausted?
      ensures HoldsPinned(old(State()), stop, Unpinned(events[..|seen|]))
      ensures PinsNothing(events) ==> Pins(stop.ft) == old(Pins(ft)) && (!old(AllPinned(ft)) ==> !end.AllFramesPinned?)
    {
      hide FreeIn, Drawn, Pins, PinnedFor, HoldsPinned, Unpinned, AllPinned, EventEnd, Reference, ViewOf, Inv, Grouped, SlotsOf, BitOf;
      seen, end := [], Continues;
      ghost var s0, m0, n := State(), Memory(), |swap.sectors|;
      DrawnStill(s0, s0, s0, 0);
      PinsAtFirst(s0, events);
      stop, hand := State(), victimIdx;
      var i := 0;
      while i < |events|
        invariant 0 <= i <= |events| && |seen| == i && Valid() && end.Continues? && |swap.sectors| == n && |ft| == |old(ft)|
        invariant stop == State() && hand == victimIdx && (i == 0 ==> stop == old(State()) && hand == old(victimIdx))
        invariant (Memory(), seen) == ReferenceRun(m0, files, events[..i])
        invariant Drawn(s0, stop, i) && HoldsPinned(s0, stop, Unpinned(events[..i]))
        invariant PinsNothing(events) ==> Pins(stop.ft) == Pins(s0.ft)
      {
        ReferenceStep(m0, files, events, i);
        var out;
        out, end := Step(events[i]);
        if !end.Continues? {
          StopsAt(s0, stop, hand, n, events, i);
          if PinsNothing(events) && !AllPinned(s0.ft) {
            NotAllPinned(s0.ft, stop, hand, n, events[i]);
          }
          return;
        }
        seen := seen + [out];
        DrawnMore(s0, stop, State(), i);
        PinsGoOn(s0, stop, State(), events, i);
        PinsAreKept(stop, State(), events, i);
        stop, hand := State(), victimIdx;
        i := i + 1;
      }
      assert events[..i] == events;
    }
  }

  /**
   * A new stack page is not always zero: with one frame, holding a page whose first byte
   * is 7, the stack page that evicts it starts with 7.
   */
  lemma StaleStackExample() returns (s: Vm, stack: Key)
    ensures Inv(s, map[], None) && !HasFree(s.used) && stack !in s.spt
    ensures |s.ft| == 1 && s.ft[0].key in s.pt && s.ft[0].key in s.spt && MustSave(s, s.ft[0].key) && 0 !in s.slots
    ensures ViewOf(Grown(Evicted(s, 0, Some(0)), stack, 0), map[])[stack].page[0] == 7
    ensures IsSecondChance(s.ft, s.pt, 0, 0) && |s.frames| == 1 && s.frames[0][0] == 7
  {
    var owner := Key(1, 5);
    stack := Key(2, 9);
    s := Vm([ZeroPage()[0 := 7]], [true], [Fte(0, owner, true, false)],
            map[owner := Pte(0, true, true, true, true)], map[owner := AllZero(true)], map[]);
    assert FrameOk(s, 0) && MappedOk(s, None, owner) && PageOk(s, map[], owner);
    StackShowsVictim(s, 0, stack);
  }

  /** With nothing free, a stack page of another process gets the victim's frame with its bytes. */
  lemma StackShowsVictim(s: Vm, slot: nat, stack: Key)
    requires Inv(s, map[], None) && |s.ft| == 1 && s.used == [true] && stack !in s.spt && slot !in s.slots
    requires s.ft[0].key in s.pt && s.ft[0].key in s.spt && MustSave(s, s.ft[0].key)
    ensures |s.frames| == 1 && stack in ViewOf(Grown(Evicted(s, 0, Some(slot)), stack, 0), map[])
    ensures ViewOf(Grown(Evicted(s, 0, Some(slot)), stack, 0), map[])[stack].page == s.frames[0]
  {
    hide ViewOf, MustSave;
    EvictionIsInvisible(s, map[], 0, Some(slot));
    UnmappedWithoutEntry(Evicted(s, 0, Some(slot)), map[], Some(0), stack);
    GrowthShowsTheFrame(Evicted(s, 0, Some(slot)), map[], stack, 0);
  }

  /** So the access to that stack page ends the run, though the swap device has a slot. */
  lemma StaleStackEnds() returns (s: Vm, stack: Key)
    ensures Inv(s, map[], None) && |s.ft| == 1 && EventEnd(s, 0, 8, Access(stack, 0, None, true, true, true, true)) == StaleStack
  {
    hide Inv;
    s, stack := StaleStackExample();
    assert IsSlot(8, 0) && s.frames[0][0] != ZeroPage()[0];
    VictimDecides(s, 0, 8, 0);
    UnmappedWithoutEntry(s, map[], None, stack);
  }

  /** A page of a file, not in memory, that does not read as zeros, and a free frame: what is needed to lose the page. */
  lemma LostPageExample() returns (s: Vm, files: Files, k: Key)
    ensures Inv(s, files, None) && HasFree(s.used) && k in s.spt && !Mapped(s, k)
    ensures ViewOf(s, files)[k].page != ZeroPage()
  {
    k := Key(1, 5);
    files := map[0 := [7]];
    s := Vm([ZeroPage()], [false], [Fte(0, k, false, false)], map[], map[k := InFile(true, 0, 0)], map[]);
    assert !s.used[0] && PageOk(s, files, k);
    assert ViewOf(s, files)[k].page[0] == 7;
  }
}
