/**
 * The swap area of vm/swap.c: a bitmap with one bit per sector, from which
 * swap_out takes the first run of eight free sectors.
 */
module SwapArea {
  import opened Wrappers
  import opened Storage
  import opened Bitmaps

  /** Sectors per page. */
  const SLOT_CNT := 8

  /** The aligned group of eight sectors from s on lies inside an area of n sectors. */
  predicate IsSlot(n: nat, s: nat) {
    s % SLOT_CNT == 0 && s + SLOT_CNT <= n
  }

  function GroupOf(i: nat): nat {
    i - i % SLOT_CNT
  }

  /** No fragmentation: each aligned group is all used or all free, and the odd tail is free. */
  ghost predicate Grouped(bits: seq<bool>) {
    && (forall s: nat | IsSlot(|bits|, s) :: AllAre(bits, s, SLOT_CNT, bits[s]))
    && (forall i: nat | i < |bits| && !IsSlot(|bits|, GroupOf(i)) :: !bits[i])
  }

  /** First fit over single sectors still returns an aligned group, and fails only when all are used. */
  lemma FirstFitIsAligned(bits: seq<bool>, idx: Option<nat>)
    requires Grouped(bits)
    requires IsFirstRun(bits, 0, SLOT_CNT, false, idx)
    ensures idx.Some? ==> IsSlot(|bits|, idx.value) && !bits[idx.value]
    ensures idx.None? <==> forall s: nat | IsSlot(|bits|, s) :: bits[s]
  {
    if idx.Some? {
      var s := GroupOf(idx.value);
      if s != idx.value {
        // The run covers the last sector of that group, so the whole group is free: an earlier run.
        assert !bits[s + SLOT_CNT - 1];
        assert IsSlot(|bits|, s);
        assert false;
      }
    } else {
      forall s: nat | IsSlot(|bits|, s) ensures bits[s] {
        assert !AllAre(bits, s, SLOT_CNT, false);
      }
    }
  }

  lemma SlotsApart(n: nat, s: nat, t: nat)
    requires IsSlot(n, s) && IsSlot(n, t) && s != t
    ensures s + SLOT_CNT <= t || t + SLOT_CNT <= s
  {
  }

  lemma FillKeepsSlot(bits: seq<bool>, start: nat, v: bool, s: nat)
    requires IsSlot(|bits|, start) && IsSlot(|bits|, s)
    requires AllAre(bits, s, SLOT_CNT, bits[s])
    ensures var after := Filled(bits, start, SLOT_CNT, v); AllAre(after, s, SLOT_CNT, after[s])
  {
    if s != start {
      SlotsApart(|bits|, s, start);
    }
  }

  lemma FillKeepsTail(bits: seq<bool>, start: nat, v: bool, i: nat)
    requires IsSlot(|bits|, start) && i < |bits| && !IsSlot(|bits|, GroupOf(i)) && !bits[i]
    ensures !Filled(bits, start, SLOT_CNT, v)[i]
  {
    assert start <= i < start + SLOT_CNT ==> GroupOf(i) == start;
  }

  /** Flipping one aligned group keeps the area unfragmented. */
  lemma FillKeepsGroups(bits: seq<bool>, start: nat, v: bool)
    requires Grouped(bits) && IsSlot(|bits|, start)
    ensures Grouped(Filled(bits, start, SLOT_CNT, v))
  {
    var after := Filled(bits, start, SLOT_CNT, v);
    forall s: nat | IsSlot(|after|, s) ensures AllAre(after, s, SLOT_CNT, after[s]) {
      FillKeepsSlot(bits, start, v, s);
    }
    forall i: nat | i < |after| && !IsSlot(|after|, GroupOf(i)) ensures !after[i] {
      FillKeepsTail(bits, start, v, i);
    }
  }

  /** The page held by the eight sectors from start on. */
  function PageAt(sectors: seq<Sector>, start: nat): (p: Page)
    requires start + SLOT_CNT <= |sectors|
  {
    seq(PGSIZE, i requires 0 <= i < PGSIZE => sectors[start + i / BLOCK_SECTOR_SIZE][i % BLOCK_SECTOR_SIZE])
  }

  lemma OneMoreSector(before: seq<Sector>, after: seq<Sector>, start: nat, i: nat, buf: Page)
    requires start + SLOT_CNT <= |before| == |after| && i < SLOT_CNT
    requires after == before[start + i := buf[i * BLOCK_SECTOR_SIZE..(i + 1) * BLOCK_SECTOR_SIZE]]
    requires PageAt(before, start)[..i * BLOCK_SECTOR_SIZE] == buf[..i * BLOCK_SECTOR_SIZE]
    ensures PageAt(after, start)[..(i + 1) * BLOCK_SECTOR_SIZE] == buf[..(i + 1) * BLOCK_SECTOR_SIZE]
  {
    forall k | 0 <= k < (i + 1) * BLOCK_SECTOR_SIZE ensures PageAt(after, start)[k] == buf[k] {
      if k < i * BLOCK_SECTOR_SIZE {
        assert PageAt(before, start)[k] == PageAt(before, start)[..i * BLOCK_SECTOR_SIZE][k];
      }
    }
  }

  /** Live slots, named by their first sector, with the pages they hold. */
  ghost function SlotsOf(bits: seq<bool>, sectors: seq<Sector>): map<nat, Page>
    requires |bits| == |sectors|
  {
    map s: nat | s < |bits| && IsSlot(|bits|, s) && bits[s] :: PageAt(sectors, s)
  }

  /** Marking a slot and writing only its sectors changes the slot map at that key only. */
  lemma SlotAdded(bits: seq<bool>, sectors: seq<Sector>, sectors': seq<Sector>, start: nat)
    requires |bits| == |sectors| == |sectors'| && IsSlot(|bits|, start)
    requires forall i | 0 <= i < |sectors| && !(start <= i < start + SLOT_CNT) :: sectors'[i] == sectors[i]
    ensures SlotsOf(Filled(bits, start, SLOT_CNT, true), sectors')
         == SlotsOf(bits, sectors)[start := PageAt(sectors', start)]
  {
    var a := SlotsOf(Filled(bits, start, SLOT_CNT, true), sectors');
    var b := SlotsOf(bits, sectors);
    forall s: nat ensures s in a <==> s in b || s == start {
    }
    forall s | s in b && s != start ensures a[s] == b[s] {
      assert PageAt(sectors', s) == PageAt(sectors, s);
    }
  }

  /** Unmarking a slot removes that key only. */
  lemma SlotRemoved(bits: seq<bool>, sectors: seq<Sector>, start: nat)
    requires |bits| == |sectors| && IsSlot(|bits|, start)
    ensures SlotsOf(Filled(bits, start, SLOT_CNT, false), sectors) == SlotsOf(bits, sectors) - {start}
  {
    var a, b := SlotsOf(Filled(bits, start, SLOT_CNT, false), sectors), SlotsOf(bits, sectors);
    forall s: nat ensures s in a <==> s in b && s != start {
    }
  }

  /** A slot is in use as a whole, and then it holds its page. */
  lemma SlotIs(bits: seq<bool>, sectors: seq<Sector>, slot: nat)
    requires |bits| == |sectors| && IsSlot(|bits|, slot) && Grouped(bits)
    ensures slot in SlotsOf(bits, sectors) <==> AllAre(bits, slot, SLOT_CNT, true)
    ensures slot in SlotsOf(bits, sectors) ==> SlotsOf(bits, sectors)[slot] == PageAt(sectors, slot)
    ensures slot !in SlotsOf(bits, sectors) ==> SlotsOf(bits, sectors) - {slot} == SlotsOf(bits, sectors)
  {
    assert AllAre(bits, slot, SLOT_CNT, bits[slot]);
  }

  class Swap {
    const st: Bitmap
    var sectors: seq<Sector>

    ghost predicate Valid()
      reads this, st.words
    {
      && st.Valid()
      && |sectors| == st.bitCnt
      && Grouped(st.Bits())
    }

    ghost function Slots(): map<nat, Page>
      requires Valid()
      reads this, st.words
    {
      SlotsOf(st.Bits(), sectors)
    }

    /** swap_init for a device of n sectors with arbitrary contents. */
    constructor (device: seq<Sector>)
      ensures Valid() && Slots() == map[] && |sectors| == |device|
      ensures fresh(st.words)
    {
      st := new Bitmap(|device|);
      sectors := device;
    }

    /** The eight block_write calls. */
    method WriteSlot(start: nat, buf: Page)
      requires start + SLOT_CNT <= |sectors|
      modifies this`sectors
      ensures |sectors| == old(|sectors|)
      ensures PageAt(sectors, start) == buf
      ensures forall i | 0 <= i < |sectors| && !(start <= i < start + SLOT_CNT) :: sectors[i] == old(sectors)[i]
    {
      var i := 0;
      while i < SLOT_CNT
        invariant 0 <= i <= SLOT_CNT && |sectors| == old(|sectors|)
        invariant PageAt(sectors, start)[..i * BLOCK_SECTOR_SIZE] == buf[..i * BLOCK_SECTOR_SIZE]
        invariant forall k | 0 <= k < |sectors| && !(start <= k < start + SLOT_CNT) :: sectors[k] == old(sectors)[k]
      {
        ghost var before := sectors;
        sectors := sectors[start + i := buf[i * BLOCK_SECTOR_SIZE..(i + 1) * BLOCK_SECTOR_SIZE]];
        OneMoreSector(before, sectors, start, i, buf);
        i := i + 1;
      }
    }

    /** The eight block_read calls. */
    method ReadSlot(start: nat) returns (buf: Page)
      requires start + SLOT_CNT <= |sectors|
      ensures buf == PageAt(sectors, start)
    {
      var acc: seq<byte> := [];
      var i := 0;
      while i < SLOT_CNT
        invariant 0 <= i <= SLOT_CNT && |acc| == i * BLOCK_SECTOR_SIZE
        invariant acc == PageAt(sectors, start)[..i * BLOCK_SECTOR_SIZE]
      {
        acc := acc + sectors[start + i];
        i := i + 1;
      }
      buf := acc;
    }

    /** swap_out: None is the null slot returned when no run of eight free sectors exists. */
    method SwapOut(buf: Page) returns (slot: Option<nat>)
      requires Valid()
      modifies this`sectors, st.words
      ensures Valid() && |sectors| == old(|sectors|)
      ensures slot.None? <==> forall s: nat | IsSlot(|sectors|, s) :: s in old(Slots())
      ensures slot.None? ==> Slots() == old(Slots())
      ensures slot.Some? ==>
                && IsSlot(|sectors|, slot.value) && slot.value !in old(Slots())
                && Slots() == old(Slots())[slot.value := buf]
    {
      ghost var before, disk := st.Bits(), sectors;
      slot := st.ScanAndFlip(0, SLOT_CNT, false);
      FirstFitIsAligned(before, slot);
      if slot.None? {
        return;
      }
      FillKeepsGroups(before, slot.value, true);
      WriteSlot(slot.value, buf);
      SlotAdded(before, disk, sectors, slot.value);
    }

    /** swap_in of a slot that some swap_out may have returned. */
    method SwapIn(slot: nat) returns (ok: bool, buf: Page)
      requires Valid() && IsSlot(|sectors|, slot)
      modifies st.words
      ensures Valid() && sectors == old(sectors)
      ensures ok <==> slot in old(Slots())
      ensures ok ==> buf == old(Slots())[slot]
      ensures Slots() == old(Slots()) - {slot}
    {
      hide Grouped, SlotsOf, AllAre, Filled, BitOf, PageAt;
      ghost var before := st.Bits();
      var someFree := st.Contains(slot, SLOT_CNT, false);
      SlotIs(before, sectors, slot);
      SlotRemoved(before, sectors, slot);
      if someFree {
        buf := ZeroPage();
        return false, buf;
      }
      st.SetMultiple(slot, SLOT_CNT, false);
      FillKeepsGroups(before, slot, false);
      buf := ReadSlot(slot);
      ok := true;
    }
  }
}
