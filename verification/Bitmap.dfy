/**
 * The bitmap of lib/kernel/bitmap.c: an array of 32-bit words seen from outside as a
 * sequence of bits.  The specification functions come first; the class is proved
 * against them.
 */
module Bitmaps {
  import opened Wrappers

  const ELEM_BITS := 32

  // ---- one word

  /** 1 shifted left by k places, one at a time. */
  function Shifted(k: nat): bv32 {
    if k == 0 then 1 else Shifted(k - 1) << 1
  }

  /** The word in which only bit k is on. */
  function Mask(k: nat): bv32
    requires k < ELEM_BITS
  {
    Shifted(k)
  }

  /** The word w has a bit on that m has. */
  predicate Hits(w: bv32, m: bv32) {
    w & m != 0
  }

  predicate BitOf(w: bv32, k: nat)
    requires k < ELEM_BITS
  {
    Hits(w, Mask(k))
  }

  lemma ShiftApart(a: bv32, b: bv32)
    ensures (a << 1) & 1 == 0 && 1 & (a << 1) == 0 && (a & b == 0 ==> (a << 1) & (b << 1) == 0)
  {
  }

  lemma {:induction false} ShiftsApart(k: nat, j: nat)
    requires j != k
    ensures Shifted(k) & Shifted(j) == 0
  {
    if k == 0 {
      ShiftApart(Shifted(j - 1), 0);
    } else if j == 0 {
      ShiftApart(Shifted(k - 1), 0);
    } else {
      ShiftsApart(k - 1, j - 1);
      ShiftApart(Shifted(k - 1), Shifted(j - 1));
    }
  }

  lemma HighestShift()
    ensures Shifted(31) == 0x8000_0000
  {
    assert Shifted(2) == 0x4 && Shifted(4) == 0x10 && Shifted(6) == 0x40 && Shifted(8) == 0x100 && Shifted(10) == 0x400;
    assert Shifted(12) == 0x1000 && Shifted(14) == 0x4000 && Shifted(16) == 0x1_0000 && Shifted(18) == 0x4_0000;
    assert Shifted(20) == 0x10_0000 && Shifted(22) == 0x40_0000 && Shifted(24) == 0x100_0000 && Shifted(26) == 0x400_0000;
    assert Shifted(28) == 0x1000_0000 && Shifted(30) == 0x4000_0000;
  }

  lemma ZeroStaysZero(a: bv32)
    ensures a == 0 ==> a << 1 == 0
  {
  }

  lemma {:induction false} ShiftNotZero(k: nat)
    requires k < ELEM_BITS
    ensures Shifted(k) != 0
    decreases ELEM_BITS - k
  {
    if k == 31 {
      HighestShift();
    } else {
      ShiftNotZero(k + 1);
      ZeroStaysZero(Shifted(k));
    }
  }

  predicate Disjoint(a: bv32, b: bv32) {
    a & b == 0
  }

  lemma MasksApart(k: nat, j: nat)
    requires k < ELEM_BITS && j < ELEM_BITS && j != k
    ensures Disjoint(Mask(k), Mask(j))
  {
    ShiftsApart(k, j);
  }

  lemma MaskNotZero(k: nat)
    requires k < ELEM_BITS
    ensures Mask(k) != 0
  {
    ShiftNotZero(k);
  }

  predicate Marked(w: bv32, v: bv32, m: bv32) {
    v == w | m
  }

  predicate Cleared(w: bv32, v: bv32, m: bv32) {
    v == w & !m
  }

  lemma MarkSelf(w: bv32, v: bv32, m: bv32)
    requires Marked(w, v, m) && m != 0
    ensures Hits(v, m)
  {
  }

  lemma MarkOther(w: bv32, v: bv32, m: bv32, n: bv32)
    requires Marked(w, v, m) && Disjoint(m, n)
    ensures Hits(v, n) == Hits(w, n)
  {
  }

  lemma ClearSelf(w: bv32, v: bv32, m: bv32)
    requires Cleared(w, v, m)
    ensures !Hits(v, m)
  {
  }

  lemma ClearOther(w: bv32, v: bv32, m: bv32, n: bv32)
    requires Cleared(w, v, m) && Disjoint(m, n)
    ensures Hits(v, n) == Hits(w, n)
  {
  }

  /** `w |= mask` turns on one bit and leaves the 31 others alone. */
  lemma MarkBit(w: bv32, v: bv32, k: nat, j: nat)
    requires k < ELEM_BITS && j < ELEM_BITS && Marked(w, v, Mask(k))
    ensures BitOf(v, j) == (j == k || BitOf(w, j))
  {
    hide Mask, Hits, Marked, Disjoint;
    if j == k {
      MaskNotZero(k);
      MarkSelf(w, v, Mask(k));
    } else {
      MasksApart(k, j);
      MarkOther(w, v, Mask(k), Mask(j));
    }
  }

  /** `w &= ~mask` turns off one bit and leaves the 31 others alone. */
  lemma ResetBit(w: bv32, v: bv32, k: nat, j: nat)
    requires k < ELEM_BITS && j < ELEM_BITS && Cleared(w, v, Mask(k))
    ensures BitOf(v, j) == (j != k && BitOf(w, j))
  {
    hide Mask, Hits, Cleared, Disjoint;
    if j == k {
      ClearSelf(w, v, Mask(k));
    } else {
      MasksApart(k, j);
      ClearOther(w, v, Mask(k), Mask(j));
    }
  }

  /** The `or` and `and` instructions of bitmap_mark and bitmap_reset. */
  method UpdateWord(w: bv32, k: nat, v: bool) returns (r: bv32)
    requires k < ELEM_BITS
    ensures forall j: nat | j < ELEM_BITS :: BitOf(r, j) == if j == k then v else BitOf(w, j)
  {
    hide Mask, BitOf;
    if v {
      r := w | Mask(k);
      forall j: nat | j < ELEM_BITS ensures BitOf(r, j) == (j == k || BitOf(w, j)) {
        MarkBit(w, r, k, j);
      }
    } else {
      r := w & !Mask(k);
      forall j: nat | j < ELEM_BITS ensures BitOf(r, j) == (j != k && BitOf(w, j)) {
        ResetBit(w, r, k, j);
      }
    }
  }

  // ---- sequences of bits

  /** Every bit of the cnt starting at start has value v. */
  predicate AllAre(bits: seq<bool>, start: nat, cnt: nat, v: bool)
    requires start + cnt <= |bits|
  {
    forall i | start <= i < start + cnt :: bits[i] == v
  }

  function Filled(bits: seq<bool>, start: nat, cnt: nat, v: bool): (r: seq<bool>)
    requires start + cnt <= |bits|
    ensures |r| == |bits|
  {
    seq(|bits|, i requires 0 <= i < |bits| => if start <= i < start + cnt then v else bits[i])
  }

  /** idx is the first place at or after start where cnt bits are all v; None when there is none. */
  predicate IsFirstRun(bits: seq<bool>, start: nat, cnt: nat, v: bool, idx: Option<nat>)
  {
    && (idx.Some? ==> start <= idx.value && idx.value + cnt <= |bits| && AllAre(bits, idx.value, cnt, v))
    && (forall i: nat | start <= i && i + cnt <= |bits| && (idx.Some? ==> i < idx.value) ::
          !AllAre(bits, i, cnt, v))
  }

  /** What bitmap_scan_and_flip leaves behind. */
  ghost predicate IsScanAndFlip(before: seq<bool>, after: seq<bool>, start: nat, cnt: nat, v: bool,
                                idx: Option<nat>)
  {
    && IsFirstRun(before, start, cnt, v, idx)
    && after == if idx.Some? then Filled(before, idx.value, cnt, !v) else before
  }

  /** The places of the bits that are false. */
  ghost function FreeIn(bits: seq<bool>): set<nat> {
    set x: nat | x < |bits| && !bits[x]
  }

  // ---- the word array

  class Bitmap {
    const bitCnt: nat
    const words: array<bv32>

    ghost predicate Valid()
    {
      words.Length == (bitCnt + ELEM_BITS - 1) / ELEM_BITS
    }

    predicate BitAt(i: nat)
      requires Valid() && i < bitCnt
      reads words
    {
      BitOf(words[i / ELEM_BITS], i % ELEM_BITS)
    }

    ghost function Bits(): (r: seq<bool>)
      requires Valid()
      reads words
      ensures |r| == bitCnt
    {
      seq(bitCnt, i requires 0 <= i < bitCnt reads words => BitAt(i))
    }

    /** bitmap_create: whatever the fresh words hold, every bit ends up false. */
    constructor (n: nat)
      ensures Valid() && fresh(words) && bitCnt == n
      ensures forall i | 0 <= i < n :: !Bits()[i]
    {
      bitCnt := n;
      words := new bv32[(n + ELEM_BITS - 1) / ELEM_BITS];
      new;
      SetMultiple(0, n, false);
    }

    method Set(idx: nat, v: bool)
      requires Valid() && idx < bitCnt
      modifies words
      ensures Bits() == old(Bits())[idx := v]
    {
      var w, k := idx / ELEM_BITS, idx % ELEM_BITS;
      words[w] := UpdateWord(words[w], k, v);
    }

    method Test(idx: nat) returns (r: bool)
      requires Valid() && idx < bitCnt
      ensures r == Bits()[idx]
    {
      r := words[idx / ELEM_BITS] & Mask(idx % ELEM_BITS) != 0;
    }

    method SetMultiple(start: nat, cnt: nat, v: bool)
      requires Valid() && start + cnt <= bitCnt
      modifies words
      ensures Bits() == Filled(old(Bits()), start, cnt, v)
    {
      var i := 0;
      while i < cnt
        invariant 0 <= i <= cnt
        invariant Bits() == Filled(old(Bits()), start, i, v)
      {
        Set(start + i, v);
        i := i + 1;
      }
    }

    method Contains(start: nat, cnt: nat, v: bool) returns (r: bool)
      requires Valid() && start + cnt <= bitCnt
      ensures r == !AllAre(Bits(), start, cnt, !v)
    {
      var i := 0;
      while i < cnt
        invariant 0 <= i <= cnt
        invariant AllAre(Bits(), start, i, !v)
      {
        var b := Test(start + i);
        if b == v {
          return true;
        }
        i := i + 1;
      }
      return false;
    }

    /** BITMAP_ERROR is None. */
    method Scan(start: nat, cnt: nat, v: bool) returns (idx: Option<nat>)
      requires Valid() && start <= bitCnt
      ensures IsFirstRun(Bits(), start, cnt, v, idx)
    {
      if cnt <= bitCnt {
        var i := start;
        while i <= bitCnt - cnt
          invariant start <= i
          invariant forall j: nat | start <= j < i && j + cnt <= bitCnt :: !AllAre(Bits(), j, cnt, v)
        {
          var c := Contains(i, cnt, !v);
          if !c {
            return Some(i);
          }
          i := i + 1;
        }
      }
      return None;
    }

    method ScanAndFlip(start: nat, cnt: nat, v: bool) returns (idx: Option<nat>)
      requires Valid() && start <= bitCnt
      modifies words
      ensures IsScanAndFlip(old(Bits()), Bits(), start, cnt, v, idx)
    {
      idx := Scan(start, cnt, v);
      if idx.Some? {
        SetMultiple(idx.value, cnt, !v);
      }
    }
  }
}
