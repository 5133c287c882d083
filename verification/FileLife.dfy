/** The whole life of a file: created, written any number of times, read back and removed. */
module FileLife {
  import opened Wrappers
  import opened Storage
  import opened FileLayout
  import opened FreeSectors
  import opened Inodes
  import opened FileShape
  import opened InodeCreate
  import opened GrowthCount
  import opened GrowthToll
  import opened GrowthSteps
  import opened InodeGrowth
  import opened InodeFree
  import opened FileData

  datatype Write = Write(offset: nat, buf: seq<byte>)

  predicate Small(writes: seq<Write>) {
    forall i: nat | i < |writes| :: writes[i].offset + |writes[i].buf| <= SINGLE_BYTES
  }

  /** What a plain byte sequence becomes under a run of writes. */
  function Replay(bytes: seq<byte>, writes: seq<Write>): seq<byte> {
    if writes == [] then bytes
    else
      var last := writes[|writes| - 1];
      Written(Replay(bytes, writes[..|writes| - 1]), last.offset, last.buf)
  }

  /** The write covers byte q. */
  predicate WritesTo(w: Write, q: nat) {
    w.offset <= q < w.offset + |w.buf|
  }

  /** After a run of writes each byte is the one that the last write to cover it put there. */
  lemma {:induction false} LastWriteShows(bytes: seq<byte>, writes: seq<Write>, i: nat, q: nat)
    requires i < |writes| && WritesTo(writes[i], q) && forall j: nat | i < j < |writes| :: !WritesTo(writes[j], q)
    ensures q < |Replay(bytes, writes)| && Replay(bytes, writes)[q] == writes[i].buf[q - writes[i].offset]
  {
    var last := |writes| - 1;
    if i < last {
      LastWriteShows(bytes, writes[..last], i, q);
      assert !WritesTo(writes[last], q);
    }
  }

  /** A byte that no write covers is as it was, or zero if the file has grown past it. */
  lemma {:induction false} UnwrittenShows(bytes: seq<byte>, writes: seq<Write>, q: nat)
    requires q < |Replay(bytes, writes)| && forall j: nat | j < |writes| :: !WritesTo(writes[j], q)
    ensures Replay(bytes, writes)[q] == if q < |bytes| then bytes[q] else 0
  {
    if writes != [] {
      var last := |writes| - 1;
      assert !WritesTo(writes[last], q);
      if q < |Replay(bytes, writes[..last])| {
        UnwrittenShows(bytes, writes[..last], q);
      } else {
        ReplayGrows(bytes, writes[..last], 0);
        assert writes[..last][..0] == [];
      }
    }
  }

  lemma TouchesMore(b0: seq<bool>, d0: Disk, b1: seq<bool>, d1: Disk, b2: seq<bool>, d2: Disk, sector: nat,
                    a: seq<nat>, t: seq<nat>, u: seq<nat>)
    requires Touches(b0, d0, b1, d1, sector, a, t) && Touches(b1, d1, b2, d2, sector, a + t, u)
    ensures Touches(b0, d0, b2, d2, sector, a, t + u)
  {
    TookMore(b0, b1, b2, t, u);
    forall x: nat | x < |d0| && b0[x] && x !in a && x != sector ensures d2[x] == d0[x] {
      assert x !in a + t;
    }
  }

  /** An open file of at most 744 sectors, its inode being up to date on the device. */
  ghost predicate SmallFile(fs: FileSystem, ino: Inode)
    reads fs, fs.freeMap.words, ino
  {
    && InodeOk(fs, ino) && ino.denyWriteCnt == 0 && ino.data.length <= SINGLE_BYTES
    && fs.disk[ino.sector] == Index(ino.data)
  }

  /** One write: it stores its bytes unless fewer sectors are free than it needs. */
  method WriteOne(fs: FileSystem, ino: Inode, w: Write) returns (ok: bool, ghost t: seq<nat>)
    requires SmallFile(fs, ino) && w.offset + |w.buf| <= SINGLE_BYTES
    modifies fs, fs.freeMap.words, ino`data, ino`alloc
    ensures fs.Valid() && Touches(old(fs.Bits()), old(fs.disk), fs.Bits(), fs.disk, ino.sector, old(ino.alloc), t)
    ensures !ok ==> old(ino.data.length) < w.offset + |w.buf|
    ensures !ok ==> Scarce(old(fs.Bits()), Need(old(ino.data.length), w.offset + |w.buf|))
    ensures ok ==> SmallFile(fs, ino) && ino.alloc == old(ino.alloc) + t
    ensures ok ==> Bytes(fs.disk, ino.alloc, ino.data.length) ==
                     Written(old(Bytes(fs.disk, ino.alloc, ino.data.length)), w.offset, w.buf)
  {
    hide FileOk, Owns, Bytes, Written, Touches, Fate, Toll, Need, Scarce;
    NoTrouble(fs.disk, ino.data, ino.alloc, w.offset + |w.buf|);
    TollIsNeed(fs.disk, ino.data, w.offset + |w.buf|);
    var r;
    r, t := WriteAt(fs, ino, w.buf, w.offset);
    ok := r.Wrote?;
    assert w.buf[..|w.buf|] == w.buf;
  }

  lemma {:induction false} ReplayGrows(bytes: seq<byte>, writes: seq<Write>, k: nat)
    requires k <= |writes|
    ensures |Replay(bytes, writes[..k])| <= |Replay(bytes, writes)|
    decreases |writes|
  {
    if k == |writes| {
      assert writes[..k] == writes;
    } else {
      var front := writes[..|writes| - 1];
      ReplayGrows(bytes, front, k);
      assert front[..k] == writes[..k];
    }
  }

  lemma ReplayCovers(bytes: seq<byte>, writes: seq<Write>, k: nat)
    requires k < |writes|
    ensures writes[k].offset + |writes[k].buf| <= |Replay(bytes, writes)|
  {
    assert writes[..k + 1][..k] == writes[..k];
    ReplayGrows(bytes, writes, k + 1);
  }

  /** Running out of sectors in write k. */
  lemma WriteScarce(b0: seq<bool>, b1: seq<bool>, d0: Disk, node0: InodeDisk, d1: Disk, node1: InodeDisk, a: seq<nat>, t: seq<nat>,
                    bytes: seq<byte>, writes: seq<Write>, k: nat)
    requires FileOk(d0, node0, a) && FileOk(d1, node1, a + t) && Took(b0, b1, t) && k < |writes|
    requires node1.length == |Replay(bytes, writes[..k])| < writes[k].offset + |writes[k].buf|
    requires Scarce(b1, Need(node1.length, writes[k].offset + |writes[k].buf|))
    ensures Scarce(b0, Need(node0.length, |Replay(bytes, writes)|))
  {
    hide FileOk, Took, Scarce, Need, Replay;
    ReplayCovers(bytes, writes, k);
    NeedGrows(node1.length, writes[k].offset + |writes[k].buf|, |Replay(bytes, writes)|);
    ScarceMore(b1, Need(node1.length, writes[k].offset + |writes[k].buf|), Need(node1.length, |Replay(bytes, writes)|));
    ScarceAfter(b0, b1, t, Need(node1.length, |Replay(bytes, writes)|));
    GrownBy(d0, node0, d1, node1, a, t);
    NeedSplits(node0.length, node1.length, |Replay(bytes, writes)|);
  }

  /** A run of writes: it goes through unless fewer sectors are free than the file comes to need. */
  method WriteAll(fs: FileSystem, ino: Inode, writes: seq<Write>) returns (ok: bool, ghost t: seq<nat>)
    requires SmallFile(fs, ino) && Small(writes)
    modifies fs, fs.freeMap.words, ino`data, ino`alloc
    ensures fs.Valid() && Touches(old(fs.Bits()), old(fs.disk), fs.Bits(), fs.disk, ino.sector, old(ino.alloc), t)
    ensures !ok ==> Scarce(old(fs.Bits()), Need(old(ino.data.length),
                                                |Replay(old(Bytes(fs.disk, ino.alloc, ino.data.length)), writes)|))
    ensures ok ==> SmallFile(fs, ino) && ino.alloc == old(ino.alloc) + t
    ensures ok ==> Bytes(fs.disk, ino.alloc, ino.data.length) ==
                     Replay(old(Bytes(fs.disk, ino.alloc, ino.data.length)), writes)
  {
    hide FileOk, Owns, Bytes, Written, Touches, Need;
    ghost var b0, d0, a0, node0 := fs.Bits(), fs.disk, ino.alloc, ino.data;
    ghost var bytes0 := Bytes(fs.disk, ino.alloc, ino.data.length);
    t := [];
    assert a0 + t == a0;
    TouchesNothing(b0, d0, ino.sector, a0);
    for k := 0 to |writes|
      invariant SmallFile(fs, ino) && ino.alloc == a0 + t
      invariant Touches(b0, d0, fs.Bits(), fs.disk, ino.sector, a0, t)
      invariant Bytes(fs.disk, ino.alloc, ino.data.length) == Replay(bytes0, writes[..k])
    {
      ghost var b1, d1, node1 := fs.Bits(), fs.disk, ino.data;
      ghost var u;
      ok, u := WriteOne(fs, ino, writes[k]);
      TouchesMore(b0, d0, b1, d1, fs.Bits(), fs.disk, ino.sector, a0, t, u);
      if !ok {
        TouchesTook(b0, d0, b1, d1, ino.sector, a0, t);
        WriteScarce(b0, b1, d0, node0, d1, node1, a0, t, bytes0, writes, k);
        t := t + u;
        return;
      }
      Assoc(a0, t, u);
      t := t + u;
      assert writes[..k + 1][..k] == writes[..k];
    }
    assert writes[..|writes|] == writes;
    ok := true;
  }

  lemma TouchesNothing(bits: seq<bool>, disk: Disk, sector: nat, a: seq<nat>)
    requires |bits| == |disk|
    ensures Touches(bits, disk, bits, disk, sector, a, [])
  {
  }

  lemma TouchesTook(b0: seq<bool>, d0: Disk, b1: seq<bool>, d1: Disk, sector: nat, a: seq<nat>, t: seq<nat>)
    requires Touches(b0, d0, b1, d1, sector, a, t)
    ensures Took(b0, b1, t) && |b0| == |d0| == |d1|
  {
  }

  /** Taking some sectors and releasing the same ones, in whatever order, changes nothing. */
  lemma RemovalRestores(b0: seq<bool>, b1: seq<bool>, b2: seq<bool>, sector: nat, a: seq<nat>)
    requires Took(b0, b1, [sector] + a) && Released(b1, b2, a + [sector])
    ensures b2 == b0
  {
    assert forall x: nat :: x in [sector] + a <==> x in a + [sector];
  }

  function Zeros(n: nat): seq<byte> {
    seq(n, _ => 0)
  }

  /** Sectors of a file of length bytes, with its inode. */
  function Whole(length: nat): nat {
    1 + Held(SectorsFor(length))
  }

  /** A file at ino has been made, of the sectors that were free before, and nothing in use has changed. */
  twostate predicate HasMade(fs: FileSystem, new ino: Inode, bytes: seq<byte>)
    reads fs, fs.freeMap.words, ino
  {
    && old(fs.Valid()) && SmallFile(fs, ino) && Took(old(fs.Bits()), fs.Bits(), [ino.sector] + ino.alloc)
    && Bytes(fs.disk, ino.alloc, ino.data.length) == bytes
  }

  lemma TookNothing(bits: seq<bool>)
    ensures Took(bits, bits, [])
  {
  }

  lemma MadeOwned(b0: seq<bool>, bits: seq<bool>, sector: nat, a: seq<nat>)
    requires Took(b0, bits, [sector] + a)
    ensures Owns(bits, sector, a)
  {
    var all := [sector] + a;
    assert all[0] == sector && sector in all && forall i: nat | i < |a| :: all[i + 1] == a[i];
    forall i: nat, j: nat | i < j < |a| ensures a[i] != a[j] {
      assert all[i + 1] != all[j + 1];
    }
    forall x | x in a ensures x in all && x != sector {
      var i: nat :| i < |a| && a[i] == x;
      assert all[0] != all[i + 1];
    }
  }

  lemma NoneSpare(bits: seq<bool>)
    requires Scarce(bits, 1)
    ensures Spare(bits) == 0
  {
  }

  lemma MadeZero(disk: Disk, a: seq<nat>, length: nat)
    requires forall q: nat :: ByteAt(disk, a, q) == 0
    ensures Bytes(disk, a, length) == Zeros(length)
  {
  }

  /** A file that was made shows that its sectors were free. */
  lemma MadeWasAffordable(b0: seq<bool>, b1: seq<bool>, disk: Disk, node: InodeDisk, sector: nat, a: seq<nat>)
    requires FileOk(disk, node, a) && Took(b0, b1, [sector] + a)
    ensures !Scarce(b0, Whole(node.length))
  {
    FreeCount(b0, b1, [sector] + a);
  }

  /**
   * Free sectors after a file could not be created: the index blocks given back, and the inode's sector, unless that
   * is sector 0.  All the others that were free stay taken.
   */
  ghost function FileBack(bits: seq<bool>): nat {
    if Spare(bits) == 0 then 0 else (if InUse(bits, 0) then 1 else 0) + InodeBack(Spare(bits) - 1)
  }

  predicate InUse(bits: seq<bool>, x: nat) {
    x < |bits| && bits[x]
  }

  /** A creation that failed has kept no sector if and only if at most the inode's could be had. */
  lemma FailureKeeps(bits: seq<bool>)
    ensures FileBack(bits) <= Spare(bits)
    ensures FileBack(bits) == Spare(bits) <==> Spare(bits) == 0 || (Spare(bits) == 1 && InUse(bits, 0))
  {
    hide Spare;
    if Spare(bits) > 0 {
      FewGoBack(Spare(bits) - 1);
    }
  }

  lemma FewGoBack(p: nat)
    ensures InodeBack(p) <= p && (InodeBack(p) == p <==> p == 0) && InodeBack(p) <= 2
  {
  }

  /** Allocates an inode sector, creates a file of length zeros there, and opens it; or gives the inode sector back. */
  method NewFile(fs: FileSystem, length: nat) returns (r: Option<Inode>, ghost t: seq<nat>)
    requires fs.Valid() && length <= SINGLE_BYTES
    modifies fs, fs.freeMap.words
    ensures fs.Valid() && Took(old(fs.Bits()), fs.Bits(), t) && Kept(old(fs.Bits()), old(fs.disk), fs.disk, {})
    ensures r.None? <==> Scarce(old(fs.Bits()), Whole(length))
    ensures r.None? ==> Spare(fs.Bits()) == FileBack(old(fs.Bits()))
    ensures r.Some? ==> fresh(r.value) && HasMade(fs, r.value, Zeros(length)) && r.value.data.length == length
  {
    hide Took, FileOk, Bytes, Scarce, Spare, Owns, InodeBack;
    ghost var b0 := fs.Bits();
    t := [];
    TookNothing(b0);
    var sector := fs.Allocate();
    if sector.None? {
      NoneSpare(b0);
      ScarceMore(b0, 1, Whole(length));
      return None, t;
    }
    ghost var b1 := fs.Bits();
    var ok;
    ghost var a;
    ok, a := Create(fs, sector.value, length);
    SectorsGrow(length, SINGLE_BYTES);
    TookMore(b0, b1, fs.Bits(), [sector.value], a);
    t := [sector.value] + a;
    if !ok {
      FreeCount(b0, b1, [sector.value]);
      ScarceAfter(b0, b1, [sector.value], Wanted(length));
      if sector.value != 0 {
        GiveBack(fs, sector.value, b0, a);
        t := a;
      }
      return None, t;
    }
    MadeOwned(b0, fs.Bits(), sector.value, a);
    MadeZero(fs.disk, a, length);
    var node := NodeAt(fs.disk, sector.value);
    MadeWasAffordable(b0, fs.Bits(), fs.disk, node, sector.value, a);
    var ino := new Inode(sector.value, node, a);
    r := Some(ino);
  }

  lemma KeptThroughout(b0: seq<bool>, d0: Disk, b1: seq<bool>, d1: Disk, b2: seq<bool>, d2: Disk, sector: nat,
                       a: seq<nat>, t: seq<nat>)
    requires Took(b0, b1, [sector] + a) && Kept(b0, d0, d1, {}) && Touches(b1, d1, b2, d2, sector, a, t)
    ensures Kept(b0, d0, d2, {}) && Took(b0, b2, [sector] + (a + t))
  {
    forall x: nat | x < |d0| && b0[x] ensures d2[x] == d0[x] {
      assert x !in [sector] + a;
    }
    TookMore(b0, b1, b2, [sector] + a, t);
    assert [sector] + a + t == [sector] + (a + t);
  }

  lemma WholeScarce(b0: seq<bool>, b1: seq<bool>, disk: Disk, node: InodeDisk, sector: nat, a: seq<nat>, goal: nat)
    requires FileOk(disk, node, a) && Took(b0, b1, [sector] + a) && Scarce(b1, Need(node.length, goal))
    ensures Scarce(b0, Whole(goal))
  {
    ScarceAfter(b0, b1, [sector] + a, Need(node.length, goal));
  }

  /** A new file, and a run of writes to it. */
  method WrittenFile(fs: FileSystem, length: nat, writes: seq<Write>) returns (r: Option<Inode>, ghost t: seq<nat>)
    requires fs.Valid() && length <= SINGLE_BYTES && Small(writes)
    modifies fs, fs.freeMap.words
    ensures fs.Valid() && Took(old(fs.Bits()), fs.Bits(), t) && Kept(old(fs.Bits()), old(fs.disk), fs.disk, {})
    ensures r.None? ==> Scarce(old(fs.Bits()), Whole(|Replay(Zeros(length), writes)|))
    ensures Scarce(old(fs.Bits()), Whole(length)) ==> r.None? && Spare(fs.Bits()) == FileBack(old(fs.Bits()))
    ensures r.Some? ==> HasMade(fs, r.value, Replay(Zeros(length), writes))
  {
    hide FileOk, Owns, Bytes, Written, Touches, Took, Kept, Need, Whole, Scarce, Spare, FileBack;
    ghost var b0, d0, end := fs.Bits(), fs.disk, |Replay(Zeros(length), writes)|;
    r, t := NewFile(fs, length);
    if r.None? {
      WholeGrows(b0, Zeros(length), writes);
      return;
    }
    ghost var b1, d1, a1, node1 := fs.Bits(), fs.disk, r.value.alloc, r.value.data;
    var ok;
    ghost var u;
    ok, u := WriteAll(fs, r.value, writes);
    KeptThroughout(b0, d0, b1, d1, fs.Bits(), fs.disk, r.value.sector, a1, u);
    t := [r.value.sector] + (a1 + u);
    if !ok {
      WholeScarce(b0, b1, d1, node1, r.value.sector, a1, end);
      return None, t;
    }
  }

  lemma WholeGrows(bits: seq<bool>, bytes: seq<byte>, writes: seq<Write>)
    requires Scarce(bits, Whole(|bytes|))
    ensures Scarce(bits, Whole(|Replay(bytes, writes)|))
  {
    ReplayGrows(bytes, writes, 0);
    assert writes[..0] == [];
    NeedGrows(0, |bytes|, |Replay(bytes, writes)|);
  }

  /**
   * Conservation and contents over a whole life.  If and only if the device has as many free sectors as the file
   * comes to need, a file of at most 744 sectors reads as the plain byte sequence its writes describe; removing it
   * then leaves the free map as it was before.  In any case the sectors in use before are as they were.  If it could not
   * even be created, what is still free is told from what was free before.
   */
  method Lifetime(fs: FileSystem, length: nat, writes: seq<Write>) returns (content: Option<seq<byte>>, ghost t: seq<nat>)
    requires fs.Valid() && |fs.disk| > 0 && fs.Bits()[0]
    requires length <= SINGLE_BYTES && Small(writes)
    modifies fs, fs.freeMap.words
    ensures fs.Valid() && Kept(old(fs.Bits()), old(fs.disk), fs.disk, {})
    ensures content.None? <==> Scarce(old(fs.Bits()), Whole(|Replay(Zeros(length), writes)|))
    ensures content.None? ==> Took(old(fs.Bits()), fs.Bits(), t)
    ensures Scarce(old(fs.Bits()), Whole(length)) ==> Spare(fs.Bits()) == FileBack(old(fs.Bits()))
    ensures content.Some? ==> content.value == Replay(Zeros(length), writes) && fs.Bits() == old(fs.Bits())
  {
    hide FileOk, Bytes, Written, Need, Whole, Scarce, Spare, FileBack;
    ghost var b0 := fs.Bits();
    var file;
    file, t := WrittenFile(fs, length, writes);
    if file.None? {
      return None, t;
    }
    var ino := file.value;
    ghost var b1 := fs.Bits();
    MadeWasAffordable(b0, b1, fs.disk, ino.data, ino.sector, ino.alloc);
    var bytes := ReadAt(fs, ino, ino.data.length, 0);
    content := Some(bytes);
    assert 0 !in ino.alloc by {
      assert forall x | x in ino.alloc :: x in [ino.sector] + ino.alloc;
    }
    SectorsGrow(ino.data.length, SINGLE_BYTES);
    var _ := FreeAll(fs, ino.sector, ino.alloc);
    RemovalRestores(b0, b1, fs.Bits(), ino.sector, ino.alloc);
  }
}
