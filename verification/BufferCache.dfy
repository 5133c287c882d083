/** The write-back cache of 64 sectors (filesys/cache.c). */
module BufferCache {
  import opened Storage

  const CACHE_SECTOR_CNT := 64

  /** struct cte, without its lock. */
  datatype Cte = Cte(inUse: bool, sector: nat, accessedCnt: nat, dirtyCnt: nat)

  predicate Holds(e: Cte, b: nat) {
    e.inUse && e.sector == b
  }

  /** The first entry that holds sector b, or the number of entries. */
  function Find(ct: seq<Cte>, b: nat): (i: nat)
    ensures i <= |ct| && (i < |ct| ==> Holds(ct[i], b)) && forall j: nat | j < i :: !Holds(ct[j], b)
  {
    if ct == [] || Holds(ct[0], b) then 0 else 1 + Find(ct[1..], b)
  }

  /** Sector b as a reader sees it: from the cache if it is there, from the device otherwise. */
  function View(ct: seq<Cte>, cache: seq<Sector>, device: seq<Sector>, b: nat): Sector
    requires |cache| == |ct| && b < |device|
  {
    var i := Find(ct, b);
    if i < |ct| then cache[i] else device[b]
  }

  /** The disk that the cache and the device stand for. */
  function Logical(ct: seq<Cte>, cache: seq<Sector>, device: seq<Sector>): (r: seq<Sector>)
    requires |cache| == |ct|
    ensures |r| == |device|
  {
    seq(|device|, b requires 0 <= b < |device| => View(ct, cache, device, b))
  }

  /** No sector is cached twice. */
  ghost predicate Distinct(ct: seq<Cte>) {
    forall i: nat, j: nat | i < j < |ct| && ct[i].inUse && ct[j].inUse :: ct[i].sector != ct[j].sector
  }

  /** Entry i caches a sector of the device, and equals it when clean. */
  ghost predicate EntryOk(ct: seq<Cte>, cache: seq<Sector>, device: seq<Sector>, i: nat)
    requires i < |ct| == |cache|
  {
    ct[i].inUse ==> ct[i].sector < |device| && (ct[i].dirtyCnt == 0 ==> cache[i] == device[ct[i].sector])
  }

  ghost predicate Inv(ct: seq<Cte>, cache: seq<Sector>, device: seq<Sector>) {
    && |ct| == |cache| == CACHE_SECTOR_CNT && Distinct(ct)
    && forall i: nat | i < |ct| :: EntryOk(ct, cache, device, i)
  }

  lemma FindOnly(ct: seq<Cte>, i: nat)
    requires Distinct(ct) && i < |ct| && ct[i].inUse
    ensures Find(ct, ct[i].sector) == i
  {
    var j := Find(ct, ct[i].sector);
    assert Holds(ct[i], ct[i].sector);
  }

  // ---- changes of one entry

  /** Writing into a cached sector changes that sector and no other. */
  lemma CachedWrite(ct: seq<Cte>, cache: seq<Sector>, device: seq<Sector>, i: nat, e: Cte, data: Sector)
    requires Inv(ct, cache, device) && i < |ct| && ct[i].inUse && e.inUse && e.sector == ct[i].sector
    requires e.dirtyCnt == 0 ==> ct[i].dirtyCnt == 0 && data == cache[i]
    ensures e.sector < |device| && Inv(ct[i := e], cache[i := data], device)
    ensures Logical(ct[i := e], cache[i := data], device) == Logical(ct, cache, device)[e.sector := data]
  {
    var ct', cache' := ct[i := e], cache[i := data];
    assert EntryOk(ct, cache, device, i);
    forall j: nat | j < |ct'| ensures EntryOk(ct', cache', device, j) {
      assert EntryOk(ct, cache, device, j);
    }
    forall b: nat | b < |device| ensures View(ct', cache', device, b) == if b == e.sector then data else View(ct, cache, device, b) {
      SameFind(ct, ct', b);
      FindOnly(ct, i);
    }
  }

  lemma {:induction false} SameFind(ct: seq<Cte>, ct': seq<Cte>, b: nat)
    requires |ct'| == |ct| && forall j: nat | j < |ct| :: Holds(ct'[j], b) <==> Holds(ct[j], b)
    ensures Find(ct', b) == Find(ct, b)
  {
    var i, i' := Find(ct, b), Find(ct', b);
    assert i < |ct| ==> Holds(ct'[i], b);
    assert i' < |ct| ==> Holds(ct[i'], b);
  }

  /** Writing a cached sector back changes nothing that a reader sees. */
  lemma WriteBack(ct: seq<Cte>, cache: seq<Sector>, device: seq<Sector>, i: nat)
    requires Inv(ct, cache, device) && i < |ct| && ct[i].inUse
    ensures ct[i].sector < |device|
    ensures var ct', device' := ct[i := ct[i].(dirtyCnt := 0)], device[ct[i].sector := cache[i]];
            && Inv(ct', cache, device') && Logical(ct', cache, device') == Logical(ct, cache, device)
            && Logical(ct, cache, device') == Logical(ct, cache, device)
  {
    assert EntryOk(ct, cache, device, i);
    var ct', device' := ct[i := ct[i].(dirtyCnt := 0)], device[ct[i].sector := cache[i]];
    forall j: nat | j < |ct'| ensures EntryOk(ct', cache, device', j) {
      assert EntryOk(ct, cache, device, j);
    }
    forall b: nat | b < |device|
      ensures View(ct', cache, device', b) == View(ct, cache, device, b) == View(ct, cache, device', b)
    {
      SameFind(ct, ct', b);
      FindOnly(ct, i);
    }
  }

  /** Giving entry i, which is unused or equal to the device, to sector b and reading b into it. */
  lemma Load(ct: seq<Cte>, cache: seq<Sector>, device: seq<Sector>, i: nat, b: nat)
    requires Inv(ct, cache, device) && i < |ct| && b < |device| && Find(ct, b) == |ct|
    requires ct[i].inUse ==> ct[i].sector < |device| && cache[i] == device[ct[i].sector]
    ensures var ct', cache' := ct[i := Cte(true, b, 0, 0)], cache[i := device[b]];
            Inv(ct', cache', device) && Logical(ct', cache', device) == Logical(ct, cache, device)
  {
    var ct', cache' := ct[i := Cte(true, b, 0, 0)], cache[i := device[b]];
    assert forall j: nat | j < |ct| :: !Holds(ct[j], b);
    forall j: nat | j < |ct'| ensures EntryOk(ct', cache', device, j) {
      assert EntryOk(ct, cache, device, j);
    }
    forall a: nat | a < |device| ensures View(ct', cache', device, a) == View(ct, cache, device, a) {
      LoadView(ct, cache, device, i, b, a);
    }
  }

  lemma LoadView(ct: seq<Cte>, cache: seq<Sector>, device: seq<Sector>, i: nat, b: nat, a: nat)
    requires |cache| == |ct| && Distinct(ct) && i < |ct| && b < |device| && Find(ct, b) == |ct| && a < |device|
    requires ct[i].inUse ==> ct[i].sector < |device| && cache[i] == device[ct[i].sector]
    ensures View(ct[i := Cte(true, b, 0, 0)], cache[i := device[b]], device, a) == View(ct, cache, device, a)
  {
    var ct' := ct[i := Cte(true, b, 0, 0)];
    var j := Find(ct', a);
    if a == b {
      assert Holds(ct'[i], b) && forall k: nat | k < |ct| :: !Holds(ct[k], b);
    } else if Holds(ct[i], a) {
      FindOnly(ct, i);
      assert forall k: nat | k < |ct'| :: !Holds(ct'[k], a);
    } else {
      SameFind(ct, ct', a);
    }
  }

  // ---- the choice of an entry

  /** Entry r is to go: of the least accessed ones the first, or the first from victim on if that one is before it. */
  ghost predicate IsVictim(ct: seq<Cte>, victim: nat, r: nat) {
    && r < |ct| && (forall j: nat | j < |ct| :: ct[r].accessedCnt <= ct[j].accessedCnt)
    && (r < victim ==> forall j: nat | victim <= j < |ct| :: ct[j].accessedCnt > ct[r].accessedCnt)
    && (forall j: nat | j < r && (r < victim || victim <= j) :: ct[j].accessedCnt > ct[r].accessedCnt)
  }

  /** Entry r is the first unused one, or all are in use and r is to go. */
  ghost predicate IsChosen(ct: seq<Cte>, victim: nat, r: nat) {
    && r < |ct|
    && if ct[r].inUse then IsVictim(ct, victim, r) && (forall j: nat | j < |ct| :: ct[j].inUse)
       else forall j: nat | j < r :: ct[j].inUse
  }

  /** One more use of sector b has been counted, and dirty more writes; nothing else in the table has changed. */
  ghost predicate Counted(ct: seq<Cte>, ct': seq<Cte>, victim: nat, b: nat, dirty: nat) {
    var i := Find(ct, b);
    if i < |ct| then
      ct' == ct[i := ct[i].(accessedCnt := ct[i].accessedCnt + 1, dirtyCnt := ct[i].dirtyCnt + dirty)]
    else
      exists r: nat | r < |ct| && IsChosen(ct, victim, r) :: ct' == ct[r := Cte(true, b, 1, dirty)]
  }

  class Cache {
    var ct: seq<Cte>
    var cache: seq<Sector>
    var device: seq<Sector>
    var victimIdx: nat

    ghost predicate Valid()
      reads this
    {
      Inv(ct, cache, device)
    }

    /** What the file system takes to be on the disk. */
    ghost function Disk(): (r: seq<Sector>)
      requires Valid()
      reads this
      ensures |r| == |device|
    {
      Logical(ct, cache, device)
    }

    /** cache_init. */
    constructor (device: seq<Sector>)
      ensures Valid() && Disk() == device
    {
      this.device, victimIdx := device, 0;
      ct := seq(CACHE_SECTOR_CNT, _ => Cte(false, 0, 0, 0));
      cache := seq(CACHE_SECTOR_CNT, _ => ZeroSector());
      new;
      assert forall b: nat | b < |device| :: Find(ct, b) == |ct|;
    }

    /** The loops that look for a sector. */
    method Lookup(b: nat) returns (i: nat)
      requires Valid()
      ensures i == Find(ct, b)
    {
      i := 0;
      while i < CACHE_SECTOR_CNT
        invariant i <= |ct| && forall j: nat | j < i :: !Holds(ct[j], b)
      {
        if ct[i].inUse && ct[i].sector == b {
          break;
        }
        i := i + 1;
      }
    }

    /** The loop of cache_alloc. */
    method Choose() returns (r: nat)
      requires Valid()
      ensures IsChosen(ct, victimIdx, r)
    {
      var min: int := -1;
      r := 0;
      var i := 0;
      while i < CACHE_SECTOR_CNT
        invariant i <= |ct| && (forall j: nat | j < i :: ct[j].inUse)
        invariant if i == 0 then min == -1 else min >= 0 && r < i && min == ct[r].accessedCnt && IsVictim(ct[..i], victimIdx, r)
      {
        if !ct[i].inUse {
          return i;
        }
        if min == -1 || ct[i].accessedCnt < min {
          r, min := i, ct[i].accessedCnt;
        } else if ct[i].accessedCnt == min {
          r := if r < victimIdx && victimIdx <= i then i else r;
        }
        i := i + 1;
      }
      assert ct[..i] == ct;
    }

    /** cache_alloc, and the read of the sector that always follows it. */
    method Fetch(b: nat) returns (i: nat)
      requires Valid() && b < |device| && Find(ct, b) == |ct|
      modifies this
      ensures Valid() && Disk() == old(Disk())
      ensures IsChosen(old(ct), old(victimIdx), i) && ct == old(ct)[i := Cte(true, b, 0, 0)]
      ensures victimIdx == old(victimIdx) + if old(ct)[i].inUse then 1 else 0
    {
      i := Choose();
      if ct[i].inUse {
        WriteBack(ct, cache, device, i);
        assert EntryOk(ct, cache, device, i);
        if ct[i].dirtyCnt > 0 {
          device := device[ct[i].sector := cache[i]];
        }
        victimIdx := victimIdx + 1;
      }
      StillInv(old(ct), cache, old(device), device, i);
      Load(ct, cache, device, i, b);
      ct := ct[i := Cte(true, b, 0, 0)];
      cache := cache[i := device[b]];
    }

    /** cache_read_at. */
    method ReadAt(b: nat, size: nat, ofs: nat) returns (buffer: seq<byte>)
      requires Valid() && b < |device| && ofs + size <= BLOCK_SECTOR_SIZE
      modifies this
      ensures Valid() && Disk() == old(Disk()) && buffer == Disk()[b][ofs..ofs + size]
      ensures Counted(old(ct), ct, old(victimIdx), b, 0)
    {
      var i := Lookup(b);
      if i == CACHE_SECTOR_CNT {
        i := Fetch(b);
        FindOnly(ct, i);
      }
      buffer := cache[i][ofs..ofs + size];
      CachedWrite(ct, cache, device, i, ct[i].(accessedCnt := ct[i].accessedCnt + 1), cache[i]);
      SameDisk(Disk(), b);
      assert cache[i := cache[i]] == cache;
      ct := ct[i := ct[i].(accessedCnt := ct[i].accessedCnt + 1)];
    }

    /** cache_write_at. */
    method WriteAt(b: nat, buffer: seq<byte>, ofs: nat)
      requires Valid() && b < |device| && ofs + |buffer| <= BLOCK_SECTOR_SIZE
      modifies this
      ensures Valid() && Disk() == old(Disk())[b := Patched(old(Disk())[b], ofs, buffer)]
      ensures Counted(old(ct), ct, old(victimIdx), b, 1)
    {
      var i := Lookup(b);
      if i == CACHE_SECTOR_CNT {
        i := Fetch(b);
        FindOnly(ct, i);
      }
      var e := ct[i].(accessedCnt := ct[i].accessedCnt + 1, dirtyCnt := ct[i].dirtyCnt + 1);
      CachedWrite(ct, cache, device, i, e, Patched(cache[i], ofs, buffer));
      cache := cache[i := Patched(cache[i], ofs, buffer)];
      ct := ct[i := e];
    }

    /** cache_flush. */
    method Flush()
      requires Valid()
      modifies this
      ensures Valid() && Disk() == old(Disk()) && device == Disk()
      ensures |ct| == old(|ct|) && forall i: nat | i < |ct| :: ct[i] == if old(ct)[i].inUse then old(ct)[i].(dirtyCnt := 0) else old(ct)[i]
    {
      for i := 0 to CACHE_SECTOR_CNT
        invariant Valid() && Disk() == old(Disk())
        invariant |ct| == old(|ct|) && forall j: nat | i <= j < |ct| :: ct[j] == old(ct)[j]
        invariant forall j: nat | j < i :: ct[j] == if old(ct)[j].inUse then old(ct)[j].(dirtyCnt := 0) else old(ct)[j]
      {
        if ct[i].inUse && ct[i].dirtyCnt > 0 {
          WriteBack(ct, cache, device, i);
          device := device[ct[i].sector := cache[i]];
          ct := ct[i := ct[i].(dirtyCnt := 0)];
        }
      }
      CleanDisk(ct, cache, device);
    }
  }

  lemma SameDisk(disk: seq<Sector>, b: nat)
    requires b < |disk|
    ensures disk[b := disk[b]] == disk
  {
  }

  /** The device stays as it was, or has just received entry i. */
  lemma StillInv(ct: seq<Cte>, cache: seq<Sector>, device: seq<Sector>, device': seq<Sector>, i: nat)
    requires Inv(ct, cache, device) && i < |ct|
    requires device' == device || (ct[i].inUse && ct[i].sector < |device| && device' == device[ct[i].sector := cache[i]])
    ensures Inv(ct, cache, device')
  {
    forall j: nat | j < |ct| ensures EntryOk(ct, cache, device', j) {
      assert EntryOk(ct, cache, device, j);
    }
  }

  lemma CleanDisk(ct: seq<Cte>, cache: seq<Sector>, device: seq<Sector>)
    requires Inv(ct, cache, device) && forall i: nat | i < |ct| :: ct[i].inUse ==> ct[i].dirtyCnt == 0
    ensures Logical(ct, cache, device) == device
  {
    forall b: nat | b < |device| ensures View(ct, cache, device, b) == device[b] {
      var i := Find(ct, b);
      assert i < |ct| ==> EntryOk(ct, cache, device, i);
    }
  }

  // ---- runs against a plain disk

  datatype Op = Read(b: nat, size: nat, ofs: nat) | Write(b: nat, buffer: seq<byte>, ofs: nat) | Flush

  predicate OpOk(op: Op, n: nat) {
    match op
    case Read(b, size, ofs) => b < n && ofs + size <= BLOCK_SECTOR_SIZE
    case Write(b, buffer, ofs) => b < n && ofs + |buffer| <= BLOCK_SECTOR_SIZE
    case Flush => true
  }

  /** What an uncached disk does. */
  function PlainDisk(disk: seq<Sector>, op: Op): seq<Sector>
    requires OpOk(op, |disk|)
  {
    match op
    case Write(b, buffer, ofs) => disk[b := Patched(disk[b], ofs, buffer)]
    case _ => disk
  }

  function PlainOutput(disk: seq<Sector>, op: Op): seq<byte>
    requires OpOk(op, |disk|)
  {
    match op
    case Read(b, size, ofs) => disk[b][ofs..ofs + size]
    case _ => []
  }

  function PlainRun(disk: seq<Sector>, ops: seq<Op>): (r: (seq<Sector>, seq<seq<byte>>))
    requires forall i: nat | i < |ops| :: OpOk(ops[i], |disk|)
    ensures |r.0| == |disk|
  {
    if ops == [] then (disk, [])
    else
      var n := |ops| - 1;
      var before := PlainRun(disk, ops[..n]);
      (PlainDisk(before.0, ops[n]), before.1 + [PlainOutput(before.0, ops[n])])
  }

  method Do(c: Cache, op: Op) returns (output: seq<byte>)
    requires c.Valid() && OpOk(op, |c.device|)
    modifies c
    ensures c.Valid() && c.Disk() == PlainDisk(old(c.Disk()), op) && output == PlainOutput(old(c.Disk()), op)
  {
    output := [];
    match op
    case Read(b, size, ofs) => output := c.ReadAt(b, size, ofs);
    case Write(b, buffer, ofs) => c.WriteAt(b, buffer, ofs);
    case Flush => c.Flush();
  }

  /** The cache refines a plain disk: any run of calls returns what an uncached disk would. */
  method Run(c: Cache, ops: seq<Op>) returns (outputs: seq<seq<byte>>)
    requires c.Valid() && forall i: nat | i < |ops| :: OpOk(ops[i], |c.device|)
    modifies c
    ensures c.Valid() && (c.Disk(), outputs) == PlainRun(old(c.Disk()), ops)
  {
    outputs := [];
    for k := 0 to |ops|
      invariant c.Valid() && |c.device| == old(|c.device|)
      invariant (c.Disk(), outputs) == PlainRun(old(c.Disk()), ops[..k])
    {
      var output := Do(c, ops[k]);
      outputs := outputs + [output];
      assert ops[..k + 1][..k] == ops[..k];
    }
    assert ops[..|ops|] == ops;
  }
}
