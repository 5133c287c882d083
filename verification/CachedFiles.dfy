/** Reading and writing within a file through the buffer cache: inode_read_at and inode_write_at on bytes. */
module CachedFiles {
  import opened Storage
  import opened FileLayout
  import opened FileShape
  import opened FileData
  import opened DiskBytes
  import BufferCache

  /** The index blocks on the way to byte q of a file. */
  lemma OnTheWay(disk: Disk, node: InodeDisk, a: seq<nat>, q: nat)
    requires FileOk(disk, node, a) && q < node.length
    ensures |node.sector| == TOTAL_SECTOR_CNT && node.length <= FILE_BYTES
    ensures var i := q / 512;
            && (DIRECT_SECTOR_CNT <= i < SINGLE_MAX ==> IndexAt(disk, node.sector[119 + (i - 119) / 125]))
            && (i >= SINGLE_MAX ==> IndexAt(disk, node.sector[124]) && i < DATA_MAX &&
                                    IndexAt(disk, NodeAt(disk, node.sector[124]).sector[(i - 744) / 125]))
  {
    var i := q / 512;
    DataPosBound(i, SectorsFor(node.length));
    if i >= SINGLE_MAX {
      var j := (i - 744) / 125;
      assert OuterAt(disk, a, OUTER) && LeafAt(disk, a, OUTER + 1 + 126 * j);
    } else if i >= DIRECT_SECTOR_CNT {
      var j := (i - 119) / 125;
      assert LeafAt(disk, a, 119 + 126 * j);
    }
  }

  predicate IndexAt(disk: Disk, x: nat) {
    x < |disk| && disk[x].Index? && |disk[x].node.sector| == TOTAL_SECTOR_CNT
  }

  /** byte_to_sector, its index blocks read through the cache. */
  method SectorOf(c: BufferCache.Cache, node: InodeDisk, pos: nat, ghost disk: Disk, ghost a: seq<nat>) returns (x: nat)
    requires c.Valid() && Stores(c.Disk(), disk) && FileOk(disk, node, a) && pos < node.length
    modifies c
    ensures c.Valid() && Stores(c.Disk(), disk)
    ensures DataPos(pos / 512) < |a| && x == a[DataPos(pos / 512)] && x < |c.device| == |disk| && disk[x].Data?
  {
    hide FileOk, Encode, Storable;
    OnTheWay(disk, node, a, pos);
    DataSector(disk, node, a, pos);
    var idx := pos / 512;
    if idx < DIRECT_SECTOR_CNT {
      return node.sector[idx];
    }
    idx := idx - DIRECT_SECTOR_CNT;
    if idx < INDIRECT_SECTOR_CNT * TOTAL_SECTOR_CNT {
      var leaf := ReadNode(c, node.sector[DIRECT_SECTOR_CNT + idx / TOTAL_SECTOR_CNT], disk);
      return leaf.sector[idx % TOTAL_SECTOR_CNT];
    }
    idx := idx - INDIRECT_SECTOR_CNT * TOTAL_SECTOR_CNT;
    var outer := ReadNode(c, node.sector[124], disk);
    var leaf := ReadNode(c, outer.sector[idx / TOTAL_SECTOR_CNT], disk);
    x := leaf.sector[idx % TOTAL_SECTOR_CNT];
  }

  /** One turn of the loop of inode_read_at. */
  method ReadPart(c: BufferCache.Cache, node: InodeDisk, at: nat, n: nat, ghost disk: Disk, ghost a: seq<nat>) returns (chunk: seq<byte>)
    requires c.Valid() && Stores(c.Disk(), disk) && FileOk(disk, node, a)
    requires 0 < n <= 512 - at % 512 && at + n <= node.length
    modifies c
    ensures c.Valid() && Stores(c.Disk(), disk)
    ensures chunk == Bytes(disk, a, node.length)[at..at + n]
  {
    hide FileOk, Stores;
    var x := SectorOf(c, node, at, disk, a);
    ChunkBytes(disk, a, node.length, at, n);
    chunk := ReadData(c, x, at % 512, n, disk);
  }

  lemma ChunkFits(length: nat, at: nat, left: nat)
    requires left > 0 && at < length
    ensures 0 < Chunk(length, at, left) <= 512 - at % 512 && at + Chunk(length, at, left) <= length && Chunk(length, at, left) <= left
  {
  }

  /** inode_read_at through the cache: the bytes of the file, and nothing changes. */
  method Read(c: BufferCache.Cache, node: InodeDisk, size: nat, offset: nat, ghost disk: Disk, ghost a: seq<nat>) returns (buf: seq<byte>)
    requires c.Valid() && Stores(c.Disk(), disk) && FileOk(disk, node, a)
    modifies c
    ensures c.Valid() && Stores(c.Disk(), disk)
    ensures var bytes := Bytes(disk, a, node.length);
            buf == if offset < |bytes| then bytes[offset..Min(offset + size, |bytes|)] else []
  {
    hide FileOk, Stores, Bytes, Chunk;
    ghost var bytes := Bytes(disk, a, node.length);
    buf := [];
    var left := size;
    while left > 0 && offset + |buf| < node.length
      invariant 0 <= left <= size && |buf| + left == size && ReadSoFar(bytes, offset, buf)
      invariant c.Valid() && Stores(c.Disk(), disk)
    {
      ChunkFits(node.length, offset + |buf|, left);
      var n := Chunk(node.length, offset + |buf|, left);
      var chunk := ReadPart(c, node, offset + |buf|, n, disk, a);
      ReadMore(bytes, offset, buf, n);
      buf := buf + chunk;
      left := left - n;
    }
    ReadAll(bytes, offset, buf, size, left);
  }

  /** One turn of the loop of inode_write_at. */
  method WritePart(c: BufferCache.Cache, node: InodeDisk, data: seq<byte>, at: nat, ghost disk: Disk, ghost a: seq<nat>,
                   ghost bits: seq<bool>, ghost sector: nat)
    returns (ghost disk': Disk)
    requires c.Valid() && Stores(c.Disk(), disk) && FileOk(disk, node, a) && Owns(bits, sector, a) && |bits| == |disk|
    requires 0 < |data| <= 512 - at % 512 && at + |data| <= node.length
    modifies c
    ensures c.Valid() && Stores(c.Disk(), disk')
    ensures FileOk(disk', node, a) && SameOutside(disk, disk', a)
    ensures Bytes(disk', a, node.length) == Written(Bytes(disk, a, node.length), at, data)
  {
    hide FileOk, Stores, Bytes, Written, Owns;
    var x := SectorOf(c, node, at, disk, a);
    WriteData(c, x, at % 512, data, disk);
    disk' := disk[x := Data(Patched(disk[x].bytes, at % 512, data))];
    StoreChunk(bits, sector, disk, disk', node, a, at, data);
  }

  /** The first bytes of buf are stored, from offset on or the end of the file. */
  ghost predicate Progressed(c: BufferCache.Cache, node: InodeDisk, disk: Disk, disk': Disk, a: seq<nat>, offset: nat, buf: seq<byte>, written: nat)
    reads c
  {
    && c.Valid() && Stores(c.Disk(), disk') && FileOk(disk', node, a) && SameOutside(disk, disk', a)
    && written <= |buf| && (written == 0 || offset + written <= node.length)
    && Bytes(disk', a, node.length) == Written(Bytes(disk, a, node.length), Min(offset, node.length), buf[..written])
  }

  method WriteMore(c: BufferCache.Cache, node: InodeDisk, buf: seq<byte>, offset: nat, written: nat, ghost disk: Disk, ghost disk1: Disk,
                   ghost a: seq<nat>, ghost bits: seq<bool>, ghost sector: nat)
    returns (n: nat, ghost disk': Disk)
    requires Progressed(c, node, disk, disk1, a, offset, buf, written) && Owns(bits, sector, a) && |bits| == |disk|
    requires written < |buf| && offset + written < node.length
    modifies c
    ensures 0 < n <= |buf| - written && Progressed(c, node, disk, disk', a, offset, buf, written + n)
  {
    hide FileOk, Stores, Bytes, Written, Owns, SameOutside, Chunk;
    assert |disk1| == |disk| by {
      SameSize(disk, disk1, a);
    }
    ChunkFits(node.length, offset + written, |buf| - written);
    n := Chunk(node.length, offset + written, |buf| - written);
    disk' := WritePart(c, node, buf[written..][..n], offset + written, disk1, a, bits, sector);
    SameOutsideMore(disk, disk1, disk', a);
    TurnBytes(Bytes(disk, a, node.length), Bytes(disk1, a, node.length), Bytes(disk', a, node.length), offset, buf, written, n);
  }

  lemma SameSize(disk: Disk, disk': Disk, a: seq<nat>)
    requires SameOutside(disk, disk', a)
    ensures |disk'| == |disk|
  {
  }

  /** The loop of inode_write_at through the cache: it stores what lies within the file. */
  method Write(c: BufferCache.Cache, node: InodeDisk, buf: seq<byte>, offset: nat, ghost disk: Disk, ghost a: seq<nat>,
               ghost bits: seq<bool>, ghost sector: nat)
    returns (written: nat, ghost disk': Disk)
    requires c.Valid() && Stores(c.Disk(), disk) && FileOk(disk, node, a) && Owns(bits, sector, a) && |bits| == |disk|
    modifies c
    ensures Progressed(c, node, disk, disk', a, offset, buf, written) && written == Within(node.length, offset, |buf|)
  {
    hide FileOk, Stores, Bytes, Written, Owns;
    NothingWritten(Bytes(disk, a, node.length), Min(offset, node.length));
    written, disk' := 0, disk;
    while written < |buf| && offset + written < node.length
      invariant 0 <= written <= |buf| && Progressed(c, node, disk, disk', a, offset, buf, written)
    {
      var n;
      n, disk' := WriteMore(c, node, buf, offset, written, disk, disk', a, bits, sector);
      written := written + n;
    }
  }

  /** What was written within a file and flushed is what the device shows after a restart. */
  method Restart(c: BufferCache.Cache, node: InodeDisk, buf: seq<byte>, offset: nat, ghost disk: Disk, ghost a: seq<nat>,
                 ghost bits: seq<bool>, ghost sector: nat)
    returns (content: seq<byte>)
    requires c.Valid() && Stores(c.Disk(), disk) && FileOk(disk, node, a) && Owns(bits, sector, a) && |bits| == |disk|
    requires offset + |buf| <= node.length
    modifies c
    ensures content == Written(Bytes(disk, a, node.length), offset, buf)
  {
    hide FileOk, Stores, Bytes, Written, Owns;
    ghost var disk';
    var written;
    written, disk' := Write(c, node, buf, offset, disk, a, bits, sector);
    c.Flush();
    var fresh' := new BufferCache.Cache(c.device);
    content := Read(fresh', node, node.length, 0, disk', a);
    assert buf[..|buf|] == buf;
  }
}
