/** Reading and writing: a file is a byte sequence (filesys/inode.c:784-935). */
module FileData {
  import opened Sequences
  import opened Storage
  import opened FileLayout
  import opened FreeSectors
  import opened Inodes
  import opened FileShape
  import opened InodeCreate
  import opened GrowthCount
  import opened GrowthSteps
  import opened InodeGrowth

  /** The bytes of a file after buf is written at offset; a gap reads as zero. */
  function Written(bytes: seq<byte>, offset: nat, buf: seq<byte>): (r: seq<byte>)
    ensures |r| == if |bytes| < offset + |buf| then offset + |buf| else |bytes|
  {
    var n := if |bytes| < offset + |buf| then offset + |buf| else |bytes|;
    seq(n, q requires 0 <= q < n =>
      if offset <= q < offset + |buf| then buf[q - offset] else if q < |bytes| then bytes[q] else 0)
  }

  /** The sector that holds byte q of a file, q being within it. */
  lemma DataSector(disk: Disk, node: InodeDisk, a: seq<nat>, q: nat)
    requires FileOk(disk, node, a) && q < node.length
    ensures var p := DataPos(q / 512);
            && q / 512 < DATA_MAX && p < |a| && Last(Path(disk, node, q / 512)) == a[p]
            && a[p] < |disk| && disk[a[p]].Data?
  {
    DataPosBound(q / 512, SectorsFor(node.length));
    PathWithin(disk, node, a, q / 512);
  }

  lemma ChunkBytes(disk: Disk, a: seq<nat>, length: nat, offset: nat, chunk: nat)
    requires offset % 512 + chunk <= 512 && offset + chunk <= length && chunk > 0
    requires var p := DataPos(offset / 512); p < |a| && a[p] < |disk| && disk[a[p]].Data?
    ensures var ofs := offset % 512;
            disk[a[DataPos(offset / 512)]].bytes[ofs..ofs + chunk] == Bytes(disk, a, length)[offset..offset + chunk]
  {
    var ofs := offset % 512;
    var stored := disk[a[DataPos(offset / 512)]].bytes[ofs..ofs + chunk];
    var wanted := Bytes(disk, a, length)[offset..offset + chunk];
    forall k: nat | k < chunk ensures stored[k] == wanted[k] {
      assert (offset + k) / 512 == offset / 512 && (offset + k) % 512 == ofs + k;
      assert Bytes(disk, a, length)[offset + k] == ByteAt(disk, a, offset + k);
    }
  }

  lemma Slices(bytes: seq<byte>, i: nat, j: nat, k: nat)
    requires i <= j <= k <= |bytes|
    ensures bytes[i..j] + bytes[j..k] == bytes[i..k]
  {
  }

  /** Bytes that one turn of the loops below moves: not past the sector, the file or the request. */
  function Chunk(length: nat, at: nat, left: nat): int {
    Min(left, Min(length - at, 512 - at % 512))
  }

  /** One turn of inode_read_at; empty when it leaves the loop. */
  method ReadChunk(fs: FileSystem, ino: Inode, at: nat, left: nat) returns (chunk: seq<byte>)
    requires InodeOk(fs, ino)
    ensures var bytes, n := Bytes(fs.disk, ino.alloc, ino.data.length), Chunk(ino.data.length, at, left);
            chunk == if n > 0 then bytes[at..at + n] else []
  {
    var sector := ByteToSector(fs, ino.data, at);
    var n := Chunk(ino.data.length, at, left);
    if n <= 0 {
      return [];
    }
    DataSector(fs.disk, ino.data, ino.alloc, at);
    ChunkBytes(fs.disk, ino.alloc, ino.data.length, at, n);
    chunk := fs.disk[sector.value].bytes[at % 512..at % 512 + n];
  }

  /** buf holds the bytes from offset on, as far as there are any. */
  ghost predicate ReadSoFar(bytes: seq<byte>, offset: nat, buf: seq<byte>) {
    if offset <= |bytes| then offset + |buf| <= |bytes| && buf == bytes[offset..offset + |buf|] else buf == []
  }

  lemma ReadMore(bytes: seq<byte>, offset: nat, buf: seq<byte>, n: nat)
    requires ReadSoFar(bytes, offset, buf) && 0 < n && offset + |buf| + n <= |bytes|
    ensures ReadSoFar(bytes, offset, buf + bytes[offset + |buf|..offset + |buf| + n])
  {
    Slices(bytes, offset, offset + |buf|, offset + |buf| + n);
  }

  /** inode_read_at: the bytes from offset on, as many as were asked for and exist. */
  method ReadAt(fs: FileSystem, ino: Inode, size: nat, offset: nat) returns (buf: seq<byte>)
    requires InodeOk(fs, ino)
    ensures var bytes := Bytes(fs.disk, ino.alloc, ino.data.length);
            buf == if offset < |bytes| then bytes[offset..Min(offset + size, |bytes|)] else []
  {
    hide InodeOk, Bytes, Chunk;
    ghost var bytes := Bytes(fs.disk, ino.alloc, ino.data.length);
    buf := [];
    var left := size;
    while left > 0
      invariant 0 <= left <= size && |buf| + left == size && ReadSoFar(bytes, offset, buf)
    {
      var chunk := ReadChunk(fs, ino, offset + |buf|, left);
      ChunkSize(ino.data.length, offset + |buf|, left);
      if chunk == [] {
        break;
      }
      ReadMore(bytes, offset, buf, |chunk|);
      buf := buf + chunk;
      left := left - |chunk|;
    }
    ReadAll(bytes, offset, buf, size, left);
  }

  lemma ReadAll(bytes: seq<byte>, offset: nat, buf: seq<byte>, size: nat, left: nat)
    requires ReadSoFar(bytes, offset, buf) && |buf| + left == size && (left == 0 || offset + |buf| >= |bytes|)
    ensures buf == if offset < |bytes| then bytes[offset..Min(offset + size, |bytes|)] else []
  {
  }

  /** Only data sector i of the file has changed, and it still holds data. */
  ghost predicate OnlyData(disk: Disk, disk': Disk, a: seq<nat>, i: nat) {
    && |disk'| == |disk| && DataPos(i) < |a| && a[DataPos(i)] < |disk| && disk'[a[DataPos(i)]].Data?
    && forall x: nat | x < |disk| && x != a[DataPos(i)] :: disk'[x] == disk[x]
  }

  lemma OtherPlaces(disk: Disk, disk': Disk, a: seq<nat>, i: nat)
    requires OnlyData(disk, disk', a, i) && NoDup(a) && forall k: nat | k < |a| :: a[k] < |disk|
    ensures forall k: nat | k < |a| && k != DataPos(i) :: disk'[a[k]] == disk[a[k]]
  {
  }

  /** Overwriting data leaves the index in order. */
  lemma IndexUntouched(disk: Disk, disk': Disk, node: InodeDisk, a: seq<nat>, i: nat)
    requires Building(disk, node, a, DATA_MAX) && OnlyData(disk, disk', a, i) && NoDup(a) && i < DATA_MAX
    requires forall k: nat | k < |a| :: a[k] < |disk|
    ensures Building(disk', node, a, DATA_MAX)
  {
    OtherPlaces(disk, disk', a, i);
    DataPosIsNoIndex(i);
    forall j: nat | j < 5 && 119 + 126 * j < |a| ensures LeafAt(disk', a, 119 + 126 * j) {
      assert LeafAt(disk, a, 119 + 126 * j);
    }
    if OUTER < |a| {
      assert OuterAt(disk, a, OUTER);
      forall j: nat | j < 125 && 750 + 126 * j < |a| ensures LeafAt(disk', a, 750 + 126 * j) {
        assert LeafAt(disk, a, OUTER + 1 + 126 * j);
      }
    }
    forall k: nat | DataPos(k) < |a|
      ensures disk'[a[DataPos(k)]].Data? && (k >= DATA_MAX ==> disk'[a[DataPos(k)]] == Data(ZeroSector()))
    {
      if k != i {
        assert DataPos(k) == DataPos(i) ==> k == i by {
          if DataPos(k) == DataPos(i) {
            DataPosInjective(k, i);
          }
        }
      }
    }
  }

  /** An index block of the file is none of its data. */
  lemma RecordStays(disk: Disk, disk': Disk, a: seq<nat>, i: nat, p: nat)
    requires OnlyData(disk, disk', a, i) && NoDup(a) && IsIndexPos(p) && p < |a| && forall k: nat | k < |a| :: a[k] < |disk|
    ensures disk'[a[p]] == disk[a[p]]
  {
    DataPosIsNoIndex(i);
    OtherPlaces(disk, disk', a, i);
  }

  lemma LeafPlaces(j: nat)
    ensures (j < 5 ==> IsIndexPos(119 + 126 * j)) && IsIndexPos(750 + 126 * j) && IsIndexPos(OUTER)
  {
  }

  lemma LengthsStay(disk: Disk, disk': Disk, a: seq<nat>, i: nat, length: nat)
    requires LeafLengths(disk, a, length) && OuterLength(disk, a, length) && OnlyData(disk, disk', a, i) && NoDup(a)
    requires forall k: nat | k < |a| :: a[k] < |disk|
    ensures LeafLengths(disk', a, length) && OuterLength(disk', a, length)
  {
    hide IsIndexPos, DataPos, OnlyData, NoDup;
    DataSize(disk, disk', a, i);
    forall j: nat | j < 5 && 119 + 126 * j < |a| ensures Records(disk', a, 119 + 126 * j, Min(LEAF_BYTES, length - DIRECT_BYTES - LEAF_BYTES * j)) {
      assert Records(disk, a, 119 + 126 * j, Min(LEAF_BYTES, length - DIRECT_BYTES - LEAF_BYTES * j));
      LeafPlaces(j);
      RecordStays(disk, disk', a, i, 119 + 126 * j);
    }
    forall j: nat | j < 125 && 750 + 126 * j < |a| ensures Records(disk', a, 750 + 126 * j, Min(LEAF_BYTES, length - SINGLE_BYTES - LEAF_BYTES * j)) {
      assert Records(disk, a, 750 + 126 * j, Min(LEAF_BYTES, length - SINGLE_BYTES - LEAF_BYTES * j));
      LeafPlaces(j);
      RecordStays(disk, disk', a, i, 750 + 126 * j);
    }
    LeafPlaces(0);
    if OUTER < |a| {
      RecordStays(disk, disk', a, i, OUTER);
    }
  }

  lemma DataSize(disk: Disk, disk': Disk, a: seq<nat>, i: nat)
    requires OnlyData(disk, disk', a, i)
    ensures |disk'| == |disk|
  {
  }

  /** The bytes of the file after a chunk was stored, byte by byte. */
  lemma ChunkStored(disk: Disk, disk': Disk, a: seq<nat>, at: nat, data: seq<byte>, q: nat)
    requires NoDup(a) && at % 512 + |data| <= 512 && OnlyData(disk, disk', a, at / 512)
    requires disk[a[DataPos(at / 512)]].Data?
    requires disk'[a[DataPos(at / 512)]] == Data(Patched(disk[a[DataPos(at / 512)]].bytes, at % 512, data))
    ensures ByteAt(disk', a, q) == if at <= q < at + |data| then data[q - at] else ByteAt(disk, a, q)
  {
    var i := at / 512;
    if q / 512 == i {
      assert q == 512 * i + q % 512 && at == 512 * i + at % 512;
    } else {
      if DataPos(q / 512) == DataPos(i) {
        DataPosInjective(q / 512, i);
      }
      assert !(at <= q < at + |data|);
    }
  }

  /** Storing a chunk: the file stays well formed, and its bytes change where they should. */
  lemma StoreChunk(bits: seq<bool>, sector: nat, disk: Disk, disk': Disk, node: InodeDisk, a: seq<nat>, at: nat, data: seq<byte>)
    requires FileOk(disk, node, a) && Owns(bits, sector, a) && |bits| == |disk| && data != []
    requires at % 512 + |data| <= 512 && at + |data| <= node.length
    requires DataPos(at / 512) < |a| && a[DataPos(at / 512)] < |disk| && disk[a[DataPos(at / 512)]].Data?
    requires disk' == disk[a[DataPos(at / 512)] := Data(Patched(disk[a[DataPos(at / 512)]].bytes, at % 512, data))]
    ensures FileOk(disk', node, a) && Bytes(disk', a, node.length) == Written(Bytes(disk, a, node.length), at, data)
  {
    hide DataPos, Building, LeafLengths, OuterLength;
    assert forall k: nat | k < |a| :: a[k] in a;
    IndexUntouched(disk, disk', node, a, at / 512);
    LengthsStay(disk, disk', a, at / 512, node.length);
    forall q: nat ensures ByteAt(disk', a, q) == if at <= q < at + |data| then data[q - at] else ByteAt(disk, a, q) {
      ChunkStored(disk, disk', a, at, data, q);
    }
  }

  /** The sectors not in a hold what they held. */
  ghost predicate SameOutside(disk: Disk, disk': Disk, a: seq<nat>) {
    |disk'| == |disk| && forall x: nat | x < |disk| && x !in a :: disk'[x] == disk[x]
  }

  lemma SameOutsideMore(disk: Disk, disk1: Disk, disk2: Disk, a: seq<nat>)
    requires SameOutside(disk, disk1, a) && SameOutside(disk1, disk2, a)
    ensures SameOutside(disk, disk2, a)
  {
  }

  /** One turn of the loop of inode_write_at; zero when it leaves the loop. */
  method WriteChunk(fs: FileSystem, ino: Inode, buf: seq<byte>, at: nat) returns (n: nat)
    requires InodeOk(fs, ino)
    modifies fs`disk
    ensures InodeOk(fs, ino)
    ensures n == if Chunk(ino.data.length, at, |buf|) > 0 then Chunk(ino.data.length, at, |buf|) else 0
    ensures Bytes(fs.disk, ino.alloc, ino.data.length) ==
              if n > 0 then Written(old(Bytes(fs.disk, ino.alloc, ino.data.length)), at, buf[..n])
              else old(Bytes(fs.disk, ino.alloc, ino.data.length))
    ensures SameOutside(old(fs.disk), fs.disk, ino.alloc)
  {
    var sector := ByteToSector(fs, ino.data, at);
    var size := Chunk(ino.data.length, at, |buf|);
    if size <= 0 {
      return 0;
    }
    n := size;
    ghost var d := fs.disk;
    DataSector(d, ino.data, ino.alloc, at);
    var x := sector.value;
    assert x in ino.alloc;
    fs.disk := fs.disk[x := Data(Patched(fs.disk[x].bytes, at % 512, buf[..n]))];
    StoreChunk(fs.Bits(), ino.sector, d, fs.disk, ino.data, ino.alloc, at, buf[..n]);
  }

  lemma WrittenTwice(bytes: seq<byte>, offset: nat, buf: seq<byte>, k: nat, n: nat)
    requires k + n <= |buf| && offset + k + n <= |bytes|
    ensures Written(Written(bytes, offset, buf[..k]), offset + k, buf[k..][..n]) == Written(bytes, offset, buf[..k + n])
  {
  }

  lemma NothingWritten(bytes: seq<byte>, offset: nat)
    requires offset <= |bytes|
    ensures Written(bytes, offset, []) == bytes
  {
  }

  /** The state of the loop of inode_write_at: the first bytes of buf are stored, from offset on or the end of the file. */
  ghost predicate WrittenSoFar(fs: FileSystem, ino: Inode, disk0: Disk, bytes0: seq<byte>, offset: nat, buf: seq<byte>, written: nat)
    reads fs, fs.freeMap.words, ino
  {
    && written <= |buf| && |bytes0| == ino.data.length && (written == 0 || offset + written <= |bytes0|)
    && InodeOk(fs, ino) && SameOutside(disk0, fs.disk, ino.alloc)
    && Bytes(fs.disk, ino.alloc, ino.data.length) == Written(bytes0, Min(offset, |bytes0|), buf[..written])
  }

  method WriteTurn(fs: FileSystem, ino: Inode, ghost disk0: Disk, ghost bytes0: seq<byte>, offset: nat, buf: seq<byte>, written: nat)
    returns (n: nat)
    requires written < |buf| && WrittenSoFar(fs, ino, disk0, bytes0, offset, buf, written)
    modifies fs`disk
    ensures WrittenSoFar(fs, ino, disk0, bytes0, offset, buf, written + n) && (n == 0 <==> offset + written >= ino.data.length)
  {
    hide FileOk, Owns, Bytes, Written, SameOutside;
    ghost var disk1, bytes1 := fs.disk, Bytes(fs.disk, ino.alloc, ino.data.length);
    n := WriteChunk(fs, ino, buf[written..], offset + written);
    SameOutsideMore(disk0, disk1, fs.disk, ino.alloc);
    ChunkSize(ino.data.length, offset + written, |buf| - written);
    TurnBytes(bytes0, bytes1, Bytes(fs.disk, ino.alloc, ino.data.length), offset, buf, written, n);
  }

  lemma ChunkSize(length: nat, at: nat, left: nat)
    requires left > 0
    ensures Chunk(length, at, left) <= left && Chunk(length, at, left) <= length - at && (Chunk(length, at, left) > 0 <==> at < length)
  {
  }

  lemma TurnBytes(bytes0: seq<byte>, bytes1: seq<byte>, bytes2: seq<byte>, offset: nat, buf: seq<byte>, written: nat, n: nat)
    requires written + n <= |buf| && (written == 0 || offset + written <= |bytes0|) && (n > 0 ==> offset + written + n <= |bytes0|)
    requires bytes1 == Written(bytes0, Min(offset, |bytes0|), buf[..written])
    requires bytes2 == if n > 0 then Written(bytes1, offset + written, buf[written..][..n]) else bytes1
    ensures bytes2 == Written(bytes0, Min(offset, |bytes0|), buf[..written + n])
  {
    if n > 0 {
      WrittenTwice(bytes0, offset, buf, written, n);
    }
  }

  /** The part of a write of size bytes at offset that lies within length bytes. */
  function Within(length: nat, offset: nat, size: nat): (n: nat)
    ensures n <= size
  {
    if offset >= length then 0 else Min(size, length - offset)
  }

  /** The loop of inode_write_at: it stores what lies within the file. */
  method WriteWithin(fs: FileSystem, ino: Inode, buf: seq<byte>, offset: nat) returns (written: nat)
    requires InodeOk(fs, ino)
    modifies fs`disk
    ensures InodeOk(fs, ino) && written == Within(ino.data.length, offset, |buf|) && SameOutside(old(fs.disk), fs.disk, ino.alloc)
    ensures Bytes(fs.disk, ino.alloc, ino.data.length) ==
              Written(old(Bytes(fs.disk, ino.alloc, ino.data.length)), Min(offset, ino.data.length), buf[..written])
  {
    ghost var disk0, bytes0 := fs.disk, Bytes(fs.disk, ino.alloc, ino.data.length);
    NothingWritten(bytes0, Min(offset, |bytes0|));
    written := 0;
    var n := 1;
    while written < |buf| && n > 0
      invariant 0 <= written <= |buf| && WrittenSoFar(fs, ino, disk0, bytes0, offset, buf, written)
      invariant n == 0 ==> offset + written >= ino.data.length
      decreases |buf| - written, n
    {
      n := WriteTurn(fs, ino, disk0, bytes0, offset, buf, written);
      written := written + n;
    }
  }

  /** Growing appends zeros. */
  lemma GrownBytes(disk: Disk, disk': Disk, a: seq<nat>, t: seq<nat>, length: nat, length': nat)
    requires SameBytes(disk, a, disk', a + t) && ZeroBeyond(disk, a, length) && length <= length'
    ensures Bytes(disk', a + t, length') == Written(Bytes(disk, a, length), length', [])
  {
  }

  lemma WrittenPastEnd(bytes: seq<byte>, length: nat, at: nat, buf: seq<byte>)
    requires |bytes| <= length && at + |buf| <= length && (|bytes| == length || at + |buf| == length)
    ensures Written(Written(bytes, length, []), at, buf) == Written(bytes, at, buf)
  {
  }

  /** The file has become longer by zeros. */
  twostate predicate HasExtended(fs: FileSystem, ino: Inode, t: seq<nat>)
    reads fs, fs.freeMap.words, ino
  {
    && InodeOk(fs, ino) && old(InodeOk(fs, ino)) && ino.alloc == old(ino.alloc) + t && old(ino.data.length) <= ino.data.length
    && Bytes(fs.disk, ino.alloc, ino.data.length) ==
         Written(old(Bytes(fs.disk, ino.alloc, ino.data.length)), ino.data.length, [])
    && (old(fs.disk[ino.sector] == Index(ino.data)) ==> fs.disk[ino.sector] == Index(ino.data))
  }

  /** The first part of inode_write_at: the file becomes goal bytes long, if that is what its fate allows. */
  method Extend(fs: FileSystem, ino: Inode, goal: nat) returns (r: Growth, ghost t: seq<nat>)
    requires InodeOk(fs, ino)
    modifies fs, fs.freeMap.words, ino`data, ino`alloc
    ensures fs.Valid() && Touches(old(fs.Bits()), old(fs.disk), fs.Bits(), fs.disk, ino.sector, old(ino.alloc), t)
    ensures r.OutOfSpace? <==> Scarce(old(fs.Bits()), old(Toll(fs.disk, ino.data, goal)))
    ensures r.OutOfSpace? ==> old(ino.data.length) < goal
    ensures !r.OutOfSpace? ==> r == old(Fate(fs.disk, ino.data, goal))
    ensures r.Grown? || r.Short? ==> HasExtended(fs, ino, t)
    ensures r.Grown? ==> ino.data.length == if old(ino.data.length) < goal then goal else old(ino.data.length)
    ensures r.Short? ==> ino.data.length < goal
  {
    hide Toll, Fate;
    t := [];
    ghost var d, a, length: nat := fs.disk, ino.alloc, ino.data.length;
    if goal <= ino.data.length {
      assert a + t == a;
      NothingWritten(Bytes(d, a, length), length);
      NoTrouble(d, ino.data, a, goal);
      TollIsNeed(d, ino.data, goal);
      NeedGrows(length, goal, length);
      return Grown, t;
    }
    r, t := Grow(fs, ino, goal - ino.data.length);
    if r.Grown? || r.Short? {
      GrownBytes(d, fs.disk, a, t, length, ino.data.length);
    }
  }

  /** Overruns: the file was left with fewer sectors than its length counts, and the write goes on. */
  datatype WriteResult = Wrote(cnt: nat) | Overruns | Panics | NeverReturns

  /** The file at ino has buf at offset, with zeros in a gap. */
  twostate predicate HasWritten(fs: FileSystem, ino: Inode, buf: seq<byte>, offset: nat, t: seq<nat>)
    reads fs, fs.freeMap.words, ino
  {
    && InodeOk(fs, ino) && old(InodeOk(fs, ino)) && ino.alloc == old(ino.alloc) + t
    && Bytes(fs.disk, ino.alloc, ino.data.length) == Written(old(Bytes(fs.disk, ino.alloc, ino.data.length)), offset, buf)
    && (old(fs.disk[ino.sector] == Index(ino.data)) ==> fs.disk[ino.sector] == Index(ino.data))
  }

  /**
   * How inode_write_at ends: as the growth to the end of the write is fated to, or in the panic, exactly if fewer sectors
   * are free than that growth takes.  A write that returns has stored what lies within the file, which is all of it exactly if the file
   * could grow as needed.  In any case no sector in use has changed that is not the file's own.
   */
  twostate predicate WriteEnds(fs: FileSystem, ino: Inode, buf: seq<byte>, offset: nat, r: WriteResult, t: seq<nat>)
    reads fs, fs.freeMap.words, ino
  {
    var fate := old(Fate(fs.disk, ino.data, offset + |buf|));
    && fs.Valid() && old(fs.Valid())
    && Touches(old(fs.Bits()), old(fs.disk), fs.Bits(), fs.disk, ino.sector, old(ino.alloc), t)
    && (r.Panics? <==> Scarce(old(fs.Bits()), old(Toll(fs.disk, ino.data, offset + |buf|))))
    && match r
       case Wrote(cnt) =>
         && (fate.Grown? || fate.Short?) && cnt == Within(ino.data.length, offset, |buf|)
         && HasWritten(fs, ino, buf[..cnt], Min(offset, ino.data.length), t)
         && (fate.Grown? <==> offset + |buf| <= ino.data.length)
       case Overruns => fate.Cut?
       case NeverReturns => fate.Hangs?
       case Panics => old(ino.data.length) < offset + |buf|
  }

  /** The second part of inode_write_at, on the file that was extended from bytes0 by the sectors t. */
  method FinishWrite(fs: FileSystem, ino: Inode, buf: seq<byte>, offset: nat, ghost b0: seq<bool>, ghost d0: Disk, ghost a0: seq<nat>,
                     ghost bytes0: seq<byte>, ghost t: seq<nat>)
    returns (cnt: nat)
    requires InodeOk(fs, ino) && ino.alloc == a0 + t && |bytes0| <= ino.data.length
    requires |bytes0| == ino.data.length || ino.data.length <= offset + |buf|
    requires Touches(b0, d0, fs.Bits(), fs.disk, ino.sector, a0, t)
    requires Bytes(fs.disk, ino.alloc, ino.data.length) == Written(bytes0, ino.data.length, [])
    modifies fs`disk
    ensures InodeOk(fs, ino) && cnt == Within(ino.data.length, offset, |buf|)
    ensures Touches(b0, d0, fs.Bits(), fs.disk, ino.sector, a0, t)
    ensures Bytes(fs.disk, ino.alloc, ino.data.length) == Written(bytes0, Min(offset, ino.data.length), buf[..cnt])
    ensures fs.disk[ino.sector] == old(fs.disk[ino.sector])
  {
    ghost var b1, d1 := fs.Bits(), fs.disk;
    cnt := WriteWithin(fs, ino, buf, offset);
    WrittenPastEnd(bytes0, ino.data.length, Min(offset, ino.data.length), buf[..cnt]);
    WriteTouches(b0, d0, b1, d1, fs.disk, ino.sector, a0, t);
  }

  /** inode_write_at to a file that may be written. */
  method WriteAllowed(fs: FileSystem, ino: Inode, buf: seq<byte>, offset: nat) returns (r: WriteResult, ghost t: seq<nat>)
    requires InodeOk(fs, ino)
    modifies fs, fs.freeMap.words, ino`data, ino`alloc
    ensures WriteEnds(fs, ino, buf, offset, r, t)
  {
    hide FileOk, Owns, Bytes, Written, Touches, Fate, Toll, Scarce;
    ghost var b0, d0, a0, bytes0 := fs.Bits(), fs.disk, ino.alloc, Bytes(fs.disk, ino.alloc, ino.data.length);
    var g;
    g, t := Extend(fs, ino, offset + |buf|);
    match g {
      case OutOfSpace => return Panics, t;
      case Hangs => return NeverReturns, t;
      case Cut => return Overruns, t;
      case _ =>
        var n := FinishWrite(fs, ino, buf, offset, b0, d0, a0, bytes0, t);
        r := Wrote(n);
    }
  }

  /** inode_write_at: nothing happens to a file that denies writes. */
  method WriteAt(fs: FileSystem, ino: Inode, buf: seq<byte>, offset: nat) returns (r: WriteResult, ghost t: seq<nat>)
    requires InodeOk(fs, ino)
    modifies fs, fs.freeMap.words, ino`data, ino`alloc
    ensures ino.denyWriteCnt > 0 ==>
              r == Wrote(0) && fs.disk == old(fs.disk) && fs.Valid() && fs.Bits() == old(fs.Bits()) && ino.data == old(ino.data)
    ensures ino.denyWriteCnt == 0 ==> WriteEnds(fs, ino, buf, offset, r, t)
  {
    if ino.denyWriteCnt > 0 {
      return Wrote(0), [];
    }
    r, t := WriteAllowed(fs, ino, buf, offset);
  }

  /** Growing and then writing within the file. */
  lemma WriteTouches(b0: seq<bool>, d0: Disk, b1: seq<bool>, d1: Disk, d2: Disk, sector: nat, a: seq<nat>, t: seq<nat>)
    requires Touches(b0, d0, b1, d1, sector, a, t)
    requires |d2| == |d1| && forall x: nat | x < |d1| && x !in a + t :: d2[x] == d1[x]
    ensures Touches(b0, d0, b1, d2, sector, a, t)
  {
    forall x: nat | x < |d0| && b0[x] && x !in a && x != sector ensures d2[x] == d0[x] {
      assert x !in a + t;
    }
  }

  /** Another file keeps its sectors, its shape and its bytes. */
  lemma OtherFilesKept(bits: seq<bool>, disk: Disk, bits': seq<bool>, disk': Disk, sector: nat, a: seq<nat>, t: seq<nat>,
                       node: InodeDisk, sector': nat, a': seq<nat>)
    requires Touches(bits, disk, bits', disk', sector, a, t)
    requires FileOk(disk, node, a') && Owns(bits, sector', a') && disk[sector'] == Index(node)
    requires sector' != sector && sector' !in a && sector !in a' && forall x | x in a' :: x !in a
    ensures FileOk(disk', node, a') && Owns(bits', sector', a') && disk'[sector'] == Index(node)
    ensures Bytes(disk', a', node.length) == Bytes(disk, a', node.length)
    ensures sector' !in a + t && forall x | x in a' :: x !in a + t
  {
    assert forall k: nat | k < |a'| :: a'[k] in a';
    BuildingKept(disk, disk', node, a', DATA_MAX);
    LengthsUntouched(disk, disk', a', node.length);
    assert SameBytes(disk, a', disk', a');
    StillZeroBeyond(disk, disk', a', a', node.length, node.length);
  }
}
