/**
 * The blocks of the file model as bytes: struct inode_disk (filesys/inode.c:22-34) fills a sector, and the file
 * system reads and writes both kinds of block through the cache.
 */
module DiskBytes {
  import opened Storage
  import opened FileLayout
  import BufferCache

  const INODE_MAGIC := 0x494e4f44

  // ---- bytes and their values, two bits at a time

  function Digit(d: nat): byte {
    match d case 0 => 0 case 1 => 1 case 2 => 2 case _ => 3
  }

  function Value(x: byte): nat {
    if x == 0 then 0 else if x == 1 then 1 else if x == 2 then 2 else 3
  }

  function Pack(d0: byte, d1: byte, d2: byte, d3: byte): byte {
    d0 | (d1 << 2) | (d2 << 4) | (d3 << 6)
  }

  function ToByte(k: nat): byte {
    Pack(Digit(k % 4), Digit(k / 4 % 4), Digit(k / 16 % 4), Digit(k / 64 % 4))
  }

  function FromByte(b: byte): nat {
    Value(b & 3) + 4 * Value((b >> 2) & 3) + 16 * Value((b >> 4) & 3) + 64 * Value((b >> 6) & 3)
  }

  lemma Unpack(d0: byte, d1: byte, d2: byte, d3: byte)
    requires d0 <= 3 && d1 <= 3 && d2 <= 3 && d3 <= 3
    ensures var b := Pack(d0, d1, d2, d3); b & 3 == d0 && (b >> 2) & 3 == d1 && (b >> 4) & 3 == d2 && (b >> 6) & 3 == d3
  {
  }

  lemma ValueOf(d: nat)
    requires d < 4
    ensures Digit(d) <= 3 && Value(Digit(d)) == d
  {
  }

  lemma FourPairs(d0: nat, d1: nat, d2: nat, d3: nat)
    requires d0 < 4 && d1 < 4 && d2 < 4 && d3 < 4
    ensures FromByte(Pack(Digit(d0), Digit(d1), Digit(d2), Digit(d3))) == d0 + 4 * d1 + 16 * d2 + 64 * d3
  {
    hide Digit, Value, Pack;
    ValueOf(d0);
    ValueOf(d1);
    ValueOf(d2);
    ValueOf(d3);
    Unpack(Digit(d0), Digit(d1), Digit(d2), Digit(d3));
  }

  lemma PairsOf(k: nat)
    requires k < 0x100
    ensures k == k % 4 + 4 * (k / 4 % 4) + 16 * (k / 16 % 4) + 64 * (k / 64 % 4)
  {
    assert k / 4 / 4 == k / 16 && k / 16 / 4 == k / 64;
  }

  lemma ByteRoundTrip(k: nat)
    requires k < 0x100
    ensures FromByte(ToByte(k)) == k
  {
    hide FromByte, Digit, Pack;
    PairsOf(k);
    FourPairs(k % 4, k / 4 % 4, k / 16 % 4, k / 64 % 4);
  }

  lemma PackCounts(d0: byte, d1: byte, d2: byte, d3: byte)
    requires d0 <= 3 && d1 <= 3 && d2 <= 3 && d3 <= 3
    ensures d0 < 3 ==> Pack(d0 + 1, d1, d2, d3) == Pack(d0, d1, d2, d3) + 1
    ensures d1 < 3 ==> Pack(0, d1 + 1, d2, d3) == Pack(3, d1, d2, d3) + 1
    ensures d2 < 3 ==> Pack(0, 0, d2 + 1, d3) == Pack(3, 3, d2, d3) + 1
    ensures d3 < 3 ==> Pack(0, 0, 0, d3 + 1) == Pack(3, 3, 3, d3) + 1
  {
  }

  lemma DigitCounts(d: nat)
    requires d < 3
    ensures Digit(d) < 3 && Digit(d + 1) == Digit(d) + 1
  {
  }

  /** Counting up in two-bit digits: the lowest one that is not 3 goes up, those below it go to 0. */
  lemma Carries(k: nat, d0: nat, d1: nat, d2: nat, d3: nat)
    requires k < 0xff && d0 < 4 && d1 < 4 && d2 < 4 && d3 < 4 && k == d0 + 4 * d1 + 16 * d2 + 64 * d3
    ensures ToByte(k) == Pack(Digit(d0), Digit(d1), Digit(d2), Digit(d3))
    ensures ToByte(k + 1) == if d0 < 3 then Pack(Digit(d0 + 1), Digit(d1), Digit(d2), Digit(d3))
                             else if d1 < 3 then Pack(Digit(0), Digit(d1 + 1), Digit(d2), Digit(d3))
                             else if d2 < 3 then Pack(Digit(0), Digit(0), Digit(d2 + 1), Digit(d3))
                             else Pack(Digit(0), Digit(0), Digit(0), Digit(d3 + 1))
  {
    hide Digit, Pack, ToByte;
    ToByteOf(k, d0, d1, d2, d3);
    if d0 < 3 {
      ToByteOf(k + 1, d0 + 1, d1, d2, d3);
    } else if d1 < 3 {
      ToByteOf(k + 1, 0, d1 + 1, d2, d3);
    } else if d2 < 3 {
      ToByteOf(k + 1, 0, 0, d2 + 1, d3);
    } else {
      ToByteOf(k + 1, 0, 0, 0, d3 + 1);
    }
  }

  lemma ToByteOf(k: nat, d0: nat, d1: nat, d2: nat, d3: nat)
    requires d0 < 4 && d1 < 4 && d2 < 4 && d3 < 4 && k == d0 + 4 * d1 + 16 * d2 + 64 * d3
    ensures ToByte(k) == Pack(Digit(d0), Digit(d1), Digit(d2), Digit(d3))
  {
    hide Digit, Pack;
    assert k / 4 == d1 + 4 * d2 + 16 * d3 && k / 16 == d2 + 4 * d3 && k / 64 == d3;
  }

  /** ToByte is the machine's own numbering of the bytes: it starts at 0 and goes up by one. */
  lemma ToByteCounts(k: nat)
    requires k < 0xff
    ensures ToByte(0) == 0 && ToByte(k + 1) == ToByte(k) + 1
  {
    hide Digit, Pack, ToByte;
    Zeroth();
    ToByteOf(0, 0, 0, 0, 0);
    PairsOf(k);
    GoesUp(k, k % 4, k / 4 % 4, k / 16 % 4, k / 64 % 4);
  }

  lemma GoesUp(k: nat, d0: nat, d1: nat, d2: nat, d3: nat)
    requires k < 0xff && d0 < 4 && d1 < 4 && d2 < 4 && d3 < 4 && k == d0 + 4 * d1 + 16 * d2 + 64 * d3
    ensures ToByte(k + 1) == ToByte(k) + 1
  {
    hide Digit, Pack, ToByte;
    PackCountsUp(d0, d1, d2, d3);
    Carries(k, d0, d1, d2, d3);
  }

  lemma Zeroth()
    ensures Digit(0) == 0 && Digit(3) == 3 && Pack(0, 0, 0, 0) == 0
  {
  }

  lemma PackCountsUp(d0: nat, d1: nat, d2: nat, d3: nat)
    requires d0 < 4 && d1 < 4 && d2 < 4 && d3 < 4
    ensures d0 < 3 ==> Pack(Digit(d0 + 1), Digit(d1), Digit(d2), Digit(d3)) == Pack(Digit(d0), Digit(d1), Digit(d2), Digit(d3)) + 1
    ensures d1 < 3 ==> Pack(Digit(0), Digit(d1 + 1), Digit(d2), Digit(d3)) == Pack(Digit(3), Digit(d1), Digit(d2), Digit(d3)) + 1
    ensures d2 < 3 ==> Pack(Digit(0), Digit(0), Digit(d2 + 1), Digit(d3)) == Pack(Digit(3), Digit(3), Digit(d2), Digit(d3)) + 1
    ensures d3 < 3 ==> Pack(Digit(0), Digit(0), Digit(0), Digit(d3 + 1)) == Pack(Digit(3), Digit(3), Digit(3), Digit(d3)) + 1
  {
    hide Digit, Pack;
    Zeroth();
    ValueOf(d0);
    ValueOf(d1);
    ValueOf(d2);
    ValueOf(d3);
    PackCounts(Digit(d0), Digit(d1), Digit(d2), Digit(d3));
    if d0 < 3 { DigitCounts(d0); }
    if d1 < 3 { DigitCounts(d1); }
    if d2 < 3 { DigitCounts(d2); }
    if d3 < 3 { DigitCounts(d3); }
  }

  // ---- 32-bit words, lowest byte first

  type Word = n: nat | n < 0x1_0000_0000

  /** Byte j of a word. */
  function ByteOf(n: Word, j: nat): byte {
    ToByte((match j case 0 => n case 1 => n / 0x100 case 2 => n / 0x1_0000 case _ => n / 0x100_0000) % 0x100)
  }

  function WordOf(b0: byte, b1: byte, b2: byte, b3: byte): nat {
    FromByte(b0) + 0x100 * FromByte(b1) + 0x1_0000 * FromByte(b2) + 0x100_0000 * FromByte(b3)
  }

  lemma FourDigits(n: Word)
    ensures n == n % 0x100 + 0x100 * (n / 0x100 % 0x100) + 0x1_0000 * (n / 0x1_0000 % 0x100) + 0x100_0000 * (n / 0x100_0000 % 0x100)
  {
    assert n / 0x100 / 0x100 == n / 0x1_0000 && n / 0x1_0000 / 0x100 == n / 0x100_0000 && n / 0x100_0000 < 0x100;
  }

  lemma WordRoundTrip(n: Word)
    ensures WordOf(ByteOf(n, 0), ByteOf(n, 1), ByteOf(n, 2), ByteOf(n, 3)) == n
  {
    hide FromByte, ToByte;
    FourDigits(n);
    ByteRoundTrip(n % 0x100);
    ByteRoundTrip(n / 0x100 % 0x100);
    ByteRoundTrip(n / 0x1_0000 % 0x100);
    ByteRoundTrip(n / 0x100_0000 % 0x100);
  }

  // ---- struct inode_disk

  /** The fields fit into their 32 bits. */
  predicate Storable(node: InodeDisk) {
    && |node.sector| == TOTAL_SECTOR_CNT && node.length < 0x8000_0000 && node.parent < 0x1_0000_0000
    && forall i: nat | i < TOTAL_SECTOR_CNT :: node.sector[i] < 0x1_0000_0000
  }

  /** Word i of the structure: the entries, then length, parent and magic. */
  function Field(node: InodeDisk, i: nat): Word
    requires Storable(node) && i < 128
  {
    if i < TOTAL_SECTOR_CNT then node.sector[i] else if i == 125 then node.length else if i == 126 then node.parent else INODE_MAGIC
  }

  function Encode(node: InodeDisk): Sector
    requires Storable(node)
  {
    seq(BLOCK_SECTOR_SIZE, k requires 0 <= k < BLOCK_SECTOR_SIZE => ByteOf(Field(node, k / 4), k % 4))
  }

  function WordAt(s: Sector, i: nat): nat
    requires i < 128
  {
    WordOf(s[4 * i], s[4 * i + 1], s[4 * i + 2], s[4 * i + 3])
  }

  function Decode(s: Sector): InodeDisk {
    InodeDisk(seq(TOTAL_SECTOR_CNT, i requires 0 <= i < TOTAL_SECTOR_CNT => WordAt(s, i)), WordAt(s, 125), WordAt(s, 126))
  }

  lemma FieldRoundTrip(node: InodeDisk, i: nat)
    requires Storable(node) && i < 128
    ensures WordAt(Encode(node), i) == Field(node, i)
  {
    assert (4 * i) / 4 == i && (4 * i + 1) / 4 == i && (4 * i + 2) / 4 == i && (4 * i + 3) / 4 == i;
    assert (4 * i) % 4 == 0 && (4 * i + 1) % 4 == 1 && (4 * i + 2) % 4 == 2 && (4 * i + 3) % 4 == 3;
    WordRoundTrip(Field(node, i));
  }

  /** What is written as an inode is read as that inode. */
  lemma RoundTrip(node: InodeDisk)
    requires Storable(node)
    ensures Decode(Encode(node)) == node && WordAt(Encode(node), 127) == INODE_MAGIC
    ensures WordAt(Encode(node), 125) == node.length && WordAt(Encode(node), 126) == node.parent
    ensures forall i: nat | i < TOTAL_SECTOR_CNT :: WordAt(Encode(node), i) == node.sector[i]
  {
    hide Encode, WordAt;
    forall i: nat | i < 128 ensures WordAt(Encode(node), i) == Field(node, i) {
      FieldRoundTrip(node, i);
    }
    assert Decode(Encode(node)).sector == node.sector;
  }

  // ---- the disk through the cache

  /** The sectors bytes hold the blocks of disk. */
  ghost predicate Stores(bytes: seq<Sector>, disk: Disk) {
    && |bytes| == |disk|
    && forall x: nat | x < |disk| ::
         match disk[x]
         case Data(b) => bytes[x] == b
         case Index(node) => Storable(node) && bytes[x] == Encode(node)
  }

  lemma WholePatch(was: Sector, data: Sector)
    ensures Patched(was, 0, data) == data
  {
  }

  /** cache_read of an index block. */
  method ReadNode(c: BufferCache.Cache, x: nat, ghost disk: Disk) returns (node: InodeDisk)
    requires c.Valid() && Stores(c.Disk(), disk) && x < |c.device| && disk[x].Index?
    modifies c
    ensures c.Valid() && Stores(c.Disk(), disk) && node == disk[x].node
  {
    var s := c.ReadAt(x, BLOCK_SECTOR_SIZE, 0);
    assert s == c.Disk()[x];
    RoundTrip(disk[x].node);
    node := Decode(s);
  }

  /** cache_write of an index block. */
  method WriteNode(c: BufferCache.Cache, x: nat, node: InodeDisk, ghost disk: Disk)
    requires c.Valid() && Stores(c.Disk(), disk) && x < |c.device| && Storable(node)
    modifies c
    ensures c.Valid() && Stores(c.Disk(), disk[x := Index(node)])
  {
    WholePatch(c.Disk()[x], Encode(node));
    c.WriteAt(x, Encode(node), 0);
  }

  /** cache_read_at of file data. */
  method ReadData(c: BufferCache.Cache, x: nat, ofs: nat, size: nat, ghost disk: Disk) returns (bytes: seq<byte>)
    requires c.Valid() && Stores(c.Disk(), disk) && x < |c.device| && disk[x].Data? && ofs + size <= BLOCK_SECTOR_SIZE
    modifies c
    ensures c.Valid() && Stores(c.Disk(), disk) && bytes == disk[x].bytes[ofs..ofs + size]
  {
    bytes := c.ReadAt(x, size, ofs);
  }

  /** cache_write_at of file data. */
  method WriteData(c: BufferCache.Cache, x: nat, ofs: nat, data: seq<byte>, ghost disk: Disk)
    requires c.Valid() && Stores(c.Disk(), disk) && x < |c.device| && disk[x].Data? && ofs + |data| <= BLOCK_SECTOR_SIZE
    modifies c
    ensures c.Valid() && Stores(c.Disk(), disk[x := Data(Patched(disk[x].bytes, ofs, data))])
  {
    c.WriteAt(x, data, ofs);
  }
}
