/** Sizes and contents shared by the memory and disk models. */
module Storage {
  type byte = bv8

  const BLOCK_SECTOR_SIZE := 512
  const PGSIZE := 4096

  /** One disk sector. */
  type Sector = s: seq<byte> | |s| == BLOCK_SECTOR_SIZE witness seq(BLOCK_SECTOR_SIZE, _ => 0)

  /** One page of memory. */
  type Page = s: seq<byte> | |s| == PGSIZE witness seq(PGSIZE, _ => 0)

  function ZeroSector(): Sector {
    seq(BLOCK_SECTOR_SIZE, _ => 0)
  }

  function ZeroPage(): Page {
    seq(PGSIZE, _ => 0)
  }

  /** A sector with data copied into it at ofs. */
  function Patched(sector: Sector, ofs: nat, data: seq<byte>): (r: Sector)
    requires ofs + |data| <= 512
    ensures forall k: nat | k < 512 :: r[k] == if ofs <= k < ofs + |data| then data[k - ofs] else sector[k]
  {
    sector[..ofs] + data + sector[ofs + |data|..]
  }
}
