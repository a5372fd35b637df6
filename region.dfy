/** The in-memory region: 1024 chunk slots addressed by local coordinates,
    their timestamps, the region's own coordinates and modification time,
    plus the process-wide performance counters. */
module Regions {
  import opened Common
  import opened Text

  const REGION_DIMENSION: nat := 32
  const CHUNKS_PER_REGION: nat := 1024
  const SECTOR_SIZE: nat := 4096
  const LINEAR_SIGNATURE: u64 := 0xc3ff13183cca9d9a
  const LINEAR_VERSION: byte := 1
  const COMPRESSION_TYPE_ZLIB: byte := 2
  const EXTERNAL_FILE_COMPRESSION_TYPE: byte := 130

  /** One chunk: its uncompressed payload and its world chunk coordinates. */
  datatype Chunk = Chunk(data: seq<byte>, x: i32, z: i32)

  /** The value held by a Region object at one moment. */
  datatype RegionData = RegionData(
    chunks: map<nat, Chunk>,
    regionX: i32,
    regionZ: i32,
    mtime: u64,
    timestamps: seq<u32>)

  /** Every occupied slot has a timestamp, and there are at least 1024 of them. */
  predicate WellFormed(d: RegionData)
  {
    |d.timestamps| >= CHUNKS_PER_REGION && forall k :: k in d.chunks ==> k < |d.timestamps|
  }

  /** World chunk coordinates of slot i, as the readers compute them with
      32-bit arithmetic (wrapping, as in a release build). */
  function ChunkX(regionX: i32, i: nat): i32 { WrapI32(regionX * 32 + i % 32) }
  function ChunkZ(regionZ: i32, i: nat): i32 { WrapI32(regionZ * 32 + i / 32) }

  /** The slot addressed by world coordinates: `(z & 31) * 32 + (x & 31)`. */
  function SlotIndex(x: i32, z: i32): (i: nat)
    ensures i < CHUNKS_PER_REGION
    ensures i == (z % 32) * 32 + x % 32
  {
    BitAndLowMask(Unsigned32(x), 5);
    BitAndLowMask(Unsigned32(z), 5);
    assert Pow2(5) == 32;
    UnsignedMod32(x);
    UnsignedMod32(z);
    var localX := BitAnd(Unsigned32(x), 31);
    var localZ := BitAnd(Unsigned32(z), 31);
    localZ * REGION_DIMENSION + localX
  }

  /** Coordinates 32 apart on either axis address the same slot. */
  lemma SlotIndexPeriodic(x: i32, z: i32)
    requires x + 32 < 0x8000_0000 && z + 32 < 0x8000_0000
    ensures SlotIndex(x + 32, z) == SlotIndex(x, z)
    ensures SlotIndex(x, z + 32) == SlotIndex(x, z)
  {
  }

  /** The coordinates the readers give the chunk of slot i address slot i again. */
  lemma ChunkCoordinatesAddressSlot(regionX: i32, regionZ: i32, i: nat)
    requires i < CHUNKS_PER_REGION
    ensures SlotIndex(ChunkX(regionX, i), ChunkZ(regionZ, i)) == i
  {
    var x := ChunkX(regionX, i);
    var z := ChunkZ(regionZ, i);
    WrapMod32(regionX * 32 + i % 32);
    WrapMod32(regionZ * 32 + i / 32);
    ModShift32(i % 32, regionX);
    ModShift32(i / 32, regionZ);
    assert x % 32 == i % 32;
    assert z % 32 == i / 32;
    assert (i / 32) * 32 + i % 32 == i;
  }

  lemma ModShift32(v: int, k: int)
    ensures (v + 32 * k) % 32 == v % 32
  {
    DivModUnique(v + 32 * k, 32, v / 32 + k, v % 32);
  }

  lemma UnsignedMod32(x: i32)
    ensures Unsigned32(x) % 32 == x % 32
  {
    ModShift32(x, 0x800_0000);
  }

  lemma WrapMod32(v: int)
    ensures WrapI32(v) % 32 == v % 32
  {
    var q := v / 0x1_0000_0000;
    var u := v % 0x1_0000_0000;
    assert v == u + 32 * (0x800_0000 * q);
    ModShift32(u, 0x800_0000 * q);
    ModShift32(u, -0x800_0000);
  }

  /** `Region::parse_filename`: the second and third '.'-separated fields of a
      name such as "r.-1.2.mca" are the region coordinates. */
  function ParseFilename(filename: string): (r: Result<(i32, i32)>)
  {
    var parts := Split(filename, '.');
    if |parts| < 3 then Err(InvalidFormat)
    else
      match ParseI32(parts[1])
      case None => Err(InvalidCoordinate)
      case Some(x) =>
        match ParseI32(parts[2])
        case None => Err(InvalidCoordinate)
        case Some(z) => Ok((x, z))
  }

  /** The file name of a region, as the tools name their files. */
  function RegionFilename(x: i32, z: i32, ext: string): string
  {
    "r." + ShowInt(x) + "." + ShowInt(z) + "." + ext
  }

  /** Parsing the name of a region file gives back its coordinates, whatever
      the extension. */
  lemma ParseRegionFilename(x: i32, z: i32, ext: string)
    requires '.' !in ext
    ensures ParseFilename(RegionFilename(x, z, ext)) == Ok((x, z))
  {
    var parts := ["r", ShowInt(x), ShowInt(z), ext];
    assert Join(parts, '.') == RegionFilename(x, z, ext) by {
      assert Join(parts[3..], '.') == ext;
      assert Join(parts[2..], '.') == ShowInt(z) + "." + ext;
      assert Join(parts[1..], '.') == ShowInt(x) + "." + ShowInt(z) + "." + ext;
    }
    forall k | 0 <= k < |parts| ensures '.' !in parts[k] {
      if k == 1 || k == 2 {
        var s := parts[k];
        assert forall c :: 0 <= c < |s| ==> s[c] != '.';
      }
    }
    SplitJoin(parts, '.');
    ParseShowI32(x);
    ParseShowI32(z);
  }

  /** A name with fewer than three fields, such as "r.mca", is rejected. */
  lemma ParseFilenameTwoFields(a: string, b: string)
    requires '.' !in a && '.' !in b
    ensures ParseFilename(a + "." + b) == Err(InvalidFormat)
  {
    assert Join([a, b], '.') == a + "." + b;
    SplitJoin([a, b], '.');
  }

  /** The in-memory region. Its fields are updated in place by the readers. */
  class Region {
    var chunks: map<nat, Chunk>
    var regionX: i32
    var regionZ: i32
    var mtime: u64
    var timestamps: seq<u32>

    function Data(): RegionData
      reads this
    {
      RegionData(chunks, regionX, regionZ, mtime, timestamps)
    }

    ghost predicate Valid()
      reads this
    {
      WellFormed(Data())
    }

    /** `Region::new`; the clock reading is a parameter. */
    constructor (regionX: i32, regionZ: i32, now: u64)
      ensures Valid()
      ensures chunks == map[] && timestamps == seq(CHUNKS_PER_REGION, _ => 0)
      ensures this.regionX == regionX && this.regionZ == regionZ && mtime == now
    {
      chunks := map[];
      this.regionX := regionX;
      this.regionZ := regionZ;
      mtime := now;
      timestamps := seq(CHUNKS_PER_REGION, _ => 0);
    }

    function GetChunk(index: nat): Option<Chunk>
      reads this
    {
      if index in chunks then Some(chunks[index]) else None
    }

    /** `chunk_count`: the number of occupied slots. */
    function ChunkCount(): (n: nat)
      reads this
      requires Valid()
      ensures n == |set i | 0 <= i < |timestamps| && GetChunk(i).Some?|
    {
      var occupied := set i | 0 <= i < |timestamps| && GetChunk(i).Some?;
      assert occupied == chunks.Keys;
      |chunks|
    }

    function GetChunkAt(x: i32, z: i32): Option<Chunk>
      reads this
    {
      GetChunk(SlotIndex(x, z))
    }

    /** `set_chunk`: store a chunk and its timestamp in one slot. The index must
        be within the timestamp table (the source panics otherwise). */
    method SetChunk(index: nat, chunk: Chunk, timestamp: u32)
      requires Valid() && index < |timestamps|
      modifies this
      ensures Valid()
      ensures chunks == old(chunks)[index := chunk]
      ensures timestamps == old(timestamps)[index := timestamp]
      ensures regionX == old(regionX) && regionZ == old(regionZ) && mtime == old(mtime)
      ensures GetChunk(index) == Some(chunk)
      ensures ChunkCount() == old(ChunkCount()) + (if index in old(chunks) then 0 else 1)
    {
      timestamps := timestamps[index := timestamp];
      chunks := chunks[index := chunk];
    }

    /** `remove_chunk`: empty one slot and zero its timestamp. */
    method RemoveChunk(index: nat)
      requires Valid() && index < |timestamps|
      modifies this
      ensures Valid()
      ensures chunks == old(chunks) - {index}
      ensures timestamps == old(timestamps)[index := 0]
      ensures regionX == old(regionX) && regionZ == old(regionZ) && mtime == old(mtime)
      ensures GetChunk(index) == None
      ensures ChunkCount() == old(ChunkCount()) - (if index in old(chunks) then 1 else 0)
    {
      chunks := chunks - {index};
      timestamps := timestamps[index := 0];
    }

    /** `set_chunk_at`: store a chunk in the slot its world coordinates address. */
    method SetChunkAt(x: i32, z: i32, chunk: Chunk, timestamp: u32)
      requires Valid()
      modifies this
      ensures Valid()
      ensures chunks == old(chunks)[SlotIndex(x, z) := chunk]
      ensures timestamps == old(timestamps)[SlotIndex(x, z) := timestamp]
      ensures regionX == old(regionX) && regionZ == old(regionZ) && mtime == old(mtime)
      ensures GetChunkAt(x, z) == Some(chunk)
    {
      var index := SlotIndex(x, z);
      SetChunk(index, chunk, timestamp);
    }
  }

  /** A snapshot of the performance counters. */
  datatype PerformanceStats = PerformanceStats(
    filesProcessed: nat,
    bytesRead: nat,
    bytesWritten: nat,
    chunksProcessed: nat)

  /** Process-wide counters, updated sequentially in this model. */
  class PerformanceCounters {
    var filesProcessed: nat
    var bytesRead: nat
    var bytesWritten: nat
    var chunksProcessed: nat

    constructor ()
      ensures GetStats() == PerformanceStats(0, 0, 0, 0)
    {
      filesProcessed, bytesRead, bytesWritten, chunksProcessed := 0, 0, 0, 0;
    }

    /** `get_stats`: the current values of the four counters. */
    function GetStats(): (s: PerformanceStats)
      reads this
      ensures s.filesProcessed == filesProcessed && s.bytesRead == bytesRead
      ensures s.bytesWritten == bytesWritten && s.chunksProcessed == chunksProcessed
    {
      PerformanceStats(filesProcessed, bytesRead, bytesWritten, chunksProcessed)
    }

    method AddFile()
      modifies this
      ensures GetStats() == old(GetStats()).(filesProcessed := old(filesProcessed) + 1)
    {
      filesProcessed := filesProcessed + 1;
    }

    method AddBytesRead(bytes: nat)
      modifies this
      ensures GetStats() == old(GetStats()).(bytesRead := old(bytesRead) + bytes)
    {
      bytesRead := bytesRead + bytes;
    }

    method AddBytesWritten(bytes: nat)
      modifies this
      ensures GetStats() == old(GetStats()).(bytesWritten := old(bytesWritten) + bytes)
    {
      bytesWritten := bytesWritten + bytes;
    }

    method AddChunks(chunks: nat)
      modifies this
      ensures GetStats() == old(GetStats()).(chunksProcessed := old(chunksProcessed) + chunks)
    {
      chunksProcessed := chunksProcessed + chunks;
    }
  }
}
