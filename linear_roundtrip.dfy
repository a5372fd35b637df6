/** Writing a region as a Linear file and reading it back. */
module LinearRoundTrip {
  import opened Common
  import opened Regions
  import opened Linear

  /** Every occupied slot below 1024 has a payload the 32-bit size field can
      hold. */
  predicate SizesFit(d: RegionData)
  {
    forall i :: i in d.chunks && i < CHUNKS_PER_REGION ==> |d.chunks[i].data| < 0x1_0000_0000
  }

  /** Every occupied slot below 1024 has a nonempty payload. */
  predicate NoEmptyPayload(d: RegionData)
  {
    forall i :: i in d.chunks && i < CHUNKS_PER_REGION ==> |d.chunks[i].data| > 0
  }

  /** The chunks a reader finds: those of the occupied slots below k with a
      nonempty payload, with the coordinates of their slot. */
  function KeptChunks(d: RegionData, k: nat, regionX: i32, regionZ: i32): map<nat, Chunk>
  {
    map i | i in d.chunks && i < k && |d.chunks[i].data| > 0 :: Chunk(d.chunks[i].data, ChunkX(regionX, i), ChunkZ(regionZ, i))
  }

  /** The table the reader parses from the written buffer is the table the
      writer emitted. */
  lemma MetaTableOfWritten(d: RegionData)
    requires WellFormed(d)
    ensures |ChunkTableBytes(d)| >= META_TABLE_SIZE
    ensures MetaTable(ChunkTableBytes(d)) == WrittenMetas(d, CHUNKS_PER_REGION)
  {
    var metas := WrittenMetas(d, CHUNKS_PER_REGION);
    var flat := Flatten(metas, MetaToBytes);
    var inner := ChunkTableBytes(d);
    FlattenLength(metas, MetaToBytes, META_SIZE);
    forall i | 0 <= i < CHUNKS_PER_REGION
      ensures MetaTable(inner)[i] == metas[i]
    {
      FlattenFixed(metas, MetaToBytes, META_SIZE, i);
      assert inner[META_SIZE * i .. META_SIZE * i + META_SIZE] == flat[META_SIZE * i .. META_SIZE * i + META_SIZE];
    }
  }

  /** The sizes in the written table add up to the payload length. */
  lemma {:induction false} SizeSumWritten(d: RegionData, k: nat)
    requires WellFormed(d) && SizesFit(d) && k <= CHUNKS_PER_REGION
    ensures SizeSum(WrittenMetas(d, CHUNKS_PER_REGION), k) == |Payloads(d, k)|
  {
    if k > 0 {
      SizeSumWritten(d, k - 1);
    }
  }

  /** The written table has no more nonempty entries than there are
      occupied slots; as many when every payload is nonempty and fits, and
      fewer when some occupied slot has an empty payload. */
  lemma {:induction false} CountWritten(d: RegionData, k: nat)
    requires WellFormed(d) && k <= CHUNKS_PER_REGION
    ensures CountNonEmpty(WrittenMetas(d, CHUNKS_PER_REGION), k) <= OccupiedBelow(d, k)
    ensures SizesFit(d) && NoEmptyPayload(d) ==> CountNonEmpty(WrittenMetas(d, CHUNKS_PER_REGION), k) == OccupiedBelow(d, k)
    ensures (exists i :: i in d.chunks && i < k && |d.chunks[i].data| == 0) ==>
      CountNonEmpty(WrittenMetas(d, CHUNKS_PER_REGION), k) < OccupiedBelow(d, k)
  {
    if k > 0 {
      CountWritten(d, k - 1);
      if exists i :: i in d.chunks && i < k && |d.chunks[i].data| == 0 {
        var i :| i in d.chunks && i < k && |d.chunks[i].data| == 0;
        if i < k - 1 {
          assert exists i :: i in d.chunks && i < k - 1 && |d.chunks[i].data| == 0;
        }
      }
    }
  }

  /** The payloads below j are a prefix of those below k. */
  lemma {:induction false} PayloadsPrefix(d: RegionData, j: nat, k: nat)
    requires j <= k
    ensures Payloads(d, j) <= Payloads(d, k)
  {
    if j < k {
      PayloadsPrefix(d, j, k - 1);
    }
  }

  /** The written buffer: the table, then the payloads from byte 8192 on. */
  lemma ChunkTableBytesLayout(d: RegionData)
    requires WellFormed(d)
    ensures |ChunkTableBytes(d)| == META_TABLE_SIZE + |Payloads(d, CHUNKS_PER_REGION)|
    ensures ChunkTableBytes(d)[META_TABLE_SIZE..] == Payloads(d, CHUNKS_PER_REGION)
  {
    FlattenLength(WrittenMetas(d, CHUNKS_PER_REGION), MetaToBytes, META_SIZE);
  }

  /** The chunk the reader cuts for slot k - 1 is the payload the writer put
      there. */
  lemma ChunkAtWritten(d: RegionData, inner: seq<byte>, metas: seq<ChunkMeta>, k: nat, regionX: i32, regionZ: i32)
    requires WellFormed(d) && SizesFit(d) && 0 < k <= CHUNKS_PER_REGION
    requires metas == WrittenMetas(d, CHUNKS_PER_REGION)
    requires |inner| >= META_TABLE_SIZE && inner[META_TABLE_SIZE..] == Payloads(d, CHUNKS_PER_REGION)
    requires k - 1 in d.chunks
    requires META_TABLE_SIZE + SizeSum(metas, k) <= |inner|
    ensures ChunkAt(inner, metas, k - 1, regionX, regionZ) == Chunk(d.chunks[k - 1].data, ChunkX(regionX, k - 1), ChunkZ(regionZ, k - 1))
  {
    var all := Payloads(d, CHUNKS_PER_REGION);
    SizeSumWritten(d, k - 1);
    SizeSumWritten(d, k);
    PayloadsPrefix(d, k, CHUNKS_PER_REGION);
    var a, b := |Payloads(d, k - 1)|, |Payloads(d, k)|;
    assert inner[META_TABLE_SIZE + a .. META_TABLE_SIZE + b] == all[a..b];
    assert all[a..b] == Payloads(d, k)[a..b];
  }

  /** KeptChunks grows by slot k - 1 exactly when that slot has a nonempty
      payload. */
  lemma KeptChunksStep(d: RegionData, k: nat, regionX: i32, regionZ: i32)
    requires k > 0
    ensures KeptChunks(d, k, regionX, regionZ)
            == if k - 1 in d.chunks && |d.chunks[k - 1].data| > 0
               then KeptChunks(d, k - 1, regionX, regionZ)[k - 1 := Chunk(d.chunks[k - 1].data, ChunkX(regionX, k - 1), ChunkZ(regionZ, k - 1))]
               else KeptChunks(d, k - 1, regionX, regionZ)
  {
  }

  /** The chunks the reader cuts from the written buffer, slot by slot, are
      the kept chunks of the region. */
  lemma {:induction false} ChunksFromWritten(d: RegionData, inner: seq<byte>, metas: seq<ChunkMeta>, k: nat, regionX: i32, regionZ: i32)
    requires WellFormed(d) && SizesFit(d) && k <= CHUNKS_PER_REGION
    requires metas == WrittenMetas(d, CHUNKS_PER_REGION)
    requires |inner| == META_TABLE_SIZE + |Payloads(d, CHUNKS_PER_REGION)| && inner[META_TABLE_SIZE..] == Payloads(d, CHUNKS_PER_REGION)
    ensures META_TABLE_SIZE + SizeSum(metas, k) <= |inner|
    ensures ChunksFrom(inner, metas, k, regionX, regionZ) == KeptChunks(d, k, regionX, regionZ)
  {
    SizeSumWritten(d, k);
    PayloadsPrefix(d, k, CHUNKS_PER_REGION);
    if k > 0 {
      ChunksFromWritten(d, inner, metas, k - 1, regionX, regionZ);
      KeptChunksStep(d, k, regionX, regionZ);
      if k - 1 in d.chunks && |d.chunks[k - 1].data| > 0 {
        ChunkAtWritten(d, inner, metas, k, regionX, regionZ);
      }
    }
  }

  /** Reading the written buffer, with the count of nonempty entries as the
      expected count, gives back the kept chunks and the first 1024
      timestamps. */
  lemma ChunkTableRoundTrip(d: RegionData, regionX: i32, regionZ: i32)
    requires WellFormed(d) && SizesFit(d)
    ensures var metas := WrittenMetas(d, CHUNKS_PER_REGION);
      DecodeChunkTable(ChunkTableBytes(d), CountNonEmpty(metas, |metas|), regionX, regionZ)
      == Ok(ChunkTable(KeptChunks(d, CHUNKS_PER_REGION, regionX, regionZ), d.timestamps[..CHUNKS_PER_REGION]))
  {
    var metas := WrittenMetas(d, CHUNKS_PER_REGION);
    var inner := ChunkTableBytes(d);
    MetaTableOfWritten(d);
    ChunkTableBytesLayout(d);
    ChunksFromWritten(d, inner, metas, CHUNKS_PER_REGION, regionX, regionZ);
    SizeSumWritten(d, CHUNKS_PER_REGION);
    assert MetaTimestamps(metas) == d.timestamps[..CHUNKS_PER_REGION];
  }

  /** Decoding the frame of a file the writer made: the header's count is
      the one the writer chose, and the buffer is the one it compressed. */
  lemma DecodeWrittenFile(d: RegionData, filename: string, mtime: u64, compressionLevel: i32, zstd: Codec, chunkCount: u16)
    requires WellFormed(d) && Lossless(zstd) && ParseFilename(filename).Ok?
    requires EncodeLinearWithCount(d, compressionLevel, zstd, chunkCount).Ok?
    ensures var (regionX, regionZ) := ParseFilename(filename).value;
      DecodeLinear(filename, EncodeLinearWithCount(d, compressionLevel, zstd, chunkCount).value, mtime, zstd)
      == match DecodeChunkTable(ChunkTableBytes(d), chunkCount, regionX, regionZ)
         case Err(e) => Err(e)
         case Ok(table) => Ok(RegionData(table.chunks, regionX, regionZ, mtime, table.timestamps))
  {
    EncodeLinearWithCountFrame(d, compressionLevel, zstd, chunkCount);
  }

  /** With the header counting the entries written with a nonzero size,
      every region whose payloads fit the size field reads back: the
      occupied slots below 1024 with a nonempty payload, at their slots, with
      the file name's coordinates, the file's mtime and the first 1024
      timestamps. */
  lemma LinearRoundTripCounted(d: RegionData, filename: string, mtime: u64, compressionLevel: i32, zstd: Codec)
    requires WellFormed(d) && SizesFit(d) && Lossless(zstd) && ParseFilename(filename).Ok?
    requires EncodeLinearCounted(d, compressionLevel, zstd).Ok?
    ensures var (regionX, regionZ) := ParseFilename(filename).value;
      DecodeLinear(filename, EncodeLinearCounted(d, compressionLevel, zstd).value, mtime, zstd)
      == Ok(RegionData(KeptChunks(d, CHUNKS_PER_REGION, regionX, regionZ), regionX, regionZ, mtime, d.timestamps[..CHUNKS_PER_REGION]))
  {
    var (regionX, regionZ) := ParseFilename(filename).value;
    var metas := WrittenMetas(d, CHUNKS_PER_REGION);
    DecodeWrittenFile(d, filename, mtime, compressionLevel, zstd, CountNonEmpty(metas, |metas|));
    ChunkTableRoundTrip(d, regionX, regionZ);
  }

  /** `write_linear_region` followed by `read_linear_region` gives back the
      region when every occupied slot below 1024 has a nonempty payload that
      fits the size field: the same chunks at the same slots, with the file
      name's coordinates, the file's mtime and the first 1024 timestamps. */
  lemma LinearRoundTrip(d: RegionData, filename: string, mtime: u64, compressionLevel: i32, zstd: Codec)
    requires WellFormed(d) && SizesFit(d) && NoEmptyPayload(d) && Lossless(zstd) && ParseFilename(filename).Ok?
    requires EncodeLinear(d, compressionLevel, zstd).Ok?
    ensures var (regionX, regionZ) := ParseFilename(filename).value;
      var r := DecodeLinear(filename, EncodeLinear(d, compressionLevel, zstd).value, mtime, zstd);
      && r.Ok? && r.value.regionX == regionX && r.value.regionZ == regionZ && r.value.mtime == mtime
      && r.value.timestamps == d.timestamps[..CHUNKS_PER_REGION]
      && (forall i :: i in r.value.chunks <==> i in d.chunks && i < CHUNKS_PER_REGION)
      && (forall i :: i in r.value.chunks ==> r.value.chunks[i] == Chunk(d.chunks[i].data, ChunkX(regionX, i), ChunkZ(regionZ, i)))
  {
    var metas := WrittenMetas(d, CHUNKS_PER_REGION);
    CountWritten(d, CHUNKS_PER_REGION);
    assert EncodeLinear(d, compressionLevel, zstd) == EncodeLinearCounted(d, compressionLevel, zstd);
    LinearRoundTripCounted(d, filename, mtime, compressionLevel, zstd);
  }

  /** A region with an occupied slot whose payload is empty is written with
      a count the reader rejects: the entry has size 0, so the reader finds
      fewer nonempty entries than the header claims. */
  lemma EmptyPayloadUnreadable(d: RegionData, filename: string, mtime: u64, compressionLevel: i32, zstd: Codec, i: nat)
    requires WellFormed(d) && Lossless(zstd) && ParseFilename(filename).Ok?
    requires EncodeLinear(d, compressionLevel, zstd).Ok?
    requires i in d.chunks && i < CHUNKS_PER_REGION && |d.chunks[i].data| == 0
    ensures var metas := WrittenMetas(d, CHUNKS_PER_REGION);
      && CountNonEmpty(metas, |metas|) < OccupiedBelow(d, CHUNKS_PER_REGION)
      && DecodeLinear(filename, EncodeLinear(d, compressionLevel, zstd).value, mtime, zstd)
         == Err(InvalidChunkCount(OccupiedBelow(d, CHUNKS_PER_REGION), CountNonEmpty(metas, |metas|)))
  {
    var metas := WrittenMetas(d, CHUNKS_PER_REGION);
    CountWritten(d, CHUNKS_PER_REGION);
    MetaTableOfWritten(d);
    DecodeWrittenFile(d, filename, mtime, compressionLevel, zstd, OccupiedBelow(d, CHUNKS_PER_REGION));
  }
}
