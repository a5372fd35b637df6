/** The Linear region format: a 24-byte header, eight reserved bytes, one
    zstd frame, and the signature again as an 8-byte footer. The frame holds
    a table of 1024 (size, timestamp) entries followed by the payloads of the
    nonempty slots, back to back in slot order. */
module Linear {
  import opened Common
  import opened Regions

  const HEADER_SIZE: nat := 24
  const META_SIZE: nat := 8
  /** Header plus the eight reserved bytes: where the zstd frame starts. */
  const COMPRESSED_START: nat := 32
  const FOOTER_SIZE: nat := 8
  /** The entry table at the start of the decompressed buffer. */
  const META_TABLE_SIZE: nat := 8192

  // ---------------------------------------------------------------------
  // Header and table entries

  datatype LinearHeader = LinearHeader(
    signature: u64,
    version: byte,
    newestTimestamp: u64,
    compressionLevel: i8,
    chunkCount: u16,
    compressedSize: u32)

  /** `LinearHeader::new`: the signature and version are the format's own. */
  function NewHeader(newestTimestamp: u64, compressionLevel: i8, chunkCount: u16, compressedSize: u32): LinearHeader
  {
    LinearHeader(LINEAR_SIGNATURE, LINEAR_VERSION, newestTimestamp, compressionLevel, chunkCount, compressedSize)
  }

  /** `LinearHeader::from_bytes`: big-endian fields at fixed offsets; fewer
      than 24 bytes is a format error. */
  function HeaderFromBytes(data: seq<byte>): (r: Result<LinearHeader>)
    ensures r.Err? <==> |data| < HEADER_SIZE
    ensures r.Err? ==> r.error == InvalidFormat
  {
    if |data| < HEADER_SIZE then Err(InvalidFormat)
    else
      Pow256Values();
      Ok(LinearHeader(FromBE(data[0..8]), data[8], FromBE(data[9..17]), ByteToI8(data[17]),
                      FromBE(data[18..20]), FromBE(data[20..24])))
  }

  /** `LinearHeader::to_bytes`: each field big-endian at its offset. */
  function HeaderToBytes(h: LinearHeader): (b: seq<byte>)
    ensures |b| == HEADER_SIZE
    ensures b[0..8] == ToBE(h.signature, 8) && b[8] == h.version && b[9..17] == ToBE(h.newestTimestamp, 8)
    ensures b[17] == I8ToByte(h.compressionLevel) && b[18..20] == ToBE(h.chunkCount, 2) && b[20..24] == ToBE(h.compressedSize, 4)
  {
    var b := ToBE(h.signature, 8) + [h.version] + ToBE(h.newestTimestamp, 8) + [I8ToByte(h.compressionLevel)]
             + ToBE(h.chunkCount, 2) + ToBE(h.compressedSize, 4);
    assert b[0..8] == ToBE(h.signature, 8);
    assert b[9..17] == ToBE(h.newestTimestamp, 8);
    assert b[18..20] == ToBE(h.chunkCount, 2);
    assert b[20..24] == ToBE(h.compressedSize, 4);
    b
  }

  /** Reading a written header gives it back. */
  lemma HeaderRoundTrip(h: LinearHeader)
    ensures HeaderFromBytes(HeaderToBytes(h)) == Ok(h)
  {
    Pow256Values();
    FromToBEExact(h.signature, 8);
    FromToBEExact(h.newestTimestamp, 8);
    FromToBEExact(h.chunkCount, 2);
    FromToBEExact(h.compressedSize, 4);
  }

  /** Every 24 bytes are some header, and writing it gives them back. */
  lemma HeaderBytesRoundTrip(data: seq<byte>)
    requires |data| >= HEADER_SIZE
    ensures HeaderToBytes(HeaderFromBytes(data).value) == data[..HEADER_SIZE]
  {
    ToFromBE(data[0..8]);
    ToFromBE(data[9..17]);
    ToFromBE(data[18..20]);
    ToFromBE(data[20..24]);
    assert data[..HEADER_SIZE] == data[0..8] + [data[8]] + data[9..17] + [data[17]] + data[18..20] + data[20..24];
  }

  /** One entry of the table: payload length (0 for an empty slot) and timestamp. */
  datatype ChunkMeta = ChunkMeta(size: u32, timestamp: u32)

  /** `ChunkMeta::from_bytes`; the caller passes at least 8 bytes. */
  function MetaFromBytes(data: seq<byte>): ChunkMeta
    requires |data| >= META_SIZE
  {
    Pow256Values();
    ChunkMeta(FromBE(data[0..4]), FromBE(data[4..8]))
  }

  /** `ChunkMeta::to_bytes`; reading the bytes back gives the entry. */
  function MetaToBytes(m: ChunkMeta): (b: seq<byte>)
    ensures |b| == META_SIZE
    ensures MetaFromBytes(b) == m
  {
    var b := ToBE(m.size, 4) + ToBE(m.timestamp, 4);
    assert b[0..4] == ToBE(m.size, 4) && b[4..8] == ToBE(m.timestamp, 4);
    Pow256Values();
    FromToBEExact(m.size, 4);
    FromToBEExact(m.timestamp, 4);
    b
  }

  /** Every 8 bytes are some entry, and writing it gives them back. */
  lemma MetaBytesRoundTrip(data: seq<byte>)
    requires |data| >= META_SIZE
    ensures MetaToBytes(MetaFromBytes(data)) == data[..META_SIZE]
  {
    ToFromBE(data[0..4]);
    ToFromBE(data[4..8]);
    assert data[..META_SIZE] == data[0..4] + data[4..8];
  }

  // ---------------------------------------------------------------------
  // The container: header, reserved bytes, frame, footer

  /** The last eight bytes read as a big-endian signature. */
  function FooterSignature(file: seq<byte>): u64
    requires |file| >= FOOTER_SIZE
  {
    Pow256Values();
    FromBE(file[|file| - FOOTER_SIZE..])
  }

  /** The checks `read_linear_region` makes before decompressing, in its
      order: length, header signature, version (1 or 2), footer signature. */
  function CheckContainer(file: seq<byte>): (r: Result<LinearHeader>)
    ensures r.Ok? <==>
      && |file| >= COMPRESSED_START
      && FromBE(file[..8]) == LINEAR_SIGNATURE
      && (file[8] == 1 || file[8] == 2)
      && FromBE(file[|file| - FOOTER_SIZE..]) == LINEAR_SIGNATURE
    ensures r.Ok? ==> r == HeaderFromBytes(file[..HEADER_SIZE])
    ensures r.Err? ==>
      || (|file| < COMPRESSED_START && r.error == InvalidFormat)
      || (r.error.InvalidSignature? && r.error.expectedSignature == LINEAR_SIGNATURE && r.error.foundSignature != LINEAR_SIGNATURE)
      || (r.error.UnsupportedVersion? && r.error.version != 1 && r.error.version != 2)
  {
    if |file| < COMPRESSED_START then Err(InvalidFormat)
    else
      // Cannot fail: the file holds at least a header.
      var header := HeaderFromBytes(file[..HEADER_SIZE]).value;
      assert file[..HEADER_SIZE][0..8] == file[..8];
      if header.signature != LINEAR_SIGNATURE then Err(InvalidSignature(LINEAR_SIGNATURE, header.signature))
      else if header.version != 1 && header.version != 2 then Err(UnsupportedVersion(header.version))
      else if FooterSignature(file) != LINEAR_SIGNATURE then Err(InvalidSignature(LINEAR_SIGNATURE, FooterSignature(file)))
      else Ok(header)
  }

  /** `verify_linear_file`: the file could be mapped (None when it could not)
      and passes the same header and footer checks as the reader. */
  function VerifyLinearFile(file: Option<seq<byte>>): (ok: bool)
    ensures ok <==> file.Some? && CheckContainer(file.value).Ok?
  {
    if file.None? then false
    else
      var data := file.value;
      if |data| < COMPRESSED_START then false
      else
        var header := HeaderFromBytes(data[..HEADER_SIZE]).value;
        if header.signature != LINEAR_SIGNATURE || (header.version != 1 && header.version != 2) then false
        else FooterSignature(data) == LINEAR_SIGNATURE
  }

  /** The zstd frame between the reserved bytes and the footer, after the
      container checks. Those checks admit files of 32 to 39 bytes, for which
      the frame would end before it starts; such files are rejected here
      with a format error. */
  function CompressedFrame(file: seq<byte>): (r: Result<(LinearHeader, seq<byte>)>)
    ensures r.Ok? <==> CheckContainer(file).Ok? && |file| >= COMPRESSED_START + FOOTER_SIZE
    ensures r.Ok? ==> r.value.0 == CheckContainer(file).value
    ensures r.Ok? ==> |file| == COMPRESSED_START + |r.value.1| + FOOTER_SIZE
    ensures r.Ok? ==> file == file[..COMPRESSED_START] + r.value.1 + file[|file| - FOOTER_SIZE..]
    ensures r.Err? ==> r.error == (if CheckContainer(file).Err? then CheckContainer(file).error else InvalidFormat)
  {
    match CheckContainer(file)
    case Err(e) => Err(e)
    case Ok(header) =>
      if |file| < COMPRESSED_START + FOOTER_SIZE then Err(InvalidFormat)
      else
        var frame := file[COMPRESSED_START .. |file| - FOOTER_SIZE];
        assert file == file[..COMPRESSED_START] + frame + file[|file| - FOOTER_SIZE..];
        Ok((header, frame))
  }

  /** A 32-byte file: signature, version 1, fifteen zero bytes, signature. */
  function ShortLinearFile(): seq<byte>
  {
    ToBE(LINEAR_SIGNATURE, 8) + [1] + Zeros(15) + ToBE(LINEAR_SIGNATURE, 8)
  }

  /** The reader's checks accept the 32-byte file, yet the frame it then
      slices would run from byte 32 to byte 24. */
  lemma ShortFilePassesChecks()
    ensures CheckContainer(ShortLinearFile()).Ok?
    ensures |ShortLinearFile()| - FOOTER_SIZE < COMPRESSED_START
    ensures CompressedFrame(ShortLinearFile()) == Err(InvalidFormat)
  {
    var file := ShortLinearFile();
    Pow256Values();
    FromToBEExact(LINEAR_SIGNATURE, 8);
    assert file[..8] == ToBE(LINEAR_SIGNATURE, 8);
    assert file[|file| - FOOTER_SIZE..] == ToBE(LINEAR_SIGNATURE, 8);
  }

  // ---------------------------------------------------------------------
  // The decompressed buffer

  /** The 1024 entries at the start of the decompressed buffer. */
  function MetaTable(inner: seq<byte>): (metas: seq<ChunkMeta>)
    requires |inner| >= META_TABLE_SIZE
    ensures |metas| == CHUNKS_PER_REGION
  {
    seq(CHUNKS_PER_REGION, i requires 0 <= i < CHUNKS_PER_REGION => MetaFromBytes(inner[META_SIZE * i .. META_SIZE * i + META_SIZE]))
  }

  /** The number of nonempty entries among the first k. */
  function CountNonEmpty(metas: seq<ChunkMeta>, k: nat): (n: nat)
    requires k <= |metas|
    ensures n <= k
  {
    if k == 0 then 0 else CountNonEmpty(metas, k - 1) + (if metas[k - 1].size > 0 then 1 else 0)
  }

  /** The total payload length of the first k entries. */
  function SizeSum(metas: seq<ChunkMeta>, k: nat): nat
    requires k <= |metas|
  {
    if k == 0 then 0 else SizeSum(metas, k - 1) + metas[k - 1].size
  }

  lemma {:induction false} SizeSumMono(metas: seq<ChunkMeta>, j: nat, k: nat)
    requires j <= k <= |metas|
    ensures SizeSum(metas, j) <= SizeSum(metas, k)
  {
    if j < k {
      SizeSumMono(metas, j, k - 1);
    }
  }

  /** The timestamps of the entries, in slot order. */
  function MetaTimestamps(metas: seq<ChunkMeta>): (ts: seq<u32>)
    ensures |ts| == |metas| && forall i :: 0 <= i < |metas| ==> ts[i] == metas[i].timestamp
  {
    seq(|metas|, i requires 0 <= i < |metas| => metas[i].timestamp)
  }

  /** The chunk of slot i: its entry's number of bytes, starting where the
      payloads of the slots before it end. */
  function ChunkAt(inner: seq<byte>, metas: seq<ChunkMeta>, i: nat, regionX: i32, regionZ: i32): (c: Chunk)
    requires i < |metas| && META_TABLE_SIZE + SizeSum(metas, i + 1) <= |inner|
    ensures |c.data| == metas[i].size && c.x == ChunkX(regionX, i) && c.z == ChunkZ(regionZ, i)
  {
    var start := META_TABLE_SIZE + SizeSum(metas, i);
    Chunk(inner[start .. start + metas[i].size], ChunkX(regionX, i), ChunkZ(regionZ, i))
  }

  /** The chunks of the first k slots: each nonempty slot's payload starts
      where the previous nonempty slot's ended, the first at byte 8192. */
  function ChunksFrom(inner: seq<byte>, metas: seq<ChunkMeta>, k: nat, regionX: i32, regionZ: i32): map<nat, Chunk>
    requires k <= |metas| && META_TABLE_SIZE + SizeSum(metas, k) <= |inner|
  {
    if k == 0 then map[]
    else
      var previous := ChunksFrom(inner, metas, k - 1, regionX, regionZ);
      if metas[k - 1].size > 0 then previous[k - 1 := ChunkAt(inner, metas, k - 1, regionX, regionZ)]
      else previous
  }

  /** The slots of ChunksFrom are exactly the nonempty entries below k. */
  lemma {:induction false} ChunksFromKeys(inner: seq<byte>, metas: seq<ChunkMeta>, k: nat, regionX: i32, regionZ: i32)
    requires k <= |metas| && META_TABLE_SIZE + SizeSum(metas, k) <= |inner|
    ensures forall i: nat :: i in ChunksFrom(inner, metas, k, regionX, regionZ) <==> i < k && metas[i].size > 0
  {
    if k > 0 {
      ChunksFromKeys(inner, metas, k - 1, regionX, regionZ);
    }
  }

  /** Each chunk of ChunksFrom is its slot's ChunkAt. */
  lemma {:induction false} ChunksFromValues(inner: seq<byte>, metas: seq<ChunkMeta>, k: nat, regionX: i32, regionZ: i32)
    requires k <= |metas| && META_TABLE_SIZE + SizeSum(metas, k) <= |inner|
    ensures forall i: nat :: i in ChunksFrom(inner, metas, k, regionX, regionZ) ==>
      i < k && META_TABLE_SIZE + SizeSum(metas, i + 1) <= |inner|
      && ChunksFrom(inner, metas, k, regionX, regionZ)[i] == ChunkAt(inner, metas, i, regionX, regionZ)
  {
    if k > 0 {
      ChunksFromValues(inner, metas, k - 1, regionX, regionZ);
      var previous := ChunksFrom(inner, metas, k - 1, regionX, regionZ);
      forall i: nat | i in previous
        ensures META_TABLE_SIZE + SizeSum(metas, i + 1) <= |inner|
      {
        SizeSumMono(metas, i + 1, k);
      }
    }
  }

  /** There are as many chunks as nonempty entries. */
  lemma {:induction false} ChunksFromCount(inner: seq<byte>, metas: seq<ChunkMeta>, k: nat, regionX: i32, regionZ: i32)
    requires k <= |metas| && META_TABLE_SIZE + SizeSum(metas, k) <= |inner|
    ensures |ChunksFrom(inner, metas, k, regionX, regionZ)| == CountNonEmpty(metas, k)
  {
    if k > 0 {
      ChunksFromCount(inner, metas, k - 1, regionX, regionZ);
      ChunksFromKeys(inner, metas, k - 1, regionX, regionZ);
      assert k - 1 !in ChunksFrom(inner, metas, k - 1, regionX, regionZ);
    }
  }

  /** A chunk ends no later than the next nonempty one starts: the payloads
      do not overlap. */
  lemma {:induction false} PayloadsDisjoint(metas: seq<ChunkMeta>, i: nat, j: nat)
    requires i < j <= |metas|
    ensures SizeSum(metas, i) + metas[i].size <= SizeSum(metas, j)
  {
    SizeSumMono(metas, i + 1, j);
  }

  /** The decompressed buffer's slots and timestamps. */
  datatype ChunkTable = ChunkTable(chunks: map<nat, Chunk>, timestamps: seq<u32>)

  /** The checks and slicing `read_linear_region` applies to the decompressed
      buffer: it must hold the entry table, the header's chunk count must be
      the number of nonempty entries, and the payloads must fill the rest of
      the buffer exactly. */
  function DecodeChunkTable(inner: seq<byte>, expectedCount: u16, regionX: i32, regionZ: i32): (r: Result<ChunkTable>)
  {
    if |inner| < META_TABLE_SIZE then Err(InvalidFormat)
    else
      var metas := MetaTable(inner);
      var found := CountNonEmpty(metas, |metas|);
      if found != expectedCount then Err(InvalidChunkCount(expectedCount, found))
      else if META_TABLE_SIZE + SizeSum(metas, |metas|) != |inner| then Err(InvalidFormat)
      else Ok(ChunkTable(ChunksFrom(inner, metas, |metas|, regionX, regionZ), MetaTimestamps(metas)))
  }

  /** What a successful decode of the buffer holds: one chunk per nonempty
      entry, as many as the header says, each cut from its own offset, and
      the 1024 timestamps of the table; and when it fails, why. */
  lemma DecodeChunkTableSpec(inner: seq<byte>, expectedCount: u16, regionX: i32, regionZ: i32)
    ensures var r := DecodeChunkTable(inner, expectedCount, regionX, regionZ);
      && (r.Ok? <==>
            && |inner| >= META_TABLE_SIZE
            && CountNonEmpty(MetaTable(inner), CHUNKS_PER_REGION) == expectedCount
            && META_TABLE_SIZE + SizeSum(MetaTable(inner), CHUNKS_PER_REGION) == |inner|)
      && (|inner| >= META_TABLE_SIZE && CountNonEmpty(MetaTable(inner), CHUNKS_PER_REGION) != expectedCount ==>
            r == Err(InvalidChunkCount(expectedCount, CountNonEmpty(MetaTable(inner), CHUNKS_PER_REGION))))
      && (r.Ok? ==>
            && |r.value.chunks| == expectedCount
            && r.value.timestamps == MetaTimestamps(MetaTable(inner))
            && (forall i: nat :: i in r.value.chunks <==> i < CHUNKS_PER_REGION && MetaTable(inner)[i].size > 0)
            && (forall i :: i in r.value.chunks ==>
                  && |r.value.chunks[i].data| == MetaTable(inner)[i].size
                  && r.value.chunks[i].x == ChunkX(regionX, i) && r.value.chunks[i].z == ChunkZ(regionZ, i)))
  {
    if |inner| >= META_TABLE_SIZE {
      var metas := MetaTable(inner);
      if META_TABLE_SIZE + SizeSum(metas, |metas|) == |inner| {
        ChunksFromKeys(inner, metas, |metas|, regionX, regionZ);
        ChunksFromValues(inner, metas, |metas|, regionX, regionZ);
        ChunksFromCount(inner, metas, |metas|, regionX, regionZ);
      }
    }
  }

  /** `read_linear_region` as a function of the file's name, bytes and
      modification time. */
  function DecodeLinear(filename: string, file: seq<byte>, mtime: u64, zstd: Codec): (r: Result<RegionData>)
  {
    match ParseFilename(filename)
    case Err(e) => Err(e)
    case Ok((regionX, regionZ)) =>
      match CompressedFrame(file)
      case Err(e) => Err(e)
      case Ok((header, frame)) =>
        match zstd.decompress(frame)
        case None => Err(DecompressionFailed)
        case Some(inner) =>
          match DecodeChunkTable(inner, header.chunkCount, regionX, regionZ)
          case Err(e) => Err(e)
          case Ok(table) => Ok(RegionData(table.chunks, regionX, regionZ, mtime, table.timestamps))
  }

  /** A region read from a Linear file is well formed: 1024 timestamps and
      every chunk in a slot below 1024. */
  lemma DecodeLinearWellFormed(filename: string, file: seq<byte>, mtime: u64, zstd: Codec)
    requires DecodeLinear(filename, file, mtime, zstd).Ok?
    ensures WellFormed(DecodeLinear(filename, file, mtime, zstd).value)
    ensures |DecodeLinear(filename, file, mtime, zstd).value.timestamps| == CHUNKS_PER_REGION
    ensures var d := DecodeLinear(filename, file, mtime, zstd).value;
      ParseFilename(filename) == Ok((d.regionX, d.regionZ)) && d.mtime == mtime
  {
    var (regionX, regionZ) := ParseFilename(filename).value;
    var (header, frame) := CompressedFrame(file).value;
    DecodeChunkTableSpec(zstd.decompress(frame).value, header.chunkCount, regionX, regionZ);
  }

  // ---------------------------------------------------------------------
  // Reading

  /** The entry loop of `read_linear_region`: the 1024 entries, the total
      payload length and the number of nonempty entries. */
  method ScanMetas(inner: seq<byte>) returns (metas: seq<ChunkMeta>, total: nat, count: u16)
    requires |inner| >= META_TABLE_SIZE
    ensures metas == MetaTable(inner)
    ensures total == SizeSum(metas, |metas|) && count == CountNonEmpty(metas, |metas|)
  {
    ghost var table := MetaTable(inner);
    metas, total, count := [], 0, 0;
    for i := 0 to CHUNKS_PER_REGION
      invariant metas == table[..i]
      invariant total == SizeSum(table, i) && count == CountNonEmpty(table, i)
    {
      var meta := MetaFromBytes(inner[META_SIZE * i .. META_SIZE * i + META_SIZE]);
      if meta.size > 0 {
        count := count + 1;
        total := total + meta.size;
      }
      metas := metas + [meta];
      assert table[..i + 1] == table[..i] + [table[i]];
    }
    assert table[..CHUNKS_PER_REGION] == table;
  }

  /** The state of the slot loop of `read_linear_region` after i slots: the
      timestamps of those slots are set, their chunks are stored, and the
      offset is where the next payload starts. */
  ghost predicate FilledUpTo(region: Region, inner: seq<byte>, metas: seq<ChunkMeta>, i: nat, offset: nat)
    reads region
  {
    && region.Valid() && |region.timestamps| == CHUNKS_PER_REGION
    && i <= |metas| && i <= CHUNKS_PER_REGION && offset == META_TABLE_SIZE + SizeSum(metas, i) <= |inner|
    && region.chunks == ChunksFrom(inner, metas, i, region.regionX, region.regionZ)
    && forall j :: 0 <= j < i ==> region.timestamps[j] == metas[j].timestamp
  }

  /** One iteration of the slot loop: sets the timestamp of slot i and, for
      a nonempty entry, stores the payload that starts at the offset. */
  method FillSlot(region: Region, inner: seq<byte>, metas: seq<ChunkMeta>, i: nat, offset: nat) returns (next: nat)
    requires i < |metas| == CHUNKS_PER_REGION && META_TABLE_SIZE + SizeSum(metas, |metas|) == |inner|
    requires FilledUpTo(region, inner, metas, i, offset)
    modifies region
    ensures FilledUpTo(region, inner, metas, i + 1, next)
    ensures region.regionX == old(region.regionX) && region.regionZ == old(region.regionZ) && region.mtime == old(region.mtime)
  {
    SizeSumMono(metas, i + 1, |metas|);
    region.timestamps := region.timestamps[i := metas[i].timestamp];
    next := offset;
    if metas[i].size > 0 {
      var chunkEnd := offset + metas[i].size;
      var chunk := Chunk(inner[offset .. chunkEnd], ChunkX(region.regionX, i), ChunkZ(region.regionZ, i));
      assert chunk == ChunkAt(inner, metas, i, region.regionX, region.regionZ);
      region.SetChunk(i, chunk, metas[i].timestamp);
      next := chunkEnd;
    }
  }

  /** The slot loop of `read_linear_region`: sets every timestamp from the
      table and stores each nonempty slot's payload, taken right after the
      previous one. */
  method FillRegion(region: Region, inner: seq<byte>, metas: seq<ChunkMeta>)
    requires |metas| == CHUNKS_PER_REGION && META_TABLE_SIZE + SizeSum(metas, |metas|) == |inner|
    requires region.Valid() && region.chunks == map[] && |region.timestamps| == CHUNKS_PER_REGION
    modifies region
    ensures region.Valid()
    ensures region.chunks == ChunksFrom(inner, metas, |metas|, region.regionX, region.regionZ)
    ensures region.timestamps == MetaTimestamps(metas)
    ensures region.regionX == old(region.regionX) && region.regionZ == old(region.regionZ) && region.mtime == old(region.mtime)
  {
    var offset := META_TABLE_SIZE;
    SizeSumMono(metas, 0, |metas|);
    for i := 0 to CHUNKS_PER_REGION
      invariant FilledUpTo(region, inner, metas, i, offset)
      invariant region.regionX == old(region.regionX) && region.regionZ == old(region.regionZ) && region.mtime == old(region.mtime)
    {
      offset := FillSlot(region, inner, metas, i, offset);
    }
    assert region.timestamps == MetaTimestamps(metas);
  }

  /** The part of `read_linear_region` after decompression: scans the
      table, checks the count and the total length, and builds the region. */
  method LoadChunkTable(inner: seq<byte>, expectedCount: u16, regionX: i32, regionZ: i32, fileMtime: u64)
    returns (r: Result<Region>, realChunkCount: u16)
    ensures r.Err? <==> DecodeChunkTable(inner, expectedCount, regionX, regionZ).Err?
    ensures r.Err? ==> r.error == DecodeChunkTable(inner, expectedCount, regionX, regionZ).error
    ensures r.Ok? ==> fresh(r.value) && r.value.Valid() && realChunkCount == |r.value.chunks|
    ensures r.Ok? ==> var table := DecodeChunkTable(inner, expectedCount, regionX, regionZ).value;
      r.value.Data() == RegionData(table.chunks, regionX, regionZ, fileMtime, table.timestamps)
  {
    if |inner| < META_TABLE_SIZE {
      return Err(InvalidFormat), 0;
    }
    var metas, totalChunkSize;
    metas, totalChunkSize, realChunkCount := ScanMetas(inner);
    if realChunkCount != expectedCount {
      return Err(InvalidChunkCount(expectedCount, realChunkCount)), realChunkCount;
    }
    if META_TABLE_SIZE + totalChunkSize != |inner| {
      return Err(InvalidFormat), realChunkCount;
    }

    // `Region::new` reads the clock; the value is replaced by the file's mtime.
    var region := new Region(regionX, regionZ, fileMtime);
    FillRegion(region, inner, metas);
    ChunksFromCount(inner, metas, |metas|, regionX, regionZ);
    return Ok(region), realChunkCount;
  }

  /** `read_linear_region`. The file's name, bytes and modification time are
      parameters; the optional counters are updated as in the source. */
  method ReadLinearRegion(filename: string, file: seq<byte>, fileMtime: u64, zstd: Codec, counters: PerformanceCounters?)
    returns (r: Result<Region>)
    modifies counters
    ensures r.Err? <==> DecodeLinear(filename, file, fileMtime, zstd).Err?
    ensures r.Err? ==> r.error == DecodeLinear(filename, file, fileMtime, zstd).error
    ensures r.Ok? ==> fresh(r.value) && r.value.Valid()
    ensures r.Ok? ==> r.value.Data() == DecodeLinear(filename, file, fileMtime, zstd).value
    ensures counters != null ==> counters.bytesRead == old(counters.bytesRead) + (if ParseFilename(filename).Ok? then |file| else 0)
    ensures counters != null ==> counters.filesProcessed == old(counters.filesProcessed) + (if r.Ok? then 1 else 0)
    ensures counters != null ==> counters.chunksProcessed == old(counters.chunksProcessed) + (if r.Ok? then |r.value.chunks| else 0)
    ensures counters != null ==> counters.bytesWritten == old(counters.bytesWritten)
  {
    var coordinates := ParseFilename(filename);
    if coordinates.Err? {
      return Err(coordinates.error);
    }
    var (regionX, regionZ) := coordinates.value;
    var fileSize := |file|;
    if counters != null {
      counters.AddBytesRead(fileSize);
    }
    if fileSize < COMPRESSED_START {
      return Err(InvalidFormat);
    }
    // Cannot fail: the file holds at least a header.
    var header := HeaderFromBytes(file[..HEADER_SIZE]).value;
    if header.signature != LINEAR_SIGNATURE {
      return Err(InvalidSignature(LINEAR_SIGNATURE, header.signature));
    }
    if header.version != 1 && header.version != 2 {
      return Err(UnsupportedVersion(header.version));
    }
    var footerSignature := FooterSignature(file);
    if footerSignature != LINEAR_SIGNATURE {
      return Err(InvalidSignature(LINEAR_SIGNATURE, footerSignature));
    }
    if fileSize < COMPRESSED_START + FOOTER_SIZE {
      return Err(InvalidFormat);
    }
    var decompressed := zstd.decompress(file[COMPRESSED_START .. fileSize - FOOTER_SIZE]);
    if decompressed.None? {
      return Err(DecompressionFailed);
    }
    var loaded, realChunkCount := LoadChunkTable(decompressed.value, header.chunkCount, regionX, regionZ, fileMtime);
    if loaded.Err? {
      return Err(loaded.error);
    }
    if counters != null {
      counters.AddFile();
      counters.AddChunks(realChunkCount);
    }
    return Ok(loaded.value);
  }

  // ---------------------------------------------------------------------
  // Writing

  /** The entry the writer emits for slot i: the payload length truncated
      to 32 bits for an occupied slot, 0 for an empty one, and the slot's
      timestamp either way. */
  function WrittenMeta(d: RegionData, i: nat): ChunkMeta
    requires i < |d.timestamps|
  {
    if i in d.chunks then ChunkMeta(WrapU32(|d.chunks[i].data|), d.timestamps[i])
    else ChunkMeta(0, d.timestamps[i])
  }

  function WrittenMetas(d: RegionData, k: nat): (metas: seq<ChunkMeta>)
    requires k <= |d.timestamps|
    ensures |metas| == k && forall i :: 0 <= i < k ==> metas[i] == WrittenMeta(d, i)
  {
    seq(k, i requires 0 <= i < k => WrittenMeta(d, i))
  }

  /** The payloads of the occupied slots below k, back to back in slot order. */
  function Payloads(d: RegionData, k: nat): seq<byte>
  {
    if k == 0 then [] else Payloads(d, k - 1) + (if k - 1 in d.chunks then d.chunks[k - 1].data else [])
  }

  /** The number of occupied slots below k. */
  function OccupiedBelow(d: RegionData, k: nat): (n: nat)
    ensures n <= k
  {
    if k == 0 then 0 else OccupiedBelow(d, k - 1) + (if k - 1 in d.chunks then 1 else 0)
  }

  /** The largest timestamp of an occupied slot below k, or 0. */
  function NewestBelow(d: RegionData, k: nat): u32
    requires k <= |d.timestamps|
  {
    if k == 0 then 0
    else if k - 1 in d.chunks then Max(NewestBelow(d, k - 1), d.timestamps[k - 1])
    else NewestBelow(d, k - 1)
  }

  /** OccupiedBelow counts the set of occupied slots below k. */
  lemma {:induction false} OccupiedBelowCounts(d: RegionData, k: nat)
    ensures OccupiedBelow(d, k) == |set i | 0 <= i < k && i in d.chunks|
  {
    if k > 0 {
      OccupiedBelowCounts(d, k - 1);
      var below := set i | 0 <= i < k - 1 && i in d.chunks;
      if k - 1 in d.chunks {
        assert (set i | 0 <= i < k && i in d.chunks) == below + {k - 1};
      } else {
        assert (set i | 0 <= i < k && i in d.chunks) == below;
      }
    }
  }

  /** The header's newest timestamp is the largest timestamp of an occupied
      slot, and 0 when no slot below k is occupied. */
  lemma {:induction false} NewestBelowIsMax(d: RegionData, k: nat)
    requires k <= |d.timestamps|
    ensures forall i :: 0 <= i < k && i in d.chunks ==> d.timestamps[i] <= NewestBelow(d, k)
    ensures (exists i :: 0 <= i < k && i in d.chunks) ==>
      exists i :: 0 <= i < k && i in d.chunks && d.timestamps[i] == NewestBelow(d, k)
    ensures (forall i :: 0 <= i < k ==> i !in d.chunks) ==> NewestBelow(d, k) == 0
  {
    if k > 0 {
      NewestBelowIsMax(d, k - 1);
      if (exists i :: 0 <= i < k - 1 && i in d.chunks) && NewestBelow(d, k) == NewestBelow(d, k - 1) {
        var i :| 0 <= i < k - 1 && i in d.chunks && d.timestamps[i] == NewestBelow(d, k - 1);
        assert 0 <= i < k && i in d.chunks && d.timestamps[i] == NewestBelow(d, k);
      }
    }
  }

  /** The decompressed buffer the writer builds: the 1024 entries, then the
      payloads of the occupied slots. */
  function ChunkTableBytes(d: RegionData): seq<byte>
    requires WellFormed(d)
  {
    Flatten(WrittenMetas(d, CHUNKS_PER_REGION), MetaToBytes) + Payloads(d, CHUNKS_PER_REGION)
  }

  /** The file around a compressed buffer: header, eight zero bytes, the
      frame, and the signature as footer. */
  function LinearFile(header: LinearHeader, compressed: seq<byte>): seq<byte>
  {
    HeaderToBytes(header) + Zeros(8) + compressed + ToBE(LINEAR_SIGNATURE, 8)
  }

  /** The file `write_linear_region` writes, given the chunk count it puts in
      the header; None-compression is a compression error. */
  function EncodeLinearWithCount(d: RegionData, compressionLevel: i32, zstd: Codec, chunkCount: u16): Result<seq<byte>>
    requires WellFormed(d)
  {
    match zstd.compress(ChunkTableBytes(d), compressionLevel)
    case None => Err(CompressionFailed)
    case Some(compressed) =>
      Ok(LinearFile(NewHeader(NewestBelow(d, CHUNKS_PER_REGION), WrapI8(compressionLevel), chunkCount, WrapU32(|compressed|)), compressed))
  }

  /** `write_linear_region`: the header counts every occupied slot. */
  function EncodeLinear(d: RegionData, compressionLevel: i32, zstd: Codec): Result<seq<byte>>
    requires WellFormed(d)
  {
    EncodeLinearWithCount(d, compressionLevel, zstd, OccupiedBelow(d, CHUNKS_PER_REGION))
  }

  /** The writer with the header counting the entries written with a nonzero
      size, which is what the reader checks the count against. */
  function EncodeLinearCounted(d: RegionData, compressionLevel: i32, zstd: Codec): Result<seq<byte>>
    requires WellFormed(d)
  {
    var metas := WrittenMetas(d, CHUNKS_PER_REGION);
    EncodeLinearWithCount(d, compressionLevel, zstd, CountNonEmpty(metas, |metas|))
  }

  /** The writer's output, when it succeeds, passes `verify_linear_file` and
      carries the compressed buffer between the header and the footer. */
  lemma EncodeLinearWithCountFrame(d: RegionData, compressionLevel: i32, zstd: Codec, chunkCount: u16)
    requires WellFormed(d)
    requires EncodeLinearWithCount(d, compressionLevel, zstd, chunkCount).Ok?
    ensures var file := EncodeLinearWithCount(d, compressionLevel, zstd, chunkCount).value;
      var compressed := zstd.compress(ChunkTableBytes(d), compressionLevel).value;
      && VerifyLinearFile(Some(file))
      && CompressedFrame(file) == Ok((NewHeader(NewestBelow(d, CHUNKS_PER_REGION), WrapI8(compressionLevel), chunkCount, WrapU32(|compressed|)), compressed))
  {
    var compressed := zstd.compress(ChunkTableBytes(d), compressionLevel).value;
    var header := NewHeader(NewestBelow(d, CHUNKS_PER_REGION), WrapI8(compressionLevel), chunkCount, WrapU32(|compressed|));
    var file := LinearFile(header, compressed);
    assert file[..HEADER_SIZE] == HeaderToBytes(header);
    HeaderRoundTrip(header);
    assert file[..8] == ToBE(LINEAR_SIGNATURE, 8);
    assert file[|file| - FOOTER_SIZE..] == ToBE(LINEAR_SIGNATURE, 8);
    assert file[COMPRESSED_START .. |file| - FOOTER_SIZE] == compressed;
    Pow256Values();
    FromToBEExact(LINEAR_SIGNATURE, 8);
  }

  /** The entry loop of `write_linear_region`: the 1024 entries, the
      payloads, the newest timestamp and the number of occupied slots. */
  method CollectChunks(region: Region, ghost d: RegionData)
    returns (chunkMetas: seq<ChunkMeta>, chunkData: seq<byte>, newestTimestamp: u32, chunkCount: u16)
    requires region.Valid() && d == region.Data()
    ensures chunkMetas == WrittenMetas(d, CHUNKS_PER_REGION) && chunkData == Payloads(d, CHUNKS_PER_REGION)
    ensures newestTimestamp == NewestBelow(d, CHUNKS_PER_REGION) && chunkCount == OccupiedBelow(d, CHUNKS_PER_REGION)
  {
    chunkMetas, chunkData, newestTimestamp, chunkCount := [], [], 0, 0;
    for i := 0 to CHUNKS_PER_REGION
      invariant chunkMetas == WrittenMetas(d, i) && chunkData == Payloads(d, i)
      invariant newestTimestamp == NewestBelow(d, i) && chunkCount == OccupiedBelow(d, i)
    {
      var slot := region.GetChunk(i);
      if slot.Some? {
        var size := WrapU32(|slot.value.data|);
        var timestamp := region.timestamps[i];
        chunkMetas := chunkMetas + [ChunkMeta(size, timestamp)];
        chunkData := chunkData + slot.value.data;
        newestTimestamp := Max(newestTimestamp, timestamp);
        chunkCount := chunkCount + 1;
      } else {
        chunkMetas := chunkMetas + [ChunkMeta(0, region.timestamps[i])];
      }
    }
  }

  /** Serialises the entries one after another. */
  method MetasToBytes(metas: seq<ChunkMeta>) returns (bytes: seq<byte>)
    ensures bytes == Flatten(metas, MetaToBytes)
  {
    bytes := [];
    for j := 0 to |metas|
      invariant bytes == Flatten(metas[..j], MetaToBytes)
    {
      FlattenPush(metas[..j], metas[j], MetaToBytes);
      assert metas[..j + 1] == metas[..j] + [metas[j]];
      bytes := bytes + MetaToBytes(metas[j]);
    }
    assert metas[..|metas|] == metas;
  }

  /** `write_linear_region`: the bytes it writes, and the counter updates on
      success. */
  method WriteLinearRegion(region: Region, compressionLevel: i32, zstd: Codec, counters: PerformanceCounters?) returns (r: Result<seq<byte>>)
    requires region.Valid()
    modifies counters
    ensures r == EncodeLinear(old(region.Data()), compressionLevel, zstd)
    ensures counters != null ==> counters.filesProcessed == old(counters.filesProcessed) + (if r.Ok? then 1 else 0)
    ensures counters != null ==> counters.bytesWritten == old(counters.bytesWritten) + (if r.Ok? then |r.value| else 0)
    ensures counters != null ==> counters.chunksProcessed == old(counters.chunksProcessed) + (if r.Ok? then OccupiedBelow(old(region.Data()), CHUNKS_PER_REGION) else 0)
    ensures counters != null ==> counters.bytesRead == old(counters.bytesRead)
  {
    ghost var d := region.Data();
    var chunkMetas, chunkData, newestTimestamp, chunkCount := CollectChunks(region, d);
    var decompressed := MetasToBytes(chunkMetas);
    decompressed := decompressed + chunkData;
    var compressed := zstd.compress(decompressed, compressionLevel);
    if compressed.None? {
      return Err(CompressionFailed);
    }
    var header := NewHeader(newestTimestamp, WrapI8(compressionLevel), chunkCount, WrapU32(|compressed.value|));
    var fileData := HeaderToBytes(header) + Zeros(8) + compressed.value + ToBE(LINEAR_SIGNATURE, 8);
    r := Ok(fileData);
    if counters != null {
      counters.AddFile();
      counters.AddBytesWritten(|fileData|);
      counters.AddChunks(chunkCount);
    }
  }
}
