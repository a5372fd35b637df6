/** The Anvil (.mca) container: an 8 KiB header made of a 1024-entry location
    table and a 1024-entry timestamp table, followed by 4096-byte sectors that
    hold each chunk as a 5-byte header and its zlib-compressed payload. */
module Anvil {
  import opened Common
  import opened Regions

  const LOCATION_SIZE: nat := 4
  const DATA_HEADER_SIZE: nat := 5
  const MAX_SECTORS: nat := 255

  // ---------------------------------------------------------------------
  // Location entries

  type Bytes3 = s: seq<byte> | |s| == 3 witness [0, 0, 0]

  /** A location table entry: a 3-byte big-endian sector offset and a 1-byte
      sector count. */
  datatype ChunkLocation = ChunkLocation(offset: Bytes3, sectorCount: byte)

  /** `ChunkLocation::get_offset`: the offset bytes read as a big-endian number. */
  function GetOffset(l: ChunkLocation): (o: nat)
    ensures o < 0x100_0000
    ensures o == FromBE(l.offset)
  {
    FromBELeadingZero(l.offset);
    assert Pow256(3) == 0x100_0000 by { Pow256Values(); }
    FromBE([0] + l.offset)
  }

  /** `ChunkLocation::new`: keeps the three low-order bytes of the offset. */
  function NewLocation(offset: u32, sectorCount: byte): (l: ChunkLocation)
    ensures l.sectorCount == sectorCount
    ensures GetOffset(l) == offset % 0x100_0000
    ensures offset < 0x100_0000 ==> GetOffset(l) == offset
  {
    var b := ToBE(offset, 4);
    ToBEDropHigh(offset, 3);
    FromToBE(offset, 3);
    Pow256Values();
    ChunkLocation(b[1..], sectorCount)
  }

  /** `ChunkLocation::from_bytes`: the first four bytes of `data`. */
  function LocationFromBytes(data: seq<byte>): ChunkLocation
    requires |data| >= LOCATION_SIZE
  {
    ChunkLocation(data[0..3], data[3])
  }

  /** `ChunkLocation::to_bytes`, the inverse of LocationFromBytes. */
  function LocationToBytes(l: ChunkLocation): (b: seq<byte>)
    ensures |b| == LOCATION_SIZE
    ensures LocationFromBytes(b) == l
  {
    l.offset + [l.sectorCount]
  }

  /** `ChunkLocation::is_empty`. */
  predicate IsEmpty(l: ChunkLocation)
  {
    GetOffset(l) == 0 && l.sectorCount == 0
  }

  /** An entry is empty exactly when all four of its bytes are zero. */
  lemma IsEmptyIff(l: ChunkLocation)
    ensures IsEmpty(l) <==> LocationToBytes(l) == [0, 0, 0, 0]
  {
    var b := LocationToBytes(l);
    assert b[..3] == l.offset && b[3] == l.sectorCount;
    if GetOffset(l) == 0 {
      ToFromBE(l.offset);
      assert ToBE(0, 3) == [0, 0, 0];
    }
    if b == [0, 0, 0, 0] {
      assert l.offset == [0, 0, 0];
      assert FromBE([0]) == 0;
      assert [0, 0][..1] == [0];
      assert FromBE([0, 0]) == 0;
      assert [0, 0, 0][..2] == [0, 0];
      assert FromBE([0, 0, 0]) == 0;
    }
  }

  // ---------------------------------------------------------------------
  // Chunk data headers

  /** The 5-byte header at the start of a chunk's sector run: the length of
      what follows (payload plus this type byte) and the compression type. */
  datatype ChunkDataHeader = ChunkDataHeader(length: u32, compressionType: byte)

  function HeaderFromBytes(data: seq<byte>): ChunkDataHeader
    requires |data| >= DATA_HEADER_SIZE
  {
    Pow256Values();
    ChunkDataHeader(FromBE(data[0..4]), data[4])
  }

  /** `ChunkDataHeader::to_bytes`: 4-byte big-endian length, then the type. */
  function HeaderToBytes(h: ChunkDataHeader): (b: seq<byte>)
    ensures |b| == DATA_HEADER_SIZE
    ensures b[..4] == ToBE(h.length, 4) && b[4] == h.compressionType
    ensures HeaderFromBytes(b) == h
  {
    var b := ToBE(h.length, 4) + [h.compressionType];
    assert b[0..4] == ToBE(h.length, 4);
    Pow256Values();
    FromToBEExact(h.length, 4);
    b
  }

  // ---------------------------------------------------------------------
  // Reading

  /** Reads the contents of an external chunk file `c.<x>.<z>.mcc` from the
      directory of the region file; None when it cannot be read. */
  type ExternalFiles = (i32, i32) -> Option<seq<byte>>

  function LocationAt(file: seq<byte>, i: nat): ChunkLocation
    requires i < CHUNKS_PER_REGION && |file| >= SECTOR_SIZE
  {
    LocationFromBytes(file[LOCATION_SIZE * i .. LOCATION_SIZE * i + LOCATION_SIZE])
  }

  /** Slot i's timestamp: the big-endian u32 at byte 4096 + 4i. */
  function TimestampAt(file: seq<byte>, i: nat): u32
    requires i < CHUNKS_PER_REGION && |file| >= 2 * SECTOR_SIZE
  {
    Pow256Values();
    FromBE(file[SECTOR_SIZE + 4 * i .. SECTOR_SIZE + 4 * i + 4])
  }

  /** What reading one slot gives: nothing, a decompressed payload, or a
      failure of the whole region. */
  datatype SlotRead = Skip | Load(data: seq<byte>) | Abort(error: Error)

  /** The per-slot rules of `read_anvil_region`. A slot is skipped when its
      entry is empty, its offset or its sector count is zero, or its run of
      sectors ends past the end of the file. (The source also skips a run
      shorter than 5 bytes, which cannot happen: a run is at least one
      sector.) A type-2 payload is the header's `length` bytes after the
      header, cut at the end of the run; a type-130 payload comes from the
      chunk's external file; any other type fails the whole region. */
  function ReadSlot(file: seq<byte>, i: nat, regionX: i32, regionZ: i32, zlib: Codec, external: ExternalFiles): SlotRead
    requires i < CHUNKS_PER_REGION && |file| >= 2 * SECTOR_SIZE
  {
    var location := LocationAt(file, i);
    if IsEmpty(location) then Skip
    else if GetOffset(location) == 0 || location.sectorCount == 0 then Skip
    else
      var chunkStart := GetOffset(location) * SECTOR_SIZE;
      var chunkEnd := chunkStart + location.sectorCount * SECTOR_SIZE;
      if chunkEnd > |file| then Skip
      else
        var header := HeaderFromBytes(file[chunkStart .. chunkStart + DATA_HEADER_SIZE]);
        var compressed := file[chunkStart + DATA_HEADER_SIZE .. chunkEnd];
        if header.compressionType == COMPRESSION_TYPE_ZLIB then
          var dataLength := Min(header.length, |compressed|);
          match zlib.decompress(compressed[..dataLength])
          case None => Abort(DecompressionFailed)
          case Some(payload) => Load(payload)
        else if header.compressionType == EXTERNAL_FILE_COMPRESSION_TYPE then
          match external(ChunkX(regionX, i), ChunkZ(regionZ, i))
          case None => Abort(ExternalChunkFailed)
          case Some(raw) =>
            match zlib.decompress(raw)
            case None => Abort(DecompressionFailed)
            case Some(payload) => Load(payload)
        else Abort(InvalidFormat)
  }

  /** Every slot of the file read on its own. */
  function SlotReads(file: seq<byte>, regionX: i32, regionZ: i32, zlib: Codec, external: ExternalFiles): (slots: seq<SlotRead>)
    requires |file| >= 2 * SECTOR_SIZE
    ensures |slots| == CHUNKS_PER_REGION
  {
    seq(CHUNKS_PER_REGION, i requires 0 <= i < CHUNKS_PER_REGION => ReadSlot(file, i, regionX, regionZ, zlib, external))
  }

  /** The chunks of slots 0..k-1 given each slot's read, or the failure of the
      first slot that fails. */
  function DecodeSlots(slots: seq<SlotRead>, k: nat, regionX: i32, regionZ: i32): Result<map<nat, Chunk>>
    requires k <= |slots|
  {
    if k == 0 then Ok(map[])
    else
      match DecodeSlots(slots, k - 1, regionX, regionZ)
      case Err(e) => Err(e)
      case Ok(m) =>
        match slots[k - 1]
        case Skip => Ok(m)
        case Load(payload) => Ok(m[k - 1 := Chunk(payload, ChunkX(regionX, k - 1), ChunkZ(regionZ, k - 1))])
        case Abort(e) => Err(e)
  }

  /** The region's timestamp vector after reading: 1024 entries that are the
      file's timestamp for loaded slots and 0 elsewhere, followed by the whole
      timestamp table of the file. */
  function ReadTimestamps(file: seq<byte>, chunks: map<nat, Chunk>): (ts: seq<u32>)
    requires |file| >= 2 * SECTOR_SIZE
    ensures |ts| == 2 * CHUNKS_PER_REGION
  {
    seq(CHUNKS_PER_REGION, i requires 0 <= i < CHUNKS_PER_REGION => if i in chunks then TimestampAt(file, i) else 0)
      + seq(CHUNKS_PER_REGION, i requires 0 <= i < CHUNKS_PER_REGION => TimestampAt(file, i))
  }

  /** ReadTimestamps described entry by entry. */
  lemma ReadTimestampsPointwise(file: seq<byte>, chunks: map<nat, Chunk>, table: seq<u32>, ts: seq<u32>)
    requires |file| >= 2 * SECTOR_SIZE
    requires |table| == CHUNKS_PER_REGION && forall j :: 0 <= j < CHUNKS_PER_REGION ==> table[j] == TimestampAt(file, j)
    requires |ts| == 2 * CHUNKS_PER_REGION && ts[CHUNKS_PER_REGION..] == table
    requires forall j :: 0 <= j < CHUNKS_PER_REGION ==> ts[j] == if j in chunks then table[j] else 0
    ensures ts == ReadTimestamps(file, chunks)
  {
    var expected := ReadTimestamps(file, chunks);
    forall j | 0 <= j < 2 * CHUNKS_PER_REGION
      ensures ts[j] == expected[j]
    {
      if j >= CHUNKS_PER_REGION {
        assert ts[j] == table[j - CHUNKS_PER_REGION];
      }
    }
  }

  /** The slot loop succeeds exactly when no slot aborts, and then fails
      with the first abort; on success it holds exactly the loaded slots, each
      at the coordinates its slot implies. */
  lemma {:induction false} DecodeSlotsSpec(slots: seq<SlotRead>, k: nat, regionX: i32, regionZ: i32)
    requires k <= |slots|
    ensures var r := DecodeSlots(slots, k, regionX, regionZ);
      && (r.Ok? <==> forall j :: 0 <= j < k ==> !slots[j].Abort?)
      && (r.Err? ==> exists j :: 0 <= j < k && slots[j] == Abort(r.error) && forall i :: 0 <= i < j ==> !slots[i].Abort?)
      && (r.Ok? ==> forall j :: j in r.value ==> j < k)
      && (r.Ok? ==> forall j :: 0 <= j < k ==> (j in r.value <==> slots[j].Load?))
      && (r.Ok? ==> forall j :: j in r.value ==> r.value[j] == Chunk(slots[j].data, ChunkX(regionX, j), ChunkZ(regionZ, j)))
  {
    if k > 0 {
      DecodeSlotsSpec(slots, k - 1, regionX, regionZ);
    }
  }

  /** `read_anvil_region` on a file with the given name, contents and
      modification time. */
  function DecodeAnvil(filename: string, file: seq<byte>, mtime: u64, zlib: Codec, external: ExternalFiles): (r: Result<RegionData>)
    ensures r.Ok? ==> WellFormed(r.value)
    ensures r.Ok? ==> |file| >= 2 * SECTOR_SIZE
  {
    match ParseFilename(filename)
    case Err(e) => Err(e)
    case Ok((regionX, regionZ)) =>
      if |file| < 2 * SECTOR_SIZE then Err(InvalidFormat)
      else
        var slots := SlotReads(file, regionX, regionZ, zlib, external);
        DecodeSlotsSpec(slots, CHUNKS_PER_REGION, regionX, regionZ);
        match DecodeSlots(slots, CHUNKS_PER_REGION, regionX, regionZ)
        case Err(e) => Err(e)
        case Ok(chunks) => Ok(RegionData(chunks, regionX, regionZ, mtime, ReadTimestamps(file, chunks)))
  }

  /** A file shorter than the two header tables is rejected outright. */
  lemma ShortFileRejected(filename: string, file: seq<byte>, mtime: u64, zlib: Codec, external: ExternalFiles)
    requires ParseFilename(filename).Ok? && |file| < 2 * SECTOR_SIZE
    ensures DecodeAnvil(filename, file, mtime, zlib, external) == Err(InvalidFormat)
  {
  }

  /** One slot with an unknown compression type fails the whole region,
      whatever the other slots hold. */
  lemma UnknownCompressionFailsRegion(filename: string, file: seq<byte>, mtime: u64, zlib: Codec, external: ExternalFiles, i: nat)
    requires ParseFilename(filename).Ok? && |file| >= 2 * SECTOR_SIZE && i < CHUNKS_PER_REGION
    requires ReadSlot(file, i, ParseFilename(filename).value.0, ParseFilename(filename).value.1, zlib, external) == Abort(InvalidFormat)
    ensures DecodeAnvil(filename, file, mtime, zlib, external).Err?
  {
    var (regionX, regionZ) := ParseFilename(filename).value;
    var slots := SlotReads(file, regionX, regionZ, zlib, external);
    assert slots[i].Abort?;
    DecodeSlotsSpec(slots, CHUNKS_PER_REGION, regionX, regionZ);
  }

  /** A failure of slot j is the failure of every longer prefix. */
  lemma {:induction false} DecodeSlotsErrorStays(slots: seq<SlotRead>, j: nat, k: nat, regionX: i32, regionZ: i32)
    requires j <= k <= |slots|
    requires DecodeSlots(slots, j, regionX, regionZ).Err?
    ensures DecodeSlots(slots, k, regionX, regionZ) == DecodeSlots(slots, j, regionX, regionZ)
  {
    if j < k {
      DecodeSlotsErrorStays(slots, j, k - 1, regionX, regionZ);
    }
  }

  /** Loading slot i adds one new entry to the chunks of slots 0..i-1. */
  lemma DecodeSlotsLoad(slots: seq<SlotRead>, i: nat, regionX: i32, regionZ: i32, chunks: map<nat, Chunk>, payload: seq<byte>)
    requires i < |slots| && slots[i] == Load(payload)
    requires DecodeSlots(slots, i, regionX, regionZ) == Ok(chunks)
    ensures i !in chunks
    ensures |chunks[i := Chunk(payload, ChunkX(regionX, i), ChunkZ(regionZ, i))]| == |chunks| + 1
    ensures DecodeSlots(slots, i + 1, regionX, regionZ) == Ok(chunks[i := Chunk(payload, ChunkX(regionX, i), ChunkZ(regionZ, i))])
  {
    DecodeSlotsSpec(slots, i, regionX, regionZ);
  }

  /** A skipped slot i leaves the chunks of slots 0..i-1 as they are. */
  lemma DecodeSlotsSkip(slots: seq<SlotRead>, i: nat, regionX: i32, regionZ: i32, chunks: map<nat, Chunk>)
    requires i < |slots| && slots[i] == Skip
    requires DecodeSlots(slots, i, regionX, regionZ) == Ok(chunks)
    ensures DecodeSlots(slots, i + 1, regionX, regionZ) == Ok(chunks)
  {
  }

  /** The body of the slot loop of `read_anvil_region` for slot i, whose
      location entry has already been read. */
  method ReadChunkSlot(file: seq<byte>, location: ChunkLocation, i: nat, regionX: i32, regionZ: i32, zlib: Codec, external: ExternalFiles)
    returns (slot: SlotRead)
    requires i < CHUNKS_PER_REGION && |file| >= 2 * SECTOR_SIZE
    requires location == LocationAt(file, i)
    ensures slot == ReadSlot(file, i, regionX, regionZ, zlib, external)
  {
    if IsEmpty(location) {
      return Skip;
    }
    var sectorOffset := GetOffset(location);
    var sectorCount := location.sectorCount;
    if sectorOffset == 0 || sectorCount == 0 {
      return Skip;
    }
    var chunkStart := sectorOffset * SECTOR_SIZE;
    var chunkEnd := chunkStart + sectorCount * SECTOR_SIZE;
    if chunkEnd > |file| {
      return Skip;
    }
    var chunkData := file[chunkStart .. chunkEnd];
    var header := HeaderFromBytes(chunkData[..DATA_HEADER_SIZE]);
    var compressedData := chunkData[DATA_HEADER_SIZE..];
    assert chunkData[..DATA_HEADER_SIZE] == file[chunkStart .. chunkStart + DATA_HEADER_SIZE];
    assert compressedData == file[chunkStart + DATA_HEADER_SIZE .. chunkEnd];

    if header.compressionType == COMPRESSION_TYPE_ZLIB {
      var dataLength := Min(header.length, |compressedData|);
      var decompressed := zlib.decompress(compressedData[..dataLength]);
      if decompressed.None? {
        return Abort(DecompressionFailed);
      }
      return Load(decompressed.value);
    } else if header.compressionType == EXTERNAL_FILE_COMPRESSION_TYPE {
      var externalData := external(ChunkX(regionX, i), ChunkZ(regionZ, i));
      if externalData.None? {
        return Abort(ExternalChunkFailed);
      }
      var decompressed := zlib.decompress(externalData.value);
      if decompressed.None? {
        return Abort(DecompressionFailed);
      }
      return Load(decompressed.value);
    } else {
      return Abort(InvalidFormat);
    }
  }

  /** The first loop of `read_anvil_region`: the 1024 location entries. */
  method ReadLocationTable(file: seq<byte>) returns (locations: seq<ChunkLocation>)
    requires |file| >= SECTOR_SIZE
    ensures |locations| == CHUNKS_PER_REGION
    ensures forall j :: 0 <= j < CHUNKS_PER_REGION ==> locations[j] == LocationAt(file, j)
  {
    locations := [];
    var i := 0;
    while i < CHUNKS_PER_REGION
      invariant 0 <= i <= CHUNKS_PER_REGION
      invariant |locations| == i
      invariant forall j :: 0 <= j < i ==> locations[j] == LocationAt(file, j)
    {
      var start := i * LOCATION_SIZE;
      locations := locations + [LocationFromBytes(file[start .. start + LOCATION_SIZE])];
      i := i + 1;
    }
  }

  /** The second loop of `read_anvil_region`: the 1024 timestamps. */
  method ReadTimestampTable(file: seq<byte>) returns (timestamps: seq<u32>)
    requires |file| >= 2 * SECTOR_SIZE
    ensures |timestamps| == CHUNKS_PER_REGION
    ensures forall j :: 0 <= j < CHUNKS_PER_REGION ==> timestamps[j] == TimestampAt(file, j)
  {
    timestamps := [];
    var i := 0;
    while i < CHUNKS_PER_REGION
      invariant 0 <= i <= CHUNKS_PER_REGION
      invariant |timestamps| == i
      invariant forall j :: 0 <= j < i ==> timestamps[j] == TimestampAt(file, j)
    {
      var start := SECTOR_SIZE + i * 4;
      Pow256Values();
      timestamps := timestamps + [FromBE(file[start .. start + 4])];
      i := i + 1;
    }
  }

  /** The state of the region after the slot loop has visited slots 0..i-1. */
  ghost predicate LoadedUpTo(region: Region, slots: seq<SlotRead>, timestamps: seq<u32>, i: nat)
    reads region
  {
    region.Valid() && Loaded(region.Data(), slots, timestamps, i)
  }

  ghost predicate Loaded(d: RegionData, slots: seq<SlotRead>, timestamps: seq<u32>, i: nat)
  {
    && i <= |slots|
    && DecodeSlots(slots, i, d.regionX, d.regionZ) == Ok(d.chunks)
    && |timestamps| == CHUNKS_PER_REGION
    && |d.timestamps| == 2 * CHUNKS_PER_REGION && d.timestamps[CHUNKS_PER_REGION..] == timestamps
    && forall j :: 0 <= j < CHUNKS_PER_REGION ==> d.timestamps[j] == if j in d.chunks then timestamps[j] else 0
  }

  /** An aborted slot i is the outcome of the whole slot loop. */
  lemma DecodeSlotsAbort(slots: seq<SlotRead>, i: nat, regionX: i32, regionZ: i32, chunks: map<nat, Chunk>)
    requires i < CHUNKS_PER_REGION == |slots| && slots[i].Abort?
    requires DecodeSlots(slots, i, regionX, regionZ) == Ok(chunks)
    ensures DecodeSlots(slots, CHUNKS_PER_REGION, regionX, regionZ) == Err(slots[i].error)
  {
    DecodeSlotsErrorStays(slots, i + 1, CHUNKS_PER_REGION, regionX, regionZ);
  }

  /** After all 1024 slots: the decoded chunks and the reader's timestamps. */
  lemma LoadedAll(d: RegionData, slots: seq<SlotRead>, timestamps: seq<u32>, file: seq<byte>)
    requires |file| >= 2 * SECTOR_SIZE && Loaded(d, slots, timestamps, CHUNKS_PER_REGION)
    requires forall j :: 0 <= j < CHUNKS_PER_REGION ==> timestamps[j] == TimestampAt(file, j)
    ensures DecodeSlots(slots, CHUNKS_PER_REGION, d.regionX, d.regionZ) == Ok(d.chunks)
    ensures d.timestamps == ReadTimestamps(file, d.chunks)
  {
    ReadTimestampsPointwise(file, d.chunks, timestamps, d.timestamps);
  }

  /** A skipped slot changes nothing. */
  lemma LoadedSkip(d: RegionData, slots: seq<SlotRead>, timestamps: seq<u32>, i: nat)
    requires i < |slots| && slots[i] == Skip && Loaded(d, slots, timestamps, i)
    ensures Loaded(d, slots, timestamps, i + 1)
  {
    DecodeSlotsSkip(slots, i, d.regionX, d.regionZ, d.chunks);
  }

  /** Stores the payload of slot i, as the slot loop does for a loaded slot. */
  method StoreLoadedChunk(region: Region, ghost slots: seq<SlotRead>, timestamps: seq<u32>, i: nat, payload: seq<byte>)
    requires i < |slots| && i < CHUNKS_PER_REGION && slots[i] == Load(payload)
    requires LoadedUpTo(region, slots, timestamps, i)
    modifies region
    ensures LoadedUpTo(region, slots, timestamps, i + 1)
    ensures region.regionX == old(region.regionX) && region.regionZ == old(region.regionZ) && region.mtime == old(region.mtime)
    ensures |region.chunks| == old(|region.chunks|) + 1
  {
    var chunk := Chunk(payload, ChunkX(region.regionX, i), ChunkZ(region.regionZ, i));
    DecodeSlotsLoad(slots, i, region.regionX, region.regionZ, region.chunks, payload);
    region.SetChunk(i, chunk, timestamps[i]);
    assert region.timestamps[CHUNKS_PER_REGION..] == old(region.timestamps)[CHUNKS_PER_REGION..];
  }

  /** Before the slot loop: no chunks, 1024 zero timestamps, then the table. */
  lemma LoadedNothing(region: Region, slots: seq<SlotRead>, timestamps: seq<u32>)
    requires region.Valid() && region.chunks == map[] && |timestamps| == CHUNKS_PER_REGION
    requires region.timestamps == seq(CHUNKS_PER_REGION, _ => 0) + timestamps
    ensures LoadedUpTo(region, slots, timestamps, 0)
  {
    assert region.timestamps[CHUNKS_PER_REGION..] == timestamps;
  }

  /** One iteration of the slot loop: reads slot i and, unless it fails,
      stores its chunk. */
  method LoadSlot(region: Region, file: seq<byte>, location: ChunkLocation, i: nat, zlib: Codec, external: ExternalFiles,
                  ghost slots: seq<SlotRead>, timestamps: seq<u32>)
    returns (slot: SlotRead)
    requires i < CHUNKS_PER_REGION && |file| >= 2 * SECTOR_SIZE && location == LocationAt(file, i)
    requires slots == SlotReads(file, region.regionX, region.regionZ, zlib, external)
    requires LoadedUpTo(region, slots, timestamps, i)
    modifies region
    ensures slot == slots[i]
    ensures region.regionX == old(region.regionX) && region.regionZ == old(region.regionZ) && region.mtime == old(region.mtime)
    ensures !slot.Abort? ==> LoadedUpTo(region, slots, timestamps, i + 1)
    ensures !slot.Abort? ==> |region.chunks| == old(|region.chunks|) + if slot.Load? then 1 else 0
  {
    slot := ReadChunkSlot(file, location, i, region.regionX, region.regionZ, zlib, external);
    if slot.Skip? {
      LoadedSkip(region.Data(), slots, timestamps, i);
    } else if slot.Load? {
      StoreLoadedChunk(region, slots, timestamps, i, slot.data);
    }
  }

  /** The slot loop of `read_anvil_region`: loads every readable slot into
      `region`, stopping at the first slot that fails, and returns the number
      of chunks loaded. */
  method LoadSlots(region: Region, file: seq<byte>, locations: seq<ChunkLocation>, timestamps: seq<u32>, zlib: Codec, external: ExternalFiles)
    returns (r: Result<nat>)
    requires |file| >= 2 * SECTOR_SIZE
    requires |locations| == CHUNKS_PER_REGION && forall j :: 0 <= j < CHUNKS_PER_REGION ==> locations[j] == LocationAt(file, j)
    requires |timestamps| == CHUNKS_PER_REGION && forall j :: 0 <= j < CHUNKS_PER_REGION ==> timestamps[j] == TimestampAt(file, j)
    requires region.Valid() && region.chunks == map[] && region.timestamps == seq(CHUNKS_PER_REGION, _ => 0) + timestamps
    modifies region
    ensures region.regionX == old(region.regionX) && region.regionZ == old(region.regionZ) && region.mtime == old(region.mtime)
    ensures var decoded := DecodeSlots(SlotReads(file, region.regionX, region.regionZ, zlib, external), CHUNKS_PER_REGION, region.regionX, region.regionZ);
      && (r.Err? <==> decoded.Err?)
      && (r.Err? ==> r.error == decoded.error)
      && (r.Ok? ==> region.Valid() && decoded == Ok(region.chunks) && region.timestamps == ReadTimestamps(file, region.chunks) && r.value == |region.chunks|)
  {
    var regionX, regionZ := region.regionX, region.regionZ;
    ghost var slots := SlotReads(file, regionX, regionZ, zlib, external);
    var chunksLoaded := 0;
    var i := 0;
    LoadedNothing(region, slots, timestamps);
    while i < CHUNKS_PER_REGION
      invariant 0 <= i <= CHUNKS_PER_REGION
      invariant region.regionX == regionX && region.regionZ == regionZ && region.mtime == old(region.mtime)
      invariant LoadedUpTo(region, slots, timestamps, i)
      invariant chunksLoaded == |region.chunks|
    {
      ghost var loaded := region.chunks;
      var slot := LoadSlot(region, file, locations[i], i, zlib, external, slots, timestamps);
      if slot.Abort? {
        DecodeSlotsAbort(slots, i, regionX, regionZ, loaded);
        return Err(slot.error);
      }
      if slot.Load? {
        chunksLoaded := chunksLoaded + 1;
      }
      i := i + 1;
    }
    LoadedAll(region.Data(), slots, timestamps, file);
    return Ok(chunksLoaded);
  }

  /** `read_anvil_region`. The file's name, bytes and modification time are
      parameters; the optional counters are updated as in the source. */
  method ReadAnvilRegion(filename: string, file: seq<byte>, fileMtime: u64, zlib: Codec, external: ExternalFiles, counters: PerformanceCounters?)
    returns (r: Result<Region>)
    modifies counters
    ensures r.Err? <==> DecodeAnvil(filename, file, fileMtime, zlib, external).Err?
    ensures r.Err? ==> r.error == DecodeAnvil(filename, file, fileMtime, zlib, external).error
    ensures r.Ok? ==> fresh(r.value) && r.value.Valid()
    ensures r.Ok? ==> r.value.Data() == DecodeAnvil(filename, file, fileMtime, zlib, external).value
    ensures counters != null ==> counters.bytesRead == old(counters.bytesRead) + (if ParseFilename(filename).Ok? then |file| else 0)
    ensures counters != null ==> counters.filesProcessed == old(counters.filesProcessed) + (if r.Ok? then 1 else 0)
    ensures counters != null ==> counters.chunksProcessed == old(counters.chunksProcessed) + (if r.Ok? then |r.value.chunks| else 0)
    ensures counters != null ==> counters.bytesWritten == old(counters.bytesWritten)
  {
    var coordinates := ParseFilename(filename);
    if coordinates.Err? {
      return Err(coordinates.error);
    }
    var (regionX, regionZ) := coordinates.value;
    var fileSize := |file|;
    if counters != null {
      counters.AddBytesRead(fileSize);
    }
    if fileSize < SECTOR_SIZE * 2 {
      return Err(InvalidFormat);
    }

    var locations := ReadLocationTable(file);
    var timestamps := ReadTimestampTable(file);

    // `Region::new` reads the clock; the value is replaced by the file's mtime.
    var region := new Region(regionX, regionZ, fileMtime);
    region.timestamps := region.timestamps + timestamps;

    var loaded := LoadSlots(region, file, locations, timestamps, zlib, external);
    if loaded.Err? {
      return Err(loaded.error);
    }
    var chunksLoaded := loaded.value;
    assert DecodeAnvil(filename, file, fileMtime, zlib, external) == Ok(region.Data());

    if counters != null {
      counters.AddFile();
      counters.AddChunks(chunksLoaded);
    }
    return Ok(region);
  }

  // ---------------------------------------------------------------------
  // Writing

  /** A chunk stored in its own file `c.<x>.<z>.mcc` next to the region file. */
  datatype ExternalWrite = ExternalWrite(chunkX: i32, chunkZ: i32, data: seq<byte>)

  /** The writer's state after some slots: the location entries so far, the
      sector area so far, the next free sector, and the external files. */
  datatype Layout = Layout(locations: seq<ChunkLocation>, sectorData: seq<byte>, currentSector: nat, externals: seq<ExternalWrite>)

  /** What `write_anvil_region` writes: the region file and the external files. */
  datatype AnvilOutput = AnvilOutput(file: seq<byte>, externals: seq<ExternalWrite>)

  /** Whole sectors needed for a 5-byte header and a payload of the given length. */
  function SectorsNeeded(compressedLength: nat): nat
  {
    (DATA_HEADER_SIZE + compressedLength + SECTOR_SIZE - 1) / SECTOR_SIZE
  }

  /** SectorsNeeded is the ceiling of (5 + length) / 4096. */
  lemma SectorsNeededIsCeiling(compressedLength: nat)
    ensures SectorsNeeded(compressedLength) >= 1
    ensures DATA_HEADER_SIZE + compressedLength <= SectorsNeeded(compressedLength) * SECTOR_SIZE
    ensures (SectorsNeeded(compressedLength) - 1) * SECTOR_SIZE < DATA_HEADER_SIZE + compressedLength
  {
    var total := DATA_HEADER_SIZE + compressedLength + SECTOR_SIZE - 1;
    var q := total / SECTOR_SIZE;
    assert total == q * SECTOR_SIZE + total % SECTOR_SIZE;
  }

  /** The sectors of a chunk stored in the region file: the header (payload
      length plus one, type 2), the payload, and zero padding to a sector
      boundary. */
  function InlineRecord(compressed: seq<byte>): (record: seq<byte>)
    requires SectorsNeeded(|compressed|) <= MAX_SECTORS
    ensures |record| == SectorsNeeded(|compressed|) * SECTOR_SIZE
    ensures |compressed| + 1 < 0x1_0000_0000
    ensures record[..DATA_HEADER_SIZE] == HeaderToBytes(ChunkDataHeader(|compressed| + 1, COMPRESSION_TYPE_ZLIB))
    ensures record[DATA_HEADER_SIZE .. DATA_HEADER_SIZE + |compressed|] == compressed
  {
    SectorsNeededIsCeiling(|compressed|);
    var header := ChunkDataHeader(|compressed| + 1, COMPRESSION_TYPE_ZLIB);
    var chunk := HeaderToBytes(header) + compressed;
    var padding := SectorsNeeded(|compressed|) * SECTOR_SIZE - |chunk|;
    var record := Resize(chunk, |chunk| + padding);
    assert record[..|chunk|] == chunk;
    assert record[..DATA_HEADER_SIZE] == chunk[..DATA_HEADER_SIZE];
    assert record[DATA_HEADER_SIZE .. DATA_HEADER_SIZE + |compressed|] == chunk[DATA_HEADER_SIZE..];
    record
  }

  /** The single sector left in the region file for a chunk stored externally:
      a header of length 1 and type 130, padded with zeros. */
  function ExternalStub(): (record: seq<byte>)
    ensures |record| == SECTOR_SIZE
    ensures HeaderFromBytes(record) == ChunkDataHeader(1, EXTERNAL_FILE_COMPRESSION_TYPE)
  {
    var header := HeaderToBytes(ChunkDataHeader(1, EXTERNAL_FILE_COMPRESSION_TYPE));
    var record := Resize(header, SECTOR_SIZE);
    assert record[..DATA_HEADER_SIZE] == header;
    assert record[0..4] == header[0..4];
    record
  }

  /** Slot i's step of the writer loop. When a chunk needs more than 255
      sectors, `write_anvil_region` (`spill`) moves it to an external file and
      `region_to_anvil_bytes` fails with InvalidFormat. */
  function PlaceSlot(d: RegionData, i: nat, l: Layout, level: int, zlib: Codec, spill: bool): Result<Layout>
  {
    if i !in d.chunks then Ok(l.(locations := l.locations + [NewLocation(0, 0)]))
    else
      match zlib.compress(d.chunks[i].data, level)
      case None => Err(CompressionFailed)
      case Some(compressed) =>
        var sectorsNeeded := SectorsNeeded(|compressed|);
        if sectorsNeeded > MAX_SECTORS then
          if spill then
            Ok(Layout(
              l.locations + [NewLocation(WrapU32(l.currentSector), 1)],
              l.sectorData + ExternalStub(),
              l.currentSector + 1,
              l.externals + [ExternalWrite(ChunkX(d.regionX, i), ChunkZ(d.regionZ, i), compressed)]))
          else Err(InvalidFormat)
        else
          Ok(Layout(
            l.locations + [NewLocation(WrapU32(l.currentSector), sectorsNeeded)],
            l.sectorData + InlineRecord(compressed),
            l.currentSector + sectorsNeeded,
            l.externals))
  }

  /** One step adds one location entry and between 0 and 255 whole sectors. */
  lemma PlaceSlotGrowth(d: RegionData, i: nat, l: Layout, level: int, zlib: Codec, spill: bool)
    ensures var r := PlaceSlot(d, i, l, level, zlib, spill);
      r.Ok? ==>
        && |r.value.locations| == |l.locations| + 1
        && l.currentSector <= r.value.currentSector <= l.currentSector + MAX_SECTORS
        && |r.value.sectorData| - |l.sectorData| == (r.value.currentSector - l.currentSector) * SECTOR_SIZE
        && (!spill ==> r.value.externals == l.externals)
  {
  }

  /** The writer loop over slots 0..k-1, starting at sector 2. */
  function LayoutSlots(d: RegionData, k: nat, level: int, zlib: Codec, spill: bool): Result<Layout>
  {
    if k == 0 then Ok(Layout([], [], 2, []))
    else
      match LayoutSlots(d, k - 1, level, zlib, spill)
      case Err(e) => Err(e)
      case Ok(l) => PlaceSlot(d, k - 1, l, level, zlib, spill)
  }

  /** After k slots: k location entries, the next free sector between 2 and
      2 + 255k, a sector area of exactly the sectors used, and no external
      files unless spilling. */
  lemma {:induction false} LayoutShape(d: RegionData, k: nat, level: int, zlib: Codec, spill: bool)
    requires LayoutSlots(d, k, level, zlib, spill).Ok?
    ensures var l := LayoutSlots(d, k, level, zlib, spill).value;
      && |l.locations| == k
      && 2 <= l.currentSector <= 2 + MAX_SECTORS * k
      && |l.sectorData| == (l.currentSector - 2) * SECTOR_SIZE
      && (!spill ==> l.externals == [])
  {
    if k > 0 {
      var prev := LayoutSlots(d, k - 1, level, zlib, spill).value;
      LayoutShape(d, k - 1, level, zlib, spill);
      PlaceSlotGrowth(d, k - 1, prev, level, zlib, spill);
      var l := LayoutSlots(d, k, level, zlib, spill).value;
      assert |l.sectorData| == |prev.sectorData| + (l.currentSector - prev.currentSector) * SECTOR_SIZE;
      assert (prev.currentSector - 2) * SECTOR_SIZE + (l.currentSector - prev.currentSector) * SECTOR_SIZE
        == (l.currentSector - 2) * SECTOR_SIZE;
    }
  }

  /** The region file: the location table padded to one sector, the
      timestamps truncated or padded to the second sector, then the sectors. */
  function AnvilFile(locations: seq<ChunkLocation>, timestamps: seq<u32>, sectorData: seq<byte>): (file: seq<byte>)
    ensures |file| == 2 * SECTOR_SIZE + |sectorData|
  {
    var withLocations := Resize(Flatten(locations, LocationToBytes), SECTOR_SIZE);
    var withTimestamps := Resize(withLocations + Flatten(timestamps, TimestampBytes), 2 * SECTOR_SIZE);
    withTimestamps + sectorData
  }

  function TimestampBytes(t: u32): seq<byte> { ToBE(t, 4) }

  /** The output of `write_anvil_region` (spill = true) or
      `region_to_anvil_bytes` (spill = false) for a region. */
  function EncodeAnvil(d: RegionData, level: int, zlib: Codec, spill: bool): Result<AnvilOutput>
  {
    match LayoutSlots(d, CHUNKS_PER_REGION, level, zlib, spill)
    case Err(e) => Err(e)
    case Ok(l) => Ok(AnvilOutput(AnvilFile(l.locations, d.timestamps, l.sectorData), l.externals))
  }

  /** One iteration of the writer loop, on the chunk in slot i if any. */
  method PlaceChunk(region: Region, ghost d: RegionData, i: nat, l: Layout, level: int, zlib: Codec, spill: bool) returns (r: Result<Layout>)
    requires d == region.Data()
    ensures r == PlaceSlot(d, i, l, level, zlib, spill)
  {
    var chunk := region.GetChunk(i);
    if chunk.None? {
      return Ok(l.(locations := l.locations + [NewLocation(0, 0)]));
    }
    var compressed := zlib.compress(chunk.value.data, level);
    if compressed.None? {
      return Err(CompressionFailed);
    }
    var dataSize := DATA_HEADER_SIZE + |compressed.value|;
    var sectorsNeeded := (dataSize + SECTOR_SIZE - 1) / SECTOR_SIZE;
    if sectorsNeeded > MAX_SECTORS {
      if !spill {
        return Err(InvalidFormat);
      }
      var external := ExternalWrite(ChunkX(region.regionX, i), ChunkZ(region.regionZ, i), compressed.value);
      var header := ChunkDataHeader(1, EXTERNAL_FILE_COMPRESSION_TYPE);
      var sectorChunk := Resize(HeaderToBytes(header), SECTOR_SIZE);
      return Ok(Layout(
        l.locations + [NewLocation(WrapU32(l.currentSector), 1)],
        l.sectorData + sectorChunk,
        l.currentSector + 1,
        l.externals + [external]));
    }
    SectorsNeededIsCeiling(|compressed.value|);
    var header := ChunkDataHeader(|compressed.value| + 1, COMPRESSION_TYPE_ZLIB);
    var sectorChunk := HeaderToBytes(header) + compressed.value;
    var padding := sectorsNeeded * SECTOR_SIZE - |sectorChunk|;
    sectorChunk := Resize(sectorChunk, |sectorChunk| + padding);
    return Ok(Layout(
      l.locations + [NewLocation(WrapU32(l.currentSector), sectorsNeeded)],
      l.sectorData + sectorChunk,
      l.currentSector + sectorsNeeded,
      l.externals));
  }

  /** The slot loop shared by `write_anvil_region` (spill = true) and
      `region_to_anvil_bytes` (spill = false). */
  method LayoutChunks(region: Region, level: int, zlib: Codec, spill: bool) returns (r: Result<Layout>)
    ensures r == LayoutSlots(region.Data(), CHUNKS_PER_REGION, level, zlib, spill)
  {
    ghost var d := region.Data();
    var layout := Layout([], [], 2, []);
    var i := 0;
    while i < CHUNKS_PER_REGION
      invariant 0 <= i <= CHUNKS_PER_REGION
      invariant LayoutSlots(d, i, level, zlib, spill) == Ok(layout)
    {
      var next := PlaceChunk(region, d, i, layout, level, zlib, spill);
      LayoutSlotsStep(d, i, layout, level, zlib, spill);
      if next.Err? {
        LayoutSlotsFails(d, i, layout, level, zlib, spill);
        return next;
      }
      layout := next.value;
      i := i + 1;
    }
    return Ok(layout);
  }

  lemma LayoutSlotsStep(d: RegionData, i: nat, l: Layout, level: int, zlib: Codec, spill: bool)
    requires LayoutSlots(d, i, level, zlib, spill) == Ok(l)
    ensures LayoutSlots(d, i + 1, level, zlib, spill) == PlaceSlot(d, i, l, level, zlib, spill)
  {
  }

  lemma LayoutSlotsFails(d: RegionData, i: nat, l: Layout, level: int, zlib: Codec, spill: bool)
    requires i < CHUNKS_PER_REGION
    requires LayoutSlots(d, i, level, zlib, spill) == Ok(l)
    requires PlaceSlot(d, i, l, level, zlib, spill).Err?
    ensures LayoutSlots(d, CHUNKS_PER_REGION, level, zlib, spill) == PlaceSlot(d, i, l, level, zlib, spill)
  {
    LayoutSlotsErrorStays(d, i + 1, CHUNKS_PER_REGION, level, zlib, spill);
  }

  /** A failure at slot j is the failure of the whole writer loop. */
  lemma {:induction false} LayoutSlotsErrorStays(d: RegionData, j: nat, k: nat, level: int, zlib: Codec, spill: bool)
    requires j <= k
    requires LayoutSlots(d, j, level, zlib, spill).Err?
    ensures LayoutSlots(d, k, level, zlib, spill) == LayoutSlots(d, j, level, zlib, spill)
  {
    if j < k {
      LayoutSlotsErrorStays(d, j, k - 1, level, zlib, spill);
    }
  }

  /** Builds the file: location table, padding, timestamps, padding, sectors. */
  method AssembleAnvilFile(locations: seq<ChunkLocation>, timestamps: seq<u32>, sectorData: seq<byte>) returns (file: seq<byte>)
    ensures file == AnvilFile(locations, timestamps, sectorData)
  {
    file := [];
    var i := 0;
    while i < |locations|
      invariant 0 <= i <= |locations|
      invariant file == Flatten(locations[..i], LocationToBytes)
    {
      FlattenPush(locations[..i], locations[i], LocationToBytes);
      assert locations[..i + 1] == locations[..i] + [locations[i]];
      file := file + LocationToBytes(locations[i]);
      i := i + 1;
    }
    assert locations[..i] == locations;
    file := Resize(file, SECTOR_SIZE);

    ghost var withLocations := file;
    i := 0;
    while i < |timestamps|
      invariant 0 <= i <= |timestamps|
      invariant file == withLocations + Flatten(timestamps[..i], TimestampBytes)
    {
      FlattenPush(timestamps[..i], timestamps[i], TimestampBytes);
      assert timestamps[..i + 1] == timestamps[..i] + [timestamps[i]];
      file := file + ToBE(timestamps[i], 4);
      i := i + 1;
    }
    assert timestamps[..i] == timestamps;
    file := Resize(file, 2 * SECTOR_SIZE);
    file := file + sectorData;
  }

  /** `write_anvil_region`: the bytes of the region file and the external
      chunk files it writes, and the counter updates on success. */
  method WriteAnvilRegion(region: Region, compressionLevel: u32, zlib: Codec, counters: PerformanceCounters?) returns (r: Result<AnvilOutput>)
    requires region.Valid()
    modifies counters
    ensures r == EncodeAnvil(old(region.Data()), compressionLevel, zlib, true)
    ensures counters != null ==> counters.filesProcessed == old(counters.filesProcessed) + (if r.Ok? then 1 else 0)
    ensures counters != null ==> counters.bytesWritten == old(counters.bytesWritten) + (if r.Ok? then |r.value.file| else 0)
    ensures counters != null ==> counters.chunksProcessed == old(counters.chunksProcessed) + (if r.Ok? then |region.chunks| else 0)
    ensures counters != null ==> counters.bytesRead == old(counters.bytesRead)
  {
    var layout := LayoutChunks(region, compressionLevel, zlib, true);
    if layout.Err? {
      return Err(layout.error);
    }
    var file := AssembleAnvilFile(layout.value.locations, region.timestamps, layout.value.sectorData);
    r := Ok(AnvilOutput(file, layout.value.externals));
    var chunkCount := region.ChunkCount();
    if counters != null {
      counters.AddFile();
      counters.AddBytesWritten(|file|);
      counters.AddChunks(chunkCount);
    }
  }

  /** `region_to_anvil_bytes`: the region file as bytes; a chunk that needs
      more than 255 sectors makes it fail. */
  method RegionToAnvilBytes(region: Region, compressionLevel: u32, zlib: Codec) returns (r: Result<seq<byte>>)
    requires region.Valid()
    ensures r.Ok? <==> EncodeAnvil(region.Data(), compressionLevel, zlib, false).Ok?
    ensures r.Err? ==> r.error == EncodeAnvil(region.Data(), compressionLevel, zlib, false).error
    ensures r.Ok? ==> r.value == EncodeAnvil(region.Data(), compressionLevel, zlib, false).value.file
  {
    var layout := LayoutChunks(region, compressionLevel, zlib, false);
    if layout.Err? {
      return Err(layout.error);
    }
    var file := AssembleAnvilFile(layout.value.locations, region.timestamps, layout.value.sectorData);
    return Ok(file);
  }
}
