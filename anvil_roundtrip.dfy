/** Properties of the Anvil writer's layout and the round trip
    writer -> reader. */
module AnvilRoundTrip {
  import opened Common
  import opened Regions
  import opened Anvil

  // ---------------------------------------------------------------------
  // Layout

  lemma PlaceSlotExtends(d: RegionData, i: nat, l: Layout, level: int, zlib: Codec, spill: bool)
    ensures var r := PlaceSlot(d, i, l, level, zlib, spill);
      r.Ok? ==>
        && l.locations <= r.value.locations && l.sectorData <= r.value.sectorData
        && l.externals <= r.value.externals && l.currentSector <= r.value.currentSector
  {
  }

  /** Every earlier state of the writer loop is a prefix of a later one. */
  lemma {:induction false} LayoutPrefix(d: RegionData, j: nat, k: nat, level: int, zlib: Codec, spill: bool)
    requires j <= k && LayoutSlots(d, k, level, zlib, spill).Ok?
    ensures LayoutSlots(d, j, level, zlib, spill).Ok?
    ensures var a := LayoutSlots(d, j, level, zlib, spill).value;
      var b := LayoutSlots(d, k, level, zlib, spill).value;
      && a.locations <= b.locations && a.sectorData <= b.sectorData
      && a.externals <= b.externals && a.currentSector <= b.currentSector
  {
    if j < k {
      var prev := LayoutSlots(d, k - 1, level, zlib, spill);
      assert prev.Ok?;
      LayoutPrefix(d, j, k - 1, level, zlib, spill);
      PlaceSlotExtends(d, k - 1, prev.value, level, zlib, spill);
      var a := LayoutSlots(d, j, level, zlib, spill).value;
      var b := LayoutSlots(d, k, level, zlib, spill).value;
      PrefixTransitive(a.locations, prev.value.locations, b.locations);
      PrefixTransitive(a.sectorData, prev.value.sectorData, b.sectorData);
      PrefixTransitive(a.externals, prev.value.externals, b.externals);
    }
  }

  lemma PrefixTransitive<T>(a: seq<T>, b: seq<T>, c: seq<T>)
    requires a <= b && b <= c
    ensures a <= c
  {
    assert c[..|b|][..|a|] == c[..|a|];
  }

  /** Slot i's step of the writer loop: p is the state before it, q the
      state after it, and L a later state that q is a prefix of. */
  ghost predicate Placed(d: RegionData, i: nat, p: Layout, q: Layout, L: Layout, level: int, zlib: Codec, spill: bool)
  {
    && PlaceSlot(d, i, p, level, zlib, spill) == Ok(q)
    && |q.locations| == i + 1 && q.locations <= L.locations
    && 2 <= p.currentSector <= 2 + MAX_SECTORS * i
    && |p.sectorData| == (p.currentSector - 2) * SECTOR_SIZE
    && q.currentSector <= L.currentSector
    && |L.sectorData| == (L.currentSector - 2) * SECTOR_SIZE
    && q.sectorData <= L.sectorData
    && q.externals <= L.externals
  }

  /** Where slot i went among the first k slots. */
  lemma SlotPlacement(d: RegionData, i: nat, k: nat, level: int, zlib: Codec, spill: bool)
    requires i < k && LayoutSlots(d, k, level, zlib, spill).Ok?
    ensures LayoutSlots(d, i, level, zlib, spill).Ok? && LayoutSlots(d, i + 1, level, zlib, spill).Ok?
    ensures |LayoutSlots(d, k, level, zlib, spill).value.locations| == k
    ensures Placed(d, i, LayoutSlots(d, i, level, zlib, spill).value, LayoutSlots(d, i + 1, level, zlib, spill).value,
                   LayoutSlots(d, k, level, zlib, spill).value, level, zlib, spill)
  {
    LayoutPrefix(d, i + 1, k, level, zlib, spill);
    LayoutPrefix(d, i, i + 1, level, zlib, spill);
    LayoutSlotsStep(d, i, LayoutSlots(d, i, level, zlib, spill).value, level, zlib, spill);
    LayoutShape(d, i, level, zlib, spill);
    LayoutShape(d, i + 1, level, zlib, spill);
    LayoutShape(d, k, level, zlib, spill);
  }

  /** The chunk in slot i, compressed, and the sectors its record occupies. */
  function Compressed(d: RegionData, i: nat, level: int, zlib: Codec): Option<seq<byte>>
  {
    if i in d.chunks then zlib.compress(d.chunks[i].data, level) else None
  }

  function SectorsUsed(c: seq<byte>): nat
  {
    if SectorsNeeded(|c|) > MAX_SECTORS then 1 else SectorsNeeded(|c|)
  }

  function Record(c: seq<byte>): seq<byte>
  {
    if SectorsNeeded(|c|) > MAX_SECTORS then ExternalStub() else InlineRecord(c)
  }

  /** One writer step on an occupied slot whose run starts below sector
      2^24: the entry points at that sector, the record is appended. */
  lemma PlaceOccupied(d: RegionData, i: nat, p: Layout, level: int, zlib: Codec, spill: bool)
    requires i in d.chunks && p.currentSector < 0x100_0000
    requires PlaceSlot(d, i, p, level, zlib, spill).Ok?
    ensures Compressed(d, i, level, zlib).Some?
    ensures var c := Compressed(d, i, level, zlib).value;
      var q := PlaceSlot(d, i, p, level, zlib, spill).value;
      && q.locations == p.locations + [NewLocation(p.currentSector, SectorsUsed(c))]
      && q.sectorData == p.sectorData + Record(c)
      && q.currentSector == p.currentSector + SectorsUsed(c)
      && (SectorsNeeded(|c|) > MAX_SECTORS ==>
           spill && q.externals == p.externals + [ExternalWrite(ChunkX(d.regionX, i), ChunkZ(d.regionZ, i), c)])
  {
    var c := zlib.compress(d.chunks[i].data, level).value;
    var n := SectorsNeeded(|c|);
    assert Compressed(d, i, level, zlib) == Some(c);
    assert WrapU32(p.currentSector) == p.currentSector;
    if n > MAX_SECTORS {
      assert SectorsUsed(c) == 1 && Record(c) == ExternalStub();
      PlaceSpilled(d, i, p, level, zlib, spill, c);
    } else {
      assert SectorsUsed(c) == n && Record(c) == InlineRecord(c);
      PlaceInline(d, i, p, level, zlib, spill, c);
    }
  }

  lemma PlaceSpilled(d: RegionData, i: nat, p: Layout, level: int, zlib: Codec, spill: bool, c: seq<byte>)
    requires i in d.chunks && zlib.compress(d.chunks[i].data, level) == Some(c) && SectorsNeeded(|c|) > MAX_SECTORS
    requires WrapU32(p.currentSector) == p.currentSector && PlaceSlot(d, i, p, level, zlib, spill).Ok?
    ensures spill && PlaceSlot(d, i, p, level, zlib, spill) == Ok(Layout(
      p.locations + [NewLocation(p.currentSector, 1)], p.sectorData + ExternalStub(), p.currentSector + 1,
      p.externals + [ExternalWrite(ChunkX(d.regionX, i), ChunkZ(d.regionZ, i), c)]))
  {
  }

  lemma PlaceInline(d: RegionData, i: nat, p: Layout, level: int, zlib: Codec, spill: bool, c: seq<byte>)
    requires i in d.chunks && zlib.compress(d.chunks[i].data, level) == Some(c) && SectorsNeeded(|c|) <= MAX_SECTORS
    requires WrapU32(p.currentSector) == p.currentSector
    ensures PlaceSlot(d, i, p, level, zlib, spill) == Ok(Layout(
      p.locations + [NewLocation(p.currentSector, SectorsNeeded(|c|))], p.sectorData + InlineRecord(c),
      p.currentSector + SectorsNeeded(|c|), p.externals))
  {
  }

  /** An occupied slot's entry: the run starting where the earlier slots'
      runs ended, of at least one sector. */
  lemma SlotLocation(d: RegionData, i: nat, p: Layout, q: Layout, L: Layout, level: int, zlib: Codec, spill: bool)
    requires i < CHUNKS_PER_REGION && i in d.chunks && Placed(d, i, p, q, L, level, zlib, spill)
    ensures Compressed(d, i, level, zlib).Some?
    ensures var c := Compressed(d, i, level, zlib).value;
      && 2 <= p.currentSector < 0x100_0000
      && L.locations[i] == NewLocation(p.currentSector, SectorsUsed(c))
      && GetOffset(L.locations[i]) == p.currentSector
      && 1 <= SectorsUsed(c) == L.locations[i].sectorCount
      && q.currentSector == p.currentSector + SectorsUsed(c)
  {
    assert p.currentSector < 0x100_0000 by {
      MulMono(MAX_SECTORS, i, CHUNKS_PER_REGION);
    }
    PlaceOccupied(d, i, p, level, zlib, spill);
    var c := Compressed(d, i, level, zlib).value;
    SectorsNeededIsCeiling(|c|);
    assert L.locations[i] == q.locations[i];
  }

  /** An empty slot's entry is all zeros and uses no sectors. */
  lemma SlotEmpty(d: RegionData, i: nat, p: Layout, q: Layout, L: Layout, level: int, zlib: Codec, spill: bool)
    requires i !in d.chunks && Placed(d, i, p, q, L, level, zlib, spill)
    ensures L.locations[i] == NewLocation(0, 0) && q.currentSector == p.currentSector
  {
    assert L.locations[i] == q.locations[i];
  }

  /** An occupied slot's record sits in the sector area at its run, and a
      spilled payload is among the external files. */
  lemma SlotRecord(d: RegionData, i: nat, p: Layout, q: Layout, L: Layout, level: int, zlib: Codec, spill: bool)
    requires i < CHUNKS_PER_REGION && i in d.chunks && Placed(d, i, p, q, L, level, zlib, spill)
    ensures Compressed(d, i, level, zlib).Some?
    ensures var c := Compressed(d, i, level, zlib).value;
      && 2 <= p.currentSector <= q.currentSector <= L.currentSector
      && L.sectorData[(p.currentSector - 2) * SECTOR_SIZE .. (q.currentSector - 2) * SECTOR_SIZE] == Record(c)
      && (SectorsNeeded(|c|) > MAX_SECTORS ==>
           spill && ExternalWrite(ChunkX(d.regionX, i), ChunkZ(d.regionZ, i), c) in L.externals)
  {
    SlotLocation(d, i, p, q, L, level, zlib, spill);
    PlaceOccupied(d, i, p, level, zlib, spill);
    var c := Compressed(d, i, level, zlib).value;
    var lo := (p.currentSector - 2) * SECTOR_SIZE;
    var hi := (q.currentSector - 2) * SECTOR_SIZE;
    assert q.sectorData[lo .. hi] == Record(c);
    assert L.sectorData[lo .. hi] == q.sectorData[lo .. hi];
    if SectorsNeeded(|c|) > MAX_SECTORS {
      var w := ExternalWrite(ChunkX(d.regionX, i), ChunkZ(d.regionZ, i), c);
      assert q.externals[|q.externals| - 1] == w;
      assert L.externals[|q.externals| - 1] == w;
    }
  }

  /** Contiguity: an occupied slot's run starts at the writer's next free
      sector before the slot and ends at the next free sector after it. */
  lemma SlotRun(d: RegionData, i: nat, k: nat, level: int, zlib: Codec, spill: bool)
    requires i < k <= CHUNKS_PER_REGION && LayoutSlots(d, k, level, zlib, spill).Ok? && i in d.chunks
    ensures LayoutSlots(d, i, level, zlib, spill).Ok? && LayoutSlots(d, i + 1, level, zlib, spill).Ok?
    ensures var L := LayoutSlots(d, k, level, zlib, spill).value;
      && |L.locations| == k
      && GetOffset(L.locations[i]) == LayoutSlots(d, i, level, zlib, spill).value.currentSector
      && GetOffset(L.locations[i]) + L.locations[i].sectorCount == LayoutSlots(d, i + 1, level, zlib, spill).value.currentSector
  {
    SlotPlacement(d, i, k, level, zlib, spill);
    SlotLocation(d, i, LayoutSlots(d, i, level, zlib, spill).value, LayoutSlots(d, i + 1, level, zlib, spill).value,
      LayoutSlots(d, k, level, zlib, spill).value, level, zlib, spill);
  }

  /** The sector runs of two occupied slots do not overlap: a later slot's
      run starts at or after the end of an earlier slot's run. */
  lemma RunsDisjoint(d: RegionData, i: nat, j: nat, k: nat, level: int, zlib: Codec, spill: bool)
    requires i < j < k <= CHUNKS_PER_REGION && LayoutSlots(d, k, level, zlib, spill).Ok?
    requires i in d.chunks && j in d.chunks
    ensures var L := LayoutSlots(d, k, level, zlib, spill).value;
      && |L.locations| == k
      && GetOffset(L.locations[i]) + L.locations[i].sectorCount <= GetOffset(L.locations[j])
  {
    SlotRun(d, j, k, level, zlib, spill);
    LayoutRunsBelowNext(d, j, level, zlib, spill);
    EntryKept(d, i, j, k, level, zlib, spill);
  }

  /** Every entry's run ends at or before the writer's next free sector
      (an empty entry's "run" is 0..0). */
  ghost predicate RunsBelowNext(l: Layout)
  {
    forall i :: 0 <= i < |l.locations| ==> GetOffset(l.locations[i]) + l.locations[i].sectorCount <= l.currentSector
  }

  lemma RunsBelowNextStep(d: RegionData, i: nat, p: Layout, q: Layout, level: int, zlib: Codec, spill: bool)
    requires RunsBelowNext(p) && p.currentSector < 0x100_0000
    requires PlaceSlot(d, i, p, level, zlib, spill) == Ok(q)
    ensures RunsBelowNext(q)
  {
    if i in d.chunks {
      PlaceOccupied(d, i, p, level, zlib, spill);
    }
    forall j | 0 <= j < |q.locations|
      ensures GetOffset(q.locations[j]) + q.locations[j].sectorCount <= q.currentSector
    {
      if j < |p.locations| {
        assert q.locations[j] == p.locations[j];
      }
    }
  }

  lemma {:induction false} LayoutRunsBelowNext(d: RegionData, k: nat, level: int, zlib: Codec, spill: bool)
    requires k <= CHUNKS_PER_REGION && LayoutSlots(d, k, level, zlib, spill).Ok?
    ensures RunsBelowNext(LayoutSlots(d, k, level, zlib, spill).value)
  {
    if k > 0 {
      var prev := LayoutSlots(d, k - 1, level, zlib, spill).value;
      var next := LayoutSlots(d, k, level, zlib, spill).value;
      LayoutRunsBelowNext(d, k - 1, level, zlib, spill);
      assert prev.currentSector < 0x100_0000 by {
        LayoutShape(d, k - 1, level, zlib, spill);
        MulMono(MAX_SECTORS, k - 1, CHUNKS_PER_REGION);
      }
      LayoutSlotsStep(d, k - 1, prev, level, zlib, spill);
      RunsBelowNextStep(d, k - 1, prev, next, level, zlib, spill);
    }
  }

  /** Later steps of the writer never change an earlier entry. */
  lemma EntryKept(d: RegionData, i: nat, j: nat, k: nat, level: int, zlib: Codec, spill: bool)
    requires i < j <= k && LayoutSlots(d, k, level, zlib, spill).Ok?
    ensures LayoutSlots(d, j, level, zlib, spill).Ok?
    ensures var a := LayoutSlots(d, j, level, zlib, spill).value;
      var b := LayoutSlots(d, k, level, zlib, spill).value;
      && |a.locations| == j && |b.locations| == k && a.locations[i] == b.locations[i]
  {
    LayoutPrefix(d, j, k, level, zlib, spill);
    LayoutShape(d, j, level, zlib, spill);
    LayoutShape(d, k, level, zlib, spill);
  }

  /** The writer's next free sector never decreases. */
  lemma NextSectorMonotone(d: RegionData, j: nat, k: nat, level: int, zlib: Codec, spill: bool)
    requires j <= k && LayoutSlots(d, k, level, zlib, spill).Ok?
    ensures LayoutSlots(d, j, level, zlib, spill).Ok?
    ensures LayoutSlots(d, j, level, zlib, spill).value.currentSector <= LayoutSlots(d, k, level, zlib, spill).value.currentSector
  {
    LayoutPrefix(d, j, k, level, zlib, spill);
  }

  // ---------------------------------------------------------------------
  // The file image

  lemma AnvilFileLocation(locations: seq<ChunkLocation>, timestamps: seq<u32>, sectorData: seq<byte>, i: nat)
    requires i < |locations| <= CHUNKS_PER_REGION
    ensures LocationAt(AnvilFile(locations, timestamps, sectorData), i) == locations[i]
  {
    var flat := Flatten(locations, LocationToBytes);
    FlattenFixed(locations, LocationToBytes, LOCATION_SIZE, i);
    var file := AnvilFile(locations, timestamps, sectorData);
    var withLocations := Resize(flat, SECTOR_SIZE);
    assert withLocations[..|flat|] == flat;
    assert file[..SECTOR_SIZE] == withLocations;
    assert file[4 * i .. 4 * i + 4] == withLocations[4 * i .. 4 * i + 4];
    assert file[4 * i .. 4 * i + 4] == flat[4 * i .. 4 * i + 4];
  }

  lemma AnvilFileTimestamp(locations: seq<ChunkLocation>, timestamps: seq<u32>, sectorData: seq<byte>, i: nat)
    requires |locations| <= CHUNKS_PER_REGION && i < CHUNKS_PER_REGION <= |timestamps|
    ensures TimestampAt(AnvilFile(locations, timestamps, sectorData), i) == timestamps[i]
  {
    var flat := Flatten(timestamps, TimestampBytes);
    FlattenFixed(timestamps, TimestampBytes, 4, i);
    var withLocations := Resize(Flatten(locations, LocationToBytes), SECTOR_SIZE);
    var joined := withLocations + flat;
    var withTimestamps := Resize(joined, 2 * SECTOR_SIZE);
    var file := AnvilFile(locations, timestamps, sectorData);
    var at := SECTOR_SIZE + 4 * i;
    assert withTimestamps == joined[..2 * SECTOR_SIZE];
    assert file[at .. at + 4] == withTimestamps[at .. at + 4];
    assert joined[at .. at + 4] == flat[4 * i .. 4 * i + 4];
    assert file[at .. at + 4] == ToBE(timestamps[i], 4);
    Pow256Values();
    FromToBEExact(timestamps[i], 4);
    assert FromBE(file[at .. at + 4]) == timestamps[i];
  }

  lemma AnvilFileSectors(locations: seq<ChunkLocation>, timestamps: seq<u32>, sectorData: seq<byte>)
    ensures AnvilFile(locations, timestamps, sectorData)[2 * SECTOR_SIZE..] == sectorData
  {
  }

  // ---------------------------------------------------------------------
  // Reading back one slot

  /** A slot whose location entry points at an inline record of payload `c`
      reads back as the decompression of `c`. */
  lemma ReadInlineRecord(file: seq<byte>, i: nat, regionX: i32, regionZ: i32, zlib: Codec, external: ExternalFiles,
                         start: nat, c: seq<byte>, data: seq<byte>, level: int)
    requires |file| >= 2 * SECTOR_SIZE && i < CHUNKS_PER_REGION
    requires SectorsNeeded(|c|) <= MAX_SECTORS && 2 <= start < 0x100_0000
    requires LocationAt(file, i) == NewLocation(start, SectorsNeeded(|c|))
    requires (start + SectorsNeeded(|c|)) * SECTOR_SIZE <= |file|
    requires file[start * SECTOR_SIZE .. (start + SectorsNeeded(|c|)) * SECTOR_SIZE] == InlineRecord(c)
    requires StopsAtStreamEnd(zlib) && zlib.compress(data, level) == Some(c)
    ensures ReadSlot(file, i, regionX, regionZ, zlib, external) == Load(data)
  {
    var n := SectorsNeeded(|c|);
    SectorsNeededIsCeiling(|c|);
    var record := InlineRecord(c);
    var chunkStart := start * SECTOR_SIZE;
    var chunkEnd := chunkStart + n * SECTOR_SIZE;
    assert file[chunkStart .. chunkStart + DATA_HEADER_SIZE] == record[..DATA_HEADER_SIZE];
    var header := HeaderFromBytes(file[chunkStart .. chunkStart + DATA_HEADER_SIZE]);
    assert header == ChunkDataHeader(|c| + 1, COMPRESSION_TYPE_ZLIB);
    var compressed := file[chunkStart + DATA_HEADER_SIZE .. chunkEnd];
    assert compressed == record[DATA_HEADER_SIZE..];
    var dataLength := Min(header.length, |compressed|);
    assert |c| <= dataLength;
    var tail := compressed[|c| .. dataLength];
    assert compressed[..|c|] == c;
    assert compressed[..dataLength] == c + tail;
    assert zlib.decompress(c + tail) == Some(data);
  }

  /** A slot whose location entry points at an external stub reads back as
      the decompression of the external file's contents. */
  lemma ReadExternalStub(file: seq<byte>, i: nat, regionX: i32, regionZ: i32, zlib: Codec, external: ExternalFiles,
                         start: nat, c: seq<byte>, data: seq<byte>, level: int)
    requires |file| >= 2 * SECTOR_SIZE && i < CHUNKS_PER_REGION
    requires 2 <= start < 0x100_0000
    requires LocationAt(file, i) == NewLocation(start, 1)
    requires (start + 1) * SECTOR_SIZE <= |file|
    requires file[start * SECTOR_SIZE .. (start + 1) * SECTOR_SIZE] == ExternalStub()
    requires external(ChunkX(regionX, i), ChunkZ(regionZ, i)) == Some(c)
    requires StopsAtStreamEnd(zlib) && zlib.compress(data, level) == Some(c)
    ensures ReadSlot(file, i, regionX, regionZ, zlib, external) == Load(data)
  {
    var chunkStart := start * SECTOR_SIZE;
    assert file[chunkStart .. chunkStart + DATA_HEADER_SIZE] == ExternalStub()[..DATA_HEADER_SIZE];
    assert HeaderFromBytes(file[chunkStart .. chunkStart + DATA_HEADER_SIZE]).compressionType == EXTERNAL_FILE_COMPRESSION_TYPE;
    assert c + [] == c;
    assert zlib.decompress(c + []) == Some(data);
  }

  /** Every slot of a written file reads back as what the region held there. */
  lemma ReadWrittenSlot(d: RegionData, k: nat, level: int, zlib: Codec, spill: bool, external: ExternalFiles, i: nat)
    requires i < k <= CHUNKS_PER_REGION
    requires StopsAtStreamEnd(zlib)
    requires LayoutSlots(d, k, level, zlib, spill).Ok?
    requires forall w :: w in LayoutSlots(d, k, level, zlib, spill).value.externals ==> external(w.chunkX, w.chunkZ) == Some(w.data)
    ensures var L := LayoutSlots(d, k, level, zlib, spill).value;
      ReadSlot(AnvilFile(L.locations, d.timestamps, L.sectorData), i, d.regionX, d.regionZ, zlib, external)
        == if i in d.chunks then Load(d.chunks[i].data) else Skip
  {
    SlotPlacement(d, i, k, level, zlib, spill);
    var p := LayoutSlots(d, i, level, zlib, spill).value;
    var q := LayoutSlots(d, i + 1, level, zlib, spill).value;
    var L := LayoutSlots(d, k, level, zlib, spill).value;
    var file := AnvilFile(L.locations, d.timestamps, L.sectorData);
    AnvilFileLocation(L.locations, d.timestamps, L.sectorData, i);
    AnvilFileSectors(L.locations, d.timestamps, L.sectorData);
    ReadPlacedSlot(file, d, i, p, q, L, level, zlib, spill, external);
  }

  /** The same, for any file whose slot-i entry and sector area are those of
      the layout L. */
  lemma ReadPlacedSlot(file: seq<byte>, d: RegionData, i: nat, p: Layout, q: Layout, L: Layout, level: int, zlib: Codec,
                       spill: bool, external: ExternalFiles)
    requires i < CHUNKS_PER_REGION && Placed(d, i, p, q, L, level, zlib, spill)
    requires |file| == 2 * SECTOR_SIZE + |L.sectorData| && file[2 * SECTOR_SIZE..] == L.sectorData
    requires LocationAt(file, i) == L.locations[i]
    requires StopsAtStreamEnd(zlib)
    requires forall w :: w in L.externals ==> external(w.chunkX, w.chunkZ) == Some(w.data)
    ensures ReadSlot(file, i, d.regionX, d.regionZ, zlib, external) == if i in d.chunks then Load(d.chunks[i].data) else Skip
  {
    if i !in d.chunks {
      SlotEmpty(d, i, p, q, L, level, zlib, spill);
      ReadEmptySlot(file, i, d.regionX, d.regionZ, zlib, external);
    } else {
      SlotLocation(d, i, p, q, L, level, zlib, spill);
      SlotRecord(d, i, p, q, L, level, zlib, spill);
      var c := Compressed(d, i, level, zlib).value;
      SectorRun(file, L.sectorData, p.currentSector, q.currentSector);
      ReadOccupiedSlot(file, i, d.regionX, d.regionZ, zlib, external, p.currentSector, c, d.chunks[i].data, level);
    }
  }

  /** Sectors lo..hi of a file whose sector area starts at sector 2. */
  lemma SectorRun(file: seq<byte>, sectorData: seq<byte>, lo: nat, hi: nat)
    requires |file| == 2 * SECTOR_SIZE + |sectorData| && file[2 * SECTOR_SIZE..] == sectorData
    requires 2 <= lo <= hi && (hi - 2) * SECTOR_SIZE <= |sectorData|
    ensures file[lo * SECTOR_SIZE .. hi * SECTOR_SIZE] == sectorData[(lo - 2) * SECTOR_SIZE .. (hi - 2) * SECTOR_SIZE]
  {
    assert file[lo * SECTOR_SIZE .. hi * SECTOR_SIZE]
      == file[2 * SECTOR_SIZE..][(lo - 2) * SECTOR_SIZE .. (hi - 2) * SECTOR_SIZE];
  }

  /** A slot whose location entry is all zeros is skipped. */
  lemma ReadEmptySlot(file: seq<byte>, i: nat, regionX: i32, regionZ: i32, zlib: Codec, external: ExternalFiles)
    requires |file| >= 2 * SECTOR_SIZE && i < CHUNKS_PER_REGION
    requires LocationAt(file, i) == NewLocation(0, 0)
    ensures ReadSlot(file, i, regionX, regionZ, zlib, external) == Skip
  {
  }

  /** A slot whose location entry points at the record of payload `c`
      reads back as the chunk that was compressed to `c`. */
  lemma ReadOccupiedSlot(file: seq<byte>, i: nat, regionX: i32, regionZ: i32, zlib: Codec, external: ExternalFiles,
                         start: nat, c: seq<byte>, data: seq<byte>, level: int)
    requires |file| >= 2 * SECTOR_SIZE && i < CHUNKS_PER_REGION && 2 <= start < 0x100_0000
    requires LocationAt(file, i) == NewLocation(start, SectorsUsed(c))
    requires (start + SectorsUsed(c)) * SECTOR_SIZE <= |file|
    requires file[start * SECTOR_SIZE .. (start + SectorsUsed(c)) * SECTOR_SIZE] == Record(c)
    requires SectorsNeeded(|c|) > MAX_SECTORS ==> external(ChunkX(regionX, i), ChunkZ(regionZ, i)) == Some(c)
    requires StopsAtStreamEnd(zlib) && zlib.compress(data, level) == Some(c)
    ensures ReadSlot(file, i, regionX, regionZ, zlib, external) == Load(data)
  {
    if SectorsNeeded(|c|) > MAX_SECTORS {
      ReadExternalStub(file, i, regionX, regionZ, zlib, external, start, c, data, level);
    } else {
      ReadInlineRecord(file, i, regionX, regionZ, zlib, external, start, c, data, level);
    }
  }

  // ---------------------------------------------------------------------
  // When the writer fails

  /** Slot i can be written: it is empty, or its chunk compresses and either
      fits in 255 sectors or may be spilled to an external file. */
  predicate SlotFits(d: RegionData, i: nat, level: int, zlib: Codec, spill: bool)
  {
    i in d.chunks ==>
      && zlib.compress(d.chunks[i].data, level).Some?
      && (spill || SectorsNeeded(|zlib.compress(d.chunks[i].data, level).value|) <= MAX_SECTORS)
  }

  /** The writer loop over k slots succeeds exactly when every one of them fits. */
  lemma {:induction false} LayoutSucceedsIff(d: RegionData, k: nat, level: int, zlib: Codec, spill: bool)
    ensures LayoutSlots(d, k, level, zlib, spill).Ok? <==> forall i :: 0 <= i < k ==> SlotFits(d, i, level, zlib, spill)
  {
    if k > 0 {
      LayoutSucceedsIff(d, k - 1, level, zlib, spill);
      if LayoutSlots(d, k - 1, level, zlib, spill).Ok? {
        assert LayoutSlots(d, k, level, zlib, spill).Ok? <==> SlotFits(d, k - 1, level, zlib, spill);
      }
    }
  }

  /** `write_anvil_region` (spill) fails only when a chunk does not compress;
      `region_to_anvil_bytes` also fails when a chunk needs more than 255
      sectors, and then with InvalidFormat. */
  lemma EncodeAnvilSucceedsIff(d: RegionData, level: int, zlib: Codec, spill: bool)
    ensures EncodeAnvil(d, level, zlib, spill).Ok? <==>
      forall i :: 0 <= i < CHUNKS_PER_REGION ==> SlotFits(d, i, level, zlib, spill)
  {
    LayoutSucceedsIff(d, CHUNKS_PER_REGION, level, zlib, spill);
  }

  /** The first slot that does not fit decides the error: CompressionFailed
      if its chunk does not compress, InvalidFormat if it is too large. */
  lemma EncodeAnvilFirstFailure(d: RegionData, i: nat, level: int, zlib: Codec, spill: bool)
    requires i < CHUNKS_PER_REGION && !SlotFits(d, i, level, zlib, spill)
    requires forall j :: 0 <= j < i ==> SlotFits(d, j, level, zlib, spill)
    ensures EncodeAnvil(d, level, zlib, spill)
      == Err(if zlib.compress(d.chunks[i].data, level).None? then CompressionFailed else InvalidFormat)
  {
    LayoutSucceedsIff(d, i, level, zlib, spill);
    var l := LayoutSlots(d, i, level, zlib, spill).value;
    LayoutSlotsFails(d, i, l, level, zlib, spill);
  }

  // ---------------------------------------------------------------------
  // The round trip

  /** What the reader sees in each slot of a written file. */
  lemma WrittenSlotReads(d: RegionData, level: int, zlib: Codec, spill: bool, external: ExternalFiles)
    requires StopsAtStreamEnd(zlib) && EncodeAnvil(d, level, zlib, spill).Ok?
    requires forall w :: w in EncodeAnvil(d, level, zlib, spill).value.externals ==> external(w.chunkX, w.chunkZ) == Some(w.data)
    ensures var file := EncodeAnvil(d, level, zlib, spill).value.file;
      && |file| >= 2 * SECTOR_SIZE
      && forall i :: 0 <= i < CHUNKS_PER_REGION ==>
           SlotReads(file, d.regionX, d.regionZ, zlib, external)[i] == if i in d.chunks then Load(d.chunks[i].data) else Skip
  {
    var L := LayoutSlots(d, CHUNKS_PER_REGION, level, zlib, spill).value;
    var file := EncodeAnvil(d, level, zlib, spill).value.file;
    assert file == AnvilFile(L.locations, d.timestamps, L.sectorData);
    forall i | 0 <= i < CHUNKS_PER_REGION
      ensures SlotReads(file, d.regionX, d.regionZ, zlib, external)[i] == if i in d.chunks then Load(d.chunks[i].data) else Skip
    {
      ReadWrittenSlot(d, CHUNKS_PER_REGION, level, zlib, spill, external, i);
    }
  }

  /** Reading back a written region: every chunk in slots 0..1023 comes back
      with its data (placed at the coordinates its slot implies), nothing
      else appears, and every timestamp of the first 1024 comes back, twice
      over as the reader lays them out. */
  lemma AnvilRoundTrip(d: RegionData, filename: string, mtime: u64, level: int, zlib: Codec, spill: bool,
                       external: ExternalFiles)
    requires WellFormed(d) && StopsAtStreamEnd(zlib)
    requires ParseFilename(filename) == Ok((d.regionX, d.regionZ))
    requires EncodeAnvil(d, level, zlib, spill).Ok?
    requires forall w :: w in EncodeAnvil(d, level, zlib, spill).value.externals ==> external(w.chunkX, w.chunkZ) == Some(w.data)
    ensures var r := DecodeAnvil(filename, EncodeAnvil(d, level, zlib, spill).value.file, mtime, zlib, external);
      && r.Ok?
      && r.value.regionX == d.regionX && r.value.regionZ == d.regionZ && r.value.mtime == mtime
      && (forall i :: i in r.value.chunks <==> i in d.chunks && i < CHUNKS_PER_REGION)
      && (forall i :: i in r.value.chunks ==>
            r.value.chunks[i] == Chunk(d.chunks[i].data, ChunkX(d.regionX, i), ChunkZ(d.regionZ, i)))
      && |r.value.timestamps| == 2 * CHUNKS_PER_REGION
      && (forall i :: 0 <= i < CHUNKS_PER_REGION ==>
            && r.value.timestamps[i] == (if i in d.chunks then d.timestamps[i] else 0)
            && r.value.timestamps[CHUNKS_PER_REGION + i] == d.timestamps[i])
  {
    var file := EncodeAnvil(d, level, zlib, spill).value.file;
    WrittenSlotReads(d, level, zlib, spill, external);
    var slots := SlotReads(file, d.regionX, d.regionZ, zlib, external);
    DecodeLoadedSlots(slots, d.chunks, d.regionX, d.regionZ);
    var chunks := DecodeSlots(slots, CHUNKS_PER_REGION, d.regionX, d.regionZ).value;
    WrittenTimestamps(d, level, zlib, spill, chunks);
    assert DecodeAnvil(filename, file, mtime, zlib, external)
      == Ok(RegionData(chunks, d.regionX, d.regionZ, mtime, ReadTimestamps(file, chunks)));
  }

  /** Slots that hold exactly the chunks of a map decode to those chunks. */
  lemma DecodeLoadedSlots(slots: seq<SlotRead>, chunks: map<nat, Chunk>, regionX: i32, regionZ: i32)
    requires |slots| == CHUNKS_PER_REGION
    requires forall i :: 0 <= i < CHUNKS_PER_REGION ==> slots[i] == if i in chunks then Load(chunks[i].data) else Skip
    ensures var r := DecodeSlots(slots, CHUNKS_PER_REGION, regionX, regionZ);
      && r.Ok?
      && (forall i :: i in r.value <==> i in chunks && i < CHUNKS_PER_REGION)
      && (forall i :: i in r.value ==> r.value[i] == Chunk(chunks[i].data, ChunkX(regionX, i), ChunkZ(regionZ, i)))
  {
    DecodeSlotsSpec(slots, CHUNKS_PER_REGION, regionX, regionZ);
  }

  /** The timestamp vector the reader builds from a written file. */
  lemma WrittenTimestamps(d: RegionData, level: int, zlib: Codec, spill: bool, chunks: map<nat, Chunk>)
    requires WellFormed(d) && EncodeAnvil(d, level, zlib, spill).Ok?
    requires forall i :: i in chunks <==> i in d.chunks && i < CHUNKS_PER_REGION
    ensures |EncodeAnvil(d, level, zlib, spill).value.file| >= 2 * SECTOR_SIZE
    ensures var ts := ReadTimestamps(EncodeAnvil(d, level, zlib, spill).value.file, chunks);
      forall i :: 0 <= i < CHUNKS_PER_REGION ==>
        && ts[i] == (if i in d.chunks then d.timestamps[i] else 0)
        && ts[CHUNKS_PER_REGION + i] == d.timestamps[i]
  {
    var file := EncodeAnvil(d, level, zlib, spill).value.file;
    WrittenTimestampTable(d, level, zlib, spill);
    ReadTimestampsOf(file, chunks, d.timestamps);
  }

  /** The timestamp table of a written file is the first 1024 timestamps. */
  lemma WrittenTimestampTable(d: RegionData, level: int, zlib: Codec, spill: bool)
    requires WellFormed(d) && EncodeAnvil(d, level, zlib, spill).Ok?
    ensures |EncodeAnvil(d, level, zlib, spill).value.file| >= 2 * SECTOR_SIZE
    ensures forall i :: 0 <= i < CHUNKS_PER_REGION ==> TimestampAt(EncodeAnvil(d, level, zlib, spill).value.file, i) == d.timestamps[i]
  {
    var L := LayoutSlots(d, CHUNKS_PER_REGION, level, zlib, spill).value;
    LayoutShape(d, CHUNKS_PER_REGION, level, zlib, spill);
    var file := EncodeAnvil(d, level, zlib, spill).value.file;
    assert file == AnvilFile(L.locations, d.timestamps, L.sectorData);
    forall i | 0 <= i < CHUNKS_PER_REGION
      ensures TimestampAt(file, i) == d.timestamps[i]
    {
      AnvilFileTimestamp(L.locations, d.timestamps, L.sectorData, i);
    }
  }

  /** The reader's timestamp vector for a file whose table is `table`. */
  lemma ReadTimestampsOf(file: seq<byte>, chunks: map<nat, Chunk>, table: seq<u32>)
    requires |file| >= 2 * SECTOR_SIZE && |table| >= CHUNKS_PER_REGION
    requires forall i :: 0 <= i < CHUNKS_PER_REGION ==> TimestampAt(file, i) == table[i]
    ensures var ts := ReadTimestamps(file, chunks);
      forall i :: 0 <= i < CHUNKS_PER_REGION ==>
        && ts[i] == (if i in chunks then table[i] else 0)
        && ts[CHUNKS_PER_REGION + i] == table[i]
  {
  }
}
