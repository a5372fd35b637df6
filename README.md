# Linear region tools, modelled in Dafny

This project models the core of `linear-region-tools`, a set of converters and
repair tools for Minecraft region files. The model covers five parts:

- **The in-memory region** (`Regions`). It has 1024 chunk slots addressed by
  local chunk coordinates, a timestamp table, the region coordinates parsed
  from a file name such as `r.-1.2.mca`, and the process-wide performance
  counters.
- **The Anvil codec** (`Anvil`, `AnvilRoundTrip`). The Anvil format has a
  4 KiB location table, a 4 KiB timestamp table, and zlib-compressed chunk
  records padded to 4 KiB sectors. A record that needs more than 255 sectors
  is spilled to an external `c.<x>.<z>.mcc` file. The writer's layout is
  proved contiguous and non-overlapping. Reading back a written region is
  proved to recover every chunk in slots 0 to 1023, with its timestamp and
  the coordinates its slot implies.
- **The Linear codec** (`Linear`, `LinearRoundTrip`). A Linear file is a
  24-byte header, eight reserved bytes, one zstd frame and an 8-byte
  signature footer. The frame holds a table of 1024 (size, timestamp)
  entries followed by the chunk payloads back to back. Headers and entries
  are proved to round-trip byte for byte. The writer followed by the reader
  is proved to give back the chunks in slots 0 to 1023 and the first 1024
  timestamps, when every chunk payload is nonempty and its size fits in
  32 bits (see "## Findings" for an empty payload).
- **The batch converter** (`Convert`). It covers the skip decision, the name
  of the output file, the outcome of each file, the tallies in the
  statistics, the exit status and the rendering of the elapsed time.
- **The NBT corruption fixer** (`NbtFix`). It raises enchantment levels of 0
  to 1 and removes the ViaVersion marker from custom data. It deletes every
  entity that carries an item with custom data. It repairs passengers
  recursively and counts what it changed. Each repair is proved to be
  idempotent. A chunk that reports no change is proved to be unchanged, so
  not writing it back loses nothing. The statistics are a commutative
  monoid.

Shared vocabulary lives in `Common` and `Text`:

- fixed-width integers and their wrap-around casts;
- big-endian encodings, with both round trips proved;
- the error enumeration;
- `str::split`, `str::replace`, `i32::from_str` and decimal rendering.

Compression is a `Codec` value: a compressor and a decompressor, each of
which may fail. Round-trip lemmas take "decompression undoes compression" as
an explicit precondition (`Common.Lossless`). When zlib output is followed by
sector padding, they also assume the decoder stops at the end of the stream
(`Common.StopsAtStreamEnd`). Nothing about a real zlib or zstd implementation
is assumed anywhere else.

Everything a function reads from the filesystem or the clock is a parameter:
file names, file bytes, modification times, metadata records, and the
contents of external chunk files. Everything it writes is a result. The
reader and writer methods keep the source's shape: a `Region` object updated
in place by loops. Each is proved equal to a functional specification, and
the properties are proved about that specification.

Two behaviours of the source are modelled as written:

- The Anvil reader starts from the 1024 zero timestamps of `Region::new` and
  then appends the file's timestamp table, so a region read from an Anvil
  file has 2048 timestamps. The Anvil writer writes all of them, and the
  second sector of the file is then truncated back to the first 1024.
- `fix_chunk` counts deleted entities as fixed entities.

## Model

| member | source | states |
|---|---|---|
| Common.FromToBE | src/linear.rs:73-82 | Decoding a big-endian encoding of width n gives back the value modulo 256^n |
| Common.ToFromBE | src/linear.rs:94-103 | Encoding a decoded byte string at its own width gives back the bytes |
| Common.Resize | src/anvil.rs:269 | `Vec::resize` truncates to n bytes or pads with zeros up to n, keeping the prefix |
| Common.BitAndLowMask | src/lib.rs:141-142 | `x & 31` on the two's-complement bits equals the remainder modulo 32 |
| Text.Split | src/lib.rs:156 | `split('.')` returns at least one part, no part contains the separator, and joining the parts gives back the string |
| Text.SplitJoin | src/lib.rs:155-167 | Splitting a joined sequence of separator-free parts gives back exactly those parts |
| Text.ReplaceAbsent | src/bin/convert_region_files.rs:121-128 | `replace` leaves unchanged a string that does not contain the first character of the pattern |
| Text.ReplaceAfterPlain | src/bin/convert_region_files.rs:121-128 | `replace` copies text before any possible occurrence unchanged and continues after it |
| Text.ShowNatValue | src/anvil.rs:177 | The decimal rendering of n has digit value n |
| Text.ParseShowI32 | src/lib.rs:161-164 | `i32::from_str` of the decimal rendering of any i32 gives back that i32 |
| Regions.SlotIndex | src/lib.rs:139-145 | The slot `(z & 31) * 32 + (x & 31)` is below 1024 and is the pair of coordinates modulo 32 |
| Regions.SlotIndexPeriodic | src/lib.rs:140-145 | World coordinates 32 apart on either axis address the same slot |
| Regions.ChunkCoordinatesAddressSlot | src/anvil.rs:164-165 | The world coordinates the readers give the chunk of slot i address slot i again |
| Regions.ParseRegionFilename | src/lib.rs:155-167 | `parse_filename` of `r.<x>.<z>.<ext>` returns (x, z) for every i32 pair and every dot-free extension |
| Regions.ParseFilenameTwoFields | src/lib.rs:157-159 | A name with only two dot-separated fields is rejected with InvalidFormat |
| Regions.Region.constructor | src/lib.rs:104-115 | A new region has no chunks, 1024 zero timestamps, the given coordinates and the clock reading as mtime |
| Regions.Region.ChunkCount | src/lib.rs:117-120 | `chunk_count` is the number of occupied slots |
| Regions.Region.SetChunk | src/lib.rs:127-131 | One slot gets the chunk and the timestamp; nothing else changes; the count grows by one exactly when the slot was empty |
| Regions.Region.RemoveChunk | src/lib.rs:133-137 | The slot is emptied and its timestamp zeroed; the count drops by one exactly when it was occupied |
| Regions.Region.SetChunkAt | src/lib.rs:147-153 | Stores the chunk in the slot its world coordinates address, and `get_chunk_at` then finds it |
| Regions.PerformanceCounters.constructor | src/lib.rs:179-186 | All four counters start at zero |
| Regions.PerformanceCounters.GetStats | src/lib.rs:204-211 | The snapshot holds the four current counter values |
| Regions.PerformanceCounters.AddFile | src/lib.rs:188-190 | Only the file counter moves, by one |
| Regions.PerformanceCounters.AddBytesRead | src/lib.rs:192-194 | Only the bytes-read counter moves, by the argument |
| Regions.PerformanceCounters.AddBytesWritten | src/lib.rs:196-198 | Only the bytes-written counter moves, by the argument |
| Regions.PerformanceCounters.AddChunks | src/lib.rs:200-202 | Only the chunk counter moves, by the argument |
| Anvil.GetOffset | src/anvil.rs:41-43 | The sector offset is the three offset bytes read big-endian, so it is below 2^24 |
| Anvil.NewLocation | src/anvil.rs:22-28 | `ChunkLocation::new` keeps the sector count and the offset modulo 2^24, which is the offset itself when below 2^24 |
| Anvil.LocationToBytes | src/anvil.rs:30-39 | A location entry is 4 bytes, and reading them gives the entry back |
| Anvil.IsEmptyIff | src/anvil.rs:45-47 | An entry is empty exactly when its four bytes are all zero |
| Anvil.HeaderToBytes | src/anvil.rs:68-82 | The chunk header is the 4-byte big-endian length followed by the type, and reading it gives the header back |
| Anvil.SlotReads | src/anvil.rs:136-190 | The reader's verdict on each of the 1024 slots (skip, load a payload, or abort the file) |
| Anvil.ReadTimestamps | src/anvil.rs:117-131 | The reader's timestamp vector has 2048 entries |
| Anvil.ReadTimestampsPointwise | src/anvil.rs:127-131 | The vector holds the file's timestamp for each loaded slot and 0 for the others, followed by the whole table |
| Anvil.DecodeSlotsSpec | src/anvil.rs:136-195 | The slot loop succeeds iff no slot aborts, and otherwise fails with the first abort; on success it holds exactly the loaded slots, each at its slot's coordinates |
| Anvil.DecodeAnvil | src/anvil.rs:85-203 | A region read from an Anvil file is well formed, and the file holds both header tables |
| Anvil.ShortFileRejected | src/anvil.rs:103-105 | A file shorter than 8192 bytes is rejected with InvalidFormat |
| Anvil.UnknownCompressionFailsRegion | src/anvil.rs:187-189 | One slot with an unknown compression type fails the whole region |
| Anvil.DecodeSlotsErrorStays | src/anvil.rs:167-190 | A failure in the slot loop is the outcome of every longer prefix of the loop |
| Anvil.DecodeSlotsLoad | src/anvil.rs:192-194 | Loading slot i adds exactly one new chunk, at its coordinates |
| Anvil.DecodeSlotsSkip | src/anvil.rs:137-159 | A skipped slot leaves the loaded chunks as they are |
| Anvil.ReadChunkSlot | src/anvil.rs:137-190 | The body of the slot loop computes that slot's verdict |
| Anvil.ReadLocationTable | src/anvil.rs:108-114 | The first loop reads the 1024 location entries |
| Anvil.ReadTimestampTable | src/anvil.rs:117-125 | The second loop reads the 1024 big-endian timestamps |
| Anvil.DecodeSlotsAbort | src/anvil.rs:167-190 | An aborting slot decides the error of the whole loop |
| Anvil.LoadedAll | src/anvil.rs:136-195 | After all slots, the region holds the decoded chunks and the reader's timestamp vector |
| Anvil.StoreLoadedChunk | src/anvil.rs:192-194 | Storing a loaded slot keeps the loop invariant and adds one chunk |
| Anvil.LoadSlot | src/anvil.rs:136-195 | One loop iteration: the slot's verdict, and unless it aborts, the invariant for the next slot |
| Anvil.LoadSlots | src/anvil.rs:135-195 | The slot loop fails exactly when the specification does, with the same error; otherwise the region holds the decoded chunks and timestamps, and the count returned is its number of chunks |
| Anvil.ReadAnvilRegion | src/anvil.rs:85-203 | `read_anvil_region` returns the specified region or error, and updates bytes read, files and chunks exactly as the source does |
| Anvil.SectorsNeededIsCeiling | src/anvil.rs:226-227 | The sector count is the ceiling of (5 + length) / 4096, and at least 1 |
| Anvil.InlineRecord | src/anvil.rs:246-253 | A record is whole sectors: a header of length + 1 with type 2, then the compressed payload, then zero padding |
| Anvil.ExternalStub | src/anvil.rs:237-240 | A spilled chunk leaves one sector whose header has length 1 and type 130 |
| Anvil.PlaceSlotGrowth | src/anvil.rs:218-261 | One writer step adds one location entry and between 0 and 255 whole sectors; without spilling no external file is written |
| Anvil.LayoutShape | src/anvil.rs:214-262 | After k slots: k entries, next free sector between 2 and 2 + 255k, exactly the sectors used, and no external files unless spilling |
| Anvil.AnvilFile | src/anvil.rs:264-276 | The file is the two 4096-byte tables followed by the sector area |
| Anvil.PlaceChunk | src/anvil.rs:219-261 | One iteration of the writer loop computes the specified step |
| Anvil.LayoutChunks | src/anvil.rs:214-262 | The writer loop computes the specified layout, or the first failure |
| Anvil.LayoutSlotsErrorStays | src/anvil.rs:220-224 | A failure at one slot is the failure of the whole writer loop |
| Anvil.AssembleAnvilFile | src/anvil.rs:264-276 | Assembling tables, padding and sectors gives the specified file |
| Anvil.WriteAnvilRegion | src/anvil.rs:205-289 | `write_anvil_region` writes the specified file and external chunks, and on success adds one file, the bytes written and the chunk count to the counters |
| Anvil.RegionToAnvilBytes | src/anvil.rs:291-342 | `region_to_anvil_bytes` returns the specified file without spilling, failing exactly when the specification does |
| AnvilRoundTrip.LayoutPrefix | src/anvil.rs:218-262 | Every earlier writer state is a prefix of every later one |
| AnvilRoundTrip.SlotLocation | src/anvil.rs:242-257 | An occupied slot's entry points at the writer's next free sector and covers at least one sector |
| AnvilRoundTrip.SlotEmpty | src/anvil.rs:259-261 | An empty slot's entry is all zeros and uses no sectors |
| AnvilRoundTrip.SlotRecord | src/anvil.rs:234-257 | An occupied slot's record sits in the sector area at its run, and a spilled payload is among the external files |
| AnvilRoundTrip.SlotRun | src/anvil.rs:242-257 | Each occupied slot's run starts exactly where the earlier slots' runs ended |
| AnvilRoundTrip.RunsDisjoint | src/anvil.rs:216-262 | The sector runs of two occupied slots never overlap |
| AnvilRoundTrip.EntryKept | src/anvil.rs:218-262 | Later writer steps never change an earlier location entry |
| AnvilRoundTrip.NextSectorMonotone | src/anvil.rs:216-262 | The writer's next free sector never decreases |
| AnvilRoundTrip.AnvilFileLocation | src/anvil.rs:266-269 | The reader finds entry i of the writer's table at entry i of the file |
| AnvilRoundTrip.AnvilFileTimestamp | src/anvil.rs:271-274 | The reader finds timestamp i of the region at entry i of the file's timestamp table |
| AnvilRoundTrip.AnvilFileSectors | src/anvil.rs:276 | The sector area starts at byte 8192 |
| AnvilRoundTrip.ReadInlineRecord | src/anvil.rs:161-175 | A slot whose entry points at an inline record reads back as the decompressed payload |
| AnvilRoundTrip.ReadExternalStub | src/anvil.rs:176-186 | A slot whose entry points at an external stub reads back as the decompressed external file |
| AnvilRoundTrip.ReadEmptySlot | src/anvil.rs:137-139 | A slot whose entry is all zeros is skipped |
| AnvilRoundTrip.ReadOccupiedSlot | src/anvil.rs:141-186 | A slot whose entry points at the record of a compressed chunk reads back as that chunk |
| AnvilRoundTrip.LayoutSucceedsIff | src/anvil.rs:218-262 | The writer loop succeeds exactly when every slot fits |
| AnvilRoundTrip.EncodeAnvilSucceedsIff | src/anvil.rs:296-309 | Encoding succeeds exactly when every chunk compresses and, without spilling, needs at most 255 sectors |
| AnvilRoundTrip.EncodeAnvilFirstFailure | src/anvil.rs:296-309 | The first slot that does not fit decides the error: CompressionFailed if it does not compress, InvalidFormat if it is too large |
| AnvilRoundTrip.WrittenSlotReads | src/anvil.rs:136-195 | Each slot of a written file reads back as the chunk the region held there, or is skipped if the slot was empty |
| AnvilRoundTrip.AnvilRoundTrip | src/anvil.rs:85-289 | Reading back a written region gives the same slots below 1024 with the same data at the slot's coordinates, and every timestamp of an occupied slot |
| AnvilRoundTrip.WrittenTimestampTable | src/anvil.rs:271-274 | The timestamp table of a written file is the region's first 1024 timestamps |
| Linear.HeaderFromBytes | src/linear.rs:68-92 | Parsing a header fails, with InvalidFormat, exactly when fewer than 24 bytes are given |
| Linear.HeaderToBytes | src/linear.rs:94-103 | Each header field is written big-endian at its offset, and the level as its two's-complement byte |
| Linear.HeaderRoundTrip | src/linear.rs:68-103 | Reading a written header gives it back |
| Linear.HeaderBytesRoundTrip | src/linear.rs:68-103 | Every 24 bytes parse to a header that writes back as those bytes |
| Linear.MetaToBytes | src/linear.rs:116-127 | An entry is 8 bytes, and reading them gives the entry back |
| Linear.MetaBytesRoundTrip | src/linear.rs:116-127 | Every 8 bytes parse to an entry that writes back as those bytes |
| Linear.CheckContainer | src/linear.rs:148-184 | The reader accepts the container exactly when it is at least 32 bytes with both signatures and version 1 or 2, and it names the check that failed |
| Linear.VerifyLinearFile | src/linear.rs:329-359 | `verify_linear_file` holds exactly when the file could be mapped and passes the reader's container checks |
| Linear.CompressedFrame | src/linear.rs:186-188 | The frame is everything between byte 32 and the footer; a file too short to hold one is a format error |
| Linear.ShortFilePassesChecks | src/linear.rs:148-188 | A 32-byte file passes every check although its frame would end before it starts |
| Linear.MetaTimestamps | src/linear.rs:231-232 | The region's timestamps are those of the table, slot by slot |
| Linear.ChunkAt | src/linear.rs:234-245 | The chunk of slot i has as many bytes as its entry says and the coordinates its slot implies |
| Linear.ChunksFromKeys | src/linear.rs:231-247 | Exactly the slots with a nonzero size get a chunk |
| Linear.ChunksFromCount | src/linear.rs:205-207 | There are as many chunks as entries with a nonzero size |
| Linear.PayloadsDisjoint | src/linear.rs:229-247 | A payload ends no later than the next nonempty one starts, so payloads do not overlap |
| Linear.DecodeChunkTableSpec | src/linear.rs:191-247 | The table decodes iff it has 1024 entries, the nonzero-size count matches the header, and the sizes fill the buffer exactly; a count mismatch is InvalidChunkCount; on success one chunk per nonzero entry with the table's timestamps |
| Linear.DecodeLinearWellFormed | src/linear.rs:224-247 | A region read from a Linear file is well formed, with 1024 timestamps, the file name's coordinates and the file's mtime |
| Linear.ScanMetas | src/linear.rs:196-211 | The entry loop reads the table, the total payload length and the count of nonempty entries |
| Linear.FillSlot | src/linear.rs:232-246 | One slot: its timestamp is set and, for a nonempty entry, the payload at the running offset is stored |
| Linear.FillRegion | src/linear.rs:229-247 | The slot loop leaves the region holding the specified chunks and the table's timestamps |
| Linear.LoadChunkTable | src/linear.rs:191-247 | After decompression, the reader fails exactly when the table specification does; otherwise the region is the decoded table |
| Linear.ReadLinearRegion | src/linear.rs:130-255 | `read_linear_region` returns the specified region or error, and updates bytes read, files and chunks exactly as the source does |
| Linear.WrittenMetas | src/linear.rs:270-283 | The writer emits one entry per slot: the payload size for an occupied slot, 0 otherwise, and the slot's timestamp |
| Linear.OccupiedBelowCounts | src/linear.rs:279 | The writer's chunk count is the number of occupied slots |
| Linear.NewestBelowIsMax | src/linear.rs:278 | The header's newest timestamp is the largest timestamp of an occupied slot, or 0 when none is occupied |
| Linear.EncodeLinearWithCountFrame | src/linear.rs:298-314 | A written file passes `verify_linear_file` and carries the compressed buffer between header and footer |
| Linear.CollectChunks | src/linear.rs:265-283 | The writer's entry loop computes the entries, the payloads, the newest timestamp and the occupied count |
| Linear.MetasToBytes | src/linear.rs:289-291 | The entries are serialised back to back |
| Linear.WriteLinearRegion | src/linear.rs:257-327 | `write_linear_region` writes the specified file, and on success adds one file, the bytes written and the occupied count to the counters |
| LinearRoundTrip.MetaTableOfWritten | src/linear.rs:285-293 | The table the reader parses from the written buffer is the table the writer emitted |
| LinearRoundTrip.SizeSumWritten | src/linear.rs:272-276 | The sizes in the written table add up to the payload length |
| LinearRoundTrip.CountWritten | src/linear.rs:272-279 | The written table has as many nonempty entries as occupied slots when every payload is nonempty and fits, and fewer when some payload is empty |
| LinearRoundTrip.ChunkTableBytesLayout | src/linear.rs:285-293 | The written buffer is the table followed by the payloads from byte 8192 |
| LinearRoundTrip.ChunkAtWritten | src/linear.rs:234-246 | The chunk the reader cuts for a slot is the payload the writer put there |
| LinearRoundTrip.ChunksFromWritten | src/linear.rs:229-247 | The chunks cut from the written buffer are the region's nonempty chunks |
| LinearRoundTrip.ChunkTableRoundTrip | src/linear.rs:191-293 | The written buffer decodes to the nonempty chunks and the first 1024 timestamps |
| LinearRoundTrip.DecodeWrittenFile | src/linear.rs:130-314 | Reading a written file decodes exactly the buffer that was compressed, against the header's count |
| LinearRoundTrip.LinearRoundTrip | src/linear.rs:130-327 | When every occupied slot below 1024 has a nonempty payload that fits, writing then reading gives back the same slots and data at the slot's coordinates, with the timestamps |
| LinearRoundTrip.LinearRoundTripCounted | src/linear.rs:205-218 | With the header counting the nonempty entries, every region whose payloads fit reads back with its nonempty chunks |
| LinearRoundTrip.EmptyPayloadUnreadable | src/linear.rs:205-218 | A region with an occupied slot whose payload is empty is written with a count the reader rejects with InvalidChunkCount |
| Convert.RenameRegionFile | src/bin/convert_region_files.rs:121-128 | Replacing the extension in `r.<x>.<z>.<ext>` changes only the extension |
| Convert.DestinationOfRegionFile | src/bin/convert_region_files.rs:121-130 | The output of a region file is the same region's file in the other format, so it parses to the same coordinates |
| Convert.ShouldConvertFile | src/bin/convert_region_files.rs:88-104 | Convert iff skipping is off, the destination is missing, or the source is strictly newer; an unreadable source or time is an I/O error |
| Convert.ConversionStats.constructor | src/bin/convert_region_files.rs:53-61 | All five statistics start at zero |
| Convert.ConversionStats.AddConverted | src/bin/convert_region_files.rs:63-67 | One more converted file and both sizes added; the other counters unchanged |
| Convert.ConversionStats.AddSkipped | src/bin/convert_region_files.rs:69-71 | Only the skipped counter moves |
| Convert.ConversionStats.AddError | src/bin/convert_region_files.rs:73-75 | Only the error counter moves |
| Convert.SkippedWhenDeclinedOrEmpty | src/bin/convert_region_files.rs:132-141 | A file is skipped exactly when the skip rule declines it or its source is empty |
| Convert.TranscodeNeverSkips | src/bin/convert_region_files.rs:149-178 | A file that is read and written is converted or fails, never skipped |
| Convert.VerifyAffectsOnlyAnvilOutput | src/bin/convert_region_files.rs:167-176 | `--verify` never changes the outcome of a conversion to Linear, and can only turn a conversion to Anvil into a failure |
| Convert.AnvilOutputPassesVerify | src/bin/convert_region_files.rs:172-174 | An Anvil output stored faithfully passes the re-read, so `--verify` does not change the outcome |
| Convert.ConvertSingleFile | src/bin/convert_region_files.rs:106-209 | The result is an error exactly when the outcome is a failure; converted and skipped files move their counters and the byte totals; errors are never counted here |
| Convert.Transcode | src/bin/convert_region_files.rs:149-178 | Read, write and optional re-read give the specified outcome, and on success the output size |
| Convert.Outcomes | src/bin/convert_region_files.rs:317-328 | The outcome of every file of the batch, in order |
| Convert.TallyCountsEveryFile | src/bin/convert_region_files.rs:317-333 | Every file moves exactly one of the converted, skipped and error counters, by one |
| Convert.TallyErrors | src/bin/convert_region_files.rs:330-333 | The error counter grows exactly when some file fails |
| Convert.ConvertAndRecord | src/bin/convert_region_files.rs:318-333 | One loop iteration records the file's outcome, counting a failure as an error |
| Convert.ConvertFiles | src/bin/convert_region_files.rs:317-338 | The loop tallies the outcomes of all files |
| Convert.ExitStatus | src/bin/convert_region_files.rs:368-370 | The exit status is 1 exactly when there were errors, 0 otherwise |
| Convert.RunConversion | src/bin/convert_region_files.rs:299-372 | The totals count every file once, and the status is 1 exactly when some file failed |
| Convert.ClockParts | src/bin/convert_region_files.rs:249-252 | Hours, minutes below 60 and seconds below 60 add up to the elapsed seconds |
| Convert.ClockPartsUnique | src/bin/convert_region_files.rs:249-252 | That decomposition is the only one |
| Convert.DurationForm | src/bin/convert_region_files.rs:255-263 | The form is chosen by the elapsed time: hours from 3600 s, minutes from 60 s, seconds from 1 s, milliseconds below; the parts add up to the elapsed seconds, and the milliseconds are the whole milliseconds of the nanoseconds |
| Convert.Pad3 | src/bin/convert_region_files.rs:260 | `{:03}` gives three digits whose value is the number |
| Convert.FormatDuration | src/bin/convert_region_files.rs:248-264 | The printed text for each form: `{h}h {m}m {s}s` from 3600 s with the clock parts of the elapsed seconds, `{m}m {s}s` from 60 s, `{s}.{millis:03}s` from 1 s with the whole milliseconds of the fraction, and `{as_millis}ms` below; it ends in "ms" exactly when less than a second has elapsed |
| NbtFix.Merge | src/bin/fix_nbt_corruption.rs:56-63 | Merging adds the six counters pointwise |
| NbtFix.MergeMonoid | src/bin/fix_nbt_corruption.rs:56-63 | Merging is associative and commutative with the empty statistics as unit |
| NbtFix.RepairLevel | src/bin/fix_nbt_corruption.rs:395-417 | A zero Int, Short or Byte level becomes 1 of the same type; every other value is kept |
| NbtFix.RepairLevelsSpec | src/bin/fix_nbt_corruption.rs:391-421 | Exactly the zero levels change, every name is kept, and a second pass finds nothing |
| NbtFix.FixEnchantmentLevels | src/bin/fix_nbt_corruption.rs:391-421 | The loop repairs the map and returns the number of zero levels |
| NbtFix.RepairLvlListSpec | src/bin/fix_nbt_corruption.rs:374-385 | Exactly the Short `lvl` 0 entries of an `Enchantments` list become 1, and a second pass finds nothing |
| NbtFix.FixEnchantmentList | src/bin/fix_nbt_corruption.rs:374-385 | The loop repairs the list and counts its zero levels |
| NbtFix.EnchantmentMapRepaired | src/bin/fix_nbt_corruption.rs:344-352 | A repaired enchantment component has nothing left to repair |
| NbtFix.CustomDataRepaired | src/bin/fix_nbt_corruption.rs:354-371 | Repaired custom data has no ViaVersion marker and no zero level |
| NbtFix.ComponentsRepaired | src/bin/fix_nbt_corruption.rs:343-372 | Repaired components keep their names and have nothing left to repair |
| NbtFix.RepairItemIdempotent | src/bin/fix_nbt_corruption.rs:339-389 | A repaired item comes out of a second pass unchanged with no repairs |
| NbtFix.RepairItemUntouched | src/bin/fix_nbt_corruption.rs:342-386 | A value that is no compound, or an item with neither components nor `Enchantments`, is left alone |
| NbtFix.FixComponents | src/bin/fix_nbt_corruption.rs:343-372 | The components part repairs as specified and counts its repairs |
| NbtFix.FixItemEnchantments | src/bin/fix_nbt_corruption.rs:339-389 | `fix_item_enchantments` repairs the item as specified and counts its repairs |
| NbtFix.QuietItem | src/bin/fix_nbt_corruption.rs:339-389 | An item for which no repair is reported is unchanged |
| NbtFix.RepairItemList | src/bin/fix_nbt_corruption.rs:327-332 | Each element of an item list is repaired in place |
| NbtFix.RepairItemsSpec | src/bin/fix_nbt_corruption.rs:315-337 | Only the six named slots of an equipment compound are repaired; a value that is neither compound nor list is untouched |
| NbtFix.RepairItemsIdempotent | src/bin/fix_nbt_corruption.rs:315-337 | `fix_items_enchantments` is idempotent |
| NbtFix.FixSlots | src/bin/fix_nbt_corruption.rs:319-326 | The slot loop repairs the six slots and sums their repairs |
| NbtFix.FixItemList | src/bin/fix_nbt_corruption.rs:327-332 | The list loop repairs every element and sums the repairs |
| NbtFix.FixItemsEnchantments | src/bin/fix_nbt_corruption.rs:315-337 | `fix_items_enchantments` repairs as specified and counts its repairs |
| NbtFix.QuietItems | src/bin/fix_nbt_corruption.rs:315-337 | Items for which no repair is reported are unchanged |
| NbtFix.ShouldDeleteEntitySpec | src/bin/fix_nbt_corruption.rs:194-217 | An entity is deleted exactly when some item it carries (any equipment value, or an ArmorItems or HandItems element) has custom data; a non-compound never is |
| NbtFix.SurvivorsSpec | src/bin/fix_nbt_corruption.rs:228-231 | `retain` removes exactly the entities to delete, keeping every other one with its multiplicity, and the deleted count is the difference in length |
| NbtFix.RetainEntities | src/bin/fix_nbt_corruption.rs:228-231 | The filter keeps the survivors and returns how many were removed |
| NbtFix.EntitiesChanged | src/bin/fix_nbt_corruption.rs:237-244 | A list of entities reports a change exactly when one entity does |
| NbtFix.EntityStatsSpec | src/bin/fix_nbt_corruption.rs:256-313 | The entity counts itself once when its items or a passenger changed, on top of its passengers' counts, and its enchantment count is its own plus the passengers' |
| NbtFix.FixItemFields | src/bin/fix_nbt_corruption.rs:262-270 | The loop over equipment, ArmorItems and HandItems repairs each and sums the repairs |
| NbtFix.FixOwnItems | src/bin/fix_nbt_corruption.rs:262-278 | The entity's own items are repaired, and the flag is set exactly when something was |
| NbtFix.FixEntity | src/bin/fix_nbt_corruption.rs:256-313 | `fix_entity` repairs the entity, passengers included, and returns its statistics |
| NbtFix.FixEntities | src/bin/fix_nbt_corruption.rs:237-244 | The entity loop repairs each entity, merges the statistics and reports whether any changed |
| NbtFix.RepairEntityFields | src/bin/fix_nbt_corruption.rs:256-313 | `fix_entity` touches only the item fields, `Item` and a `Passengers` list, and keeps every name |
| NbtFix.QuietEntity | src/bin/fix_nbt_corruption.rs:256-313 | An entity for which no change is reported is unchanged |
| NbtFix.QuietEntities | src/bin/fix_nbt_corruption.rs:296-305 | A list of entities for which no change is reported is unchanged |
| NbtFix.RepairEntityIdempotent | src/bin/fix_nbt_corruption.rs:256-313 | A fixed entity, passengers included, is unchanged by a second pass, which reports no change |
| NbtFix.RepairEntitiesIdempotent | src/bin/fix_nbt_corruption.rs:237-244 | A fixed list of entities is unchanged by a second pass, which reports no change |
| NbtFix.RepairKeepsCustomData | src/bin/fix_nbt_corruption.rs:339-389 | Repairing an item does not change whether it has custom data |
| NbtFix.RepairKeepsDeletion | src/bin/fix_nbt_corruption.rs:194-217 | Fixing an entity does not change whether it is selected for deletion |
| NbtFix.RepairedSurvivorsSurvive | src/bin/fix_nbt_corruption.rs:228-244 | No survivor of `retain` is selected for deletion once fixed |
| NbtFix.FixEntityList | src/bin/fix_nbt_corruption.rs:227-245 | One entity list: the deletions, then the fixes, with the statistics and the change flag |
| NbtFix.FixChunk | src/bin/fix_nbt_corruption.rs:219-254 | `fix_chunk` gives the repaired chunk and its statistics, and rebuilds the chunk exactly when a change was reported |
| NbtFix.FixChunkLists | src/bin/fix_nbt_corruption.rs:226-246 | The loop over `Entities` and `entities` repairs each list and merges the statistics |
| NbtFix.ChunkFieldStatsQuiet | src/bin/fix_nbt_corruption.rs:232-244 | A chunk reports a change exactly when one of its entity lists does |
| NbtFix.QuietChunk | src/bin/fix_nbt_corruption.rs:249-251 | A chunk for which no change is reported is unchanged, so not rebuilding it loses nothing |
| NbtFix.RepairChunkSpec | src/bin/fix_nbt_corruption.rs:219-254 | Only the two entity lists change; each loses exactly its entities to delete, and the rest are fixed in order |
| NbtFix.RepairedEntityList | src/bin/fix_nbt_corruption.rs:228-244 | A fixed entity list has nothing left to delete or fix |
| NbtFix.RepairChunkIdempotent | src/bin/fix_nbt_corruption.rs:219-254 | A fixed chunk is unchanged by a second pass, which reports no change and so does not rebuild it |
| NbtFix.AddChunkCounts | src/bin/fix_nbt_corruption.rs:168-174 | A chunk adds one fixed chunk exactly when it reports a change |
| NbtFix.TallyChunksSpec | src/bin/fix_nbt_corruption.rs:147-175 | A file counts once, with at most one fixed chunk per chunk, and none exactly when no chunk changed |
| NbtFix.ChunkStatsCountNoChunks | src/bin/fix_nbt_corruption.rs:219-254 | A chunk's own statistics never count fixed chunks or files |
| NbtFix.RegionStatsSpec | src/bin/fix_nbt_corruption.rs:146-175 | A region file counts one file, at most one fixed chunk per chunk, and none exactly when no chunk changed |
| NbtFix.RepairChunksSpec | src/bin/fix_nbt_corruption.rs:165-166 | Each chunk of the region is fixed on its own, in place |
| NbtFix.AnyChunkChangedSpec | src/bin/fix_nbt_corruption.rs:162-172 | The file is marked modified exactly when some chunk reported a change |
| NbtFix.QuietRegion | src/bin/fix_nbt_corruption.rs:177-189 | A region none of whose chunks reported a change is unchanged, so not writing it back loses nothing |
| NbtFix.FixRegionChunks | src/bin/fix_nbt_corruption.rs:162-175 | The chunk loop fixes every chunk, tallies the statistics and decides whether the file must be written back |
| NbtFix.FixRegionChunk | src/bin/fix_nbt_corruption.rs:165-175 | One iteration of the chunk loop extends the repaired chunks, the tally and the flag by one chunk |

## Left out

- Compression: zlib and zstd are abstract `Codec` values. `decompress_with_retry` (src/linear.rs:11-41) is one decompression that may fail with DecompressionFailed. Its four attempts and its size limits are not modelled.
- Filesystem I/O is not modelled: memory mapping, `atomic_write`, `set_mtime`, metadata reads, directory creation, `find_region_files`, and the backup copy in `fix_region_file`. What they read is a parameter and what they write is a result.
- Concurrency is not modelled: the rayon parallel loops, the atomics and the parallel reduction of `FixStats` run sequentially here. `NbtFix.MergeMonoid` shows that the order of merging does not matter.
- Progress bars and all `println!`/`eprintln!` output are left out, as are the command-line parsing and the directory checks at the start of `main`.
- `format_bytes`, `get_compression_ratio`, the throughput and the compression-ratio log line use floating point and are left out.
- `fix_entity_uuid` and `fix_entity_position` are left out: the first draws random UUIDs and keeps a set shared across a file, the second works on `f64` positions. In the model the UUID and position counters stay 0.
- NbtFix.FixEntity: does not regenerate UUIDs or move positions, for the reason above, so its statistics leave out those two repairs.
- NBT parsing and serialisation (`parse_nbt`, `from_nbt`, src/nbt.rs) are not part of this model. A chunk is modelled as its parsed NBT value, and the in-place `&mut` edits as functions returning the edited value.
- `fix_region_file`: the choice between the Anvil and Linear codecs, the reads and the write-back are left out; only its chunk loop is modelled (`NbtFix.FixRegionChunks`). The chunks are given as a sequence in the iteration order of the region's map.
- Hash-map iteration order is not modelled. `fix_enchantment_levels` visits the map's names in whatever order the loop picks, and its result does not depend on that order. The chunks of `region.chunks.values_mut()` are given as a sequence in some order.
- Convert.ConvertSingleFile: does not state how the performance counters change when a file is converted; they are stated for skipped files only. The readers and writers state their own counter updates.
- Counter wrap-around is not modelled: the `u64` and `usize` counters of the statistics and the performance counters are unbounded.
- The `Err` arm at src/bin/convert_region_files.rs:191-205 cannot be reached, because every fallible step in the `match` uses `?`. The model returns every failure to the caller, where `main` counts it as an error.
- In Mca2Linear mode with `--verify`, the result of `verify_linear_file` is discarded (src/bin/convert_region_files.rs:170). The model checks the output but ignores the verdict, as the source does.
- Regions.Region.SetChunk: requires the index to be below the length of the timestamp table, because the source panics otherwise.
- A failure of `atomic_write` or `set_mtime` is not modelled. A writer whose bytes were encoded always succeeds, and then updates the counters.
- Chunks stored at slots 1024 to 2047 are dropped by both writers. `read_anvil_region` grows the timestamp table to 2048 entries (src/anvil.rs:131), so `set_chunk` then accepts those slots, but the Anvil and Linear writers loop over slots 0 to 1023 only (src/anvil.rs:218, src/linear.rs:270). The round-trip lemmas recover slots 0 to 1023, which is all the writers emit.
- The `i32` arithmetic `region_x * 32 + (i % 32) as i32` (src/anvil.rs:164-165) is taken to wrap on overflow, as in a release build (`Regions.ChunkX`, `Regions.ChunkZ`). A debug build panics there instead.
- `fix_chunk(chunk, &mut used_uuids)?` (src/bin/fix_nbt_corruption.rs:166) aborts the whole file at the first chunk whose NBT fails to parse or serialise, and the file then returns no statistics and is not written back. That abort path is not modelled, because NBT parsing is not: the chunk loop of `NbtFix.FixRegionChunks` cannot fail.
- `Chunk::size`, `Chunk::as_slice` and `Region::get_chunk` are field reads, and are inlined where they are used.

## Findings

| source | as written | input that shows it | evidently intended | confidence | as-written member | corrected member |
|---|---|---|---|---|---|---|
| src/linear.rs:148-188 | The length check accepts any file of at least 32 bytes, then slices the frame as `[32..len-8]`. | A 32-byte file: signature, version 1, 15 zero bytes, signature. Every check passes, and the slice `[32..24]` panics. | Files shorter than 40 bytes are rejected with InvalidFormat. | not executed | Linear.ShortFilePassesChecks | Linear.CompressedFrame |
| src/linear.rs:272-279 | The writer counts every occupied slot in the header's `chunk_count`, but writes an empty payload with size 0. The reader counts only entries with a nonzero size. | A region with one occupied slot whose chunk data is empty. It is written with count 1 and zero nonempty entries, and reading it fails with InvalidChunkCount. | The header counts the entries written with a nonzero size, so every written region reads back. | not executed | LinearRoundTrip.EmptyPayloadUnreadable | LinearRoundTrip.LinearRoundTripCounted |
