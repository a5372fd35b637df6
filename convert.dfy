/** The batch converter `convert_region_files`: which files it converts, the
    name it gives the output, how each file's outcome is tallied, how the
    elapsed time is rendered and when the process exits with a failure.

    The filesystem is not modelled: everything one conversion observes of it
    (the source name, both metadata records, the source bytes, whether the
    destination directory and file could be created) is a `FileInput`. */
module Convert {
  import opened Common
  import opened Text
  import opened Regions
  import Anvil
  import Linear
  import AnvilRoundTrip

  datatype ConversionMode = Mca2Linear | Linear2Mca

  // ---------------------------------------------------------------------
  // Destination name

  /** The output file name: every ".mca" of the source name becomes ".linear",
      or every ".linear" becomes ".mca". */
  function DestinationName(mode: ConversionMode, sourceName: string): string
  {
    match mode
    case Mca2Linear => ReplaceAll(sourceName, ".mca", ".linear")
    case Linear2Mca => ReplaceAll(sourceName, ".linear", ".mca")
  }

  /** A dot-led numeric field contains no match of a pattern whose second
      character cannot start a number, so replacing resumes after it. */
  lemma ReplaceSkipsField(a: string, rest: string, from: string, to: string)
    requires |from| >= 2 && from[0] == '.'
    requires |a| >= 1 && '.' !in a && a[0] != from[1]
    ensures ReplaceAll("." + a + rest, from, to) == "." + a + ReplaceAll(rest, from, to)
  {
    var s := "." + a + rest;
    assert s[1..] == a + rest;
    ReplaceAfterPlain(a, rest, from, to);
    if |s| >= |from| {
      assert s[..|from|][1] == a[0];
      assert ReplaceAll(s, from, to) == [s[0]] + ReplaceAll(s[1..], from, to);
    } else {
      assert ReplaceAll(s, from, to) == s;
      assert ReplaceAll(rest, from, to) == rest;
    }
  }

  /** Renaming the extension of a name "r.<a>.<b>.<ext>" whose fields hold
      no dot and do not start like the extension leaves the fields alone. */
  lemma RenameFields(a: string, b: string, ext: string, newExt: string)
    requires |ext| >= 1 && |a| >= 1 && |b| >= 1
    requires '.' !in a && '.' !in b && a[0] != ext[0] && b[0] != ext[0]
    ensures ReplaceAll("r" + ("." + a + ("." + b + ("." + ext))), "." + ext, "." + newExt) ==
            "r" + ("." + a + ("." + b + ("." + newExt)))
  {
    ReplaceAfterPlain("r", "." + a + ("." + b + ("." + ext)), "." + ext, "." + newExt);
    ReplaceFields(a, b, "." + ext, "." + newExt);
  }

  lemma ReplaceFields(a: string, b: string, from: string, to: string)
    requires |from| >= 2 && from[0] == '.' && |a| >= 1 && |b| >= 1
    requires '.' !in a && '.' !in b && a[0] != from[1] && b[0] != from[1]
    ensures ReplaceAll("." + a + ("." + b + from), from, to) == "." + a + ("." + b + to)
  {
    ReplaceSkipsField(a, "." + b + from, from, to);
    ReplaceSkipsField(b, from, from, to);
    ReplaceWhole(from, to);
  }

  lemma ReplaceWhole(from: string, to: string)
    requires |from| > 0
    ensures ReplaceAll(from, from, to) == to
  {
    assert from[..|from|] == from && from[|from|..] == [];
    assert ReplaceAll([], from, to) == [];
    assert to + [] == to;
  }

  /** Renaming the extension of a region file name leaves its coordinates in
      place: the numeric fields never contain the pattern. */
  lemma RenameRegionFile(x: i32, z: i32, ext: string, newExt: string)
    requires |ext| >= 1 && !IsDigit(ext[0]) && ext[0] != '-'
    ensures ReplaceAll(RegionFilename(x, z, ext), "." + ext, "." + newExt) == RegionFilename(x, z, newExt)
  {
    var a, b := ShowInt(x), ShowInt(z);
    NoDotInShowInt(x);
    NoDotInShowInt(z);
    NameShape(a, b, ext);
    NameShape(a, b, newExt);
    RenameFields(a, b, ext, newExt);
  }

  lemma NoDotInShowInt(n: int)
    ensures '.' !in ShowInt(n)
  {
    var s := ShowInt(n);
    assert forall k | 0 <= k < |s| :: s[k] != '.';
  }

  lemma NameShape(a: string, b: string, ext: string)
    ensures "r." + a + "." + b + "." + ext == "r" + ("." + a + ("." + b + ("." + ext)))
  {
  }

  /** The output of a region file is the file of the same region in the other
      format, so it names the same region coordinates. */
  lemma DestinationOfRegionFile(x: i32, z: i32)
    ensures DestinationName(Mca2Linear, RegionFilename(x, z, "mca")) == RegionFilename(x, z, "linear")
    ensures DestinationName(Linear2Mca, RegionFilename(x, z, "linear")) == RegionFilename(x, z, "mca")
    ensures ParseFilename(DestinationName(Mca2Linear, RegionFilename(x, z, "mca"))) == Ok((x, z))
    ensures ParseFilename(DestinationName(Linear2Mca, RegionFilename(x, z, "linear"))) == Ok((x, z))
  {
    assert "." + "mca" == ".mca" && "." + "linear" == ".linear";
    RenameRegionFile(x, z, "mca", "linear");
    RenameRegionFile(x, z, "linear", "mca");
    ParseRegionFilename(x, z, "linear");
    ParseRegionFilename(x, z, "mca");
  }

  // ---------------------------------------------------------------------
  // Skip rule

  /** What `fs::metadata` reports of a path: its length and, when the
      platform provides one, its modification time. */
  datatype Metadata = Metadata(len: nat, modified: Option<int>)

  /** `should_convert_file`. A path whose metadata cannot be read is `None`. */
  function ShouldConvertFile(source: Option<Metadata>, dest: Option<Metadata>, skipExisting: bool): (r: Result<bool>)
    ensures r == Ok(true) <==>
              !skipExisting || dest.None? ||
              (source.Some? && source.value.modified.Some? && dest.value.modified.Some? &&
               source.value.modified.value > dest.value.modified.value)
    ensures r.Err? <==>
              skipExisting && dest.Some? &&
              (source.None? || source.value.modified.None? || dest.value.modified.None?)
    ensures r.Err? ==> r.error == Io
  {
    if !skipExisting then Ok(true)
    else match dest
      case None => Ok(true)
      case Some(destMeta) =>
        match source
        case None => Err(Io)
        case Some(sourceMeta) =>
          if sourceMeta.modified.None? || destMeta.modified.None? then Err(Io)
          else Ok(sourceMeta.modified.value > destMeta.modified.value)
  }

  // ---------------------------------------------------------------------
  // Statistics

  /** The five totals of a `ConversionStats`. */
  datatype Totals = Totals(converted: nat, skipped: nat, errors: nat, inputBytes: nat, outputBytes: nat)

  /** `ConversionStats`, updated sequentially in this model. */
  class ConversionStats {
    var converted: nat
    var skipped: nat
    var errors: nat
    var totalInputBytes: nat
    var totalOutputBytes: nat

    constructor ()
      ensures Snapshot() == Totals(0, 0, 0, 0, 0)
    {
      converted, skipped, errors := 0, 0, 0;
      totalInputBytes, totalOutputBytes := 0, 0;
    }

    function Snapshot(): (t: Totals)
      reads this
      ensures t.converted == converted && t.skipped == skipped && t.errors == errors
      ensures t.inputBytes == totalInputBytes && t.outputBytes == totalOutputBytes
    {
      Totals(converted, skipped, errors, totalInputBytes, totalOutputBytes)
    }

    /** `add_converted`: one more file, and both sizes added to the totals. */
    method AddConverted(inputSize: nat, outputSize: nat)
      modifies this
      ensures converted == old(converted) + 1
      ensures totalInputBytes == old(totalInputBytes) + inputSize
      ensures totalOutputBytes == old(totalOutputBytes) + outputSize
      ensures skipped == old(skipped) && errors == old(errors)
    {
      converted := converted + 1;
      totalInputBytes := totalInputBytes + inputSize;
      totalOutputBytes := totalOutputBytes + outputSize;
    }

    /** `add_skipped`: only the skipped counter moves. */
    method AddSkipped()
      modifies this
      ensures skipped == old(skipped) + 1
      ensures converted == old(converted) && errors == old(errors)
      ensures totalInputBytes == old(totalInputBytes) && totalOutputBytes == old(totalOutputBytes)
    {
      skipped := skipped + 1;
    }

    /** `add_error`: only the error counter moves. */
    method AddError()
      modifies this
      ensures errors == old(errors) + 1
      ensures converted == old(converted) && skipped == old(skipped)
      ensures totalInputBytes == old(totalInputBytes) && totalOutputBytes == old(totalOutputBytes)
    {
      errors := errors + 1;
    }
  }

  // ---------------------------------------------------------------------
  // Converting one file

  /** The command-line settings that affect a conversion. */
  datatype Settings = Settings(
    mode: ConversionMode,
    compressionLevel: i32,
    skipExisting: bool,
    verify: bool,
    zlib: Codec,
    zstd: Codec)

  /** What the conversion of one file observes of the filesystem. `sourceName`
      is `None` when the file name is not valid UTF-8; `destWritten` says
      whether writing the output and reading back its metadata succeed;
      `destExternal` is what the re-read of an Anvil output finds in the
      external chunk files. */
  datatype FileInput = FileInput(
    sourceName: Option<string>,
    sourceMeta: Option<Metadata>,
    destMeta: Option<Metadata>,
    sourceBytes: seq<byte>,
    sourceMtime: u64,
    sourceExternal: Anvil.ExternalFiles,
    destDirCreated: bool,
    destWritten: bool,
    destExternal: Anvil.ExternalFiles)

  /** How one file ends up: converted with its two sizes, skipped, or failed. */
  datatype Outcome = Converted(inputSize: nat, outputSize: nat) | Skipped | Failed(error: Error)

  /** `convert_single_file` as a function of what it observes. */
  function ConvertOutcome(s: Settings, f: FileInput): Outcome
  {
    match f.sourceName
    case None => Failed(Io)
    case Some(name) =>
      match ShouldConvertFile(f.sourceMeta, f.destMeta, s.skipExisting)
      case Err(e) => Failed(e)
      case Ok(convert) =>
        if !convert then Skipped
        else if f.sourceMeta.None? then Failed(Io)
        else if f.sourceMeta.value.len == 0 then Skipped
        else if !f.destDirCreated then Failed(Io)
        else TranscodeOutcome(s, f, name)
  }

  /** The read, write and optional re-read of a file that is converted. */
  function TranscodeOutcome(s: Settings, f: FileInput, name: string): Outcome
    requires f.sourceMeta.Some?
  {
    match s.mode
    case Mca2Linear =>
      (match Anvil.DecodeAnvil(name, f.sourceBytes, f.sourceMtime, s.zlib, f.sourceExternal)
       case Err(e) => Failed(e)
       case Ok(d) =>
         match Linear.EncodeLinear(d, s.compressionLevel, s.zstd)
         case Err(e) => Failed(e)
         case Ok(file) =>
           if !f.destWritten then Failed(Io)
           else Converted(f.sourceMeta.value.len, |file|))
    case Linear2Mca =>
      match Linear.DecodeLinear(name, f.sourceBytes, f.sourceMtime, s.zstd)
      case Err(e) => Failed(e)
      case Ok(d) =>
        match Anvil.EncodeAnvil(d, WrapU32(s.compressionLevel), s.zlib, true)
        case Err(e) => Failed(e)
        case Ok(out) =>
          if !f.destWritten then Failed(Io)
          else if !s.verify then Converted(f.sourceMeta.value.len, |out.file|)
          else
            match Anvil.DecodeAnvil(DestinationName(s.mode, name), out.file, d.mtime, s.zlib, f.destExternal)
            case Err(e) => Failed(e)
            case Ok(_) => Converted(f.sourceMeta.value.len, |out.file|)
  }

  /** A file is skipped without being read when the skip rule declines it or
      its source is empty. */
  lemma SkippedWhenDeclinedOrEmpty(s: Settings, f: FileInput)
    requires f.sourceName.Some?
    ensures ShouldConvertFile(f.sourceMeta, f.destMeta, s.skipExisting) == Ok(false) ==>
              ConvertOutcome(s, f) == Skipped
    ensures ShouldConvertFile(f.sourceMeta, f.destMeta, s.skipExisting) == Ok(true) &&
            f.sourceMeta.Some? && f.sourceMeta.value.len == 0 ==>
              ConvertOutcome(s, f) == Skipped
    ensures ConvertOutcome(s, f) == Skipped ==>
              ShouldConvertFile(f.sourceMeta, f.destMeta, s.skipExisting) == Ok(false) ||
              (f.sourceMeta.Some? && f.sourceMeta.value.len == 0)
  {
    if ShouldConvertFile(f.sourceMeta, f.destMeta, s.skipExisting) == Ok(true) &&
       f.sourceMeta.Some? && f.sourceMeta.value.len > 0 && f.destDirCreated {
      TranscodeNeverSkips(s, f, f.sourceName.value);
    }
  }

  lemma TranscodeNeverSkips(s: Settings, f: FileInput, name: string)
    requires f.sourceMeta.Some?
    ensures TranscodeOutcome(s, f, name) != Skipped
  {
  }

  /** With `--verify`, an Anvil output is read back; an ".linear" output is
      checked by `verify_linear_file`, whose verdict is discarded. */
  lemma VerifyAffectsOnlyAnvilOutput(s: Settings, f: FileInput)
    ensures s.mode == Mca2Linear ==>
              ConvertOutcome(s.(verify := true), f) == ConvertOutcome(s.(verify := false), f)
    ensures ConvertOutcome(s.(verify := true), f).Converted? ==> ConvertOutcome(s.(verify := false), f).Converted?
  {
  }

  /** In ".linear" to ".mca" mode with `--verify`, a region file whose output
      is stored faithfully (the external chunk files read back as written, and
      zlib decoding stops at the end of a stream) passes the re-read, so the
      verification turns no successful conversion into an error. */
  lemma AnvilOutputPassesVerify(s: Settings, f: FileInput, x: i32, z: i32, d: RegionData, out: Anvil.AnvilOutput)
    requires s.mode == Linear2Mca && StopsAtStreamEnd(s.zlib)
    requires f.sourceName == Some(RegionFilename(x, z, "linear"))
    requires Linear.DecodeLinear(RegionFilename(x, z, "linear"), f.sourceBytes, f.sourceMtime, s.zstd) == Ok(d)
    requires Anvil.EncodeAnvil(d, WrapU32(s.compressionLevel), s.zlib, true) == Ok(out)
    requires forall w :: w in out.externals ==> f.destExternal(w.chunkX, w.chunkZ) == Some(w.data)
    ensures ConvertOutcome(s.(verify := true), f) == ConvertOutcome(s.(verify := false), f)
  {
    if f.sourceMeta.Some? {
      TranscodePassesVerify(s, f, x, z, d, out);
    }
  }

  lemma TranscodePassesVerify(s: Settings, f: FileInput, x: i32, z: i32, d: RegionData, out: Anvil.AnvilOutput)
    requires s.mode == Linear2Mca && StopsAtStreamEnd(s.zlib) && f.sourceMeta.Some?
    requires Linear.DecodeLinear(RegionFilename(x, z, "linear"), f.sourceBytes, f.sourceMtime, s.zstd) == Ok(d)
    requires Anvil.EncodeAnvil(d, WrapU32(s.compressionLevel), s.zlib, true) == Ok(out)
    requires forall w :: w in out.externals ==> f.destExternal(w.chunkX, w.chunkZ) == Some(w.data)
    ensures TranscodeOutcome(s.(verify := true), f, RegionFilename(x, z, "linear")) ==
            TranscodeOutcome(s.(verify := false), f, RegionFilename(x, z, "linear"))
  {
    var name := RegionFilename(x, z, "linear");
    Linear.DecodeLinearWellFormed(name, f.sourceBytes, f.sourceMtime, s.zstd);
    ParseRegionFilename(x, z, "linear");
    DestinationOfRegionFile(x, z);
    AnvilRoundTrip.AnvilRoundTrip(d, DestinationName(Linear2Mca, name), d.mtime, WrapU32(s.compressionLevel), s.zlib, true, f.destExternal);
  }

  /** `convert_single_file`: decides, reads, writes and re-reads through the
      region codecs, and records a conversion or a skip. A failure is returned
      to the caller and never recorded here: every fallible step inside the
      conversion returns early, so the `Err` arm after it is never reached. */
  method ConvertSingleFile(s: Settings, f: FileInput, stats: ConversionStats, counters: PerformanceCounters)
    returns (r: Result<()>)
    modifies stats, counters
    ensures r.Err? <==> ConvertOutcome(s, f).Failed?
    ensures r.Err? ==> r.error == ConvertOutcome(s, f).error
    ensures stats.converted == old(stats.converted) + (if ConvertOutcome(s, f).Converted? then 1 else 0)
    ensures stats.skipped == old(stats.skipped) + (if ConvertOutcome(s, f).Skipped? then 1 else 0)
    ensures stats.errors == old(stats.errors)
    ensures stats.totalInputBytes == old(stats.totalInputBytes) + InputBytes(ConvertOutcome(s, f))
    ensures stats.totalOutputBytes == old(stats.totalOutputBytes) + OutputBytes(ConvertOutcome(s, f))
    ensures ConvertOutcome(s, f).Skipped? ==> counters.GetStats() == old(counters.GetStats())
  {
    if f.sourceName.None? {
      return Err(Io);
    }
    var name := f.sourceName.value;
    var destName := DestinationName(s.mode, name);
    var convert := ShouldConvertFile(f.sourceMeta, f.destMeta, s.skipExisting);
    if convert.Err? {
      return Err(convert.error);
    }
    if !convert.value {
      stats.AddSkipped();
      return Ok(());
    }
    if f.sourceMeta.None? {
      return Err(Io);
    }
    var sourceSize := f.sourceMeta.value.len;
    if sourceSize == 0 {
      stats.AddSkipped();
      return Ok(());
    }
    if !f.destDirCreated {
      return Err(Io);
    }
    var destSize := Transcode(s, f, name, destName, counters);
    if destSize.Err? {
      return Err(destSize.error);
    }
    stats.AddConverted(sourceSize, destSize.value);
    return Ok(());
  }

  /** The part of `convert_single_file` that reads the source, writes the
      output and, with `--verify`, checks it; the result is the output size. */
  method Transcode(s: Settings, f: FileInput, name: string, destName: string, counters: PerformanceCounters)
    returns (r: Result<nat>)
    requires f.sourceMeta.Some? && destName == DestinationName(s.mode, name)
    modifies counters
    ensures r.Err? <==> TranscodeOutcome(s, f, name).Failed?
    ensures r.Err? ==> r.error == TranscodeOutcome(s, f, name).error
    ensures r.Ok? ==> TranscodeOutcome(s, f, name) == Converted(f.sourceMeta.value.len, r.value)
  {
    match s.mode {
      case Mca2Linear =>
        var region := Anvil.ReadAnvilRegion(name, f.sourceBytes, f.sourceMtime, s.zlib, f.sourceExternal, counters);
        if region.Err? {
          return Err(region.error);
        }
        var written := Linear.WriteLinearRegion(region.value, s.compressionLevel, s.zstd, counters);
        if written.Err? {
          return Err(written.error);
        }
        if !f.destWritten {
          return Err(Io);
        }
        if s.verify {
          var ignored := Linear.VerifyLinearFile(Some(written.value));
        }
        return Ok(|written.value|);
      case Linear2Mca =>
        var region := Linear.ReadLinearRegion(name, f.sourceBytes, f.sourceMtime, s.zstd, counters);
        if region.Err? {
          return Err(region.error);
        }
        var written := Anvil.WriteAnvilRegion(region.value, WrapU32(s.compressionLevel), s.zlib, counters);
        if written.Err? {
          return Err(written.error);
        }
        if !f.destWritten {
          return Err(Io);
        }
        if s.verify {
          var check := Anvil.ReadAnvilRegion(destName, written.value.file, region.value.mtime, s.zlib, f.destExternal, null);
          if check.Err? {
            return Err(check.error);
          }
        }
        return Ok(|written.value.file|);
    }
  }

  // ---------------------------------------------------------------------
  // The batch

  function InputBytes(o: Outcome): nat { if o.Converted? then o.inputSize else 0 }

  function OutputBytes(o: Outcome): nat { if o.Converted? then o.outputSize else 0 }

  /** The outcome of every file of the batch, in order. */
  function Outcomes(s: Settings, files: seq<FileInput>): (os: seq<Outcome>)
    ensures |os| == |files|
    ensures forall i :: 0 <= i < |files| ==> os[i] == ConvertOutcome(s, files[i])
  {
    seq(|files|, i requires 0 <= i < |files| => ConvertOutcome(s, files[i]))
  }

  /** What the statistics record for one outcome: a conversion or a skip is
      recorded by `convert_single_file`, a failure by `main`. */
  function Record(t: Totals, o: Outcome): Totals
  {
    match o
    case Converted(inputSize, outputSize) =>
      t.(converted := t.converted + 1, inputBytes := t.inputBytes + inputSize, outputBytes := t.outputBytes + outputSize)
    case Skipped => t.(skipped := t.skipped + 1)
    case Failed(_) => t.(errors := t.errors + 1)
  }

  /** The totals after recording a sequence of outcomes. */
  function Tally(t: Totals, os: seq<Outcome>): Totals
  {
    if |os| == 0 then t else Record(Tally(t, os[..|os| - 1]), os[|os| - 1])
  }

  /** Every file moves exactly one of the three counters, by one. */
  lemma {:induction false} TallyCountsEveryFile(t: Totals, os: seq<Outcome>)
    ensures Tally(t, os).converted + Tally(t, os).skipped + Tally(t, os).errors ==
            t.converted + t.skipped + t.errors + |os|
  {
    if |os| > 0 {
      TallyCountsEveryFile(t, os[..|os| - 1]);
    }
  }

  /** The error counter grows exactly when some outcome is a failure. */
  lemma {:induction false} TallyErrors(t: Totals, os: seq<Outcome>)
    ensures Tally(t, os).errors > t.errors <==> exists i :: 0 <= i < |os| && os[i].Failed?
    ensures Tally(t, os).errors >= t.errors
  {
    if |os| > 0 {
      var init := os[..|os| - 1];
      TallyErrors(t, init);
      if exists i :: 0 <= i < |init| && init[i].Failed? {
        var i :| 0 <= i < |init| && init[i].Failed?;
        assert os[i] == init[i];
      }
      if exists i :: 0 <= i < |os| && os[i].Failed? {
        var i :| 0 <= i < |os| && os[i].Failed?;
        if i < |init| {
          assert init[i] == os[i];
        }
      }
    }
  }

  /** One iteration of the loop of `main`: convert a file and, when that
      fails, count an error. */
  method ConvertAndRecord(s: Settings, f: FileInput, stats: ConversionStats, counters: PerformanceCounters)
    modifies stats, counters
    ensures stats.Snapshot() == Record(old(stats.Snapshot()), ConvertOutcome(s, f))
  {
    var r := ConvertSingleFile(s, f, stats, counters);
    if r.Err? {
      stats.AddError();
    }
  }

  /** The loop of `main` over the files (run sequentially here): convert each
      file and count an error for each failure. */
  method ConvertFiles(s: Settings, files: seq<FileInput>, stats: ConversionStats, counters: PerformanceCounters)
    modifies stats, counters
    ensures stats.Snapshot() == Tally(old(stats.Snapshot()), Outcomes(s, files))
  {
    ghost var start := stats.Snapshot();
    ghost var os := Outcomes(s, files);
    for i := 0 to |files|
      invariant stats.Snapshot() == Tally(start, os[..i])
    {
      ConvertAndRecord(s, files[i], stats, counters);
      assert os[..i + 1][..i] == os[..i];
    }
    assert os[..|files|] == os;
  }

  /** The exit status: 1 when some file failed, 0 otherwise (including when
      there are no files at all). */
  function ExitStatus(errors: nat): (status: int)
    ensures status == 1 <==> errors > 0
    ensures status == 0 <==> errors == 0
  {
    if errors > 0 then 1 else 0
  }

  /** `main` after the source directory has been listed: converts every file
      with fresh statistics and returns the totals and the exit status. */
  method RunConversion(s: Settings, files: seq<FileInput>, counters: PerformanceCounters)
    returns (totals: Totals, status: int)
    modifies counters
    ensures totals == Tally(Totals(0, 0, 0, 0, 0), Outcomes(s, files))
    ensures totals.converted + totals.skipped + totals.errors == |files|
    ensures status == 1 <==> exists i :: 0 <= i < |files| && ConvertOutcome(s, files[i]).Failed?
    ensures status == 0 <==> forall i :: 0 <= i < |files| ==> !ConvertOutcome(s, files[i]).Failed?
  {
    var stats := new ConversionStats();
    ghost var os := Outcomes(s, files);
    TallyCountsEveryFile(Totals(0, 0, 0, 0, 0), os);
    TallyErrors(Totals(0, 0, 0, 0, 0), os);
    if |files| == 0 {
      return stats.Snapshot(), 0;
    }
    ConvertFiles(s, files, stats, counters);
    totals := stats.Snapshot();
    status := ExitStatus(stats.errors);
  }

  // ---------------------------------------------------------------------
  // Elapsed time

  type Nanos = n: nat | n < 1_000_000_000

  /** A `std::time::Duration`: whole seconds and the nanoseconds beyond them. */
  datatype Duration = Duration(secs: nat, nanos: Nanos)

  /** Hours, minutes of the hour and seconds of the minute. */
  function ClockParts(totalSecs: nat): (parts: (nat, nat, nat))
    ensures parts.0 * 3600 + parts.1 * 60 + parts.2 == totalSecs
    ensures parts.1 < 60 && parts.2 < 60
  {
    var r := totalSecs % 3600;
    assert r % 60 == totalSecs % 60 by {
      assert totalSecs == (totalSecs / 3600 * 60 + r / 60) * 60 + r % 60;
      DivModUnique(totalSecs, 60, totalSecs / 3600 * 60 + r / 60, r % 60);
    }
    (totalSecs / 3600, r / 60, totalSecs % 60)
  }

  /** The clock parts are the only way to write a number of seconds as hours,
      minutes below 60 and seconds below 60. */
  lemma ClockPartsUnique(totalSecs: nat, h: nat, m: nat, sec: nat)
    requires h * 3600 + m * 60 + sec == totalSecs && m < 60 && sec < 60
    ensures ClockParts(totalSecs) == (h, m, sec)
  {
    var (h', m', sec') := ClockParts(totalSecs);
    DivModUnique(totalSecs, 3600, h, m * 60 + sec);
    DivModUnique(totalSecs, 3600, h', m' * 60 + sec');
    DivModUnique(m * 60 + sec, 60, m, sec);
    DivModUnique(m' * 60 + sec', 60, m', sec');
  }

  /** Which of the four renderings `format_duration` chooses. */
  datatype DurationText =
    | HoursText(hours: nat, minutes: nat, seconds: nat)
    | MinutesText(minutes: nat, seconds: nat)
    | SecondsText(seconds: nat, millis: nat)
    | MillisText(millis: nat)

  function DurationForm(d: Duration): (t: DurationText)
    ensures t.HoursText? <==> d.secs >= 3600
    ensures t.MinutesText? <==> 60 <= d.secs < 3600
    ensures t.SecondsText? <==> 0 < d.secs < 60
    ensures t.MillisText? <==> d.secs == 0
    ensures t.HoursText? ==> t.hours * 3600 + t.minutes * 60 + t.seconds == d.secs && t.minutes < 60 && t.seconds < 60
    ensures t.MinutesText? ==> t.minutes * 60 + t.seconds == d.secs && t.seconds < 60
    ensures t.SecondsText? ==> t.seconds == d.secs && t.millis * 1_000_000 <= d.nanos < (t.millis + 1) * 1_000_000
    ensures t.MillisText? ==> t.millis < 1000 && t.millis * 1_000_000 <= d.nanos < (t.millis + 1) * 1_000_000
  {
    var (h, m, sec) := ClockParts(d.secs);
    var millis := d.nanos / 1_000_000;
    if h > 0 then HoursText(h, m, sec)
    else if m > 0 then MinutesText(m, sec)
    else if sec > 0 then SecondsText(sec, millis)
    else MillisText(d.secs * 1000 + millis)
  }

  /** `{:03}`: three decimal digits with leading zeros. */
  function Pad3(n: nat): (r: string)
    requires n < 1000
    ensures |r| == 3 && AllDigits(r) && DigitsValue(r) == n
  {
    var hundreds, rest := n / 100, n % 100;
    var r := [DigitChar(hundreds), DigitChar(rest / 10), DigitChar(rest % 10)];
    assert r[..2][..1][..0] == [];
    assert DigitsValue(r[..2][..1]) == hundreds;
    assert DigitsValue(r[..2]) == hundreds * 10 + rest / 10;
    assert DigitsValue(r) == (hundreds * 10 + rest / 10) * 10 + rest % 10;
    r
  }

  function RenderDuration(t: DurationText): string
  {
    match t
    case HoursText(h, m, sec) => ShowNat(h) + "h " + ShowNat(m) + "m " + ShowNat(sec) + "s"
    case MinutesText(m, sec) => ShowNat(m) + "m " + ShowNat(sec) + "s"
    case SecondsText(sec, millis) => ShowNat(sec) + "." + (if millis < 1000 then Pad3(millis) else ShowNat(millis)) + "s"
    case MillisText(millis) => ShowNat(millis) + "ms"
  }

  /** `format_duration`. The text always ends in "s", and in "ms" exactly
      when less than a second has elapsed; each form prints the clock parts
      of the elapsed seconds, the whole milliseconds of the fraction
      (`subsec_millis`) as three digits, or the whole elapsed milliseconds
      (`as_millis`). */
  function FormatDuration(d: Duration): (text: string)
    ensures |text| >= 3 && text[|text| - 1] == 's'
    ensures text[|text| - 2] == 'm' <==> d.secs == 0
    ensures d.secs >= 3600 ==>
      text == ShowNat(d.secs / 3600) + "h " + ShowNat(d.secs % 3600 / 60) + "m " + ShowNat(d.secs % 60) + "s"
    ensures 60 <= d.secs < 3600 ==>
      text == ShowNat(d.secs / 60) + "m " + ShowNat(d.secs % 60) + "s"
    ensures 0 < d.secs < 60 ==>
      text == ShowNat(d.secs) + "." + Pad3(d.nanos / 1_000_000) + "s"
    ensures d.secs == 0 ==> text == ShowNat(d.nanos / 1_000_000) + "ms"
  {
    var t := DurationForm(d);
    var text := RenderDuration(t);
    assert IsDigit(text[|text| - 2]) <==> !t.MillisText?;
    match t
    case HoursText(h, m, sec) =>
      ClockPartsUnique(d.secs, h, m, sec);
      text
    case MinutesText(m, sec) =>
      DivModUnique(d.secs, 60, m, sec);
      text
    case SecondsText(_, millis) =>
      DivModUnique(d.nanos, 1_000_000, millis, d.nanos - millis * 1_000_000);
      text
    case MillisText(millis) =>
      DivModUnique(d.nanos, 1_000_000, millis, d.nanos - millis * 1_000_000);
      text
  }
}
