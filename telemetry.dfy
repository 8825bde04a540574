/** The pipeline object: one video, its probe result and the names it may
    rename the video to, then the demux of the telemetry stream and the four
    conversions, each skipped when its output exists and reprocessing is not
    forced. */
module Telemetry {
  import opened Wrappers
  import opened Errors
  import opened Text
  import opened Patterns
  import opened Timestamp
  import opened Probe
  import opened Paths
  import opened Os

  /** The executables named by the configuration's `gopro2` section. */
  datatype Executables = Executables(toGpx: string, toJson: string, gpmdInfo: string, toCsv: string, gps2kml: string)

  /** The converted outputs, in the order they are produced. */
  datatype Format = Gpx | Json | Csv | Kml

  /** The order `extract_all` converts in. */
  const Order: seq<Format> := [Gpx, Json, Csv, Kml]

  function Extension(f: Format): string {
    match f
    case Gpx => ".gpx"
    case Json => ".json"
    case Csv => ".csv"
    case Kml => ".kml"
  }

  function Converter(tools: Executables, f: Format): string {
    match f
    case Gpx => tools.toGpx
    case Json => tools.toJson
    case Csv => tools.toCsv
    case Kml => tools.gps2kml
  }

  /** The four outputs of a video are four different files. */
  lemma {:induction false} OutputsDistinct(cwd: string, videoDir: string, filename: string)
    ensures forall f: Format, g: Format :: f != g ==>
      AbsPath(cwd, OutputPath(videoDir, filename, Extension(f))) != AbsPath(cwd, OutputPath(videoDir, filename, Extension(g)))
  {
    forall f: Format, g: Format | f != g
      ensures AbsPath(cwd, OutputPath(videoDir, filename, Extension(f))) != AbsPath(cwd, OutputPath(videoDir, filename, Extension(g)))
    {
      OutputPathsDistinct(cwd, videoDir, filename, Extension(f), Extension(g));
    }
  }

  /** The filename with the camera serial in front. */
  function SerialName(serial: string, filename: string): string {
    serial + "_" + filename
  }

  /** The filename with `_<timestamp>` before every ".MP4". */
  function TimestampedName(filename: string, timestamp: string): string {
    ReplaceAll(filename, ".MP4", "_" + timestamp + ".MP4")
  }

  /** Once a serial the table recognises is in front, the filename contains
      a serial, so serial prefixing leaves it alone from then on. */
  lemma {:induction false} SerialNameIsRecognised(serial: string, filename: string)
    requires SerialSearch(serial).Some?
    ensures SerialSearch(SerialName(serial, filename)).Some?
  {
    assert SerialName(serial, filename) == serial + ("_" + filename);
    SerialSearchExtends(serial, "_" + filename);
  }

  /** A filename with ".MP4" contains the timestamp once it has been
      suffixed, so timestamp suffixing leaves it alone from then on. */
  lemma {:induction false} TimestampedNameHasTimestamp(filename: string, timestamp: string)
    requires Contains(filename, ".MP4")
    ensures Contains(TimestampedName(filename, timestamp), timestamp)
  {
    var replacement := "_" + timestamp + ".MP4";
    assert replacement[1..] == timestamp + ".MP4";
    assert (timestamp + ".MP4")[..|timestamp|] == timestamp;
    assert Contains(replacement[1..], timestamp);
    ReplaceIntroduces(filename, ".MP4", replacement, timestamp);
  }

  /** A filename without ".MP4" is not changed by timestamp suffixing. */
  lemma {:induction false} TimestampedNameWithoutExtension(filename: string, timestamp: string)
    requires !Contains(filename, ".MP4")
    ensures TimestampedName(filename, timestamp) == filename
  {
    ReplaceAbsent(filename, ".MP4", "_" + timestamp + ".MP4");
  }

  /** A video named by the camera, `<recording id>.MP4`, takes the
      timestamp just before its extension. */
  lemma {:induction false} TimestampedCameraName(id: string, timestamp: string)
    requires IsRecordingId(id)
    ensures TimestampedName(id + ".MP4", timestamp) == id + "_" + timestamp + ".MP4"
  {
    assert '.' !in id by {
      forall j | 0 <= j < |id| ensures id[j] != '.' {
        if j >= 4 {
          assert id[4..][j - 4] == id[j];
        }
      }
    }
    ReplaceAtEnd(id, ".MP4", "_" + timestamp + ".MP4");
    ConcatAssoc(id, "_" + timestamp, ".MP4");
    ConcatAssoc(id, "_", timestamp);
  }

  /** "GH010042.MP4" with the timestamp of 2021-06-01 14:05:30 becomes
      "GH010042_2021-06-01T140530.MP4". */
  lemma {:induction false} TimestampedNameExample()
    ensures TimestampedName("GH010042" + ".MP4", "2021-06-01T140530") == "GH010042" + "_2021-06-01T140530.MP4"
  {
    assert IsRecordingId("GH010042");
    TimestampedCameraName("GH010042", "2021-06-01T140530");
  }

  /** A camera-named video whose device-info stream holds a HERO6 Black
      serial is renamed to `<serial>_<filename>`; the filename is set
      whether or not the rename of the file then succeeds. */
  lemma {:induction false} SerialRenameExample(c: Setup, s: Snapshot, header: seq<byte>, rest: seq<byte>)
    requires s.filename == "GH010042" + ".MP4" && |header| == HeaderLength
    ensures SerialRename(c, s, 0, header + [67, 51, 50, 50, 49, 50, 51, 52, 53, 54, 55, 56, 57, 48] + rest).after.filename
            == "C3221234567890" + "_" + ("GH010042" + ".MP4")
  {
    ShortNameHasNoSerial(s.filename);
    DeviceSerialExample(header, rest);
  }

  /** `str.replace` on the paths rewrites every occurrence of the old
      filename, so a directory named after the file is renamed too. */
  lemma {:induction false} RenameRewritesDirectoryToo(filename: string, newName: string)
    requires filename != [] && '/' !in filename
    ensures ReplaceAll("/" + filename + "/" + filename, filename, newName) == "/" + newName + "/" + newName
  {
    assert "/" + filename + "/" + filename == ("/" + filename) + ['/'] + filename;
    ReplaceAcrossSeparator("/" + filename, '/', filename, filename, newName);
    assert "/" + filename == [] + ['/'] + filename;
    ReplaceAcrossSeparator([], '/', filename, filename, newName);
    assert !Contains([], filename);
    ReplaceLeading(filename, [], newName);
    assert filename + [] == filename && newName + [] == newName;
  }

  /** A rename rewrites the video path and the telemetry path in their last
      component only, when the old filename is their last component and
      occurs nowhere in their directory parts. */
  lemma {:induction false} RenameRewritesLastComponent(videoDirPart: string, rawDirPart: string, filename: string, newName: string)
    requires videoDirPart == [] || videoDirPart[|videoDirPart| - 1] == '/'
    requires rawDirPart == [] || rawDirPart[|rawDirPart| - 1] == '/'
    requires filename != [] && '/' !in filename && !Contains(".bin", filename)
    requires !Contains(videoDirPart, filename) && !Contains(rawDirPart, filename)
    ensures ReplaceAll(videoDirPart + filename, filename, newName) == videoDirPart + newName
    ensures ReplaceAll(TelemetryPath(rawDirPart + filename), filename, newName) == TelemetryPath(rawDirPart + newName)
  {
    assert !Contains([], filename);
    RenameLastComponent(videoDirPart, filename, [], newName);
    assert videoDirPart + filename + [] == videoDirPart + filename;
    assert videoDirPart + newName + [] == videoDirPart + newName;
    RenameLastComponent(rawDirPart, filename, ".bin", newName);
    assert TelemetryPath(rawDirPart + filename) == rawDirPart + filename + ".bin";
  }

  /** The renames after opening: when the filename occurs in the resolved
      video path only as its last component, and not in ".bin", the video
      path and the telemetry path keep their directories and take the new
      name. */
  lemma {:induction false} RenameOfOpenedVideo(cwd: string, rawPath: string, newName: string)
    requires Basename(rawPath) != [] && !Contains(".bin", Basename(rawPath))
    requires !Contains(ResolvedPrefix(cwd, rawPath) + DirPart(rawPath), Basename(rawPath))
    ensures ReplaceAll(AbsPath(cwd, rawPath), Basename(rawPath), newName)
         == ResolvedPrefix(cwd, rawPath) + DirPart(rawPath) + newName
    ensures ReplaceAll(TelemetryPath(rawPath), Basename(rawPath), newName)
         == TelemetryPath(DirPart(rawPath) + newName)
  {
    var prefix, dir, name := ResolvedPrefix(cwd, rawPath), DirPart(rawPath), Basename(rawPath);
    AbsPathSplit(cwd, rawPath);
    PathSplit(rawPath);
    if Contains(dir, name) {
      ContainsConcatRight(prefix, dir, name);
    }
    RenameRewritesLastComponent(prefix + dir, dir, name, newName);
  }

  // ----- The steps, as functions of the state they start from -----

  /** What the object fixes when it is made. No step changes it. */
  datatype Setup = Setup(cwd: AbsoluteDir, reprocess: bool, streams: seq<Stream>, tools: Executables, videoDir: string)

  /** What the steps read and change: the names the object holds, the
      resolved paths of the files on disk, and the commands started so far. */
  datatype Snapshot = Snapshot(filename: string, videoPath: string, telemetryPath: string,
                               files: set<string>, history: seq<seq<string>>)

  /** A step's outcome and the state it leaves. */
  datatype Step = Step(outcome: Outcome<Error>, after: Snapshot)

  /** What the outside world answers during a run: the exit codes of the
      tools, the bytes of the device-info stream and the parsed creation
      time. */
  datatype Inputs = Inputs(fdscExitCode: int, deviceInfo: seq<byte>, creationTime: DateTime,
                           telemetryExitCode: int, conversionExitCodes: Format -> int)

  /** `os.path.isfile(p)`. */
  predicate IsFileIn(c: Setup, s: Snapshot, p: string) {
    AbsPath(c.cwd, p) in s.files
  }

  /** `os.path.join(self.video_dir, self.filename + ext)`. */
  function OutputOf(c: Setup, s: Snapshot, f: Format): string {
    OutputPath(c.videoDir, s.filename, Extension(f))
  }

  function ConverterCommand(c: Setup, s: Snapshot, f: Format): seq<string> {
    [Converter(c.tools, f), "-i", s.telemetryPath, "-o", OutputOf(c, s, f)]
  }

  function TelemetryCommand(c: Setup, s: Snapshot): seq<string> {
    FfmpegCommand(s.videoPath, FirstWithTag(c.streams, TelemetryTag), s.telemetryPath)
  }

  /** The temporary file the device-info stream is copied to. */
  function DeviceInfoPath(s: Snapshot): string {
    s.videoPath + "_fdsc.bin"
  }

  function DeviceInfoCommand(c: Setup, s: Snapshot): seq<string> {
    FfmpegCommand(s.videoPath, FirstWithTag(c.streams, DeviceInfoTag), DeviceInfoPath(s))
  }

  /** The conversion to `f` will run its tool. */
  predicate Pending(c: Setup, s: Snapshot, f: Format) {
    ShouldRun(c.reprocess, IsFileIn(c, s, OutputOf(c, s, f)))
  }

  /** The demux of the telemetry stream will run. */
  predicate DemuxPending(c: Setup, s: Snapshot) {
    ShouldRun(c.reprocess, IsFileIn(c, s, s.telemetryPath))
  }

  /** `call_subprocess` of a tool that writes `output` when it succeeds. */
  function ToolRun(c: Setup, s: Snapshot, command: seq<string>, output: string, exitCode: int): (r: Step)
    ensures r.after.history == s.history + [command]
    ensures r.outcome.Pass? <==> exitCode == 0
    ensures r.outcome.Pass? ==> IsFileIn(c, r.after, output)
    ensures r.outcome.Fail? ==> r.outcome.error == ToolFailed(exitCode, command)
    ensures s.files <= r.after.files
  {
    var started := s.(history := s.history + [command]);
    if exitCode == 0 then Step(Pass, started.(files := s.files + {AbsPath(c.cwd, output)}))
    else Step(Fail(ToolFailed(exitCode, command)), started)
  }

  /** `retrieve_camera_serial`: demux the device-info stream to a temporary
      file, read 14 bytes after an 87-byte header, decode them, delete the
      file. A decoding failure leaves the file behind. */
  function CameraSerial(c: Setup, s: Snapshot, exitCode: int, deviceInfo: seq<byte>): (r: (Result<string, Error>, Snapshot))
    ensures r.1.history == s.history + [DeviceInfoCommand(c, s)]
    ensures r.0.Ok? <==> exitCode == 0 && DeviceSerial(deviceInfo).Some?
    ensures r.0.Ok? ==> r.0.value == DeviceSerial(deviceInfo).value
  {
    var demuxed := ToolRun(c, s, DeviceInfoCommand(c, s), DeviceInfoPath(s), exitCode);
    if demuxed.outcome.Fail? then (Err(demuxed.outcome.error), demuxed.after)
    else match DeviceSerial(deviceInfo)
      case None => (Err(DecodeFailed), demuxed.after)
      case Some(serial) => (Ok(serial), demuxed.after.(files := demuxed.after.files - {AbsPath(c.cwd, DeviceInfoPath(s))}))
  }

  /** Renaming the video to `newName`: the filename is set first, then
      `os.rename` of the video path, then the two paths with every
      occurrence of the old filename replaced. A failed rename leaves the
      new filename beside the old paths. */
  function Renamed(c: Setup, s: Snapshot, newName: string): (r: Step)
    ensures r.after.filename == newName && r.after.history == s.history
    ensures r.outcome.Pass? <==> IsFileIn(c, s, s.videoPath)
    ensures r.outcome.Pass? ==> IsFileIn(c, r.after, r.after.videoPath)
  {
    var newVideoPath := ReplaceAll(s.videoPath, s.filename, newName);
    if IsFileIn(c, s, s.videoPath) then
      Step(Pass, s.(filename := newName, videoPath := newVideoPath,
                    telemetryPath := ReplaceAll(s.telemetryPath, s.filename, newName),
                    files := s.files - {AbsPath(c.cwd, s.videoPath)} + {AbsPath(c.cwd, newVideoPath)}))
    else Step(Fail(FileNotFound(s.videoPath)), s.(filename := newName))
  }

  /** `process_prepend_filename_with_serial`: nothing happens when a serial
      is already in the filename; otherwise the serial from the device-info
      stream goes in front of it. */
  function SerialRename(c: Setup, s: Snapshot, exitCode: int, deviceInfo: seq<byte>): Step {
    if SerialSearch(s.filename).Some? then Step(Pass, s)
    else
      var retrieved := CameraSerial(c, s, exitCode, deviceInfo);
      if retrieved.0.Err? then Step(Fail(retrieved.0.error), retrieved.1)
      else Renamed(c, retrieved.1, SerialName(retrieved.0.value, s.filename))
  }

  /** `append_filename_with_timestamp`: nothing happens when the timestamp
      is already in the filename; otherwise it goes before every ".MP4". */
  function TimestampRename(c: Setup, s: Snapshot, creationTime: DateTime): Step
    requires ValidDateTime(creationTime)
  {
    var timestamp := FormatTimestamp(creationTime);
    if Contains(s.filename, timestamp) then Step(Pass, s)
    else Renamed(c, s, TimestampedName(s.filename, timestamp))
  }

  /** `extract_telemetry`: demux the "gpmd" stream into the telemetry path
      unless it exists and reprocessing is not forced. */
  function Demux(c: Setup, s: Snapshot, exitCode: int): (r: Step)
    ensures r.outcome.Pass? ==> IsFileIn(c, r.after, r.after.telemetryPath)
  {
    if DemuxPending(c, s) then ToolRun(c, s, TelemetryCommand(c, s), s.telemetryPath, exitCode)
    else Step(Pass, s)
  }

  /** `extract_gpx`, `extract_json`, `extract_csv`, `extract_kml`: run the
      format's converter on the telemetry binary unless its output exists
      and reprocessing is not forced. */
  function ConvertStep(c: Setup, s: Snapshot, f: Format, exitCode: int): (r: Step)
    ensures r.outcome.Pass? ==> IsFileIn(c, r.after, OutputOf(c, r.after, f))
  {
    if Pending(c, s, f) then ToolRun(c, s, ConverterCommand(c, s, f), OutputOf(c, s, f), exitCode)
    else Step(Pass, s)
  }

  /** The conversions to `fmts` in order; the first failure ends them. */
  function Conversions(c: Setup, s: Snapshot, fmts: seq<Format>, exitCodes: Format -> int): Step
    decreases |fmts|
  {
    if fmts == [] then Step(Pass, s)
    else
      var converted := ConvertStep(c, s, fmts[0], exitCodes(fmts[0]));
      if converted.outcome.Fail? then converted else Conversions(c, converted.after, fmts[1..], exitCodes)
  }

  /** The optional renames of the constructor, serial first; a failure
      skips the rest. */
  function Renames(c: Setup, s: Snapshot, prependSerial: bool, appendTimestamp: bool, inputs: Inputs): Step
    requires ValidDateTime(inputs.creationTime)
  {
    var serial := if prependSerial then SerialRename(c, s, inputs.fdscExitCode, inputs.deviceInfo) else Step(Pass, s);
    if serial.outcome.Fail? || !appendTimestamp then serial
    else TimestampRename(c, serial.after, inputs.creationTime)
  }

  /** `extract_telemetry` then `extract_all`; a failed demux ends it. */
  function Extraction(c: Setup, s: Snapshot, inputs: Inputs): Step {
    var demuxed := Demux(c, s, inputs.telemetryExitCode);
    if demuxed.outcome.Fail? then demuxed
    else Conversions(c, demuxed.after, Order, inputs.conversionExitCodes)
  }

  /** The constructor after its checks: the renames, then the extraction;
      the first failure ends the run. */
  function Stages(c: Setup, s: Snapshot, prependSerial: bool, appendTimestamp: bool, inputs: Inputs): Step
    requires ValidDateTime(inputs.creationTime)
  {
    var renamed := Renames(c, s, prependSerial, appendTimestamp, inputs);
    if renamed.outcome.Fail? then renamed else Extraction(c, renamed.after, inputs)
  }

  /** The constructor's checks in order: the video must be a file, the probe
      must have succeeded and found a GoPro stream, and the filename must
      hold a recording id, which is the result. */
  function OpenCheck(rawPath: string, probe: Option<ProbeDocument>, cwd: string, files: set<string>): (r: Result<string, Error>)
    ensures r.Ok? <==> && AbsPath(cwd, rawPath) in files && probe.Some? && GoProCheck(rawPath, probe.value.streams) == Pass
                       && exists i: nat :: RecordingIdAt(Basename(rawPath), i)
  {
    if AbsPath(cwd, rawPath) !in files then Err(NotAFile(rawPath))
    else if probe.None? then Err(ProbeFailed)
    else if GoProCheck(rawPath, probe.value.streams).Fail? then Err(GoProCheck(rawPath, probe.value.streams).error)
    else GetBasename(Basename(rawPath), AbsPath(cwd, rawPath))
  }

  /** The fixed attributes the constructor sets. */
  function InitialSetup(rawPath: string, reprocess: bool, tools: Executables, streams: seq<Stream>, cwd: AbsoluteDir): Setup {
    Setup(cwd, reprocess, streams, tools, ParentDir(AbsPath(cwd, rawPath)))
  }

  /** The names the constructor sets: the basename, the resolved video path,
      and the telemetry binary beside the path as given. */
  function InitialSnapshot(rawPath: string, cwd: string, files: set<string>, history: seq<seq<string>>): Snapshot {
    Snapshot(Basename(rawPath), AbsPath(cwd, rawPath), TelemetryPath(rawPath), files, history)
  }

  // ----- What the steps promise -----

  /** The position of `f` in `Order`: every format is converted. */
  function IndexOf(f: Format): (i: nat)
    ensures i < |Order| && Order[i] == f
  {
    match f
    case Gpx => 0
    case Json => 1
    case Csv => 2
    case Kml => 3
  }

  /** The conversion to `f` runs and fails. */
  predicate Fails(c: Setup, s: Snapshot, f: Format, exitCodes: Format -> int) {
    Pending(c, s, f) && exitCodes(f) != 0
  }

  /** The position in `fmts` of the first conversion that runs and fails,
      or `|fmts|` when none does. */
  function FirstFailure(c: Setup, s: Snapshot, fmts: seq<Format>, exitCodes: Format -> int): (k: nat)
    ensures k <= |fmts|
    decreases |fmts|
  {
    if fmts == [] || Fails(c, s, fmts[0], exitCodes) then 0
    else FirstFailure(c, s, fmts[1..], exitCodes) + 1
  }

  /** `FirstFailure` is the first: the conversion there fails and none
      before it does. */
  lemma {:induction false} FirstFailureIsFirst(c: Setup, s: Snapshot, fmts: seq<Format>, exitCodes: Format -> int)
    ensures var k := FirstFailure(c, s, fmts, exitCodes);
      && (k < |fmts| ==> Fails(c, s, fmts[k], exitCodes))
      && forall j :: 0 <= j < k ==> !Fails(c, s, fmts[j], exitCodes)
  {
    if FirstFailure(c, s, fmts, exitCodes) < |fmts| {
      FirstFailureFails(c, s, fmts, exitCodes);
    }
    forall j | 0 <= j < FirstFailure(c, s, fmts, exitCodes) ensures !Fails(c, s, fmts[j], exitCodes) {
      BeforeFirstFailure(c, s, fmts, exitCodes, j);
    }
  }

  /** The conversion at `FirstFailure`, if any, fails. */
  lemma {:induction false} FirstFailureFails(c: Setup, s: Snapshot, fmts: seq<Format>, exitCodes: Format -> int)
    requires FirstFailure(c, s, fmts, exitCodes) < |fmts|
    ensures Fails(c, s, fmts[FirstFailure(c, s, fmts, exitCodes)], exitCodes)
    decreases |fmts|
  {
    if !Fails(c, s, fmts[0], exitCodes) {
      FirstFailureFails(c, s, fmts[1..], exitCodes);
      assert fmts[FirstFailure(c, s, fmts, exitCodes)] == fmts[1..][FirstFailure(c, s, fmts[1..], exitCodes)];
    }
  }

  /** No conversion before `FirstFailure` fails. */
  lemma {:induction false} BeforeFirstFailure(c: Setup, s: Snapshot, fmts: seq<Format>, exitCodes: Format -> int, j: nat)
    requires j < FirstFailure(c, s, fmts, exitCodes)
    ensures !Fails(c, s, fmts[j], exitCodes)
    decreases j
  {
    if j > 0 {
      BeforeFirstFailure(c, s, fmts[1..], exitCodes, j - 1);
      assert fmts[j] == fmts[1..][j - 1];
    }
  }

  /** The commands of the conversions among `fmts` that run, in order. */
  function RunCommands(c: Setup, s: Snapshot, fmts: seq<Format>): seq<seq<string>>
    decreases |fmts|
  {
    if fmts == [] then []
    else (if Pending(c, s, fmts[0]) then [ConverterCommand(c, s, fmts[0])] else []) + RunCommands(c, s, fmts[1..])
  }

  /** The resolved outputs of the conversions among `fmts` that run. */
  function Written(c: Setup, s: Snapshot, fmts: seq<Format>): set<string>
    decreases |fmts|
  {
    if fmts == [] then {}
    else (if Pending(c, s, fmts[0]) then {AbsPath(c.cwd, OutputOf(c, s, fmts[0]))} else {}) + Written(c, s, fmts[1..])
  }

  /** The command of the failing conversion at `k`, if there is one. */
  function Attempted(c: Setup, s: Snapshot, fmts: seq<Format>, k: nat): seq<seq<string>> {
    if k < |fmts| then [ConverterCommand(c, s, fmts[k])] else []
  }

  lemma {:induction false} WrittenHas(c: Setup, s: Snapshot, fmts: seq<Format>, i: nat)
    requires i < |fmts| && Pending(c, s, fmts[i])
    ensures AbsPath(c.cwd, OutputOf(c, s, fmts[i])) in Written(c, s, fmts)
    decreases |fmts|
  {
    if i > 0 {
      assert fmts[1..][i - 1] == fmts[i];
      WrittenHas(c, s, fmts[1..], i - 1);
    }
  }

  /** What `ConversionsFrom` states of `fmts` from `s`, judged by `r`. */
  predicate ConvertedAsJudged(c: Setup, r: Snapshot, s: Snapshot, fmts: seq<Format>, exitCodes: Format -> int) {
    var k := FirstFailure(c, r, fmts, exitCodes);
    Conversions(c, s, fmts, exitCodes) == Step(
      if k < |fmts| then Fail(ToolFailed(exitCodes(fmts[k]), ConverterCommand(c, r, fmts[k]))) else Pass,
      s.(history := s.history + RunCommands(c, r, fmts[..k]) + Attempted(c, r, fmts, k),
         files := s.files + Written(c, r, fmts[..k])))
  }

  /** `s` and `r` agree on the names and on whether the output of `f`
      exists. */
  predicate AgreeOn(c: Setup, r: Snapshot, s: Snapshot, f: Format) {
    && s.filename == r.filename && s.telemetryPath == r.telemetryPath
    && (IsFileIn(c, s, OutputOf(c, r, f)) <==> IsFileIn(c, r, OutputOf(c, r, f)))
  }

  /** The step of `ConversionsFrom` where the first conversion fails. */
  lemma {:induction false} FirstConversionFails(c: Setup, r: Snapshot, s: Snapshot, fmts: seq<Format>, exitCodes: Format -> int)
    requires fmts != [] && AgreeOn(c, r, s, fmts[0]) && Fails(c, r, fmts[0], exitCodes)
    ensures ConvertedAsJudged(c, r, s, fmts, exitCodes)
  {
    var f := fmts[0];
    assert OutputOf(c, s, f) == OutputOf(c, r, f) && Pending(c, s, f);
    assert ConverterCommand(c, s, f) == ConverterCommand(c, r, f);
    assert FirstFailure(c, r, fmts, exitCodes) == 0;
    assert fmts[..0] == [];
    assert s.history + [] + [ConverterCommand(c, r, f)] == s.history + [ConverterCommand(c, r, f)];
  }

  /** The step of `ConversionsFrom` where the first conversion passes and
      the rest are as judged from the state it leaves. */
  lemma {:induction false} FirstConversionPasses(c: Setup, r: Snapshot, s: Snapshot, fmts: seq<Format>, exitCodes: Format -> int)
    requires fmts != [] && AgreeOn(c, r, s, fmts[0]) && !Fails(c, r, fmts[0], exitCodes)
    requires ConvertedAsJudged(c, r, ConvertStep(c, s, fmts[0], exitCodes(fmts[0])).after, fmts[1..], exitCodes)
    ensures ConvertedAsJudged(c, r, s, fmts, exitCodes)
  {
    var f, rest := fmts[0], fmts[1..];
    assert OutputOf(c, s, f) == OutputOf(c, r, f) && Pending(c, s, f) == Pending(c, r, f);
    assert ConverterCommand(c, s, f) == ConverterCommand(c, r, f);
    var s1 := ConvertStep(c, s, f, exitCodes(f)).after;
    var step := if Pending(c, r, f) then [ConverterCommand(c, r, f)] else [];
    assert s1.history == s.history + step;
    var k' := FirstFailure(c, r, rest, exitCodes);
    var k := k' + 1;
    assert FirstFailure(c, r, fmts, exitCodes) == k;
    assert fmts[..k][0] == f && fmts[..k][1..] == rest[..k'];
    assert RunCommands(c, r, fmts[..k]) == step + RunCommands(c, r, rest[..k']);
    assert Written(c, r, fmts[..k]) == (if Pending(c, r, f) then {AbsPath(c.cwd, OutputOf(c, r, f))} else {}) + Written(c, r, rest[..k']);
    assert Attempted(c, r, fmts, k) == Attempted(c, r, rest, k');
    ConcatAssoc(s.history, step, RunCommands(c, r, rest[..k']));
  }

  /** The conversions to `fmts` from `s`, judged by a state `r` that agrees
      with `s` on the names and on which outputs exist: they report the first
      conversion that runs and fails, start the commands of those that run up
      to it, and write the outputs of those that run before it. */
  lemma {:induction false} ConversionsFrom(c: Setup, r: Snapshot, s: Snapshot, fmts: seq<Format>, exitCodes: Format -> int)
    requires forall i :: 0 <= i < |fmts| ==> AgreeOn(c, r, s, fmts[i])
    requires forall i, j :: 0 <= i < j < |fmts| ==>
      AbsPath(c.cwd, OutputOf(c, r, fmts[i])) != AbsPath(c.cwd, OutputOf(c, r, fmts[j]))
    ensures ConvertedAsJudged(c, r, s, fmts, exitCodes)
    decreases |fmts|
  {
    if fmts == [] {
      assert fmts[..0] == [];
      assert s.history + [] + [] == s.history;
    } else if Fails(c, r, fmts[0], exitCodes) {
      FirstConversionFails(c, r, s, fmts, exitCodes);
    } else {
      var rest := fmts[1..];
      var s1 := ConvertStep(c, s, fmts[0], exitCodes(fmts[0])).after;
      assert AgreeOn(c, r, s, fmts[0]);
      forall i | 0 <= i < |rest| ensures AgreeOn(c, r, s1, rest[i]) {
        assert rest[i] == fmts[i + 1];
        assert AgreeOn(c, r, s, fmts[i + 1]);
        assert AbsPath(c.cwd, OutputOf(c, r, fmts[0])) != AbsPath(c.cwd, OutputOf(c, r, fmts[i + 1]));
      }
      forall i, j | 0 <= i < j < |rest|
        ensures AbsPath(c.cwd, OutputOf(c, r, rest[i])) != AbsPath(c.cwd, OutputOf(c, r, rest[j]))
      {
        assert rest[i] == fmts[i + 1] && rest[j] == fmts[j + 1];
      }
      ConversionsFrom(c, r, s1, rest, exitCodes);
      FirstConversionPasses(c, r, s, fmts, exitCodes);
    }
  }

  /** The outputs of the four formats are four different files. */
  lemma {:induction false} OrderOutputsDistinct(c: Setup, s: Snapshot)
    ensures forall i, j :: 0 <= i < j < |Order| ==>
      AbsPath(c.cwd, OutputOf(c, s, Order[i])) != AbsPath(c.cwd, OutputOf(c, s, Order[j]))
  {
    OutputsDistinct(c.cwd, c.videoDir, s.filename);
    forall i, j | 0 <= i < j < |Order|
      ensures AbsPath(c.cwd, OutputOf(c, s, Order[i])) != AbsPath(c.cwd, OutputOf(c, s, Order[j]))
    {
      assert Order[i] != Order[j];
    }
  }

  /** No conversion fails exactly when every one that runs exits with 0. */
  lemma {:induction false} NoFailure(c: Setup, s: Snapshot, exitCodes: Format -> int)
    ensures FirstFailure(c, s, Order, exitCodes) == |Order| <==> forall f: Format :: Pending(c, s, f) ==> exitCodes(f) == 0
  {
    NoFailureAmong(c, s, Order, exitCodes);
    if forall i :: 0 <= i < |Order| ==> !Fails(c, s, Order[i], exitCodes) {
      forall f: Format ensures !Fails(c, s, f, exitCodes) {
        var i := IndexOf(f);
        assert !Fails(c, s, Order[i], exitCodes);
      }
    } else {
      var i :| 0 <= i < |Order| && Fails(c, s, Order[i], exitCodes);
      assert Pending(c, s, Order[i]) && exitCodes(Order[i]) != 0;
    }
  }

  /** No conversion among `fmts` fails exactly when `FirstFailure` runs off
      their end. */
  lemma {:induction false} NoFailureAmong(c: Setup, s: Snapshot, fmts: seq<Format>, exitCodes: Format -> int)
    ensures FirstFailure(c, s, fmts, exitCodes) == |fmts| <==> forall i :: 0 <= i < |fmts| ==> !Fails(c, s, fmts[i], exitCodes)
  {
    FirstFailureIsFirst(c, s, fmts, exitCodes);
  }

  /** `extract_all`: the conversions run in the order GPX, JSON, CSV, KML.
      The first one that runs and fails is reported; the commands of those
      that run up to it are started and nothing after it; the outputs of
      those that ran before it are written. The whole succeeds exactly when
      every conversion that runs exits with 0, and then all four outputs
      exist. */
  lemma {:induction false} ConversionsInOrder(c: Setup, s: Snapshot, exitCodes: Format -> int)
    ensures var k := FirstFailure(c, s, Order, exitCodes);
            var converted := Conversions(c, s, Order, exitCodes);
      && converted.outcome == (if k < |Order| then Fail(ToolFailed(exitCodes(Order[k]), ConverterCommand(c, s, Order[k]))) else Pass)
      && converted.after.history == s.history + RunCommands(c, s, Order[..k]) + Attempted(c, s, Order, k)
      && converted.after.files == s.files + Written(c, s, Order[..k])
      && converted.after.filename == s.filename && converted.after.videoPath == s.videoPath
      && converted.after.telemetryPath == s.telemetryPath
    ensures Conversions(c, s, Order, exitCodes).outcome.Pass? <==> forall f: Format :: Pending(c, s, f) ==> exitCodes(f) == 0
    ensures Conversions(c, s, Order, exitCodes).outcome.Pass? ==>
      forall f: Format :: IsFileIn(c, Conversions(c, s, Order, exitCodes).after, OutputOf(c, s, f))
  {
    OrderOutputsDistinct(c, s);
    ConversionsFrom(c, s, s, Order, exitCodes);
    NoFailure(c, s, exitCodes);
    var converted := Conversions(c, s, Order, exitCodes);
    if converted.outcome.Pass? {
      assert Order[..|Order|] == Order;
      forall f: Format ensures IsFileIn(c, converted.after, OutputOf(c, s, f)) {
        if Pending(c, s, f) {
          WrittenHas(c, s, Order, IndexOf(f));
        }
      }
    }
  }

  /** A run stops at its first failing stage: a failed rename reports its
      error before any demux or conversion starts; otherwise the extraction
      runs on the renamed video. Without renames it runs on the video as
      opened. */
  lemma {:induction false} StagesStopAtFailure(c: Setup, s: Snapshot, prependSerial: bool, appendTimestamp: bool, inputs: Inputs)
    requires ValidDateTime(inputs.creationTime)
    ensures var renamed := Renames(c, s, prependSerial, appendTimestamp, inputs);
      && (renamed.outcome.Fail? ==> Stages(c, s, prependSerial, appendTimestamp, inputs) == renamed)
      && (renamed.outcome.Pass? ==> Stages(c, s, prependSerial, appendTimestamp, inputs) == Extraction(c, renamed.after, inputs))
    ensures Stages(c, s, false, false, inputs) == Extraction(c, s, inputs)
  {
  }

  /** A failed demux reports its error before any conversion starts. After
      a successful extraction the telemetry binary and all four outputs
      exist. */
  lemma {:induction false} ExtractionCompletes(c: Setup, s: Snapshot, inputs: Inputs)
    ensures var demuxed := Demux(c, s, inputs.telemetryExitCode);
      demuxed.outcome.Fail? ==> Extraction(c, s, inputs) == demuxed
    ensures var run := Extraction(c, s, inputs);
      run.outcome.Pass? ==>
        && IsFileIn(c, run.after, run.after.telemetryPath)
        && forall f: Format :: IsFileIn(c, run.after, OutputOf(c, run.after, f))
  {
    var demuxed := Demux(c, s, inputs.telemetryExitCode);
    if demuxed.outcome.Pass? {
      ConversionsInOrder(c, demuxed.after, inputs.conversionExitCodes);
      assert IsFileIn(c, demuxed.after, demuxed.after.telemetryPath);
    }
  }

  /** No extension ends like ".bin". */
  lemma {:induction false} ExtensionNotBin(f: Format)
    ensures var e := Extension(f); |e| >= 4 && HasSuffix(e, e[|e| - 4..]) && e[|e| - 4..] != ".bin"
  {
    var e := Extension(f);
    match f
    case Gpx => assert e[|e| - 4..][1] == 'g';
    case Json => assert e[|e| - 4..][0] == 'j';
    case Csv => assert e[|e| - 4..][1] == 'c';
    case Kml => assert e[|e| - 4..][1] == 'k';
  }

  /** Two strings with different endings of one length differ. */
  lemma {:induction false} DifferentEnds(x: string, y: string, a: string, b: string)
    requires HasSuffix(x, a) && HasSuffix(y, b) && |a| == |b| && a != b
    ensures x != y
  {
  }

  /** The binary of a video `v.bin` is never one of the outputs
      `<dir>/<name><ext>`: their last four characters differ. */
  lemma {:induction false} TelemetryApartFromOutput(cwd: string, rawPath: string, videoDir: string, name: string, f: Format)
    ensures AbsPath(cwd, TelemetryPath(rawPath)) != AbsPath(cwd, OutputPath(videoDir, name, Extension(f)))
  {
    var e := Extension(f);
    ExtensionNotBin(f);
    var last := e[|e| - 4..];
    assert HasSuffix(TelemetryPath(rawPath), ".bin");
    JoinKeepsSuffix(cwd, TelemetryPath(rawPath), ".bin");
    assert HasSuffix(name + e, e);
    SuffixOfSuffix(name + e, e, last);
    JoinKeepsSuffix(videoDir, name + e, last);
    JoinKeepsSuffix(cwd, OutputPath(videoDir, name, e), last);
    DifferentEnds(AbsPath(cwd, TelemetryPath(rawPath)), AbsPath(cwd, OutputPath(videoDir, name, e)), ".bin", last);
  }

  /** After a successful demux, when the binary is none of the outputs,
      the conversions run as judged from the state before the demux. */
  lemma {:induction false} ConversionsAfterDemux(c: Setup, s: Snapshot, inputs: Inputs)
    requires forall f: Format :: AbsPath(c.cwd, s.telemetryPath) != AbsPath(c.cwd, OutputOf(c, s, f))
    requires Demux(c, s, inputs.telemetryExitCode).outcome.Pass?
    ensures ConvertedAsJudged(c, s, Demux(c, s, inputs.telemetryExitCode).after, Order, inputs.conversionExitCodes)
  {
    var d := Demux(c, s, inputs.telemetryExitCode).after;
    forall i | 0 <= i < |Order|
      ensures AgreeOn(c, s, d, Order[i])
    {
      assert AbsPath(c.cwd, s.telemetryPath) != AbsPath(c.cwd, OutputOf(c, s, Order[i]));
    }
    OrderOutputsDistinct(c, s);
    ConversionsFrom(c, s, d, Order, inputs.conversionExitCodes);
  }

  /** When the binary is none of the outputs, the extraction succeeds
      exactly when the demux, if it runs, and every conversion that runs exit
      with 0; the commands started are the demux, if it runs, then the
      conversions in order up to and including the first failure. */
  lemma {:induction false} ExtractionInOrder(c: Setup, s: Snapshot, inputs: Inputs)
    requires forall f: Format :: AbsPath(c.cwd, s.telemetryPath) != AbsPath(c.cwd, OutputOf(c, s, f))
    ensures var run := Extraction(c, s, inputs);
      run.outcome.Pass? <==>
        && (DemuxPending(c, s) ==> inputs.telemetryExitCode == 0)
        && forall f: Format :: Pending(c, s, f) ==> inputs.conversionExitCodes(f) == 0
    ensures var run := Extraction(c, s, inputs);
      DemuxPending(c, s) && inputs.telemetryExitCode != 0 ==>
        && run.outcome == Fail(ToolFailed(inputs.telemetryExitCode, TelemetryCommand(c, s)))
        && run.after.history == s.history + [TelemetryCommand(c, s)]
    ensures var run := Extraction(c, s, inputs);
            var k := FirstFailure(c, s, Order, inputs.conversionExitCodes);
      !DemuxPending(c, s) || inputs.telemetryExitCode == 0 ==>
        && run.outcome == (if k < |Order| then Fail(ToolFailed(inputs.conversionExitCodes(Order[k]), ConverterCommand(c, s, Order[k]))) else Pass)
        && run.after.history == s.history + (if DemuxPending(c, s) then [TelemetryCommand(c, s)] else [])
                                + RunCommands(c, s, Order[..k]) + Attempted(c, s, Order, k)
  {
    var demuxed := Demux(c, s, inputs.telemetryExitCode);
    if demuxed.outcome.Pass? {
      NoFailure(c, s, inputs.conversionExitCodes);
      ConversionsAfterDemux(c, s, inputs);
      assert Extraction(c, s, inputs) == Conversions(c, demuxed.after, Order, inputs.conversionExitCodes);
    }
  }

  /** The video as opened is a file: `abspath` of the path the check found
      names the same file. */
  lemma {:induction false} OpenedVideoIsFile(rawPath: string, reprocess: bool, tools: Executables, probe: Option<ProbeDocument>,
                                             cwd: AbsoluteDir, files: set<string>, history: seq<seq<string>>)
    requires OpenCheck(rawPath, probe, cwd, files).Ok?
    ensures var s := InitialSnapshot(rawPath, cwd, files, history);
      IsFileIn(InitialSetup(rawPath, reprocess, tools, probe.value.streams, cwd), s, s.videoPath)
  {
    AbsPathIdempotent(cwd, rawPath);
  }

  /** The binary of the video as opened is none of its outputs. */
  lemma {:induction false} OpenedTelemetryApart(rawPath: string, reprocess: bool, tools: Executables, streams: seq<Stream>,
                                                cwd: AbsoluteDir, files: set<string>, history: seq<seq<string>>)
    ensures var c, s := InitialSetup(rawPath, reprocess, tools, streams, cwd), InitialSnapshot(rawPath, cwd, files, history);
      forall f: Format :: AbsPath(c.cwd, s.telemetryPath) != AbsPath(c.cwd, OutputOf(c, s, f))
  {
    var c, s := InitialSetup(rawPath, reprocess, tools, streams, cwd), InitialSnapshot(rawPath, cwd, files, history);
    forall f: Format ensures AbsPath(c.cwd, s.telemetryPath) != AbsPath(c.cwd, OutputOf(c, s, f)) {
      TelemetryApartFromOutput(cwd, rawPath, c.videoDir, s.filename, f);
    }
  }

  /** A run without renames on the video as opened: it succeeds exactly
      when the demux, if it runs, and every conversion that runs exit with
      0; the commands started are the demux, if it runs, then the
      conversions in order up to and including the first failure. */
  lemma {:induction false} RunWithoutRenames(rawPath: string, reprocess: bool, tools: Executables, streams: seq<Stream>,
                                             cwd: AbsoluteDir, files: set<string>, history: seq<seq<string>>, inputs: Inputs)
    requires ValidDateTime(inputs.creationTime)
    ensures var c, s := InitialSetup(rawPath, reprocess, tools, streams, cwd), InitialSnapshot(rawPath, cwd, files, history);
            var run := Stages(c, s, false, false, inputs);
      run.outcome.Pass? <==>
        && (DemuxPending(c, s) ==> inputs.telemetryExitCode == 0)
        && forall f: Format :: Pending(c, s, f) ==> inputs.conversionExitCodes(f) == 0
    ensures var c, s := InitialSetup(rawPath, reprocess, tools, streams, cwd), InitialSnapshot(rawPath, cwd, files, history);
            var run := Stages(c, s, false, false, inputs);
            var k := FirstFailure(c, s, Order, inputs.conversionExitCodes);
      !DemuxPending(c, s) || inputs.telemetryExitCode == 0 ==>
        run.after.history == history + (if DemuxPending(c, s) then [TelemetryCommand(c, s)] else [])
                             + RunCommands(c, s, Order[..k]) + Attempted(c, s, Order, k)
  {
    var c, s := InitialSetup(rawPath, reprocess, tools, streams, cwd), InitialSnapshot(rawPath, cwd, files, history);
    StagesStopAtFailure(c, s, false, false, inputs);
    OpenedTelemetryApart(rawPath, reprocess, tools, streams, cwd, files, history);
    ExtractionInOrder(c, s, inputs);
  }

  /** With the video in place, the renames fail only when the serial is
      wanted, missing from the filename, and cannot be read: the device-info
      demux fails or its bytes do not decode. Renaming to the serial keeps
      the video in place for the timestamp. */
  lemma {:induction false} RenamesOfPresentVideo(c: Setup, s: Snapshot, prependSerial: bool, appendTimestamp: bool, inputs: Inputs)
    requires ValidDateTime(inputs.creationTime)
    requires IsFileIn(c, s, s.videoPath)
    ensures Renames(c, s, prependSerial, appendTimestamp, inputs).outcome.Pass? <==>
      (prependSerial && SerialSearch(s.filename).None? ==> inputs.fdscExitCode == 0 && DeviceSerial(inputs.deviceInfo).Some?)
  {
    if prependSerial && SerialSearch(s.filename).None? && inputs.fdscExitCode == 0 && DeviceSerial(inputs.deviceInfo).Some? {
      var retrieved := CameraSerial(c, s, inputs.fdscExitCode, inputs.deviceInfo);
      assert !HasPrefix("_fdsc.bin", "/") by { assert "_fdsc.bin"[..1] == "_"; }
      JoinAppend(c.cwd, s.videoPath, "_fdsc.bin");
      assert AbsPath(c.cwd, s.videoPath) != AbsPath(c.cwd, DeviceInfoPath(s));
      assert IsFileIn(c, retrieved.1, retrieved.1.videoPath);
    }
  }

  /** Prefixing a serial the table recognises is done once: a second
      attempt finds the serial and changes nothing. */
  lemma {:induction false} SerialRenameIdempotent(c: Setup, s: Snapshot, exitCode: int, deviceInfo: seq<byte>, exitCode': int, deviceInfo': seq<byte>)
    requires SerialSearch(s.filename).None? && DeviceSerial(deviceInfo).Some? ==> SerialSearch(DeviceSerial(deviceInfo).value).Some?
    ensures var once := SerialRename(c, s, exitCode, deviceInfo);
      once.outcome.Pass? ==> SerialRename(c, once.after, exitCode', deviceInfo') == once
  {
    var once := SerialRename(c, s, exitCode, deviceInfo);
    if once.outcome.Pass? && SerialSearch(s.filename).None? {
      SerialNameIsRecognised(DeviceSerial(deviceInfo).value, s.filename);
    }
  }

  /** Inserting the timestamp into a filename with ".MP4" is done once,
      whether or not the rename succeeded: the filename now contains the
      timestamp. */
  lemma {:induction false} TimestampRenameIdempotent(c: Setup, s: Snapshot, creationTime: DateTime)
    requires ValidDateTime(creationTime) && Contains(s.filename, ".MP4")
    ensures var once := TimestampRename(c, s, creationTime);
      TimestampRename(c, once.after, creationTime) == Step(Pass, once.after)
  {
    if !Contains(s.filename, FormatTimestamp(creationTime)) {
      TimestampedNameHasTimestamp(s.filename, FormatTimestamp(creationTime));
    }
  }

  class GoProTelemetry {
    const fs: FileSystem
    const shell: Shell
    const reprocess: bool
    /** `ffprobe_streams["streams"]`. */
    const streams: seq<Stream>
    const tools: Executables
    /** The absolute directory of the video; never updated by a rename. */
    const videoDir: string
    /** The recording id found in the original filename. */
    const basename: string
    var filename: string
    var videoPath: string
    var telemetryPath: string

    constructor (fs: FileSystem, shell: Shell, reprocess: bool, streams: seq<Stream>, tools: Executables,
                 videoDir: string, basename: string, filename: string, videoPath: string, telemetryPath: string)
      ensures this.fs == fs && this.shell == shell && this.reprocess == reprocess
      ensures this.streams == streams && this.tools == tools
      ensures this.videoDir == videoDir && this.basename == basename
      ensures this.filename == filename && this.videoPath == videoPath && this.telemetryPath == telemetryPath
    {
      this.fs := fs;
      this.shell := shell;
      this.reprocess := reprocess;
      this.streams := streams;
      this.tools := tools;
      this.videoDir := videoDir;
      this.basename := basename;
      this.filename := filename;
      this.videoPath := videoPath;
      this.telemetryPath := telemetryPath;
    }

    /** The attributes no step changes. */
    function Config(): Setup {
      Setup(fs.cwd, reprocess, streams, tools, videoDir)
    }

    /** The names held, the files on disk and the commands started. */
    function Current(): Snapshot
      reads this, fs, shell
    {
      Snapshot(filename, videoPath, telemetryPath, fs.files, shell.history)
    }

    /** `call_subprocess`, after which a successful tool has written its
        output file. */
    method RunTool(command: seq<string>, output: string, exitCode: int) returns (r: Outcome<Error>)
      modifies fs, shell
      ensures Step(r, Current()) == ToolRun(Config(), old(Current()), command, output, exitCode)
    {
      r := shell.Call(command, exitCode);
      if r.Pass? {
        fs.Write(output);
      }
    }

    method RetrieveCameraSerial(exitCode: int, deviceInfo: seq<byte>) returns (r: Result<string, Error>)
      modifies fs, shell
      ensures (r, Current()) == CameraSerial(Config(), old(Current()), exitCode, deviceInfo)
    {
      var streamIndex := GetStreamIndex(streams, DeviceInfoTag);
      var tempOutputPath := videoPath + "_fdsc.bin";
      var command := FfmpegCommand(videoPath, streamIndex, tempOutputPath);
      var called := RunTool(command, tempOutputPath, exitCode);
      if called.Fail? {
        return Err(called.error);
      }
      var cameraSerial := DeviceSerial(deviceInfo);
      if cameraSerial.None? {
        return Err(DecodeFailed);
      }
      // The demux has just written the file, so the removal succeeds.
      var removed := fs.Remove(tempOutputPath);
      return Ok(cameraSerial.value);
    }

    method PrependFilenameWithSerial(exitCode: int, deviceInfo: seq<byte>) returns (r: Outcome<Error>)
      modifies this, fs, shell
      ensures Step(r, Current()) == SerialRename(Config(), old(Current()), exitCode, deviceInfo)
    {
      var cameraSerial := FilenameContainsSerial(filename);
      if cameraSerial.None? {
        var retrieved := RetrieveCameraSerial(exitCode, deviceInfo);
        if retrieved.Err? {
          return Fail(retrieved.error);
        }
        var newFilename := SerialName(retrieved.value, filename);
        var newVideoPath := ReplaceAll(videoPath, filename, newFilename);
        var newTelemetryPath := ReplaceAll(telemetryPath, filename, newFilename);
        filename := newFilename;
        var renamed := fs.Rename(videoPath, newVideoPath);
        if renamed.Fail? {
          return renamed;
        }
        videoPath := newVideoPath;
        telemetryPath := newTelemetryPath;
      }
      return Pass;
    }

    method AppendFilenameWithTimestamp(creationTime: DateTime) returns (r: Outcome<Error>)
      requires ValidDateTime(creationTime)
      modifies this, fs
      ensures Step(r, Current()) == TimestampRename(Config(), old(Current()), creationTime)
    {
      var timestamp := FormatTimestamp(creationTime);
      if !Contains(filename, timestamp) {
        var newFilename := TimestampedName(filename, timestamp);
        var newVideoPath := ReplaceAll(videoPath, filename, newFilename);
        var newTelemetryPath := ReplaceAll(telemetryPath, filename, newFilename);
        filename := newFilename;
        var renamed := fs.Rename(videoPath, newVideoPath);
        if renamed.Fail? {
          return renamed;
        }
        videoPath := newVideoPath;
        telemetryPath := newTelemetryPath;
      }
      return Pass;
    }

    method ExtractTelemetry(exitCode: int) returns (r: Outcome<Error>)
      modifies fs, shell
      ensures Step(r, Current()) == Demux(Config(), old(Current()), exitCode)
    {
      if reprocess || !fs.IsFile(telemetryPath) {
        var streamIndex := GetStreamIndex(streams, TelemetryTag);
        var command := FfmpegCommand(videoPath, streamIndex, telemetryPath);
        r := RunTool(command, telemetryPath, exitCode);
      } else {
        r := Pass;
      }
    }

    method Convert(f: Format, exitCode: int) returns (r: Outcome<Error>)
      modifies fs, shell
      ensures Step(r, Current()) == ConvertStep(Config(), old(Current()), f, exitCode)
    {
      var outputPath := OutputPath(videoDir, filename, Extension(f));
      if reprocess || !fs.IsFile(outputPath) {
        var command := [Converter(tools, f), "-i", telemetryPath, "-o", outputPath];
        r := RunTool(command, outputPath, exitCode);
      } else {
        r := Pass;
      }
    }

    /** `extract_all`: the four conversions in order; the first failure
        aborts the rest. */
    method ExtractAll(exitCodes: Format -> int) returns (r: Outcome<Error>)
      modifies fs, shell
      ensures Step(r, Current()) == Conversions(Config(), old(Current()), Order, exitCodes)
    {
      ghost var c := Config();
      assert Order[0] == Gpx && Order[1..] == [Json, Csv, Kml];
      r := Convert(Gpx, exitCodes(Gpx));
      if r.Fail? {
        return;
      }
      ghost var s1 := Current();
      assert [Json, Csv, Kml][1..] == [Csv, Kml];
      r := Convert(Json, exitCodes(Json));
      if r.Fail? {
        return;
      }
      ghost var s2 := Current();
      assert Conversions(c, s1, [Json, Csv, Kml], exitCodes) == Conversions(c, s2, [Csv, Kml], exitCodes);
      assert [Csv, Kml][1..] == [Kml];
      r := Convert(Csv, exitCodes(Csv));
      if r.Fail? {
        return;
      }
      ghost var s3 := Current();
      assert Conversions(c, s2, [Csv, Kml], exitCodes) == Conversions(c, s3, [Kml], exitCodes);
      assert [Kml][1..] == [];
      r := Convert(Kml, exitCodes(Kml));
    }
  }

  /** The constructor's checks and attributes. */
  method Open(rawPath: string, reprocess: bool, tools: Executables, probe: Option<ProbeDocument>,
              fs: FileSystem, shell: Shell)
    returns (r: Result<GoProTelemetry, Error>)
    ensures var checked := OpenCheck(rawPath, probe, fs.cwd, fs.files);
      && (checked.Err? ==> r == Err(checked.error))
      && (checked.Ok? ==>
            && r.Ok? && fresh(r.value) && r.value.fs == fs && r.value.shell == shell
            && r.value.basename == checked.value
            && r.value.Config() == InitialSetup(rawPath, reprocess, tools, probe.value.streams, fs.cwd)
            && r.value.Current() == InitialSnapshot(rawPath, fs.cwd, fs.files, shell.history))
  {
    if !fs.IsFile(rawPath) {
      return Err(NotAFile(rawPath));
    }
    if probe.None? {
      return Err(ProbeFailed);
    }
    var streams := probe.value.streams;
    var valid := EnsureValidGoProVideo(rawPath, streams);
    if valid.Fail? {
      return Err(valid.error);
    }
    var videoPath := AbsPath(fs.cwd, rawPath);
    var videoDir := ParentDir(videoPath);
    var filename := Basename(rawPath);
    var found := GetBasename(filename, videoPath);
    if found.Err? {
      return Err(found.error);
    }
    var t := new GoProTelemetry(fs, shell, reprocess, streams, tools, videoDir, found.value,
                                filename, videoPath, TelemetryPath(rawPath));
    return Ok(t);
  }

  /** The optional renames of the constructor, serial first; a failure
      skips the rest. */
  method ApplyRenames(g: GoProTelemetry, prependSerial: bool, appendTimestamp: bool, inputs: Inputs)
    returns (r: Outcome<Error>)
    requires ValidDateTime(inputs.creationTime)
    modifies g, g.fs, g.shell
    ensures Step(r, g.Current()) == Renames(g.Config(), old(g.Current()), prependSerial, appendTimestamp, inputs)
  {
    r := Pass;
    if prependSerial {
      r := g.PrependFilenameWithSerial(inputs.fdscExitCode, inputs.deviceInfo);
      if r.Fail? {
        return;
      }
    }
    if appendTimestamp {
      r := g.AppendFilenameWithTimestamp(inputs.creationTime);
    }
  }

  /** The whole constructor: open, the optional renames, the demux and the
      four conversions; any failure aborts it. A failed check touches no
      file and starts no command. */
  method Run(rawPath: string, reprocess: bool, prependSerial: bool, appendTimestamp: bool,
             tools: Executables, probe: Option<ProbeDocument>, fs: FileSystem, shell: Shell, inputs: Inputs)
    returns (r: Outcome<Error>, t: GoProTelemetry?)
    requires ValidDateTime(inputs.creationTime)
    modifies fs, shell
    ensures var checked := OpenCheck(rawPath, probe, fs.cwd, old(fs.files));
      checked.Err? ==>
        r == Fail(checked.error) && t == null && fs.files == old(fs.files) && shell.history == old(shell.history)
    ensures var checked := OpenCheck(rawPath, probe, fs.cwd, old(fs.files));
      checked.Ok? ==>
        && t != null && fresh(t) && t.fs == fs && t.shell == shell
        && t.Config() == InitialSetup(rawPath, reprocess, tools, probe.value.streams, fs.cwd)
        && Step(r, t.Current()) == Stages(t.Config(), InitialSnapshot(rawPath, fs.cwd, old(fs.files), old(shell.history)),
                                          prependSerial, appendTimestamp, inputs)
  {
    var result := Open(rawPath, reprocess, tools, probe, fs, shell);
    if result.Err? {
      return Fail(result.error), null;
    }
    var g := result.value;
    t := g;
    r := ApplyRenames(g, prependSerial, appendTimestamp, inputs);
    if r.Fail? {
      return;
    }
    r := g.ExtractTelemetry(inputs.telemetryExitCode);
    if r.Fail? {
      return;
    }
    r := g.ExtractAll(inputs.conversionExitCodes);
  }
}
