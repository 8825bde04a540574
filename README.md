# GoPro telemetry pipeline, modelled in Dafny

`gopro_telemetry.py` takes one GoPro video and does the following:

1. It checks that the path is a file.
2. It reads the `ffprobe` description of the video's streams and checks that some stream's handler name contains "GoPro".
3. It finds the recording id in the filename.
4. If asked, it renames the video. It can put the camera serial in front of the filename and/or the creation timestamp before ".MP4".
5. It demuxes the `gpmd` telemetry stream into `<video>.bin`.
6. It converts that binary to GPX, JSON, CSV and KML beside the video. Each step is skipped when its output already exists and reprocessing is not forced.

This project models that pipeline. Each step of the script is a method, and its postcondition says that the outcome and the new state equal a function of the old state:

- `ToolRun`, `CameraSerial`, `SerialRename`, `TimestampRename`, `Demux` and `ConvertStep` give the single steps;
- `Conversions`, `Renames`, `Extraction` and `Stages` chain them, and the first failure ends the chain.

Lemmas about those functions state what the script promises. The conversions run in the order GPX, JSON, CSV, KML. The first failing one is reported, and nothing after it starts. A successful run leaves the binary and the four outputs on disk. A failed check changes no file and logs no `call_subprocess` command.

Modules:

- `Wrappers`, `Errors`: the option/result types, and one error constructor for each exception the script raises.
- `Text`: substring search and Python's `str.replace`. It is left to right and non-overlapping, and an empty target interleaves the replacement.
- `Decimal`: `str()` of a natural number and zero padding. Both carry parse round trips.
- `Timestamp`: `strftime("%Y-%m-%dT%H%M%S")` and its inverse.
- `Patterns`: a search for regular expressions of fixed length over character classes. It gives the leftmost match, like `re.search`. The module also holds:
  - the recording-id pattern and `get_basename`;
  - the table of nine camera-serial patterns;
  - `filename_contains_serial`, which returns the first pattern in table order that matches.
- `Probe`: the `ffprobe` streams, a stream index by codec tag, the GoPro check, the `ffmpeg` demux command, and the 14 serial bytes that follow an 87-byte header.
- `Paths`:
  - `os.path.basename`, `join` and `abspath`, and the parent directory;
  - the derived paths: `<raw path>.bin`, and `<video dir>/<filename><ext>`;
  - the rule that a step runs when `reprocess or not exists`.
- `Os`: the file system and the shell.
  - The file system is a set of resolved paths. `os.rename`, `os.remove` and a tool writing its output are updates of that set.
  - The shell records every command it runs and fails with the exit code it is given.
- `Telemetry`: the class `GoProTelemetry`.
  - Its `var` fields are `filename`, `videoPath` and `telemetryPath`, which the renames update.
  - The renames and the extraction steps are methods of the class.
  - `Open` models the checks and attributes of the constructor. `Run` models the whole constructor.

The model takes the outside world as parameters:

- the parsed `ffprobe` output, and the executables from the configuration;
- the exit code of each tool;
- the bytes of the device-info stream;
- the creation time as a parsed date-time.

## Where the code and the documented intent of the script differ (the model follows the code)

- **Serial prefix check.** The intent documented for the script is that the serial is prefixed unless the filename already starts with it. The code prefixes whenever none of the nine serial patterns matches anywhere in the filename. No start-of-name check exists (`gopro_telemetry.py:54-55`).
- **Rename failure.** The documented intent is that a failed rename must not leave `filename` and the paths out of step. The code assigns the new filename before calling `os.rename`, so a failed rename leaves the new filename beside the old paths (`gopro_telemetry.py:65-66`, `82-83`). Both rename methods state exactly that outcome.
- **Directories named like the file.** The renames are meant to change the video's name only. But `str.replace` on the paths rewrites every occurrence of the old filename (`gopro_telemetry.py:59-62`, `76-79`), so a directory such as `/data/GH010042.MP4_old/` is rewritten too. `os.rename` then targets a directory that may not exist, after `filename` has been assigned. `RenameRewritesDirectoryToo` states the rewrite. The rename lemmas that keep the directories assume the filename does not occur in them.
- **Leftover temporary file.** `retrieve_camera_serial` does not delete the temporary `_fdsc.bin` file when decoding fails. `RetrieveCameraSerial` states it.
- **No matching stream.** With no stream of the wanted codec tag, the map argument is `0:None`, from `str(None)` (`gopro_telemetry.py:268`).

## Model

| member | source | states |
|---|---|---|
| Text.ContainsIffOccurs | gopro_telemetry.py:73 | `t in s` holds exactly when `t` occurs at some index of `s` |
| Text.ReplaceAbsent | gopro_telemetry.py:59 | `str.replace` with a non-empty target that does not occur leaves the string unchanged |
| Text.ReplaceIntroduces | gopro_telemetry.py:75 | when the target occurs, everything contained in the replacement is contained in the result |
| Text.ReplaceAcrossSeparator | gopro_telemetry.py:59-62 | no occurrence of a target spans a character the target does not contain, so `replace` splits at that character |
| Text.ReplaceAtEnd | gopro_telemetry.py:75 | a target whose first character does not occur before it is replaced only at the end |
| Text.RenameLastComponent | gopro_telemetry.py:59-62 | replacing a filename that occurs only as the last component of `dir/ + name + suffix` rewrites just that component |
| Decimal.ZeroPadRoundTrip | gopro_telemetry.py:72 | a zero-padded field has exactly its width, is all digits, and parses back to the number |
| Decimal.NatToStringRoundTrip | gopro_telemetry.py:268 | `str(n)` is a non-empty digit string with no leading zero that parses back to `n` |
| Timestamp.FormatTimestamp | gopro_telemetry.py:72 | the timestamp has 17 characters, with '-' at 4 and 7, 'T' at 10 and digits elsewhere |
| Timestamp.FormatRoundTrip | gopro_telemetry.py:72 | reading the fields back from the formatted timestamp gives the date-time |
| Timestamp.FormatExample | gopro_telemetry.py:72 | 2021-06-01 14:05:30 formats as "2021-06-01T140530" |
| Patterns.SearchFrom | gopro_telemetry.py:47 | the search gives the leftmost index from `i` at which the pattern matches, or no index when none matches |
| Patterns.SearchSpec | gopro_telemetry.py:47-49 | `re.search` finds a match exactly when one exists; `group(0)` is the text at the leftmost one |
| Patterns.SearchExtends | gopro_telemetry.py:197 | a fixed-length match in `s` is still found in `s + t` |
| Patterns.RecordingIdMatch | gopro_telemetry.py:47 | the pattern `G[HXOP\d][AP\d][AR\d]\d{4}` matches at `i` exactly when the 8 characters there are a recording id |
| Patterns.GetBasename | gopro_telemetry.py:46-51 | the leftmost recording id in the filename; fails with "unknown filename format" for the resolved video path exactly when there is none |
| Patterns.SerialPattern | gopro_telemetry.py:183-195 | each serial pattern is as long as its prefix plus its wildcards |
| Patterns.SerialPatternMatch | gopro_telemetry.py:184-194 | a serial pattern matches exactly where the prefix is followed by its count of characters other than '\n' |
| Patterns.SerialSearchFrom | gopro_telemetry.py:196-200 | nothing is found exactly when no pattern from position `k` of the table matches; a result is the match of some such pattern |
| Patterns.SerialMatchShape | gopro_telemetry.py:184-194 | a serial found by one pattern has that pattern's length and starts with its prefix |
| Patterns.SerialSearchShape | gopro_telemetry.py:196-200 | a found serial comes from the first pattern in table order that matches, and has that pattern's length and prefix |
| Patterns.ShortNameHasNoSerial | gopro_telemetry.py:183-195 | every serial pattern is at least 13 characters long, so a shorter filename holds no serial |
| Patterns.SerialSearchExample | gopro_telemetry.py:196-200 | "GH010042.MP4" holds no serial, so prefixing reads one from the device-info stream |
| Patterns.SerialSearchExtends | gopro_telemetry.py:55-58 | a filename that starts with a recognised serial still contains a recognised serial |
| Patterns.FilenameContainsSerial | gopro_telemetry.py:181-200 | the early-return loop over the nine patterns returns the table-order serial search |
| Probe.FirstWithTagSpec | gopro_telemetry.py:215-218 | no index exactly when no stream has the codec tag; otherwise the index of the first stream that has it |
| Probe.GetStreamIndex | gopro_telemetry.py:215-218 | the loop returns the first matching stream's index, or nothing |
| Probe.GoProCheckNotGoPro | gopro_telemetry.py:246-254 | the "not a GoPro video" error arises exactly when every stream has a handler name and none contains "GoPro" |
| Probe.GoProCheckPass | gopro_telemetry.py:249-252 | the check passes exactly when some stream contains "GoPro" and every stream before it has a handler name |
| Probe.GoProCheckErrors | gopro_telemetry.py:246-254 | the check passes, reports "not a GoPro video", or reports a missing `handler_name` key, and nothing else |
| Probe.GoProCheckWithHandlers | gopro_telemetry.py:246-254 | when every stream has a handler name, the check passes exactly when some stream is a GoPro stream |
| Probe.MissingKeyWitness | gopro_telemetry.py:250 | a missing-key failure means some stream lacks a handler name |
| Probe.EnsureValidGoProVideo | gopro_telemetry.py:246-254 | the flag loop with `break` gives the same outcome as the check |
| Probe.FfmpegCommand | gopro_telemetry.py:256-272 | 13 arguments: the video at 5, `0:<index>` at 9, the output at 12, and the fixed flags elsewhere |
| Probe.MapArgumentRoundTrip | gopro_telemetry.py:268 | the stream index can be read back from the map argument |
| Probe.SerialBytes | gopro_telemetry.py:209-211 | the 14 bytes after the 87-byte header, or fewer when the file is shorter |
| Probe.SerialBytesOfLayout | gopro_telemetry.py:210-211 | for a blob laid out as header, serial and rest, the slice is the serial |
| Probe.DeviceSerialExample | gopro_telemetry.py:209-211 | an 87-byte header followed by the bytes of "C3221234567890" yields that serial, whatever follows |
| Probe.DecodeAscii | gopro_telemetry.py:211 | decoding succeeds exactly when every byte is ASCII, and then keeps length and code points |
| Paths.LastSlash | gopro_telemetry.py:30 | the index of the last '/', and no '/' follows it; none when the path has no '/' |
| Paths.BasenameSpec | gopro_telemetry.py:30 | the basename holds no '/', ends the path and follows a '/' or the start |
| Paths.AbsPathSplit | gopro_telemetry.py:29-31 | the resolved path is a directory part ending in '/' followed by the basename of the path as given |
| Paths.JoinEnds | gopro_telemetry.py:117 | `os.path.join(a, b)` ends with `b` and, when `b` is relative, starts with `a` |
| Paths.JoinKeepsSuffix | gopro_telemetry.py:117 | joining keeps every suffix of the second part |
| Paths.AbsPathIdempotent | gopro_telemetry.py:31 | against an absolute working directory, `abspath` gives an absolute path and applying it again changes nothing |
| Paths.ParentDirPrefix | gopro_telemetry.py:29 | the video directory is a prefix of the video path, and absolute when that path is |
| Paths.JoinAppend | gopro_telemetry.py:204 | appending a suffix that does not start with '/' commutes with joining |
| Paths.OutputBesideVideo | gopro_telemetry.py:116-117 | for a resolved video path without a doubled '/', each output is the video path plus its extension |
| Paths.OutputPathsDistinct | gopro_telemetry.py:116-172 | extensions ending in different characters give different resolved outputs |
| Os.FileSystem.Rename | gopro_telemetry.py:66 | a missing source fails with nothing changed; otherwise the source leaves and the destination joins the set |
| Os.FileSystem.Remove | gopro_telemetry.py:212 | a missing path fails; the path is no longer in the set |
| Os.Shell.Call | gopro_telemetry.py:274-278 | each command is logged; a non-zero exit code fails with that code and the command |
| Telemetry.OutputsDistinct | gopro_telemetry.py:116-172 | the GPX, JSON, CSV and KML outputs of a video are four different files |
| Telemetry.SerialNameIsRecognised | gopro_telemetry.py:54-58 | after a recognised serial is prefixed, a second prefixing finds a serial and does nothing |
| Telemetry.TimestampedNameHasTimestamp | gopro_telemetry.py:73-75 | after the timestamp is inserted into a filename with ".MP4", the filename contains the timestamp, so a second call does nothing |
| Telemetry.TimestampedCameraName | gopro_telemetry.py:75 | `<recording id>.MP4` becomes `<recording id>_<timestamp>.MP4` |
| Telemetry.TimestampedNameExample | gopro_telemetry.py:72-75 | "GH010042.MP4" with the timestamp "2021-06-01T140530" becomes "GH010042_2021-06-01T140530.MP4" |
| Telemetry.SerialRenameExample | gopro_telemetry.py:53-65 | "GH010042.MP4" whose device-info stream holds "C3221234567890" after the 87-byte header gets the filename "C3221234567890_GH010042.MP4" |
| Telemetry.TimestampedNameWithoutExtension | gopro_telemetry.py:75 | a filename without ".MP4" keeps its name |
| Telemetry.RenameRewritesLastComponent | gopro_telemetry.py:59-62 | provided the old filename is their last component and occurs nowhere in their directory parts, the video path and the telemetry path take the new name in their last component only |
| Telemetry.RenameRewritesDirectoryToo | gopro_telemetry.py:59-62 | a directory named like the file is rewritten as well: `/<f>/<f>` becomes `/<n>/<n>` |
| Telemetry.RenameOfOpenedVideo | gopro_telemetry.py:29-62 | for paths as the constructor derives them, provided the filename does not occur in the directory part, a rename keeps both paths' directories and changes only the name |
| Telemetry.ToolRun | gopro_telemetry.py:274-278 | the command is appended to the log; the step passes exactly when the exit code is 0, and then its output file exists; a failure carries the exit code and the command; no file is removed |
| Telemetry.CameraSerial | gopro_telemetry.py:202-213 | the device-info demux command is logged; a serial comes back exactly when the demux exits with 0 and the bytes decode, and it is the decoded serial |
| Telemetry.Renamed | gopro_telemetry.py:59-68 | the filename becomes the new name even on failure; the rename succeeds exactly when the video is a file, and afterwards the video is at its new path |
| Telemetry.Demux | gopro_telemetry.py:99-107 | after a successful demux the telemetry binary exists |
| Telemetry.ConvertStep | gopro_telemetry.py:116-172 | after a successful conversion its output exists |
| Telemetry.OpenCheck | gopro_telemetry.py:20-32 | a recording id comes back exactly when the path is a file, the probe succeeded, the GoPro check passed and the filename holds a recording id |
| Telemetry.IndexOf | gopro_telemetry.py:109-114 | every format has a place in the conversion order |
| Telemetry.FirstFailureIsFirst | gopro_telemetry.py:109-114 | at the computed position the conversion runs and fails, and no conversion before it does |
| Telemetry.ConversionsFrom | gopro_telemetry.py:109-114 | from any state that agrees on the names and on which outputs exist: the first failing conversion is reported; the commands of the conversions that run are logged up to and including it; the outputs of those before it are written |
| Telemetry.NoFailure | gopro_telemetry.py:109-114 | no conversion fails exactly when every conversion that runs exits with 0 |
| Telemetry.ConversionsInOrder | gopro_telemetry.py:109-114 | `extract_all` reports the first failing conversion in the order GPX, JSON, CSV, KML; the log gains the commands of those that run up to it; the files gain exactly the outputs of those before it; names are unchanged; it succeeds exactly when every conversion that runs exits with 0, and then all four outputs exist |
| Telemetry.StagesStopAtFailure | gopro_telemetry.py:35-44 | a failed rename ends the run before any demux or conversion starts; otherwise the extraction runs on the renamed video; without renames it runs on the video as opened |
| Telemetry.ExtractionCompletes | gopro_telemetry.py:43-44 | a failed demux ends the extraction before any conversion starts; after a successful extraction the binary and all four outputs exist |
| Telemetry.TelemetryApartFromOutput | gopro_telemetry.py:33 | the binary `<path>.bin` never resolves to one of the four outputs |
| Telemetry.ExtractionInOrder | gopro_telemetry.py:43-44 | provided the binary resolves to none of the four outputs: the extraction succeeds exactly when the demux, if it runs, and every conversion that runs exit with 0; a failed demux is reported with only its command logged; otherwise the log gains the demux command, if it ran, then the conversions up to the first failure |
| Telemetry.OpenedVideoIsFile | gopro_telemetry.py:20-31 | after the checks pass, the resolved video path names a file |
| Telemetry.OpenedTelemetryApart | gopro_telemetry.py:29-33 | for the video as opened, the binary is none of the four outputs |
| Telemetry.RunWithoutRenames | gopro_telemetry.py:43-44 | without renames, the run succeeds exactly when the demux, if it runs, and every conversion that runs exit with 0; the log gains the demux command, if it ran, then the conversions up to the first failure |
| Telemetry.RenamesOfPresentVideo | gopro_telemetry.py:35-41 | with the video in place, the renames fail exactly when the serial is wanted, is not in the filename, and the device-info demux fails or its bytes do not decode |
| Telemetry.SerialRenameIdempotent | gopro_telemetry.py:53-68 | after a successful prefixing with a recognised serial, a second prefixing changes nothing |
| Telemetry.TimestampRenameIdempotent | gopro_telemetry.py:70-85 | after the timestamp step on a filename with ".MP4", a second one passes and changes nothing, whether or not the first rename succeeded |
| Telemetry.GoProTelemetry.RunTool | gopro_telemetry.py:274-278 | the outcome and the new file set and log are `ToolRun` of the old state |
| Telemetry.GoProTelemetry.RetrieveCameraSerial | gopro_telemetry.py:202-213 | the result and the new state are `CameraSerial` of the old state: the temporary file is removed after a decoded serial and left behind after a decoding failure |
| Telemetry.GoProTelemetry.PrependFilenameWithSerial | gopro_telemetry.py:53-68 | the outcome and the new state are `SerialRename` of the old state: nothing changes when a serial is found; otherwise the serial is read and the video renamed to `<serial>_<filename>` |
| Telemetry.GoProTelemetry.AppendFilenameWithTimestamp | gopro_telemetry.py:70-85 | the outcome and the new state are `TimestampRename` of the old state: nothing changes when the name holds the timestamp; otherwise the video is renamed with `_<timestamp>` before every ".MP4" |
| Telemetry.GoProTelemetry.ExtractTelemetry | gopro_telemetry.py:99-107 | the outcome and the new state are `Demux` of the old state: the `gpmd` demux runs exactly when reprocessing is forced or the binary is absent |
| Telemetry.GoProTelemetry.Convert | gopro_telemetry.py:116-172 | the outcome and the new state are `ConvertStep` of the old state: the converter runs exactly when reprocessing is forced or its output is absent |
| Telemetry.GoProTelemetry.ExtractAll | gopro_telemetry.py:109-114 | the outcome and the new state are `Conversions` of the old state over GPX, JSON, CSV, KML, which `ConversionsInOrder` describes |
| Telemetry.Open | gopro_telemetry.py:12-33 | not a file, a failed probe, a failed GoPro check and a filename without a recording id each give their own error; otherwise a fresh object with the constructor's attributes |
| Telemetry.ApplyRenames | gopro_telemetry.py:35-41 | the outcome and the new state are `Renames` of the old state: the serial prefix if asked, then the timestamp if asked and the prefix did not fail |
| Telemetry.Run | gopro_telemetry.py:12-44 | a failed check is reported with no file changed and no `call_subprocess` command logged; otherwise the outcome and the final state are `Stages` of the state as opened |

## Left out

- Running subprocesses: the exit code of `ffmpeg` and of each converter is a parameter. A successful tool is taken to create its output file. What the tools compute is not modelled.
- The `ffprobe` call of `get_ffprobe_streams` is not recorded in the shell's log, which holds only `call_subprocess` commands. In the script it runs before the GoPro check and the recording-id check, so when either of them fails one command has already run.
- `get_ffprobe_streams`: the parsed `ffprobe` output is a parameter. `None` stands for a probe that wrote to stderr, and gives `ProbeFailed`. In Python that `None` would fail later, when it is indexed.
- Stream keys: each stream always has a codec tag and an index, and a missing `tags` object counts as an empty one. A `KeyError` on those keys is not modelled.
- `load_executables`: the YAML configuration, `os.path.expanduser` and the config path are not modelled. The executables are a parameter.
- `get_creation_time`: the `dateutil` parse and the `KeyError` for a missing `creation_time` are not modelled. The parsed date-time is a parameter, and time zones play no part.
- Telemetry.ExtractionInOrder: applies only when the binary is none of the outputs. That is proved for the video as opened (`OpenedTelemetryApart`), not after a rename, so a run with renames has no single pass-exactly-when lemma.
- Timestamp.FormatTimestamp: pads years below 1000 to four digits. The platform `strftime` may not.
- Probe.DecodeAscii: accepts ASCII only. Multi-byte UTF-8 sequences count as a decoding failure, though Python would decode them.
- Patterns.RecordingIdMatch: `\d` is taken as the ASCII digits. Python's `\d` also matches other Unicode digits.
- A general regular-expression engine: only the fixed-length patterns the script uses are modelled.
- The working directory is taken to be absolute, as `os.getcwd` returns it.
- Paths.AbsPath: `os.path.abspath` normalisation is not modelled. That covers removing `.`, `..` and doubled '/'.
- Directories: the file system holds files only. A rename into a missing directory is not modelled.
- `get_firmware_version` and `extract_metadata`: the script never calls them.
- `print`, `argparse` and the `__main__` block.
- The `camera_serial` and `creation_time` attributes are not modelled. Both methods only use them locally.
