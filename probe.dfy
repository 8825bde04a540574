/** What the pipeline reads from the prober's document: stream selection by
    codec tag, the GoPro check on handler names, the demux command and the
    serial inside the device-info stream. */
module Probe {
  import opened Wrappers
  import opened Errors
  import opened Decimal
  import opened Text

  /** One entry of `streams`: its `index`, `codec_tag_string` and `tags`. */
  datatype Stream = Stream(index: nat, codecTag: string, tags: map<string, string>)

  /** The prober's document: `streams` and `format.tags`. */
  datatype ProbeDocument = ProbeDocument(streams: seq<Stream>, formatTags: map<string, string>)

  const TelemetryTag := "gpmd"
  const DeviceInfoTag := "fdsc"
  const HandlerKey := "handler_name"
  const BrandMarker := "GoPro"

  // ----- get_stream_index -----

  /** The index of the first stream carrying `tag`, if any. */
  function FirstWithTag(streams: seq<Stream>, tag: string): Option<nat>
    decreases |streams|
  {
    if streams == [] then None
    else if streams[0].codecTag == tag then Some(streams[0].index)
    else FirstWithTag(streams[1..], tag)
  }

  /** `FirstWithTag` is `None` iff no stream carries the tag; otherwise it is
      the index of the earliest stream that does. */
  lemma {:induction false} FirstWithTagSpec(streams: seq<Stream>, tag: string)
    ensures FirstWithTag(streams, tag).None? <==> forall i :: 0 <= i < |streams| ==> streams[i].codecTag != tag
    ensures FirstWithTag(streams, tag).Some? ==>
      exists i :: 0 <= i < |streams| && streams[i].codecTag == tag
                  && FirstWithTag(streams, tag).value == streams[i].index
                  && forall j :: 0 <= j < i ==> streams[j].codecTag != tag
    decreases |streams|
  {
    if streams != [] && streams[0].codecTag != tag {
      FirstWithTagSpec(streams[1..], tag);
      var rest := streams[1..];
      if FirstWithTag(rest, tag).Some? {
        var i :| 0 <= i < |rest| && rest[i].codecTag == tag
                 && FirstWithTag(rest, tag).value == rest[i].index
                 && forall j :: 0 <= j < i ==> rest[j].codecTag != tag;
        assert streams[i + 1] == rest[i];
        forall j | 0 <= j < i + 1 ensures streams[j].codecTag != tag {
          if j > 0 { assert streams[j] == rest[j - 1]; }
        }
      } else {
        forall i | 0 <= i < |streams| ensures streams[i].codecTag != tag {
          if i > 0 { assert streams[i] == rest[i - 1]; }
        }
      }
    }
  }

  /** `get_stream_index`: returns at the first stream whose codec tag equals
      `tag`; falls off the loop (`None`) otherwise. */
  method GetStreamIndex(streams: seq<Stream>, tag: string) returns (index: Option<nat>)
    ensures index == FirstWithTag(streams, tag)
  {
    for i := 0 to |streams|
      invariant FirstWithTag(streams[i..], tag) == FirstWithTag(streams, tag)
    {
      assert streams[i..][1..] == streams[i + 1..];
      if streams[i].codecTag == tag {
        return Some(streams[i].index);
      }
    }
    return None;
  }

  // ----- ensure_valid_gopro_video -----

  /** The loop of `ensure_valid_gopro_video`: the first stream whose
      `tags["handler_name"]` contains "GoPro" stops it with success; a stream
      reached without that key stops it with a `KeyError`; running out of
      streams is the "not a GoPro video" error. */
  function GoProCheck(videoPath: string, streams: seq<Stream>): Outcome<Error>
    decreases |streams|
  {
    if streams == [] then Fail(NotGoProVideo(videoPath))
    else if HandlerKey !in streams[0].tags then Fail(MissingKey(HandlerKey))
    else if Contains(streams[0].tags[HandlerKey], BrandMarker) then Pass
    else GoProCheck(videoPath, streams[1..])
  }

  predicate HasHandler(s: Stream) {
    HandlerKey in s.tags
  }

  predicate IsGoProStream(s: Stream) {
    HandlerKey in s.tags && Contains(s.tags[HandlerKey], BrandMarker)
  }

  /** A stream the loop passes over: it has a handler name without "GoPro". */
  predicate PassedOver(s: Stream) {
    HasHandler(s) && !IsGoProStream(s)
  }

  /** The check reports "not a GoPro video" iff the loop passes over every
      stream. */
  lemma {:induction false} GoProCheckNotGoPro(videoPath: string, streams: seq<Stream>)
    ensures GoProCheck(videoPath, streams) == Fail(NotGoProVideo(videoPath)) <==>
      forall i :: 0 <= i < |streams| ==> PassedOver(streams[i])
    decreases |streams|
  {
    if streams != [] && PassedOver(streams[0]) {
      var rest := streams[1..];
      GoProCheckNotGoPro(videoPath, rest);
      assert forall i :: 1 <= i < |streams| ==> streams[i] == rest[i - 1];
    }
  }

  /** Stream `i` is a GoPro stream and the loop passes over every stream
      before it. */
  predicate GoProAt(streams: seq<Stream>, i: int) {
    0 <= i < |streams| && IsGoProStream(streams[i]) && forall j :: 0 <= j < i ==> PassedOver(streams[j])
  }

  lemma {:induction false} GoProAtShift(streams: seq<Stream>, i: int)
    requires streams != [] && PassedOver(streams[0])
    ensures GoProAt(streams[1..], i) <==> GoProAt(streams, i + 1)
  {
    var rest := streams[1..];
    if GoProAt(rest, i) {
      assert streams[i + 1] == rest[i];
      forall j | 0 <= j < i + 1 ensures PassedOver(streams[j]) {
        if j > 0 { assert streams[j] == rest[j - 1]; }
      }
    }
    if GoProAt(streams, i + 1) {
      assert rest[i] == streams[i + 1];
      forall j | 0 <= j < i ensures PassedOver(rest[j]) {
        assert rest[j] == streams[j + 1];
      }
    }
  }

  /** The check passes iff some stream is a GoPro stream and the loop passes
      over every stream before it. */
  lemma {:induction false} GoProCheckPass(videoPath: string, streams: seq<Stream>)
    ensures GoProCheck(videoPath, streams) == Pass <==> exists i :: GoProAt(streams, i)
    decreases |streams|
  {
    if streams != [] {
      if PassedOver(streams[0]) {
        var rest := streams[1..];
        GoProCheckPass(videoPath, rest);
        if GoProCheck(videoPath, rest) == Pass {
          var i :| GoProAt(rest, i);
          GoProAtShift(streams, i);
        }
        if exists i :: GoProAt(streams, i) {
          var i :| GoProAt(streams, i);
          assert i > 0;
          GoProAtShift(streams, i - 1);
        }
      } else if IsGoProStream(streams[0]) {
        assert GoProAt(streams, 0);
      } else {
        forall i ensures !GoProAt(streams, i) {
          if 0 < i < |streams| {
            assert !PassedOver(streams[0]);
          }
        }
      }
    }
  }

  /** A check that neither passes nor reports "not a GoPro video" is the
      `KeyError` on the handler name. */
  lemma {:induction false} GoProCheckErrors(videoPath: string, streams: seq<Stream>)
    ensures GoProCheck(videoPath, streams) in {Pass, Fail(NotGoProVideo(videoPath)), Fail(MissingKey(HandlerKey))}
    decreases |streams|
  {
    if streams != [] {
      GoProCheckErrors(videoPath, streams[1..]);
    }
  }

  /** When every stream has a handler name, the check passes iff some handler
      name contains "GoPro", and fails with "not a GoPro video" otherwise. */
  lemma {:induction false} GoProCheckWithHandlers(videoPath: string, streams: seq<Stream>)
    requires forall i :: 0 <= i < |streams| ==> HasHandler(streams[i])
    ensures GoProCheck(videoPath, streams) == Pass <==> exists i :: 0 <= i < |streams| && IsGoProStream(streams[i])
    ensures GoProCheck(videoPath, streams) != Pass ==> GoProCheck(videoPath, streams) == Fail(NotGoProVideo(videoPath))
  {
    GoProCheckNotGoPro(videoPath, streams);
    GoProCheckPass(videoPath, streams);
    GoProCheckErrors(videoPath, streams);
    if GoProCheck(videoPath, streams) == Fail(MissingKey(HandlerKey)) {
      MissingKeyWitness(videoPath, streams);
    }
  }

  /** A missing-key failure points at a stream without a handler name. */
  lemma {:induction false} MissingKeyWitness(videoPath: string, streams: seq<Stream>)
    requires GoProCheck(videoPath, streams) == Fail(MissingKey(HandlerKey))
    ensures exists i :: 0 <= i < |streams| && !HasHandler(streams[i])
    decreases |streams|
  {
    if HasHandler(streams[0]) {
      MissingKeyWitness(videoPath, streams[1..]);
      var i :| 0 <= i < |streams[1..]| && !HasHandler(streams[1..][i]);
      assert !HasHandler(streams[i + 1]);
    }
  }

  /** `ensure_valid_gopro_video`: a flag-setting loop over the streams. */
  method EnsureValidGoProVideo(videoPath: string, streams: seq<Stream>) returns (r: Outcome<Error>)
    ensures r == GoProCheck(videoPath, streams)
  {
    var found := false;
    var i := 0;
    while i < |streams|
      invariant 0 <= i <= |streams|
      invariant !found
      invariant GoProCheck(videoPath, streams[i..]) == GoProCheck(videoPath, streams)
    {
      assert streams[i..][1..] == streams[i + 1..];
      var tags := streams[i].tags;
      if HandlerKey !in tags {
        return Fail(MissingKey(HandlerKey));
      }
      if Contains(tags[HandlerKey], BrandMarker) {
        found := true;
        break;
      }
      i := i + 1;
    }
    if !found {
      return Fail(NotGoProVideo(videoPath));
    }
    return Pass;
  }

  // ----- ffmpeg_command -----

  /** `str(stream_index)`: the decimal index, or "None" when the lookup found
      no stream. */
  function IndexText(index: Option<nat>): string {
    match index
    case None => "None"
    case Some(n) => NatToString(n)
  }

  /** `ffmpeg_command`: copy stream `0:<index>` of the video, unconverted and
      overwriting, into the output path. */
  function FfmpegCommand(videoPath: string, index: Option<nat>, outputPath: string): (command: seq<string>)
    ensures |command| == 13 && command[0] == "ffmpeg"
    ensures command[5] == videoPath && command[12] == outputPath
    ensures command[9] == "0:" + IndexText(index)
    ensures command[1..5] == ["-v", "quiet", "-y", "-i"]
    ensures command[6..9] == ["-codec", "copy", "-map"] && command[10..12] == ["-f", "rawvideo"]
  {
    var command := ["ffmpeg", "-v", "quiet", "-y", "-i", videoPath, "-codec", "copy",
                    "-map", "0:" + IndexText(index), "-f", "rawvideo", outputPath];
    assert command[1..5] == ["-v", "quiet", "-y", "-i"];
    assert command[6..9] == ["-codec", "copy", "-map"];
    assert command[10..12] == ["-f", "rawvideo"];
    command
  }

  /** The stream selector names exactly the stream that was looked up: its
      index can be read back from the command. */
  lemma {:induction false} MapArgumentRoundTrip(videoPath: string, n: nat, outputPath: string)
    ensures var arg := FfmpegCommand(videoPath, Some(n), outputPath)[9];
      && |arg| > 2 && arg[..2] == "0:" && AllDigits(arg[2..]) && ParseDigits(arg[2..]) == n
  {
    NatToStringRoundTrip(n);
    var arg := FfmpegCommand(videoPath, Some(n), outputPath)[9];
    assert arg[2..] == NatToString(n);
  }

  // ----- retrieve_camera_serial (the part after the demux) -----

  newtype byte = x: int | 0 <= x < 256

  const HeaderLength := 87
  const SerialBytesLength := 14

  /** `f.read(87)` then `f.read(14)`: each read returns what is left when the
      file is shorter. */
  function SerialBytes(blob: seq<byte>): (r: seq<byte>)
    ensures |blob| >= HeaderLength + SerialBytesLength ==> |r| == SerialBytesLength
    ensures |blob| <= HeaderLength ==> r == []
    ensures HeaderLength < |blob| < HeaderLength + SerialBytesLength ==> |r| == |blob| - HeaderLength
    ensures forall k :: 0 <= k < |r| ==> r[k] == blob[HeaderLength + k]
  {
    var start := if |blob| < HeaderLength then |blob| else HeaderLength;
    var end := if |blob| < HeaderLength + SerialBytesLength then |blob| else HeaderLength + SerialBytesLength;
    blob[start..end]
  }

  /** A device-info stream laid out as an 87-byte header followed by the
      14-byte serial yields exactly that serial, whatever follows it. */
  lemma {:induction false} SerialBytesOfLayout(header: seq<byte>, serial: seq<byte>, rest: seq<byte>)
    requires |header| == HeaderLength && |serial| == SerialBytesLength
    ensures SerialBytes(header + serial + rest) == serial
  {
    var r := SerialBytes(header + serial + rest);
    assert forall k :: 0 <= k < |r| ==> r[k] == serial[k];
  }

  /** `decode("utf-8")` restricted to ASCII: each byte below 128 is the
      character with that code; any other byte is a decoding failure. */
  function DecodeAscii(bytes: seq<byte>): (r: Option<string>)
    ensures r.Some? <==> forall k :: 0 <= k < |bytes| ==> bytes[k] < 128
    ensures r.Some? ==> |r.value| == |bytes| && forall k :: 0 <= k < |bytes| ==> r.value[k] as int == bytes[k] as int
    decreases |bytes|
  {
    if bytes == [] then Some([])
    else if bytes[0] >= 128 then None
    else match DecodeAscii(bytes[1..])
      case None => None
      case Some(tail) => Some([bytes[0] as int as char] + tail)
  }

  /** The camera serial read from the device-info stream. */
  function DeviceSerial(blob: seq<byte>): Option<string> {
    DecodeAscii(SerialBytes(blob))
  }

  /** A HERO6 Black serial after the 87-byte header is read back as text,
      whatever follows it. */
  lemma {:induction false} DeviceSerialExample(header: seq<byte>, rest: seq<byte>)
    requires |header| == HeaderLength
    ensures DeviceSerial(header + [67, 51, 50, 50, 49, 50, 51, 52, 53, 54, 55, 56, 57, 48] + rest) == Some("C3221234567890")
  {
    var serial: seq<byte> := [67, 51, 50, 50, 49, 50, 51, 52, 53, 54, 55, 56, 57, 48];
    SerialBytesOfLayout(header, serial, rest);
    var decoded := DecodeAscii(serial);
    assert decoded.Some? && |decoded.value| == 14;
    assert decoded.value == "C3221234567890";
  }
}
