/** The failures the pipeline can raise. Every one of them aborts the run;
    nothing is caught or retried. */
module Errors {

  datatype Error =
      /** `ensure_valid_path`: the video path is not a regular file. */
    | NotAFile(path: string)
      /** `get_ffprobe_streams` returned `None` (the prober wrote to its error
          stream), which the next step then subscripts. */
    | ProbeFailed
      /** `ensure_valid_gopro_video`: no `handler_name` contains "GoPro". */
    | NotGoProVideo(path: string)
      /** A `KeyError` on a probe document. */
    | MissingKey(key: string)
      /** `get_basename`: no recording id in the filename. */
    | UnknownFilenameFormat(path: string)
      /** `call_subprocess`: the command exited with a non-zero code. */
    | ToolFailed(exitCode: int, command: seq<string>)
      /** `bytes.decode("utf-8")` on the device-info serial. */
    | DecodeFailed
      /** `os.rename` / `os.remove`: the source path is not a file. */
    | FileNotFound(path: string)
}
