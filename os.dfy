/** The outside world the pipeline changes: the file system, seen as the set
    of paths of its regular files, and the subprocesses it starts. */
module Os {
  import opened Wrappers
  import opened Errors
  import opened Paths

  class FileSystem {
    /** The working directory relative paths resolve against. */
    const cwd: AbsoluteDir
    /** The resolved paths of the regular files. */
    var files: set<string>

    constructor (cwd: AbsoluteDir, files: set<string>)
      ensures this.cwd == cwd && this.files == files
    {
      this.cwd := cwd;
      this.files := files;
    }

    function Resolve(p: string): string {
      AbsPath(cwd, p)
    }

    /** `os.path.isfile(p)`. */
    predicate IsFile(p: string)
      reads this
    {
      Resolve(p) in files
    }

    /** `os.rename(src, dst)`: fails when `src` is not a file; otherwise the
        file moves to `dst`, replacing what was there. */
    method Rename(src: string, dst: string) returns (r: Outcome<Error>)
      modifies this
      ensures r == if old(IsFile(src)) then Pass else Fail(FileNotFound(src))
      ensures files == if r.Pass? then old(files) - {Resolve(src)} + {Resolve(dst)} else old(files)
    {
      if Resolve(src) !in files {
        return Fail(FileNotFound(src));
      }
      files := files - {Resolve(src)} + {Resolve(dst)};
      return Pass;
    }

    /** `os.remove(p)`: fails when `p` is not a file. */
    method Remove(p: string) returns (r: Outcome<Error>)
      modifies this
      ensures r == if old(IsFile(p)) then Pass else Fail(FileNotFound(p))
      ensures files == old(files) - {Resolve(p)}
    {
      if Resolve(p) !in files {
        return Fail(FileNotFound(p));
      }
      files := files - {Resolve(p)};
      return Pass;
    }

    /** An external tool writes `p`, creating or overwriting it. */
    method Write(p: string)
      modifies this
      ensures files == old(files) + {Resolve(p)}
    {
      files := files + {Resolve(p)};
    }
  }

  /** The subprocesses started, in order. What each one does is outside the
      model; its exit code is an input. */
  class Shell {
    var history: seq<seq<string>>

    constructor ()
      ensures history == []
    {
      history := [];
    }

    /** `call_subprocess`: runs the command and raises `CalledProcessError`
        on a non-zero exit code. */
    method Call(command: seq<string>, exitCode: int) returns (r: Outcome<Error>)
      modifies this
      ensures history == old(history) + [command]
      ensures r == if exitCode == 0 then Pass else Fail(ToolFailed(exitCode, command))
    {
      history := history + [command];
      if exitCode != 0 {
        return Fail(ToolFailed(exitCode, command));
      }
      return Pass;
    }
  }
}
