/** The `os.path` functions the pipeline uses and the paths it derives from
    the video's name. */
module Paths {
  import opened Wrappers
  import opened Text

  /** The position of the last '/' in `p`. */
  function LastSlash(p: string): (r: Option<nat>)
    ensures r.Some? ==> r.value < |p| && p[r.value] == '/' && '/' !in p[r.value + 1..]
    ensures r.None? ==> '/' !in p
    decreases |p|
  {
    if p == [] then None
    else if p[|p| - 1] == '/' then Some(|p| - 1)
    else
      var r := LastSlash(p[..|p| - 1]);
      assert r.Some? ==> p[r.value + 1..] == p[..|p| - 1][r.value + 1..] + [p[|p| - 1]];
      assert r.None? ==> p == p[..|p| - 1] + [p[|p| - 1]];
      r
  }

  /** `os.path.basename(p)`: what follows the last '/'. */
  function Basename(p: string): string {
    match LastSlash(p)
    case None => p
    case Some(k) => p[k + 1..]
  }

  /** The basename is the last component: it holds no '/', ends the path,
      and is preceded by nothing or by a '/'. */
  lemma {:induction false} BasenameSpec(p: string)
    ensures var b := Basename(p);
      && '/' !in b && |b| <= |p| && p[|p| - |b|..] == b
      && (|b| < |p| ==> p[|p| - |b| - 1] == '/')
  {
  }

  /** A working directory as `os.getcwd()` gives it: an absolute path. */
  type AbsoluteDir = p: string | HasPrefix(p, "/") witness "/"

  /** `os.path.join(a, b)`: an absolute `b` replaces `a`; otherwise `a` is
      kept in front, with one '/' between them unless `a` is empty or
      already ends in '/'. */
  function Join(a: string, b: string): string {
    if HasPrefix(b, "/") then b
    else if a == [] || a[|a| - 1] == '/' then a + b
    else a + "/" + b
  }

  /** The joined path ends with its second part and, when that part is
      relative, starts with the first. */
  lemma {:induction false} JoinEnds(a: string, b: string)
    ensures HasSuffix(Join(a, b), b)
    ensures !HasPrefix(b, "/") ==> HasPrefix(Join(a, b), a)
  {
    if !HasPrefix(b, "/") && a != [] && a[|a| - 1] != '/' {
      assert (a + "/" + b)[|a + "/" + b| - |b|..] == b;
    }
  }

  /** Joining keeps every suffix of the second part. */
  lemma {:induction false} JoinKeepsSuffix(a: string, b: string, e: string)
    requires HasSuffix(b, e)
    ensures HasSuffix(Join(a, b), e)
  {
    JoinEnds(a, b);
    SuffixOfSuffix(Join(a, b), b, e);
  }

  /** `os.path.abspath(p)` against the working directory `cwd`: the path
      as given, with the directory in front when it is relative. */
  function AbsPath(cwd: string, p: string): string {
    Join(cwd, p)
  }

  /** Against an absolute working directory every resolved path is
      absolute, and resolving it again changes nothing, so a path taken from
      `abspath` names the same file as the path it came from. */
  lemma {:induction false} AbsPathIdempotent(cwd: AbsoluteDir, p: string)
    ensures HasPrefix(AbsPath(cwd, p), "/")
    ensures AbsPath(cwd, AbsPath(cwd, p)) == AbsPath(cwd, p)
  {
    JoinEnds(cwd, p);
    if !HasPrefix(p, "/") {
      assert AbsPath(cwd, p)[..1] == AbsPath(cwd, p)[..|cwd|][..1];
    }
  }

  /** `os.path.abspath(os.path.join(p, os.pardir))` for an absolute `p`: the
      directory part, "/" for a file at the root. */
  function ParentDir(p: string): string {
    match LastSlash(p)
    case None => ""
    case Some(k) => if k == 0 then "/" else p[..k]
  }

  /** The parent directory is a prefix of the path, and absolute when the
      path is. */
  lemma {:induction false} ParentDirPrefix(p: string)
    ensures HasPrefix(p, ParentDir(p))
    ensures HasPrefix(p, "/") ==> HasPrefix(ParentDir(p), "/")
  {
    match LastSlash(p)
    case None =>
      assert !HasPrefix(p, "/") by {
        if p != [] { assert p[0] in p; }
      }
    case Some(k) =>
      if k == 0 {
        assert p[..1] == [p[0]];
      } else {
        assert p[..k][..1] == p[..1];
      }
  }

  /** The telemetry binary next to the video as it was named on the command
      line. */
  function TelemetryPath(rawVideoPath: string): string {
    rawVideoPath + ".bin"
  }

  /** A converted output: `os.path.join(video_dir, filename + ext)`. */
  function OutputPath(videoDir: string, filename: string, ext: string): string {
    Join(videoDir, filename + ext)
  }

  /** A step runs its tool when reprocessing is forced or its output is
      absent. */
  predicate ShouldRun(reprocess: bool, outputExists: bool) {
    reprocess || !outputExists
  }

  /** Joining keeps a suffix appended to the second part: making a path by
      appending text to another path then resolving it is the same as
      resolving first and appending after. */
  lemma {:induction false} JoinAppend(a: string, p: string, s: string)
    requires p != [] || !HasPrefix(s, "/")
    ensures Join(a, p + s) == Join(a, p) + s
  {
    if p != [] {
      assert (p + s)[..1] == p[..1];
      assert HasPrefix(p + s, "/") == HasPrefix(p, "/");
    } else {
      assert p + s == s;
    }
    if HasPrefix(p, "/") {
    } else if a == [] || a[|a| - 1] == '/' {
      assert a + (p + s) == (a + p) + s;
    } else {
      assert a + "/" + (p + s) == (a + "/" + p) + s;
    }
  }

  /** What `AbsPath` puts in front of a path. */
  function ResolvedPrefix(cwd: string, p: string): string {
    if HasPrefix(p, "/") then [] else if cwd == [] || cwd[|cwd| - 1] == '/' then cwd else cwd + "/"
  }

  /** The directory part of a path, up to and including its last '/'. */
  function DirPart(p: string): string {
    match LastSlash(p)
    case None => []
    case Some(k) => p[..k + 1]
  }

  /** `AbsPath` puts its prefix in front of the path as given. */
  lemma {:induction false} AbsPathPrefixed(cwd: string, p: string)
    ensures AbsPath(cwd, p) == ResolvedPrefix(cwd, p) + p
    ensures ResolvedPrefix(cwd, p) == [] || ResolvedPrefix(cwd, p)[|ResolvedPrefix(cwd, p)| - 1] == '/'
  {
    if !HasPrefix(p, "/") && cwd != [] && cwd[|cwd| - 1] != '/' {
      assert cwd + "/" + p == (cwd + "/") + p;
    }
  }

  /** A directory part followed by more text still ends in '/' or is empty. */
  lemma {:induction false} DirPartEnds(prefix: string, p: string)
    requires prefix == [] || prefix[|prefix| - 1] == '/'
    ensures var z := prefix + DirPart(p); z == [] || z[|z| - 1] == '/'
  {
    var q := DirPart(p);
    if q == [] {
      assert prefix + q == prefix;
    } else {
      assert q[|q| - 1] == '/';
      assert (prefix + q)[|prefix + q| - 1] == q[|q| - 1];
    }
  }

  /** The resolved video path is a directory part (empty or ending in '/')
      followed by the basename of the path as given, which holds no '/'. */
  lemma {:induction false} AbsPathSplit(cwd: string, p: string)
    ensures '/' !in Basename(p)
    ensures AbsPath(cwd, p) == (ResolvedPrefix(cwd, p) + DirPart(p)) + Basename(p)
    ensures var z := ResolvedPrefix(cwd, p) + DirPart(p); z == [] || z[|z| - 1] == '/'
  {
    var q, b := DirPart(p), Basename(p);
    var prefix := ResolvedPrefix(cwd, p);
    PathSplit(p);
    AbsPathPrefixed(cwd, p);
    assert AbsPath(cwd, p) == prefix + (q + b);
    ConcatAssoc(prefix, q, b);
    DirPartEnds(prefix, p);
  }

  lemma {:induction false} PathSplit(p: string)
    ensures p == DirPart(p) + Basename(p)
  {
  }

  lemma {:induction false} NoLeadingSlash(b: string, ext: string)
    requires '/' !in b && !HasPrefix(ext, "/")
    ensures !HasPrefix(b + ext, "/")
  {
    if b != [] {
      assert (b + ext)[..1] == [b[0]];
    } else {
      assert b + ext == ext;
    }
  }

  /** Every converted output is a sibling of the video: for a resolved video
      path without a doubled '/', the output of `ext` is that path plus
      `ext`. */
  lemma {:induction false} OutputBesideVideo(v: string, ext: string)
    requires LastSlash(v).Some?
    requires LastSlash(v).value > 0 ==> v[LastSlash(v).value - 1] != '/'
    requires !HasPrefix(ext, "/")
    ensures OutputPath(ParentDir(v), Basename(v), ext) == v + ext
  {
    var k := LastSlash(v).value;
    var b := Basename(v);
    PathSplit(v);
    NoLeadingSlash(b, ext);
    var w := ParentDir(v);
    var d := DirPart(v);
    assert v + ext == d + (b + ext);
    ParentDirSpec(v);
    if k == 0 {
      JoinAfterSlash(w, b + ext);
    } else {
      JoinWithSlash(w, b + ext);
    }
  }

  lemma {:induction false} ParentDirSpec(v: string)
    requires LastSlash(v).Some?
    ensures LastSlash(v).value == 0 ==> ParentDir(v) == "/" == DirPart(v)
    ensures LastSlash(v).value > 0 ==> DirPart(v) == ParentDir(v) + "/" && ParentDir(v) != []
    ensures LastSlash(v).value > 0 ==> ParentDir(v)[|ParentDir(v)| - 1] == v[LastSlash(v).value - 1]
  {
    var k := LastSlash(v).value;
    if k > 0 {
      assert v[..k + 1] == v[..k] + [v[k]];
    } else {
      assert v[..1] == [v[0]];
    }
  }

  lemma {:induction false} JoinAfterSlash(w: string, x: string)
    requires w != [] && w[|w| - 1] == '/' && !HasPrefix(x, "/")
    ensures Join(w, x) == w + x
  {
  }

  lemma {:induction false} JoinWithSlash(w: string, x: string)
    requires w != [] && w[|w| - 1] != '/' && !HasPrefix(x, "/")
    ensures Join(w, x) == (w + "/") + x
  {
  }

  /** A joined path ends with the last character of its second part. */
  lemma {:induction false} JoinLast(a: string, b: string)
    requires b != []
    ensures Join(a, b) != [] && Join(a, b)[|Join(a, b)| - 1] == b[|b| - 1]
  {
    if HasPrefix(b, "/") {
    } else if a == [] || a[|a| - 1] == '/' {
      assert (a + b)[|a + b| - 1] == b[|b| - 1];
    } else {
      assert (a + "/" + b)[|a + "/" + b| - 1] == b[|b| - 1];
    }
  }

  /** A resolved output path ends with the last character of its extension. */
  lemma {:induction false} OutputLast(cwd: string, videoDir: string, filename: string, e: string)
    requires e != []
    ensures var o := AbsPath(cwd, OutputPath(videoDir, filename, e)); o != [] && o[|o| - 1] == e[|e| - 1]
  {
    var n := filename + e;
    assert n[|n| - 1] == e[|e| - 1];
    JoinLast(videoDir, n);
    JoinLast(cwd, OutputPath(videoDir, filename, e));
  }

  /** Outputs of different extensions never resolve to the same file, when
      the extensions end in different characters. */
  lemma {:induction false} OutputPathsDistinct(cwd: string, videoDir: string, filename: string, e1: string, e2: string)
    requires e1 != [] && e2 != [] && e1[|e1| - 1] != e2[|e2| - 1]
    ensures AbsPath(cwd, OutputPath(videoDir, filename, e1)) != AbsPath(cwd, OutputPath(videoDir, filename, e2))
  {
    OutputLast(cwd, videoDir, filename, e1);
    OutputLast(cwd, videoDir, filename, e2);
  }
}
