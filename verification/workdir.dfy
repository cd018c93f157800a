/** The work directory setting: trailing-slash normalisation, validation
    against the file system, and the getter's empty-string default. */
module WorkDir {

  import opened Types
  import opened Store

  /** What `stat()` reports about a path. */
  datatype PathStat = Missing | NotADirectory | Directory

  /** The file system as seen through `stat()`. */
  type FileSystem = string -> PathStat

  /** `r` is the non-empty path `s` with its trailing slashes removed, where
      the first character is never removed: `r` is a non-empty prefix of `s`,
      everything cut off is a slash, and `r` ends in a slash only when it is
      one character long. */
  ghost predicate IsTrimmed(s: string, r: string) {
    && 1 <= |r| <= |s|
    && r == s[..|r|]
    && (forall k :: |r| <= k < |s| ==> s[k] == '/')
    && (|r| == 1 || r[|r| - 1] != '/')
  }

  /** The normalised work directory name. */
  function TrimTrailingSlashes(s: string): (r: string)
    requires |s| > 0
    ensures IsTrimmed(s, r)
    decreases |s|
  {
    if |s| == 1 || s[|s| - 1] != '/' then s
    else TrimTrailingSlashes(s[..|s| - 1])
  }

  /** The description `IsTrimmed` admits exactly one result. */
  lemma TrimmedIsUnique(s: string, r1: string, r2: string)
    requires IsTrimmed(s, r1) && IsTrimmed(s, r2)
    ensures r1 == r2
  {
    if |r1| != |r2| {
      assert false;
    }
  }

  /** Normalising an already normalised name changes nothing. */
  lemma TrimIdempotent(s: string)
    requires |s| > 0
    ensures TrimTrailingSlashes(TrimTrailingSlashes(s)) == TrimTrailingSlashes(s)
  {
    var r := TrimTrailingSlashes(s);
    assert IsTrimmed(r, r) by {
      assert r == r[..|r|];
    }
    TrimmedIsUnique(r, r, TrimTrailingSlashes(r));
  }

  /** The scan `setWorkDir` runs: start at the last character and step left
      while it is a slash, never past index 0. A negative result means the
      value is empty; otherwise `s[..i+1]` is the normalised name. */
  method LastKeptIndex(s: string) returns (i: int)
    ensures i < 0 <==> |s| == 0
    ensures |s| > 0 ==> 0 <= i < |s| && s[..i + 1] == TrimTrailingSlashes(s)
  {
    i := |s| - 1;
    while i > 0 && s[i] == '/'
      invariant -1 <= i < |s|
      invariant i < 0 <==> |s| == 0
      invariant forall k :: i < k < |s| ==> s[k] == '/'
      decreases i
    {
      i := i - 1;
    }
    if |s| > 0 {
      var r := s[..i + 1];
      assert IsTrimmed(s, r) by {
        assert |r| == 1 || r[|r| - 1] == s[i];
      }
      TrimmedIsUnique(s, r, TrimTrailingSlashes(s));
    }
  }

  /** `setWorkDir`: an empty value, a path `stat()` cannot reach, or a path
      that is not a directory is rejected with `ErrWrkDir` and the store is
      left as it was; otherwise the normalised name becomes the work
      directory and nothing else changes. */
  function SetWorkDir(g: Globals, v: string, fs: FileSystem): (r: Step)
    ensures r.ret == Ok || r.ret == ErrWrkDir
    ensures r.ret == Ok <==> |v| > 0 && fs(TrimTrailingSlashes(v)) == Directory
    ensures r.ret == ErrWrkDir ==> r.g == g
    ensures r.ret == Ok ==> && r.g.workDir.Some?
                            && IsTrimmed(v, r.g.workDir.value)
                            && fs(r.g.workDir.value) == Directory
    ensures AgreeOutside(r.g, g, {StrSlot(WorkDir)})
  {
    if |v| == 0 then Step(g, ErrWrkDir)
    else
      var dir := TrimTrailingSlashes(v);
      match fs(dir)
      case Missing => Step(g, ErrWrkDir)
      case NotADirectory => Step(g, ErrWrkDir)
      case Directory => Step(Write(g, StrSlot(WorkDir), StrV(Some(dir))), Ok)
  }

  /** `GetWorkDir`: the work directory, or "" while it is unset. */
  function GetWorkDir(g: Globals): (r: string)
    ensures g.workDir.Some? ==> r == g.workDir.value
    ensures g.workDir.None? ==> r == ""
  {
    GetOr(g.workDir, "")
  }

  /** What a successful `setWorkDir` stores is what `GetWorkDir` returns, and
      storing it a second time stores the same name again. */
  lemma WorkDirRoundTrip(g: Globals, v: string, fs: FileSystem)
    requires SetWorkDir(g, v, fs).ret == Ok
    ensures GetWorkDir(SetWorkDir(g, v, fs).g) == TrimTrailingSlashes(v)
    ensures var g' := SetWorkDir(g, v, fs).g;
            SetWorkDir(g', GetWorkDir(g'), fs) == Step(g', Ok)
  {
    var g' := SetWorkDir(g, v, fs).g;
    TrimmedIsUnique(v, g'.workDir.value, TrimTrailingSlashes(v));
    TrimIdempotent(v);
  }

  /** The normalisation examples: trailing slashes go, a lone root stays. */
  lemma TrimExamples()
    ensures TrimTrailingSlashes("/var/log/rsyslog/") == "/var/log/rsyslog"
    ensures TrimTrailingSlashes("/") == "/"
    ensures TrimTrailingSlashes("//") == "/"
    ensures TrimTrailingSlashes("a//") == "a"
  {
    TrimmedIsUnique("/var/log/rsyslog/", TrimTrailingSlashes("/var/log/rsyslog/"), "/var/log/rsyslog");
    TrimmedIsUnique("//", TrimTrailingSlashes("//"), "/");
    TrimmedIsUnique("a//", TrimTrailingSlashes("a//"), "a");
  }
}
