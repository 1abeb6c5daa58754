/**
 * The backend file service: it reads one file of a cloned repository after
 * guarding the requested path against traversal out of the repository, and
 * finds the repository's README under one of four spellings.
 *
 * The file system is a map from path to content; a path missing from it is a
 * file that cannot be read.
 */
module FileService {
  import opened Wrappers
  import opened Strings
  import opened Paths
  import RepoService

  const PathRequired: string := "File path is required"
  const InvalidPath: string := "Invalid file path"

  /** The message `fs.readFile` fails with for a path that cannot be read. */
  function ReadFailed(fullPath: string): string {
    "ENOENT: no such file or directory, open '" + fullPath + "'"
  }

  /** A run of `..` units, each followed by `/`, by `\` or by the end of the text. */
  predicate ParentUnits(p: string)
    decreases |p|
  {
    p == "" || p == ".." || ((StartsWith(p, "../") || StartsWith(p, "..\\")) && ParentUnits(p[3..]))
  }

  /** `.replace(/^(\.\.(\/|\\|$))+/, '')`: the longest leading run of `..` units removed. */
  function StripParentPrefix(s: string): (r: string)
    ensures EndsWith(s, r) && ParentUnits(s[..|s| - |r|])
    ensures !StartsWith(r, "../") && !StartsWith(r, "..\\") && r != ".."
    decreases |s|
  {
    if StartsWith(s, "../") || StartsWith(s, "..\\") then
      var r := StripParentPrefix(s[3..]);
      StripUnitStep(s, r);
      r
    else if s == ".." then ""
    else
      assert s[..0] == "";
      s
  }

  /** One more leading unit in front of a stripped run is still a stripped run. */
  lemma StripUnitStep(s: string, r: string)
    requires StartsWith(s, "../") || StartsWith(s, "..\\")
    requires EndsWith(s[3..], r) && ParentUnits(s[3..][..|s[3..]| - |r|])
    ensures EndsWith(s, r) && ParentUnits(s[..|s| - |r|])
  {
    var u := s[..|s| - |r|];
    assert u[3..] == s[3..][..|s[3..]| - |r|];
    assert StartsWith(u, "../") || StartsWith(u, "..\\") by {
      assert u[..3] == s[..3];
    }
    assert s[|s| - |r|..] == s[3..][|s[3..]| - |r|..];
  }

  /** The text after the guard's normalisation. */
  function GuardedPath(relativeFilePath: string): string {
    StripParentPrefix(Normalize(relativeFilePath))
  }

  /**
   * `readFile`: an empty or blank path is refused, the path is normalised and
   * stripped of leading `..` units, joined to the repository directory, and
   * refused when its resolved form does not start with the resolved
   * repository directory; otherwise the file's content, if it can be read.
   */
  function ReadFile(fs: map<string, string>, cwd: string, tempPath: string,
                    owner: string, name: string, relativeFilePath: string): (r: Result<string>)
    ensures Trim(relativeFilePath) == "" ==> r == Err(PathRequired)
    ensures Trim(relativeFilePath) != "" ==>
      var repoRoot := RepoService.RepoPath(tempPath, owner, name);
      var fullPath := JoinPaths(repoRoot, GuardedPath(relativeFilePath));
      var inside := StartsWith(Resolve(cwd, fullPath), Resolve(cwd, repoRoot));
      && (!inside ==> r == Err(InvalidPath))
      && (inside && fullPath !in fs ==> r == Err(ReadFailed(fullPath)))
      && (inside && fullPath in fs ==> r == Ok(fs[fullPath]))
    ensures r.Ok? ==>
      var repoRoot := RepoService.RepoPath(tempPath, owner, name);
      var fullPath := JoinPaths(repoRoot, GuardedPath(relativeFilePath));
      && Trim(relativeFilePath) != ""
      && StartsWith(Resolve(cwd, fullPath), Resolve(cwd, repoRoot))
      && fullPath in fs && r.value == fs[fullPath]
  {
    if relativeFilePath == "" || Trim(relativeFilePath) == "" then Err(PathRequired)
    else
      var normalized := GuardedPath(relativeFilePath);
      var repoRoot := RepoService.RepoPath(tempPath, owner, name);
      var fullPath := JoinPaths(repoRoot, normalized);
      if !StartsWith(Resolve(cwd, fullPath), Resolve(cwd, repoRoot)) then Err(InvalidPath)
      else if fullPath !in fs then Err(ReadFailed(fullPath))
      else Ok(fs[fullPath])
  }

  /** The stripped path never starts with another `..` unit, so stripping twice changes nothing. */
  lemma StripIdempotent(s: string)
    ensures StripParentPrefix(StripParentPrefix(s)) == StripParentPrefix(s)
  {
  }

  /** A path that does not start with a `..` unit is left as it is. */
  lemma StripKeepsPlainPaths(s: string)
    requires !StartsWith(s, "..")
    ensures StripParentPrefix(s) == s
  {
    assert !StartsWith(s, "../") && !StartsWith(s, "..\\") by {
      if |s| >= 3 {
        assert s[..2] == s[..3][..2];
      }
    }
  }

  /** The first piece of a text that starts with none of the `..` units is not `..`. */
  lemma FirstSegmentNotParent(s: string)
    requires !StartsWith(s, "../") && s != ".."
    ensures Split(s, '/')[0] != ".."
  {
    if '/' in s {
      var i := IndexOf(s, '/');
      if i == 2 {
        assert s[..3] == s[..2] + "/";
      }
    }
  }

  /** Removing a leading `../` drops the first segment, so the order of the rest is kept. */
  lemma SlashUnitOrder(s: string)
    requires StartsWith(s, "../") && ParentsFirst(Split(s, '/'))
    ensures ParentsFirst(Split(s[3..], '/'))
  {
    assert s == ".." + "/" + s[3..];
    SplitCons("..", s[3..], '/');
    assert forall k | 0 <= k < |Split(s[3..], '/')| :: Split(s[3..], '/')[k] == Split(s, '/')[k + 1];
  }

  /**
   * Removing a leading `..\` shortens the first segment, which was not `..`,
   * so no later segment is `..`.
   */
  lemma BackslashUnitOrder(s: string)
    requires StartsWith(s, "..\\") && ParentsFirst(Split(s, '/'))
    ensures ParentsFirst(Split(s[3..], '/'))
  {
    var u := s[3..];
    assert s == "..\\" + u;
    SplitPrepend("..\\", u);
    var before, after := Split(s, '/'), Split(u, '/');
    assert before[0] != ".." by {
      assert |before[0]| >= 3;
    }
    OrderAfterFirst(before, after);
  }

  /** With the first segment not `..`, a list agreeing past its head has no `..` past its head. */
  lemma OrderAfterFirst(before: seq<string>, after: seq<string>)
    requires |before| > 0 && before[0] != ".." && ParentsFirst(before)
    requires |after| > 0 && after[1..] == before[1..]
    ensures ParentsFirst(after)
  {
    forall k | 1 <= k < |after|
      ensures after[k] != ".."
    {
      assert after[k] == after[1..][k - 1] == before[k];
    }
  }

  /**
   * Stripping the leading `..` units from a path whose `..` segments all come
   * first leaves no `..` segment at all.
   */
  lemma {:induction false} StripLeavesNoParent(s: string)
    requires ParentsFirst(Split(s, '/'))
    ensures NoParent(Split(StripParentPrefix(s), '/'))
    decreases |s|
  {
    if StartsWith(s, "../") {
      SlashUnitOrder(s);
      StripLeavesNoParent(s[3..]);
    } else if StartsWith(s, "..\\") {
      BackslashUnitOrder(s);
      StripLeavesNoParent(s[3..]);
    } else if s != ".." {
      FirstSegmentNotParent(s);
    }
  }

  /**
   * The guard's normalisation leaves no `..` segment in the path it joins to
   * the repository directory: traversal out of the repository is removed
   * before the resolved-prefix check.
   */
  lemma GuardedPathHasNoParent(relativeFilePath: string)
    ensures NoParent(Split(GuardedPath(relativeFilePath), '/'))
  {
    var n := Normalize(relativeFilePath);
    if |relativeFilePath| > 0 && relativeFilePath[0] == '/' {
      NormalizeAbsoluteOrder(relativeFilePath);
    } else if |relativeFilePath| > 0 {
      NormalizeRelativeOrder(relativeFilePath);
    } else {
      assert Split(".", '/') == ["."];
    }
    StripLeavesNoParent(n);
  }

  /** The spellings `readReadme` tries, in order. */
  const ReadmeNames: seq<string> := ["README.md", "readme.md", "Readme.md", "README.MD"]

  /** The content of the first readable candidate under `repoRoot`, or nothing. */
  function FirstReadable(fs: map<string, string>, repoRoot: string, names: seq<string>): Option<string> {
    if |names| == 0 then None
    else if JoinPaths(repoRoot, names[0]) in fs then Some(fs[JoinPaths(repoRoot, names[0])])
    else FirstReadable(fs, repoRoot, names[1..])
  }

  /**
   * The README found is the content of the first candidate that can be read:
   * every earlier candidate cannot be read; nothing is found exactly when no
   * candidate can be read.
   */
  lemma {:induction false} FirstReadableIsFirst(fs: map<string, string>, repoRoot: string, names: seq<string>)
    ensures FirstReadable(fs, repoRoot, names).None? <==>
      forall k | 0 <= k < |names| :: JoinPaths(repoRoot, names[k]) !in fs
    ensures FirstReadable(fs, repoRoot, names).Some? ==>
      exists i | 0 <= i < |names| ::
        && JoinPaths(repoRoot, names[i]) in fs
        && FirstReadable(fs, repoRoot, names) == Some(fs[JoinPaths(repoRoot, names[i])])
        && forall k | 0 <= k < i :: JoinPaths(repoRoot, names[k]) !in fs
    decreases |names|
  {
    if |names| > 0 && JoinPaths(repoRoot, names[0]) !in fs {
      FirstReadableIsFirst(fs, repoRoot, names[1..]);
      if FirstReadable(fs, repoRoot, names).Some? {
        var i :| 0 <= i < |names[1..]| && JoinPaths(repoRoot, names[1..][i]) in fs
          && FirstReadable(fs, repoRoot, names[1..]) == Some(fs[JoinPaths(repoRoot, names[1..][i])])
          && forall k | 0 <= k < i :: JoinPaths(repoRoot, names[1..][k]) !in fs;
        assert JoinPaths(repoRoot, names[i + 1]) in fs;
      }
    }
  }

  /** `readReadme`: the candidates in order, the first one that can be read wins. */
  method ReadReadme(fs: map<string, string>, tempPath: string, owner: string, name: string)
    returns (content: Option<string>)
    ensures content == FirstReadable(fs, RepoService.RepoPath(tempPath, owner, name), ReadmeNames)
  {
    var repoRoot := RepoService.RepoPath(tempPath, owner, name);
    for i := 0 to |ReadmeNames|
      invariant FirstReadable(fs, repoRoot, ReadmeNames) == FirstReadable(fs, repoRoot, ReadmeNames[i..])
    {
      var fullPath := JoinPaths(repoRoot, ReadmeNames[i]);
      assert ReadmeNames[i..][1..] == ReadmeNames[i + 1..];
      if fullPath in fs {
        return Some(fs[fullPath]);
      }
    }
    return None;
  }
}
