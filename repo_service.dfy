/**
 * The backend repository service: it recognises GitHub repository URLs
 * (HTTPS form first, SSH form second), maps a repository to its directory
 * under the temporary clone root, clones it unless that directory already
 * exists.
 *
 * The file system is the set of paths that exist; the outcome of `mkdir` and
 * `git clone` is a parameter (`None` for success, `Some(message)` for the
 * error they throw).
 */
module RepoService {
  import opened Wrappers
  import opened Strings
  import opened Paths
  import opened GitHubUrl

  /** `parseGitHubUrl`: the HTTPS pattern's match, or else the SSH pattern's, or nothing. */
  function ParseGitHubUrl(url: string): (r: Option<RepoId>)
    ensures r.Some? ==> ValidOwner(r.value.owner) && PlainSegment(r.value.name)
  {
    var https := Search(url, HttpsLiteral);
    var r := if https.Some? then https else Search(url, SshLiteral);
    if r.Some? then
      SearchShape(url, if https.Some? then HttpsLiteral else SshLiteral);
      r
    else r
  }

  /** A successful search yields a valid owner and a name `normalize` keeps. */
  lemma SearchShape(url: string, literal: string)
    requires Search(url, literal).Some?
    ensures ValidOwner(Search(url, literal).value.owner)
    ensures PlainSegment(Search(url, literal).value.name)
  {
    SearchIsLeftmostMatch(url, literal);
    var n := Search(url, literal).value.name;
    assert n != "." && n != ".." by {
      assert n != "" && n[0] in n;
    }
  }

  /** `isValidGitHubUrl`. */
  predicate IsValidGitHubUrl(url: string) {
    ParseGitHubUrl(url).Some?
  }

  /** `path.join(tempRepoPath, owner, name)`. */
  function RepoPath(tempPath: string, owner: string, name: string): string {
    JoinAll([tempPath, owner, name])
  }

  /** The repository directory is named after the repository. */
  lemma RepoPathEndsInName(tempPath: string, owner: string, name: string)
    requires PlainSegment(name)
    ensures Basename(RepoPath(tempPath, owner, name)) == name
  {
    assert [tempPath, owner] + [name] == [tempPath, owner, name];
    JoinAllBasename([tempPath, owner], name);
  }

  /**
   * A URL is rejected exactly when neither pattern matches anywhere in it;
   * an accepted URL holds one of the two literals followed by `OWNER/NAME`
   * or `OWNER/NAME.git` up to its end.
   */
  lemma ParseCharacterisation(url: string)
    ensures ParseGitHubUrl(url).None? <==>
      (forall k | 0 <= k :: !MatchesAt(url, HttpsLiteral, k)) && (forall k | 0 <= k :: !MatchesAt(url, SshLiteral, k))
    ensures ParseGitHubUrl(url).Some? ==> var id := ParseGitHubUrl(url).value;
      exists k | 0 <= k ::
        || (OccursAt(url, HttpsLiteral, k) && TailShape(url[k + |HttpsLiteral|..], id.owner, id.name))
        || (OccursAt(url, SshLiteral, k) && TailShape(url[k + |SshLiteral|..], id.owner, id.name))
  {
    SearchIsLeftmostMatch(url, HttpsLiteral);
    SearchIsLeftmostMatch(url, SshLiteral);
  }

  /** Wherever the HTTPS pattern matches, that match is the parse result. */
  lemma HttpsMatchWins(url: string, i: int)
    requires MatchesAt(url, HttpsLiteral, i)
    ensures ParseGitHubUrl(url) == Search(url, HttpsLiteral) == MatchTail(url[i + |HttpsLiteral|..])
  {
    SearchFromLeftmost(url, HttpsLiteral, 0);
    var k :| 0 <= k && MatchesAt(url, HttpsLiteral, k) && Search(url, HttpsLiteral) == MatchTail(url[k + |HttpsLiteral|..])
      && forall k' | 0 <= k' < k :: !MatchesAt(url, HttpsLiteral, k');
    HttpsMatchUnique(url, i, k);
  }

  /** The suffix `(\.git)?` allows. */
  function GitSuffix(git: bool): string {
    if git then ".git" else ""
  }

  /** Any text before `github.com/OWNER/NAME[.git]` is ignored: the URL parses to that owner and name. */
  lemma ParsesHttpsForm(prefix: string, owner: string, name: string, git: bool)
    requires ValidOwner(owner) && ValidName(name)
    ensures var url := prefix + HttpsLiteral + owner + "/" + name + GitSuffix(git);
      ParseGitHubUrl(url) == Search(url, HttpsLiteral) == Some(RepoId(owner, name))
  {
    var url := prefix + HttpsLiteral + owner + "/" + name + GitSuffix(git);
    var i := |prefix|;
    assert url[i..i + |HttpsLiteral|] == HttpsLiteral;
    var tail := url[i + |HttpsLiteral|..];
    assert tail == owner + "/" + name + GitSuffix(git);
    MatchTailComplete(tail, owner, name);
    HttpsMatchWins(url, i);
  }

  /** In `a/b`, with no `/` in `a` or `b`, the only `/` is the one between them. */
  lemma OnlySlash(a: string, b: string, x: int)
    requires '/' !in a && '/' !in b
    requires 0 <= x < |a + "/" + b| && (a + "/" + b)[x] == '/'
    ensures x == |a|
  {
    var s := a + "/" + b;
    forall y | 0 <= y < |s| && y != |a|
      ensures s[y] != '/'
    {
      if y < |a| {
        assert s[y] == a[y] && a[y] in a;
      } else {
        assert s[y] == b[y - |a| - 1] && b[y - |a| - 1] in b;
      }
    }
  }

  /** An HTTPS match puts a `/` at the end of the literal and another one after the owner. */
  lemma HttpsMatchSlashes(s: string, k: int) returns (j: int)
    requires MatchesAt(s, HttpsLiteral, k)
    ensures 0 <= k && k + 10 < j < |s| && s[k + 10] == '/' && s[j] == '/'
  {
    var id := MatchedShape(s, HttpsLiteral, k);
    assert s[k + 10] == HttpsLiteral[10];
    j := k + 11 + |id.owner|;
    assert s[k + 11..][|id.owner|] == '/';
  }

  /** A URL with a single `/` never matches the HTTPS pattern. */
  lemma OneSlashNoHttps(a: string, b: string)
    requires '/' !in a && '/' !in b
    ensures Search(a + "/" + b, HttpsLiteral).None?
  {
    var s := a + "/" + b;
    forall k | 0 <= k
      ensures !MatchesAt(s, HttpsLiteral, k)
    {
      if MatchesAt(s, HttpsLiteral, k) {
        var j := HttpsMatchSlashes(s, k);
        OnlySlash(a, b, k + 10);
        OnlySlash(a, b, j);
      }
    }
    SearchIsLeftmostMatch(s, HttpsLiteral);
  }

  /** `git@github.com:OWNER/NAME[.git]` is accepted through the SSH pattern. */
  lemma ParsesSshForm(owner: string, name: string, git: bool)
    requires ValidOwner(owner) && ValidName(name)
    ensures ParseGitHubUrl(SshLiteral + owner + "/" + name + GitSuffix(git)) == Some(RepoId(owner, name))
    ensures Search(SshLiteral + owner + "/" + name + GitSuffix(git), HttpsLiteral).None?
  {
    var url := SshLiteral + owner + "/" + name + GitSuffix(git);
    assert '/' !in SshLiteral by {
      forall x | 0 <= x < |SshLiteral| ensures SshLiteral[x] != '/' { }
    }
    assert '/' !in GitSuffix(git) by {
      forall x | 0 <= x < |GitSuffix(git)| ensures GitSuffix(git)[x] != '/' { }
    }
    assert url == (SshLiteral + owner) + "/" + (name + GitSuffix(git));
    OneSlashNoHttps(SshLiteral + owner, name + GitSuffix(git));
    assert url[..|SshLiteral|] == SshLiteral;
    var tail := url[|SshLiteral|..];
    assert tail == owner + "/" + name + GitSuffix(git);
    MatchTailComplete(tail, owner, name);
  }

  /** What `cloneRepo` reports about a repository. */
  datatype RepoInfo = RepoInfo(owner: string, name: string, url: string, localPath: string)

  /** `CloneResult`: `success: true` with the repository, or `success: false` with the error. */
  datatype CloneResult = Cloned(info: RepoInfo) | CloneFailed(error: string)

  const InvalidUrl: string := "Invalid GitHub URL format"

  /** The service over the set of paths that exist on disk. */
  class RepoStore {
    const tempPath: string
    var present: set<string>

    constructor(tempPath: string, present: set<string>)
      ensures this.tempPath == tempPath && this.present == present
    {
      this.tempPath := tempPath;
      this.present := present;
    }

    /** `getRepoPath`: the directory a repository is cloned to. */
    function GetRepoPath(owner: string, name: string): string {
      RepoPath(tempPath, owner, name)
    }

    /**
     * `cloneRepo`: an unparsable URL fails without touching the disk; a
     * repository whose directory already exists is reported without cloning;
     * otherwise the clone either fails with its error message or creates the
     * directory.
     */
    method CloneRepo(url: string, failure: Option<string>) returns (r: CloneResult)
      modifies this
      ensures ParseGitHubUrl(url).None? ==> r == CloneFailed(InvalidUrl) && present == old(present)
      ensures ParseGitHubUrl(url).Some? ==>
        var id := ParseGitHubUrl(url).value;
        var localPath := GetRepoPath(id.owner, id.name);
        var info := RepoInfo(id.owner, id.name, url, localPath);
        if localPath in old(present) then r == Cloned(info) && present == old(present)
        else if failure.Some? then r == CloneFailed(failure.value) && present == old(present)
        else r == Cloned(info) && present == old(present) + {localPath}
      ensures r.Cloned? ==> r.info.localPath in present && Basename(r.info.localPath) == r.info.name
    {
      var parsed := ParseGitHubUrl(url);
      if parsed.None? {
        return CloneFailed(InvalidUrl);
      }
      var owner, name := parsed.value.owner, parsed.value.name;
      var localPath := RepoPath(tempPath, owner, name);
      RepoPathEndsInName(tempPath, owner, name);
      var info := RepoInfo(owner, name, url, localPath);
      if localPath in present {
        return Cloned(info);
      }
      if failure.Some? {
        return CloneFailed(failure.value);
      }
      present := present + {localPath};
      return Cloned(info);
    }
  }
}
