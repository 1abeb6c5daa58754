/**
 * The frontend's own check of a repository URL, made before any request is
 * sent. It knows only the HTTPS pattern of the backend, not the SSH one.
 */
module FrontendGraphService {
  import opened Wrappers
  import opened GitHubUrl
  import RepoService

  /** `parseGitHubUrl` of the frontend graph service: the HTTPS pattern only. */
  function ParseGitHubUrl(url: string): (r: Option<RepoId>)
    ensures r.Some? ==> RepoService.ParseGitHubUrl(url) == r
  {
    Search(url, HttpsLiteral)
  }

  /** `isValidGitHubUrl`. */
  predicate IsValidGitHubUrl(url: string) {
    ParseGitHubUrl(url).Some?
  }

  /**
   * Every URL the frontend accepts the backend accepts with the same owner
   * and name; the converse fails exactly for the SSH form, which the backend
   * accepts and the frontend rejects.
   */
  lemma FrontendAcceptsLess(url: string)
    ensures IsValidGitHubUrl(url) ==> RepoService.IsValidGitHubUrl(url)
    ensures RepoService.IsValidGitHubUrl(url) && !IsValidGitHubUrl(url) ==>
      exists k | 0 <= k :: MatchesAt(url, SshLiteral, k)
  {
    RepoService.ParseCharacterisation(url);
    SearchIsLeftmostMatch(url, HttpsLiteral);
  }

  /** `git@github.com:OWNER/NAME[.git]` passes the backend's check and fails the frontend's. */
  lemma SshFormOnlyInBackend(owner: string, name: string, git: bool)
    requires ValidOwner(owner) && ValidName(name)
    ensures var url := SshLiteral + owner + "/" + name + RepoService.GitSuffix(git);
      !IsValidGitHubUrl(url) && RepoService.ParseGitHubUrl(url) == Some(RepoId(owner, name))
  {
    RepoService.ParsesSshForm(owner, name, git);
  }

  /** The HTTPS form is accepted by both, with the same owner and name. */
  lemma HttpsFormInBoth(prefix: string, owner: string, name: string, git: bool)
    requires ValidOwner(owner) && ValidName(name)
    ensures var url := prefix + HttpsLiteral + owner + "/" + name + RepoService.GitSuffix(git);
      ParseGitHubUrl(url) == Some(RepoId(owner, name)) == RepoService.ParseGitHubUrl(url)
  {
    RepoService.ParsesHttpsForm(prefix, owner, name, git);
  }
}
