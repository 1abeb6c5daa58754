/**
 * The GitHub URL patterns shared by the backend repository service and the
 * frontend graph service. Both are regular expressions of the form
 *
 *   <literal>([^/]+)/([^/.]+)(\.git)?$
 *
 * searched for anywhere in the URL (the pattern is not anchored at the
 * start). Once the literal has matched, the rest is deterministic: the owner
 * is everything up to the next `/`, the name is the longest following run
 * without `/` or `.`, and only `.git` or nothing may follow it.
 */
module GitHubUrl {
  import opened Wrappers
  import opened Strings

  datatype RepoId = RepoId(owner: string, name: string)

  /** The literal of the HTTPS pattern. */
  const HttpsLiteral: string := "github.com/"

  /** The literal of the SSH pattern. */
  const SshLiteral: string := "git@github.com:"

  /** The longest prefix of `s` without `/` or `.`: what `[^\/\.]+` consumes greedily. */
  function NameRun(s: string): (r: string)
    ensures r <= s
    ensures '/' !in r && '.' !in r
    ensures |r| < |s| ==> s[|r|] == '/' || s[|r|] == '.'
  {
    if |s| == 0 || s[0] == '/' || s[0] == '.' then ""
    else [s[0]] + NameRun(s[1..])
  }

  /** `[^/]+` is a non-empty owner without `/`. */
  predicate ValidOwner(o: string) {
    o != "" && '/' !in o
  }

  /** `[^/.]+` is a non-empty name without `/` or `.`. */
  predicate ValidName(n: string) {
    n != "" && '/' !in n && '.' !in n
  }

  /** The text after the literal has the shape `OWNER/NAME` or `OWNER/NAME.git`. */
  predicate TailShape(tail: string, o: string, n: string) {
    ValidOwner(o) && ValidName(n) && (tail == o + "/" + n || tail == o + "/" + n + ".git")
  }

  /** The match of `([^/]+)/([^/.]+)(\.git)?$` against the whole of `tail`. */
  function MatchTail(tail: string): Option<RepoId> {
    var j := IndexOf(tail, '/');
    if j <= 0 then None
    else
      var rest := tail[j + 1..];
      var name := NameRun(rest);
      if name == "" then None
      else if rest == name || rest == name + ".git" then Some(RepoId(tail[..j], name))
      else None
  }

  lemma MatchTailSound(tail: string)
    requires MatchTail(tail).Some?
    ensures TailShape(tail, MatchTail(tail).value.owner, MatchTail(tail).value.name)
  {
    var j := IndexOf(tail, '/');
    TailAroundSlash(tail, j, NameRun(tail[j + 1..]));
  }

  /** Owner, `/`, then the name with or without `.git`: the shape of the tail. */
  lemma TailAroundSlash(tail: string, j: int, n: string)
    requires 0 < j < |tail| && tail[j] == '/' && '/' !in tail[..j]
    requires ValidName(n) && (tail[j + 1..] == n || tail[j + 1..] == n + ".git")
    ensures TailShape(tail, tail[..j], n)
  {
    var o, rest := tail[..j], tail[j + 1..];
    assert tail == o + "/" + rest;
    if rest != n {
      assert o + "/" + rest == o + "/" + n + ".git";
    }
  }

  lemma MatchTailComplete(tail: string, o: string, n: string)
    requires TailShape(tail, o, n)
    ensures MatchTail(tail) == Some(RepoId(o, n))
  {
    var rest := tail[|o| + 1..];
    assert IndexOf(tail, '/') == |o| by {
      assert tail[|o|] == '/' && tail[..|o|] == o;
      IndexOfUnique(tail, '/', |o|);
    }
    assert tail[..|o|] == o;
    assert rest == n || rest == n + ".git";
    NameRunOf(rest, n);
  }

  lemma {:induction false} NameRunOf(rest: string, n: string)
    requires ValidName(n) && (rest == n || rest == n + ".git")
    ensures NameRun(rest) == n
    decreases |n|
  {
    assert rest[0] == n[0] && n[0] in n;
    if |n| == 1 {
      assert rest[1..] == "" || rest[1..] == ".git";
    } else {
      assert rest[1..] == n[1..] || rest[1..] == n[1..] + ".git";
      NameRunOf(rest[1..], n[1..]);
    }
  }

  /** The literal followed by a matching tail occurs at position `i`. */
  predicate MatchesAt(s: string, literal: string, i: int) {
    OccursAt(s, literal, i) && MatchTail(s[i + |literal|..]).Some?
  }

  /** `s.match(re)`: the match at the leftmost position from `i` on where one exists. */
  function SearchFrom(s: string, literal: string, i: nat): Option<RepoId>
    decreases |s| - i
  {
    if i + |literal| > |s| then None
    else if MatchesAt(s, literal, i) then MatchTail(s[i + |literal|..])
    else SearchFrom(s, literal, i + 1)
  }

  function Search(s: string, literal: string): Option<RepoId> {
    SearchFrom(s, literal, 0)
  }

  lemma {:induction false} SearchFromLeftmost(s: string, literal: string, i: nat)
    ensures var r := SearchFrom(s, literal, i);
      && (r.None? <==> forall k | i <= k :: !MatchesAt(s, literal, k))
      && (r.Some? ==> exists k | i <= k ::
            && MatchesAt(s, literal, k) && r == MatchTail(s[k + |literal|..])
            && forall k' | i <= k' < k :: !MatchesAt(s, literal, k'))
    decreases |s| - i
  {
    if i + |literal| <= |s| && !MatchesAt(s, literal, i) {
      SearchFromLeftmost(s, literal, i + 1);
      forall k | i <= k && MatchesAt(s, literal, k)
        ensures i + 1 <= k
      {
      }
    }
  }

  /**
   * The pattern search returns the match at the leftmost position where the
   * literal is followed by a well-shaped tail, and nothing when there is none.
   */
  lemma SearchIsLeftmostMatch(s: string, literal: string)
    ensures var r := Search(s, literal);
      && (r.None? <==> forall k | 0 <= k :: !MatchesAt(s, literal, k))
      && (r.Some? ==> exists k | 0 <= k ::
            && OccursAt(s, literal, k) && TailShape(s[k + |literal|..], r.value.owner, r.value.name)
            && forall k' | 0 <= k' < k :: !MatchesAt(s, literal, k'))
  {
    SearchFromLeftmost(s, literal, 0);
    var r := Search(s, literal);
    if r.Some? {
      var k :| 0 <= k && MatchesAt(s, literal, k) && r == MatchTail(s[k + |literal|..])
        && forall k' | 0 <= k' < k :: !MatchesAt(s, literal, k');
      MatchTailSound(s[k + |literal|..]);
    }
  }

  /** A well-shaped tail contains exactly one `/`: the one after the owner. */
  lemma TailSlashes(tail: string, o: string, n: string)
    requires TailShape(tail, o, n)
    ensures forall p | 0 <= p < |tail| && p != |o| :: tail[p] != '/'
  {
    forall p | 0 <= p < |tail| && p != |o|
      ensures tail[p] != '/'
    {
      if p < |o| {
        assert tail[p] == o[p] && o[p] in o;
      } else {
        var m := p - |o| - 1;
        if m < |n| {
          assert tail[p] == n[m] && n[m] in n;
        } else {
          assert tail[p] == ".git"[m - |n|];
        }
      }
    }
  }

  lemma TailSlashAt(tail: string, o: string, n: string, p: int)
    requires TailShape(tail, o, n)
    requires 0 <= p < |tail| && tail[p] == '/'
    ensures p == |o|
  {
    TailSlashes(tail, o, n);
  }

  /** A match at `i` is the literal followed by a well-shaped tail. */
  lemma MatchedShape(s: string, literal: string, i: int) returns (id: RepoId)
    requires MatchesAt(s, literal, i)
    ensures i + |literal| <= |s| && s[i..i + |literal|] == literal
    ensures TailShape(s[i + |literal|..], id.owner, id.name)
  {
    id := MatchTail(s[i + |literal|..]).value;
    MatchTailSound(s[i + |literal|..]);
  }

  /** Two HTTPS matches, the second at or after the first, are the same match. */
  lemma HttpsMatchOrdered(s: string, a: int, b: int, ra: RepoId, rb: RepoId)
    requires 0 <= a <= b && b + 11 <= |s|
    requires s[a..a + 11] == HttpsLiteral && s[b..b + 11] == HttpsLiteral
    requires TailShape(s[a + 11..], ra.owner, ra.name) && TailShape(s[b + 11..], rb.owner, rb.name)
    ensures a == b
  {
    if a < b {
      // the literal's own '/' at b + 10 lies in A's tail, after A's owner
      TailSlashAt(s[a + 11..], ra.owner, ra.name, b - a - 1);
      // and so does the separator after B's owner
      TailSlashAt(s[a + 11..], ra.owner, ra.name, b - a + |rb.owner|);
    }
  }

  /**
   * At most one position matches the HTTPS pattern: the literal ends in `/`,
   * and a matching tail holds exactly one `/`, so a second match would put
   * two slashes in the first match's tail.
   */
  lemma HttpsMatchUnique(s: string, i: int, k: int)
    requires MatchesAt(s, HttpsLiteral, i) && MatchesAt(s, HttpsLiteral, k)
    ensures i == k
  {
    var ri := MatchedShape(s, HttpsLiteral, i);
    var rk := MatchedShape(s, HttpsLiteral, k);
    if i <= k {
      HttpsMatchOrdered(s, i, k, ri, rk);
    } else {
      HttpsMatchOrdered(s, k, i, rk, ri);
    }
  }
}
