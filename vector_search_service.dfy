/**
 * The keyword search of the vector search service: the stored repository is
 * looked up by owner, name and folder, and the question is turned into an
 * `ILIKE` pattern from its first few long words.
 */
module VectorSearchService {
  import opened Wrappers
  import opened Strings

  /** `question.split(/\s+/)`: the pieces between runs of white space (empty at either end when the text starts or ends with one). */
  function SplitWhitespace(s: string): (parts: seq<string>)
    ensures |parts| >= 1
    ensures forall k | 0 <= k < |parts| :: forall c | c in parts[k] :: !IsWhitespace(c)
    decreases |s|
  {
    var i := FirstWhitespace(s, 0);
    if i == |s| then [s]
    else
      var j := SkipWhitespace(s, i);
      [s[..i]] + SplitWhitespace(s[j..])
  }

  /** The first white-space position at or after `i`, or `|s|`. */
  function FirstWhitespace(s: string, i: nat): (r: nat)
    requires i <= |s|
    ensures i <= r <= |s|
    ensures forall k | i <= k < r :: !IsWhitespace(s[k])
    ensures r < |s| ==> IsWhitespace(s[r])
    decreases |s| - i
  {
    if i == |s| || IsWhitespace(s[i]) then i else FirstWhitespace(s, i + 1)
  }

  /** The end of the white-space run starting at `i`. */
  function SkipWhitespace(s: string, i: nat): (r: nat)
    requires i < |s| && IsWhitespace(s[i])
    ensures i < r <= |s|
    ensures forall k | i <= k < r :: IsWhitespace(s[k])
    ensures r < |s| ==> !IsWhitespace(s[r])
    decreases |s| - i
  {
    if i + 1 < |s| && IsWhitespace(s[i + 1]) then SkipWhitespace(s, i + 1) else i + 1
  }

  /** `.filter(t => t.length > 3)`. */
  function LongWords(parts: seq<string>): (r: seq<string>)
    ensures forall k | 0 <= k < |r| :: |r[k]| > 3 && r[k] in parts
    ensures forall k | 0 <= k < |parts| && |parts[k]| > 3 :: parts[k] in r
  {
    if |parts| == 0 then []
    else (if |parts[0]| > 3 then [parts[0]] else []) + LongWords(parts[1..])
  }

  const MaxTerms: nat := 4

  /** The search terms: the long words of the question, at most four, in question order. */
  function Terms(question: string): seq<string> {
    var words := LongWords(SplitWhitespace(question));
    if |words| <= MaxTerms then words else words[..MaxTerms]
  }

  /** The `ILIKE` pattern: the terms between `%` signs, or the whole question when there is none. */
  function Pattern(question: string): (p: string)
    ensures |p| >= 2 && p[0] == '%' && p[|p| - 1] == '%'
  {
    var terms := Terms(question);
    if |terms| > 0 then "%" + Join(terms, "%") + "%" else "%" + question + "%"
  }

  /**
   * The terms are the first long words of the question, at most four: long
   * words without white space, each one a word of the question.
   */
  lemma TermsShape(question: string)
    ensures var words := LongWords(SplitWhitespace(question));
      Terms(question) <= words && |Terms(question)| == if |words| < MaxTerms then |words| else MaxTerms
    ensures forall k | 0 <= k < |Terms(question)| ::
      |Terms(question)[k]| > 3 && Terms(question)[k] in SplitWhitespace(question)
      && forall c | c in Terms(question)[k] :: !IsWhitespace(c)
  {
    var words := LongWords(SplitWhitespace(question));
    forall k | 0 <= k < |Terms(question)|
      ensures Terms(question)[k] == words[k]
    {
    }
  }

  lemma {:induction false} LongWordsAppend(a: seq<string>, b: seq<string>)
    ensures LongWords(a + b) == LongWords(a) + LongWords(b)
    decreases |a|
  {
    if |a| > 0 {
      assert (a + b)[1..] == a[1..] + b;
      LongWordsAppend(a[1..], b);
    } else {
      assert a + b == b;
    }
  }

  /** The terms are the first long words: a long word sits right after the long words before it. */
  lemma LongWordsInOrder(parts: seq<string>, i: nat)
    requires i < |parts| && |parts[i]| > 3
    ensures var n := |LongWords(parts[..i])|;
      n < |LongWords(parts)| && LongWords(parts)[n] == parts[i]
  {
    assert parts == parts[..i] + ([parts[i]] + parts[i + 1..]);
    LongWordsAppend(parts[..i], [parts[i]] + parts[i + 1..]);
    LongWordsAppend([parts[i]], parts[i + 1..]);
    assert LongWords([parts[i]]) == [parts[i]] by {
      assert [parts[i]][1..] == [];
    }
  }

  /**
   * With terms present, the middle of the pattern splits back on `%` into
   * exactly the terms when the question has no `%` of its own; without terms
   * the middle is the question.
   */
  lemma PatternRoundTrip(question: string)
    requires '%' !in question
    ensures var p := Pattern(question); var middle := p[1..|p| - 1];
      if |Terms(question)| > 0 then Split(middle, '%') == Terms(question) else middle == question
  {
    var terms := Terms(question);
    if |terms| > 0 {
      TermsShape(question);
      forall k | 0 <= k < |terms|
        ensures '%' !in terms[k]
      {
        SplitPiecesOf(question, terms[k]);
      }
      var p := Pattern(question);
      assert p[1..|p| - 1] == Join(terms, "%");
      SplitJoin(terms, '%');
    }
  }

  /** A piece of the white-space split holds only characters of the text. */
  lemma {:induction false} SplitPiecesOf(s: string, piece: string)
    requires piece in SplitWhitespace(s)
    ensures forall c | c in piece :: c in s
    decreases |s|
  {
    var i := FirstWhitespace(s, 0);
    if i < |s| {
      var j := SkipWhitespace(s, i);
      if piece != s[..i] {
        SplitPiecesOf(s[j..], piece);
      }
    }
  }

  /** The key the repository table is searched by; `folder || null` turns an empty folder into null. */
  datatype RepoKey = RepoKey(owner: string, name: string, folder: Option<string>)

  function KeyOf(owner: string, name: string, folder: Option<string>): (k: RepoKey)
    ensures k.folder.None? <==> folder.None? || folder == Some("")
    ensures k.folder.Some? ==> k.folder == folder
  {
    RepoKey(owner, name, if folder == Some("") then None else folder)
  }

  /** The text query `searchUsingStoredEmbeddings` runs. */
  datatype TextQuery = TextQuery(repoId: int, pattern: string, limit: int)

  const RepoNotFound: string := "Repository not found. Please load the repository first."

  /** Errors leave the service prefixed with `Search failed: `. */
  function SearchFailed(message: string): string {
    "Search failed: " + message
  }

  /**
   * `searchUsingStoredEmbeddings` up to the text query: an unknown repository
   * fails, a known one is searched with the question's pattern.
   */
  function SearchQuery(repos: map<RepoKey, int>, owner: string, name: string, folder: Option<string>,
                       question: string, limit: int): (r: Result<TextQuery>)
    ensures r.Err? <==> KeyOf(owner, name, folder) !in repos
    ensures r.Err? ==> StartsWith(r.error, "Search failed: ")
    ensures r.Ok? ==> r.value.repoId == repos[KeyOf(owner, name, folder)] && r.value.limit == limit
    ensures r.Ok? ==> r.value.pattern == Pattern(question)
  {
    var key := KeyOf(owner, name, folder);
    if key !in repos then Err(SearchFailed(RepoNotFound))
    else Ok(TextQuery(repos[key], Pattern(question), limit))
  }
}
