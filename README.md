# CodeLearner core, modelled in Dafny

CodeLearner clones a GitHub repository and shows its JavaScript/TypeScript files as a
dependency graph. It also chunks the code for keyword and AI search and guards the AI
features behind e-mail sign-up and a per-account question quota. This project models the
deterministic core of that system and proves what it promises:

- **Graph builder** (`GraphService`):
  - the recursive file discovery, which prunes six excluded directories and keeps JS/TS files;
  - the import resolver, which tries an ordered suffix list, first match wins;
  - the graph assembly: one node per file, one `edge-n` per resolved import, and folder groups.
- **Import extractor** (`ParseService`): a pre-order walk over a syntax tree that recognises
  three import forms. The first two are the ES `import` declaration and the `import(...)`
  call of ECMA-262 (sections 16.2.2 and 13.3.10); the third is CommonJS `require(...)`.
  Alongside it sits the extension-based language classifier.
- **Function chunker** (`ChunkingService`): a second pre-order walk that cuts
  function-like nodes into line-range snippets, with a whole-file fallback.
- **GitHub URL parsers**:
  - `RepoService` is the backend parser: HTTPS and SSH forms. It also models the
    repository path and the clone decision.
  - `FrontendGraphService` is the frontend parser: HTTPS only.
  - `GitHubUrl` holds the regular-expression semantics the two share.
- **Graph panel analysis** (`GraphPanel`), as computed in the frontend:
  - the connected-node filter and in-degree importance;
  - role, colour and size of a node;
  - root selection with its fallback;
  - breadth-first level assignment;
  - the focus neighbourhood, search matches and the rendered-edge filter.
- **Small guards and state machines**:
  - `FileService`: the path-traversal guard of `readFile` and the README lookup order;
  - `CodeViewerFileService`: extension to language;
  - `VectorSearchService`: the keyword `ILIKE` pattern;
  - `AiQuotaMiddleware`: the AI-quota guard chain;
  - `AuthMiddleware`: Bearer token extraction, following section 2.1 of RFC 6750;
  - `AuthController`: sign-up validation and the OTP verify/login state machine;
  - `AppStore`: the client store's setters, partial loading merge and reset.

**External inputs.** The file system, the parser, the database and the crypto libraries
become inputs:

| what | modelled as |
|---|---|
| directory tree | a datatype `Entry` |
| file contents after parsing | a map from path to syntax tree (a missing key is a file that could not be read or parsed) |
| user table | a map from normalised e-mail to record |
| password check | a function parameter |
| token verification | a map from token to payload |
| the clock and the OTP generator | plain parameters |

Node's `path` module is modelled by a segment-list normaliser in `Paths`. `Strings` holds
the JavaScript string operations: split, join, trim, lower-casing and search.

## Model

| member | source | states |
|---|---|---|
| GraphService.FindJSTSFiles | backend/src/services/graphService.ts:13-63 | the recursive walk returns exactly the paths of the discovery specification, including the re-prefixing the walk applies when a scope folder is given |
| GraphService.DiscoveredPathsAreEligible | backend/src/services/graphService.ts:36-55 | every discovered path has no segment named node_modules, .git, dist, build, .next or coverage, and is a file the parser accepts |
| GraphService.DiscoveredPathsUnderPrefix | backend/src/services/graphService.ts:28-55 | inside a scope folder every discovered path starts with the scope prefix followed by `/` |
| GraphService.ReprefixIsNoOpForNormalFolder | backend/src/services/graphService.ts:28-31 | for a walk prefix equal to the scope folder or below it (the folder as the walk's normalised prefix, so not `./dir` or `/dir`), the re-prefixing heuristic changes no path |
| GraphService.FindFile | backend/src/services/graphService.ts:91-97 | a found file is one of the stored files, exactly as stored, and equals the candidate once every `\` in both is turned into `/` |
| GraphService.FindFileNoneIffNoMatch | backend/src/services/graphService.ts:91-97 | nothing is found exactly when no stored file equals the candidate after separator normalisation |
| GraphService.ResolveImportPath | backend/src/services/graphService.ts:69-106 | the suffix loop with early return computes the resolution specification |
| GraphService.ExternalNeverResolves | backend/src/services/graphService.ts:75-77 | an import not starting with `.` or `/` resolves to nothing, whatever the file set |
| GraphService.ResolveIsFirstSuffixMatch | backend/src/services/graphService.ts:84-105 | a resolution is an element of the file list that matches the base plus the j-th suffix, and no file matches any earlier suffix; no resolution means no file matches any suffix |
| GraphService.JsBeforeTs | backend/src/services/graphService.ts:87-102 | with `a.js` present and no exact `a`, `./a` resolves to `a.js` even when `a.ts` exists |
| GraphService.IndexFallback | backend/src/services/graphService.ts:87-102 | with none of the five plain suffixes present, a directory import resolves to its `index.js` |
| GraphService.NodesOf | backend/src/services/graphService.ts:139-146 | nodes correspond one to one and in order with the discovered files, each with id = path, its basename as label and the extension's language |
| GraphService.Numbered | backend/src/services/graphService.ts:151-189 | the k-th edge from a start counter carries the id `edge-(start+k)` and the k-th resolved import's endpoints and type |
| GraphService.BuildGraph | backend/src/services/graphService.ts:113-225 | a scope folder that is missing is reported as not found before any discovery; otherwise the graph is the nodes, numbered edges and folder groups of the files found by the corrected discovery (see Findings) |
| GraphService.CollectEdges | backend/src/services/graphService.ts:151-189 | the nested loop yields the numbered edges of every file's resolved imports, in file-then-import order |
| GraphService.AppendFileEdges | backend/src/services/graphService.ts:168-185 | one file's loop appends its resolved imports numbered from the current edge count |
| GraphService.GroupByFolder | backend/src/services/graphService.ts:196-217 | the map-filling loop yields the folder groups specification, in first-appearance order |
| GraphService.EdgeEndpointsAreNodes | backend/src/services/graphService.ts:139-189 | every edge's source and target are node ids of the same graph |
| GraphService.EdgeIdsSequentialAndDistinct | backend/src/services/graphService.ts:151-184 | edge k has the id `edge-k`, and no two edges share an id |
| GraphService.UnreadFileHasNoOutgoingEdges | backend/src/services/graphService.ts:155-189 | a file that cannot be read or parsed is the source of no edge, and the build still completes |
| GraphService.GroupsPartitionFiles | backend/src/services/graphService.ts:196-217 | group ids are distinct, every file lies in the group keyed by its folder (`root` at top level), and in no other group; each group is named after its key's last segment and has its key as path |
| GraphService.DiscoveredFilesExist | backend/src/services/graphService.ts:28-55 | with the re-prefixing corrected, every discovered path names a file of the repository tree |
| GraphService.ScopedWalkDoublesFolder | backend/src/services/graphService.ts:28-31 | the walk as written, scoped to `./dir`, records `dir/dir/file` for the file `dir/file`, a path that names no file |
| ParseService.GetLanguage | backend/src/services/parseService.ts:25-33 | JavaScript exactly for `.js`/`.jsx`, TypeScript exactly for `.ts`/`.tsx`, nothing for any other name |
| ParseService.ShouldParseIffSourceExtension | backend/src/services/parseService.ts:121-123 | a file is parsed exactly when it has one of the four source extensions |
| ParseService.StripQuotes | backend/src/services/parseService.ts:58 | the imported path keeps no single or double quote |
| ParseService.EsImport | backend/src/services/parseService.ts:55-65 | an entry of type import arises exactly from an `import_statement` with a `source` field; its path is the unquoted source text and its line the start row plus one |
| ParseService.CallArgument | backend/src/services/parseService.ts:68-103 | a call yields an argument exactly when its function text is the callee and child 1 of its arguments is a string literal |
| ParseService.NodeImportsAtMostOne | backend/src/services/parseService.ts:55-103 | a node contributes at most one entry, on its own 1-based line, with no quotes in its path |
| ParseService.NonLiteralCallContributesNothing | backend/src/services/parseService.ts:74 | a call whose first argument is not a string literal contributes nothing |
| ParseService.ImportsArePreOrder | backend/src/services/parseService.ts:105-114 | the walk's entries are the per-node entries taken in pre-order: a node before its descendants, siblings left to right |
| ParseService.ImportsAllArePreOrder | backend/src/services/parseService.ts:105-111 | the entries of a list of sibling subtrees are the per-node entries of their concatenated pre-orders |
| ParseService.ImportsComeFromNodes | backend/src/services/parseService.ts:51-112 | every entry comes from one node of the tree, with that node's start line |
| ParseService.AppendNodeImports | backend/src/services/parseService.ts:55-103 | the three checks on one node append exactly that node's entry |
| ParseService.VisitNode | backend/src/services/parseService.ts:51-112 | the cursor walk appends the entries of the whole subtree to those found so far |
| ParseService.ParseImports | backend/src/services/parseService.ts:38-116 | a file of unknown language yields no entries; otherwise the walk's result is the tree's entries in pre-order |
| ChunkingService.Slice | backend/src/services/chunkingService.ts:46 | `slice` clamps both bounds to the length and is empty when the end is not after the start |
| ChunkingService.NodeChunk | backend/src/services/chunkingService.ts:38-62 | exactly the four function-like node types yield a chunk, with rows plus one as its lines and the `name` field's text, if any, as its name |
| ChunkingService.AppendNodeChunk | backend/src/services/chunkingService.ts:38-63 | the check on one node appends that node's chunk, if any |
| ChunkingService.ExtractFunctions | backend/src/services/chunkingService.ts:36-72 | the cursor walk appends the chunks of the whole subtree |
| ChunkingService.ChunkFile | backend/src/services/chunkingService.ts:17-104 | the result is the tree's function chunks, or the whole-file chunk when there are none or the parse failed |
| ChunkingService.ChunkFiles | backend/src/services/chunkingService.ts:109-121 | the loop concatenates every file's chunks in input order |
| ChunkingService.ChunksArePreOrder | backend/src/services/chunkingService.ts:66-72 | the walk yields one chunk per function-like node, in pre-order |
| ChunkingService.ChunksAllArePreOrder | backend/src/services/chunkingService.ts:66-71 | the chunks of sibling subtrees are those of their concatenated pre-orders |
| ChunkingService.NestedFunctionAfterOuter | backend/src/services/chunkingService.ts:66-72 | a function directly inside another yields its own chunk, after the outer function's chunk |
| ChunkingService.SnippetIsSourceLines | backend/src/services/chunkingService.ts:44-46 | splitting a chunk's snippet at newlines gives back exactly source lines startRow to endRow |
| ChunkingService.FileChunksNeverEmpty | backend/src/services/chunkingService.ts:76-102 | a file always yields at least one chunk, and every chunk carries the file's path and language |
| ChunkingService.FallbackIsWholeFile | backend/src/services/chunkingService.ts:77-102 | with no function found or a failed parse, the result is one chunk holding the whole content: no name, line 1 to the line count |
| ChunkingService.AllChunksConcatenate | backend/src/services/chunkingService.ts:114-117 | each file contributes at least one chunk; the chunks of the first i files, followed by file i's, form a prefix of the whole result |
| ChunkingService.ChunksOfNodesFields | backend/src/services/chunkingService.ts:55-62 | every function chunk carries the file's path and language |
| GitHubUrl.NameRun | backend/src/services/repoService.ts:28 | `[^/.]+` consumes the longest prefix without `/` or `.` |
| GitHubUrl.MatchTailSound | backend/src/services/repoService.ts:28-29 | a matched tail has the shape `OWNER/NAME` or `OWNER/NAME.git`, where the owner has no `/` and the name has no `/` or `.` |
| GitHubUrl.MatchTailComplete | backend/src/services/repoService.ts:28-29 | every tail of that shape matches, with that owner and name |
| GitHubUrl.SearchIsLeftmostMatch | backend/src/services/repoService.ts:31 | `match` fails exactly when no position matches, and otherwise returns the owner and name at the leftmost matching position |
| GitHubUrl.HttpsMatchUnique | backend/src/services/repoService.ts:28 | the HTTPS pattern, being anchored at the end, matches at most one position |
| RepoService.ParseGitHubUrl | backend/src/services/repoService.ts:22-41 | a parsed owner is non-empty without `/`, and a parsed name is non-empty without `/` or `.` |
| RepoService.ParseCharacterisation | backend/src/services/repoService.ts:28-40 | parsing fails exactly when neither pattern matches anywhere; a result is the tail of an HTTPS or SSH match |
| RepoService.HttpsMatchWins | backend/src/services/repoService.ts:31 | when the HTTPS pattern matches, its result is the one returned |
| RepoService.ParsesHttpsForm | backend/src/services/repoService.ts:28-38 | any text, then `github.com/OWNER/NAME` with optional `.git`, parses to that owner and name |
| RepoService.ParsesSshForm | backend/src/services/repoService.ts:29-38 | `git@github.com:OWNER/NAME` with optional `.git` parses to that owner and name, through the SSH pattern only |
| RepoService.RepoPathEndsInName | backend/src/services/repoService.ts:125-127 | the repository directory `tempPath/owner/name` is named after the repository |
| RepoService.RepoStore.constructor | backend/src/services/repoService.ts:14-17 | the store starts with the given temporary directory and set of existing directories |
| RepoService.RepoStore.CloneRepo | backend/src/services/repoService.ts:53-108 | an invalid URL fails with 'Invalid GitHub URL format' and touches nothing; an existing directory succeeds without cloning; otherwise the clone fails with its message or creates the directory |
| FrontendGraphService.ParseGitHubUrl | frontend/src/features/graph/services/graphService.ts:70-87 | a frontend result is the backend's result for the same URL |
| FrontendGraphService.FrontendAcceptsLess | frontend/src/features/graph/services/graphService.ts:74-95 | every URL the frontend accepts the backend accepts; a URL only the backend accepts matches the SSH pattern |
| FrontendGraphService.SshFormOnlyInBackend | frontend/src/features/graph/services/graphService.ts:74-86 | the SSH form is rejected by the frontend and accepted by the backend |
| FrontendGraphService.HttpsFormInBoth | frontend/src/features/graph/services/graphService.ts:74-84 | on the HTTPS form the two parsers agree on owner and name |
| GraphPanel.ConnectedNodeIds | frontend/src/features/graph/components/GraphPanel.tsx:112-116 | the collected ids are exactly the endpoints of some edge |
| GraphPanel.ConnectedNodes | frontend/src/features/graph/components/GraphPanel.tsx:119-121 | a node is kept exactly when it is an endpoint of some edge |
| GraphPanel.ConnectedNodesAppend | frontend/src/features/graph/components/GraphPanel.tsx:119-121 | the filter distributes over concatenation, so it keeps node order |
| GraphPanel.InDegreePositive | frontend/src/features/graph/components/GraphPanel.tsx:125-128 | a node's in-degree is positive exactly when some edge ends at it, and at most the number of edges |
| GraphPanel.ComputeImportance | frontend/src/features/graph/components/GraphPanel.tsx:125-128 | the map holds exactly the edge targets, and each node's importance is its in-degree |
| GraphPanel.MaxInDegree | frontend/src/features/graph/components/GraphPanel.tsx:180 | the maximum importance bounds every target's in-degree and is attained, or is 0 without edges |
| GraphPanel.GetNodeRole | frontend/src/features/graph/components/GraphPanel.tsx:132-148 | roles are tried in order on the lowercased path: entry exactly when the whole lowercased path is index, server, main or app followed by `.js` or `.ts`, then route, then middleware, then utility, else default |
| GraphPanel.RoleIgnoresCase | frontend/src/features/graph/components/GraphPanel.tsx:133 | a path and its lowercase form get the same role |
| GraphPanel.EntryIsTopLevel | frontend/src/features/graph/components/GraphPanel.tsx:135 | because the entry pattern is anchored at both ends, only a path without `/` is an entry |
| GraphPanel.GetNodeColor | frontend/src/features/graph/components/GraphPanel.tsx:152-158 | the four special roles have their own colours, and default nodes are coloured by language |
| GraphPanel.ColorIdentifiesRole | frontend/src/features/graph/components/GraphPanel.tsx:152-158 | the colour determines the role, and for default nodes the language |
| GraphPanel.GetNodeSize | frontend/src/features/graph/components/GraphPanel.tsx:162-168 | the width stays within 140 to 300, and strictly inside equals 8 per character plus 40 plus 10 per import up to 40 |
| GraphPanel.SizeMonotone | frontend/src/features/graph/components/GraphPanel.tsx:162-168 | a longer name or more imports never makes a node narrower |
| GraphPanel.ImportanceBonusCapped | frontend/src/features/graph/components/GraphPanel.tsx:166 | beyond four imports the width no longer grows |
| GraphPanel.RootCandidates | frontend/src/features/graph/components/GraphPanel.tsx:172-176 | the candidates are exactly the connected entry files and connected files that import nothing |
| GraphPanel.MostImported | frontend/src/features/graph/components/GraphPanel.tsx:182-183 | exactly the connected nodes imported at least the given number of times are kept |
| GraphPanel.RootNodes | frontend/src/features/graph/components/GraphPanel.tsx:172-186 | roots are connected nodes: the candidates when there are any, otherwise at most three nodes of maximal importance |
| GraphPanel.RootsNonEmpty | frontend/src/features/graph/components/GraphPanel.tsx:179-186 | when edges end at graph nodes and some node is connected, there is always a root |
| GraphPanel.Expand | frontend/src/features/graph/components/GraphPanel.tsx:207-217 | expanding a node sets no level twice; every new level is the parent's level plus one, and after it every child has a level |
| GraphPanel.Seed | frontend/src/features/graph/components/GraphPanel.tsx:195-198 | exactly the roots get level 0, and each is queued with its level |
| GraphPanel.Turn | frontend/src/features/graph/components/GraphPanel.tsx:201-218 | one turn keeps the walk invariant and either gives a new node a level or shortens the queue |
| GraphPanel.BfsLevels | frontend/src/features/graph/components/GraphPanel.tsx:190-218 | roots are at level 0; every other level is one more than that of a parent that imports it; the child of a node with a level has a level |
| GraphPanel.DefaultLevels | frontend/src/features/graph/components/GraphPanel.tsx:221-225 | every connected node ends up with a level; levels already set are kept, and the others default to 0 |
| GraphPanel.AssignLevels | frontend/src/features/graph/components/GraphPanel.tsx:189-225 | roots at level 0, every connected node has a level, and every positive level is a parent's level plus one |
| GraphPanel.VisibleNodeIds | frontend/src/features/graph/components/GraphPanel.tsx:239-251 | without a focus every connected node is visible; with one, exactly the focused node and its direct importers and imports, all connected |
| GraphPanel.SearchMatches | frontend/src/features/graph/components/GraphPanel.tsx:255-262 | with a non-empty term, exactly the connected nodes whose label contains it ignoring case; none otherwise |
| GraphPanel.RenderedEdges | frontend/src/features/graph/components/GraphPanel.tsx:427-431 | an edge is drawn exactly when both endpoints are connected |
| GraphPanel.RenderedEdgesAreAll | frontend/src/features/graph/components/GraphPanel.tsx:112-116 | since the connected ids are the edges' own endpoints, the filter keeps every edge |
| CodeViewerFileService.DetectLanguage | frontend/src/features/codeViewer/services/fileService.ts:27-32 | TypeScript exactly for `.ts`/`.tsx`, JavaScript for every other name |
| CodeViewerFileService.AgreesWithGraphNodes | frontend/src/features/codeViewer/services/fileService.ts:27-32 | the viewer's language equals the language the backend gives a graph node |
| CodeViewerFileService.AgreesWithParser | frontend/src/features/codeViewer/services/fileService.ts:28-31 | on files the parser accepts, the viewer's language equals the parser's |
| VectorSearchService.SplitWhitespace | backend/src/services/vectorSearchService.ts:106 | the split has at least one piece, and no piece holds white space |
| VectorSearchService.LongWords | backend/src/services/vectorSearchService.ts:107 | exactly the words longer than three characters are kept |
| VectorSearchService.TermsShape | backend/src/services/vectorSearchService.ts:105-108 | the terms are the first long words of the question, at most four, each a white-space-free word of it |
| VectorSearchService.LongWordsInOrder | backend/src/services/vectorSearchService.ts:105-108 | a long word is placed right after the long words before it, so terms follow question order |
| VectorSearchService.Pattern | backend/src/services/vectorSearchService.ts:110-111 | the pattern always begins and ends with `%` |
| VectorSearchService.PatternRoundTrip | backend/src/services/vectorSearchService.ts:110-111 | for a question without `%`, the pattern's middle splits back on `%` into the terms, or is the whole question when there are none |
| VectorSearchService.KeyOf | backend/src/services/vectorSearchService.ts:93 | an empty folder is looked up as null |
| VectorSearchService.SearchQuery | backend/src/services/vectorSearchService.ts:90-151 | the search fails, with a message starting `Search failed: `, exactly when the repository is unknown; otherwise it queries that repository's id with the question's pattern and the given limit |
| FileService.StripParentPrefix | backend/src/services/fileService.ts:22 | the longest leading run of `..` units is removed: the removed part is such a run, and what remains starts with no further unit |
| FileService.ReadFile | backend/src/services/fileService.ts:13-35 | a blank path fails with 'File path is required'; otherwise a guarded path resolving outside the repository fails with 'Invalid file path', an inside path that cannot be read fails with the read error, and an inside readable path returns its content |
| FileService.StripIdempotent | backend/src/services/fileService.ts:22 | stripping twice is stripping once |
| FileService.StripKeepsPlainPaths | backend/src/services/fileService.ts:22 | a path not starting with `..` is left as it is |
| FileService.GuardedPathHasNoParent | backend/src/services/fileService.ts:22 | after normalising and stripping, the path has no `..` segment left to climb out of the repository |
| FileService.FirstReadableIsFirst | backend/src/services/fileService.ts:45-56 | the README found is the first readable candidate; nothing is found exactly when no candidate can be read |
| FileService.ReadReadme | backend/src/services/fileService.ts:41-57 | the loop with early return finds the first readable of `README.md`, `readme.md`, `Readme.md`, `README.MD` |
| AiQuotaMiddleware.QuotaDecision | backend/src/middleware/aiQuotaMiddleware.ts:8-55 | no user gives 401, a failed lookup 500 and a missing row 401; only a verified user below 10 questions is let through, with used plus remaining equal to 10 |
| AiQuotaMiddleware.RefusalForRow | backend/src/middleware/aiQuotaMiddleware.ts:33-42 | an unverified user gets 403 whatever the count; a verified user at or over the limit gets 429 |
| AiQuotaMiddleware.OneQuestionLess | backend/src/middleware/aiQuotaMiddleware.ts:37-50 | one more question used leaves one fewer remaining, and using the last one leads to 429 |
| AiQuotaMiddleware.CheckAiQuota | backend/src/middleware/aiQuotaMiddleware.ts:8-55 | a refusal sends its response and attaches nothing; an allowance calls next and attaches the usage; the user is never changed |
| AuthMiddleware.AuthRequest.constructor | backend/src/middleware/authMiddleware.ts:6-11 | a request starts with no user and no AI usage attached |
| AuthMiddleware.BearerToken | backend/src/middleware/authMiddleware.ts:21-25 | a token is found exactly when the header starts with `Bearer `; it is the text after the prefix up to the next space |
| AuthMiddleware.TokenIsSecondWord | backend/src/middleware/authMiddleware.ts:25 | `Bearer a b` yields `a` |
| AuthMiddleware.ExtraSpaceGivesEmptyToken | backend/src/middleware/authMiddleware.ts:25 | a second space after `Bearer` yields the empty token |
| AuthMiddleware.Authenticate | backend/src/middleware/authMiddleware.ts:21-41 | success exactly for a present, verified token, whose user id and e-mail alone become the user; otherwise 401 missing or 401 invalid |
| AuthMiddleware.AuthenticateUser | backend/src/middleware/authMiddleware.ts:17-41 | on success next is called with the user attached; on failure a 401 is sent and the request is unchanged |
| AuthController.Signup | backend/src/controllers/authController.ts:16-125 | missing fields give 400, a malformed e-mail 400, a short password 400, a verified existing user 409; sign-up succeeds exactly when none of these applies; a created or refreshed account has a normalised e-mail with `@`, at least 5 characters, a password of at least 6, and an unverified record with a 30-minute OTP; an existing unverified user keeps its id, a new one takes the next id; a failure changes nothing |
| AuthController.VerifyEmail | backend/src/controllers/authController.ts:130-207 | each guard in order gives its reply (400 missing, 404 unknown, 400 verified, 400 no OTP, 400 expired, 400 wrong OTP), and verification succeeds exactly when all pass; success marks the user verified and clears the OTP and its expiry; a failure changes nothing |
| AuthController.Login | backend/src/controllers/authController.ts:209-264 | 400 for missing fields, 401 for an unknown e-mail, 403 for an unverified user before any password check, 401 for a wrong password; login succeeds exactly when all checks pass, with the user's claims and public record |
| AuthController.SignupThenVerify | backend/src/controllers/authController.ts:56-57 | after a sign-up, its OTP verifies exactly up to 30 minutes later, the end point included, and later fails as expired |
| AuthController.WrongOtpRefused | backend/src/controllers/authController.ts:168-170 | a live OTP that differs is refused, and the table is unchanged |
| AuthController.VerifyThenLogin | backend/src/controllers/authController.ts:173-259 | after verification, the right password logs in with the same claims |
| AuthController.UnverifiedCannotLogin | backend/src/controllers/authController.ts:233-235 | an unverified user gets 403 whatever the password |
| AuthController.UnknownEmailLooksLikeWrongPassword | backend/src/controllers/authController.ts:226-241 | an unknown e-mail and a wrong password get the same 401 reply |
| AuthController.SignupKeepsInvariant | backend/src/controllers/authController.ts:39-84 | sign-up keeps records keyed by their e-mail, with distinct ids below the next id |
| AuthController.VerifyKeepsInvariant | backend/src/controllers/authController.ts:173-182 | verification keeps the same table invariant |
| AuthController.UserTable.constructor | backend/src/controllers/authController.ts:16-125 | the table starts empty, with the next id 1 |
| AuthController.UserTable.SignupUser | backend/src/controllers/authController.ts:16-125 | the table's new state and reply are those of the sign-up decision, and the invariant holds |
| AuthController.UserTable.VerifyUserEmail | backend/src/controllers/authController.ts:130-207 | the table's new state and reply are those of the verification decision, and the invariant holds |
| AppStore.Merge | frontend/src/shared/store/appStore.ts:45-46 | every flag the patch names takes its value; the others keep theirs |
| AppStore.EmptyPatchKeeps | frontend/src/shared/store/appStore.ts:45-46 | an empty patch changes nothing |
| AppStore.MergeIdempotent | frontend/src/shared/store/appStore.ts:45-46 | applying a patch twice is applying it once |
| AppStore.MergeComposes | frontend/src/shared/store/appStore.ts:45-46 | two merges in a row are one merge of the combined patch, with the later one winning |
| AppStore.FullPatchReplaces | frontend/src/shared/store/appStore.ts:45-46 | a patch naming every flag replaces the whole loading state |
| AppStore.Store.constructor | frontend/src/shared/store/appStore.ts:27-37 | nothing loaded, nothing selected, no flag raised, no error |
| AppStore.Store.SetRepository | frontend/src/shared/store/appStore.ts:42 | only the repository changes |
| AppStore.Store.SetGraphData | frontend/src/shared/store/appStore.ts:43 | only the graph changes |
| AppStore.Store.SetSelectedFile | frontend/src/shared/store/appStore.ts:44 | only the selected file changes |
| AppStore.Store.SetLoading | frontend/src/shared/store/appStore.ts:45-46 | only the named loading flags change |
| AppStore.Store.SetError | frontend/src/shared/store/appStore.ts:47 | only the error changes |
| AppStore.Store.Reset | frontend/src/shared/store/appStore.ts:48 | the store is back in its initial state, whatever came before |

## Left out

- The tree-sitter parser and grammars are not modelled. The syntax tree is an input datatype with kind, text, start and end rows, named fields and children.
- A parse that throws is modelled as a missing tree, and a file that cannot be read as a missing map key.
- Node's `path` module is simplified to a `/`-separated segment normaliser:
  - a leading `/` is kept;
  - `.` and `..` segments are folded;
  - Windows separators and drive letters are not handled.
- `path.resolve` takes the working directory as a parameter.
- `fs.readdir`, `fs.readFile`, `fs.access`: the directory tree and file contents are inputs.
- The error text of a failed read, including the `ENOENT` message, is a fixed string.
- Git cloning, `deleteRepo` and `cleanupAll` are not modelled. A clone is an oracle: a failure message or success. `clonedAt` (the clock) is left out of the repository info.
- Database access (users, repositories, chunks, AI usage) and every catch that answers 500 after a failed query are not modelled. The one exception is the quota lookup, whose failure is an input.
- The embedding, chat and e-mail services and all HTTP clients are not modelled. The SQL text of the keyword search is left out; only the pattern and the repository lookup are modelled.
- Password hashing and comparison, JWT signing and verification, the random OTP generator and `Date.now` are not modelled:
  - the hash and the OTP are parameters;
  - the comparison is a function parameter;
  - verification is a map from token to payload;
  - the time is a parameter;
  - the signed token is replaced by the claims it would carry.
- The e-mail sent at sign-up (and its development-mode OTP echo) is reduced to the OTP field of the reply.
- GraphService.BuildGraph: builds from the corrected discovery (the walk with an empty folder), not the walk as written, which passes the scope folder and can re-prefix paths a second time (see Findings).
- GraphService.BuildGraph: a scope folder that climbs above the repository root (such as `../other`) is reported as not found; the model's file system is the repository tree only.
- RepoService.RepoStore.CloneRepo: the creation of the owner directory before cloning is not modelled, so in the model a failed clone leaves no owner directory behind.
- AuthController.Signup: a new account's question count is 0, the database column's default, which is not part of this model.
- The force-directed layout, JSX rendering, node styling beyond colour and size, and PNG export of the graph panel are not modelled; they are floating point and presentation.
- The per-level grouping of the graph panel is left out; no later step reads it.
- GraphPanel.BfsLevels: does not state that each node is expanded at most once, or that levels are shortest distances from a root.
- GraphPanel.BfsLevels: a level is set only once during the walk; that is stated on GraphPanel.Expand, not on the whole walk.
- Lower-casing, trimming and white-space splitting cover ASCII only. JavaScript's Unicode case mapping and white-space classes are left out.
- String lengths count code points. JavaScript's UTF-16 lengths differ only outside the Basic Multilingual Plane.
- Console logging is left out everywhere.
- The frontend language value `unknown` is not modelled; the backend never produces it.

## Findings

| source | as written | input that shows it | evidently intended | confidence | as-written member | corrected member |
|---|---|---|---|---|---|---|
| backend/src/services/graphService.ts:28-31 | when the scope folder starts with `./`, the walk's prefix `dir` does not start with the folder text `./dir`, so the folder is prefixed a second time | a repository holding only `dir/file.js`, analysed with folder `./dir`, records `dir/dir/file.js`, which names no file | each discovered path names the file found, `dir/file.js` | not executed | GraphService.ScopedWalkDoublesFolder | GraphService.DiscoveredFilesExist |
