/**
 * The file-dependency graph builder of the backend graph service: discovery
 * of JavaScript/TypeScript files over a directory tree, resolution of raw
 * import strings against the discovered files, and assembly of the nodes,
 * the sequentially numbered edges and the folder groups.
 *
 * The directory tree and the parsed content of each file are inputs: a
 * file whose content cannot be read or parsed is simply absent from the map
 * of parsed sources.
 */
module GraphService {
  import opened Wrappers
  import opened Strings
  import opened Paths
  import opened ParseService

  // ---------------------------------------------------------------------
  // Directory tree and discovery
  // ---------------------------------------------------------------------

  /** A directory entry: a regular file, a directory (which may fail to list) or anything else. */
  datatype Entry =
    | File(name: string)
    | Dir(name: string, readable: bool, entries: seq<Entry>)
    | Other(name: string)

  /** Entry names that discovery skips, whatever the kind of entry. */
  const ExcludedNames: set<string> := {"node_modules", ".git", "dist", "build", ".next", "coverage"}

  /** `path.relative(base, join(dir, name))` when `prefix` is `path.relative(base, dir)`. */
  function JoinRel(prefix: string, name: string): string {
    if prefix == "" then name else prefix + "/" + name
  }

  /**
   * The relative path recorded for a discovered file: re-prefixed with the
   * scope folder when it does not already start with the folder's text.
   */
  function RecordedPath(prefix: string, name: string, folder: string): string {
    var rel := JoinRel(prefix, name);
    if folder != "" && !StartsWith(rel, folder) then JoinPaths(folder, rel) else rel
  }

  /** The files discovered in a list of entries, in listing order, depth first. */
  function Discover(es: seq<Entry>, prefix: string, folder: string): seq<string>
    decreases es
  {
    if |es| == 0 then [] else DiscoverEntry(es[0], prefix, folder) + Discover(es[1..], prefix, folder)
  }

  function DiscoverEntry(e: Entry, prefix: string, folder: string): seq<string>
    decreases e
  {
    if e.name in ExcludedNames then []
    else
      match e
      case Dir(name, readable, entries) =>
        if readable then Discover(entries, JoinRel(prefix, name), folder) else []
      case File(name) => if ShouldParse(name) then [RecordedPath(prefix, name, folder)] else []
      case Other(_) => []
  }

  /** What a walk started at `d` finds: nothing when `d` cannot be listed. */
  function DiscoverDir(d: Entry, prefix: string, folder: string): seq<string> {
    if d.Dir? && d.readable then Discover(d.entries, prefix, folder) else []
  }

  lemma {:induction false} DiscoverAppend(a: seq<Entry>, b: seq<Entry>, prefix: string, folder: string)
    ensures Discover(a + b, prefix, folder) == Discover(a, prefix, folder) + Discover(b, prefix, folder)
    decreases |a|
  {
    if |a| == 0 {
      assert a + b == b;
    } else {
      assert (a + b)[1..] == a[1..] + b;
      DiscoverAppend(a[1..], b, prefix, folder);
    }
  }

  lemma DiscoverSnoc(es: seq<Entry>, i: nat, prefix: string, folder: string)
    requires i < |es|
    ensures Discover(es[..i + 1], prefix, folder) == Discover(es[..i], prefix, folder) + DiscoverEntry(es[i], prefix, folder)
  {
    assert es[..i + 1] == es[..i] + [es[i]];
    DiscoverAppend(es[..i], [es[i]], prefix, folder);
    assert [es[i]][1..] == [];
  }

  /**
   * `findJSTSFiles`: walks the entries of one directory in listing order,
   * skipping excluded names, descending into directories and keeping the
   * files `shouldParse` accepts. A directory that cannot be listed yields
   * no files and does not stop the walk.
   */
  method FindJSTSFiles(dir: Entry, prefix: string, folder: string) returns (files: seq<string>)
    ensures files == DiscoverDir(dir, prefix, folder)
    decreases dir
  {
    files := [];
    if !(dir.Dir? && dir.readable) {
      return;
    }
    var entries := dir.entries;
    var i := 0;
    while i < |entries|
      invariant 0 <= i <= |entries|
      invariant files == Discover(entries[..i], prefix, folder)
    {
      var entry := entries[i];
      DiscoverSnoc(entries, i, prefix, folder);
      if entry.name in ExcludedNames {
        i := i + 1;
        continue;
      }
      if entry.Dir? {
        var subFiles := FindJSTSFiles(entry, JoinRel(prefix, entry.name), folder);
        files := files + subFiles;
      } else if entry.File? && ShouldParse(entry.name) {
        files := files + [RecordedPath(prefix, entry.name, folder)];
      }
      i := i + 1;
    }
    assert entries[..i] == entries;
  }

  /** No path segment produced by the walk below `prefix` is an excluded name. */
  ghost predicate NoExcludedSegment(p: string) {
    forall k | 0 <= k < |Split(p, '/')| :: Split(p, '/')[k] !in ExcludedNames
  }

  /** Entry names never contain the separator (they are single path components). */
  ghost predicate WellNamed(es: seq<Entry>)
    decreases es
  {
    forall k | 0 <= k < |es| :: '/' !in es[k].name && (es[k].Dir? ==> WellNamed(es[k].entries))
  }

  lemma JoinRelSegments(prefix: string, name: string)
    requires '/' !in name
    ensures Split(JoinRel(prefix, name), '/') == (if prefix == "" then [] else Split(prefix, '/')) + [name]
  {
    if prefix != "" {
      SplitSnoc(prefix, name);
    }
  }

  /**
   * Discovery never descends into an excluded directory and keeps only files
   * `shouldParse` accepts: without a scope folder, no segment of a
   * discovered path is one of the excluded names, and the last segment has a
   * JavaScript/TypeScript extension.
   */
  lemma {:induction false} DiscoveredPathsAreEligible(es: seq<Entry>, prefix: string, p: string)
    requires WellNamed(es)
    requires prefix == "" || NoExcludedSegment(prefix)
    requires p in Discover(es, prefix, "")
    ensures NoExcludedSegment(p)
    ensures ShouldParse(p)
    decreases es
  {
    if p in DiscoverEntry(es[0], prefix, "") {
      var e := es[0];
      assert '/' !in e.name && e.name !in ExcludedNames;
      JoinRelSegments(prefix, e.name);
      if e.Dir? {
        DiscoveredPathsAreEligible(e.entries, JoinRel(prefix, e.name), p);
      } else {
        JoinRelKeepsExtension(prefix, e.name);
      }
    } else {
      DiscoveredPathsAreEligible(es[1..], prefix, p);
    }
  }

  /** A file name `shouldParse` accepts is still accepted once prefixed with its folder. */
  lemma JoinRelKeepsExtension(prefix: string, name: string)
    requires ShouldParse(name)
    ensures ShouldParse(JoinRel(prefix, name))
  {
    var p := JoinRel(prefix, name);
    assert EndsWith(p, name) by {
      if prefix != "" {
        assert p[|p| - |name|..] == name;
      }
    }
    EndsWithTrans(p, name, ".js");
    EndsWithTrans(p, name, ".jsx");
    EndsWithTrans(p, name, ".ts");
    EndsWithTrans(p, name, ".tsx");
  }

  lemma EndsWithTrans(p: string, q: string, r: string)
    requires EndsWith(p, q)
    ensures EndsWith(q, r) ==> EndsWith(p, r)
  {
    if EndsWith(q, r) {
      assert p[|p| - |r|..] == q[|q| - |r|..];
    }
  }

  /**
   * With the scope re-prefixing switched off, every path found below a
   * non-empty prefix starts with that prefix and a separator.
   */
  lemma {:induction false} DiscoveredPathsUnderPrefix(es: seq<Entry>, prefix: string, p: string)
    requires prefix != ""
    requires p in Discover(es, prefix, "")
    ensures StartsWith(p, prefix + "/")
    decreases es
  {
    if p in DiscoverEntry(es[0], prefix, "") {
      var e := es[0];
      if e.Dir? {
        DiscoveredPathsUnderPrefix(e.entries, JoinRel(prefix, e.name), p);
        assert (prefix + "/" + e.name + "/")[..|prefix + "/"|] == prefix + "/";
      }
    } else {
      DiscoveredPathsUnderPrefix(es[1..], prefix, p);
    }
  }

  /**
   * When the scope folder is given in the same form `path.relative` produces
   * (the prefix of the walk), the re-prefixing never fires: the paths are the
   * same as without it.
   */
  lemma {:induction false} ReprefixIsNoOpForNormalFolder(es: seq<Entry>, prefix: string, folder: string)
    requires folder != ""
    requires prefix == folder || StartsWith(prefix, folder + "/")
    ensures Discover(es, prefix, folder) == Discover(es, prefix, "")
    decreases es
  {
    if |es| > 0 {
      var e := es[0];
      if e.Dir? {
        assert StartsWith(JoinRel(prefix, e.name), folder + "/") by {
          assert (prefix + "/" + e.name)[..|folder + "/"|] == (prefix + "/")[..|folder + "/"|];
        }
        ReprefixIsNoOpForNormalFolder(e.entries, JoinRel(prefix, e.name), folder);
      } else if e.File? {
        assert StartsWith(JoinRel(prefix, e.name), folder) by {
          assert (prefix + "/" + e.name)[..|folder|] == prefix[..|folder|];
        }
      }
      ReprefixIsNoOpForNormalFolder(es[1..], prefix, folder);
    }
  }

  /** The entry a scope path leads to, descending through directories by name. */
  function Lookup(e: Entry, segs: seq<string>): Option<Entry>
    decreases e
  {
    if |segs| == 0 then Some(e)
    else if !e.Dir? then None
    else LookupIn(e.entries, segs)
  }

  /** The entry a non-empty path leads to, starting from a directory listing. */
  function LookupIn(es: seq<Entry>, segs: seq<string>): Option<Entry>
    requires |segs| > 0
    decreases es
  {
    var k := ChildIndex(es, segs[0]);
    if k < 0 then None else Lookup(es[k], segs[1..])
  }

  /** The position of the first entry named `name`, or -1. */
  function ChildIndex(es: seq<Entry>, name: string): (k: int)
    ensures -1 <= k < |es|
    ensures 0 <= k ==> es[k].name == name
  {
    if |es| == 0 then -1
    else if es[0].name == name then 0
    else
      var k := ChildIndex(es[1..], name);
      if k < 0 then -1 else k + 1
  }

  /** The scope folder's segments after `path.normalize`. */
  function ScopeSegments(folder: string): seq<string> {
    FoldSegments([], Split(folder, '/'), false)
  }

  /** The directory a build analyses: the root, or the scope folder below it (if it exists). */
  function AnalyzedEntry(root: Entry, folder: string): Option<Entry> {
    if folder == "" then Some(root)
    else if ".." in ScopeSegments(folder) then None
    else Lookup(root, ScopeSegments(folder))
  }

  /** `path.relative(root, analyzePath)`: the prefix of every discovered path. */
  function ScopePrefix(folder: string): string {
    if folder == "" then "" else Join(ScopeSegments(folder), "/")
  }

  // ---------------------------------------------------------------------
  // Import resolution
  // ---------------------------------------------------------------------

  /** The suffixes tried, in order, after the resolved base path. */
  const Extensions: seq<string> := ["", ".js", ".jsx", ".ts", ".tsx", "/index.js", "/index.ts"]

  /** Every backslash replaced by a forward slash, for comparison. */
  function NormalizeSeparators(s: string): string {
    ReplaceChar(s, '\\', '/')
  }

  /** A raw import that starts with neither `.` nor `/` names a package and is never resolved. */
  predicate IsExternal(importedPath: string) {
    !StartsWith(importedPath, ".") && !StartsWith(importedPath, "/")
  }

  /** `path.normalize(path.join(path.dirname(importer), imported))`. */
  function CandidateBase(importerPath: string, importedPath: string): (r: string)
    ensures |r| > 0
  {
    Normalize(JoinPaths(Dirname(importerPath), importedPath))
  }

  /** `allFiles.find(...)`: the first file equal to `candidate` once separators are normalised. */
  function FindFile(allFiles: seq<string>, candidate: string): (r: Option<string>)
    ensures r.Some? ==> r.value in allFiles && NormalizeSeparators(r.value) == NormalizeSeparators(candidate)
  {
    if |allFiles| == 0 then None
    else if NormalizeSeparators(allFiles[0]) == NormalizeSeparators(candidate) then Some(allFiles[0])
    else FindFile(allFiles[1..], candidate)
  }

  /** Nothing is found exactly when no file matches the candidate. */
  lemma {:induction false} FindFileNoneIffNoMatch(allFiles: seq<string>, candidate: string)
    ensures FindFile(allFiles, candidate).None? <==>
      forall f | f in allFiles :: NormalizeSeparators(f) != NormalizeSeparators(candidate)
    decreases |allFiles|
  {
    if |allFiles| > 0 {
      FindFileNoneIffNoMatch(allFiles[1..], candidate);
      assert forall f | f in allFiles :: f == allFiles[0] || f in allFiles[1..];
    }
  }

  /** The first suffix, from position `k` on, whose candidate names a file. */
  function ResolveFrom(base: string, allFiles: seq<string>, k: nat): Option<string>
    requires k <= |Extensions|
    decreases |Extensions| - k
  {
    if k == |Extensions| then None
    else
      match FindFile(allFiles, base + Extensions[k])
      case Some(f) => Some(f)
      case None => ResolveFrom(base, allFiles, k + 1)
  }

  /** `resolveImportPath`: the repository file a raw import refers to, if any. */
  function Resolve(importerPath: string, importedPath: string, allFiles: seq<string>): Option<string> {
    if IsExternal(importedPath) then None
    else ResolveFrom(CandidateBase(importerPath, importedPath), allFiles, 0)
  }

  /**
   * The resolver's loop over the suffix list, returning the first file found.
   * A found file is never the empty string (candidates are never empty), so
   * the source's truthiness test on it is the same as "found".
   */
  method ResolveImportPath(importerPath: string, importedPath: string, allFiles: seq<string>)
    returns (r: Option<string>)
    ensures r == Resolve(importerPath, importedPath, allFiles)
  {
    if !StartsWith(importedPath, ".") && !StartsWith(importedPath, "/") {
      return None;
    }
    var resolved := CandidateBase(importerPath, importedPath);
    for k := 0 to |Extensions|
      invariant ResolveFrom(resolved, allFiles, 0) == ResolveFrom(resolved, allFiles, k)
    {
      var candidate := resolved + Extensions[k];
      var found := FindFile(allFiles, candidate);
      ResolveStep(resolved, allFiles, k);
      if found.Some? && found.value != "" {
        return found;
      }
    }
    return None;
  }

  /** One suffix: a file it finds is the result and is never empty; otherwise resolution moves on. */
  lemma ResolveStep(base: string, allFiles: seq<string>, k: nat)
    requires k < |Extensions| && base != ""
    ensures var found := FindFile(allFiles, base + Extensions[k]);
      && (found.Some? ==> ResolveFrom(base, allFiles, k) == found && found.value != "")
      && (found.None? ==> ResolveFrom(base, allFiles, k) == ResolveFrom(base, allFiles, k + 1))
  {
    var candidate := base + Extensions[k];
    var found := FindFile(allFiles, candidate);
    if found.Some? {
      assert |NormalizeSeparators(found.value)| == |NormalizeSeparators(candidate)| == |candidate| > 0;
    }
  }

  /** A package import (no leading `.` or `/`) is never resolved, whatever files exist. */
  lemma ExternalNeverResolves(importerPath: string, importedPath: string, allFiles: seq<string>)
    requires IsExternal(importedPath)
    ensures Resolve(importerPath, importedPath, allFiles) == None
  {
  }

  /**
   * The position `j` of the suffix resolution stops at: no earlier suffix from
   * `k` on names a file, and the result is what suffix `j` finds (nothing
   * when `j` is past the last suffix).
   */
  lemma {:induction false} ResolveFromFirstMatch(base: string, allFiles: seq<string>, k: nat) returns (j: nat)
    requires k <= |Extensions|
    ensures k <= j <= |Extensions|
    ensures forall i | k <= i < j :: FindFile(allFiles, base + Extensions[i]).None?
    ensures j < |Extensions| ==> ResolveFrom(base, allFiles, k) == FindFile(allFiles, base + Extensions[j])
    ensures ResolveFrom(base, allFiles, k).None? <==> j == |Extensions|
    decreases |Extensions| - k
  {
    if k == |Extensions| {
      j := k;
    } else if FindFile(allFiles, base + Extensions[k]).None? {
      j := ResolveFromFirstMatch(base, allFiles, k + 1);
    } else {
      j := k;
    }
  }

  /**
   * Resolution returns a file exactly as stored in the file list, found
   * for the FIRST suffix in the fixed order whose candidate matches some
   * file; it returns nothing only when no suffix matches any file.
   */
  lemma ResolveIsFirstSuffixMatch(importerPath: string, importedPath: string, allFiles: seq<string>)
    requires !IsExternal(importedPath)
    ensures var base := CandidateBase(importerPath, importedPath);
      var r := Resolve(importerPath, importedPath, allFiles);
      && (r.Some? ==> r.value in allFiles)
      && (r.Some? ==> exists j | 0 <= j < |Extensions| ::
            && NormalizeSeparators(r.value) == NormalizeSeparators(base + Extensions[j])
            && forall i, f | 0 <= i < j && f in allFiles ::
                 NormalizeSeparators(f) != NormalizeSeparators(base + Extensions[i]))
      && (r.None? ==> forall j, f | 0 <= j < |Extensions| && f in allFiles ::
            NormalizeSeparators(f) != NormalizeSeparators(base + Extensions[j]))
  {
    var base := CandidateBase(importerPath, importedPath);
    var j := ResolveFromFirstMatch(base, allFiles, 0);
    var r := Resolve(importerPath, importedPath, allFiles);
    forall i | 0 <= i < j
      ensures forall f | f in allFiles :: NormalizeSeparators(f) != NormalizeSeparators(base + Extensions[i])
    {
      FindFileNoneIffNoMatch(allFiles, base + Extensions[i]);
    }
    if r.Some? {
      assert NormalizeSeparators(r.value) == NormalizeSeparators(base + Extensions[j]);
    }
  }

  /** No file name and no candidate base contains a backslash. */
  predicate NoBackslashes(base: string, allFiles: seq<string>) {
    '\\' !in base && forall f | f in allFiles :: '\\' !in f
  }

  /**
   * Tie-break: when the import names no file exactly but `<base>.js` exists,
   * `<base>.js` wins, whether or not `<base>.ts` exists too.
   */
  lemma JsBeforeTs(base: string, allFiles: seq<string>)
    requires NoBackslashes(base, allFiles)
    requires base !in allFiles && base + ".js" in allFiles
    ensures ResolveFrom(base, allFiles, 0) == Some(base + ".js")
  {
    FindFilePlain(allFiles, base + Extensions[0]);
    FindFilePlain(allFiles, base + Extensions[1]);
    assert base + "" == base;
  }

  /**
   * Index fallback: when neither the base nor any of its four extensions names
   * a file but `<base>/index.js` does, the import resolves to it.
   */
  lemma IndexFallback(base: string, allFiles: seq<string>)
    requires NoBackslashes(base, allFiles)
    requires forall k | 0 <= k < 5 :: base + Extensions[k] !in allFiles
    requires base + "/index.js" in allFiles
    ensures ResolveFrom(base, allFiles, 0) == Some(base + "/index.js")
  {
    forall k | 0 <= k < 6
      ensures FindFile(allFiles, base + Extensions[k]) == if k < 5 then None else Some(base + "/index.js")
    {
      FindFilePlain(allFiles, base + Extensions[k]);
    }
    assert ResolveFrom(base, allFiles, 5) == Some(base + "/index.js");
    assert ResolveFrom(base, allFiles, 3) == ResolveFrom(base, allFiles, 5);
    assert ResolveFrom(base, allFiles, 1) == ResolveFrom(base, allFiles, 3);
  }

  /** Without backslashes anywhere, finding a file is plain membership. */
  lemma {:induction false} FindFilePlain(allFiles: seq<string>, candidate: string)
    requires '\\' !in candidate
    requires forall f | f in allFiles :: '\\' !in f
    ensures FindFile(allFiles, candidate) == if candidate in allFiles then Some(candidate) else None
    decreases |allFiles|
  {
    ReplaceCharAbsent(candidate, '\\', '/');
    if |allFiles| > 0 {
      ReplaceCharAbsent(allFiles[0], '\\', '/');
      FindFilePlain(allFiles[1..], candidate);
    }
  }

  // ---------------------------------------------------------------------
  // Graph assembly
  // ---------------------------------------------------------------------

  datatype FileNode = FileNode(id: string, path: string, labelText: string, language: Language)

  datatype FileEdge = FileEdge(id: string, source: string, target: string, importType: ImportKind)

  datatype FolderGroup = FolderGroup(id: string, name: string, path: string, fileIds: seq<string>)

  datatype FileGraph = FileGraph(nodes: seq<FileNode>, edges: seq<FileEdge>, folderGroups: seq<FolderGroup>)

  /** The language recorded on a node: TypeScript exactly for `.ts`/`.tsx`. */
  function NodeLanguage(filePath: string): Language {
    if EndsWith(filePath, ".ts") || EndsWith(filePath, ".tsx") then TypeScript else JavaScript
  }

  function NodeOf(filePath: string): FileNode {
    FileNode(filePath, filePath, Basename(filePath), NodeLanguage(filePath))
  }

  /** One node per discovered file, in discovery order. */
  function NodesOf(files: seq<string>): (nodes: seq<FileNode>)
    ensures |nodes| == |files|
    ensures forall k | 0 <= k < |files| :: nodes[k] == NodeOf(files[k])
  {
    seq(|files|, k requires 0 <= k < |files| => NodeOf(files[k]))
  }

  /** `edge-<n>`. */
  function EdgeId(n: nat): string {
    "edge-" + NatToString(n)
  }

  /** An edge before it is numbered. */
  datatype RawEdge = RawEdge(source: string, target: string, importType: ImportKind)

  /** The imports of one file: none when its content could not be read or parsed. */
  function FileImports(filePath: string, sources: map<string, SyntaxNode>): seq<ImportStatement> {
    if filePath in sources && ShouldParse(filePath) then ImportsOf(sources[filePath]) else []
  }

  /** The edge (if any) that one import of `filePath` becomes. */
  function ImportEdge(filePath: string, imp: ImportStatement, allFiles: seq<string>): seq<RawEdge> {
    match Resolve(filePath, imp.importedPath, allFiles)
    case Some(target) => [RawEdge(filePath, target, imp.kind)]
    case None => []
  }

  /** The edges contributed by one file's imports: one per import whose target resolved, in import order. */
  function EdgesOfImports(filePath: string, imports: seq<ImportStatement>, allFiles: seq<string>): seq<RawEdge>
    decreases |imports|
  {
    if |imports| == 0 then []
    else
      var n := |imports| - 1;
      EdgesOfImports(filePath, imports[..n], allFiles) + ImportEdge(filePath, imports[n], allFiles)
  }

  /** The edges of a list of files, in file-then-import order. */
  function RawEdges(files: seq<string>, allFiles: seq<string>, sources: map<string, SyntaxNode>): seq<RawEdge>
    decreases |files|
  {
    if |files| == 0 then []
    else
      RawEdges(files[..|files| - 1], allFiles, sources)
      + EdgesOfImports(files[|files| - 1], FileImports(files[|files| - 1], sources), allFiles)
  }

  /** Ids `edge-start`, `edge-(start+1)`, ... in list order. */
  function Numbered(raw: seq<RawEdge>, start: nat): (edges: seq<FileEdge>)
    ensures |edges| == |raw|
    ensures forall k | 0 <= k < |raw| ::
      edges[k] == FileEdge(EdgeId(start + k), raw[k].source, raw[k].target, raw[k].importType)
  {
    seq(|raw|, k requires 0 <= k < |raw| =>
      FileEdge(EdgeId(start + k), raw[k].source, raw[k].target, raw[k].importType))
  }

  /** The folder key of a file: the text before its last `/`, or `root`. */
  function FolderOf(filePath: string): string {
    if '/' in filePath then filePath[..LastIndexOf(filePath, '/')] else "root"
  }

  /** `key.split('/').pop() || 'root'`. */
  function GroupName(key: string): string {
    var parts := Split(key, '/');
    if parts[|parts| - 1] == "" then "root" else parts[|parts| - 1]
  }

  /** The distinct folder keys of `files`, in order of first appearance. */
  function FolderKeys(files: seq<string>): seq<string>
    decreases |files|
  {
    if |files| == 0 then []
    else
      var keys := FolderKeys(files[..|files| - 1]);
      var key := FolderOf(files[|files| - 1]);
      if key in keys then keys else keys + [key]
  }

  /** The files of folder `key`, in file order. */
  function Members(files: seq<string>, key: string): seq<string>
    decreases |files|
  {
    if |files| == 0 then []
    else
      Members(files[..|files| - 1], key)
      + (if FolderOf(files[|files| - 1]) == key then [files[|files| - 1]] else [])
  }

  function GroupsOf(files: seq<string>): seq<FolderGroup> {
    var keys := FolderKeys(files);
    seq(|keys|, j requires 0 <= j < |keys| =>
      FolderGroup(keys[j], GroupName(keys[j]), keys[j], Members(files, keys[j])))
  }

  /** The graph assembled from a list of discovered files and their parsed sources. */
  function GraphOf(files: seq<string>, sources: map<string, SyntaxNode>): FileGraph {
    FileGraph(NodesOf(files), Numbered(RawEdges(files, files, sources), 0), GroupsOf(files))
  }

  /** The files a build over `root` discovers, relative to the repository root. */
  function DiscoveredFiles(root: Entry, folder: string): seq<string> {
    match AnalyzedEntry(root, folder)
    case Some(d) => DiscoverDir(d, ScopePrefix(folder), "")
    case None => []
  }

  function FolderNotFound(folder: string): string {
    "Folder \"" + folder + "\" not found in repository"
  }

  /**
   * `buildGraph`: fails only when the scope folder does not exist; otherwise
   * discovers the files, creates one node per file, walks each file's
   * imports and numbers the resolved ones, and groups the files by folder.
   * Discovery records paths relative to the repository root (see the
   * findings in the README for the re-prefixing of the original walk).
   */
  method BuildGraph(root: Entry, folder: string, sources: map<string, SyntaxNode>) returns (r: Result<FileGraph>)
    ensures folder != "" && AnalyzedEntry(root, folder).None? ==> r == Err(FolderNotFound(folder))
    ensures AnalyzedEntry(root, folder).Some? ==> r == Ok(GraphOf(DiscoveredFiles(root, folder), sources))
  {
    var analyzed := AnalyzedEntry(root, folder);
    if folder != "" && analyzed.None? {
      return Err(FolderNotFound(folder));
    }
    var allFiles := FindJSTSFiles(analyzed.value, ScopePrefix(folder), "");

    var nodes := NodesOf(allFiles);
    var edges := CollectEdges(allFiles, sources);
    var folderGroups := GroupByFolder(allFiles);
    r := Ok(FileGraph(nodes, edges, folderGroups));
  }

  /**
   * The edge loop of `buildGraph`: for each file that could be read, its
   * imports in order; each import that resolves becomes the next numbered edge.
   */
  method CollectEdges(allFiles: seq<string>, sources: map<string, SyntaxNode>) returns (edges: seq<FileEdge>)
    ensures edges == Numbered(RawEdges(allFiles, allFiles, sources), 0)
  {
    edges := [];
    for i := 0 to |allFiles|
      invariant edges == Numbered(RawEdges(allFiles[..i], allFiles, sources), 0)
    {
      var filePath := allFiles[i];
      ghost var before := edges;
      if filePath in sources {
        var imports := ParseImports(filePath, sources[filePath]);
        assert imports == FileImports(filePath, sources);
        edges := AppendFileEdges(filePath, imports, allFiles, edges);
        CollectStep(allFiles, sources, i, before, edges);
      } else {
        CollectStep(allFiles, sources, i, before, edges);
      }
    }
    assert allFiles[..|allFiles|] == allFiles;
  }

  /** One turn of the file loop: the file's numbered edges follow those of the files before it. */
  lemma CollectStep(allFiles: seq<string>, sources: map<string, SyntaxNode>, i: nat,
                    before: seq<FileEdge>, after: seq<FileEdge>)
    requires i < |allFiles|
    requires before == Numbered(RawEdges(allFiles[..i], allFiles, sources), 0)
    requires after == before + Numbered(EdgesOfImports(allFiles[i], FileImports(allFiles[i], sources), allFiles), |before|)
    ensures after == Numbered(RawEdges(allFiles[..i + 1], allFiles, sources), 0)
  {
    var done := RawEdges(allFiles[..i], allFiles, sources);
    var own := EdgesOfImports(allFiles[i], FileImports(allFiles[i], sources), allFiles);
    assert RawEdges(allFiles[..i + 1], allFiles, sources) == done + own by {
      assert allFiles[..i + 1][..i] == allFiles[..i];
    }
    assert before == [] + Numbered(done, 0);
    NumberedExtend(done, own, RawEdges(allFiles[..i + 1], allFiles, sources), [], before, after);
    assert after == [] + Numbered(RawEdges(allFiles[..i + 1], allFiles, sources), 0);
  }

  /** Numbering a list in two parts, the second part numbered on from the first. */
  lemma NumberedExtend(done: seq<RawEdge>, own: seq<RawEdge>, total: seq<RawEdge>,
                       prior: seq<FileEdge>, before: seq<FileEdge>, after: seq<FileEdge>)
    requires total == done + own
    requires before == prior + Numbered(done, |prior|)
    requires after == before + Numbered(own, |before|)
    ensures after == prior + Numbered(total, |prior|)
  {
    NumberedAppend(done, own, |prior|);
  }

  /** The edges of one file's imports, numbered on from the edges collected so far. */
  method AppendFileEdges(filePath: string, imports: seq<ImportStatement>, allFiles: seq<string>, prior: seq<FileEdge>)
    returns (edges: seq<FileEdge>)
    ensures edges == prior + Numbered(EdgesOfImports(filePath, imports, allFiles), |prior|)
  {
    edges := prior;
    var edgeIdCounter := |prior|;
    for j := 0 to |imports|
      invariant edges == prior + Numbered(EdgesOfImports(filePath, imports[..j], allFiles), |prior|)
      invariant edgeIdCounter == |edges|
    {
      var resolvedPath := ResolveImportPath(filePath, imports[j].importedPath, allFiles);
      AppendStep(filePath, imports, j, allFiles, prior, edges, resolvedPath);
      if resolvedPath.Some? {
        edges := edges + [FileEdge(EdgeId(edgeIdCounter), filePath, resolvedPath.value, imports[j].kind)];
        edgeIdCounter := edgeIdCounter + 1;
      }
    }
    assert imports[..|imports|] == imports;
  }

  /** One turn of the import loop: the next import's edge, if it resolved, is numbered after the others. */
  lemma AppendStep(filePath: string, imports: seq<ImportStatement>, j: nat, allFiles: seq<string>,
                   prior: seq<FileEdge>, edges: seq<FileEdge>, r: Option<string>)
    requires j < |imports|
    requires edges == prior + Numbered(EdgesOfImports(filePath, imports[..j], allFiles), |prior|)
    requires r == Resolve(filePath, imports[j].importedPath, allFiles)
    ensures var next := match r
        case Some(t) => edges + [FileEdge(EdgeId(|edges|), filePath, t, imports[j].kind)]
        case None => edges;
      next == prior + Numbered(EdgesOfImports(filePath, imports[..j + 1], allFiles), |prior|)
  {
    var done := EdgesOfImports(filePath, imports[..j], allFiles);
    var x := ImportEdge(filePath, imports[j], allFiles);
    var total := EdgesOfImports(filePath, imports[..j + 1], allFiles);
    assert total == done + x by {
      assert imports[..j + 1][..j] == imports[..j];
    }
    var next := match r
      case Some(t) => edges + [FileEdge(EdgeId(|edges|), filePath, t, imports[j].kind)]
      case None => edges;
    assert next == edges + Numbered(x, |edges|) by {
      NumberedImportEdge(filePath, imports[j], allFiles, r, |edges|);
      if r.None? {
        assert edges + [] == edges;
      }
    }
    NumberedExtend(done, x, total, prior, edges, next);
  }

  /** The numbered edge of one import: none when it did not resolve. */
  lemma NumberedImportEdge(filePath: string, imp: ImportStatement, allFiles: seq<string>, r: Option<string>, n: nat)
    requires r == Resolve(filePath, imp.importedPath, allFiles)
    ensures Numbered(ImportEdge(filePath, imp, allFiles), n)
      == match r
         case Some(t) => [FileEdge(EdgeId(n), filePath, t, imp.kind)]
         case None => []
  {
  }

  lemma NumberedAppend(a: seq<RawEdge>, b: seq<RawEdge>, start: nat)
    ensures Numbered(a + b, start) == Numbered(a, start) + Numbered(b, start + |a|)
  {
    assert forall k | 0 <= k < |a + b| :: Numbered(a + b, start)[k] == (Numbered(a, start) + Numbered(b, start + |a|))[k];
  }

  /** The folder-group loop of `buildGraph`: files keyed by folder, keys in first-appearance order. */
  method GroupByFolder(allFiles: seq<string>) returns (folderGroups: seq<FolderGroup>)
    ensures folderGroups == GroupsOf(allFiles)
  {
    var groups: map<string, seq<string>> := map[];
    var order: seq<string> := [];
    for i := 0 to |allFiles|
      invariant order == FolderKeys(allFiles[..i])
      invariant forall key :: key in groups <==> key in order
      invariant forall key | key in groups :: groups[key] == Members(allFiles[..i], key)
    {
      var filePath := allFiles[i];
      assert allFiles[..i + 1][..i] == allFiles[..i];
      var key := if '/' in filePath then filePath[..LastIndexOf(filePath, '/')] else "root";
      if key !in groups {
        MembersAbsent(allFiles[..i], key);
        groups := groups[key := []];
        order := order + [key];
      }
      groups := groups[key := groups[key] + [filePath]];
    }
    assert allFiles[..|allFiles|] == allFiles;
    folderGroups := seq(|order|, j requires 0 <= j < |order| =>
      FolderGroup(order[j], GroupName(order[j]), order[j], groups[order[j]]));
  }

  lemma {:induction false} MembersAbsent(files: seq<string>, key: string)
    requires key !in FolderKeys(files)
    ensures Members(files, key) == []
    decreases |files|
  {
    if |files| > 0 {
      MembersAbsent(files[..|files| - 1], key);
    }
  }

  // ---------------------------------------------------------------------
  // Properties of the assembled graph
  // ---------------------------------------------------------------------

  function NodeIds(g: FileGraph): set<string> {
    set n | n in g.nodes :: n.id
  }

  lemma {:induction false} EdgesOfEndpoints(filePath: string, imports: seq<ImportStatement>, allFiles: seq<string>)
    ensures forall e | e in EdgesOfImports(filePath, imports, allFiles) :: e.source == filePath && e.target in allFiles
    decreases |imports|
  {
    if |imports| > 0 {
      var n := |imports| - 1;
      EdgesOfEndpoints(filePath, imports[..n], allFiles);
      ResolveInFiles(filePath, imports[n].importedPath, allFiles);
    }
  }

  lemma ResolveInFiles(importerPath: string, importedPath: string, allFiles: seq<string>)
    ensures Resolve(importerPath, importedPath, allFiles).Some? ==> Resolve(importerPath, importedPath, allFiles).value in allFiles
  {
    if !IsExternal(importedPath) {
      ResolveIsFirstSuffixMatch(importerPath, importedPath, allFiles);
    }
  }

  lemma {:induction false} RawEdgesEndpoints(files: seq<string>, allFiles: seq<string>, sources: map<string, SyntaxNode>)
    ensures forall e | e in RawEdges(files, allFiles, sources) :: e.source in files && e.target in allFiles
    decreases |files|
  {
    if |files| > 0 {
      var n := |files| - 1;
      var f := files[n];
      var imports := FileImports(f, sources);
      EdgesOfEndpoints(f, imports, allFiles);
      RawEdgesEndpoints(files[..n], allFiles, sources);
      assert forall x | x in files[..n] :: x in files;
    }
  }

  /**
   * Every edge joins two nodes of the graph: its source is the file whose
   * import produced it and its target a discovered file.
   */
  lemma EdgeEndpointsAreNodes(files: seq<string>, sources: map<string, SyntaxNode>)
    ensures var g := GraphOf(files, sources);
      forall e | e in g.edges :: e.source in NodeIds(g) && e.target in NodeIds(g)
  {
    var g := GraphOf(files, sources);
    var raw := RawEdges(files, files, sources);
    RawEdgesEndpoints(files, files, sources);
    forall e | e in g.edges
      ensures e.source in NodeIds(g) && e.target in NodeIds(g)
    {
      var k :| 0 <= k < |g.edges| && g.edges[k] == e;
      assert raw[k] in raw;
      var i :| 0 <= i < |files| && files[i] == e.source;
      assert g.nodes[i].id == e.source;
      var j :| 0 <= j < |files| && files[j] == e.target;
      assert g.nodes[j].id == e.target;
    }
  }

  lemma EdgeIdInjective(a: nat, b: nat)
    requires EdgeId(a) == EdgeId(b)
    ensures a == b
  {
    assert EdgeId(a)[5..] == NatToString(a);
    assert EdgeId(b)[5..] == NatToString(b);
    NatToStringInjective(a, b);
  }

  /** Edge ids are `edge-0`, `edge-1`, ... in order, hence pairwise distinct. */
  lemma EdgeIdsSequentialAndDistinct(files: seq<string>, sources: map<string, SyntaxNode>)
    ensures var g := GraphOf(files, sources);
      && (forall k | 0 <= k < |g.edges| :: g.edges[k].id == EdgeId(k))
      && (forall i, j | 0 <= i < j < |g.edges| :: g.edges[i].id != g.edges[j].id)
  {
    var g := GraphOf(files, sources);
    forall i, j | 0 <= i < j < |g.edges|
      ensures g.edges[i].id != g.edges[j].id
    {
      if g.edges[i].id == g.edges[j].id {
        EdgeIdInjective(i, j);
      }
    }
  }

  lemma {:induction false} RawEdgesSkipUnread(files: seq<string>, allFiles: seq<string>, sources: map<string, SyntaxNode>, f: string)
    requires f !in sources
    ensures forall e | e in RawEdges(files, allFiles, sources) :: e.source != f
    decreases |files|
  {
    if |files| > 0 {
      var n := |files| - 1;
      var g := files[n];
      var imports := FileImports(g, sources);
      EdgesOfEndpoints(g, imports, allFiles);
      RawEdgesSkipUnread(files[..n], allFiles, sources, f);
    }
  }

  /** A file that could not be read or parsed is a node with no outgoing edge. */
  lemma UnreadFileHasNoOutgoingEdges(files: seq<string>, sources: map<string, SyntaxNode>, f: string)
    requires f !in sources
    ensures forall e | e in GraphOf(files, sources).edges :: e.source != f
  {
    var g := GraphOf(files, sources);
    var raw := RawEdges(files, files, sources);
    RawEdgesSkipUnread(files, files, sources, f);
    forall e | e in g.edges
      ensures e.source != f
    {
      var k :| 0 <= k < |g.edges| && g.edges[k] == e;
      assert raw[k] in raw;
    }
  }

  lemma {:induction false} FolderKeysDistinct(files: seq<string>)
    ensures forall i, j | 0 <= i < j < |FolderKeys(files)| :: FolderKeys(files)[i] != FolderKeys(files)[j]
    decreases |files|
  {
    if |files| > 0 {
      FolderKeysDistinct(files[..|files| - 1]);
    }
  }

  lemma {:induction false} FolderKeysCover(files: seq<string>)
    ensures forall f | f in files :: FolderOf(f) in FolderKeys(files)
    decreases |files|
  {
    if |files| > 0 {
      var n := |files| - 1;
      FolderKeysCover(files[..n]);
      assert forall f | f in files :: f in files[..n] || f == files[n];
    }
  }

  lemma {:induction false} MembersAre(files: seq<string>, key: string)
    ensures forall f :: f in Members(files, key) <==> f in files && FolderOf(f) == key
    decreases |files|
  {
    if |files| > 0 {
      var n := |files| - 1;
      MembersAre(files[..n], key);
      assert forall f | f in files :: f in files[..n] || f == files[n];
    }
  }

  /**
   * The folder groups partition the files: group ids are distinct, each
   * file lies in exactly one group, the one keyed by its folder, and each
   * group is named after the last segment of its key and has the key as path.
   */
  lemma GroupsPartitionFiles(files: seq<string>)
    ensures var gs := GroupsOf(files);
      && (forall i, j | 0 <= i < j < |gs| :: gs[i].id != gs[j].id)
      && (forall f, j | f in files && 0 <= j < |gs| :: f in gs[j].fileIds <==> gs[j].id == FolderOf(f))
      && (forall f | f in files :: exists j | 0 <= j < |gs| :: gs[j].id == FolderOf(f))
      && (forall j | 0 <= j < |gs| :: gs[j].name == GroupName(gs[j].id) && gs[j].path == gs[j].id)
  {
    var gs := GroupsOf(files);
    var keys := FolderKeys(files);
    FolderKeysDistinct(files);
    FolderKeysCover(files);
    forall j | 0 <= j < |gs|
      ensures forall f | f in files :: f in gs[j].fileIds <==> gs[j].id == FolderOf(f)
    {
      MembersAre(files, keys[j]);
    }
    forall f | f in files
      ensures exists j | 0 <= j < |gs| :: gs[j].id == FolderOf(f)
    {
      var j :| 0 <= j < |keys| && keys[j] == FolderOf(f);
      assert gs[j].id == FolderOf(f);
    }
  }

  // ---------------------------------------------------------------------
  // Discovered paths name files of the tree
  // ---------------------------------------------------------------------

  /** A listing names each entry at most once, names are non-empty without `/`, and every entry is well formed. */
  ghost predicate WellFormedListing(es: seq<Entry>)
    decreases es
  {
    && (forall i, j | 0 <= i < j < |es| :: es[i].name != es[j].name)
    && (forall k | 0 <= k < |es| :: es[k].name != "" && '/' !in es[k].name && WellFormedTree(es[k]))
  }

  ghost predicate WellFormedTree(e: Entry)
    decreases e
  {
    e.Dir? ==> WellFormedListing(e.entries)
  }

  /** The path `segs`, followed from `e`, ends at a regular file. */
  predicate IsFileAt(e: Entry, segs: seq<string>) {
    Lookup(e, segs).Some? && Lookup(e, segs).value.File?
  }

  /** The segments of a walk prefix (`path.relative` yields "" for the analysed directory itself). */
  function PrefixSegments(prefix: string): seq<string> {
    if prefix == "" then [] else Split(prefix, '/')
  }

  /** The conclusion of `DiscoverFindsFiles` for a path `p` found in the listing `es`. */
  ghost predicate FoundIn(es: seq<Entry>, prefix: string, p: string) {
    var segs := Split(p, '/');
    var n := |PrefixSegments(prefix)|;
    && n < |segs| && segs[..n] == PrefixSegments(prefix)
    && LookupIn(es, segs[n..]).Some? && LookupIn(es, segs[n..]).value.File?
  }

  lemma {:induction false} DiscoverFindsFiles(es: seq<Entry>, prefix: string, p: string)
    requires WellFormedListing(es)
    requires p in Discover(es, prefix, "")
    ensures FoundIn(es, prefix, p)
    decreases es
  {
    if p in DiscoverEntry(es[0], prefix, "") {
      DiscoverFirstFindsFile(es, prefix, p);
    } else {
      assert WellFormedListing(es[1..]) by {
        assert forall i | 0 <= i < |es[1..]| :: es[1..][i] == es[i + 1];
      }
      DiscoverFindsFiles(es[1..], prefix, p);
      FoundInLater(es, prefix, p);
    }
  }

  lemma FoundInLater(es: seq<Entry>, prefix: string, p: string)
    requires |es| > 0 && WellFormedListing(es)
    requires FoundIn(es[1..], prefix, p)
    ensures FoundIn(es, prefix, p)
  {
    var segs := Split(p, '/');
    var rest := segs[|PrefixSegments(prefix)|..];
    var k := ChildIndex(es[1..], rest[0]);
    assert es[1..][k] == es[k + 1];
    assert ChildIndex(es, rest[0]) == k + 1;
  }

  lemma {:induction false} DiscoverFirstFindsFile(es: seq<Entry>, prefix: string, p: string)
    requires |es| > 0 && WellFormedListing(es)
    requires p in DiscoverEntry(es[0], prefix, "")
    ensures FoundIn(es, prefix, p)
    decreases es, 0
  {
    var e := es[0];
    var rel := JoinRel(prefix, e.name);
    assert rel != "" by {
      if prefix != "" {
        assert |rel| > |prefix|;
      }
    }
    JoinRelSegments(prefix, e.name);
    assert ChildIndex(es, e.name) == 0;
    if e.Dir? {
      DiscoverFindsFiles(e.entries, rel, p);
      FoundBelow(es, prefix, p);
    } else {
      var segs := Split(p, '/');
      var n := |PrefixSegments(prefix)|;
      assert segs == PrefixSegments(prefix) + [e.name];
      assert segs[n..] == [e.name];
    }
  }

  lemma FoundBelow(es: seq<Entry>, prefix: string, p: string)
    requires |es| > 0 && es[0].Dir? && ChildIndex(es, es[0].name) == 0
    requires PrefixSegments(JoinRel(prefix, es[0].name)) == PrefixSegments(prefix) + [es[0].name]
    requires FoundIn(es[0].entries, JoinRel(prefix, es[0].name), p)
    ensures FoundIn(es, prefix, p)
  {
    LookupBelow(es, Split(p, '/'), PrefixSegments(prefix));
  }

  lemma LookupBelow(es: seq<Entry>, segs: seq<string>, above: seq<string>)
    requires |es| > 0 && es[0].Dir? && ChildIndex(es, es[0].name) == 0
    requires |above| + 1 < |segs| && segs[..|above| + 1] == above + [es[0].name]
    requires LookupIn(es[0].entries, segs[|above| + 1..]).Some?
    ensures segs[..|above|] == above
    ensures LookupIn(es, segs[|above|..]) == LookupIn(es[0].entries, segs[|above| + 1..])
  {
    var n := |above|;
    assert segs[..n] == segs[..n + 1][..n];
    assert segs[n..][0] == segs[..n + 1][n];
    assert segs[n..][1..] == segs[n + 1..];
  }

  lemma {:induction false} LookupThen(e: Entry, segs: seq<string>, rest: seq<string>)
    requires Lookup(e, segs).Some?
    ensures Lookup(e, segs + rest) == Lookup(Lookup(e, segs).value, rest)
    decreases e
  {
    if |segs| > 0 {
      var k := ChildIndex(e.entries, segs[0]);
      assert (segs + rest)[0] == segs[0];
      assert (segs + rest)[1..] == segs[1..] + rest;
      LookupThen(e.entries[k], segs[1..], rest);
    } else {
      assert segs + rest == rest;
    }
  }

  lemma {:induction false} LookupWellFormed(e: Entry, segs: seq<string>)
    requires WellFormedTree(e) && Lookup(e, segs).Some?
    ensures WellFormedTree(Lookup(e, segs).value)
    decreases e
  {
    if |segs| > 0 {
      LookupWellFormed(e.entries[ChildIndex(e.entries, segs[0])], segs[1..]);
    }
  }

  lemma ScopePrefixSegments(folder: string)
    ensures PrefixSegments(ScopePrefix(folder)) == if folder == "" then [] else ScopeSegments(folder)
  {
    if folder != "" {
      var segs := ScopeSegments(folder);
      FoldSegmentsPlain([], Split(folder, '/'), false);
      if |segs| > 0 {
        SplitJoin(segs, '/');
        JoinNonEmpty(segs);
      }
    }
  }

  /**
   * Every path a build discovers names a regular file of the repository when
   * followed from the repository root: the nodes can be read back by their ids.
   */
  lemma DiscoveredFilesExist(root: Entry, folder: string, p: string)
    requires WellFormedTree(root)
    requires p in DiscoveredFiles(root, folder)
    ensures IsFileAt(root, Split(p, '/'))
  {
    var d := AnalyzedEntry(root, folder).value;
    var prefix := ScopePrefix(folder);
    var scope := if folder == "" then [] else ScopeSegments(folder);
    assert Lookup(root, scope) == Some(d);
    LookupWellFormed(root, scope);
    DiscoverFindsFiles(d.entries, prefix, p);
    ScopePrefixSegments(folder);
    FoundInTree(root, scope, d, prefix, p);
  }

  lemma FoundInTree(root: Entry, scope: seq<string>, d: Entry, prefix: string, p: string)
    requires Lookup(root, scope) == Some(d) && d.Dir?
    requires PrefixSegments(prefix) == scope
    requires FoundIn(d.entries, prefix, p)
    ensures IsFileAt(root, Split(p, '/'))
  {
    var segs := Split(p, '/');
    var n := |scope|;
    assert Lookup(d, segs[n..]) == LookupIn(d.entries, segs[n..]);
    assert segs == scope + segs[n..];
    LookupThen(root, scope, segs[n..]);
  }

  // ---------------------------------------------------------------------
  // The scope re-prefixing of the original walk
  // ---------------------------------------------------------------------

  /** A plain directory or file name: non-empty, no `/`, not starting with `.`. */
  predicate PlainName(name: string) {
    name != "" && '/' !in name && name[0] != '.'
  }

  /** A repository whose only content is the file `<dir>/<file>`. */
  function SingleFileRepo(dir: string, file: string): Entry {
    Dir("repo", true, [Dir(dir, true, [File(file)])])
  }

  lemma DotScope(dir: string)
    requires PlainName(dir)
    ensures ScopeSegments("./" + dir) == [dir]
    ensures ScopePrefix("./" + dir) == dir
  {
    assert Split(".", '/') == ["."];
    assert "./" + dir == "." + "/" + dir;
    SplitSnoc(".", dir);
    assert dir != ".." && dir != ".";
    assert [".", dir][1..] == [dir];
    assert FoldSegments([], [".", dir], false) == FoldSegments([], [dir], false);
    assert FoldSegments([], [dir], false) == FoldSegments([dir], [], false);
  }

  lemma NormalizeRelative(p: string, segs: seq<string>)
    requires p != "" && p[0] != '/' && p[|p| - 1] != '/'
    requires FoldSegments([], Split(p, '/'), false) == segs && Join(segs, "/") != ""
    ensures Normalize(p) == Join(segs, "/")
  {
  }

  lemma DoubledPathSegments(dir: string, file: string)
    requires PlainName(dir) && PlainName(file)
    ensures Split("./" + dir + "/" + dir + "/" + file, '/') == [".", dir, dir, file]
  {
    var a := "./" + dir;
    assert Split(a, '/') == [".", dir] by {
      assert Split(".", '/') == ["."];
      assert a == "." + "/" + dir;
      SplitSnoc(".", dir);
    }
    var b := a + "/" + dir;
    assert Split(b, '/') == [".", dir, dir] by {
      SplitSnoc(a, dir);
    }
    SplitSnoc(b, file);
  }

  lemma DoubledPathFolds(dir: string, file: string)
    requires PlainName(dir) && PlainName(file)
    ensures FoldSegments([], [".", dir, dir, file], false) == [dir, dir, file]
  {
    assert dir != ".." && dir != "." && file != ".." && file != ".";
    assert [".", dir, dir, file][1..] == [dir, dir, file];
    assert [dir, dir, file][1..] == [dir, file];
    assert [dir, file][1..] == [file];
    assert PushSegment([], dir, false) == [dir];
    assert PushSegment([dir], dir, false) == [dir, dir];
    assert PushSegment([dir, dir], file, false) == [dir, dir, file];
    assert FoldSegments([], [".", dir, dir, file], false) == FoldSegments([], [dir, dir, file], false);
    assert FoldSegments([], [dir, dir, file], false) == FoldSegments([dir], [dir, file], false);
    assert FoldSegments([dir], [dir, file], false) == FoldSegments([dir, dir], [file], false);
    assert FoldSegments([dir, dir], [file], false) == FoldSegments([dir, dir, file], [], false);
  }

  lemma JoinThree(a: string, b: string, c: string)
    ensures Join([a, b, c], "/") == a + "/" + b + "/" + c
  {
    assert [a, b, c][1..] == [b, c];
    assert [b, c][1..] == [c];
    assert Join([b, c], "/") == b + "/" + c;
  }

  lemma DoubledPathNormalizes(dir: string, file: string)
    requires PlainName(dir) && PlainName(file)
    ensures JoinPaths("./" + dir, dir + "/" + file) == dir + "/" + dir + "/" + file
  {
    var p := "./" + dir + "/" + dir + "/" + file;
    assert ("./" + dir) + "/" + (dir + "/" + file) == p;
    DoubledPathSegments(dir, file);
    DoubledPathFolds(dir, file);
    JoinThree(dir, dir, file);
    assert p[|p| - 1] == file[|file| - 1];
    NormalizeRelative(p, [dir, dir, file]);
  }

  lemma DoubledPathIsNoFile(dir: string, file: string)
    requires PlainName(dir) && PlainName(file) && dir != file
    ensures !IsFileAt(SingleFileRepo(dir, file), Split(dir + "/" + dir + "/" + file, '/'))
  {
    var segs := [dir, dir, file];
    assert Split(dir + "/" + dir + "/" + file, '/') == segs by {
      var a := dir + "/" + dir;
      assert Split(a, '/') == [dir, dir] by {
        assert Split(dir, '/') == [dir];
        SplitSnoc(dir, dir);
      }
      SplitSnoc(a, file);
    }
    var d := Dir(dir, true, [File(file)]);
    assert Lookup(d, [dir, file]) == None by {
      assert ChildIndex([File(file)], dir) == -1 by {
        assert [File(file)][1..] == [];
      }
    }
    assert LookupIn([d], segs) == Lookup(d, [dir, file]) by {
      assert ChildIndex([d], dir) == 0;
      assert segs[1..] == [dir, file];
    }
    assert Lookup(SingleFileRepo(dir, file), segs) == None;
  }

  lemma DotScopeFound(dir: string, file: string)
    requires PlainName(dir)
    ensures AnalyzedEntry(SingleFileRepo(dir, file), "./" + dir) == Some(Dir(dir, true, [File(file)]))
  {
    DotScope(dir);
    assert ".." !in [dir];
    assert ChildIndex([Dir(dir, true, [File(file)])], dir) == 0;
    assert [dir][1..] == [];
    assert Lookup(SingleFileRepo(dir, file), [dir]) == Lookup(Dir(dir, true, [File(file)]), []);
  }

  lemma DotScopeWalk(dir: string, file: string, folder: string)
    requires PlainName(dir) && PlainName(file)
    requires ShouldParse(file) && file !in ExcludedNames
    requires folder == "" || folder == "./" + dir
    ensures DiscoverDir(Dir(dir, true, [File(file)]), dir, folder) == [RecordedPath(dir, file, folder)]
  {
    assert [File(file)][1..] == [];
    assert DiscoverEntry(File(file), dir, folder) == [RecordedPath(dir, file, folder)];
    assert Discover([File(file)], dir, folder) == [RecordedPath(dir, file, folder)] + [];
  }

  lemma DotScopeRecords(dir: string, file: string)
    requires PlainName(dir) && PlainName(file)
    ensures RecordedPath(dir, file, "./" + dir) == dir + "/" + dir + "/" + file
    ensures RecordedPath(dir, file, "") == dir + "/" + file
  {
    DoubledPathNormalizes(dir, file);
    assert !StartsWith(dir + "/" + file, "./" + dir) by {
      assert (dir + "/" + file)[0] != ("./" + dir)[0];
    }
  }

  /**
   * As written, a scope folder given as `./<dir>` (a form the query string
   * accepts and the existence check resolves) makes the walk record
   * `<dir>/<dir>/<file>` for the file `<dir>/<file>`: the relative path does
   * not start with the folder's text, so the folder is joined in front of a
   * path that already contains it. The recorded path names no file of the
   * repository. Without the re-prefixing the walk records the file's real path.
   */
  lemma ScopedWalkDoublesFolder(dir: string, file: string)
    requires PlainName(dir) && PlainName(file) && dir != file
    requires ShouldParse(file) && file !in ExcludedNames
    ensures var root := SingleFileRepo(dir, file);
      var folder := "./" + dir;
      && AnalyzedEntry(root, folder) == Some(Dir(dir, true, [File(file)]))
      && DiscoverDir(Dir(dir, true, [File(file)]), ScopePrefix(folder), folder) == [dir + "/" + dir + "/" + file]
      && !IsFileAt(root, Split(dir + "/" + dir + "/" + file, '/'))
      && DiscoveredFiles(root, folder) == [dir + "/" + file]
  {
    DotScope(dir);
    DotScopeFound(dir, file);
    DotScopeWalk(dir, file, "./" + dir);
    DotScopeWalk(dir, file, "");
    DotScopeRecords(dir, file);
    DoubledPathIsNoFile(dir, file);
  }
}
