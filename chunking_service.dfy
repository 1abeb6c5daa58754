/**
 * The function chunker: a pre-order walk over a file's syntax tree that cuts
 * every function-like node into a snippet of source lines, with a whole-file
 * chunk as the fallback when no function is found or the file cannot be parsed.
 */
module ChunkingService {
  import opened Wrappers
  import opened Strings
  import opened ParseService

  datatype CodeChunk = CodeChunk(
    filePath: string,
    functionName: Option<string>,
    codeSnippet: string,
    language: Language,
    startLine: nat,
    endLine: nat)

  /** A file handed to the chunker, with the tree its language's parser produced (none: the parse threw). */
  datatype SourceFile = SourceFile(path: string, content: string, language: Language, tree: Option<SyntaxNode>)

  /** The node kinds that count as functions. */
  const FunctionKinds: set<string> := {"function_declaration", "arrow_function", "method_definition", "function_expression"}

  /** `xs.slice(start, end)` for non-negative bounds: both are clamped to the length. */
  function Slice<T>(xs: seq<T>, start: nat, end: nat): (r: seq<T>)
    ensures start <= end <= |xs| ==> r == xs[start..end]
    ensures end <= start || |xs| <= start ==> r == []
    ensures start < end && start < |xs| < end ==> r == xs[start..]
  {
    var a := if start < |xs| then start else |xs|;
    var b := if end < |xs| then end else |xs|;
    if b <= a then [] else xs[a..b]
  }

  /** The source lines `startRow..endRow` (inclusive) joined with newlines. */
  function Snippet(lines: seq<string>, startRow: nat, endRow: nat): string {
    Join(Slice(lines, startRow, endRow + 1), "\n")
  }

  /** The chunk a node yields on its own: only function-like nodes yield one. */
  function NodeChunk(filePath: string, language: Language, lines: seq<string>, n: SyntaxNode): (r: Option<CodeChunk>)
    ensures r.Some? <==> n.kind in FunctionKinds
    ensures r.Some? ==> r.value.startLine == n.startRow + 1 && r.value.endLine == n.endRow + 1
    ensures r.Some? ==> r.value.functionName == (match ChildForFieldName(n, "name") case Some(m) => Some(m.text) case None => None)
  {
    if n.kind in FunctionKinds then
      var name := match ChildForFieldName(n, "name") case Some(m) => Some(m.text) case None => None;
      Some(CodeChunk(filePath, name, Snippet(lines, n.startRow, n.endRow), language, n.startRow + 1, n.endRow + 1))
    else None
  }

  /** The chunks of a whole tree, in pre-order. */
  function ChunksOf(filePath: string, language: Language, lines: seq<string>, n: SyntaxNode): seq<CodeChunk>
    decreases n
  {
    OptionToSeq(NodeChunk(filePath, language, lines, n)) + ChunksOfAll(filePath, language, lines, n.children)
  }

  function ChunksOfAll(filePath: string, language: Language, lines: seq<string>, ns: seq<SyntaxNode>): seq<CodeChunk>
    decreases ns
  {
    if |ns| == 0 then [] else ChunksOf(filePath, language, lines, ns[0]) + ChunksOfAll(filePath, language, lines, ns[1..])
  }

  /** The single chunk holding the whole file. */
  function WholeFileChunk(filePath: string, content: string, language: Language): CodeChunk {
    CodeChunk(filePath, None, content, language, 1, |Split(content, '\n')|)
  }

  /** What `chunkFile` returns. */
  function FileChunks(f: SourceFile): seq<CodeChunk> {
    match f.tree
    case None => [WholeFileChunk(f.path, f.content, f.language)]
    case Some(t) =>
      var chunks := ChunksOf(f.path, f.language, Split(f.content, '\n'), t);
      if |chunks| == 0 then [WholeFileChunk(f.path, f.content, f.language)] else chunks
  }

  /** What `chunkFiles` returns: the chunks of each file, in file order. */
  function AllChunks(files: seq<SourceFile>): seq<CodeChunk>
    decreases |files|
  {
    if |files| == 0 then [] else AllChunks(files[..|files| - 1]) + FileChunks(files[|files| - 1])
  }

  lemma {:induction false} ChunksOfAllAppend(filePath: string, language: Language, lines: seq<string>, a: seq<SyntaxNode>, b: seq<SyntaxNode>)
    ensures ChunksOfAll(filePath, language, lines, a + b)
      == ChunksOfAll(filePath, language, lines, a) + ChunksOfAll(filePath, language, lines, b)
    decreases |a|
  {
    if |a| == 0 {
      assert a + b == b;
    } else {
      assert (a + b)[1..] == a[1..] + b;
      ChunksOfAllAppend(filePath, language, lines, a[1..], b);
    }
  }

  lemma ChunksOfAllSnoc(filePath: string, language: Language, lines: seq<string>, ns: seq<SyntaxNode>, i: nat)
    requires i < |ns|
    ensures ChunksOfAll(filePath, language, lines, ns[..i + 1])
      == ChunksOfAll(filePath, language, lines, ns[..i]) + ChunksOf(filePath, language, lines, ns[i])
  {
    assert ns[..i + 1] == ns[..i] + [ns[i]];
    ChunksOfAllAppend(filePath, language, lines, ns[..i], [ns[i]]);
    assert [ns[i]][1..] == [];
  }

  /** The check `extractFunctions` applies to the node under the cursor. */
  method AppendNodeChunk(filePath: string, language: Language, lines: seq<string>, node: SyntaxNode, chunks: seq<CodeChunk>)
    returns (result: seq<CodeChunk>)
    ensures result == chunks + OptionToSeq(NodeChunk(filePath, language, lines, node))
  {
    result := chunks;
    if node.kind in FunctionKinds {
      var startLine := node.startRow;
      var endLine := node.endRow;
      var functionCode := Join(Slice(lines, startLine, endLine + 1), "\n");
      var functionName: Option<string> := None;
      var nameNode := ChildForFieldName(node, "name");
      if nameNode.Some? {
        functionName := Some(nameNode.value.text);
      }
      result := result + [CodeChunk(filePath, functionName, functionCode, language, startLine + 1, endLine + 1)];
    }
  }

  /** One more child visited: its chunks extend those of the children before it. */
  lemma ExtractStep(filePath: string, language: Language, lines: seq<string>, children: seq<SyntaxNode>, i: nat,
                    prefix: seq<CodeChunk>, result: seq<CodeChunk>)
    requires i < |children|
    requires result == prefix + ChunksOfAll(filePath, language, lines, children[..i]) + ChunksOf(filePath, language, lines, children[i])
    ensures result == prefix + ChunksOfAll(filePath, language, lines, children[..i + 1])
  {
    ChunksOfAllSnoc(filePath, language, lines, children, i);
  }

  /** Every child visited: the node's own chunk followed by those of all its children. */
  lemma ExtractDone(filePath: string, language: Language, lines: seq<string>, node: SyntaxNode,
                    chunks: seq<CodeChunk>, result: seq<CodeChunk>)
    requires result == chunks + OptionToSeq(NodeChunk(filePath, language, lines, node))
      + ChunksOfAll(filePath, language, lines, node.children[..|node.children|])
    ensures result == chunks + ChunksOf(filePath, language, lines, node)
  {
    assert node.children[..|node.children|] == node.children;
  }

  /**
   * `extractFunctions`: pushes the node's chunk (if it is a function), then
   * visits each child in turn, as the cursor's first-child / next-sibling loop does.
   */
  method ExtractFunctions(filePath: string, language: Language, lines: seq<string>, node: SyntaxNode, chunks: seq<CodeChunk>)
    returns (result: seq<CodeChunk>)
    ensures result == chunks + ChunksOf(filePath, language, lines, node)
    decreases node
  {
    result := AppendNodeChunk(filePath, language, lines, node, chunks);
    ghost var own := OptionToSeq(NodeChunk(filePath, language, lines, node));
    ghost var prefix := chunks + own;
    var i := 0;
    assert ChunksOfAll(filePath, language, lines, node.children[..0]) == [];
    while i < |node.children|
      invariant 0 <= i <= |node.children|
      invariant result == prefix + ChunksOfAll(filePath, language, lines, node.children[..i])
    {
      result := ExtractFunctions(filePath, language, lines, node.children[i], result);
      ExtractStep(filePath, language, lines, node.children, i, prefix, result);
      i := i + 1;
    }
    ExtractDone(filePath, language, lines, node, chunks, result);
  }

  /**
   * `chunkFile`: the function chunks of the parsed tree, or the whole file as
   * one chunk when there are none or the parse failed.
   */
  method ChunkFile(f: SourceFile) returns (chunks: seq<CodeChunk>)
    ensures chunks == FileChunks(f)
  {
    if f.tree.None? {
      return [CodeChunk(f.path, None, f.content, f.language, 1, |Split(f.content, '\n')|)];
    }
    var lines := Split(f.content, '\n');
    chunks := ExtractFunctions(f.path, f.language, lines, f.tree.value, []);
    if |chunks| == 0 {
      chunks := chunks + [CodeChunk(f.path, None, f.content, f.language, 1, |lines|)];
    }
  }

  /** `chunkFiles`: appends each file's chunks in input order. */
  method ChunkFiles(files: seq<SourceFile>) returns (allChunks: seq<CodeChunk>)
    ensures allChunks == AllChunks(files)
  {
    allChunks := [];
    for i := 0 to |files|
      invariant allChunks == AllChunks(files[..i])
    {
      assert files[..i + 1][..i] == files[..i];
      var chunks := ChunkFile(files[i]);
      allChunks := allChunks + chunks;
    }
    assert files[..|files|] == files;
  }

  // ---------------------------------------------------------------------
  // Properties
  // ---------------------------------------------------------------------

  /** The chunks contributed by a list of nodes, each on its own. */
  ghost function ChunksOfNodes(filePath: string, language: Language, lines: seq<string>, ns: seq<SyntaxNode>): seq<CodeChunk> {
    if |ns| == 0 then [] else OptionToSeq(NodeChunk(filePath, language, lines, ns[0])) + ChunksOfNodes(filePath, language, lines, ns[1..])
  }

  lemma {:induction false} ChunksOfNodesAppend(filePath: string, language: Language, lines: seq<string>, a: seq<SyntaxNode>, b: seq<SyntaxNode>)
    ensures ChunksOfNodes(filePath, language, lines, a + b)
      == ChunksOfNodes(filePath, language, lines, a) + ChunksOfNodes(filePath, language, lines, b)
  {
    if |a| == 0 {
      assert a + b == b;
    } else {
      assert (a + b)[1..] == a[1..] + b;
      ChunksOfNodesAppend(filePath, language, lines, a[1..], b);
    }
  }

  /**
   * The chunker's walk yields exactly one chunk per function-like node, in
   * pre-order: an enclosing function's chunk comes before those of the
   * functions nested in it.
   */
  lemma {:induction false} ChunksArePreOrder(filePath: string, language: Language, lines: seq<string>, n: SyntaxNode)
    ensures ChunksOf(filePath, language, lines, n) == ChunksOfNodes(filePath, language, lines, PreOrder(n))
    decreases n
  {
    ChunksAllArePreOrder(filePath, language, lines, n.children);
    ChunksOfNodesAppend(filePath, language, lines, [n], PreOrderAll(n.children));
    assert [n][1..] == [];
  }

  lemma {:induction false} ChunksAllArePreOrder(filePath: string, language: Language, lines: seq<string>, ns: seq<SyntaxNode>)
    ensures ChunksOfAll(filePath, language, lines, ns) == ChunksOfNodes(filePath, language, lines, PreOrderAll(ns))
    decreases ns
  {
    if |ns| > 0 {
      ChunksArePreOrder(filePath, language, lines, ns[0]);
      ChunksAllArePreOrder(filePath, language, lines, ns[1..]);
      ChunksOfNodesAppend(filePath, language, lines, PreOrder(ns[0]), PreOrderAll(ns[1..]));
    }
  }

  /**
   * A function nested directly in another yields its own chunk, after the
   * enclosing function's chunk.
   */
  lemma NestedFunctionAfterOuter(filePath: string, language: Language, lines: seq<string>, n: SyntaxNode, k: nat)
    requires n.kind in FunctionKinds
    requires k < |n.children| && n.children[k].kind in FunctionKinds
    ensures var cs := ChunksOf(filePath, language, lines, n);
      && cs[0] == NodeChunk(filePath, language, lines, n).value
      && NodeChunk(filePath, language, lines, n.children[k]).value in cs[1..]
  {
    var c := n.children[k];
    var rest := ChunksOfAll(filePath, language, lines, n.children);
    ChunksOfAllSnoc(filePath, language, lines, n.children, k);
    assert n.children[..k + 1] + n.children[k + 1..] == n.children;
    ChunksOfAllAppend(filePath, language, lines, n.children[..k + 1], n.children[k + 1..]);
    assert ChunksOf(filePath, language, lines, c)[0] == NodeChunk(filePath, language, lines, c).value;
    assert ChunksOf(filePath, language, lines, n)[1..] == rest;
  }

  /**
   * A function chunk whose rows lie inside the file holds exactly the source
   * lines of those rows: splitting its snippet at newlines gives back lines
   * `startRow..endRow`.
   */
  lemma SnippetIsSourceLines(content: string, startRow: nat, endRow: nat)
    requires startRow <= endRow < |Split(content, '\n')|
    ensures var lines := Split(content, '\n');
      Split(Snippet(lines, startRow, endRow), '\n') == lines[startRow..endRow + 1]
  {
    var lines := Split(content, '\n');
    var piece := lines[startRow..endRow + 1];
    assert forall k | 0 <= k < |piece| :: '\n' !in piece[k] by {
      forall k | 0 <= k < |piece| ensures '\n' !in piece[k] {
        assert piece[k] == lines[startRow + k];
      }
    }
    SplitJoin(piece, '\n');
  }

  /** `chunkFile` never returns an empty list, and every chunk carries the file's path and language. */
  lemma FileChunksNeverEmpty(f: SourceFile)
    ensures |FileChunks(f)| >= 1
    ensures forall c | c in FileChunks(f) :: c.filePath == f.path && c.language == f.language
  {
    if f.tree.Some? {
      var lines := Split(f.content, '\n');
      ChunksArePreOrder(f.path, f.language, lines, f.tree.value);
      ChunksOfNodesFields(f.path, f.language, lines, PreOrder(f.tree.value));
    }
  }

  lemma {:induction false} ChunksOfNodesFields(filePath: string, language: Language, lines: seq<string>, ns: seq<SyntaxNode>)
    ensures forall c | c in ChunksOfNodes(filePath, language, lines, ns) :: c.filePath == filePath && c.language == language
  {
    if |ns| > 0 {
      ChunksOfNodesFields(filePath, language, lines, ns[1..]);
    }
  }

  /**
   * The fallback chunk: exactly one chunk, with the whole content, no name,
   * starting at line 1 and ending at the file's line count; it is returned
   * both when the walk finds no function and when parsing fails.
   */
  lemma FallbackIsWholeFile(f: SourceFile)
    requires f.tree.None? || ChunksOf(f.path, f.language, Split(f.content, '\n'), f.tree.value) == []
    ensures FileChunks(f) == [CodeChunk(f.path, None, f.content, f.language, 1, |Split(f.content, '\n')|)]
    ensures Join(Split(f.content, '\n'), "\n") == f.content
  {
    SplitThenJoin(f.content, '\n');
  }

  lemma {:induction false} AllChunksLength(files: seq<SourceFile>)
    ensures |AllChunks(files)| >= |files|
    decreases |files|
  {
    if |files| > 0 {
      AllChunksLength(files[..|files| - 1]);
      FileChunksNeverEmpty(files[|files| - 1]);
    }
  }

  lemma AllChunksSnoc(files: seq<SourceFile>, i: nat)
    requires i < |files|
    ensures AllChunks(files[..i]) + FileChunks(files[i]) == AllChunks(files[..i + 1])
  {
    assert files[..i + 1][..i] == files[..i];
    assert files[..i + 1][i] == files[i];
  }

  lemma {:induction false} AllChunksPrefix(files: seq<SourceFile>, i: nat)
    requires i <= |files|
    ensures AllChunks(files[..i]) <= AllChunks(files)
    decreases |files| - i
  {
    if i == |files| {
      assert files[..i] == files;
    } else {
      AllChunksSnoc(files, i);
      AllChunksPrefix(files, i + 1);
      PrefixOfExtended(AllChunks(files[..i]), FileChunks(files[i]), AllChunks(files));
    }
  }

  lemma PrefixOfExtended<T>(a: seq<T>, x: seq<T>, c: seq<T>)
    requires a + x <= c
    ensures a <= c
  {
    assert c[..|a|] == (a + x)[..|a|];
  }

  /** Each file contributes at least one chunk, and its chunks keep their order and position. */
  lemma AllChunksConcatenate(files: seq<SourceFile>, i: nat)
    requires i < |files|
    ensures |AllChunks(files)| >= |files|
    ensures AllChunks(files[..i]) + FileChunks(files[i]) == AllChunks(files[..i + 1])
    ensures AllChunks(files[..i + 1]) <= AllChunks(files)
  {
    AllChunksLength(files);
    AllChunksSnoc(files, i);
    AllChunksPrefix(files, i + 1);
  }
}
