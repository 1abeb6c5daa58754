/**
 * The import extractor of the backend parse service: extension-based
 * language detection and a pre-order walk over a syntax tree that recognises
 * ES `import` declarations (section 16.2.2 of ECMA-262), CommonJS
 * `require('…')` calls and dynamic `import('…')` calls (section 13.3.10 of
 * ECMA-262). The grammar-aware parser is not modelled: its output, the
 * syntax tree, is an input of the model.
 */
module ParseService {
  import opened Wrappers
  import opened Strings

  datatype Language = JavaScript | TypeScript

  /**
   * A syntax-tree node as the parser reports it: its grammar type, its source
   * text, the rows it starts and ends on (0-based), its named fields and its
   * children in source order.
   */
  datatype SyntaxNode = SyntaxNode(
    kind: string,
    text: string,
    startRow: nat,
    endRow: nat,
    fields: seq<Field>,
    children: seq<SyntaxNode>)

  /** A named field of a node (`childForFieldName`). */
  datatype Field = Field(name: string, node: SyntaxNode)

  datatype ImportKind = Import | Require | Dynamic

  /** One raw import found in a file: the path as written, its 1-based line and its form. */
  datatype ImportStatement = ImportStatement(importedPath: string, line: nat, kind: ImportKind)

  /** The file name has one of the four JavaScript/TypeScript extensions. */
  predicate HasSourceExtension(filePath: string) {
    EndsWith(filePath, ".js") || EndsWith(filePath, ".jsx")
    || EndsWith(filePath, ".ts") || EndsWith(filePath, ".tsx")
  }

  /**
   * `getLanguage`: JavaScript for `.js`/`.jsx`, TypeScript for `.ts`/`.tsx`,
   * nothing otherwise. The four extensions exclude each other, so the order of
   * the two tests does not matter.
   */
  function GetLanguage(filePath: string): (r: Option<Language>)
    ensures r.Some? <==> HasSourceExtension(filePath)
    ensures r == Some(TypeScript) <==> EndsWith(filePath, ".ts") || EndsWith(filePath, ".tsx")
    ensures r == Some(JavaScript) <==> EndsWith(filePath, ".js") || EndsWith(filePath, ".jsx")
  {
    if EndsWith(filePath, ".js") || EndsWith(filePath, ".jsx") then Some(JavaScript)
    else if EndsWith(filePath, ".ts") || EndsWith(filePath, ".tsx") then Some(TypeScript)
    else None
  }

  /** `shouldParse`: the file is one the extractor handles. */
  predicate ShouldParse(filePath: string) {
    GetLanguage(filePath) != None
  }

  lemma ShouldParseIffSourceExtension(filePath: string)
    ensures ShouldParse(filePath) <==> HasSourceExtension(filePath)
  {
  }

  /** `childForFieldName`: the node of the first field of that name, if any. */
  function ChildForFieldName(n: SyntaxNode, name: string): Option<SyntaxNode> {
    FirstField(n.fields, name)
  }

  function FirstField(fs: seq<Field>, name: string): Option<SyntaxNode> {
    if |fs| == 0 then None
    else if fs[0].name == name then Some(fs[0].node)
    else FirstField(fs[1..], name)
  }

  /** The source text with every single and double quote removed. */
  function StripQuotes(text: string): (r: string)
    ensures '\'' !in r && '"' !in r
  {
    RemoveChars(text, {'\'', '"'})
  }

  /** The ES import a node denotes: an `import_statement` with a `source` field. */
  function EsImport(n: SyntaxNode): (r: Option<ImportStatement>)
    ensures r.Some? <==> n.kind == "import_statement" && ChildForFieldName(n, "source").Some?
    ensures r.Some? ==> r.value.kind == Import && r.value.line == n.startRow + 1
    ensures r.Some? ==> r.value.importedPath == StripQuotes(ChildForFieldName(n, "source").value.text)
  {
    if n.kind == "import_statement" then
      match ChildForFieldName(n, "source")
      case Some(src) => Some(ImportStatement(StripQuotes(src.text), n.startRow + 1, Import))
      case None => None
    else None
  }

  /**
   * The string literal a `call_expression` passes to the function whose text is
   * `callee`: child 1 of the `arguments` node (child 0 is the parenthesis),
   * provided it has type `string`.
   */
  function CallArgument(n: SyntaxNode, callee: string): (r: Option<string>)
    ensures r.Some? ==> n.kind == "call_expression"
    ensures r.Some? ==> ChildForFieldName(n, "function").Some?
                        && ChildForFieldName(n, "function").value.text == callee
    ensures r.Some? <==>
      && n.kind == "call_expression"
      && ChildForFieldName(n, "function").Some?
      && ChildForFieldName(n, "function").value.text == callee
      && ChildForFieldName(n, "arguments").Some?
      && |ChildForFieldName(n, "arguments").value.children| > 1
      && ChildForFieldName(n, "arguments").value.children[1].kind == "string"
  {
    if n.kind != "call_expression" then None
    else
      match ChildForFieldName(n, "function")
      case None => None
      case Some(fn) =>
        if fn.text != callee then None
        else
          match ChildForFieldName(n, "arguments")
          case None => None
          case Some(args) =>
            if |args.children| > 0 && |args.children| > 1 && args.children[1].kind == "string"
            then Some(StripQuotes(args.children[1].text))
            else None
  }

  function RequireImport(n: SyntaxNode): Option<ImportStatement> {
    match CallArgument(n, "require")
    case Some(p) => Some(ImportStatement(p, n.startRow + 1, Require))
    case None => None
  }

  function DynamicImport(n: SyntaxNode): Option<ImportStatement> {
    match CallArgument(n, "import")
    case Some(p) => Some(ImportStatement(p, n.startRow + 1, Dynamic))
    case None => None
  }

  function OptionToSeq<T>(o: Option<T>): seq<T> {
    match o
    case Some(x) => [x]
    case None => []
  }

  /** The entries a single node contributes, in the order of the three checks. */
  function NodeImports(n: SyntaxNode): seq<ImportStatement> {
    OptionToSeq(EsImport(n)) + OptionToSeq(RequireImport(n)) + OptionToSeq(DynamicImport(n))
  }

  /**
   * A node contributes at most one entry: the three recognised shapes exclude
   * each other, and each entry carries the node's 1-based start line.
   */
  lemma NodeImportsAtMostOne(n: SyntaxNode)
    ensures |NodeImports(n)| <= 1
    ensures forall x | x in NodeImports(n) :: x.line == n.startRow + 1
    ensures forall x | x in NodeImports(n) :: '\'' !in x.importedPath && '"' !in x.importedPath
  {
    if RequireImport(n).Some? {
      assert ChildForFieldName(n, "function").value.text == "require";
      assert CallArgument(n, "import").None?;
      assert n.kind != "import_statement";
    } else if DynamicImport(n).Some? {
      assert n.kind != "import_statement";
    }
  }

  /** A call whose first argument is not a string literal contributes nothing. */
  lemma NonLiteralCallContributesNothing(n: SyntaxNode)
    requires n.kind == "call_expression"
    requires ChildForFieldName(n, "arguments").Some?
    requires var args := ChildForFieldName(n, "arguments").value;
             |args.children| <= 1 || args.children[1].kind != "string"
    ensures NodeImports(n) == []
  {
  }

  /** The entries of a whole tree, in pre-order: a node before its descendants. */
  function ImportsOf(n: SyntaxNode): seq<ImportStatement>
    decreases n
  {
    NodeImports(n) + ImportsOfAll(n.children)
  }

  function ImportsOfAll(ns: seq<SyntaxNode>): seq<ImportStatement>
    decreases ns
  {
    if |ns| == 0 then [] else ImportsOf(ns[0]) + ImportsOfAll(ns[1..])
  }

  lemma {:induction false} ImportsOfAllAppend(a: seq<SyntaxNode>, b: seq<SyntaxNode>)
    ensures ImportsOfAll(a + b) == ImportsOfAll(a) + ImportsOfAll(b)
    decreases |a|
  {
    if |a| == 0 {
      assert a + b == b;
    } else {
      assert (a + b)[1..] == a[1..] + b;
      ImportsOfAllAppend(a[1..], b);
    }
  }

  lemma ImportsOfAllSnoc(ns: seq<SyntaxNode>, i: nat)
    requires i < |ns|
    ensures ImportsOfAll(ns[..i + 1]) == ImportsOfAll(ns[..i]) + ImportsOf(ns[i])
  {
    assert ns[..i + 1] == ns[..i] + [ns[i]];
    ImportsOfAllAppend(ns[..i], [ns[i]]);
    assert [ns[i]][1..] == [];
  }

  /** One more child visited: its entries extend those of the children before it. */
  lemma VisitStep(children: seq<SyntaxNode>, i: nat, prefix: seq<ImportStatement>, result: seq<ImportStatement>)
    requires i < |children|
    requires result == prefix + ImportsOfAll(children[..i]) + ImportsOf(children[i])
    ensures result == prefix + ImportsOfAll(children[..i + 1])
  {
    ImportsOfAllSnoc(children, i);
  }

  /** The nodes of a tree in pre-order: the node, then each child's subtree left to right. */
  ghost function PreOrder(n: SyntaxNode): seq<SyntaxNode>
    decreases n
  {
    [n] + PreOrderAll(n.children)
  }

  ghost function PreOrderAll(ns: seq<SyntaxNode>): seq<SyntaxNode>
    decreases ns
  {
    if |ns| == 0 then [] else PreOrder(ns[0]) + PreOrderAll(ns[1..])
  }

  /** The entries contributed by a list of nodes, concatenated in list order. */
  ghost function ImportsOfNodes(ns: seq<SyntaxNode>): seq<ImportStatement> {
    if |ns| == 0 then [] else NodeImports(ns[0]) + ImportsOfNodes(ns[1..])
  }

  lemma {:induction false} ImportsOfNodesAppend(a: seq<SyntaxNode>, b: seq<SyntaxNode>)
    ensures ImportsOfNodes(a + b) == ImportsOfNodes(a) + ImportsOfNodes(b)
  {
    if |a| == 0 {
      assert a + b == b;
    } else {
      assert (a + b)[1..] == a[1..] + b;
      ImportsOfNodesAppend(a[1..], b);
    }
  }

  /**
   * The extractor's result is exactly the per-node entries taken in pre-order:
   * every node is visited once, a node's own entry comes before those of its
   * descendants, and siblings are visited left to right.
   */
  lemma {:induction false} ImportsArePreOrder(n: SyntaxNode)
    ensures ImportsOf(n) == ImportsOfNodes(PreOrder(n))
    decreases n
  {
    ImportsAllArePreOrder(n.children);
    ImportsOfNodesAppend([n], PreOrderAll(n.children));
    assert ImportsOfNodes([n]) == NodeImports(n) by {
      assert [n][1..] == [];
    }
  }

  lemma {:induction false} ImportsAllArePreOrder(ns: seq<SyntaxNode>)
    ensures ImportsOfAll(ns) == ImportsOfNodes(PreOrderAll(ns))
    decreases ns
  {
    if |ns| > 0 {
      ImportsArePreOrder(ns[0]);
      ImportsAllArePreOrder(ns[1..]);
      ImportsOfNodesAppend(PreOrder(ns[0]), PreOrderAll(ns[1..]));
    }
  }

  /** Every entry of a tree comes from one of its nodes, with that node's start line. */
  lemma {:induction false} ImportsComeFromNodes(n: SyntaxNode, x: ImportStatement)
    requires x in ImportsOf(n)
    ensures exists m | m in PreOrder(n) :: NodeImports(m) == [x] && x.line == m.startRow + 1
  {
    ImportsArePreOrder(n);
    ImportsOfNodesMember(PreOrder(n), x);
  }

  lemma {:induction false} ImportsOfNodesMember(ns: seq<SyntaxNode>, x: ImportStatement)
    requires x in ImportsOfNodes(ns)
    ensures exists m | m in ns :: NodeImports(m) == [x] && x.line == m.startRow + 1
  {
    NodeImportsAtMostOne(ns[0]);
    if x in NodeImports(ns[0]) {
      assert NodeImports(ns[0]) == [x];
    } else {
      ImportsOfNodesMember(ns[1..], x);
      var m :| m in ns[1..] && NodeImports(m) == [x] && x.line == m.startRow + 1;
      assert m in ns;
    }
  }

  /** The three checks `visitNode` applies to the node under the cursor. */
  method AppendNodeImports(node: SyntaxNode, imports: seq<ImportStatement>) returns (result: seq<ImportStatement>)
    ensures result == imports + NodeImports(node)
  {
    result := imports;
    var es := EsImport(node);
    if es.Some? {
      result := result + [es.value];
    }
    var req := RequireImport(node);
    if req.Some? {
      result := result + [req.value];
    }
    var dyn := DynamicImport(node);
    if dyn.Some? {
      result := result + [dyn.value];
    }
    assert result == imports + (OptionToSeq(es) + OptionToSeq(req) + OptionToSeq(dyn));
  }

  /** Every child visited: the node's own entries followed by those of all its children. */
  lemma VisitDone(node: SyntaxNode, imports: seq<ImportStatement>, prefix: seq<ImportStatement>, result: seq<ImportStatement>)
    requires prefix == imports + NodeImports(node)
    requires result == prefix + ImportsOfAll(node.children)
    ensures result == imports + ImportsOf(node)
  {
  }

  /**
   * The recursive visitor: appends the node's own entry, then visits each
   * child in turn (the cursor's `gotoFirstChild` / `gotoNextSibling` loop).
   */
  method VisitNode(node: SyntaxNode, imports: seq<ImportStatement>) returns (result: seq<ImportStatement>)
    ensures result == imports + ImportsOf(node)
    decreases node
  {
    result := AppendNodeImports(node, imports);
    ghost var own := NodeImports(node);
    ghost var prefix := imports + own;
    var i := 0;
    assert ImportsOfAll(node.children[..0]) == [];
    while i < |node.children|
      invariant 0 <= i <= |node.children|
      invariant result == prefix + ImportsOfAll(node.children[..i])
    {
      result := VisitNode(node.children[i], result);
      VisitStep(node.children, i, prefix, result);
      i := i + 1;
    }
    assert node.children[..i] == node.children;
    VisitDone(node, imports, prefix, result);
  }

  /**
   * `parseImports`: no entries for a file whose language is unknown; otherwise
   * the entries of the parsed tree in pre-order.
   */
  method ParseImports(filePath: string, tree: SyntaxNode) returns (imports: seq<ImportStatement>)
    ensures !ShouldParse(filePath) ==> imports == []
    ensures ShouldParse(filePath) ==> imports == ImportsOf(tree)
  {
    var language := GetLanguage(filePath);
    if language.None? {
      return [];
    }
    imports := VisitNode(tree, []);
  }
}
