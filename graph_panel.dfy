/**
 * The analysis the graph panel runs over a dependency graph before drawing
 * it: the nodes that take part in an edge, each node's importance (the number
 * of imports of it), its role and colour, its width, the roots of the layered
 * view, the breadth-first levels, the nodes visible in focus mode, the search
 * matches and the edges drawn.
 */
module GraphPanel {
  import opened Wrappers
  import opened Strings
  import opened ParseService
  import opened GraphService

  // ---------------------------------------------------------------------
  // Connected nodes
  // ---------------------------------------------------------------------

  /** Some edge starts or ends at `id`. */
  predicate Touches(edges: seq<FileEdge>, id: string) {
    exists k | 0 <= k < |edges| :: edges[k].source == id || edges[k].target == id
  }

  /** The ids of every edge endpoint, collected edge by edge. */
  method ConnectedNodeIds(edges: seq<FileEdge>) returns (ids: set<string>)
    ensures forall id :: id in ids <==> Touches(edges, id)
  {
    ids := {};
    for i := 0 to |edges|
      invariant forall id :: id in ids <==> exists k | 0 <= k < i :: edges[k].source == id || edges[k].target == id
    {
      ids := ids + {edges[i].source, edges[i].target};
    }
  }

  /** The nodes that take part in some edge, in node order. */
  function ConnectedNodes(nodes: seq<FileNode>, edges: seq<FileEdge>): (r: seq<FileNode>)
    ensures |r| <= |nodes|
    ensures forall n :: n in r <==> n in nodes && Touches(edges, n.id)
  {
    if |nodes| == 0 then []
    else (if Touches(edges, nodes[0].id) then [nodes[0]] else []) + ConnectedNodes(nodes[1..], edges)
  }

  /** The filter works piecewise, so the connected nodes keep their relative order. */
  lemma {:induction false} ConnectedNodesAppend(a: seq<FileNode>, b: seq<FileNode>, edges: seq<FileEdge>)
    ensures ConnectedNodes(a + b, edges) == ConnectedNodes(a, edges) + ConnectedNodes(b, edges)
    decreases |a|
  {
    if |a| == 0 {
      assert a + b == b;
    } else {
      assert (a + b)[1..] == a[1..] + b;
      ConnectedNodesAppend(a[1..], b, edges);
    }
  }

  // ---------------------------------------------------------------------
  // Importance
  // ---------------------------------------------------------------------

  /** The number of edges that end at `id`. */
  function InDegree(edges: seq<FileEdge>, id: string): nat {
    if |edges| == 0 then 0
    else InDegree(edges[..|edges| - 1], id) + (if edges[|edges| - 1].target == id then 1 else 0)
  }

  /** A node is imported at least once exactly when some edge ends at it, and at most once per edge. */
  lemma {:induction false} InDegreePositive(edges: seq<FileEdge>, id: string)
    ensures InDegree(edges, id) <= |edges|
    ensures InDegree(edges, id) > 0 <==> exists k | 0 <= k < |edges| :: edges[k].target == id
  {
    if |edges| > 0 {
      var init := edges[..|edges| - 1];
      InDegreePositive(init, id);
      if exists k | 0 <= k < |init| :: init[k].target == id {
        var k :| 0 <= k < |init| && init[k].target == id;
        assert edges[k].target == id;
      }
      if exists k | 0 <= k < |edges| :: edges[k].target == id {
        var k :| 0 <= k < |edges| && edges[k].target == id;
        if k < |init| {
          assert init[k].target == id;
        }
      }
    }
  }

  /** `importanceMap.get(id) || 0`. */
  function ImportanceOf(importance: map<string, nat>, id: string): nat {
    if id in importance then importance[id] else 0
  }

  /** The importance map, filled edge by edge: every edge adds one to its target. */
  method ComputeImportance(edges: seq<FileEdge>) returns (importance: map<string, nat>)
    ensures forall id :: id in importance <==> exists k | 0 <= k < |edges| :: edges[k].target == id
    ensures forall id :: ImportanceOf(importance, id) == InDegree(edges, id)
  {
    importance := map[];
    for i := 0 to |edges|
      invariant forall id :: id in importance <==> exists k | 0 <= k < i :: edges[k].target == id
      invariant forall id | id in importance :: importance[id] == InDegree(edges[..i], id)
    {
      assert edges[..i + 1][..i] == edges[..i];
      var t := edges[i].target;
      InDegreePositive(edges[..i], t);
      importance := importance[t := ImportanceOf(importance, t) + 1];
    }
    assert edges[..|edges|] == edges;
    forall id
      ensures ImportanceOf(importance, id) == InDegree(edges, id)
    {
      InDegreePositive(edges, id);
    }
  }

  /** `Math.max(...importanceMap.values(), 0)` over the targets of `ts`. */
  function MaxInDegree(edges: seq<FileEdge>, ts: seq<FileEdge>): (m: nat)
    ensures forall k | 0 <= k < |ts| :: InDegree(edges, ts[k].target) <= m
    ensures |ts| > 0 ==> exists k | 0 <= k < |ts| :: m == InDegree(edges, ts[k].target)
    ensures |ts| == 0 ==> m == 0
  {
    if |ts| == 0 then 0
    else
      var rest := MaxInDegree(edges, ts[1..]);
      var here := InDegree(edges, ts[0].target);
      if here >= rest then here else rest
  }

  /** The largest importance of any node, or 0. */
  function MaxImportance(edges: seq<FileEdge>): nat {
    MaxInDegree(edges, edges)
  }

  // ---------------------------------------------------------------------
  // Role, colour and size
  // ---------------------------------------------------------------------

  datatype Role = Entry | Route | Middleware | Utility | Default

  /** The lowercased paths `^(index|server|main|app)\.(js|ts)$` accepts. */
  const EntryFiles: set<string> :=
    {"index.js", "index.ts", "server.js", "server.ts", "main.js", "main.ts", "app.js", "app.ts"}

  /**
   * `getNodeRole`: on the lowercased path, an entry file name first, then
   * `route`/`controller`, then `middleware`, then `util`/`helper`.
   */
  function GetNodeRole(path: string): (r: Role)
    ensures var lower := ToLower(path);
      && (r == Entry <==> lower in EntryFiles)
      && (r == Route <==> lower !in EntryFiles && (Contains(lower, "route") || Contains(lower, "controller")))
      && (r == Middleware <==>
            lower !in EntryFiles && !Contains(lower, "route") && !Contains(lower, "controller")
            && Contains(lower, "middleware"))
      && (r == Utility <==>
            lower !in EntryFiles && !Contains(lower, "route") && !Contains(lower, "controller")
            && !Contains(lower, "middleware") && (Contains(lower, "util") || Contains(lower, "helper")))
  {
    var lower := ToLower(path);
    if lower in EntryFiles then Entry
    else if Contains(lower, "route") || Contains(lower, "controller") then Route
    else if Contains(lower, "middleware") then Middleware
    else if Contains(lower, "util") || Contains(lower, "helper") then Utility
    else Default
  }

  lemma ToLowerIdempotent(s: string)
    ensures ToLower(ToLower(s)) == ToLower(s)
  {
  }

  /** The role ignores letter case. */
  lemma RoleIgnoresCase(path: string)
    ensures GetNodeRole(ToLower(path)) == GetNodeRole(path)
  {
    ToLowerIdempotent(path);
  }

  /**
   * The entry test is anchored at both ends of the whole path, so only a file
   * at the top of the repository can be an entry: `src/index.ts` is not.
   */
  lemma EntryIsTopLevel(path: string)
    requires GetNodeRole(path) == Entry
    ensures '/' !in path
  {
    var lower := ToLower(path);
    EntryFilesHaveNoSlash();
    forall k | 0 <= k < |path|
      ensures path[k] != '/'
    {
      assert lower[k] in lower;
      assert ToLowerChar(path[k]) != '/';
    }
  }

  lemma EntryFilesHaveNoSlash()
    ensures forall e | e in EntryFiles :: '/' !in e
  {
    forall e | e in EntryFiles
      ensures '/' !in e
    {
      forall x | 0 <= x < |e| ensures e[x] != '/' { }
    }
  }

  const EntryColor: string := "#10b981"
  const RouteColor: string := "#a78bfa"
  const MiddlewareColor: string := "#f59e0b"
  const UtilityColor: string := "#06b6d4"
  const TypeScriptColor: string := "#3178c6"
  const JavaScriptColor: string := "#f9dc3e"

  /** `getNodeColor`: a colour per role, and for other files a colour per language. */
  function GetNodeColor(role: Role, language: Language): (c: string)
    ensures role != Default ==> c in {EntryColor, RouteColor, MiddlewareColor, UtilityColor}
    ensures role == Default ==> (c == TypeScriptColor <==> language == TypeScript)
  {
    match role
    case Entry => EntryColor
    case Route => RouteColor
    case Middleware => MiddlewareColor
    case Utility => UtilityColor
    case Default => if language == TypeScript then TypeScriptColor else JavaScriptColor
  }

  /** The six colours are distinct: a node's colour tells its role, and for other files its language. */
  lemma ColorIdentifiesRole(r1: Role, l1: Language, r2: Role, l2: Language)
    requires GetNodeColor(r1, l1) == GetNodeColor(r2, l2)
    ensures r1 == r2
    ensures r1 == Default ==> l1 == l2
  {
    assert EntryColor[1] == '1' && RouteColor[1] == 'a' && MiddlewareColor[1] == 'f';
    assert UtilityColor[1] == '0' && TypeScriptColor[1] == '3' && JavaScriptColor[1] == 'f';
    assert MiddlewareColor[2] != JavaScriptColor[2];
  }

  const MinWidth: int := 140
  const MaxWidth: int := 300

  function Min(a: int, b: int): int { if a <= b then a else b }
  function Max(a: int, b: int): int { if a >= b then a else b }

  /**
   * `getNodeSize`: eight pixels per character of the file name plus 40, plus
   * ten per import up to 40, kept between 140 and 300.
   */
  function GetNodeSize(filename: string, importance: nat): (w: int)
    ensures MinWidth <= w <= MaxWidth
    ensures MinWidth < w < MaxWidth ==> w == 8 * |filename| + 40 + Min(10 * importance, 40)
  {
    Min(Max(|filename| * 8 + 40 + Min(importance * 10, 40), MinWidth), MaxWidth)
  }

  /** A node never shrinks when it is imported more or its name is longer. */
  lemma SizeMonotone(f: string, g: string, a: nat, b: nat)
    requires |f| <= |g| && a <= b
    ensures GetNodeSize(f, a) <= GetNodeSize(g, b)
  {
  }

  /** Beyond four imports the importance adds nothing more. */
  lemma ImportanceBonusCapped(f: string, a: nat)
    requires a >= 4
    ensures GetNodeSize(f, a) == GetNodeSize(f, 4)
  {
  }

  // ---------------------------------------------------------------------
  // Roots and levels
  // ---------------------------------------------------------------------

  /** `graphData.edges.some(e => e.source === id)`. */
  predicate ImportsOthers(edges: seq<FileEdge>, id: string) {
    exists k | 0 <= k < |edges| :: edges[k].source == id
  }

  /** An entry file, or a file that imports nothing. */
  predicate IsRoot(edges: seq<FileEdge>, n: FileNode) {
    GetNodeRole(n.path) == Entry || !ImportsOthers(edges, n.id)
  }

  function RootCandidates(connected: seq<FileNode>, edges: seq<FileEdge>): (r: seq<FileNode>)
    ensures forall n :: n in r <==> n in connected && IsRoot(edges, n)
  {
    if |connected| == 0 then []
    else (if IsRoot(edges, connected[0]) then [connected[0]] else []) + RootCandidates(connected[1..], edges)
  }

  function MostImported(connected: seq<FileNode>, edges: seq<FileEdge>, atLeast: nat): (r: seq<FileNode>)
    ensures forall n :: n in r <==> n in connected && InDegree(edges, n.id) >= atLeast
  {
    if |connected| == 0 then []
    else (if InDegree(edges, connected[0].id) >= atLeast then [connected[0]] else [])
         + MostImported(connected[1..], edges, atLeast)
  }

  /**
   * The roots of the layered view: the root candidates, or when there is none
   * the first three connected nodes of greatest importance.
   */
  function RootNodes(connected: seq<FileNode>, edges: seq<FileEdge>): (roots: seq<FileNode>)
    ensures forall n | n in roots :: n in connected
    ensures |RootCandidates(connected, edges)| > 0 ==> roots == RootCandidates(connected, edges)
    ensures |RootCandidates(connected, edges)| == 0 ==>
      |roots| <= 3 && forall n | n in roots :: InDegree(edges, n.id) >= MaxImportance(edges)
    ensures |roots| == 0 ==> |connected| == 0 || |MostImported(connected, edges, MaxImportance(edges))| == 0
  {
    var candidates := RootCandidates(connected, edges);
    if |candidates| == 0 && |connected| > 0 then
      var top := MostImported(connected, edges, MaxImportance(edges));
      var roots := if |top| <= 3 then top else top[..3];
      assert forall n | n in roots :: n in top;
      roots
    else candidates
  }

  /**
   * When every edge ends at a node of the graph, a graph with a connected
   * node always has a root: a node of greatest importance is the target of
   * an edge, hence connected.
   */
  lemma RootsNonEmpty(nodes: seq<FileNode>, edges: seq<FileEdge>)
    requires forall k | 0 <= k < |edges| :: exists n | n in nodes :: n.id == edges[k].target
    requires |ConnectedNodes(nodes, edges)| > 0
    ensures |RootNodes(ConnectedNodes(nodes, edges), edges)| > 0
  {
    MostImportedNonEmpty(nodes, edges);
  }

  /** Some connected node has the greatest importance. */
  lemma MostImportedNonEmpty(nodes: seq<FileNode>, edges: seq<FileEdge>)
    requires forall k | 0 <= k < |edges| :: exists n | n in nodes :: n.id == edges[k].target
    requires |ConnectedNodes(nodes, edges)| > 0
    ensures |MostImported(ConnectedNodes(nodes, edges), edges, MaxImportance(edges))| > 0
  {
    var connected := ConnectedNodes(nodes, edges);
    assert connected[0] in connected;
    assert Touches(edges, connected[0].id);
    assert |edges| > 0;
    var k :| 0 <= k < |edges| && MaxImportance(edges) == InDegree(edges, edges[k].target);
    var n :| n in nodes && n.id == edges[k].target;
    assert Touches(edges, n.id);
    assert n in connected;
    assert n in MostImported(connected, edges, MaxImportance(edges));
  }

  /** A queue entry of the breadth-first walk. */
  datatype Visit = Visit(nodeId: string, level: nat)

  /** The ids waiting in the queue. */
  ghost function Ids(queue: seq<Visit>): set<string> {
    set v | v in queue :: v.nodeId
  }

  /** Every queued visit carries the level its node was given. */
  ghost predicate Recorded(queue: seq<Visit>, levels: map<string, nat>) {
    forall v | v in queue :: v.nodeId in levels && levels[v.nodeId] == v.level
  }

  /** Taking the head off the queue takes its id out, unless it is queued again later. */
  lemma IdsCons(queue: seq<Visit>)
    requires |queue| > 0
    ensures Ids(queue) == {queue[0].nodeId} + Ids(queue[1..])
  {
    assert queue == [queue[0]] + queue[1..];
  }

  /** The targets of all edges. */
  ghost function Targets(edges: seq<FileEdge>): set<string> {
    set k | 0 <= k < |edges| :: edges[k].target
  }

  /** Every id given a level is a root at level 0 or one level below a parent it is imported by. */
  ghost predicate Justified(roots: seq<string>, edges: seq<FileEdge>, levels: map<string, nat>) {
    && (forall r | r in roots :: r in levels && levels[r] == 0)
    && (forall id | id in levels ::
          id in roots
          || exists k | 0 <= k < |edges| ::
               edges[k].target == id && edges[k].source in levels && levels[id] == levels[edges[k].source] + 1)
  }

  /** Levels added below a node with a level, leaving the others alone, keep every level justified. */
  lemma JustifiedExtend(roots: seq<string>, edges: seq<FileEdge>, before: map<string, nat>, after: map<string, nat>,
                        parent: string)
    requires Justified(roots, edges, before)
    requires before.Keys <= after.Keys && forall id | id in before :: after[id] == before[id]
    requires parent in before
    requires forall id | id in after && id !in before ::
      exists k | 0 <= k < |edges| :: edges[k].source == parent && edges[k].target == id && after[id] == before[parent] + 1
    ensures Justified(roots, edges, after)
  {
    forall id | id in after && id !in roots
      ensures exists k | 0 <= k < |edges| ::
        edges[k].target == id && edges[k].source in after && after[id] == after[edges[k].source] + 1
    {
      if id in before {
        var k :| 0 <= k < |edges| &&
          edges[k].target == id && edges[k].source in before && before[id] == before[edges[k].source] + 1;
        assert edges[k].source in after && after[id] == after[edges[k].source] + 1;
      } else {
        var k :| 0 <= k < |edges| && edges[k].source == parent && edges[k].target == id && after[id] == before[parent] + 1;
        assert edges[k].source in after && after[id] == after[edges[k].source] + 1;
      }
    }
  }

  lemma StrictSubsetSmaller(a: set<string>, b: set<string>)
    requires a < b
    ensures |a| < |b|
  {
    var x :| x in b && x !in a;
    assert a <= b - {x};
    SubsetNotLarger(a, b - {x});
  }

  lemma {:induction false} SubsetNotLarger(a: set<string>, b: set<string>)
    requires a <= b
    ensures |a| <= |b|
    decreases |a|
  {
    if a != {} {
      var x :| x in a;
      SubsetNotLarger(a - {x}, b - {x});
    }
  }

  /**
   * One expansion of the walk: every edge out of the visited node, in edge
   * order, gives its target the next level and queues it, unless the target
   * already has a level.
   */
  method Expand(edges: seq<FileEdge>, visit: Visit, levels: map<string, nat>, queue: seq<Visit>)
    returns (levels': map<string, nat>, queue': seq<Visit>)
    requires visit.nodeId in levels && levels[visit.nodeId] == visit.level
    requires Recorded(queue, levels)
    ensures levels.Keys <= levels'.Keys && forall id | id in levels :: levels'[id] == levels[id]
    ensures forall id | id in levels' && id !in levels ::
      exists k | 0 <= k < |edges| :: edges[k].source == visit.nodeId && edges[k].target == id && levels'[id] == visit.level + 1
    ensures forall k | 0 <= k < |edges| && edges[k].source == visit.nodeId :: edges[k].target in levels'
    ensures Recorded(queue', levels')
    ensures Ids(queue) <= Ids(queue') && levels'.Keys <= levels.Keys + Ids(queue')
    ensures levels'.Keys <= levels.Keys + Targets(edges)
    ensures levels'.Keys == levels.Keys ==> queue' == queue
  {
    levels', queue' := levels, queue;
    for j := 0 to |edges|
      invariant levels.Keys <= levels'.Keys && forall id | id in levels :: levels'[id] == levels[id]
      invariant forall id | id in levels' && id !in levels ::
        exists k | 0 <= k < j :: edges[k].source == visit.nodeId && edges[k].target == id && levels'[id] == visit.level + 1
      invariant forall k | 0 <= k < j && edges[k].source == visit.nodeId :: edges[k].target in levels'
      invariant Recorded(queue', levels')
      invariant Ids(queue) <= Ids(queue') && levels'.Keys <= levels.Keys + Ids(queue')
      invariant levels'.Keys <= levels.Keys + Targets(edges)
      invariant levels'.Keys == levels.Keys ==> queue' == queue
    {
      if edges[j].source == visit.nodeId && edges[j].target !in levels' {
        var child := edges[j].target;
        var v := Visit(child, visit.level + 1);
        assert v in queue' + [v];
        assert forall w | w in queue' :: w in queue' + [v];
        levels' := levels'[child := visit.level + 1];
        queue' := queue' + [v];
      }
    }
  }

  /** Every root goes on level 0 and into the queue, in root order. */
  method Seed(roots: seq<string>) returns (levels: map<string, nat>, queue: seq<Visit>)
    ensures forall id :: id in levels <==> id in roots
    ensures forall id | id in levels :: levels[id] == 0
    ensures Recorded(queue, levels)
    ensures levels.Keys <= Ids(queue)
  {
    levels := map[];
    queue := [];
    for i := 0 to |roots|
      invariant |queue| == i
      invariant forall q | 0 <= q < i :: queue[q] == Visit(roots[q], 0)
      invariant forall id :: id in levels <==> id in roots[..i]
      invariant forall id | id in levels :: levels[id] == 0
    {
      queue := queue + [Visit(roots[i], 0)];
      levels := levels[roots[i] := 0];
    }
    assert roots[..|roots|] == roots;
    forall id | id in levels
      ensures id in Ids(queue)
    {
      var q :| 0 <= q < |roots| && roots[q] == id;
      assert queue[q] in queue;
    }
  }

  /** What holds between two turns of the walk. */
  ghost predicate WalkInvariant(roots: seq<string>, edges: seq<FileEdge>, universe: set<string>,
                                levels: map<string, nat>, queue: seq<Visit>, processed: set<string>) {
    && levels.Keys <= universe
    && Justified(roots, edges, levels)
    && Recorded(queue, levels)
    && processed <= levels.Keys
    && (forall k | 0 <= k < |edges| :: edges[k].source in processed ==> edges[k].target in levels)
    && levels.Keys <= processed + Ids(queue)
  }

  /**
   * One turn of the walk: the head of the queue is taken off and, unless it
   * was expanded before, expanded.
   */
  method Turn(roots: seq<string>, edges: seq<FileEdge>, ghost universe: set<string>,
              levels: map<string, nat>, queue: seq<Visit>, processed: set<string>)
    returns (levels': map<string, nat>, queue': seq<Visit>, processed': set<string>)
    requires |queue| > 0 && Targets(edges) <= universe
    requires WalkInvariant(roots, edges, universe, levels, queue, processed)
    ensures WalkInvariant(roots, edges, universe, levels', queue', processed')
    ensures || |universe - levels'.Keys| < |universe - levels.Keys|
            || (levels'.Keys == levels.Keys && |queue'| < |queue|)
  {
    var visit := queue[0];
    IdsCons(queue);
    levels', queue', processed' := levels, queue[1..], processed;
    if visit.nodeId !in processed {
      processed' := processed + {visit.nodeId};
      levels', queue' := Expand(edges, visit, levels, queue[1..]);
      JustifiedExtend(roots, edges, levels, levels', visit.nodeId);
      if levels'.Keys != levels.Keys {
        StrictSubsetSmaller(universe - levels'.Keys, universe - levels.Keys);
      }
    }
  }

  /**
   * The breadth-first level assignment: the roots start at level 0; a node
   * taken from the queue is expanded once, and each child without a level
   * gets its parent's level plus one and joins the queue. When the queue is
   * empty every node imported by a node with a level has a level itself.
   */
  method BfsLevels(roots: seq<string>, edges: seq<FileEdge>) returns (levels: map<string, nat>)
    ensures Justified(roots, edges, levels)
    ensures forall k | 0 <= k < |edges| :: edges[k].source in levels ==> edges[k].target in levels
  {
    ghost var universe := (set r | r in roots) + Targets(edges);
    var queue;
    levels, queue := Seed(roots);
    var processed: set<string> := {};
    while |queue| > 0
      invariant WalkInvariant(roots, edges, universe, levels, queue, processed)
      decreases |universe - levels.Keys|, |queue|
    {
      levels, queue, processed := Turn(roots, edges, universe, levels, queue, processed);
    }
    assert Ids(queue) == {};
  }

  /** Every connected node without a level is put on level 0. */
  method DefaultLevels(levels: map<string, nat>, connected: seq<FileNode>) returns (all: map<string, nat>)
    ensures forall id :: id in all <==> id in levels || exists i | 0 <= i < |connected| :: connected[i].id == id
    ensures forall id | id in all :: all[id] == if id in levels then levels[id] else 0
  {
    all := levels;
    for i := 0 to |connected|
      invariant forall id :: id in all <==> id in levels || exists j | 0 <= j < i :: connected[j].id == id
      invariant forall id | id in all :: all[id] == if id in levels then levels[id] else 0
    {
      if connected[i].id !in all {
        all := all[connected[i].id := 0];
      }
    }
  }

  /**
   * The levels the panel ends with: the walk from the root nodes, then level
   * 0 for every connected node the walk did not reach.
   */
  method AssignLevels(roots: seq<FileNode>, connected: seq<FileNode>, edges: seq<FileEdge>)
    returns (levels: map<string, nat>)
    ensures forall i | 0 <= i < |roots| :: roots[i].id in levels && levels[roots[i].id] == 0
    ensures forall i | 0 <= i < |connected| :: connected[i].id in levels
    ensures forall id | id in levels && levels[id] > 0 ::
      exists k | 0 <= k < |edges| ::
        edges[k].target == id && edges[k].source in levels && levels[id] == levels[edges[k].source] + 1
  {
    var rootIds := seq(|roots|, i requires 0 <= i < |roots| => roots[i].id);
    var reached := BfsLevels(rootIds, edges);
    levels := DefaultLevels(reached, connected);
    forall i | 0 <= i < |roots|
      ensures roots[i].id in levels && levels[roots[i].id] == 0
    {
      assert rootIds[i] in rootIds;
    }
    forall id | id in levels && levels[id] > 0
      ensures exists k | 0 <= k < |edges| ::
        edges[k].target == id && edges[k].source in levels && levels[id] == levels[edges[k].source] + 1
    {
      assert id in reached && id !in rootIds;
      var k :| 0 <= k < |edges| &&
        edges[k].target == id && edges[k].source in reached && reached[id] == reached[edges[k].source] + 1;
      assert levels[edges[k].source] == reached[edges[k].source];
    }
  }

  // ---------------------------------------------------------------------
  // Focus, search and drawn edges
  // ---------------------------------------------------------------------

  /** `id` is `focus`, or imports it, or is imported by it. */
  predicate Neighbour(edges: seq<FileEdge>, focus: string, id: string) {
    id == focus
    || exists k | 0 <= k < |edges| ::
         (edges[k].source == focus && edges[k].target == id) || (edges[k].target == focus && edges[k].source == id)
  }

  /**
   * The nodes shown at full strength: every connected node, or in focus mode
   * the focused node and its direct neighbours, which are connected nodes
   * themselves.
   */
  method VisibleNodeIds(connected: seq<FileNode>, edges: seq<FileEdge>, focused: Option<string>)
    returns (visible: set<string>)
    ensures !Given(focused) ==> forall id :: id in visible <==> exists i | 0 <= i < |connected| :: connected[i].id == id
    ensures Given(focused) ==> forall id :: id in visible <==> Neighbour(edges, focused.value, id)
    ensures Given(focused) ==> forall id | id in visible && id != focused.value :: Touches(edges, id)
  {
    if !Given(focused) {
      visible := set i | 0 <= i < |connected| :: connected[i].id;
      return;
    }
    var focus := focused.value;
    visible := {focus};
    for k := 0 to |edges|
      invariant forall id :: id in visible <==> id == focus || exists j | 0 <= j < k :: edges[j].source == focus && edges[j].target == id
    {
      if edges[k].source == focus {
        visible := visible + {edges[k].target};
      }
    }
    for k := 0 to |edges|
      invariant forall id :: id in visible <==>
        || id == focus
        || (exists j | 0 <= j < |edges| :: edges[j].source == focus && edges[j].target == id)
        || (exists j | 0 <= j < k :: edges[j].target == focus && edges[j].source == id)
    {
      if edges[k].target == focus {
        visible := visible + {edges[k].source};
      }
    }
    forall id | id in visible && id != focus
      ensures Touches(edges, id)
    {
      var j :| 0 <= j < |edges| &&
        ((edges[j].source == focus && edges[j].target == id) || (edges[j].target == focus && edges[j].source == id));
    }
  }

  /** The connected nodes whose label contains the search term, ignoring case; none for an empty term. */
  method SearchMatches(connected: seq<FileNode>, term: string) returns (matches: set<string>)
    ensures forall id :: id in matches <==>
      term != "" && exists i | 0 <= i < |connected| ::
        connected[i].id == id && Contains(ToLower(connected[i].labelText), ToLower(term))
  {
    matches := {};
    if term == "" {
      return;
    }
    var needle := ToLower(term);
    for i := 0 to |connected|
      invariant forall id :: id in matches <==>
        exists j | 0 <= j < i :: connected[j].id == id && Contains(ToLower(connected[j].labelText), needle)
    {
      if Contains(ToLower(connected[i].labelText), needle) {
        matches := matches + {connected[i].id};
      }
    }
  }

  /** The edges drawn: those with both endpoints among the connected ids. */
  function RenderedEdges(edges: seq<FileEdge>, connectedIds: set<string>): (r: seq<FileEdge>)
    ensures forall e :: e in r <==> e in edges && e.source in connectedIds && e.target in connectedIds
  {
    if |edges| == 0 then []
    else (if edges[0].source in connectedIds && edges[0].target in connectedIds then [edges[0]] else [])
         + RenderedEdges(edges[1..], connectedIds)
  }

  /**
   * The connected ids are the endpoints of these very edges, so the edge
   * filter keeps every edge.
   */
  lemma {:induction false} RenderedEdgesAreAll(edges: seq<FileEdge>, rest: seq<FileEdge>, connectedIds: set<string>)
    requires forall id :: id in connectedIds <==> Touches(edges, id)
    requires forall e | e in rest :: e in edges
    ensures RenderedEdges(rest, connectedIds) == rest
    decreases |rest|
  {
    if |rest| > 0 {
      assert rest[0] in rest;
      var k :| 0 <= k < |edges| && edges[k] == rest[0];
      assert Touches(edges, rest[0].source) && Touches(edges, rest[0].target);
      assert forall e | e in rest[1..] :: e in rest;
      RenderedEdgesAreAll(edges, rest[1..], connectedIds);
    }
  }
}
