/**
 * A simplified model of Node's POSIX `path` functions used by the services:
 * `normalize`, `join`, `resolve`, `dirname` and `basename`. Paths are split on
 * `/`; empty and `.` segments are dropped and `..` cancels the segment before
 * it (or stays, at the front of a relative path).
 */
module Paths {
  import opened Strings

  /** One step of the segment fold that `normalize` performs. */
  function PushSegment(stack: seq<string>, seg: string, absolute: bool): seq<string> {
    if seg == "" || seg == "." then stack
    else if seg == ".." then
      if |stack| > 0 && stack[|stack| - 1] != ".." then stack[..|stack| - 1]
      else if absolute then stack
      else stack + [".."]
    else stack + [seg]
  }

  function FoldSegments(stack: seq<string>, segs: seq<string>, absolute: bool): seq<string>
    decreases |segs|
  {
    if |segs| == 0 then stack
    else FoldSegments(PushSegment(stack, segs[0], absolute), segs[1..], absolute)
  }

  /** `path.normalize(p)`: never the empty string. */
  function Normalize(p: string): (r: string)
    ensures |r| > 0
  {
    if |p| == 0 then "."
    else
      var absolute := p[0] == '/';
      var trailing := p[|p| - 1] == '/';
      var body := Join(FoldSegments([], Split(p, '/'), absolute), "/");
      if absolute then "/" + body + (if trailing && body != "" then "/" else "")
      else if body == "" then (if trailing then "./" else ".")
      else body + (if trailing then "/" else "")
  }

  /** `path.join(a, b)`: empty arguments are skipped, the rest joined by `/` and normalised. */
  function JoinPaths(a: string, b: string): (r: string)
    ensures |r| > 0
  {
    if a == "" && b == "" then "."
    else if a == "" then Normalize(b)
    else if b == "" then Normalize(a)
    else Normalize(a + "/" + b)
  }

  /** `path.resolve(p)` against the working directory `cwd`: absolute, no trailing `/`. */
  function Resolve(cwd: string, p: string): string {
    var n := if StartsWith(p, "/") then Normalize(p) else Normalize("/" + cwd + "/" + p);
    if |n| > 1 && n[|n| - 1] == '/' then n[..|n| - 1] else n
  }

  /** `path.dirname(p)` for a path without a trailing `/`. */
  function Dirname(p: string): string {
    var i := LastIndexOf(p, '/');
    if i < 0 then "." else if i == 0 then "/" else p[..i]
  }

  /** `path.basename(p)` for a path without a trailing `/`: the text after the last `/`. */
  function Basename(p: string): (r: string)
    ensures '/' !in r
    ensures EndsWith(p, r)
  {
    var i := LastIndexOf(p, '/');
    if i < 0 then
      assert p[|p| - |p|..] == p;
      p
    else
      var r := p[i + 1..];
      assert p[|p| - |r|..] == r;
      r
  }

  /** The arguments `path.join` keeps: the non-empty ones, in order. */
  function NonEmpty(parts: seq<string>): (r: seq<string>)
    ensures forall k | 0 <= k < |r| :: r[k] != "" && r[k] in parts
    ensures forall k | 0 <= k < |parts| && parts[k] != "" :: parts[k] in r
  {
    if |parts| == 0 then []
    else
      var last := parts[|parts| - 1];
      var init := NonEmpty(parts[..|parts| - 1]);
      assert forall k | 0 <= k < |parts| - 1 :: parts[k] == parts[..|parts| - 1][k];
      if last == "" then init else init + [last]
  }

  /** `path.join(...parts)`: `.` when nothing is left, otherwise the kept parts joined and normalised. */
  function JoinAll(parts: seq<string>): (r: string)
    ensures |r| > 0
  {
    var kept := NonEmpty(parts);
    if kept == [] then "." else Normalize(Join(kept, "/"))
  }

  /** A segment `normalize` keeps as it is. */
  predicate PlainSegment(seg: string) {
    seg != "" && seg != "." && seg != ".." && '/' !in seg
  }

  lemma {:induction false} FoldSegmentsSnoc(stack: seq<string>, segs: seq<string>, x: string, absolute: bool)
    ensures FoldSegments(stack, segs + [x], absolute) == PushSegment(FoldSegments(stack, segs, absolute), x, absolute)
    decreases |segs|
  {
    if |segs| > 0 {
      assert (segs + [x])[1..] == segs[1..] + [x];
      FoldSegmentsSnoc(PushSegment(stack, segs[0], absolute), segs[1..], x, absolute);
    } else {
      assert [x][1..] == [];
    }
  }

  /** The text after the last `/` is the final segment. */
  lemma BasenameOfSuffix(r: string, n: string)
    requires '/' !in n
    requires r == n || EndsWith(r, "/" + n)
    ensures Basename(r) == n
  {
    if r != n {
      var i := |r| - |n| - 1;
      assert r[i..] == "/" + n;
      assert r[i] == '/' && r[i + 1..] == n;
      LastIndexOfUnique(r, '/', i);
    }
  }

  /** The folded segments of `p/n` end with the plain segment `n`, so their join does too. */
  lemma FoldedBodyEndsInLast(p: string, n: string, absolute: bool)
    requires PlainSegment(n)
    ensures var body := Join(FoldSegments([], Split(p + "/" + n, '/'), absolute), "/");
      body == n || EndsWith(body, "/" + n)
  {
    var f := FoldSegments([], Split(p, '/'), absolute);
    assert FoldSegments([], Split(p + "/" + n, '/'), absolute) == f + [n] by {
      SplitSnoc(p, n);
      FoldSegmentsSnoc([], Split(p, '/'), n, absolute);
    }
    JoinEndsInLast(f, n);
  }

  /** Joining segments that end with `n` gives `n` or a text ending in `/n`. */
  lemma JoinEndsInLast(f: seq<string>, n: string)
    ensures var body := Join(f + [n], "/");
      body == n || EndsWith(body, "/" + n)
  {
    JoinSnoc(f, n, "/");
    if f != [] {
      var body := Join(f, "/") + "/" + n;
      assert body[|body| - |"/" + n|..] == "/" + n;
    }
  }

  lemma SlashKeepsSuffix(body: string, n: string)
    requires body == n || EndsWith(body, "/" + n)
    ensures EndsWith("/" + body, "/" + n)
  {
    var r := "/" + body;
    assert r[|r| - |body|..] == body;
  }

  /** Normalising a path whose last segment is plain keeps that segment last. */
  lemma NormalizeKeepsLast(p: string, n: string)
    requires PlainSegment(n)
    ensures var r := Normalize(p + "/" + n); r == n || EndsWith(r, "/" + n)
  {
    var q := p + "/" + n;
    assert q[|q| - 1] == n[|n| - 1] && n[|n| - 1] in n;
    var absolute := q[0] == '/';
    FoldedBodyEndsInLast(p, n, absolute);
    var body := Join(FoldSegments([], Split(q, '/'), absolute), "/");
    assert body != "";
    if absolute {
      assert Normalize(q) == "/" + body;
      SlashKeepsSuffix(body, n);
    } else {
      assert Normalize(q) == body;
    }
  }

  /** `path.join(a, ..., n)` ends in the plain segment `n`: `basename` gives it back. */
  lemma JoinAllBasename(parts: seq<string>, n: string)
    requires PlainSegment(n)
    ensures Basename(JoinAll(parts + [n])) == n
  {
    var kept := NonEmpty(parts);
    assert (parts + [n])[..|parts|] == parts;
    assert NonEmpty(parts + [n]) == kept + [n];
    JoinSnoc(kept, n, "/");
    if kept == [] {
      assert Split(n, '/') == [n];
      assert FoldSegments([], [n], false) == FoldSegments([n], [], false);
      assert JoinAll(parts + [n]) == n;
    } else {
      NormalizeKeepsLast(Join(kept, "/"), n);
    }
    BasenameOfSuffix(JoinAll(parts + [n]), n);
  }

  /** Segments without `/` that are never empty. */
  ghost predicate PlainSegments(segs: seq<string>) {
    forall k | 0 <= k < |segs| :: '/' !in segs[k] && segs[k] != ""
  }

  lemma PushSegmentPlain(stack: seq<string>, seg: string, absolute: bool)
    requires PlainSegments(stack) && '/' !in seg
    ensures PlainSegments(PushSegment(stack, seg, absolute))
  {
    if seg != "" && seg != "." && seg == ".." && |stack| > 0 && stack[|stack| - 1] != ".." {
      assert forall k | 0 <= k < |stack| - 1 :: stack[..|stack| - 1][k] == stack[k];
    }
  }

  lemma {:induction false} FoldSegmentsPlain(stack: seq<string>, segs: seq<string>, absolute: bool)
    requires PlainSegments(stack)
    requires forall k | 0 <= k < |segs| :: '/' !in segs[k]
    ensures PlainSegments(FoldSegments(stack, segs, absolute))
    decreases |segs|
  {
    if |segs| > 0 {
      PushSegmentPlain(stack, segs[0], absolute);
      FoldSegmentsPlain(PushSegment(stack, segs[0], absolute), segs[1..], absolute);
    }
  }

  lemma JoinNonEmpty(segs: seq<string>)
    requires |segs| > 0 && PlainSegments(segs)
    ensures Join(segs, "/") != ""
  {
    if |segs| > 1 {
      assert |Join(segs, "/")| >= |segs[0] + "/"|;
    }
  }

  /** Once a segment other than `..` appears, no `..` follows it. */
  ghost predicate ParentsFirst(segs: seq<string>) {
    forall i, j | 0 <= i < j < |segs| && segs[i] != ".." :: segs[j] != ".."
  }

  /** No segment is `..`. */
  ghost predicate NoParent(segs: seq<string>) {
    forall k | 0 <= k < |segs| :: segs[k] != ".."
  }

  lemma PushSegmentOrder(stack: seq<string>, seg: string, absolute: bool)
    requires ParentsFirst(stack) && (absolute ==> NoParent(stack))
    ensures ParentsFirst(PushSegment(stack, seg, absolute))
    ensures absolute ==> NoParent(PushSegment(stack, seg, absolute))
  {
    if seg == ".." {
      if |stack| > 0 && stack[|stack| - 1] != ".." {
        assert forall k | 0 <= k < |stack| - 1 :: stack[..|stack| - 1][k] == stack[k];
      } else if !absolute {
        forall k | 0 <= k < |stack|
          ensures stack[k] == ".."
        {
          assert stack[|stack| - 1] == "..";
        }
      }
    }
  }

  lemma {:induction false} FoldSegmentsOrder(stack: seq<string>, segs: seq<string>, absolute: bool)
    requires ParentsFirst(stack) && (absolute ==> NoParent(stack))
    ensures ParentsFirst(FoldSegments(stack, segs, absolute))
    ensures absolute ==> NoParent(FoldSegments(stack, segs, absolute))
    decreases |segs|
  {
    if |segs| > 0 {
      PushSegmentOrder(stack, segs[0], absolute);
      FoldSegmentsOrder(PushSegment(stack, segs[0], absolute), segs[1..], absolute);
    }
  }

  /** The pieces of a joined stack, with an empty last piece when a `/` follows. */
  lemma JoinedStackSegments(stack: seq<string>, trailing: bool)
    requires stack != [] && PlainSegments(stack)
    ensures var body := Join(stack, "/");
      body != "" && Split(body + (if trailing then "/" else ""), '/') == stack + (if trailing then [""] else [])
  {
    var body := Join(stack, "/");
    SplitJoin(stack, '/');
    JoinNonEmpty(stack);
    if trailing {
      SplitSnoc(body, "");
      assert body + "/" == body + "/" + "";
    } else {
      assert body + "" == body;
    }
  }

  lemma ParentsFirstSnoc(segs: seq<string>, x: string)
    requires ParentsFirst(segs) && x != ".."
    ensures ParentsFirst(segs + [x])
  {
  }

  lemma NoParentCons(segs: seq<string>)
    requires NoParent(segs)
    ensures NoParent([""] + segs) && ParentsFirst([""] + segs)
  {
  }

  /** What `normalize` makes of the folded segments of a relative path. */
  function RelativeResult(stack: seq<string>, trailing: bool): string {
    var body := Join(stack, "/");
    if body == "" then (if trailing then "./" else ".") else body + (if trailing then "/" else "")
  }

  lemma RelativeResultOrder(stack: seq<string>, trailing: bool)
    requires PlainSegments(stack) && ParentsFirst(stack)
    ensures ParentsFirst(Split(RelativeResult(stack, trailing), '/'))
  {
    if stack == [] {
      assert Split(".", '/') == ["."];
      SplitSnoc(".", "");
      assert "./" == "." + "/" + "";
    } else {
      JoinedStackSegments(stack, trailing);
      if trailing {
        ParentsFirstSnoc(stack, "");
      }
    }
  }

  /** `normalize` of a relative path leaves `..` segments only at its front. */
  lemma NormalizeRelativeOrder(p: string)
    requires |p| > 0 && p[0] != '/'
    ensures ParentsFirst(Split(Normalize(p), '/'))
  {
    var stack := FoldSegments([], Split(p, '/'), false);
    FoldSegmentsPlain([], Split(p, '/'), false);
    FoldSegmentsOrder([], Split(p, '/'), false);
    RelativeResultOrder(stack, p[|p| - 1] == '/');
    assert Normalize(p) == RelativeResult(stack, p[|p| - 1] == '/');
  }

  /** What `normalize` makes of the folded segments of an absolute path, after its leading `/`. */
  function AbsoluteTail(stack: seq<string>, trailing: bool): string {
    var body := Join(stack, "/");
    body + (if trailing && body != "" then "/" else "")
  }

  lemma AbsoluteTailNoParent(stack: seq<string>, trailing: bool)
    requires PlainSegments(stack) && NoParent(stack)
    ensures NoParent(Split("/" + AbsoluteTail(stack, trailing), '/'))
    ensures ParentsFirst(Split("/" + AbsoluteTail(stack, trailing), '/'))
  {
    var tail := AbsoluteTail(stack, trailing);
    var pieces := Split(tail, '/');
    assert NoParent(pieces) by {
      if stack != [] {
        JoinedStackSegments(stack, trailing);
        assert pieces == stack + (if trailing then [""] else []);
      } else {
        assert tail == "";
        assert pieces == [""];
      }
    }
    assert Split("/" + tail, '/') == [""] + pieces by {
      assert "/" + tail == "" + "/" + tail;
      SplitCons("", tail, '/');
    }
    NoParentCons(pieces);
  }

  /** `normalize` of an absolute path leaves no `..` segment. */
  lemma NormalizeAbsoluteOrder(p: string)
    requires |p| > 0 && p[0] == '/'
    ensures NoParent(Split(Normalize(p), '/')) && ParentsFirst(Split(Normalize(p), '/'))
  {
    var stack := FoldSegments([], Split(p, '/'), true);
    FoldSegmentsPlain([], Split(p, '/'), true);
    FoldSegmentsOrder([], Split(p, '/'), true);
    AbsoluteTailNoParent(stack, p[|p| - 1] == '/');
    assert Normalize(p) == "/" + AbsoluteTail(stack, p[|p| - 1] == '/');
  }
}
