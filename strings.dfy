/**
 * The JavaScript string operations the services rely on (`startsWith`,
 * `endsWith`, `includes`, `lastIndexOf`, `split`, `join`, `toLowerCase`,
 * `trim`, `replace` with a global character class, and number-to-string),
 * written over `seq<char>`.
 */
module Strings {

  predicate StartsWith(s: string, prefix: string) {
    |prefix| <= |s| && s[..|prefix|] == prefix
  }

  predicate EndsWith(s: string, suffix: string) {
    |suffix| <= |s| && s[|s| - |suffix|..] == suffix
  }

  /** `s.includes(sub)`: `sub` occurs as a contiguous piece of `s`. */
  predicate Contains(s: string, sub: string) {
    exists i | 0 <= i <= |s| - |sub| :: OccursAt(s, sub, i)
  }

  /** `sub` occurs in `s` starting at position `i`. */
  predicate OccursAt(s: string, sub: string, i: int) {
    0 <= i && i + |sub| <= |s| && s[i..i + |sub|] == sub
  }

  /** `s.indexOf(c)` for a single character: the first position of `c`, or -1. */
  function IndexOf(s: string, c: char): (i: int)
    ensures -1 <= i < |s|
    ensures i == -1 <==> c !in s
    ensures 0 <= i ==> s[i] == c && c !in s[..i]
  {
    if |s| == 0 then -1
    else if s[0] == c then 0
    else
      var j := IndexOf(s[1..], c);
      assert s[1..][..if j < 0 then 0 else j] == s[1..if j < 0 then 1 else j + 1];
      if j < 0 then -1 else j + 1
  }

  /** The first occurrence is the one with no earlier occurrence. */
  lemma IndexOfUnique(s: string, c: char, i: int)
    requires 0 <= i < |s| && s[i] == c && c !in s[..i]
    ensures IndexOf(s, c) == i
  {
    assert s[i] in s;
  }

  /** `s.lastIndexOf(c)` for a single character: the last position of `c`, or -1. */
  function LastIndexOf(s: string, c: char): (i: int)
    ensures -1 <= i < |s|
    ensures i == -1 <==> c !in s
    ensures 0 <= i ==> s[i] == c && c !in s[i + 1..]
  {
    if |s| == 0 then -1
    else if s[|s| - 1] == c then |s| - 1
    else
      var j := LastIndexOf(s[..|s| - 1], c);
      assert j >= 0 ==> s[j + 1..] == s[..|s| - 1][j + 1..] + [s[|s| - 1]];
      j
  }

  /** The last occurrence is the one with no later occurrence. */
  lemma LastIndexOfUnique(s: string, c: char, i: int)
    requires 0 <= i < |s| && s[i] == c && c !in s[i + 1..]
    ensures LastIndexOf(s, c) == i
  {
    assert s[i] in s;
  }

  /** `s.split(c)` for a one-character separator: never empty, no piece contains `c`. */
  function Split(s: string, c: char): (parts: seq<string>)
    ensures |parts| >= 1
    ensures forall k | 0 <= k < |parts| :: c !in parts[k]
    decreases |s|
  {
    if c !in s then [s]
    else
      var i := IndexOf(s, c);
      [s[..i]] + Split(s[i + 1..], c)
  }

  /** `parts.join(sep)`. */
  function Join(parts: seq<string>, sep: string): string {
    if |parts| == 0 then ""
    else if |parts| == 1 then parts[0]
    else parts[0] + sep + Join(parts[1..], sep)
  }

  function ToLowerChar(c: char): char {
    if 'A' <= c <= 'Z' then (c as int + 32) as char else c
  }

  /** `s.toLowerCase()` restricted to ASCII letters. */
  function ToLower(s: string): (r: string)
    ensures |r| == |s|
    ensures forall k | 0 <= k < |s| :: r[k] == ToLowerChar(s[k])
  {
    if |s| == 0 then "" else [ToLowerChar(s[0])] + ToLower(s[1..])
  }

  /** The ASCII members of JavaScript's white-space class `\s`. */
  predicate IsWhitespace(c: char) {
    c == ' ' || c == '\t' || c == '\n' || c == '\r' || c == '\U{000B}' || c == '\U{000C}'
  }

  function TrimStart(s: string): string
    decreases |s|
  {
    if |s| > 0 && IsWhitespace(s[0]) then TrimStart(s[1..]) else s
  }

  function TrimEnd(s: string): string
    decreases |s|
  {
    if |s| > 0 && IsWhitespace(s[|s| - 1]) then TrimEnd(s[..|s| - 1]) else s
  }

  /** `s.trim()`. */
  function Trim(s: string): string {
    TrimEnd(TrimStart(s))
  }

  /** `s.replace(/[…]/g, '')`: every character of `cs` removed. */
  function RemoveChars(s: string, cs: set<char>): (r: string)
    ensures forall k | 0 <= k < |r| :: r[k] !in cs
    ensures |r| <= |s|
  {
    if |s| == 0 then ""
    else (if s[0] in cs then "" else [s[0]]) + RemoveChars(s[1..], cs)
  }

  /** `s.replace(/x/g, y)` for single characters `x` and `y`. */
  function ReplaceChar(s: string, x: char, y: char): (r: string)
    ensures |r| == |s|
    ensures forall k | 0 <= k < |s| :: r[k] == if s[k] == x then y else s[k]
  {
    if |s| == 0 then "" else [if s[0] == x then y else s[0]] + ReplaceChar(s[1..], x, y)
  }

  lemma ReplaceCharAbsent(s: string, x: char, y: char)
    requires x !in s
    ensures ReplaceChar(s, x, y) == s
  {
  }

  predicate IsDigit(c: char) {
    '0' <= c <= '9'
  }

  /** `String(n)` for a non-negative integer: its decimal digits. */
  function NatToString(n: nat): (r: string)
    ensures |r| >= 1
    ensures forall k | 0 <= k < |r| :: IsDigit(r[k])
  {
    if n < 10 then [('0' as int + n) as char]
    else NatToString(n / 10) + [('0' as int + n % 10) as char]
  }

  /** Different numbers print differently. */
  lemma {:induction false} NatToStringInjective(a: nat, b: nat)
    requires NatToString(a) == NatToString(b)
    ensures a == b
    decreases a
  {
    if a >= 10 && b >= 10 {
      var ra, rb := NatToString(a), NatToString(b);
      assert ra[|ra| - 1] == rb[|rb| - 1];
      assert ra[..|ra| - 1] == NatToString(a / 10);
      assert rb[..|rb| - 1] == NatToString(b / 10);
      NatToStringInjective(a / 10, b / 10);
    }
  }

  /** Splitting a join of separator-free pieces gives the pieces back. */
  lemma {:induction false} SplitJoin(parts: seq<string>, c: char)
    requires |parts| > 0
    requires forall k | 0 <= k < |parts| :: c !in parts[k]
    ensures Split(Join(parts, [c]), c) == parts
    decreases |parts|
  {
    if |parts| > 1 {
      var s := Join(parts, [c]);
      var rest := Join(parts[1..], [c]);
      assert s == parts[0] + [c] + rest;
      assert s[|parts[0]|] == c && s[..|parts[0]|] == parts[0];
      IndexOfUnique(s, c, |parts[0]|);
      assert s[|parts[0]| + 1..] == rest;
      SplitJoin(parts[1..], c);
    }
  }

  /** Joining the pieces of a split with the same separator gives the string back. */
  lemma {:induction false} SplitThenJoin(s: string, c: char)
    ensures Join(Split(s, c), [c]) == s
    decreases |s|
  {
    if c in s {
      var i := IndexOf(s, c);
      var head, tail := s[..i], s[i + 1..];
      var pieces := Split(tail, c);
      assert Split(s, c) == [head] + pieces by {
        assert s == head + [c] + tail;
        SplitCons(head, tail, c);
      }
      assert ([head] + pieces)[1..] == pieces;
      SplitThenJoin(tail, c);
      assert s == head + [c] + tail;
    }
  }

  /** Splitting `a/b` for a `b` without separators splits `a` and appends `b`. */
  lemma {:induction false} SplitSnoc(a: string, b: string)
    requires '/' !in b
    ensures Split(a + "/" + b, '/') == Split(a, '/') + [b]
    decreases |a|
  {
    if '/' !in a {
      SplitCons(a, b, '/');
    } else {
      var i := IndexOf(a, '/');
      var head, tail := a[..i], a[i + 1..];
      assert Split(a, '/') == [head] + Split(tail, '/') by {
        assert a == head + ['/'] + tail;
        SplitCons(head, tail, '/');
      }
      assert Split(a + "/" + b, '/') == [head] + Split(tail + "/" + b, '/') by {
        assert a + "/" + b == head + ['/'] + (tail + "/" + b);
        SplitCons(head, tail + "/" + b, '/');
      }
      SplitSnoc(tail, b);
    }
  }

  lemma {:induction false} JoinSnoc(parts: seq<string>, x: string, sep: string)
    ensures Join(parts + [x], sep) == if parts == [] then x else Join(parts, sep) + sep + x
    decreases |parts|
  {
    if |parts| > 1 {
      assert (parts + [x])[1..] == parts[1..] + [x];
      JoinSnoc(parts[1..], x, sep);
    } else if |parts| == 1 {
      assert (parts + [x])[1..] == [x];
    }
  }

  /** Splitting `a` + separator + `b` for an `a` without the separator gives `a` followed by the pieces of `b`. */
  lemma SplitCons(a: string, b: string, c: char)
    requires c !in a
    ensures Split(a + [c] + b, c) == [a] + Split(b, c)
  {
    var s := a + [c] + b;
    assert s[|a|] == c && s[..|a|] == a;
    IndexOfUnique(s, c, |a|);
    assert s[|a| + 1..] == b;
  }

  /** Text without separators put in front of `u` joins the first piece of `u`. */
  lemma SplitPrepend(x: string, u: string)
    requires '/' !in x
    ensures Split(x + u, '/') == [x + Split(u, '/')[0]] + Split(u, '/')[1..]
  {
    var s := x + u;
    if '/' in u {
      var i := IndexOf(u, '/');
      var rest := Split(u[i + 1..], '/');
      assert Split(u, '/') == [u[..i]] + rest by {
        assert u == u[..i] + ['/'] + u[i + 1..];
        SplitCons(u[..i], u[i + 1..], '/');
      }
      assert Split(s, '/') == [x + u[..i]] + rest by {
        assert s == (x + u[..i]) + ['/'] + u[i + 1..];
        SplitCons(x + u[..i], u[i + 1..], '/');
      }
    } else {
      assert '/' !in s by {
        forall k | 0 <= k < |s| ensures s[k] != '/' {
          if k < |x| { assert s[k] == x[k]; } else { assert s[k] == u[k - |x|]; }
        }
      }
    }
  }

  /** The first piece of a split is the text up to the first separator. */
  lemma SplitFirst(s: string, c: char)
    ensures StartsWith(s, Split(s, c)[0]) && c !in Split(s, c)[0]
    ensures Split(s, c)[0] == s || s[|Split(s, c)[0]|] == c
  {
  }
}
