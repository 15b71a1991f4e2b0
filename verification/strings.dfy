/**
 * The few Python `str` operations the engine relies on: the `<` order used by
 * `sorted`, `endswith`, `find`/`rfind` of one character, and `split`/`join`
 * on a one-character separator. Python's `a.startswith(b)` is Dafny's prefix
 * test `b <= a` and needs no definition here.
 */
module Strings {

  /** Python's `a < b` on `str`: lexicographic by code point, a proper prefix first. */
  predicate Less(a: string, b: string)
    decreases |a|
  {
    if |a| == 0 then |b| > 0
    else if |b| == 0 then false
    else if a[0] != b[0] then a[0] < b[0]
    else Less(a[1..], b[1..])
  }

  lemma {:induction false} LessIrreflexive(a: string)
    ensures !Less(a, a)
    decreases |a|
  {
    if |a| > 0 {
      LessIrreflexive(a[1..]);
    }
  }

  lemma {:induction false} LessTransitive(a: string, b: string, c: string)
    requires Less(a, b) && Less(b, c)
    ensures Less(a, c)
    decreases |a|
  {
    if |a| > 0 && a[0] == b[0] && b[0] == c[0] {
      LessTransitive(a[1..], b[1..], c[1..]);
    }
  }

  /** Two different strings are always ordered one way or the other. */
  lemma {:induction false} LessTotal(a: string, b: string)
    requires a != b
    ensures Less(a, b) || Less(b, a)
    decreases |a|
  {
    if |a| > 0 && |b| > 0 && a[0] == b[0] {
      assert a == [a[0]] + a[1..] && b == [b[0]] + b[1..];
      LessTotal(a[1..], b[1..]);
    }
  }

  lemma LessAsymmetric(a: string, b: string)
    requires Less(a, b)
    ensures !Less(b, a)
  {
    if Less(b, a) {
      LessTransitive(a, b, a);
      LessIrreflexive(a);
    }
  }

  /** Python's `s.endswith(suffix)`. */
  predicate EndsWith(s: string, suffix: string) {
    |suffix| <= |s| && s[|s| - |suffix|..] == suffix
  }

  /** Python's `s.find(c, start)` for one character: the first index at or after `start`, or -1. */
  function FindFrom(s: string, c: char, start: nat): (r: int)
    requires start <= |s|
    ensures r == -1 <==> c !in s[start..]
    ensures r != -1 ==> start <= r < |s| && s[r] == c && c !in s[start..r]
    decreases |s| - start
  {
    if start == |s| then -1
    else if s[start] == c then start
    else FindFrom(s, c, start + 1)
  }

  /** Python's `s.find(c)` for one character. */
  function Find(s: string, c: char): (r: int)
    ensures r == -1 <==> c !in s
    ensures r != -1 ==> 0 <= r < |s| && s[r] == c && c !in s[..r]
  {
    assert s[0..] == s;
    FindFrom(s, c, 0)
  }

  /** The index `find` reports is the only one with `c` there and no `c` before it. */
  lemma FindAt(s: string, c: char, i: int)
    requires 0 <= i < |s| && s[i] == c && c !in s[..i]
    ensures Find(s, c) == i
  {
  }

  /** Python's `s.rfind(c)` for one character: the last index, or -1. */
  function RFind(s: string, c: char): (r: int)
    ensures r == -1 <==> c !in s
    ensures r != -1 ==> 0 <= r < |s| && s[r] == c && c !in s[r + 1..]
    ensures forall i :: 0 <= i < |s| && s[i] == c ==> i <= r
  {
    if |s| == 0 then -1
    else if s[|s| - 1] == c then |s| - 1
    else
      assert s == s[..|s| - 1] + [s[|s| - 1]];
      RFind(s[..|s| - 1], c)
  }

  /** The index `rfind` reports is the only one with `c` there and no `c` after it. */
  lemma RFindAt(s: string, c: char, i: int)
    requires 0 <= i < |s| && s[i] == c && c !in s[i + 1..]
    ensures RFind(s, c) == i
  {
  }

  /** Python's `sep.join(parts)`. */
  function Join(parts: seq<string>, sep: char): string
  {
    if |parts| == 0 then ""
    else if |parts| == 1 then parts[0]
    else parts[0] + [sep] + Join(parts[1..], sep)
  }

  /** Python's `s.split(sep)` for a one-character separator: never empty, and joining gives `s` back. */
  function Split(s: string, sep: char): (parts: seq<string>)
    ensures |parts| >= 1
    ensures forall i :: 0 <= i < |parts| ==> sep !in parts[i]
    ensures Join(parts, sep) == s
    decreases |s|
  {
    var i := Find(s, sep);
    if i == -1 then [s]
    else
      assert s == s[..i] + [sep] + s[i + 1..];
      [s[..i]] + Split(s[i + 1..], sep)
  }

  /** Splitting undoes joining, so the parts of a path are exactly what it was built from. */
  lemma {:induction false} SplitJoin(parts: seq<string>, sep: char)
    requires |parts| >= 1
    requires forall i :: 0 <= i < |parts| ==> sep !in parts[i]
    ensures Split(Join(parts, sep), sep) == parts
    decreases |parts|
  {
    if |parts| > 1 {
      var head, rest := parts[0], parts[1..];
      assert sep !in head;
      var tail := Join(rest, sep);
      var s := head + [sep] + tail;
      assert Join(parts, sep) == s;
      FindAfterHead(head, sep, tail);
      assert s[..|head|] == head;
      assert s[|head| + 1..] == tail;
      SplitJoin(rest, sep);
      assert parts == [head] + rest;
    }
  }

  lemma FindAfterHead(head: string, sep: char, tail: string)
    requires sep !in head
    ensures Find(head + [sep] + tail, sep) == |head|
  {
    var s := head + [sep] + tail;
    assert s[|head|] == sep;
    assert s[..|head|] == head;
  }
}
