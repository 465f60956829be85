/** Path strings: splitting, joining and prefix tests (src/str.c). */
module Str {
  import opened Data

  datatype PathSplit = PathSplit(head: Bytes, tail: Bytes)

  predicate HasSlash(s: Bytes) { exists i :: 0 <= i < |s| && s[i] == SLASH }

  predicate EndsWithSlash(s: Bytes) { |s| > 0 && s[|s| - 1] == SLASH }

  /** One past the last slash at or before k. */
  function AfterLastSlash(path: Bytes, k: nat): (r: nat)
    requires k <= |path|
    ensures r <= k
    ensures r > 0 ==> path[r - 1] == SLASH
    ensures forall i :: r <= i < k ==> path[i] != SLASH
  {
    if k > 0 && path[k - 1] != SLASH then AfterLastSlash(path, k - 1) else k
  }

  /** Moves a split point back to the first slash of the run it follows. */
  function FirstOfRun(path: Bytes, k: nat): (r: nat)
    requires k <= |path|
    ensures r <= k && (k > 0 ==> r > 0)
    ensures r > 1 ==> path[r - 2] != SLASH
    ensures forall i :: 0 <= r - 1 <= i < k - 1 ==> path[i] == SLASH
  {
    if k > 1 && path[k - 2] == SLASH then FirstOfRun(path, k - 1) else k
  }

  function SplitPoint(path: Bytes): (k: nat)
    ensures k <= |path|
  {
    FirstOfRun(path, AfterLastSlash(path, |path|))
  }

  function Split(path: Bytes): PathSplit {
    var k := SplitPoint(path);
    PathSplit(path[..if k > 0 then k - 1 else 0], path[k..])
  }

  /** What a split means: without a slash everything is tail; otherwise one slash joins the two
      parts, the head does not end with a slash, and the tail is a run of slashes followed by a
      name without any. */
  ghost predicate IsSplit(path: Bytes, s: PathSplit) {
    if HasSlash(path) then
      && path == s.head + [SLASH] + s.tail
      && !EndsWithSlash(s.head)
      && exists n: nat :: IsSlashesThenName(s.tail, n)
    else
      s == PathSplit([], path)
  }

  ghost predicate IsSlashesThenName(s: Bytes, n: nat) {
    n <= |s|
    && (forall i :: 0 <= i < n ==> s[i] == SLASH)
    && (forall i :: n <= i < |s| ==> s[i] != SLASH)
  }

  lemma {:induction false} SplitIsSplit(path: Bytes)
    ensures IsSplit(path, Split(path))
  {
    var last := AfterLastSlash(path, |path|);
    var k := SplitPoint(path);
    var s := Split(path);
    if HasSlash(path) {
      var i :| 0 <= i < |path| && path[i] == SLASH;
      assert last > 0;
      assert path[k - 1] == SLASH;
      assert path == s.head + [SLASH] + s.tail;
      assert IsSlashesThenName(s.tail, last - k);
    } else {
      assert last == 0;
    }
  }

  /** The characterisation determines the split. */
  lemma {:induction false} SplitIsUnique(path: Bytes, a: PathSplit, b: PathSplit)
    requires IsSplit(path, a) && IsSplit(path, b)
    ensures a == b
  {
    if HasSlash(path) {
      HeadNotShorter(path, a, b);
      HeadNotShorter(path, b, a);
      assert a.head == path[..|a.head|] && b.head == path[..|b.head|];
      assert a.tail == path[|a.head| + 1..] && b.tail == path[|b.head| + 1..];
    }
  }

  lemma {:induction false} HeadNotShorter(path: Bytes, a: PathSplit, b: PathSplit)
    requires HasSlash(path) && IsSplit(path, a) && IsSplit(path, b)
    ensures |a.head| >= |b.head|
  {
    var n: nat :| IsSlashesThenName(a.tail, n);
    var start := |a.head| + 1;
    assert forall i :: 0 <= i < |a.tail| ==> path[start + i] == a.tail[i];
    assert forall i :: start + n <= i < |path| ==> path[i] == a.tail[i - start];
    assert forall i :: start <= i < start + n ==> path[i] == a.tail[i - start];
    assert path[|b.head|] == SLASH;
    assert forall i :: 0 <= i < |b.head| ==> path[i] == b.head[i];
  }

  method SplitPath(path: Bytes) returns (head: Bytes, tail: Bytes)
    ensures IsSplit(path, PathSplit(head, tail))
    ensures PathSplit(head, tail) == Split(path)
  {
    var lastSlash := |path|;
    while lastSlash > 0 && path[lastSlash - 1] != SLASH
      invariant 0 <= lastSlash <= |path|
      invariant AfterLastSlash(path, |path|) == AfterLastSlash(path, lastSlash)
    {
      lastSlash := lastSlash - 1;
    }
    while lastSlash > 1 && path[lastSlash - 2] == SLASH
      invariant 0 <= lastSlash <= |path|
      invariant SplitPoint(path) == FirstOfRun(path, lastSlash)
    {
      lastSlash := lastSlash - 1;
    }
    head := path[..if lastSlash > 0 then lastSlash - 1 else 0];
    tail := path[lastSlash..];
    SplitIsSplit(path);
  }

  function AppendPath(path: Bytes, filename: Bytes): Bytes {
    path + [SLASH] + filename
  }

  predicate IsDotElement(s: Bytes) {
    s == [DOT] || s == [DOT, DOT]
  }

  /** A name that the metadata reader accepts as one path element. */
  predicate ValidName(s: Bytes) {
    |s| > 0 && !HasSlash(s) && !(0 in s) && !IsDotElement(s)
  }

  /** Splitting undoes joining, as long as the base does not end with a slash. */
  lemma {:induction false} SplitAppend(path: Bytes, name: Bytes)
    requires !HasSlash(name) && !EndsWithSlash(path)
    ensures Split(AppendPath(path, name)) == PathSplit(path, name)
  {
    var full := AppendPath(path, name);
    assert full[|path|] == SLASH;
    SplitIsSplit(full);
    assert IsSlashesThenName(name, 0);
    assert IsSplit(full, PathSplit(path, name));
    SplitIsUnique(full, Split(full), PathSplit(path, name));
  }

  /** A base that already ends with a slash leaks that slash into the tail. */
  lemma {:induction false} SplitAppendRoot(name: Bytes)
    requires !HasSlash(name)
    ensures Split(AppendPath([SLASH], name)) == PathSplit([], [SLASH] + name)
  {
    var full := AppendPath([SLASH], name);
    assert full[0] == SLASH;
    SplitIsSplit(full);
    assert IsSlashesThenName([SLASH] + name, 1);
    assert full == [] + [SLASH] + ([SLASH] + name);
    assert IsSplit(full, PathSplit([], [SLASH] + name));
    SplitIsUnique(full, Split(full), PathSplit([], [SLASH] + name));
  }

  lemma {:induction false} AppendInjective(path: Bytes, a: Bytes, b: Bytes)
    requires AppendPath(path, a) == AppendPath(path, b)
    ensures a == b
  {
    assert a == AppendPath(path, a)[|path| + 1..];
    assert b == AppendPath(path, b)[|path| + 1..];
  }

  function StripSlashes(s: Bytes): (r: Bytes)
    ensures r <= s && !EndsWithSlash(r)
    ensures forall i :: |r| <= i < |s| ==> s[i] == SLASH
  {
    if EndsWithSlash(s) then
      assert s[..|s| - 1] <= s;
      StripSlashes(s[..|s| - 1])
    else s
  }

  method StripTrailingSlashes(s: Bytes) returns (r: Bytes)
    ensures r <= s && !EndsWithSlash(r)
    ensures forall i :: |r| <= i < |s| ==> s[i] == SLASH
    ensures r == StripSlashes(s)
  {
    var newLength := |s|;
    while newLength > 0 && s[newLength - 1] == SLASH
      invariant 0 <= newLength <= |s|
      invariant StripSlashes(s[..newLength]) == StripSlashes(s)
      invariant forall i :: newLength <= i < |s| ==> s[i] == SLASH
    {
      assert s[..newLength][..newLength - 1] == s[..newLength - 1];
      newLength := newLength - 1;
    }
    r := s[..newLength];
  }

  predicate IsParentPath(parent: Bytes, path: Bytes) {
    |parent| < |StripSlashes(path)| && path[|parent|] == SLASH && path[..|parent|] == parent
  }

  predicate PathContainsDotElements(path: Bytes)
    decreases |path|
  {
    var s := Split(path);
    IsDotElement(s.tail) || (|s.head| > 0 && PathContainsDotElements(s.head))
  }
}
