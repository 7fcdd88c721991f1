/**
 The directory prefix shared by the paths of a trace report. The loop is also given as a step
 function, so that the inputs on which it never ends can be told exactly.
 */
module PathPrefix {

  const SLASH := '/'

  // --- The string operations of the source ---

  predicate HasSlash(p: string) {
    SLASH in p
  }

  predicate Absolute(p: string) {
    p != "" && p[0] == SLASH
  }

  /** `lastIndexOf('/', from)`: a negative start counts as 0, one behind the end as the last position. */
  function LastSlash(s: string, from: int): (k: int)
    ensures -1 <= k < |s|
    ensures k >= 0 ==> s[k] == SLASH && (k <= from || k == 0)
    ensures forall j | 0 <= j < |s| && (j <= from || j == 0) :: s[j] == SLASH ==> j <= k
    decreases if from < 0 then 0 else from
  {
    if s == "" then -1
    else if from >= |s| then LastSlash(s, |s| - 1)
    else if from <= 0 then (if s[0] == SLASH then 0 else -1)
    else if s[from] == SLASH then from
    else LastSlash(s, from - 1)
  }

  /** One pass of the inner loop: drop the last directory. */
  function Shrink(prefix: string): string
    requires prefix != ""
  {
    prefix[..LastSlash(prefix, |prefix| - 2) + 1]
  }

  function FirstPrefix(path: string): string {
    path[..LastSlash(path, |path|) + 1]
  }

  function Usable(paths: seq<string>): seq<string> {
    if paths == [] then []
    else (if HasSlash(paths[0]) then [paths[0]] else []) + Usable(paths[1..])
  }

  predicate AllUsable(paths: seq<string>) {
    forall i | 0 <= i < |paths| :: HasSlash(paths[i])
  }

  lemma {:induction false} UsableIsFilter(paths: seq<string>)
    ensures AllUsable(Usable(paths))
    ensures forall p :: p in Usable(paths) <==> p in paths && '/' in p
  {
    if paths != [] {
      UsableIsFilter(paths[1..]);
    }
  }

  // --- What is computed ---

  predicate IsDirectory(d: string) {
    d != "" && d[|d| - 1] == '/'
  }

  predicate IsCommonDirectory(d: string, paths: seq<string>) {
    IsDirectory(d) && forall i | 0 <= i < |paths| :: d <= paths[i]
  }

  /** `r` is the longest common directory of the paths, or empty when that has at most one character. */
  ghost predicate IsAnswer(r: string, paths: seq<string>) {
    && (r == "" || (|r| > 1 && IsCommonDirectory(r, paths)))
    && forall d :: IsCommonDirectory(d, paths) && |d| > 1 ==> d <= r
  }

  /** Shrinking keeps every directory that is a proper prefix. */
  lemma ShrinkKeepsDirectories(prefix: string, d: string)
    requires IsDirectory(prefix) && IsDirectory(d) && d <= prefix
    ensures d == prefix || d <= Shrink(prefix)
  {
    if d != prefix {
      assert prefix[|d| - 1] == SLASH;
    }
  }

  lemma ShrinkIsDirectory(prefix: string)
    requires IsDirectory(prefix)
    ensures Shrink(prefix) == "" || IsDirectory(Shrink(prefix))
    ensures Shrink(prefix) <= prefix
    ensures prefix != "/" ==> |Shrink(prefix)| < |prefix|
    ensures Absolute(prefix) ==> Absolute(Shrink(prefix))
  {
  }

  lemma FirstPrefixIsLongest(path: string)
    requires HasSlash(path)
    ensures IsDirectory(FirstPrefix(path)) && FirstPrefix(path) <= path
    ensures forall d :: IsDirectory(d) && d <= path ==> d <= FirstPrefix(path)
  {
    var k :| 0 <= k < |path| && path[k] == SLASH;
    assert LastSlash(path, |path|) >= k;
    forall d | IsDirectory(d) && d <= path
      ensures d <= FirstPrefix(path)
    {
      assert path[|d| - 1] == SLASH;
    }
  }

  // --- The loops as steps ---

  datatype Loop = At(prefix: string, i: nat) | Done(result: string)

  function Start(paths: seq<string>): Loop {
    if paths == [] then Done("") else At(FirstPrefix(paths[0]), 0)
  }

  function Step(paths: seq<string>, l: Loop): Loop {
    match l
    case Done(_) => l
    case At(prefix, i) =>
      if i >= |paths| then Done(if |prefix| > 1 then prefix else "")
      else if prefix != "" && !(prefix <= paths[i]) then At(Shrink(prefix), i)
      else if prefix == "" then Done("")
      else At(prefix, i + 1)
  }

  function After(paths: seq<string>, n: nat): Loop {
    if n == 0 then Start(paths) else Step(paths, After(paths, n - 1))
  }

  ghost predicate Halts(paths: seq<string>) {
    exists n :: After(paths, n).Done?
  }

  /** The first path is relative, or all paths are absolute. */
  predicate SameKind(paths: seq<string>) {
    paths == [] || !Absolute(paths[0]) || forall i | 0 <= i < |paths| :: Absolute(paths[i])
  }

  /** What the steps keep: the prefix is a directory of the first path that no common directory exceeds. */
  ghost predicate Inv(paths: seq<string>, l: Loop) {
    match l
    case Done(r) => paths != [] ==> IsAnswer(r, paths)
    case At(prefix, i) =>
      && paths != [] && i <= |paths|
      && (prefix == "" || IsDirectory(prefix))
      && prefix <= paths[0]
      && (Absolute(paths[0]) ==> Absolute(prefix))
      && (forall j | 0 <= j < i :: prefix <= paths[j])
      && forall d :: IsCommonDirectory(d, paths) ==> d <= prefix
  }

  lemma StepKeepsInv(paths: seq<string>, l: Loop)
    requires AllUsable(paths)
    requires Inv(paths, l)
    ensures Inv(paths, Step(paths, l))
  {
    if l.At? && l.i < |paths| && l.prefix != "" && !(l.prefix <= paths[l.i]) {
      ShrinkIsDirectory(l.prefix);
      forall d | IsCommonDirectory(d, paths)
        ensures d <= Shrink(l.prefix)
      {
        ShrinkKeepsDirectories(l.prefix, d);
      }
    }
  }

  lemma {:induction false} InvAlways(paths: seq<string>, n: nat)
    requires AllUsable(paths)
    ensures Inv(paths, After(paths, n))
  {
    if n > 0 {
      InvAlways(paths, n - 1);
      StepKeepsInv(paths, After(paths, n - 1));
    } else if paths != [] {
      FirstPrefixIsLongest(paths[0]);
    }
  }

  /** On paths of the same kind a pass of the inner loop makes the prefix shorter. */
  lemma Shortens(paths: seq<string>, steps: nat, prefix: string, i: nat)
    requires SameKind(paths) && AllUsable(paths) && After(paths, steps) == At(prefix, i) && i < |paths|
    requires prefix != "" && !(prefix <= paths[i])
    ensures |Shrink(prefix)| < |prefix|
  {
    InvAlways(paths, steps);
    ShrinkIsDirectory(prefix);
  }

  /** The source's loops; `steps` counts their passes. On other inputs they do not end, as shown below. */
  method CommonDirectoryPrefix(paths: seq<string>) returns (r: string, ghost steps: nat)
    requires SameKind(Usable(paths))
    ensures After(Usable(paths), steps) == Done(r)
    ensures Usable(paths) == [] ==> r == ""
    ensures Usable(paths) != [] ==> IsAnswer(r, Usable(paths))
  {
    UsableIsFilter(paths);
    var usable := Usable(paths);
    if usable == [] {
      return "", 0;
    }
    r, steps := ShrinkToCommon(usable);
    InvAlways(usable, steps);
  }

  /** The outer loop over the usable paths. */
  method ShrinkToCommon(usable: seq<string>) returns (r: string, ghost steps: nat)
    requires usable != [] && SameKind(usable) && AllUsable(usable)
    ensures After(usable, steps) == Done(r)
  {
    var prefix := FirstPrefix(usable[0]);
    steps := 0;
    for i := 0 to |usable|
      invariant After(usable, steps) == At(prefix, i)
    {
      prefix, steps := ShrinkToPath(usable, i, prefix, steps);
      steps := steps + 1;
      if prefix == "" {
        return "", steps;
      }
    }
    steps := steps + 1;
    r := if |prefix| > 1 then prefix else "";
  }

  /** The inner loop for one path. */
  method ShrinkToPath(usable: seq<string>, i: nat, start: string, ghost before: nat)
    returns (prefix: string, ghost steps: nat)
    requires i < |usable| && SameKind(usable) && AllUsable(usable)
    requires After(usable, before) == At(start, i)
    ensures After(usable, steps) == At(prefix, i) && prefix <= usable[i]
  {
    prefix, steps := start, before;
    while prefix != "" && !(prefix <= usable[i])
      invariant After(usable, steps) == At(prefix, i)
      decreases |prefix|
    {
      Shortens(usable, steps, prefix, i);
      prefix := Shrink(prefix);
      steps := steps + 1;
    }
  }

  // --- Termination ---

  lemma {:induction false} HaltsWithin(paths: seq<string>, n: nat)
    requires AllUsable(paths)
    requires SameKind(paths)
    ensures Halts(paths)
    decreases var l := After(paths, n); if l.Done? then 0 else 1 + |l.prefix| + |paths| - l.i
  {
    InvAlways(paths, n);
    var l := After(paths, n);
    if l.At? {
      InvAlways(paths, n + 1);
      assert After(paths, n + 1) == Step(paths, l);
      if l.i < |paths| && l.prefix != "" && !(l.prefix <= paths[l.i]) {
        ShrinkIsDirectory(l.prefix);
      }
      HaltsWithin(paths, n + 1);
    }
  }

  /** With an absolute first path and a relative one at `j`, the loop never gets past `j`. */
  lemma {:induction false} StuckBefore(paths: seq<string>, j: nat, n: nat)
    requires AllUsable(paths)
    requires j < |paths| && Absolute(paths[0]) && !Absolute(paths[j])
    ensures After(paths, n).At? && After(paths, n).i <= j
  {
    if n > 0 {
      StuckBefore(paths, j, n - 1);
      InvAlways(paths, n - 1);
    }
  }

  /** The loops end exactly when the first usable path is relative or all of them are absolute. */
  lemma HaltsIffSameKind(paths: seq<string>)
    ensures Halts(Usable(paths)) <==> SameKind(Usable(paths))
  {
    UsableIsFilter(paths);
    var usable := Usable(paths);
    if SameKind(usable) {
      HaltsWithin(usable, 0);
    } else {
      var j :| 0 <= j < |usable| && !Absolute(usable[j]);
      forall n
        ensures !After(usable, n).Done?
      {
        StuckBefore(usable, j, n);
      }
    }
  }

  lemma MixedPathsNeverHalt()
    ensures !Halts(Usable(["/a/b", "c/d"]))
  {
    var paths := ["/a/b", "c/d"];
    assert "/a/b"[0] == SLASH && "c/d"[1] == SLASH;
    assert paths[1..] == ["c/d"] && paths[1..][1..] == [];
    assert Usable(paths) == paths;
    HaltsIffSameKind(paths);
  }

  // --- Shortening ---

  function Shorten(path: string, prefix: string): string {
    if |prefix| > 0 && prefix <= path then path[|prefix|..] else path
  }

  /** What is under a prefix loses it; everything else comes back unchanged. */
  lemma ShortenIsExact(path: string, prefix: string)
    ensures prefix <= path ==> prefix + Shorten(path, prefix) == path
    ensures !(prefix <= path) ==> Shorten(path, prefix) == path
  {
    if prefix == "" {
      assert "" + path == path;
    }
  }

  /** With a computed prefix, every usable path is the prefix followed by its shortened form. */
  lemma ShortenLosesNothing(paths: seq<string>, r: string, path: string)
    requires IsAnswer(r, Usable(paths)) && path in paths && '/' in path
    ensures r + Shorten(path, r) == path
  {
    UsableIsFilter(paths);
    var i :| 0 <= i < |Usable(paths)| && Usable(paths)[i] == path;
  }
}
