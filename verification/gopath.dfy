/** The two helpers of Go's `path/filepath` package that the backend relies on, with `/` as
    the only separator: `Ext` picks the `.mp4` files (backend/main.go:118) and `Base` turns a
    path into the video id (backend/main.go:133). */
module GoPath {

  const Separator: char := '/'

  predicate EndsWith(s: string, suffix: string) {
    |suffix| <= |s| && s[|s| - |suffix|..] == suffix
  }

  /** The extension found when scanning `path[..i]` backwards: it starts at the last dot
      that comes after the last separator. */
  function ExtBefore(path: string, i: nat): (e: string)
    requires i <= |path|
    ensures e == [] || exists k :: 0 <= k < i && path[k] == '.' && e == path[k..]
    decreases i
  {
    if i == 0 || path[i - 1] == Separator then ""
    else if path[i - 1] == '.' then path[i - 1..]
    else ExtBefore(path, i - 1)
  }

  /** `filepath.Ext`: the suffix from the final dot of the final element, or "". */
  function Ext(path: string): string {
    ExtBefore(path, |path|)
  }

  /** A walked file counts as a video exactly when its name ends in ".mp4" (case matters). */
  lemma ExtIsMp4Exactly(path: string)
    ensures Ext(path) == ".mp4" <==> EndsWith(path, ".mp4")
  {
    var n := |path|;
    if EndsWith(path, ".mp4") {
      assert path[n - 1] == '4' && path[n - 2] == 'p' && path[n - 3] == 'm' && path[n - 4] == '.';
      assert ExtBefore(path, n) == ExtBefore(path, n - 1) == ExtBefore(path, n - 2) == ExtBefore(path, n - 3);
      assert ExtBefore(path, n - 3) == path[n - 4..];
    }
    if Ext(path) == ".mp4" {
      var k :| 0 <= k < n && path[k] == '.' && ".mp4" == path[k..];
      assert k == n - 4;
    }
  }

  function TrimTrailingSeparators(s: string): (r: string)
    ensures r <= s
    ensures |r| == 0 || r[|r| - 1] != Separator
    decreases |s|
  {
    if |s| > 0 && s[|s| - 1] == Separator then TrimTrailingSeparators(s[..|s| - 1]) else s
  }

  /** The part of `s` after its last separator (all of `s` when there is none). */
  function LastElement(s: string): (r: string)
    ensures Separator !in r
    ensures EndsWith(s, r)
    decreases |s|
  {
    if |s| == 0 || s[|s| - 1] == Separator then ""
    else
      var rest := LastElement(s[..|s| - 1]);
      assert s[..|s| - 1][|s| - 1 - |rest|..] == rest;
      assert s[|s| - 1 - |rest|..] == s[..|s| - 1][|s| - 1 - |rest|..] + [s[|s| - 1]];
      rest + [s[|s| - 1]]
  }

  /** `filepath.Base`: the last element after trailing separators are dropped; "." for the
      empty path and "/" for a path made only of separators. */
  function Base(path: string): (b: string)
    ensures |b| > 0
    ensures b == "/" || Separator !in b
  {
    if path == "" then "."
    else
      var trimmed := TrimTrailingSeparators(path);
      if trimmed == "" then "/"
      else
        var last := LastElement(trimmed);
        assert last[|last| - 1] == trimmed[|trimmed| - 1];
        last
  }

  lemma {:induction false} LastElementAfterSeparator(dir: string, name: string)
    requires Separator !in name
    ensures LastElement(dir + [Separator] + name) == name
    decreases |name|
  {
    var s := dir + [Separator] + name;
    if |name| == 0 {
      assert s[|s| - 1] == Separator;
    } else {
      var init := name[..|name| - 1];
      assert s[..|s| - 1] == dir + [Separator] + init;
      assert s[|s| - 1] == name[|name| - 1];
      LastElementAfterSeparator(dir, init);
      assert name == init + [name[|name| - 1]];
    }
  }

  lemma {:induction false} LastElementOfName(name: string)
    requires Separator !in name
    ensures LastElement(name) == name
    decreases |name|
  {
    if |name| > 0 {
      var init := name[..|name| - 1];
      LastElementOfName(init);
      assert name == init + [name[|name| - 1]];
    }
  }

  /** The base of a file path is its file name, whatever directory it sits in. */
  lemma BaseOfFileName(dir: string, name: string)
    requires |name| > 0 && Separator !in name
    ensures Base(dir + [Separator] + name) == name
    ensures Base(name) == name
  {
    var s := dir + [Separator] + name;
    assert s[|s| - 1] == name[|name| - 1];
    assert TrimTrailingSeparators(s) == s;
    LastElementAfterSeparator(dir, name);
    assert TrimTrailingSeparators(name) == name;
    LastElementOfName(name);
  }
}
