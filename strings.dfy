/** String and path helpers used by the walker, the renderer and the argument parser. */
module Strings {

  /** `s.substr(-1) === '/'`: the last character is a slash (false for the empty string). */
  predicate EndsWithSlash(s: string) {
    |s| > 0 && s[|s| - 1] == '/'
  }

  /** `s.startsWith(prefix)`. */
  predicate StartsWith(s: string, prefix: string) {
    |prefix| <= |s| && s[..|prefix|] == prefix
  }

  /**
   * trimTrailingSlash: the result is `s` itself or `s` without its last
   * character, and it is the shorter one exactly when `s` ends in a slash.
   */
  function TrimTrailingSlash(s: string): (r: string)
    ensures r <= s
    ensures |r| == |s| || |r| == |s| - 1
    ensures |r| == |s| - 1 <==> EndsWithSlash(s)
  {
    if EndsWithSlash(s) then s[..|s| - 1] else s
  }

  /** `path.join(dir, name)`, without the normalisation of `.`, `..` and repeated slashes. */
  function Join(dir: string, name: string): (r: string)
    ensures StartsWith(r, dir + "/")
    ensures r[|dir| + 1..] == name
  {
    dir + "/" + name
  }

  /** `path.basename(p)`: the text after the last slash. */
  function BaseName(p: string): (r: string)
    ensures '/' !in r
    ensures |r| <= |p| && p[|p| - |r|..] == r
    ensures |r| < |p| ==> p[|p| - |r| - 1] == '/'
  {
    if p == [] || p[|p| - 1] == '/' then []
    else BaseName(p[..|p| - 1]) + [p[|p| - 1]]
  }

  /** The label of a joined path is the entry name, whenever that name holds no slash. */
  lemma {:induction false} BaseNameOfJoin(dir: string, name: string)
    requires '/' !in name
    ensures BaseName(Join(dir, name)) == name
  {
    var p := Join(dir, name);
    if name == [] {
      assert p[|p| - 1] == '/';
    } else {
      var last := name[|name| - 1];
      assert p[..|p| - 1] == Join(dir, name[..|name| - 1]);
      BaseNameOfJoin(dir, name[..|name| - 1]);
      assert name == name[..|name| - 1] + [last];
    }
  }

  /** No path occurs twice. */
  ghost predicate NoDuplicates(s: seq<string>) {
    forall i, j :: 0 <= i < j < |s| ==> s[i] != s[j]
  }
}
