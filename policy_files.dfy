/**
 * `PolicyFile` of policy-build.ts: a policy file's name and its (mutable) text.
 * The sub-folder it was found in is not modelled.
 */
module PolicyFiles {

  class PolicyFile {
    /** The base name of the file's path. */
    const fileName: string
    /** The file's XML text; the renumbering pass may replace it. */
    var data: string

    constructor (path: string, data: string)
      ensures fileName == BaseName(path) && this.data == data
    {
      fileName := BaseName(path);
      this.data := data;
    }
  }

  /** `path` without its trailing `/` characters. */
  function TrimTrailingSlashes(path: string): (t: string)
    ensures t <= path
    ensures forall k :: |t| <= k < |path| ==> path[k] == '/'
    ensures t == [] || t[|t| - 1] != '/'
    decreases |path|
  {
    if path != [] && path[|path| - 1] == '/' then TrimTrailingSlashes(path[..|path| - 1]) else path
  }

  /** The part of `s` after its last `/` (all of `s` when it has none). */
  function AfterLastSlash(s: string): (r: string)
    ensures |r| <= |s| && r == s[|s| - |r|..]
    ensures forall k :: 0 <= k < |r| ==> r[k] != '/'
    ensures |r| == |s| || s[|s| - |r| - 1] == '/'
    decreases |s|
  {
    if s == [] || s[|s| - 1] == '/' then [] else AfterLastSlash(s[..|s| - 1]) + [s[|s| - 1]]
  }

  /**
   * The base name of a `/`-separated path, as the path library's `basename`
   * computes it: trailing separators are ignored and the last segment is
   * returned. The result is a whole segment of the path, contains no `/`,
   * is followed only by `/` characters, and is empty only for a path made of
   * `/` characters alone.
   */
  function BaseName(path: string): (name: string)
    ensures forall k :: 0 <= k < |name| ==> name[k] != '/'
    ensures exists i, j :: 0 <= i <= j <= |path| && name == path[i..j]
                           && (i == 0 || path[i - 1] == '/')
                           && (forall k :: j <= k < |path| ==> path[k] == '/')
    ensures name == [] ==> forall k :: 0 <= k < |path| ==> path[k] == '/'
  {
    var t := TrimTrailingSlashes(path);
    var r := AfterLastSlash(t);
    assert path[|t| - |r|..|t|] == r;
    r
  }
}
