/**
 * File.dirname, File.basename and File.join for Unix paths, as Ruby's File
 * class computes them, and the subsample output naming built from them.
 */
module Paths {
  import opened Wrappers

  /** Index of the last '/' in `p`, if any. */
  function LastSlash(p: string): (r: Option<nat>)
    ensures r.Some? ==> r.value < |p| && p[r.value] == '/'
    ensures r.Some? ==> forall j :: r.value < j < |p| ==> p[j] != '/'
    ensures r.None? ==> '/' !in p
  {
    if p == [] then None
    else if p[|p| - 1] == '/' then Some(|p| - 1)
    else
      var r := LastSlash(p[..|p| - 1]);
      assert p == p[..|p| - 1] + [p[|p| - 1]];
      r
  }

  /** Drops trailing slashes, keeping a lone "/" for a path made only of slashes. */
  function StripTrailingSlashes(p: string): (q: string)
    ensures |q| <= |p| && q == p[..|q|]
    ensures |p| >= 1 ==> |q| >= 1
    ensures |q| >= 1 && q[|q| - 1] == '/' ==> q == "/"
    ensures |p| >= 1 && p[|p| - 1] != '/' ==> q == p
  {
    if |p| > 1 && p[|p| - 1] == '/' then StripTrailingSlashes(p[..|p| - 1]) else p
  }

  /** File.basename: the last component, trailing slashes ignored. */
  function Basename(p: string): string
  {
    var q := StripTrailingSlashes(p);
    if q == "/" then "/"
    else match LastSlash(q)
      case None => q
      case Some(i) => q[i + 1..]
  }

  /** File.dirname: everything before the last component, "." when there is none. */
  function Dirname(p: string): string
  {
    var q := StripTrailingSlashes(p);
    if q == "/" then "/"
    else match LastSlash(q)
      case None => "."
      case Some(i) => StripTrailingSlashes(q[..i + 1])
  }

  /** File.join of a directory and a plain file name: one '/' between them. */
  function Join(dir: string, name: string): string
  {
    if |dir| >= 1 && dir[|dir| - 1] == '/' then dir + name else dir + "/" + name
  }

  /** A path that names a file: not empty and not only slashes. */
  predicate NamesFile(p: string)
  {
    exists i :: 0 <= i < |p| && p[i] != '/'
  }

  lemma DirnameShape(p: string)
    ensures |Dirname(p)| >= 1
    ensures Dirname(p)[|Dirname(p)| - 1] == '/' ==> Dirname(p) == "/"
  {
  }

  lemma {:induction false} StripKeepsNonSlash(p: string, i: nat)
    requires i < |p| && p[i] != '/'
    ensures i < |StripTrailingSlashes(p)|
    decreases |p|
  {
    if |p| > 1 && p[|p| - 1] == '/' {
      StripKeepsNonSlash(p[..|p| - 1], i);
    }
  }

  lemma BasenameHasNoSlash(p: string)
    requires NamesFile(p)
    ensures '/' !in Basename(p)
  {
    var i :| 0 <= i < |p| && p[i] != '/';
    StripKeepsNonSlash(p, i);
    var q := StripTrailingSlashes(p);
    assert q[i] == p[i];
    assert q != "/";
    match LastSlash(q)
    case None =>
    case Some(k) =>
      var tail := q[k + 1..];
      forall j | 0 <= j < |tail| ensures tail[j] != '/' {
        assert tail[j] == q[k + 1 + j];
      }
  }

  /**
   * The subsample output naming: "subset." prefixed to the basename, placed in
   * the input's own directory.
   */
  function SubsetPath(p: string): string
  {
    Join(Dirname(p), "subset." + Basename(p))
  }

  /** A directory prefix ending in '/' followed by a plain name: the name is the last component. */
  lemma LastComponent(pre: string, name: string)
    requires |pre| >= 1 && pre[|pre| - 1] == '/'
    requires |name| >= 1 && '/' !in name
    ensures StripTrailingSlashes(pre + name) == pre + name
    ensures LastSlash(pre + name) == Some(|pre| - 1)
    ensures (pre + name)[|pre|..] == name && (pre + name)[..|pre|] == pre
  {
    var s := pre + name;
    assert s[|s| - 1] == name[|name| - 1];
    var k := |pre| - 1;
    forall j | k < j < |s| ensures s[j] != '/' {
      assert s[j] == name[j - |pre|];
    }
    assert s[k] == '/';
    var r := LastSlash(s);
    assert r.Some? && r.value == k;
  }

  /**
   * Taking the output path apart gives back the input's directory and the
   * prefixed input basename.
   */
  lemma SubsetPathParts(p: string)
    requires NamesFile(p)
    ensures Dirname(SubsetPath(p)) == Dirname(p)
    ensures Basename(SubsetPath(p)) == "subset." + Basename(p)
  {
    var d, name := Dirname(p), "subset." + Basename(p);
    DirnameShape(p);
    BasenameHasNoSlash(p);
    forall j | 0 <= j < |name| ensures name[j] != '/' {
      if j >= 7 {
        assert name[j] == Basename(p)[j - 7];
      }
    }
    var pre := if d == "/" then d else d + "/";
    assert SubsetPath(p) == pre + name;
    LastComponent(pre, name);
    if d != "/" {
      assert StripTrailingSlashes(pre) == StripTrailingSlashes(d);
    }
  }
}
