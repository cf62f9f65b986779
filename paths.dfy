/**
 * POSIX path helpers as the walker uses them: joining a directory and an
 * entry name, the directory part of a path, and the last component of a
 * path. Joining does not normalise (no collapsing of "//", "." or "..").
 */
module Paths {

  /** `path.join(dir, name)` without normalisation. */
  function Join(dir: string, name: string): (r: string)
    ensures |r| == |dir| + 1 + |name| && r[..|dir|] == dir && r[|dir|] == '/' && r[|dir| + 1..] == name
  {
    dir + "/" + name
  }

  /** Everything before the last "/", or "." when there is none. */
  function Dirname(p: string): (r: string)
    ensures |r| <= |p| || r == "."
  {
    if |p| == 0 then "."
    else if p[|p| - 1] == '/' then p[..|p| - 1]
    else Dirname(p[..|p| - 1])
  }

  /** Drops every trailing "/". */
  function TrimTrailingSlashes(p: string): (r: string)
    ensures |r| <= |p| && r == p[..|r|]
    ensures r == [] || r[|r| - 1] != '/'
    ensures forall i :: |r| <= i < |p| ==> p[i] == '/'
  {
    if |p| > 0 && p[|p| - 1] == '/' then TrimTrailingSlashes(p[..|p| - 1]) else p
  }

  /** The part of `p` after its last "/" (all of `p` when it has none). */
  function AfterLastSlash(p: string): (r: string)
    ensures |r| <= |p| && r == p[|p| - |r|..]
    ensures '/' !in r
    ensures |r| < |p| ==> p[|p| - |r| - 1] == '/'
  {
    if |p| == 0 then ""
    else if p[|p| - 1] == '/' then ""
    else AfterLastSlash(p[..|p| - 1]) + [p[|p| - 1]]
  }

  /** `path.basename(p)`: the last component, ignoring trailing slashes. */
  function Basename(p: string): (r: string)
    ensures '/' !in r
  {
    AfterLastSlash(TrimTrailingSlashes(p))
  }

  /** The directory part of a joined path is the directory it was joined to. */
  lemma {:induction false} DirnameJoin(dir: string, name: string)
    requires '/' !in name
    ensures Dirname(Join(dir, name)) == dir
  {
    var p := Join(dir, name);
    if |name| > 0 {
      assert p[..|p| - 1] == Join(dir, name[..|name| - 1]);
      DirnameJoin(dir, name[..|name| - 1]);
    } else {
      assert p[..|p| - 1] == dir;
    }
  }

  /** The name of a joined path's last component is the entry name. */
  lemma BasenameJoin(dir: string, name: string)
    requires name != [] && '/' !in name
    ensures Basename(Join(dir, name)) == name
  {
    var p := Join(dir, name);
    assert TrimTrailingSlashes(p) == p by {
      assert p[|p| - 1] == name[|name| - 1];
    }
    AfterLastSlashJoin(dir, name);
  }

  lemma {:induction false} AfterLastSlashJoin(dir: string, name: string)
    requires '/' !in name
    ensures AfterLastSlash(Join(dir, name)) == name
  {
    var p := Join(dir, name);
    if |name| > 0 {
      assert p[..|p| - 1] == Join(dir, name[..|name| - 1]);
      AfterLastSlashJoin(dir, name[..|name| - 1]);
      assert name == name[..|name| - 1] + [name[|name| - 1]];
    } else {
      assert p[|p| - 1] == '/';
    }
  }
}
