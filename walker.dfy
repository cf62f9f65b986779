/**
 * The project finder: a depth-first walk from a workspace root that reports
 * every directory holding a `.git` entry as a project, descends into the
 * subdirectories of every other directory, and inside a project descends
 * only into the submodules its `.gitmodules` file lists.
 */
module Walker {
  import opened Types
  import opened Paths
  import opened Classifier
  import opened Submodules

  /**
   * What the walk can observe of the file system: the entry names of every
   * directory that can be listed, the paths that are directories, the text
   * of every readable file, and every `package.json` that can be read and
   * parsed. A path missing from `listings` is one whose listing fails.
   */
  datatype FileSystem = FileSystem(
    listings: map<string, seq<string>>,
    directories: set<string>,
    texts: map<string, string>,
    manifests: map<string, Manifest>)

  /** The directory entries of `dir` as the walk records them, in listing order. */
  function Children(fs: FileSystem, dir: string): seq<ChildInfo>
    requires dir in fs.listings
  {
    var names := fs.listings[dir];
    seq(|names|, i requires 0 <= i < |names| =>
      ChildInfo(names[i], Join(dir, names[i]), Join(dir, names[i]) in fs.directories))
  }

  /** Some entry is named exactly `name` (`some` with `===`). */
  predicate HasNamed(children: seq<ChildInfo>, name: string)
  {
    exists i :: 0 <= i < |children| && children[i].name == name
  }

  /** `dir` can be listed and has an entry named exactly ".git". */
  predicate IsGitDir(fs: FileSystem, dir: string)
  {
    dir in fs.listings && HasNamed(Children(fs, dir), ".git")
  }

  /** The entries that are directories, in order. */
  function Dirs(children: seq<ChildInfo>): (r: seq<ChildInfo>)
    ensures forall c :: c in r <==> c in children && c.isDir
  {
    if children == [] then []
    else Dirs(children[..|children| - 1]) + (if children[|children| - 1].isDir then [children[|children| - 1]] else [])
  }

  /** The project record reported for the repository at `dir`. */
  function GitProject(hash: string -> string, dir: string, projectType: string): Project
  {
    Project(hash(dir), Basename(dir), dir, projectType, 0, "")
  }

  /** What the walk reports for `dir` itself: its project record when it is a repository. */
  function Found(fs: FileSystem, hash: string -> string, dir: string): (r: Result<seq<Project>>)
    requires dir in fs.listings
    ensures r.Ok? && IsGitDir(fs, dir) ==> ProjectTypeParse(Children(fs, dir), fs.manifests).Ok? &&
                                           r.value == [GitProject(hash, dir, ProjectTypeParse(Children(fs, dir), fs.manifests).value)]
    ensures r.Ok? && !IsGitDir(fs, dir) ==> r.value == []
    ensures r.Err? <==> IsGitDir(fs, dir) && ProjectTypeParse(Children(fs, dir), fs.manifests).Err?
  {
    var children := Children(fs, dir);
    if !HasNamed(children, ".git") then Ok([])
    else match ProjectTypeParse(children, fs.manifests)
      case Err(f) => Err(f)
      case Ok(t) => Ok([GitProject(hash, dir, t)])
  }

  /** `findSubmodules`: the file is read (a read failure is a fault) and scanned. */
  function ReadSubmodules(fs: FileSystem, filePath: string): (r: Result<seq<ChildInfo>>)
    ensures r.Err? <==> filePath !in fs.texts
    ensures r.Ok? ==> r.value == FindSubmodules(filePath, fs.texts[filePath])
  {
    if filePath in fs.texts then Ok(FindSubmodules(filePath, fs.texts[filePath])) else Err(ReadFailed(filePath))
  }

  /**
   * The entries the walk descends into: the subdirectories of a plain
   * directory, the submodules of a repository with `.gitmodules`, nothing
   * for any other repository.
   */
  function NextLevel(fs: FileSystem, dir: string): (r: Result<seq<ChildInfo>>)
    requires dir in fs.listings
    ensures !IsGitDir(fs, dir) ==> r == Ok(Dirs(Children(fs, dir)))
    ensures IsGitDir(fs, dir) && !HasNamed(Children(fs, dir), ".gitmodules") ==> r == Ok([])
    ensures IsGitDir(fs, dir) && HasNamed(Children(fs, dir), ".gitmodules") ==> r == ReadSubmodules(fs, Join(dir, ".gitmodules"))
  {
    var children := Children(fs, dir);
    if !HasNamed(children, ".git") then Ok(Dirs(children))
    else if HasNamed(children, ".gitmodules") then ReadSubmodules(fs, Join(dir, ".gitmodules"))
    else Ok([])
  }

  /** The number of listable paths at least as long as `dir`: it drops at every step down. */
  function Measure(fs: FileSystem, dir: string): nat
  {
    var longer := set k | k in fs.listings && |k| >= |dir|;
    |longer|
  }

  lemma MeasureDrops(fs: FileSystem, dir: string, name: string)
    requires dir in fs.listings
    ensures Measure(fs, Join(dir, name)) < Measure(fs, dir)
  {
    var below := set k | k in fs.listings && |k| >= |Join(dir, name)|;
    var here := set k | k in fs.listings && |k| >= |dir|;
    assert below <= here - {dir};
    SubsetSize(below, here - {dir});
  }

  lemma {:induction false} SubsetSize(a: set<string>, b: set<string>)
    requires a <= b
    ensures |a| <= |b|
    decreases |a|
  {
    if a != {} {
      var x :| x in a;
      SubsetSize(a - {x}, b - {x});
    }
  }

  /**
   * `findProject(dir)`: an unlistable directory yields nothing; otherwise
   * the directory's own record, then the walks of its next level in order.
   * A fault anywhere aborts the whole walk.
   */
  function Walk(fs: FileSystem, hash: string -> string, dir: string): Result<seq<Project>>
    decreases Measure(fs, dir), 1, 0
  {
    if dir !in fs.listings then Ok([])
    else match Found(fs, hash, dir)
      case Err(f) => Err(f)
      case Ok(head) =>
        match NextLevel(fs, dir)
        case Err(f) => Err(f)
        case Ok(next) =>
          match WalkSeq(fs, hash, dir, next)
          case Err(f) => Err(f)
          case Ok(rest) => Ok(head + rest)
  }

  /** The walks of `Join(dir, x.name)` for the entries `x` of `xs`, concatenated, stopping at the first fault. */
  function WalkSeq(fs: FileSystem, hash: string -> string, dir: string, xs: seq<ChildInfo>): Result<seq<Project>>
    requires dir in fs.listings
    decreases Measure(fs, dir), 0, |xs|
  {
    if xs == [] then Ok([])
    else
      match WalkSeq(fs, hash, dir, xs[..|xs| - 1])
      case Err(f) => Err(f)
      case Ok(ps) =>
        MeasureDrops(fs, dir, xs[|xs| - 1].name);
        match Walk(fs, hash, Join(dir, xs[|xs| - 1].name))
        case Err(f) => Err(f)
        case Ok(qs) => Ok(ps + qs)
  }

  /** Once a prefix of the entries faults, the whole sequence faults the same way. */
  lemma {:induction false} WalkSeqPrefixErr(fs: FileSystem, hash: string -> string, dir: string, xs: seq<ChildInfo>, k: nat)
    requires dir in fs.listings && k <= |xs|
    requires WalkSeq(fs, hash, dir, xs[..k]).Err?
    ensures WalkSeq(fs, hash, dir, xs) == WalkSeq(fs, hash, dir, xs[..k])
    decreases |xs|
  {
    if k < |xs| {
      var init := xs[..|xs| - 1];
      assert init[..k] == xs[..k];
      WalkSeqPrefixErr(fs, hash, dir, init, k);
    } else {
      assert xs[..k] == xs;
    }
  }

  /** The first loop of `findProject`: one entry per listed name, a directory when `stat` says so. */
  method ListChildren(fs: FileSystem, dirPath: string) returns (currentChildren: seq<ChildInfo>)
    requires dirPath in fs.listings
    ensures currentChildren == Children(fs, dirPath)
  {
    var dirIter := fs.listings[dirPath];
    currentChildren := [];
    for i := 0 to |dirIter|
      invariant currentChildren == Children(fs, dirPath)[..i]
    {
      var itemPath := Join(dirPath, dirIter[i]);
      var isDir := itemPath in fs.directories;
      currentChildren := currentChildren + [ChildInfo(dirIter[i], itemPath, isDir)];
    }
  }

  /** `findProject`: the walk from `dirPath`. */
  method FindProject(fs: FileSystem, hash: string -> string, dirPath: string) returns (r: Result<seq<Project>>)
    ensures r == Walk(fs, hash, dirPath)
    decreases Measure(fs, dirPath), 1
  {
    if dirPath !in fs.listings {
      return Ok([]);
    }
    var currentChildren := ListChildren(fs, dirPath);
    var isGitProject := HasNamed(currentChildren, ".git");
    var hasSubmodules := HasNamed(currentChildren, ".gitmodules");
    var result: seq<Project> := [];
    if isGitProject {
      var projectType := ProjectTypeParse(currentChildren, fs.manifests);
      if projectType.Err? {
        return Err(projectType.fault);
      }
      result := [GitProject(hash, dirPath, projectType.value)];
    }
    var nextLevelDir: seq<ChildInfo> := [];
    if !isGitProject {
      nextLevelDir := Dirs(currentChildren);
    }
    if isGitProject && hasSubmodules {
      var modules := ReadSubmodules(fs, Join(dirPath, ".gitmodules"));
      if modules.Err? {
        return Err(modules.fault);
      }
      nextLevelDir := modules.value;
    }
    assert Found(fs, hash, dirPath) == Ok(result);
    assert NextLevel(fs, dirPath) == Ok(nextLevelDir);
    var rest := FindEach(fs, hash, dirPath, nextLevelDir);
    if rest.Err? {
      return Err(rest.fault);
    }
    return Ok(result + rest.value);
  }

  /** The second loop of `findProject`: the walks of the next level, in order, each awaited before the next. */
  method FindEach(fs: FileSystem, hash: string -> string, dirPath: string, nextLevelDir: seq<ChildInfo>) returns (r: Result<seq<Project>>)
    requires dirPath in fs.listings
    ensures r == WalkSeq(fs, hash, dirPath, nextLevelDir)
    decreases Measure(fs, dirPath), 0
  {
    var result: seq<Project> := [];
    for i := 0 to |nextLevelDir|
      invariant WalkSeq(fs, hash, dirPath, nextLevelDir[..i]) == Ok(result)
    {
      var dir := nextLevelDir[i];
      assert nextLevelDir[..i + 1][..i] == nextLevelDir[..i];
      MeasureDrops(fs, dirPath, dir.name);
      var sub := FindProject(fs, hash, Join(dirPath, dir.name));
      if sub.Err? {
        WalkSeqPrefixErr(fs, hash, dirPath, nextLevelDir, i + 1);
        return Err(sub.fault);
      }
      result := result + sub.value;
    }
    assert nextLevelDir[..|nextLevelDir|] == nextLevelDir;
    return Ok(result);
  }

  /** A directory whose listing fails contributes nothing and raises no fault. */
  lemma UnlistableYieldsNothing(fs: FileSystem, hash: string -> string, dir: string)
    requires dir !in fs.listings
    ensures Walk(fs, hash, dir) == Ok([])
  {
  }

  /** `path` is `dir` or lies below it. */
  predicate Under(dir: string, path: string)
  {
    path == dir || (|dir| < |path| && path[..|dir| + 1] == dir + "/")
  }

  lemma UnderJoin(dir: string, name: string, path: string)
    requires Under(Join(dir, name), path)
    ensures Under(dir, path)
  {
    var j := Join(dir, name);
    assert path[..|dir| + 1] == j[..|dir| + 1];
  }

  /**
   * A reported record describes a listable repository at or below the root:
   * its id is the hash of its path, its name the path's last component, its
   * type the classifier's label, with no hits and no editor.
   */
  ghost predicate Reported(fs: FileSystem, hash: string -> string, root: string, p: Project)
  {
    && Under(root, p.path)
    && IsGitDir(fs, p.path)
    && ProjectTypeParse(Children(fs, p.path), fs.manifests) == Ok(p.projectType)
    && p == GitProject(hash, p.path, p.projectType)
  }

  lemma {:induction false} WalkSound(fs: FileSystem, hash: string -> string, dir: string)
    ensures Walk(fs, hash, dir).Ok? ==> forall p :: p in Walk(fs, hash, dir).value ==> Reported(fs, hash, dir, p)
    decreases Measure(fs, dir), 1, 0
  {
    if dir in fs.listings && Walk(fs, hash, dir).Ok? {
      var next := NextLevel(fs, dir).value;
      WalkSeqSound(fs, hash, dir, next);
    }
  }

  lemma {:induction false} WalkSeqSound(fs: FileSystem, hash: string -> string, dir: string, xs: seq<ChildInfo>)
    requires dir in fs.listings
    ensures WalkSeq(fs, hash, dir, xs).Ok? ==> forall p :: p in WalkSeq(fs, hash, dir, xs).value ==> Reported(fs, hash, dir, p)
    decreases Measure(fs, dir), 0, |xs|
  {
    if xs != [] && WalkSeq(fs, hash, dir, xs).Ok? {
      var name := xs[|xs| - 1].name;
      WalkSeqSound(fs, hash, dir, xs[..|xs| - 1]);
      MeasureDrops(fs, dir, name);
      WalkSound(fs, hash, Join(dir, name));
      forall p | p in Walk(fs, hash, Join(dir, name)).value ensures Under(dir, p.path) {
        UnderJoin(dir, name, p.path);
      }
    }
  }

  /** The sequence walk succeeds exactly when every entry's walk does. */
  lemma {:induction false} WalkSeqOk(fs: FileSystem, hash: string -> string, dir: string, xs: seq<ChildInfo>)
    requires dir in fs.listings
    ensures WalkSeq(fs, hash, dir, xs).Ok? <==> forall j :: 0 <= j < |xs| ==> Walk(fs, hash, Join(dir, xs[j].name)).Ok?
    decreases |xs|
  {
    if xs != [] {
      var init := xs[..|xs| - 1];
      WalkSeqOk(fs, hash, dir, init);
      assert forall j :: 0 <= j < |init| ==> init[j] == xs[j];
    }
  }

  /** A successful sequence walk contains what the walk of each of its entries reports. */
  lemma {:induction false} WalkSeqIncludes(fs: FileSystem, hash: string -> string, dir: string, xs: seq<ChildInfo>, j: nat)
    requires dir in fs.listings && j < |xs| && WalkSeq(fs, hash, dir, xs).Ok?
    ensures Walk(fs, hash, Join(dir, xs[j].name)).Ok?
    ensures forall p :: p in Walk(fs, hash, Join(dir, xs[j].name)).value ==> p in WalkSeq(fs, hash, dir, xs).value
    decreases |xs|
  {
    var init := xs[..|xs| - 1];
    if j < |init| {
      assert init[j] == xs[j];
      WalkSeqIncludes(fs, hash, dir, init, j);
    }
  }

  /** Every entry of the next level is walked, and what its walk reports is reported. */
  lemma NextLevelIncluded(fs: FileSystem, hash: string -> string, dir: string, c: ChildInfo)
    requires dir in fs.listings && NextLevel(fs, dir).Ok? && c in NextLevel(fs, dir).value
    requires Walk(fs, hash, dir).Ok?
    ensures Walk(fs, hash, Join(dir, c.name)).Ok?
    ensures forall p :: p in Walk(fs, hash, Join(dir, c.name)).value ==> p in Walk(fs, hash, dir).value
  {
    var next := NextLevel(fs, dir).value;
    var j :| 0 <= j < |next| && next[j] == c;
    WalkSeqIncludes(fs, hash, dir, next, j);
  }

  /** A fault in the walk of any next-level entry aborts the walk of `dir`. */
  lemma FaultPropagates(fs: FileSystem, hash: string -> string, dir: string, c: ChildInfo)
    requires dir in fs.listings && NextLevel(fs, dir).Ok? && c in NextLevel(fs, dir).value
    requires Walk(fs, hash, Join(dir, c.name)).Err?
    ensures Walk(fs, hash, dir).Err?
  {
    if Walk(fs, hash, dir).Ok? {
      NextLevelIncluded(fs, hash, dir, c);
    }
  }

  /** A successful walk is the directory's own record followed by the walks of its next level. */
  lemma WalkParts(fs: FileSystem, hash: string -> string, dir: string)
    requires dir in fs.listings && Walk(fs, hash, dir).Ok?
    ensures Found(fs, hash, dir).Ok? && NextLevel(fs, dir).Ok?
    ensures WalkSeq(fs, hash, dir, NextLevel(fs, dir).value).Ok?
    ensures Walk(fs, hash, dir).value == Found(fs, hash, dir).value + WalkSeq(fs, hash, dir, NextLevel(fs, dir).value).value
  {
  }

  /** A repository leads its own walk's results. */
  lemma RepositoryFirst(fs: FileSystem, hash: string -> string, dir: string)
    requires IsGitDir(fs, dir) && Walk(fs, hash, dir).Ok?
    ensures ProjectTypeParse(Children(fs, dir), fs.manifests).Ok?
    ensures |Walk(fs, hash, dir).value| > 0
    ensures Walk(fs, hash, dir).value[0] == GitProject(hash, dir, ProjectTypeParse(Children(fs, dir), fs.manifests).value)
  {
    WalkParts(fs, hash, dir);
    var head := Found(fs, hash, dir).value;
    var rest := WalkSeq(fs, hash, dir, NextLevel(fs, dir).value).value;
    assert (head + rest)[0] == head[0];
  }

  /** A directory with nothing to descend into yields exactly its own record, or its fault. */
  lemma LeafWalk(fs: FileSystem, hash: string -> string, dir: string)
    requires dir in fs.listings
    requires Found(fs, hash, dir).Err? || NextLevel(fs, dir) == Ok([])
    ensures Walk(fs, hash, dir) == Found(fs, hash, dir)
  {
    if Found(fs, hash, dir).Ok? {
      assert WalkSeq(fs, hash, dir, []) == Ok([]);
      assert Found(fs, hash, dir).value + [] == Found(fs, hash, dir).value;
    }
  }

  /** A repository without `.gitmodules` is not searched further: nested repositories are not reported. */
  lemma RepositoryStops(fs: FileSystem, hash: string -> string, dir: string)
    requires IsGitDir(fs, dir) && !HasNamed(Children(fs, dir), ".gitmodules")
    ensures Walk(fs, hash, dir) == Found(fs, hash, dir)
  {
    LeafWalk(fs, hash, dir);
  }

  /** Inside a repository, every submodule path listed in `.gitmodules` is walked. */
  lemma SubmodulesWalked(fs: FileSystem, hash: string -> string, dir: string, m: string)
    requires IsGitDir(fs, dir) && HasNamed(Children(fs, dir), ".gitmodules")
    requires Join(dir, ".gitmodules") in fs.texts && m in MatchModules(fs.texts[Join(dir, ".gitmodules")])
    requires Walk(fs, hash, dir).Ok?
    ensures Walk(fs, hash, Join(dir, m)).Ok?
    ensures forall p :: p in Walk(fs, hash, Join(dir, m)).value ==> p in Walk(fs, hash, dir).value
  {
    var f := Join(dir, ".gitmodules");
    var modules := MatchModules(fs.texts[f]);
    var i :| 0 <= i < |modules| && modules[i] == m;
    var c := FindSubmodules(f, fs.texts[f])[i];
    assert c in NextLevel(fs, dir).value;
    NextLevelIncluded(fs, hash, dir, c);
  }

  /** A subdirectory of a plain directory is walked; a plain file is not. */
  lemma PlainDirectoryDescends(fs: FileSystem, hash: string -> string, dir: string, name: string)
    requires dir in fs.listings && !IsGitDir(fs, dir)
    requires name in fs.listings[dir] && Join(dir, name) in fs.directories
    requires Walk(fs, hash, dir).Ok?
    ensures Walk(fs, hash, Join(dir, name)).Ok?
    ensures forall p :: p in Walk(fs, hash, Join(dir, name)).value ==> p in Walk(fs, hash, dir).value
  {
    var names := fs.listings[dir];
    var i :| 0 <= i < |names| && names[i] == name;
    var c := Children(fs, dir)[i];
    assert c in Children(fs, dir);
    NextLevelIncluded(fs, hash, dir, c);
  }

  /** The path reached from `dir` by entering the entries `names` one after another. */
  function Descend(dir: string, names: seq<string>): string
    decreases |names|
  {
    if names == [] then dir else Descend(Join(dir, names[0]), names[1..])
  }

  /** Every step of the descent enters a listed subdirectory of a plain, listable directory. */
  ghost predicate PlainChain(fs: FileSystem, dir: string, names: seq<string>)
    decreases |names|
  {
    names == [] ||
    (dir in fs.listings && !IsGitDir(fs, dir) && names[0] in fs.listings[dir] &&
     Join(dir, names[0]) in fs.directories && PlainChain(fs, Join(dir, names[0]), names[1..]))
  }

  /**
   * Completeness: a repository reached from the root through plain
   * directories only is reported by a walk that succeeds.
   */
  lemma {:induction false} ReachableRepositoryReported(fs: FileSystem, hash: string -> string, dir: string, names: seq<string>)
    requires PlainChain(fs, dir, names) && IsGitDir(fs, Descend(dir, names))
    requires Walk(fs, hash, dir).Ok?
    ensures ProjectTypeParse(Children(fs, Descend(dir, names)), fs.manifests).Ok?
    ensures GitProject(hash, Descend(dir, names), ProjectTypeParse(Children(fs, Descend(dir, names)), fs.manifests).value)
              in Walk(fs, hash, dir).value
    decreases |names|
  {
    if names == [] {
      RepositoryFirst(fs, hash, dir);
    } else {
      PlainDirectoryDescends(fs, hash, dir, names[0]);
      ReachableRepositoryReported(fs, hash, Join(dir, names[0]), names[1..]);
    }
  }

  /** Every manifest and every `.gitmodules` that a listing shows can be read. */
  ghost predicate Readable(fs: FileSystem)
  {
    forall k :: k in fs.listings ==>
      ("package.json" in fs.listings[k] ==> Join(k, "package.json") in fs.manifests) &&
      (".gitmodules" in fs.listings[k] ==> Join(k, ".gitmodules") in fs.texts)
  }

  lemma NamedIsListed(fs: FileSystem, dir: string, name: string)
    requires dir in fs.listings && HasNamed(Children(fs, dir), name)
    ensures name in fs.listings[dir]
  {
    var i :| 0 <= i < |Children(fs, dir)| && Children(fs, dir)[i].name == name;
    assert fs.listings[dir][i] == name;
  }

  /** Over a file system whose manifests and `.gitmodules` files are all readable, the walk never faults. */
  lemma {:induction false} ReadableWalkSucceeds(fs: FileSystem, hash: string -> string, dir: string)
    requires Readable(fs)
    ensures Walk(fs, hash, dir).Ok?
    decreases Measure(fs, dir), 1, 0
  {
    if dir in fs.listings {
      var children := Children(fs, dir);
      var first := FirstNamed(children, "package.json");
      if first.Some? {
        var i :| 0 <= i < |children| && children[i] == first.value && first.value.name == "package.json";
        assert fs.listings[dir][i] == "package.json";
      }
      if HasNamed(children, ".gitmodules") {
        NamedIsListed(fs, dir, ".gitmodules");
      }
      var next := NextLevel(fs, dir).value;
      ReadableWalkSeqSucceeds(fs, hash, dir, next);
    }
  }

  lemma {:induction false} ReadableWalkSeqSucceeds(fs: FileSystem, hash: string -> string, dir: string, xs: seq<ChildInfo>)
    requires Readable(fs) && dir in fs.listings
    ensures WalkSeq(fs, hash, dir, xs).Ok?
    decreases Measure(fs, dir), 0, |xs|
  {
    if xs != [] {
      ReadableWalkSeqSucceeds(fs, hash, dir, xs[..|xs| - 1]);
      MeasureDrops(fs, dir, xs[|xs| - 1].name);
      ReadableWalkSucceeds(fs, hash, Join(dir, xs[|xs| - 1].name));
    }
  }
}
