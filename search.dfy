/**
 * `batchFindProject`: the walk of every workspace root named by the
 * preference, concatenated in the order the roots are listed.
 */
module Search {
  import opened Types
  import opened Walker
  import opened Workspace

  /** The walks of `roots`, concatenated in order, stopping at the first fault. */
  function WalkAll(fs: FileSystem, hash: string -> string, roots: seq<string>): Result<seq<Project>>
    decreases |roots|
  {
    if roots == [] then Ok([])
    else
      match WalkAll(fs, hash, roots[..|roots| - 1])
      case Err(f) => Err(f)
      case Ok(ps) =>
        match Walk(fs, hash, roots[|roots| - 1])
        case Err(f) => Err(f)
        case Ok(qs) => Ok(ps + qs)
  }

  lemma {:induction false} WalkAllPrefixErr(fs: FileSystem, hash: string -> string, roots: seq<string>, k: nat)
    requires k <= |roots| && WalkAll(fs, hash, roots[..k]).Err?
    ensures WalkAll(fs, hash, roots) == WalkAll(fs, hash, roots[..k])
    decreases |roots|
  {
    if k < |roots| {
      var init := roots[..|roots| - 1];
      assert init[..k] == roots[..k];
      WalkAllPrefixErr(fs, hash, init, k);
    } else {
      assert roots[..k] == roots;
    }
  }

  /** One more root extends the batch by that root's walk. */
  lemma WalkAllStep(fs: FileSystem, hash: string -> string, roots: seq<string>, i: nat)
    requires i < |roots|
    ensures WalkAll(fs, hash, roots[..i + 1]) ==
      match WalkAll(fs, hash, roots[..i])
      case Err(f) => Err(f)
      case Ok(ps) =>
        match Walk(fs, hash, roots[i])
        case Err(f) => Err(f)
        case Ok(qs) => Ok(ps + qs)
  {
    assert roots[..i + 1][..i] == roots[..i];
  }

  /** `batchFindProject`: the roots named by the preference, walked one after another. */
  method BatchFindProject(fs: FileSystem, hash: string -> string, preferences: Preferences, home: string)
    returns (r: Result<seq<Project>>)
    ensures r == WalkAll(fs, hash, Workspaces(preferences.workspace, home))
  {
    var workspaces := Split(ExpandHome(preferences.workspace, home));
    var projectList: seq<Project> := [];
    for i := 0 to |workspaces|
      invariant WalkAll(fs, hash, workspaces[..i]) == Ok(projectList)
    {
      var dirPath := workspaces[i];
      var children := FindProject(fs, hash, dirPath);
      WalkAllStep(fs, hash, workspaces, i);
      if children.Err? {
        WalkAllPrefixErr(fs, hash, workspaces, i + 1);
        return Err(children.fault);
      }
      projectList := projectList + children.value;
    }
    assert workspaces[..|workspaces|] == workspaces;
    return Ok(projectList);
  }

  /** The batch succeeds exactly when the walk of every root does. */
  lemma {:induction false} WalkAllOk(fs: FileSystem, hash: string -> string, roots: seq<string>)
    ensures WalkAll(fs, hash, roots).Ok? <==> forall i :: 0 <= i < |roots| ==> Walk(fs, hash, roots[i]).Ok?
    decreases |roots|
  {
    if roots != [] {
      var ok := (root: string) => Walk(fs, hash, root).Ok?;
      WalkAllOk(fs, hash, roots[..|roots| - 1]);
      EveryRootSnoc(roots, ok);
    }
  }

  ghost predicate EveryRoot(roots: seq<string>, ok: string -> bool)
  {
    forall i :: 0 <= i < |roots| ==> ok(roots[i])
  }

  lemma EveryRootSnoc(roots: seq<string>, ok: string -> bool)
    requires roots != []
    ensures EveryRoot(roots, ok) <==> EveryRoot(roots[..|roots| - 1], ok) && ok(roots[|roots| - 1])
  {
    var init := roots[..|roots| - 1];
    assert forall i :: 0 <= i < |init| ==> init[i] == roots[i];
  }

  /** A fault aborts the batch with the fault of the first root whose walk fails. */
  lemma {:induction false} WalkAllFirstFault(fs: FileSystem, hash: string -> string, roots: seq<string>, k: nat)
    requires k < |roots| && Walk(fs, hash, roots[k]).Err?
    requires forall i :: 0 <= i < k ==> Walk(fs, hash, roots[i]).Ok?
    ensures WalkAll(fs, hash, roots) == Err(Walk(fs, hash, roots[k]).fault)
    decreases |roots|
  {
    var init := roots[..|roots| - 1];
    if k < |init| {
      assert init[k] == roots[k];
      WalkAllFirstFault(fs, hash, init, k);
    } else {
      assert init == roots[..k];
      WalkAllOk(fs, hash, init);
    }
  }

  /** The walk of `root` succeeds and reports `p`. */
  ghost predicate FoundAt(fs: FileSystem, hash: string -> string, root: string, p: Project)
  {
    Walk(fs, hash, root).Ok? && p in Walk(fs, hash, root).value
  }

  lemma WalkAllSnoc(fs: FileSystem, hash: string -> string, roots: seq<string>)
    requires roots != [] && WalkAll(fs, hash, roots).Ok?
    ensures WalkAll(fs, hash, roots[..|roots| - 1]).Ok? && Walk(fs, hash, roots[|roots| - 1]).Ok?
    ensures WalkAll(fs, hash, roots).value ==
            WalkAll(fs, hash, roots[..|roots| - 1]).value + Walk(fs, hash, roots[|roots| - 1]).value
  {
  }

  /** `p` is among the projects the walk of some root reports. */
  ghost predicate FoundUnder(fs: FileSystem, hash: string -> string, roots: seq<string>, p: Project)
  {
    AnyRoot(roots, (root: string) => FoundAt(fs, hash, root, p))
  }

  ghost predicate AnyRoot(roots: seq<string>, found: string -> bool)
  {
    exists i :: 0 <= i < |roots| && found(roots[i])
  }

  lemma AnyRootSnoc(roots: seq<string>, found: string -> bool)
    requires roots != []
    ensures AnyRoot(roots, found) <==> AnyRoot(roots[..|roots| - 1], found) || found(roots[|roots| - 1])
  {
    var init := roots[..|roots| - 1];
    if AnyRoot(roots, found) {
      var i :| 0 <= i < |roots| && found(roots[i]);
      if i < |init| {
        assert init[i] == roots[i];
      }
    }
    if AnyRoot(init, found) {
      var i :| 0 <= i < |init| && found(init[i]);
      assert init[i] == roots[i];
    }
  }

  /** A successful batch holds exactly what the walks of its roots report. */
  lemma {:induction false} WalkAllMembers(fs: FileSystem, hash: string -> string, roots: seq<string>)
    requires WalkAll(fs, hash, roots).Ok?
    ensures forall p :: p in WalkAll(fs, hash, roots).value <==> FoundUnder(fs, hash, roots, p)
    decreases |roots|
  {
    if roots != [] {
      var init := roots[..|roots| - 1];
      WalkAllSnoc(fs, hash, roots);
      WalkAllMembers(fs, hash, init);
      forall p
        ensures p in WalkAll(fs, hash, roots).value <==> FoundUnder(fs, hash, roots, p)
      {
        AnyRootSnoc(roots, (root: string) => FoundAt(fs, hash, root, p));
      }
    }
  }

  /** Every project the batch reports is a repository at or below one of the roots. */
  lemma BatchSound(fs: FileSystem, hash: string -> string, roots: seq<string>, p: Project)
    requires WalkAll(fs, hash, roots).Ok? && p in WalkAll(fs, hash, roots).value
    ensures exists i :: 0 <= i < |roots| && Reported(fs, hash, roots[i], p)
  {
    WalkAllMembers(fs, hash, roots);
    assert FoundUnder(fs, hash, roots, p);
    var i :| 0 <= i < |roots| && FoundAt(fs, hash, roots[i], p);
    WalkSound(fs, hash, roots[i]);
  }
}
